/**
  One ledger account (`Account.java`): an identifier, a balance, the owning
  customer and an append-only history of human-readable entries. The class
  is the mutable record the service stores; `AccountState` is a snapshot of
  it as a value, which the ledger specification works with.
*/
module Accounts {
  import opened Decimals

  /** A snapshot of an account: its four fields as values. */
  datatype AccountState<Id> = AccountState(id: Id, balance: Dec, customerId: Id, history: seq<string>)

  /** The entry every history starts with: `"Balance is "` followed by the rendered opening balance. */
  function OpeningEntry(renderDec: Dec -> string, balance: Dec): string {
    "Balance is " + renderDec(balance)
  }

  /** The snapshot of a newly constructed account. */
  function Opened<Id>(id: Id, balance: Dec, customerId: Id, renderDec: Dec -> string): AccountState<Id> {
    AccountState(id, balance, customerId, [OpeningEntry(renderDec, balance)])
  }

  class Account<Id> {
    var id: Id
    var balance: Dec
    var customerId: Id
    /** The history; each account owns its own, so appending to one leaves every other account's unchanged. */
    var transfers: seq<string>

    /**
      Stores the three fields as given and starts the history with the one
      opening entry. `renderDec` is how the balance is written in that entry
      (`BigDecimal.toString`).
    */
    constructor (id: Id, balance: Dec, customerId: Id, renderDec: Dec -> string)
      ensures this.id == id && this.balance == balance && this.customerId == customerId
      ensures |transfers| == 1 && transfers[0] == "Balance is " + renderDec(balance)
      ensures State() == Opened(id, balance, customerId, renderDec)
    {
      this.id := id;
      this.balance := balance;
      this.customerId := customerId;
      this.transfers := [];
      this.transfers := this.transfers + [OpeningEntry(renderDec, balance)];
    }

    function State(): AccountState<Id>
      reads this
    {
      AccountState(id, balance, customerId, transfers)
    }
  }
}
