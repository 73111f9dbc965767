/**
  The service object of `BankingService.java`: a map from account id to the
  live `Account` objects it stores, with the three operations the transport
  layer calls. Each method is proved to change the stored accounts exactly as
  the functions of the same name in `Ledger` prescribe, so the lemmas proved
  there (conservation, the check order, the history pairing) hold of it.
*/
module BankingService {
  import opened Wrappers
  import opened Decimals
  import opened Accounts
  import opened Ledger

  class Bank<Id(==)> {
    /** The `accounts` HashMap: each id maps to the one live account object stored under it. */
    var accounts: map<Id, Account<Id>>
    /** How ids and amounts are written into histories and messages. */
    const render: Render<Id>

    /** Every account is stored under its own id, and no object is stored twice. */
    ghost predicate Valid()
      reads this, accounts.Values
    {
      && (forall k | k in accounts :: accounts[k].id == k)
      && (forall j, k | j in accounts && k in accounts && j != k :: accounts[j] != accounts[k])
    }

    /** A snapshot of every stored account. */
    ghost function State(): Store<Id>
      reads this, accounts.Values
    {
      map k | k in accounts :: accounts[k].State()
    }

    constructor (render: Render<Id>)
      ensures Valid() && this.render == render
      ensures accounts == map[] && State() == map[]
    {
      this.render := render;
      accounts := map[];
    }

    /**
      `createAccount`. `newId` is the identifier the UUID generator drew; as
      with `HashMap.put`, an account already stored under it would be replaced.
      A failure leaves the map as it was; a success stores and returns a new
      account object.
    */
    method CreateAccount(customerId: Id, balanceText: string, newId: Id) returns (r: Result<Account<Id>, Error<Id>>)
      requires Valid()
      modifies this
      ensures Valid()
      ensures r.Failure? ==> && Ledger.CreateAccount(old(State()), customerId, balanceText, newId, render) == Failure(r.error)
                             && accounts == old(accounts)
      ensures r.Success? ==> && Ledger.CreateAccount(old(State()), customerId, balanceText, newId, render) == Success(State())
                             && fresh(r.value) && accounts == old(accounts)[newId := r.value]
    {
      var parsed := Parse(balanceText);
      if parsed.None? {
        return Failure(InvalidAmount(balanceText));
      }
      var initialBalance := parsed.value;
      if IntValue(initialBalance) < 0 {
        return Failure(NegativeBalance(initialBalance));
      }
      var account := Open(newId, initialBalance, customerId);
      return Success(account);
    }

    /** The last two steps of `createAccount`: construct the account and put it under its id. */
    method Open(id: Id, balance: Dec, customerId: Id) returns (account: Account<Id>)
      requires Valid()
      modifies this
      ensures Valid() && fresh(account)
      ensures accounts == old(accounts)[id := account]
      ensures State() == old(State())[id := Opened(id, balance, customerId, render.ofDec)]
    {
      ghost var s := State();
      account := new Account(id, balance, customerId, render.ofDec);
      accounts := accounts[id := account];
      assert State() == s[id := account.State()];
    }

    /** `getAccount`: the live object stored under `id`, or not-found; nothing changes. */
    method GetAccount(id: Id) returns (r: Result<Account<Id>, Error<Id>>)
      ensures r.Success? <==> id in accounts
      ensures r.Success? ==> r.value == accounts[id]
      ensures r.Failure? ==> r.error == AccountNotFound(id)
      ensures Ledger.GetAccount(State(), id) ==
        (if r.Success? then Success(r.value.State()) else Failure(AccountNotFound(id)))
    {
      if id !in accounts {
        return Failure(AccountNotFound(id));
      }
      return Success(accounts[id]);
    }

    /**
      `transfer`. Every check comes before the first change, so a rejected
      transfer changes no account; an accepted one changes the two named
      accounts exactly as `Ledger.Transfer` says and nothing else.
    */
    method Transfer(fromId: Id, toId: Id, amountText: string) returns (r: Outcome<Error<Id>>)
      requires Valid()
      modifies accounts.Values
      ensures Valid() && accounts == old(accounts)
      ensures r.Fail? ==> && Ledger.Transfer(old(State()), fromId, toId, amountText, render) == Failure(r.error)
                          && unchanged(accounts.Values) && State() == old(State())
      ensures r.Pass? ==> Ledger.Transfer(old(State()), fromId, toId, amountText, render) == Success(State())
      ensures r.Pass? ==> Total(State()) == Total(old(State()))
    {
      ghost var s := State();
      var parsed := Parse(amountText);
      if parsed.None? {
        return Fail(InvalidAmount(amountText));
      }
      var amount := parsed.value;
      if Value(amount) <= 0.0 {
        return Fail(NonPositiveAmount(amount));
      }
      if fromId == toId {
        return Fail(SameAccount);
      }
      if fromId !in accounts {
        return Fail(FromAccountNotFound(fromId));
      }
      if toId !in accounts {
        return Fail(ToAccountNotFound(toId));
      }
      var from := accounts[fromId];
      var fromBalance := from.balance;
      if Value(amount) > Value(fromBalance) {
        return Fail(InsufficientFunds(fromId, fromBalance));
      }
      var to := accounts[toId];
      assert from != to;

      from.balance := Sub(fromBalance, amount);
      var transfer := TransferMessage(render, amount, fromId, toId);
      from.transfers := from.transfers + [transfer];

      to.balance := Add(to.balance, amount);
      to.transfers := to.transfers + [transfer];

      assert State() == s[fromId := from.State()][toId := to.State()];
      TransferConservesTotal(s, fromId, toId, amountText, render);
      return Pass;
    }
  }
}
