/**
  The ledger of `BankingService.java` as a function of values: the store is a
  map from account id to account snapshot, and each service operation is a
  function from the old store to either a new store or the error the service
  throws. The class in BankingService is proved to follow these functions;
  the lemmas here state what the source promises about them.
*/
module Ledger {
  import opened Wrappers
  import opened Decimals
  import opened Accounts

  type Store<Id> = map<Id, AccountState<Id>>

  /** The failures the service reports, each with the data its message shows. */
  datatype Error<Id> =
    | InvalidAmount(text: string)
    | NegativeBalance(balance: Dec)
    | NonPositiveAmount(amount: Dec)
    | SameAccount
    | FromAccountNotFound(fromId: Id)
    | ToAccountNotFound(toId: Id)
    | InsufficientFunds(fromId: Id, balance: Dec)
    | AccountNotFound(id: Id)

  /** How ids (`UUID.toString`) and amounts (`BigDecimal.toString`) are written into text. */
  datatype Render<!Id> = Render(ofId: Id -> string, ofDec: Dec -> string)

  /** The reason text of the exception the service throws for each error. */
  function Reason<Id>(render: Render<Id>, e: Error<Id>): string {
    match e
    case InvalidAmount(text) => "Amount , " + text + " is not a valid amount."
    case NegativeBalance(b) => "Balance, " + render.ofDec(b) + ", is less than 0."
    case NonPositiveAmount(a) => "Amount, " + render.ofDec(a) + ", is not greater than 0."
    case SameAccount => "Can't transfer money to the same account."
    case FromAccountNotFound(id) => "From Account " + render.ofId(id) + " not found."
    case ToAccountNotFound(id) => "To Account " + render.ofId(id) + " not found."
    case InsufficientFunds(id, b) =>
      "From Account " + render.ofId(id) + " does not have enough balance. Balance is " + render.ofDec(b)
    case AccountNotFound(id) => "Account " + render.ofId(id) + " not found."
  }

  /** The entry a transfer appends to both histories. */
  function TransferMessage<Id>(render: Render<Id>, amount: Dec, fromId: Id, toId: Id): string {
    "Transferred " + render.ofDec(amount) + " from " + render.ofId(fromId) + " to " + render.ofId(toId)
  }

  // ---------------------------------------------------------------------------
  // The three operations

  /**
    `createAccount`: parse the opening balance, reject it when `intValue()` is
    negative, and put a new account under `newId`, the identifier the UUID
    generator supplied. As with `HashMap.put`, an existing entry under that
    identifier would be replaced.
  */
  function CreateAccount<Id(==)>(s: Store<Id>, customerId: Id, text: string, newId: Id, render: Render<Id>)
    : Result<Store<Id>, Error<Id>>
  {
    match Parse(text)
    case None => Failure(InvalidAmount(text))
    case Some(balance) =>
      if IntValue(balance) < 0 then Failure(NegativeBalance(balance))
      else Success(s[newId := Opened(newId, balance, customerId, render.ofDec)])
  }

  /** `getAccount`: the stored account, or not-found. */
  function GetAccount<Id(==)>(s: Store<Id>, id: Id): (r: Result<AccountState<Id>, Error<Id>>)
    ensures id in s ==> r == Success(s[id])
    ensures r.Failure? ==> id !in s
  {
    if id in s then Success(s[id]) else Failure(AccountNotFound(id))
  }

  /**
    `transfer`: six checks in order, the first failure winning; only when all
    pass are the source debited, the destination credited and one message
    appended to both histories.
  */
  function Transfer<Id(==)>(s: Store<Id>, fromId: Id, toId: Id, text: string, render: Render<Id>)
    : Result<Store<Id>, Error<Id>>
  {
    match Parse(text)
    case None => Failure(InvalidAmount(text))
    case Some(amount) =>
      if Value(amount) <= 0.0 then Failure(NonPositiveAmount(amount))
      else if fromId == toId then Failure(SameAccount)
      else if fromId !in s then Failure(FromAccountNotFound(fromId))
      else if toId !in s then Failure(ToAccountNotFound(toId))
      else if Value(amount) > Value(s[fromId].balance) then Failure(InsufficientFunds(fromId, s[fromId].balance))
      else
        var message := TransferMessage(render, amount, fromId, toId);
        var from := s[fromId];
        var to := s[toId];
        Success(s[fromId := from.(balance := Sub(from.balance, amount), history := from.history + [message])]
                 [toId := to.(balance := Add(to.balance, amount), history := to.history + [message])])
  }

  // ---------------------------------------------------------------------------
  // Invariants of a store

  /** Every account is stored under its own id. */
  ghost predicate WellKeyed<Id>(s: Store<Id>) {
    forall k | k in s :: s[k].id == k
  }

  ghost predicate AllNonNegative<Id>(s: Store<Id>) {
    forall k | k in s :: Value(s[k].balance) >= 0.0
  }

  ghost function Pick<Id>(s: Store<Id>): Id
    requires s != map[]
  {
    var k :| k in s; k
  }

  /** The sum of all balances. */
  ghost function Total<Id>(s: Store<Id>): real
    decreases |s|
  {
    if s == map[] then 0.0
    else
      var k := Pick(s);
      assert |s - {k}| < |s| by { assert (s - {k}).Keys == s.Keys - {k}; }
      Value(s[k].balance) + Total(s - {k})
  }

  /** The total does not depend on which account is counted first. */
  lemma {:induction false} TotalRemove<Id>(s: Store<Id>, k: Id)
    requires k in s
    ensures Total(s) == Value(s[k].balance) + Total(s - {k})
    decreases |s|
  {
    var j := Pick(s);
    if j != k {
      assert (s - {j}).Keys == s.Keys - {j};
      assert (s - {k}).Keys == s.Keys - {k};
      TotalRemove(s - {j}, k);
      TotalRemove(s - {k}, j);
      assert s - {j} - {k} == s - {k} - {j};
    }
  }

  lemma {:induction false} TotalUpdate<Id>(s: Store<Id>, k: Id, a: AccountState<Id>)
    requires k in s
    ensures Total(s[k := a]) == Total(s) - Value(s[k].balance) + Value(a.balance)
  {
    TotalRemove(s, k);
    TotalRemove(s[k := a], k);
    assert s[k := a] - {k} == s - {k};
  }

  lemma {:induction false} TotalInsert<Id>(s: Store<Id>, k: Id, a: AccountState<Id>)
    requires k !in s
    ensures Total(s[k := a]) == Total(s) + Value(a.balance)
  {
    TotalRemove(s[k := a], k);
    assert s[k := a] - {k} == s;
  }

  // ---------------------------------------------------------------------------
  // Transfer

  /** A transfer goes through exactly when every one of the six checks passes. */
  lemma {:induction false} TransferSucceedsIff<Id>(s: Store<Id>, fromId: Id, toId: Id, text: string, render: Render<Id>)
    ensures Transfer(s, fromId, toId, text, render).Success? <==>
      match Parse(text)
      case None => false
      case Some(amount) =>
        && Value(amount) > 0.0
        && fromId != toId
        && fromId in s
        && toId in s
        && Value(amount) <= Value(s[fromId].balance)
  {
  }

  /**
    The checks run in a fixed order and the first failing one decides the
    error: each error is reported exactly when every earlier check passed and
    its own failed.
  */
  lemma {:induction false} TransferFirstFailureWins<Id>(s: Store<Id>, fromId: Id, toId: Id, text: string, render: Render<Id>)
    ensures var r := Transfer(s, fromId, toId, text, render);
      && (r == Failure(InvalidAmount(text)) <==> Parse(text).None?)
      && (Parse(text).Some? ==>
            var amount := Parse(text).value;
            && (r == Failure(NonPositiveAmount(amount)) <==> Value(amount) <= 0.0)
            && (r == Failure(SameAccount) <==> Value(amount) > 0.0 && fromId == toId)
            && (r == Failure(FromAccountNotFound(fromId)) <==>
                  Value(amount) > 0.0 && fromId != toId && fromId !in s)
            && (r == Failure(ToAccountNotFound(toId)) <==>
                  Value(amount) > 0.0 && fromId != toId && fromId in s && toId !in s)
            && (fromId in s ==>
                  (r == Failure(InsufficientFunds(fromId, s[fromId].balance)) <==>
                     Value(amount) > 0.0 && fromId != toId && toId in s
                     && Value(amount) > Value(s[fromId].balance))))
      && (r.Failure? ==> r.error.InvalidAmount? || r.error.NonPositiveAmount? || r.error.SameAccount?
                         || r.error.FromAccountNotFound? || r.error.ToAccountNotFound? || r.error.InsufficientFunds?)
  {
  }

  /**
    A successful transfer debits the source and credits the destination by
    the parsed, positive amount; the source cannot go below zero, and the two
    balances together are unchanged.
  */
  lemma {:induction false} TransferMovesAmount<Id>(s: Store<Id>, fromId: Id, toId: Id, text: string, render: Render<Id>)
    requires Transfer(s, fromId, toId, text, render).Success?
    ensures Parse(text).Some?
    ensures var amount, s' := Parse(text).value, Transfer(s, fromId, toId, text, render).value;
      && fromId in s && toId in s && fromId in s' && toId in s'
      && Value(amount) > 0.0
      && Value(s'[fromId].balance) == Value(s[fromId].balance) - Value(amount)
      && Value(s'[toId].balance) == Value(s[toId].balance) + Value(amount)
      && Value(s'[fromId].balance) >= 0.0
      && Value(s'[fromId].balance) + Value(s'[toId].balance) == Value(s[fromId].balance) + Value(s[toId].balance)
  {
  }

  /** Conservation: a successful transfer leaves the sum of all balances unchanged. */
  lemma {:induction false} TransferConservesTotal<Id>(s: Store<Id>, fromId: Id, toId: Id, text: string, render: Render<Id>)
    requires Transfer(s, fromId, toId, text, render).Success?
    ensures Total(Transfer(s, fromId, toId, text, render).value) == Total(s)
  {
    var amount := Parse(text).value;
    var message := TransferMessage(render, amount, fromId, toId);
    var from, to := s[fromId], s[toId];
    var from' := from.(balance := Sub(from.balance, amount), history := from.history + [message]);
    var to' := to.(balance := Add(to.balance, amount), history := to.history + [message]);
    var s1 := s[fromId := from'];
    TotalUpdate(s, fromId, from');
    assert toId in s1 && s1[toId] == to;
    TotalUpdate(s1, toId, to');
    assert Transfer(s, fromId, toId, text, render).value == s1[toId := to'];
  }

  /**
    A successful transfer appends exactly one entry to each of the two
    histories, the same `"Transferred {amount} from {fromId} to {toId}"` to
    both, and keeps every earlier entry.
  */
  lemma {:induction false} TransferRecordsHistory<Id>(s: Store<Id>, fromId: Id, toId: Id, text: string, render: Render<Id>)
    requires Transfer(s, fromId, toId, text, render).Success?
    ensures Parse(text).Some? && fromId in s && toId in s
    ensures var s', message := Transfer(s, fromId, toId, text, render).value,
                               TransferMessage(render, Parse(text).value, fromId, toId);
      && s'[fromId].history == s[fromId].history + [message]
      && s'[toId].history == s[toId].history + [message]
      && s'[fromId].history[|s'[fromId].history| - 1] == s'[toId].history[|s'[toId].history| - 1]
  {
  }

  /**
    A transfer touches only the two named accounts: the same ids are stored,
    every other account is unchanged, and the two keep their ids and owners.
  */
  lemma {:induction false} TransferTouchesOnlyTwo<Id>(s: Store<Id>, fromId: Id, toId: Id, text: string, render: Render<Id>)
    requires Transfer(s, fromId, toId, text, render).Success?
    ensures var s' := Transfer(s, fromId, toId, text, render).value;
      && s'.Keys == s.Keys
      && (forall k | k in s && k != fromId && k != toId :: s'[k] == s[k])
      && (forall k | k in s :: s'[k].id == s[k].id && s'[k].customerId == s[k].customerId)
  {
  }

  /** Transfers keep every account stored under its own id and every balance non-negative. */
  lemma {:induction false} TransferPreservesInvariants<Id>(s: Store<Id>, fromId: Id, toId: Id, text: string, render: Render<Id>)
    requires Transfer(s, fromId, toId, text, render).Success?
    ensures WellKeyed(s) ==> WellKeyed(Transfer(s, fromId, toId, text, render).value)
    ensures AllNonNegative(s) ==> AllNonNegative(Transfer(s, fromId, toId, text, render).value)
  {
    TransferMovesAmount(s, fromId, toId, text, render);
    TransferTouchesOnlyTwo(s, fromId, toId, text, render);
  }

  // ---------------------------------------------------------------------------
  // Create and get

  /**
    Account creation fails on text that does not parse, with the raw text in
    the error, and on a balance whose `intValue()` is negative; it succeeds
    otherwise.
  */
  lemma {:induction false} CreateAccountOutcome<Id>(s: Store<Id>, customerId: Id, text: string, newId: Id, render: Render<Id>)
    ensures var r := CreateAccount(s, customerId, text, newId, render);
      && (r == Failure(InvalidAmount(text)) <==> Parse(text).None?)
      && (Parse(text).Some? ==>
            (r == Failure(NegativeBalance(Parse(text).value)) <==> IntValue(Parse(text).value) < 0))
      && (r.Success? <==> Parse(text).Some? && IntValue(Parse(text).value) >= 0)
  {
  }

  /**
    A successful creation stores a new account under `newId` with the given
    owner, the parsed balance and the one opening entry, and leaves every
    other entry as it was; when `newId` is fresh it adds exactly that key,
    and the total grows by the opening balance.
  */
  lemma {:induction false} CreateAccountAdds<Id>(s: Store<Id>, customerId: Id, text: string, newId: Id, render: Render<Id>)
    requires CreateAccount(s, customerId, text, newId, render).Success?
    ensures Parse(text).Some?
    ensures var s', balance := CreateAccount(s, customerId, text, newId, render).value, Parse(text).value;
      && newId in s'
      && s'[newId].id == newId && s'[newId].customerId == customerId && s'[newId].balance == balance
      && s'[newId].history == ["Balance is " + render.ofDec(balance)]
      && (forall k | k in s && k != newId :: k in s' && s'[k] == s[k])
      && (newId !in s ==> s'.Keys == s.Keys + {newId} && |s'| == |s| + 1 && Total(s') == Total(s) + Value(balance))
  {
    var s', balance := CreateAccount(s, customerId, text, newId, render).value, Parse(text).value;
    if newId !in s {
      TotalInsert(s, newId, s'[newId]);
      assert |s'.Keys| == |s.Keys| + 1;
    }
  }

  /**
    What the `intValue() < 0` check guarantees of an accepted opening
    balance: when its integer part fits an `int`, it is above -1 (so
    `-0.5` passes); nothing otherwise.
  */
  lemma {:induction false} CreateAccountBalanceBound<Id>(s: Store<Id>, customerId: Id, text: string, newId: Id, render: Render<Id>)
    requires CreateAccount(s, customerId, text, newId, render).Success?
    ensures Parse(text).Some?
    ensures InInt32(Trunc(Parse(text).value)) ==> Value(Parse(text).value) > -1.0
  {
    var balance := Parse(text).value;
    assert IntValue(balance) >= 0;
    if InInt32(Trunc(balance)) {
      IntValueNegativeIff(balance);
    }
  }

  lemma {:induction false} CreateAccountKeepsWellKeyed<Id>(s: Store<Id>, customerId: Id, text: string, newId: Id, render: Render<Id>)
    requires WellKeyed(s) && CreateAccount(s, customerId, text, newId, render).Success?
    ensures WellKeyed(CreateAccount(s, customerId, text, newId, render).value)
  {
  }

  /** Lookup finds exactly the stored accounts, and reports every other id as not found. */
  lemma {:induction false} GetAccountFinds<Id>(s: Store<Id>, id: Id)
    ensures GetAccount(s, id).Success? <==> id in s
    ensures id in s ==> GetAccount(s, id).value == s[id]
    ensures id !in s ==> GetAccount(s, id) == Failure(AccountNotFound(id))
  {
  }
}
