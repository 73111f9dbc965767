/**
  The service's unit tests (`BankingServiceTests.java`) restated as proved
  facts about the model, together with the consequences of checking the
  opening balance through `intValue()` rather than by comparing decimals.
*/
module Scenarios {
  import opened Wrappers
  import opened Decimals
  import opened Accounts
  import opened Ledger
  import opened BankingService

  // ---------------------------------------------------------------------------
  // The amounts the tests write, read as `BigDecimal(String)` reads them

  /** Appending a digit to a numeral multiplies its value by ten and adds the digit. */
  lemma {:induction false} DigitsValueSnoc(s: string, c: char)
    requires AllDigits(s) && IsDigit(c)
    ensures AllDigits(s + [c])
    ensures DigitsValue(s + [c]) == 10 * DigitsValue(s) + (c as int - '0' as int)
  {
    assert (s + [c])[..|s|] == s;
  }

  lemma {:induction false} ParsesZero()
    ensures Parse("0") == Some(Dec(0, 0))
  {
    ParseInteger(false, "0");
    assert SignText(false) + "0" == "0";
  }

  lemma {:induction false} ParsesTen()
    ensures Parse("10") == Some(Dec(10, 0))
  {
    ParseInteger(false, "10");
    assert SignText(false) + "10" == "10";
  }

  lemma {:induction false} ParsesHundred()
    ensures Parse("100") == Some(Dec(100, 0))
  {
    DigitsValueSnoc("", '1');
    DigitsValueSnoc("1", '0');
    DigitsValueSnoc("10", '0');
    ParseInteger(false, "100");
    assert SignText(false) + "100" == "100";
  }

  lemma {:induction false} ParsesMinusOne()
    ensures Parse("-1") == Some(Dec(-1, 0))
  {
    ParseInteger(true, "1");
    assert SignText(true) + "1" == "-1";
  }

  lemma {:induction false} ParsesMinusTen()
    ensures Parse("-10") == Some(Dec(-10, 0))
  {
    ParseInteger(true, "10");
    assert SignText(true) + "10" == "-10";
  }

  /** A fraction keeps its digits as the unscaled value and counts them in the scale. */
  lemma {:induction false} ParsesMinusHalf()
    ensures Parse("-0.5") == Some(Dec(-5, 1))
  {
    ParsePlain(true, "0", "5");
    assert SignText(true) + ("0" + "." + "5") == "-0.5";
    assert DigitsValue("0" + "5") == 5 by {
      assert ("0" + "5")[..1] == "0";
    }
  }

  /** An exponent moves the scale: `"1e3"` is 1 at scale -3. */
  lemma {:induction false} ParsesThousandByExponent()
    ensures Parse("1e3") == Some(Dec(1, -3))
  {
    assert ParseSignificand("1") == Some(Significand(1, 0)) by {
      SignificandWithoutPoint("1");
    }
    assert DigitsValue("3") == 3;
    ParseWithExponent(false, "1e3", "1", 'e', false, "3", Significand(1, 0), 3);
    assert "1" + ['e'] + (SignText(false) + "3") == "1e3";
    assert SignText(false) + "1e3" == "1e3";
  }

  /** A grouping comma is not part of the grammar. */
  lemma {:induction false} RejectsGroupingComma()
    ensures Parse("100,0") == None
  {
    ParseRejectsForeignChar("100,0", 3);
  }

  // ---------------------------------------------------------------------------
  // createAccount

  /**
    An amount whose exponent does not fit an `int` (such as `"1e2147483648"`)
    is an invalid amount for both operations, with the text in the error.
  */
  lemma {:induction false} ExponentOverflowIsInvalidAmount<Id>(s: Store<Id>, customerId: Id, newId: Id, fromId: Id, toId: Id,
                                                              render: Render<Id>, negative: bool, significand: string,
                                                              mark: char, expNegative: bool, expDigits: string)
    requires Unsigned(significand) && IsExponentMark(mark)
    requires AllDigits(expDigits) && |expDigits| > 0
    requires !InInt32(Signed(expNegative, DigitsValue(expDigits)))
    ensures var text := SignText(negative) + (significand + [mark] + (SignText(expNegative) + expDigits));
            && CreateAccount(s, customerId, text, newId, render) == Failure(InvalidAmount(text))
            && Transfer(s, fromId, toId, text, render) == Failure(InvalidAmount(text))
  {
    ParseRejectsExponentOverflow(negative, significand, mark, expNegative, expDigits);
  }

  /** `createAccountWithInvalidRequest`, first case: a balance of -1 is refused. */
  lemma {:induction false} CreateAccountRejectsNegative<Id>(s: Store<Id>, customerId: Id, newId: Id, render: Render<Id>)
    ensures CreateAccount(s, customerId, "-1", newId, render) == Failure(NegativeBalance(Dec(-1, 0)))
  {
    ParsesMinusOne();
  }

  /** The reason the test expects for that refusal, given that -1 is written `-1`. */
  lemma {:induction false} NegativeBalanceReason<Id>(render: Render<Id>)
    requires render.ofDec(Dec(-1, 0)) == "-1"
    ensures Reason(render, NegativeBalance(Dec(-1, 0))) == "Balance, -1, is less than 0."
  {
  }

  /** `createAccountWithInvalidRequest`, second case: `"100,0"` is not a number and is refused. */
  lemma {:induction false} CreateAccountRejectsMalformed<Id>(s: Store<Id>, customerId: Id, newId: Id, render: Render<Id>)
    ensures CreateAccount(s, customerId, "100,0", newId, render) == Failure(InvalidAmount("100,0"))
  {
    RejectsGroupingComma();
  }

  /** The reason the test expects for that refusal. */
  lemma {:induction false} InvalidAmountReason<Id>(render: Render<Id>)
    ensures Reason(render, InvalidAmount("100,0")) == "Amount , 100,0 is not a valid amount."
  {
  }

  /**
    Because only `intValue()` is compared with zero, a negative balance above
    -1 is accepted: `"-0.5"` opens an account whose balance is below zero.
  */
  lemma {:induction false} CreateAccountAcceptsNegativeFraction<Id>(s: Store<Id>, customerId: Id, newId: Id, render: Render<Id>)
    ensures Value(Dec(-5, 1)) < 0.0
    ensures CreateAccount(s, customerId, "-0.5", newId, render) ==
            Success(s[newId := Opened(newId, Dec(-5, 1), customerId, render.ofDec)])
  {
    ParsesMinusHalf();
  }

  /**
    Because `intValue()` keeps only the low 32 bits, a positive whole balance
    from 2^31 (`"2147483648"`) up to 2^32 - 1 reads as negative and is refused.
  */
  lemma {:induction false} CreateAccountRejectsWrappedPositive<Id>(s: Store<Id>, customerId: Id, text: string, newId: Id, render: Render<Id>)
    requires Parse(text).Some? && Parse(text).value.scale == 0
    requires 0x8000_0000 <= Parse(text).value.unscaled < 0x1_0000_0000
    ensures Value(Parse(text).value) > 0.0
    ensures CreateAccount(s, customerId, text, newId, render) == Failure(NegativeBalance(Parse(text).value))
  {
    WrapsToNegative(Parse(text).value);
  }

  lemma {:induction false} WrapsToNegative(b: Dec)
    requires b.scale == 0 && 0x8000_0000 <= b.unscaled < 0x1_0000_0000
    ensures Value(b) > 0.0 && IntValue(b) < 0
  {
    assert Trunc(b) == b.unscaled;
    assert Int32Wrap(b.unscaled) == b.unscaled - 0x1_0000_0000;
  }

  /**
    For the same reason, a negative whole balance from -(2^32) up to
    -(2^31) - 1 (`"-2147483649"`) reads as zero or positive and is accepted.
  */
  lemma {:induction false} CreateAccountAcceptsWrappedNegative<Id>(s: Store<Id>, customerId: Id, text: string, newId: Id, render: Render<Id>)
    requires Parse(text).Some? && Parse(text).value.scale == 0
    requires -0x1_0000_0000 <= Parse(text).value.unscaled < -0x8000_0000
    ensures Value(Parse(text).value) < 0.0
    ensures CreateAccount(s, customerId, text, newId, render) ==
            Success(s[newId := Opened(newId, Parse(text).value, customerId, render.ofDec)])
  {
    WrapsToNonNegative(Parse(text).value);
  }

  lemma {:induction false} WrapsToNonNegative(b: Dec)
    requires b.scale == 0 && -0x1_0000_0000 <= b.unscaled < -0x8000_0000
    ensures Value(b) < 0.0 && IntValue(b) >= 0
  {
    assert Trunc(b) == b.unscaled;
    assert Int32Wrap(b.unscaled) == b.unscaled + 0x1_0000_0000;
  }

  // ---------------------------------------------------------------------------
  // The accounts test, on stores

  /** The store once the test has opened its first account. */
  function OneOpened<Id>(render: Render<Id>, cust1: Id, id1: Id): Store<Id> {
    map[id1 := Opened(id1, Dec(0, 0), cust1, render.ofDec)]
  }

  /** The store once the test has opened its second account. */
  function TwoOpened<Id>(render: Render<Id>, cust1: Id, cust2: Id, id1: Id, id2: Id): Store<Id> {
    OneOpened(render, cust1, id1)[id2 := Opened(id2, Dec(10, 0), cust2, render.ofDec)]
  }

  /** The store once the test has opened all three accounts. */
  function ThreeOpened<Id>(render: Render<Id>, cust1: Id, cust2: Id, id1: Id, id2: Id, id3: Id): Store<Id> {
    TwoOpened(render, cust1, cust2, id1, id2)[id3 := Opened(id3, Dec(100, 0), cust2, render.ofDec)]
  }

  /** Opening the test's three accounts one after another succeeds each time. */
  lemma {:induction false} OpensThree<Id>(render: Render<Id>, cust1: Id, cust2: Id, id1: Id, id2: Id, id3: Id)
    ensures CreateAccount(map[], cust1, "0", id1, render) == Success(OneOpened(render, cust1, id1))
    ensures CreateAccount(OneOpened(render, cust1, id1), cust2, "10", id2, render)
         == Success(TwoOpened(render, cust1, cust2, id1, id2))
    ensures CreateAccount(TwoOpened(render, cust1, cust2, id1, id2), cust2, "100", id3, render)
         == Success(ThreeOpened(render, cust1, cust2, id1, id2, id3))
  {
    ParsesZero();
    ParsesTen();
    ParsesHundred();
  }

  /** How the three accounts read: each with its opening balance and the one opening entry. */
  lemma {:induction false} ThreeOpenedReads<Id>(render: Render<Id>, cust1: Id, cust2: Id, id1: Id, id2: Id, id3: Id)
    requires id1 != id2 && id1 != id3 && id2 != id3
    requires render.ofDec(Dec(0, 0)) == "0" && render.ofDec(Dec(10, 0)) == "10" && render.ofDec(Dec(100, 0)) == "100"
    ensures var s := ThreeOpened(render, cust1, cust2, id1, id2, id3);
            && s[id1] == AccountState(id1, Dec(0, 0), cust1, ["Balance is 0"])
            && s[id2] == AccountState(id2, Dec(10, 0), cust2, ["Balance is 10"])
            && s[id3] == AccountState(id3, Dec(100, 0), cust2, ["Balance is 100"])
  {
    OpeningEntries(render);
  }

  /** The opening entries of the test, as the test writes them out. */
  lemma {:induction false} OpeningEntries<Id>(render: Render<Id>)
    requires render.ofDec(Dec(0, 0)) == "0" && render.ofDec(Dec(10, 0)) == "10" && render.ofDec(Dec(100, 0)) == "100"
    ensures OpeningEntry(render.ofDec, Dec(0, 0)) == "Balance is 0"
    ensures OpeningEntry(render.ofDec, Dec(10, 0)) == "Balance is 10"
    ensures OpeningEntry(render.ofDec, Dec(100, 0)) == "Balance is 100"
  {
  }

  /** The five refused transfers of the test, each with the error the test expects. */
  lemma {:induction false} RefusesFive<Id>(render: Render<Id>, cust1: Id, cust2: Id, id1: Id, id2: Id, id3: Id, missing: Id)
    requires id1 != id2 && id1 != id3 && id2 != id3
    requires missing != id1 && missing != id2 && missing != id3
    ensures Transfer(ThreeOpened(render, cust1, cust2, id1, id2, id3), id1, id2, "10", render)
         == Failure(InsufficientFunds(id1, Dec(0, 0)))
    ensures Transfer(ThreeOpened(render, cust1, cust2, id1, id2, id3), id1, id2, "-10", render)
         == Failure(NonPositiveAmount(Dec(-10, 0)))
    ensures Transfer(ThreeOpened(render, cust1, cust2, id1, id2, id3), missing, id2, "10", render)
         == Failure(FromAccountNotFound(missing))
    ensures Transfer(ThreeOpened(render, cust1, cust2, id1, id2, id3), id2, missing, "10", render)
         == Failure(ToAccountNotFound(missing))
    ensures Transfer(ThreeOpened(render, cust1, cust2, id1, id2, id3), id2, id2, "10", render)
         == Failure(SameAccount)
  {
    ParsesTen();
    ParsesMinusTen();
  }

  /** The reason the test expects for the first refusal, given that 0 is written `0`. */
  lemma {:induction false} InsufficientFundsReason<Id>(render: Render<Id>, fromId: Id)
    requires render.ofDec(Dec(0, 0)) == "0"
    ensures Reason(render, InsufficientFunds(fromId, Dec(0, 0)))
         == "From Account " + render.ofId(fromId) + " does not have enough balance. Balance is 0"
  {
  }

  /** The reason the test expects for the refused negative amount, given that -10 is written `-10`. */
  lemma {:induction false} NonPositiveAmountReason<Id>(render: Render<Id>)
    requires render.ofDec(Dec(-10, 0)) == "-10"
    ensures Reason(render, NonPositiveAmount(Dec(-10, 0))) == "Amount, -10, is not greater than 0."
  {
  }

  /** The reason the test expects for the missing source account. */
  lemma {:induction false} FromAccountNotFoundReason<Id>(render: Render<Id>, missing: Id)
    ensures Reason(render, FromAccountNotFound(missing)) == "From Account " + render.ofId(missing) + " not found."
  {
  }

  /** The reason the test expects for the missing destination account. */
  lemma {:induction false} ToAccountNotFoundReason<Id>(render: Render<Id>, missing: Id)
    ensures Reason(render, ToAccountNotFound(missing)) == "To Account " + render.ofId(missing) + " not found."
  {
  }

  /** The store after the test's one accepted transfer, 10 from the second account to the first. */
  function AfterMove<Id>(render: Render<Id>, cust1: Id, cust2: Id, id1: Id, id2: Id, id3: Id): Store<Id> {
    var message := TransferMessage(render, Dec(10, 0), id2, id1);
    ThreeOpened(render, cust1, cust2, id1, id2, id3)
      [id2 := AccountState(id2, Dec(0, 0), cust2, [OpeningEntry(render.ofDec, Dec(10, 0)), message])]
      [id1 := AccountState(id1, Dec(10, 0), cust1, [OpeningEntry(render.ofDec, Dec(0, 0)), message])]
  }

  /** Moving 10 from the second account to the first succeeds and gives `AfterMove`. */
  lemma {:induction false} MovesTen<Id>(render: Render<Id>, cust1: Id, cust2: Id, id1: Id, id2: Id, id3: Id)
    requires id1 != id2 && id1 != id3 && id2 != id3
    ensures Transfer(ThreeOpened(render, cust1, cust2, id1, id2, id3), id2, id1, "10", render) ==
            Success(AfterMove(render, cust1, cust2, id1, id2, id3))
  {
    ParsesTen();
    MovedBalances();
    MovedStore(render, cust1, cust2, id1, id2, id3);
  }

  /** `AfterMove` is `ThreeOpened` with the two new balances and the message appended to both histories. */
  lemma {:induction false} MovedStore<Id>(render: Render<Id>, cust1: Id, cust2: Id, id1: Id, id2: Id, id3: Id)
    requires id1 != id2 && id1 != id3 && id2 != id3
    ensures var s := ThreeOpened(render, cust1, cust2, id1, id2, id3);
            var message := TransferMessage(render, Dec(10, 0), id2, id1);
            s[id2 := s[id2].(balance := Dec(0, 0), history := s[id2].history + [message])]
             [id1 := s[id1].(balance := Dec(10, 0), history := s[id1].history + [message])]
            == AfterMove(render, cust1, cust2, id1, id2, id3)
  {
    var s := ThreeOpened(render, cust1, cust2, id1, id2, id3);
    var message := TransferMessage(render, Dec(10, 0), id2, id1);
    assert s[id2].history + [message] == [OpeningEntry(render.ofDec, Dec(10, 0)), message];
    assert s[id1].history + [message] == [OpeningEntry(render.ofDec, Dec(0, 0)), message];
  }

  /** The two balances the accepted transfer computes, at scale 0 as `BigDecimal` keeps them. */
  lemma {:induction false} MovedBalances()
    ensures Sub(Dec(10, 0), Dec(10, 0)) == Dec(0, 0)
    ensures Add(Dec(0, 0), Dec(10, 0)) == Dec(10, 0)
  {
  }

  /** How the two accounts read after the transfer: new balances, and the message after the opening entry. */
  lemma {:induction false} AfterMoveReads<Id>(render: Render<Id>, cust1: Id, cust2: Id, id1: Id, id2: Id, id3: Id)
    requires id1 != id2 && id1 != id3 && id2 != id3
    requires render.ofDec(Dec(0, 0)) == "0" && render.ofDec(Dec(10, 0)) == "10" && render.ofDec(Dec(100, 0)) == "100"
    ensures var s := AfterMove(render, cust1, cust2, id1, id2, id3);
            var message := "Transferred 10 from " + render.ofId(id2) + " to " + render.ofId(id1);
            && s[id1] == AccountState(id1, Dec(10, 0), cust1, ["Balance is 0", message])
            && s[id2] == AccountState(id2, Dec(0, 0), cust2, ["Balance is 10", message])
  {
    OpeningEntries(render);
    TransferEntry(render, id2, id1);
  }

  /** The message of the test's transfer, as the test writes it out. */
  lemma {:induction false} TransferEntry<Id>(render: Render<Id>, fromId: Id, toId: Id)
    requires render.ofDec(Dec(10, 0)) == "10"
    ensures TransferMessage(render, Dec(10, 0), fromId, toId)
         == "Transferred 10 from " + render.ofId(fromId) + " to " + render.ofId(toId)
  {
  }

  // ---------------------------------------------------------------------------
  // The accounts test, run against the service object

  /** The first part of `accounts`: the three accounts are opened on a new service. */
  method OpenThree<Id(==)>(bank: Bank<Id>, cust1: Id, cust2: Id, id1: Id, id2: Id, id3: Id)
    requires bank.Valid() && bank.accounts == map[]
    modifies bank
    ensures bank.Valid() && bank.State() == ThreeOpened(bank.render, cust1, cust2, id1, id2, id3)
    ensures forall a | a in bank.accounts.Values :: fresh(a)
  {
    OpensThree(bank.render, cust1, cust2, id1, id2, id3);
    assert bank.State() == map[];
    var c1 := bank.CreateAccount(cust1, "0", id1);
    var c2 := bank.CreateAccount(cust2, "10", id2);
    var c3 := bank.CreateAccount(cust2, "100", id3);
    assert bank.accounts == map[id1 := c1.value][id2 := c2.value][id3 := c3.value];
  }

  /** The three accounts just opened, read back through `getAccount`. */
  method ReadThree<Id(==)>(bank: Bank<Id>, cust1: Id, cust2: Id, id1: Id, id2: Id, id3: Id)
    returns (created3: seq<AccountState<Id>>)
    requires bank.State() == ThreeOpened(bank.render, cust1, cust2, id1, id2, id3)
    ensures var s := ThreeOpened(bank.render, cust1, cust2, id1, id2, id3);
            created3 == [s[id1], s[id2], s[id3]]
  {
    var got1 := bank.GetAccount(id1);
    var got2 := bank.GetAccount(id2);
    var got3 := bank.GetAccount(id3);
    created3 := [got1.value.State(), got2.value.State(), got3.value.State()];
  }

  /** The second part of `accounts`: five transfers that the service refuses, leaving every account as it was. */
  method RefuseFive<Id(==)>(bank: Bank<Id>, cust1: Id, cust2: Id, id1: Id, id2: Id, id3: Id, missing: Id)
    returns (refusals: seq<Outcome<Error<Id>>>)
    requires bank.Valid() && bank.State() == ThreeOpened(bank.render, cust1, cust2, id1, id2, id3)
    requires id1 != id2 && id1 != id3 && id2 != id3
    requires missing != id1 && missing != id2 && missing != id3
    modifies bank.accounts.Values
    ensures bank.Valid() && bank.accounts == old(bank.accounts)
    ensures bank.State() == ThreeOpened(bank.render, cust1, cust2, id1, id2, id3)
    ensures refusals == [Fail(InsufficientFunds(id1, Dec(0, 0))), Fail(NonPositiveAmount(Dec(-10, 0))),
                         Fail(FromAccountNotFound(missing)), Fail(ToAccountNotFound(missing)), Fail(SameAccount)]
  {
    RefusesFive(bank.render, cust1, cust2, id1, id2, id3, missing);
    var r1 := bank.Transfer(id1, id2, "10");
    var r2 := bank.Transfer(id1, id2, "-10");
    var r3 := bank.Transfer(missing, id2, "10");
    var r4 := bank.Transfer(id2, missing, "10");
    var r5 := bank.Transfer(id2, id2, "10");
    refusals := [r1, r2, r3, r4, r5];
  }

  /** The last part of `accounts`: 10 moves from the second account to the first, and both are read back. */
  method MoveTen<Id(==)>(bank: Bank<Id>, cust1: Id, cust2: Id, id1: Id, id2: Id, id3: Id)
    returns (account1: AccountState<Id>, account2: AccountState<Id>)
    requires bank.Valid() && bank.State() == ThreeOpened(bank.render, cust1, cust2, id1, id2, id3)
    requires id1 != id2 && id1 != id3 && id2 != id3
    modifies bank.accounts.Values
    ensures bank.Valid() && bank.State() == AfterMove(bank.render, cust1, cust2, id1, id2, id3)
    ensures account1 == AfterMove(bank.render, cust1, cust2, id1, id2, id3)[id1]
    ensures account2 == AfterMove(bank.render, cust1, cust2, id1, id2, id3)[id2]
  {
    MovesTen(bank.render, cust1, cust2, id1, id2, id3);
    var moved := bank.Transfer(id2, id1, "10");
    var got1 := bank.GetAccount(id1);
    var got2 := bank.GetAccount(id2);
    account1 := got1.value.State();
    account2 := got2.value.State();
  }

  /**
    `accounts`: three accounts are opened and read back, five transfers are
    refused with the errors the test expects, and a transfer of 10 from the
    second account to the first moves the money and records the same message
    in both histories. The ids are those the UUID generator is taken to draw;
    `render` writes the sample amounts as `BigDecimal.toString` does.
  */
  method AccountsScenario<Id(==)>(render: Render<Id>, cust1: Id, cust2: Id, id1: Id, id2: Id, id3: Id, missing: Id)
    returns (created3: seq<AccountState<Id>>, refusals: seq<Outcome<Error<Id>>>, account1: AccountState<Id>, account2: AccountState<Id>)
    requires id1 != id2 && id1 != id3 && id2 != id3
    requires missing != id1 && missing != id2 && missing != id3
    requires render.ofDec(Dec(0, 0)) == "0" && render.ofDec(Dec(10, 0)) == "10" && render.ofDec(Dec(100, 0)) == "100"
    ensures created3 == [AccountState(id1, Dec(0, 0), cust1, ["Balance is 0"]),
                         AccountState(id2, Dec(10, 0), cust2, ["Balance is 10"]),
                         AccountState(id3, Dec(100, 0), cust2, ["Balance is 100"])]
    ensures refusals == [Fail(InsufficientFunds(id1, Dec(0, 0))), Fail(NonPositiveAmount(Dec(-10, 0))),
                         Fail(FromAccountNotFound(missing)), Fail(ToAccountNotFound(missing)), Fail(SameAccount)]
    ensures account1 == AccountState(id1, Dec(10, 0), cust1,
                                     ["Balance is 0", "Transferred 10 from " + render.ofId(id2) + " to " + render.ofId(id1)])
    ensures account2 == AccountState(id2, Dec(0, 0), cust2,
                                     ["Balance is 10", "Transferred 10 from " + render.ofId(id2) + " to " + render.ofId(id1)])
  {
    ThreeOpenedReads(render, cust1, cust2, id1, id2, id3);
    AfterMoveReads(render, cust1, cust2, id1, id2, id3);
    var bank := new Bank(render);
    OpenThree(bank, cust1, cust2, id1, id2, id3);
    created3 := ReadThree(bank, cust1, cust2, id1, id2, id3);
    refusals := RefuseFive(bank, cust1, cust2, id1, id2, id3, missing);
    account1, account2 := MoveTen(bank, cust1, cust2, id1, id2, id3);
  }

  /**
    Two `getAccount` calls with nothing in between agree: both find the same
    stored object, or both report it missing.
  */
  method LooksUpTwice<Id(==)>(bank: Bank<Id>, id: Id)
    returns (first: Result<Account<Id>, Error<Id>>, second: Result<Account<Id>, Error<Id>>)
    ensures first == second
    ensures first.Success? <==> id in bank.accounts
    ensures first.Success? ==> first.value == bank.accounts[id] && first.value.State() == bank.State()[id]
  {
    first := bank.GetAccount(id);
    second := bank.GetAccount(id);
  }
}
