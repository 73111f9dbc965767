# Banking ledger model

This is a Dafny model of the service core of the `banking-api` repository. The service is an in-memory ledger of
accounts. Each account has an identifier, a decimal balance, an owning customer and an append-only list of
human-readable history entries. The service offers three operations:

- **`createAccount`** parses an opening balance from text and refuses it when its
  `intValue()` is negative. Otherwise it stores a new account under a freshly drawn identifier. The history starts
  with `"Balance is {balance}"`.
- **`getAccount`** returns the stored account or reports it missing.
- **`transfer`** parses an amount and runs six checks, in this order:
  1. the amount parses;
  2. the amount is positive;
  3. the two accounts differ;
  4. the source exists;
  5. the destination exists;
  6. the source balance covers the amount.

  Only when all six pass does it debit the source, credit the destination, and
  append the same `"Transferred {amount} from {fromId} to {toId}"` entry to both histories.

The model has six modules:

| file | module | contents |
|---|---|---|
| `wrappers.dfy` | `Wrappers` | `Option`, `Result` and `Outcome` |
| `decimals.dfy` | `Decimals` | `java.math.BigDecimal` as an unscaled integer and a scale; see below |
| `accounts.dfy` | `Accounts` | `Account.java` as a class with the four mutable fields, and `AccountState`, a value snapshot of them |
| `ledger.dfy` | `Ledger` | the three operations as pure functions on a store (see below), with the lemmas that state what the service promises |
| `banking_service.dfy` | `BankingService` | the service object (see below) |
| `scenarios.dfy` | `Scenarios` | the unit tests of `BankingServiceTests.java` as facts about the model, and some consequences of the balance check |

The `Decimals` module covers:

- the `BigDecimal(String)` grammar over ASCII digits, with its limits: the exponent must fit an `int`, and so must the resulting scale;
- `add` and `subtract`, which take the larger scale;
- numeric comparison, modelled by comparing the exact rational values;
- `intValue()`: truncation toward zero, then the low 32 bits.

In `Ledger`, a store is a map from id to account snapshot. Each operation returns a new store or the error the
service throws. `Reason` gives the exact text of each error.

In `BankingService`, the service object is a `Bank` class. Its `accounts` field maps ids to live `Account`
objects. Each method is proved to change the stored accounts exactly as the matching `Ledger` function says.

The opening balance check is modelled as written (`intValue() < 0`), which has three consequences, all proved in
`Scenarios`:

- A negative balance above -1, such as `-0.5`, is accepted.
- A whole balance parsed at scale 0 (written without a point or exponent) from 2^31 to 2^32 - 1 wraps to a negative `int` and is refused.
- A whole balance parsed at scale 0 from -(2^32) to -(2^31) - 1 wraps to zero or above and is accepted.

The transfer amount, by contrast, is compared as an exact decimal.

## Model

| member | source | states |
|---|---|---|
| Decimals.Parse | src/main/java/com/example/bankingapi/BankingService.java:27-35 | `new BigDecimal(text)`, with `None` for the `NumberFormatException`: every parsed scale fits an `int`, and the empty text is refused; `ParseInteger`, `ParsePlain`, `ParseRejectsForeignChar` and `ParseRejectsExponentOverflow` specify it further |
| Decimals.ParseExponent | src/main/java/com/example/bankingapi/BankingService.java:29 | a parsed exponent always fits an `int`; larger ones are refused |
| Decimals.Trunc | src/main/java/com/example/bankingapi/BankingService.java:78 | the integer part of an integral decimal is its value; `TruncTowardZero` gives the general bound |
| Decimals.IntValue | src/main/java/com/example/bankingapi/BankingService.java:78 | `intValue()` is always an `int`, and equals the integer part when that fits; `IntValueNegativeIff` relates it to the value |
| Decimals.Add | src/main/java/com/example/bankingapi/BankingService.java:68 | the sum is exact and keeps the larger of the two scales |
| Decimals.Sub | src/main/java/com/example/bankingapi/BankingService.java:62 | the difference is exact and keeps the larger of the two scales |
| Decimals.Int32Wrap | src/main/java/com/example/bankingapi/BankingService.java:78 | the result is an `int`, agrees with the input modulo 2^32, and equals the input when the input already fits an `int` |
| Decimals.TruncTowardZero | src/main/java/com/example/bankingapi/BankingService.java:78 | the integer part is within one of the value, on the side of zero: below it for non-negative values, above it for non-positive ones |
| Decimals.IntValueNegativeIff | src/main/java/com/example/bankingapi/BankingService.java:78 | when the integer part fits an `int`, `intValue() < 0` holds exactly when the value is at most -1 |
| Decimals.ParseInteger | src/main/java/com/example/bankingapi/BankingService.java:27-35 | an optional minus followed by digits parses to that signed integer at scale 0 |
| Decimals.ParsePlain | src/main/java/com/example/bankingapi/BankingService.java:27-35 | `[-]int.frac` parses to the digits of int and frac read as one integer, with scale equal to the number of fraction digits |
| Decimals.ParseWithExponent | src/main/java/com/example/bankingapi/BankingService.java:27-35 | with an exponent and a resulting scale that both fit an `int`, `[-]significand mark exponent` is the signed significand digits at scale fraction digits minus exponent |
| Decimals.ParseMarked | src/main/java/com/example/bankingapi/BankingService.java:27-35 | text with an exponent mark parses by its significand before the first mark and its exponent after it |
| Decimals.ParseRejectsExponentOverflow | src/main/java/com/example/bankingapi/BankingService.java:27-35 | a number whose exponent does not fit an `int`, such as `1e2147483648`, does not parse, even where the scale would fit |
| Decimals.ParseRejectsForeignChar | src/main/java/com/example/bankingapi/BankingService.java:27-35 | text containing any character other than a digit, sign, point or exponent mark does not parse, which is the invalid-amount error |
| Accounts.Account.constructor | src/main/java/com/example/bankingapi/Account.java:19-25 | the id, balance and customer are stored as given; the history is exactly one entry, `"Balance is "` followed by the rendered balance |
| Accounts.OpeningEntry | src/main/java/com/example/bankingapi/Account.java:24 | the first history entry, `"Balance is "` followed by the balance as written; `Scenarios.OpeningEntries` pins it for the test's balances |
| Accounts.Opened | src/main/java/com/example/bankingapi/Account.java:19-25 | the snapshot of a newly constructed account; `Accounts.Account.constructor` is proved to produce it |
| Ledger.Reason | src/main/java/com/example/bankingapi/BankingService.java:17-90 | the reason text of each error, following the constants at lines 17-18 and the messages at lines 32, 40, 44, 47, 50, 58, 79 and 90; the `...Reason` lemmas in `Scenarios` check it against the texts the tests expect |
| Ledger.TransferMessage | src/main/java/com/example/bankingapi/BankingService.java:64 | the entry `"Transferred {amount} from {fromId} to {toId}"` of line 19; `TransferRecordsHistory` puts it on both histories and `Scenarios.TransferEntry` pins it for the test's transfer |
| Ledger.Transfer | src/main/java/com/example/bankingapi/BankingService.java:37-73 | `transfer` on a store: six checks, then the debit, the credit and the shared entry; the `Transfer...` lemmas below specify it |
| Ledger.CreateAccount | src/main/java/com/example/bankingapi/BankingService.java:75-85 | `createAccount` on a store; `CreateAccountOutcome`, `CreateAccountAdds`, `CreateAccountBalanceBound` and `CreateAccountKeepsWellKeyed` specify it |
| Ledger.GetAccount | src/main/java/com/example/bankingapi/BankingService.java:87-94 | `getAccount` on a store: a stored id gives its account, and a failure means the id is not stored; `GetAccountFinds` gives the error |
| Ledger.TransferSucceedsIff | src/main/java/com/example/bankingapi/BankingService.java:37-60 | a transfer succeeds exactly when the amount parses, is positive, the ids differ, both exist and the amount is at most the source balance |
| Ledger.TransferFirstFailureWins | src/main/java/com/example/bankingapi/BankingService.java:38-60 | each of the six errors is reported exactly when all earlier checks pass and its own fails; no other error kind can arise |
| Ledger.TransferMovesAmount | src/main/java/com/example/bankingapi/BankingService.java:57-69 | on success the source loses and the destination gains exactly the positive amount; the source stays at or above zero; the pair's sum is unchanged |
| Ledger.TransferConservesTotal | src/main/java/com/example/bankingapi/BankingService.java:62-70 | on success the sum of all balances in the store is unchanged |
| Ledger.TransferRecordsHistory | src/main/java/com/example/bankingapi/BankingService.java:64-70 | on success both histories keep every earlier entry and gain the same single transfer message |
| Ledger.TransferTouchesOnlyTwo | src/main/java/com/example/bankingapi/BankingService.java:53-70 | on success the same ids are stored; every other account is unchanged; the two keep their ids and customers |
| Ledger.TransferPreservesInvariants | src/main/java/com/example/bankingapi/BankingService.java:53-70 | a successful transfer keeps every account under its own id and keeps all balances non-negative |
| Ledger.CreateAccountOutcome | src/main/java/com/example/bankingapi/BankingService.java:75-80 | creation fails with the raw text exactly when it does not parse, fails with the balance exactly when `intValue()` is negative, and succeeds otherwise |
| Ledger.CreateAccountAdds | src/main/java/com/example/bankingapi/BankingService.java:75-84 | the new id holds the given customer, the parsed balance and the one opening entry; every other entry is unchanged; a fresh id adds one key and its balance to the total |
| Ledger.CreateAccountBalanceBound | src/main/java/com/example/bankingapi/BankingService.java:78 | an accepted balance whose integer part fits an `int` is above -1 |
| Ledger.CreateAccountKeepsWellKeyed | src/main/java/com/example/bankingapi/BankingService.java:81-82 | creation keeps every account stored under its own id |
| Ledger.GetAccountFinds | src/main/java/com/example/bankingapi/BankingService.java:87-94 | lookup succeeds exactly for stored ids, returning the stored account, and otherwise reports that id not found |
| BankingService.Bank.constructor | src/main/java/com/example/bankingapi/BankingService.java:21-23 | a new service stores no accounts |
| BankingService.Bank.CreateAccount | src/main/java/com/example/bankingapi/BankingService.java:75-85 | the object follows `Ledger.CreateAccount`: a failure leaves the map unchanged; a success stores a new account object under the new id |
| BankingService.Bank.Open | src/main/java/com/example/bankingapi/BankingService.java:81-82 | a new account object is put under its id, and the snapshot gains its opening state |
| BankingService.Bank.GetAccount | src/main/java/com/example/bankingapi/BankingService.java:87-94 | returns the stored object exactly when the id is stored, otherwise not-found; it agrees with `Ledger.GetAccount` and changes nothing |
| BankingService.Bank.Transfer | src/main/java/com/example/bankingapi/BankingService.java:37-73 | the object follows `Ledger.Transfer`: a refusal changes no account; an acceptance produces the specified store and conserves the total |
| Scenarios.ParsesZero | src/test/java/com/example/bankingapi/BankingServiceTests.java:36 | `"0"` is 0 at scale 0 |
| Scenarios.ParsesTen | src/test/java/com/example/bankingapi/BankingServiceTests.java:37 | `"10"` is 10 at scale 0 |
| Scenarios.ParsesHundred | src/test/java/com/example/bankingapi/BankingServiceTests.java:38 | `"100"` is 100 at scale 0 |
| Scenarios.ParsesMinusOne | src/test/java/com/example/bankingapi/BankingServiceTests.java:23 | `"-1"` is -1 at scale 0 |
| Scenarios.ParsesMinusTen | src/test/java/com/example/bankingapi/BankingServiceTests.java:67 | `"-10"` is -10 at scale 0 |
| Scenarios.ParsesMinusHalf | src/main/java/com/example/bankingapi/BankingService.java:27-35 | `"-0.5"` is -5 at scale 1 |
| Scenarios.ParsesThousandByExponent | src/main/java/com/example/bankingapi/BankingService.java:27-35 | `"1e3"` is 1 at scale -3 |
| Scenarios.RejectsGroupingComma | src/test/java/com/example/bankingapi/BankingServiceTests.java:27 | `"100,0"` does not parse |
| Scenarios.ExponentOverflowIsInvalidAmount | src/main/java/com/example/bankingapi/BankingService.java:27-35 | an amount whose exponent does not fit an `int` makes both `createAccount` and `transfer` fail with the invalid-amount error for that text |
| Scenarios.CreateAccountRejectsNegative | src/test/java/com/example/bankingapi/BankingServiceTests.java:23-25 | opening with `"-1"` fails with the negative-balance error for -1 |
| Scenarios.NegativeBalanceReason | src/test/java/com/example/bankingapi/BankingServiceTests.java:25 | that error reads `Balance, -1, is less than 0.` |
| Scenarios.CreateAccountRejectsMalformed | src/test/java/com/example/bankingapi/BankingServiceTests.java:27-29 | opening with `"100,0"` fails with the invalid-amount error for that text |
| Scenarios.InvalidAmountReason | src/test/java/com/example/bankingapi/BankingServiceTests.java:29 | that error reads `Amount , 100,0 is not a valid amount.` |
| Scenarios.CreateAccountAcceptsNegativeFraction | src/main/java/com/example/bankingapi/BankingService.java:78-82 | `"-0.5"`, a negative number, opens an account with that balance |
| Scenarios.CreateAccountRejectsWrappedPositive | src/main/java/com/example/bankingapi/BankingService.java:78-80 | any positive whole balance parsed at scale 0 from 2^31 to 2^32 - 1 is refused as negative |
| Scenarios.CreateAccountAcceptsWrappedNegative | src/main/java/com/example/bankingapi/BankingService.java:78-82 | any negative whole balance parsed at scale 0 from -(2^32) to -(2^31) - 1 is accepted |
| Scenarios.OpensThree | src/test/java/com/example/bankingapi/BankingServiceTests.java:36-38 | the three openings succeed one after another and give the expected stores |
| Scenarios.ThreeOpenedReads | src/test/java/com/example/bankingapi/BankingServiceTests.java:40-59 | the three accounts hold their ids, balances 0, 10 and 100, their customers, and the single entries `Balance is 0`, `Balance is 10` and `Balance is 100` |
| Scenarios.OpeningEntries | src/main/java/com/example/bankingapi/Account.java:24 | the opening entries for 0, 10 and 100 are `Balance is 0`, `Balance is 10` and `Balance is 100` |
| Scenarios.RefusesFive | src/test/java/com/example/bankingapi/BankingServiceTests.java:61-84 | the five transfers of the test fail with, in order: insufficient funds with balance 0, non-positive -10, source missing, destination missing, same account |
| Scenarios.InsufficientFundsReason | src/test/java/com/example/bankingapi/BankingServiceTests.java:64 | the insufficient-funds error for balance 0 reads as the formatted constant with that id and `0` |
| Scenarios.NonPositiveAmountReason | src/test/java/com/example/bankingapi/BankingServiceTests.java:69 | the non-positive-amount error for -10 reads `Amount, -10, is not greater than 0.` |
| Scenarios.FromAccountNotFoundReason | src/test/java/com/example/bankingapi/BankingServiceTests.java:75 | the missing-source error reads `From Account {id} not found.` |
| Scenarios.ToAccountNotFoundReason | src/test/java/com/example/bankingapi/BankingServiceTests.java:80 | the missing-destination error reads `To Account {id} not found.` |
| Scenarios.MovesTen | src/test/java/com/example/bankingapi/BankingServiceTests.java:87 | moving `"10"` from the second account to the first succeeds and gives the expected store |
| Scenarios.MovedBalances | src/main/java/com/example/bankingapi/BankingService.java:62-68 | 10 - 10 is 0 and 0 + 10 is 10, both at scale 0 |
| Scenarios.MovedStore | src/main/java/com/example/bankingapi/BankingService.java:62-70 | the expected store is the old one with the two new balances and the message appended to both histories |
| Scenarios.AfterMoveReads | src/test/java/com/example/bankingapi/BankingServiceTests.java:88-100 | after the move the first account holds 10 and the second 0; each history is its opening entry followed by `Transferred 10 from {id2} to {id1}` |
| Scenarios.TransferEntry | src/main/java/com/example/bankingapi/BankingService.java:64 | the message for 10 reads `Transferred 10 from {fromId} to {toId}` |
| Scenarios.OpenThree | src/test/java/com/example/bankingapi/BankingServiceTests.java:36-38 | on a new service object the three `createAccount` calls give the expected store |
| Scenarios.ReadThree | src/test/java/com/example/bankingapi/BankingServiceTests.java:40-59 | the three `getAccount` calls return the three opened accounts |
| Scenarios.RefuseFive | src/test/java/com/example/bankingapi/BankingServiceTests.java:61-84 | the five refused transfers return the expected errors and leave every account as it was |
| Scenarios.MoveTen | src/test/java/com/example/bankingapi/BankingServiceTests.java:86-100 | the accepted transfer on the object gives the expected store, and both accounts read back as expected |
| Scenarios.AccountsScenario | src/test/java/com/example/bankingapi/BankingServiceTests.java:32-101 | the whole `accounts` test: the literal account contents, the five errors and the two histories the test asserts |
| Scenarios.LooksUpTwice | src/main/java/com/example/bankingapi/BankingService.java:87-94 | two lookups in a row return the same result, which is the stored object exactly when the id is stored |

## Left out

- HTTP status codes (400, 404) and the `ResponseStatusException` wrapper are left out. Each failure is an `Error` value, and `Ledger.Reason` gives its reason text.
- Logging (`log.info`) is left out. It has no effect on state.
- `UUID.randomUUID()` is not modelled. The drawn identifier is a parameter of `createAccount`, and a collision with a stored id replaces that entry, as `HashMap.put` does.
- How values are written out is not modelled, because it is library code. `UUID.toString` and `BigDecimal.toString` are given as the `Render` parameter. The test facts state their assumptions about it (for example that 10 is written `10`).
- Concurrency is left out: there is no locking in the source. The `HashMap` and the lists are not thread-safe, and the model runs one operation at a time.
- Only ASCII digits are accepted. `BigDecimal(String)` also accepts other Unicode decimal digits.
- The JDK's separate error for more than ten significant exponent digits is covered by the `int` bound on the exponent: such an exponent is at least 10^10, outside the `int` range.
- Decimals.Add and Decimals.Sub are exact for any scales. `BigDecimal.add` and `subtract` first scale one operand by 10 to the power of the scale gap, and `BigInteger` throws `ArithmeticException` ("BigInteger would overflow supported range") when that gap is above about 5.4×10^8. The model never throws there, and `Ledger.Transfer` and `Bank.Transfer` accept every such transfer. In the service the exception can escape at one of two points:
  - At line 62, before any change. Example: a balance of 10 and an amount of `1e-600000000`.
  - At line 68, after the source has been debited (line 63) and its history appended (line 65). Example: an account opened with `0e-600000000`, which is 0 at scale 600000000 and passes line 78, receiving `"10"` from an account holding 10. The source is left debited with a transfer entry, the destination is unchanged, and the total falls by 10.

  On such inputs the service's transfer is not atomic. `Bank.Transfer`'s "a refusal changes nothing" and the conservation lemmas `Ledger.TransferConservesTotal` and `Ledger.TransferMovesAmount` describe the model, not the service.
- IntValue may also throw in some JDKs. Where `intValue()` goes through `toBigInteger()`, a non-zero balance with a very large scale, such as `1e-600000000`, can throw the same `ArithmeticException` at line 78. Whether it does depends on the JDK version. The model always computes the truncated value.
- Only the `BigDecimal` operations the ledger uses are modelled: add, subtract, compare and `intValue`. Precision, rounding and `equals` (which is scale-sensitive) are not.
- Lombok-generated setters, `equals`, `hashCode` and `toString` of `Account` are not modelled. The service code uses only the getters and setters of the three fields and the list.
- The returned `Account` is a live object: `Bank.GetAccount` returns the stored object itself. Histories are modelled as `seq` values held by each account. A caller mutating the list returned by `getTransfers()` outside the service is not modelled.
- `Controller.java` and the MockMvc tests are transport-layer code around the service and are not part of this model.
