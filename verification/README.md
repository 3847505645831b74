# Savings-account ledger

A Dafny model of the in-memory bank of `Application.java`. The bank keeps
savings accounts in a map from account number to account. Each account has
a number, a holder name and a balance. Account numbers come from a counter
that starts at 1001. The bank opens accounts, looks them up, and takes
deposits and withdrawals. Each operation is guarded by a few checks on the
amount and on whether the account exists.

The model has four modules:

- `Accounts` (`accounts.dfy`) models one account and the rules of
  `BankAccount` and `SavingsAccount`. The two classes are collapsed into a
  single `Account` datatype. Opening, depositing and withdrawing return the
  new account value or a `BankError`. The checks are made in the same order
  as in the source.
- `Ledgers` (`ledger.dfy`) models `BankManager`. A ledger is an immutable
  value holding `accounts: map<int, Account>` and `nextNumber`. The static
  counter becomes this ledger field, starting at 1001. Every operation
  that can change the ledger returns a `Reply`: the ledger after the operation, plus the result or
  error. A refused operation returns the ledger it was given. The result
  of an accepted operation is what the source prints: the new account
  number after a creation, and the new balance after a deposit or a
  withdrawal. `ShowAccount` is a lookup that returns the account or
  `AccountNotFound`.
- `History` (`history.dfy`) models a session: a series of menu requests
  applied one after another. It proves what holds for every ledger the bank
  can reach. Stored accounts sit under their own numbers. The stored numbers
  are exactly the ones handed out. No balance is negative. Numbers are
  handed out consecutively, from 1001, one per accepted creation.
- `JavaCounter` (`counter.dfy`) models the counter as the source declares
  it, a 32-bit `int`, and shows where it parts ways with the rest of the
  model (see Findings).

Money is modelled as `real`. The checks `amount <= 0` and `amount > balance`
are therefore exact.

The code throws one exception type with four messages and prints
"Account not found!" as a fifth case; `BankError` has one constructor per
case. The model's results are the values the code prints, not values it
returns.

## Model

| member | source | states |
|---|---|---|
| Accounts.Open | Application.java:16-21 | An account is opened exactly when the initial deposit is not negative. A refusal is `NegativeInitialDeposit`. An opened account carries the given number and holder, and its balance is the initial deposit, so it is solvent. |
| Accounts.Deposit | Application.java:54-58 | A deposit is accepted exactly when the amount is strictly positive. The balance then grows by the amount. Number and holder do not change. A solvent account stays solvent. |
| Accounts.Withdraw | Application.java:61-67 | A withdrawal is accepted exactly when 0 < amount <= balance. A non-positive amount is refused as `NonPositiveWithdrawal` before the balance is compared. An amount over the balance is refused as `InsufficientBalance`. The new balance is the old balance minus the amount, and it is never negative. |
| Accounts.WithdrawUndoesDeposit | Application.java:54-67 | For exact amounts: on a solvent account, withdrawing the amount just deposited gives back the original account. |
| Accounts.DepositUndoesWithdraw | Application.java:54-67 | For exact amounts: depositing the amount just withdrawn gives back the original account. |
| Accounts.DepositEachAddsAccepted | Application.java:54-58 | After a series of separate deposit requests, the balance has grown by exactly the sum of the strictly positive amounts. Refused deposits add nothing. Number and holder do not change. |
| Accounts.PositiveDepositsAccumulate | Application.java:54-58 | When every deposit in a series is strictly positive, the final balance is the opening balance plus the sum of the series. |
| Ledgers.Empty | Application.java:11-72 | A new ledger has no accounts, its counter is at 1001, and it satisfies the ledger invariant. |
| Ledgers.CreateAccount | Application.java:74-81 | A creation is accepted exactly when the initial deposit is not negative. A refused creation leaves the ledger and its counter untouched, because validation comes before the counter is drawn. An accepted creation reports the current counter value, stores the new account under that number, adds exactly that key, and advances the counter by one. Other entries are unchanged. |
| Ledgers.ShowAccount | Application.java:84-91 | A lookup succeeds exactly when the number is a key of the map, and it returns the stored account. Otherwise it reports `AccountNotFound`. |
| Ledgers.Deposit | Application.java:93-105 | A deposit succeeds exactly when the account exists and the amount is strictly positive. An unknown number gives `AccountNotFound` and leaves the ledger unchanged. A non-positive amount gives `NonPositiveDeposit` and also leaves it unchanged. On success the reported balance is the old balance plus the amount. The key set, the counter, every other account, and the target's number and holder are unchanged. |
| Ledgers.Withdraw | Application.java:107-119 | A withdrawal succeeds exactly when the account exists and 0 < amount <= balance. Each refusal (`AccountNotFound`, `NonPositiveWithdrawal`, `InsufficientBalance`) leaves the ledger unchanged. On success the reported balance is the old balance minus the amount. The key set, the counter, every other account, and the target's number and holder are unchanged. |
| Ledgers.CreateAccountKeepsValid | Application.java:74-81 | On a valid ledger, an accepted creation uses a number that is not yet a key, so the map grows by exactly one. Accepted or refused, the ledger stays valid. |
| Ledgers.DepositKeepsValid | Application.java:93-105 | Every deposit keeps the ledger invariant, accepted or refused. In particular, no balance goes negative. |
| Ledgers.WithdrawKeepsValid | Application.java:107-119 | Every withdrawal keeps the ledger invariant, accepted or refused. In particular, no balance goes negative. |
| Ledgers.ShowAccountFindsIssuedNumbers | Application.java:84-91 | On a valid ledger, a lookup succeeds exactly for numbers from 1001 up to, but not including, the counter. The account found carries the number it was looked up by. |
| Ledgers.WithdrawUndoesLedgerDeposit | Application.java:93-119 | For exact amounts: when the account exists and is solvent, an accepted deposit followed by a withdrawal of the same amount from the same account restores the ledger exactly. |
| History.StepKeepsValid | Application.java:74-119 | Each of the four requests (create, show, deposit, withdraw) keeps a valid ledger valid. |
| History.RunKeepsValid | Application.java:72-119 | Any series of requests keeps a valid ledger valid. |
| History.ReachableIsValid | Application.java:74-119 | Every ledger reachable from the empty ledger is valid. Its keys equal the stored accounts' numbers, its numbers are exactly 1001 up to the counter, and all its balances are at least 0. |
| History.IssuedAreConsecutive | Application.java:16-20 | The numbers a session hands out are the counter's successive values, with no gaps. Each accepted creation takes one number and each refused creation takes none. The counter ends just past the last number handed out. |
| History.IssuedStrictlyIncrease | Application.java:20 | Account numbers handed out later are strictly greater than earlier ones, so no number is used twice. |
| History.RunKeepsAccounts | Application.java:74-119 | No request removes an account. Every key stored before a session is still stored after it. |
| History.ShowAccountFindsOnlyIssued | Application.java:84-91 | Starting from the empty ledger, a lookup succeeds exactly for the numbers the session handed out. After a session whose creations were all refused, every lookup fails. |
| History.AliceAndBob | Application.java:74-119 | Worked example. Alice opens account 1001 with 100. A deposit of 50 reports 150. A withdrawal of 200 is refused for insufficient balance and changes nothing. A withdrawal of 150 reports 0. Bob's creation with -5 is refused, and 1002 is still unassigned. The next creation receives 1002. |
| JavaCounter.Increment | Application.java:20 | The 32-bit post-increment stays within the 32-bit range and is congruent to n + 1 modulo 2^32. |
| JavaCounter.CreateAccountAsWritten | Application.java:11-21 | Creation with the 32-bit counter: accepted exactly when the deposit is not negative. A refusal is `NegativeInitialDeposit` and changes nothing. An accepted creation reports the counter value, stores the account under it, and advances the counter by the 32-bit increment. |
| JavaCounter.AsWrittenAgreesBelowIntMax | Application.java:11-20 | While the counter is below 2^31 - 1, the as-written creation and the model's creation are identical. |
| JavaCounter.CounterWrapBreaksIncrease | Application.java:11-20 | Once the counter reaches 2^31 - 1, two accepted creations report 2^31 - 1 and then -2^31, so the numbers decrease. The model's creation reports 2^31 instead. |
| JavaCounter.CounterWrapBreaksInvariant | Application.java:11-20 | At counter 2^31 - 1, an accepted as-written creation wraps the counter to -2^31 and breaks the ledger invariant. The model's creation keeps a valid ledger valid. |

## Left out

- The `main` menu loop, `Scanner` parsing, re-prompting on bad input, and the exit entry (Application.java:135-202). These are interactive console I/O. `History.Request` stands in for menu entries 1-4 as already-parsed requests.
- All console output: `showAccountDetails`, the success and error messages, and "Account not found!". The model returns these as `Reply` values or `BankError` constructors instead.
- `showAllAccounts` (Application.java:121-130). It only prints every account in `HashMap` iteration order, which is unspecified, so nothing is stated about listing.
- `double` arithmetic: rounding, and NaN or infinite amounts. A NaN passes both `amount <= 0` and `amount > balance` unnoticed. Amounts are exact `real`s.
- The abstract `BankAccount` and `SavingsAccount` subclass split. It is collapsed into one `Account` type because only one subtype exists.
- The static counter shared by every `BankManager` of the process. Each ledger owns its own counter. The program creates only one manager.
- Ledgers.CreateAccount: uses an unbounded counter, not the source's 32-bit `int`, so it does not wrap after 2^31 - 1. The wrap is modelled separately in `JavaCounter` and reported under Findings.

## Findings

| source | as written | input that shows it | evidently intended | confidence | as-written member | corrected member |
|---|---|---|---|---|---|---|
| Application.java:11-20 | `nextAccNumber` is a 32-bit `int` advanced by `++`, so it wraps from 2^31 - 1 to -2^31 | after 2^31 - 1 - 1001 accepted creations, two more creations report 2147483647 and then -2147483648. The numbers decrease and go negative, and 2^32 accepted creations after 1001 was first issued the counter returns to 1001, so `put` overwrites that account | account numbers keep strictly increasing from 1001 and are never reused | medium: the overflow is certain under Java semantics but needs about 2.1 billion creations; not executed | JavaCounter.CounterWrapBreaksIncrease | History.IssuedAreConsecutive |
