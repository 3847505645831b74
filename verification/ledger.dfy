/**
 This module models the bank manager: the ledger that owns every account,
 keyed by account number, and the counter that hands out account numbers.
 Each operation is a transition on an immutable ledger value and returns
 the ledger after the operation together with its outcome. A refused
 operation returns the ledger it was given.
 */
module Ledgers {
  import opened Accounts

  /** The number given to the first account the bank opens. */
  const FirstAccountNumber: int := 1001

  /** All accounts, keyed by account number, and the next number to hand out. */
  datatype Ledger = Ledger(accounts: map<int, Account>, nextNumber: int)

  /** The ledger after an operation, and what the operation reports. */
  datatype Reply<+T> = Reply(ledger: Ledger, result: Result<T>)

  /** The invariant of every ledger the bank can reach: the accounts are
      stored under their own numbers, those numbers are exactly the ones
      handed out so far (FirstAccountNumber up to, excluding, nextNumber),
      and no balance is negative. */
  ghost predicate Valid(l: Ledger) {
    && l.nextNumber >= FirstAccountNumber
    && (forall n :: n in l.accounts <==> FirstAccountNumber <= n < l.nextNumber)
    && (forall n :: n in l.accounts ==> l.accounts[n].number == n && Solvent(l.accounts[n]))
  }

  /** The ledger a bank starts with: no accounts, and the counter at its
      first number. */
  function Empty(): (l: Ledger)
    ensures Valid(l)
    ensures l.accounts == map[] && l.nextNumber == FirstAccountNumber
  {
    Ledger(map[], FirstAccountNumber)
  }

  /** Opens an account for `holder`. The account is validated before a
      number is drawn, so a refused request leaves the counter where it was;
      an accepted one stores the account under the current counter value,
      reports that number, and advances the counter by one. */
  function CreateAccount(l: Ledger, holder: string, initialDeposit: real): (r: Reply<int>)
    ensures r.result.Ok? <==> initialDeposit >= 0.0
    ensures r.result.Err? ==> r.ledger == l && r.result.error == NegativeInitialDeposit
    ensures r.result.Ok? ==> r.result.value == l.nextNumber
    ensures r.result.Ok? ==> r.ledger.nextNumber == l.nextNumber + 1
    ensures r.result.Ok? ==> r.ledger.accounts.Keys == l.accounts.Keys + {l.nextNumber}
    ensures r.result.Ok? ==> r.ledger.accounts[l.nextNumber] == Account(l.nextNumber, holder, initialDeposit)
    ensures forall n :: n in l.accounts && n != l.nextNumber ==> r.ledger.accounts[n] == l.accounts[n]
  {
    match Open(l.nextNumber, holder, initialDeposit)
    case Err(e) => Reply(l, Err(e))
    case Ok(a) => Reply(Ledger(l.accounts[a.number := a], l.nextNumber + 1), Ok(a.number))
  }

  /** Looks up the account stored under `number`. */
  function ShowAccount(l: Ledger, number: int): (r: Result<Account>)
    ensures r.Ok? <==> number in l.accounts
    ensures r.Ok? ==> r.value == l.accounts[number]
    ensures r.Err? ==> r.error == AccountNotFound
  {
    if number in l.accounts then Ok(l.accounts[number]) else Err(AccountNotFound)
  }

  /** Deposits `amount` into the account stored under `number` and reports
      its new balance. The account must exist (checked first) and the
      deposit must be accepted by the account rules. Only that account's
      balance can change. */
  function Deposit(l: Ledger, number: int, amount: real): (r: Reply<real>)
    ensures r.result.Ok? <==> number in l.accounts && amount > 0.0
    ensures number !in l.accounts ==> r == Reply(l, Err(AccountNotFound))
    ensures number in l.accounts && amount <= 0.0 ==> r == Reply(l, Err(NonPositiveDeposit))
    ensures r.result.Ok? ==> r.result.value == l.accounts[number].balance + amount
    ensures r.ledger.nextNumber == l.nextNumber
    ensures r.ledger.accounts.Keys == l.accounts.Keys
    ensures forall n :: n in l.accounts && n != number ==> r.ledger.accounts[n] == l.accounts[n]
    ensures number in l.accounts ==>
      && r.ledger.accounts[number].number == l.accounts[number].number
      && r.ledger.accounts[number].holder == l.accounts[number].holder
    ensures r.result.Ok? ==> r.ledger.accounts[number].balance == r.result.value
  {
    match ShowAccount(l, number)
    case Err(e) => Reply(l, Err(e))
    case Ok(a) =>
      match Accounts.Deposit(a, amount)
      case Err(e) => Reply(l, Err(e))
      case Ok(b) => Reply(l.(accounts := l.accounts[number := b]), Ok(b.balance))
  }

  /** Withdraws `amount` from the account stored under `number` and reports
      its new balance. The account must exist (checked first), the amount
      must be strictly positive (second) and must not exceed the balance
      (third). Only that account's balance can change. */
  function Withdraw(l: Ledger, number: int, amount: real): (r: Reply<real>)
    ensures r.result.Ok? <==> number in l.accounts && 0.0 < amount <= l.accounts[number].balance
    ensures number !in l.accounts ==> r == Reply(l, Err(AccountNotFound))
    ensures number in l.accounts && amount <= 0.0 ==> r == Reply(l, Err(NonPositiveWithdrawal))
    ensures number in l.accounts && 0.0 < amount && l.accounts[number].balance < amount ==>
      r == Reply(l, Err(InsufficientBalance))
    ensures r.result.Ok? ==> r.result.value == l.accounts[number].balance - amount
    ensures r.ledger.nextNumber == l.nextNumber
    ensures r.ledger.accounts.Keys == l.accounts.Keys
    ensures forall n :: n in l.accounts && n != number ==> r.ledger.accounts[n] == l.accounts[n]
    ensures number in l.accounts ==>
      && r.ledger.accounts[number].number == l.accounts[number].number
      && r.ledger.accounts[number].holder == l.accounts[number].holder
    ensures r.result.Ok? ==> r.ledger.accounts[number].balance == r.result.value
  {
    match ShowAccount(l, number)
    case Err(e) => Reply(l, Err(e))
    case Ok(a) =>
      match Accounts.Withdraw(a, amount)
      case Err(e) => Reply(l, Err(e))
      case Ok(b) => Reply(l.(accounts := l.accounts[number := b]), Ok(b.balance))
  }

  /** A successful creation on a valid ledger uses a number no stored
      account has, so it adds exactly one new key, and keeps the ledger
      valid. */
  lemma CreateAccountKeepsValid(l: Ledger, holder: string, initialDeposit: real)
    requires Valid(l)
    ensures var r := CreateAccount(l, holder, initialDeposit);
      && Valid(r.ledger)
      && (r.result.Ok? ==> r.result.value !in l.accounts && |r.ledger.accounts| == |l.accounts| + 1)
  {
  }

  /** Every deposit keeps a valid ledger valid, accepted or refused. */
  lemma DepositKeepsValid(l: Ledger, number: int, amount: real)
    requires Valid(l)
    ensures Valid(Deposit(l, number, amount).ledger)
  {
  }

  /** Every withdrawal keeps a valid ledger valid, accepted or refused. */
  lemma WithdrawKeepsValid(l: Ledger, number: int, amount: real)
    requires Valid(l)
    ensures Valid(Withdraw(l, number, amount).ledger)
  {
  }

  /** On a valid ledger, a lookup succeeds exactly for the numbers handed
      out so far, and finds the account that carries that number. */
  lemma ShowAccountFindsIssuedNumbers(l: Ledger, number: int)
    requires Valid(l)
    ensures ShowAccount(l, number).Ok? <==> FirstAccountNumber <= number < l.nextNumber
    ensures ShowAccount(l, number).Ok? ==> ShowAccount(l, number).value.number == number
  {
  }

  /** Depositing into a solvent account and withdrawing the same amount
      from it restores the ledger. */
  lemma WithdrawUndoesLedgerDeposit(l: Ledger, number: int, amount: real)
    requires number in l.accounts && Solvent(l.accounts[number])
    requires Deposit(l, number, amount).result.Ok?
    ensures Withdraw(Deposit(l, number, amount).ledger, number, amount) ==
      Reply(l, Ok(l.accounts[number].balance))
  {
  }
}
