/**
 This module models a single savings account: its identity, its holder and
 its balance, together with the rules that guard every change to the balance.
 An account is an immutable value here; an operation that the bank would
 apply in place returns the updated account instead, or the reason it was
 refused. Amounts of money are `real` numbers.
 */
module Accounts {

  /** Every reason the bank refuses an operation. */
  datatype BankError =
    | NegativeInitialDeposit   // an account may not be opened with a negative balance
    | NonPositiveDeposit       // a deposit must be strictly positive
    | NonPositiveWithdrawal    // a withdrawal must be strictly positive
    | InsufficientBalance      // a withdrawal may not exceed the balance
    | AccountNotFound          // no account is stored under the given number

  /** The outcome of an operation: a value, or the reason it was refused. */
  datatype Result<+T> = Ok(value: T) | Err(error: BankError)

  /** One holder's balance record. */
  datatype Account = Account(number: int, holder: string, balance: real)

  /** The balance invariant every account the bank holds keeps. */
  predicate Solvent(a: Account) {
    a.balance >= 0.0
  }

  /** Opens an account under the given number. A negative initial deposit is
      refused; otherwise the balance starts at the initial deposit. */
  function Open(number: int, holder: string, initialDeposit: real): (r: Result<Account>)
    ensures r.Ok? <==> initialDeposit >= 0.0
    ensures r.Err? ==> r.error == NegativeInitialDeposit
    ensures r.Ok? ==> r.value.number == number && r.value.holder == holder
    ensures r.Ok? ==> r.value.balance == initialDeposit && Solvent(r.value)
  {
    if initialDeposit < 0.0 then Err(NegativeInitialDeposit)
    else Ok(Account(number, holder, initialDeposit))
  }

  /** Credits `amount` to the account. Only a strictly positive amount is
      accepted; the account keeps its number and holder. */
  function Deposit(a: Account, amount: real): (r: Result<Account>)
    ensures r.Ok? <==> amount > 0.0
    ensures r.Err? ==> r.error == NonPositiveDeposit
    ensures r.Ok? ==> r.value.number == a.number && r.value.holder == a.holder
    ensures r.Ok? ==> r.value.balance == a.balance + amount && r.value.balance > a.balance
    ensures r.Ok? && Solvent(a) ==> Solvent(r.value)
  {
    if amount <= 0.0 then Err(NonPositiveDeposit)
    else Ok(a.(balance := a.balance + amount))
  }

  /** Debits `amount` from the account. The amount must be strictly positive
      (checked first) and must not exceed the balance (checked second). */
  function Withdraw(a: Account, amount: real): (r: Result<Account>)
    ensures r.Ok? <==> 0.0 < amount <= a.balance
    ensures amount <= 0.0 ==> r == Err(NonPositiveWithdrawal)
    ensures 0.0 < amount && a.balance < amount ==> r == Err(InsufficientBalance)
    ensures r.Ok? ==> r.value.number == a.number && r.value.holder == a.holder
    ensures r.Ok? ==> r.value.balance == a.balance - amount && r.value.balance < a.balance
    ensures r.Ok? ==> Solvent(r.value)
  {
    if amount <= 0.0 then Err(NonPositiveWithdrawal)
    else if amount > a.balance then Err(InsufficientBalance)
    else Ok(a.(balance := a.balance - amount))
  }

  /** A withdrawal of the amount just deposited restores a solvent account. */
  lemma WithdrawUndoesDeposit(a: Account, amount: real)
    requires Solvent(a) && amount > 0.0
    ensures Deposit(a, amount).Ok?
    ensures Withdraw(Deposit(a, amount).value, amount) == Ok(a)
  {
  }

  /** A deposit of the amount just withdrawn restores the account. */
  lemma DepositUndoesWithdraw(a: Account, amount: real)
    requires 0.0 < amount <= a.balance
    ensures Withdraw(a, amount).Ok?
    ensures Deposit(Withdraw(a, amount).value, amount) == Ok(a)
  {
  }

  /** The account after a series of deposits, each made as a separate
      request: a refused deposit leaves the account as it was and the
      series carries on. */
  function DepositEach(a: Account, amounts: seq<real>): Account
    decreases |amounts|
  {
    if amounts == [] then a
    else
      var next := match Deposit(a, amounts[0]) case Ok(b) => b case Err(_) => a;
      DepositEach(next, amounts[1..])
  }

  /** The sum of a series of amounts. */
  function Sum(amounts: seq<real>): real
    decreases |amounts|
  {
    if amounts == [] then 0.0 else amounts[0] + Sum(amounts[1..])
  }

  /** The sum of the strictly positive amounts of a series. */
  function AcceptedSum(amounts: seq<real>): real
    decreases |amounts|
  {
    if amounts == [] then 0.0
    else (if amounts[0] > 0.0 then amounts[0] else 0.0) + AcceptedSum(amounts[1..])
  }

  /** After a series of deposits the balance has grown by exactly the
      accepted amounts; number and holder are untouched. */
  lemma {:induction false} DepositEachAddsAccepted(a: Account, amounts: seq<real>)
    ensures DepositEach(a, amounts).balance == a.balance + AcceptedSum(amounts)
    ensures DepositEach(a, amounts).number == a.number
    ensures DepositEach(a, amounts).holder == a.holder
    decreases |amounts|
  {
    if amounts != [] {
      var next := match Deposit(a, amounts[0]) case Ok(b) => b case Err(_) => a;
      DepositEachAddsAccepted(next, amounts[1..]);
    }
  }

  /** When every deposit of a series is strictly positive, the final
      balance is the opening balance plus the sum of the series. */
  lemma {:induction false} PositiveDepositsAccumulate(a: Account, amounts: seq<real>)
    requires forall i :: 0 <= i < |amounts| ==> amounts[i] > 0.0
    ensures DepositEach(a, amounts).balance == a.balance + Sum(amounts)
    decreases |amounts|
  {
    if amounts != [] {
      PositiveDepositsAccumulate(a.(balance := a.balance + amounts[0]), amounts[1..]);
    }
  }
}
