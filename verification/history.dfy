/**
 This module models a session with the bank: a series of requests, each
 applied to the ledger left by the one before, exactly as the menu hands
 them to the bank manager one at a time. It states what holds of every
 ledger the bank can reach and of the account numbers it hands out.
 */
module History {
  import Accounts
  import opened Ledgers

  /** One request of a session, named after the menu entry that issues it. */
  datatype Request =
    | NewAccount(holder: string, initialDeposit: real)
    | ShowDetails(number: int)
    | DepositMoney(number: int, amount: real)
    | WithdrawMoney(number: int, amount: real)

  /** The ledger after one request; a lookup changes nothing. */
  function Step(l: Ledger, q: Request): Ledger {
    match q
    case NewAccount(holder, initialDeposit) => CreateAccount(l, holder, initialDeposit).ledger
    case ShowDetails(_) => l
    case DepositMoney(number, amount) => Deposit(l, number, amount).ledger
    case WithdrawMoney(number, amount) => Withdraw(l, number, amount).ledger
  }

  /** The ledger after a whole session. */
  function Run(l: Ledger, session: seq<Request>): Ledger
    decreases |session|
  {
    if session == [] then l else Run(Step(l, session[0]), session[1..])
  }

  /** The account numbers the session's accepted creations report, in the
      order they were handed out. */
  function Issued(l: Ledger, session: seq<Request>): seq<int>
    decreases |session|
  {
    if session == [] then []
    else
      var first := match session[0]
        case NewAccount(holder, initialDeposit) =>
          (match CreateAccount(l, holder, initialDeposit).result
           case Ok(n) => [n]
           case Err(_) => [])
        case _ => [];
      first + Issued(Step(l, session[0]), session[1..])
  }

  /** Every request keeps a valid ledger valid. */
  lemma StepKeepsValid(l: Ledger, q: Request)
    requires Valid(l)
    ensures Valid(Step(l, q))
  {
    match q
    case NewAccount(holder, initialDeposit) => CreateAccountKeepsValid(l, holder, initialDeposit);
    case ShowDetails(_) =>
    case DepositMoney(number, amount) => DepositKeepsValid(l, number, amount);
    case WithdrawMoney(number, amount) => WithdrawKeepsValid(l, number, amount);
  }

  /** Every session keeps a valid ledger valid: stored accounts sit under
      their own numbers, the stored numbers are exactly those handed out,
      and no balance ever goes negative. */
  lemma {:induction false} RunKeepsValid(l: Ledger, session: seq<Request>)
    requires Valid(l)
    ensures Valid(Run(l, session))
    decreases |session|
  {
    if session != [] {
      StepKeepsValid(l, session[0]);
      RunKeepsValid(Step(l, session[0]), session[1..]);
    }
  }

  /** Every ledger reachable from the empty one is valid. */
  lemma ReachableIsValid(session: seq<Request>)
    ensures Valid(Run(Empty(), session))
  {
    RunKeepsValid(Empty(), session);
  }

  /** The numbers a session hands out are the counter's values in order,
      one per accepted creation and none for a refused one, and the counter
      ends just past the last of them. So numbers strictly increase and are
      never handed out twice. */
  lemma {:induction false} IssuedAreConsecutive(l: Ledger, session: seq<Request>)
    ensures forall i :: 0 <= i < |Issued(l, session)| ==> Issued(l, session)[i] == l.nextNumber + i
    ensures Run(l, session).nextNumber == l.nextNumber + |Issued(l, session)|
    decreases |session|
  {
    if session != [] {
      var l' := Step(l, session[0]);
      IssuedAreConsecutive(l', session[1..]);
      var rest := Issued(l', session[1..]);
      if l'.nextNumber == l.nextNumber + 1 {
        assert Issued(l, session) == [l.nextNumber] + rest;
      } else {
        assert Issued(l, session) == rest;
      }
    }
  }

  /** The numbers a session hands out strictly increase. */
  lemma IssuedStrictlyIncrease(l: Ledger, session: seq<Request>, i: int, j: int)
    requires 0 <= i < j < |Issued(l, session)|
    ensures Issued(l, session)[i] < Issued(l, session)[j]
  {
    IssuedAreConsecutive(l, session);
  }

  /** Accounts are never removed: every number stored before a session is
      still stored after it. */
  lemma {:induction false} RunKeepsAccounts(l: Ledger, session: seq<Request>)
    ensures l.accounts.Keys <= Run(l, session).accounts.Keys
    decreases |session|
  {
    if session != [] {
      RunKeepsAccounts(Step(l, session[0]), session[1..]);
    }
  }

  /** From the empty ledger, a lookup succeeds exactly for the numbers the
      session handed out; a session whose creations were all refused
      leaves every lookup failing. */
  lemma ShowAccountFindsOnlyIssued(session: seq<Request>, number: int)
    ensures ShowAccount(Run(Empty(), session), number).Ok? <==> number in Issued(Empty(), session)
  {
    var l := Run(Empty(), session);
    var issued := Issued(Empty(), session);
    ReachableIsValid(session);
    IssuedAreConsecutive(Empty(), session);
    ShowAccountFindsIssuedNumbers(l, number);
    if FirstAccountNumber <= number < l.nextNumber {
      assert issued[number - FirstAccountNumber] == number;
    }
  }

  /** The worked example of the bank's behaviour: Alice opens account 1001
      with 100, deposits 50, is refused a withdrawal of 200, withdraws the
      remaining 150; Bob's negative opening deposit is refused and does not
      consume a number, so the next account opened receives 1002. */
  lemma AliceAndBob()
    ensures var l0 := Empty();
      var c1 := CreateAccount(l0, "Alice", 100.0);
      var d := Deposit(c1.ledger, 1001, 50.0);
      var w1 := Withdraw(d.ledger, 1001, 200.0);
      var w2 := Withdraw(w1.ledger, 1001, 150.0);
      var c2 := CreateAccount(w2.ledger, "Bob", -5.0);
      var c3 := CreateAccount(c2.ledger, "Carol", 0.0);
      && c1.result == Accounts.Ok(1001)
      && d.result == Accounts.Ok(150.0)
      && w1 == Reply(d.ledger, Accounts.Err(Accounts.InsufficientBalance))
      && w2.result == Accounts.Ok(0.0)
      && c2 == Reply(w2.ledger, Accounts.Err(Accounts.NegativeInitialDeposit))
      && ShowAccount(c2.ledger, 1002) == Accounts.Err(Accounts.AccountNotFound)
      && c3.result == Accounts.Ok(1002)
  {
  }
}
