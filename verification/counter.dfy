/**
 The account-number counter as the bank manager really keeps it: a signed
 32-bit integer advanced with a post-increment, which wraps from the largest
 such integer to the smallest. The rest of the model uses an unbounded
 counter, under which numbers strictly increase forever; this module shows
 where the two part ways.
 */
module JavaCounter {
  import opened Accounts
  import opened Ledgers

  const IntMin: int := -0x8000_0000
  const IntMax: int := 0x7fff_ffff

  /** A signed 32-bit integer. */
  predicate IsInt32(n: int) {
    IntMin <= n <= IntMax
  }

  /** The value a signed 32-bit integer takes after `++`: one more, except
      that the largest value wraps round to the smallest. */
  function Increment(n: int): (r: int)
    requires IsInt32(n)
    ensures IsInt32(r)
    ensures (r - (n + 1)) % 0x1_0000_0000 == 0
  {
    if n == IntMax then IntMin else n + 1
  }

  /** Account creation as written, with the 32-bit counter. */
  function CreateAccountAsWritten(l: Ledger, holder: string, initialDeposit: real): (r: Reply<int>)
    requires IsInt32(l.nextNumber)
    ensures IsInt32(r.ledger.nextNumber)
    ensures r.result.Ok? <==> initialDeposit >= 0.0
    ensures r.result.Err? ==> r.ledger == l && r.result.error == NegativeInitialDeposit
    ensures r.result.Ok? ==> r.result.value == l.nextNumber
    ensures r.result.Ok? ==> r.ledger.nextNumber == Increment(l.nextNumber)
    ensures r.result.Ok? ==> r.ledger.accounts == l.accounts[l.nextNumber := Account(l.nextNumber, holder, initialDeposit)]
  {
    match Open(l.nextNumber, holder, initialDeposit)
    case Err(e) => Reply(l, Err(e))
    case Ok(a) => Reply(Ledger(l.accounts[a.number := a], Increment(l.nextNumber)), Ok(a.number))
  }

  /** Below the largest 32-bit value, the creation as written and the
      model's creation agree exactly. */
  lemma AsWrittenAgreesBelowIntMax(l: Ledger, holder: string, initialDeposit: real)
    requires IsInt32(l.nextNumber) && l.nextNumber < IntMax
    ensures CreateAccountAsWritten(l, holder, initialDeposit) == CreateAccount(l, holder, initialDeposit)
  {
  }

  /** Once the counter has reached the largest 32-bit value, the next two
      accepted creations report the largest value and then a negative
      number, so numbers stop increasing; the model's creation reports
      the next larger number instead. */
  lemma CounterWrapBreaksIncrease()
    ensures var l := Ledger(map[], IntMax);
      var first := CreateAccountAsWritten(l, "A", 0.0);
      var second := CreateAccountAsWritten(first.ledger, "B", 0.0);
      && first.result == Ok(IntMax)
      && second.result == Ok(IntMin)
      && second.result.value < first.result.value
      && CreateAccount(CreateAccount(l, "A", 0.0).ledger, "B", 0.0).result == Ok(IntMax + 1)
  {
  }

  /** On any ledger whose counter has reached the largest 32-bit value, an
      accepted creation wraps the counter to a negative value, below the
      first account number, so the ledger invariant no longer holds. */
  lemma CounterWrapBreaksInvariant(l: Ledger, holder: string, initialDeposit: real)
    requires l.nextNumber == IntMax && initialDeposit >= 0.0
    ensures CreateAccountAsWritten(l, holder, initialDeposit).ledger.nextNumber == IntMin
    ensures !Valid(CreateAccountAsWritten(l, holder, initialDeposit).ledger)
    ensures Valid(CreateAccount(l, holder, initialDeposit).ledger) <== Valid(l)
  {
    if Valid(l) {
      CreateAccountKeepsValid(l, holder, initialDeposit);
    }
  }
}
