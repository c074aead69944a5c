/**
 * The unit tests of src/accounts.rs, replayed on the value model: Trace runs
 * a sequence of transactions through Step and records, after each one, the
 * result and the (total, held, available) reading a test checks. Each test
 * becomes a lemma that states every result and reading it asserts. The
 * tests write amounts as text ("10.5", "3", ...); here they are the values
 * AmountVectors proves that text parses to (10.5 is Amount(105000)).
 */
module AccountScenarios {
  import opened Wrappers
  import opened Errors
  import opened Amounts
  import opened AccountSpec

  /** What a test reads off an account: `total()`, `held()`, `available_for_withdrawal()`. */
  datatype Reading = Reading(total: Amount, held: Amount, available: Amount)

  function ReadingOf(a: AccountState): Reading {
    Reading(a.total, a.held, Available(a))
  }

  /**
   * The results and readings of a sequence of transactions processed one
   * by one, and the final account, which is the one Apply computes.
   */
  function Trace(a: AccountState, ts: seq<Transaction>)
    : (r: (seq<Result<(), Error>>, seq<Reading>, AccountState))
    requires Inv(a)
    ensures |r.0| == |ts| && |r.1| == |ts|
    ensures r.2 == Apply(a, ts)
    decreases |ts|
  {
    if ts == [] then ([], [], a)
    else
      match Step(a, ts[0])
        case Ok(next) =>
          StepPreservesInv(a, ts[0]);
          var rest := Trace(next, ts[1..]);
          ([Ok(())] + rest.0, [ReadingOf(next)] + rest.1, rest.2)
        case Err(e) =>
          var rest := Trace(a, ts[1..]);
          ([Err(e)] + rest.0, [ReadingOf(a)] + rest.1, rest.2)
  }

  /** Trace after a first transaction that succeeds, from the trace of the rest. */
  lemma TraceOk(a: AccountState, ts: seq<Transaction>, next: AccountState,
                results: seq<Result<(), Error>>, readings: seq<Reading>, last: AccountState)
    requires Inv(a) && ts != [] && Step(a, ts[0]) == Ok(next)
    requires Inv(next)
    requires Trace(next, ts[1..]).0 == results && Trace(next, ts[1..]).1 == readings && Trace(next, ts[1..]).2 == last
    ensures Trace(a, ts).0 == [Ok(())] + results && Trace(a, ts).1 == [ReadingOf(next)] + readings
    ensures Trace(a, ts).2 == last
  {
  }

  /** Trace after a first transaction that fails, from the trace of the rest. */
  lemma TraceErr(a: AccountState, ts: seq<Transaction>, e: Error,
                 results: seq<Result<(), Error>>, readings: seq<Reading>, last: AccountState)
    requires Inv(a) && ts != [] && Step(a, ts[0]) == Err(e)
    requires Trace(a, ts[1..]).0 == results && Trace(a, ts[1..]).1 == readings && Trace(a, ts[1..]).2 == last
    ensures Trace(a, ts).0 == [Err(e)] + results && Trace(a, ts).1 == [ReadingOf(a)] + readings
    ensures Trace(a, ts).2 == last
  {
  }

  // One more element in front of a short list, stated once for every type
  // so that the scenario lemmas need not reason about list displays.

  lemma PrependToFour<T>(x: T, a: T, b: T, c: T, d: T)
    ensures [x] + [a, b, c, d] == [x, a, b, c, d]
  {
  }

  lemma PrependToFive<T>(x: T, a: T, b: T, c: T, d: T, e: T)
    ensures [x] + [a, b, c, d, e] == [x, a, b, c, d, e]
  {
  }

  lemma PrependToSix<T>(x: T, a: T, b: T, c: T, d: T, e: T, f: T)
    ensures [x] + [a, b, c, d, e, f] == [x, a, b, c, d, e, f]
  {
  }

  lemma HeldSumOfTwo(d: DepositRecord, e: DepositRecord)
    ensures HeldSum([d, e]) == Weight(d) + Weight(e)
  {
    assert [d, e][1..] == [e];
    assert [e][1..] == [];
    assert HeldSum([e]) == Weight(e) + HeldSum([]);
  }

  // ---------------------------------------------------------------------
  // test_process_transaction_no_errors
  // ---------------------------------------------------------------------

  const TenFive := DepositRecord(0, Amount(105000), false)
  const Three := DepositRecord(1, Amount(30000), false)
  const ThreeDisputed := DepositRecord(1, Amount(30000), true)

  const OneDeposit := AccountState([TenFive], Amount(105000), Zero(), false)
  const TwoDeposits := AccountState([TenFive, Three], Amount(135000), Zero(), false)
  const Withdrawn := AccountState([TenFive, Three], Amount(115000), Zero(), false)
  const Disputed := AccountState([TenFive, ThreeDisputed], Amount(115000), Amount(30000), false)
  const ChargedBack := AccountState([TenFive, ThreeDisputed], Amount(85000), Zero(), true)

  const NoErrorsTransactions := [
    Transaction(Deposit, 0, Amount(105000)),
    Transaction(Deposit, 1, Amount(30000)),
    Transaction(Withdrawal, 2, Amount(20000)),
    Transaction(Dispute, 1, Zero()),
    Transaction(Resolve, 1, Zero()),
    Transaction(Dispute, 1, Zero()),
    Transaction(Chargeback, 1, Zero())]

  lemma NoErrorsStep1()
    ensures Step(Empty, NoErrorsTransactions[0]) == Ok(OneDeposit)
  {
    assert InsertSorted([], TenFive) == [TenFive];
  }

  lemma NoErrorsStep2()
    ensures Step(OneDeposit, NoErrorsTransactions[1]) == Ok(TwoDeposits)
  {
    assert InsertSorted([TenFive], Three) == [TenFive, Three];
  }

  lemma NoErrorsStep3()
    ensures Inv(TwoDeposits) && Step(TwoDeposits, NoErrorsTransactions[2]) == Ok(Withdrawn)
  {
    HeldSumOfTwo(TenFive, Three);
  }

  lemma NoErrorsStep4()
    ensures Inv(Withdrawn) && Step(Withdrawn, NoErrorsTransactions[3]) == Ok(Disputed)
  {
    HeldSumOfTwo(TenFive, Three);
    assert IndexOfId([TenFive, Three], 1) == Some(1);
    assert Flagged([TenFive, Three], 1, true) == [TenFive, ThreeDisputed];
  }

  lemma NoErrorsStep5()
    ensures Inv(Disputed) && Step(Disputed, NoErrorsTransactions[4]) == Ok(Withdrawn)
  {
    HeldSumOfTwo(TenFive, ThreeDisputed);
    assert IndexOfId([TenFive, ThreeDisputed], 1) == Some(1);
    assert Flagged([TenFive, ThreeDisputed], 1, false) == [TenFive, Three];
  }

  lemma NoErrorsStep7()
    ensures Inv(Disputed) && Step(Disputed, NoErrorsTransactions[6]) == Ok(ChargedBack)
  {
    HeldSumOfTwo(TenFive, ThreeDisputed);
    assert IndexOfId([TenFive, ThreeDisputed], 1) == Some(1);
  }

  lemma NoErrorsReadings()
    ensures ReadingOf(OneDeposit) == Reading(Amount(105000), Zero(), Amount(105000))
    ensures ReadingOf(TwoDeposits) == Reading(Amount(135000), Zero(), Amount(135000))
    ensures ReadingOf(Withdrawn) == Reading(Amount(115000), Zero(), Amount(115000))
    ensures ReadingOf(Disputed) == Reading(Amount(115000), Amount(30000), Amount(85000))
    ensures ReadingOf(ChargedBack) == Reading(Amount(85000), Zero(), Zero())
  {
  }

  const NoErrorsExpected := [
    Reading(Amount(105000), Zero(), Amount(105000)),
    Reading(Amount(135000), Zero(), Amount(135000)),
    Reading(Amount(115000), Zero(), Amount(115000)),
    Reading(Amount(115000), Amount(30000), Amount(85000)),
    Reading(Amount(115000), Zero(), Amount(115000)),
    Reading(Amount(115000), Amount(30000), Amount(85000)),
    Reading(Amount(85000), Zero(), Zero())]

  lemma NoErrorsReadingList()
    ensures [ReadingOf(OneDeposit), ReadingOf(TwoDeposits), ReadingOf(Withdrawn), ReadingOf(Disputed),
             ReadingOf(Withdrawn), ReadingOf(Disputed), ReadingOf(ChargedBack)] == NoErrorsExpected
  {
    NoErrorsReadings();
  }

  /** The last three steps: resolve, dispute again, chargeback. */
  lemma NoErrorsTail()
    ensures Inv(Disputed)
    ensures Trace(Disputed, NoErrorsTransactions[4..]).0 == [Ok(()), Ok(()), Ok(())]
    ensures Trace(Disputed, NoErrorsTransactions[4..]).1 == [ReadingOf(Withdrawn), ReadingOf(Disputed), ReadingOf(ChargedBack)]
    ensures Trace(Disputed, NoErrorsTransactions[4..]).2 == ChargedBack
  {
    var ts := NoErrorsTransactions;
    NoErrorsStep4(); NoErrorsStep5(); NoErrorsStep7();
    assert ts[6..][1..] == ts[7..] == [];
    TraceOk(Disputed, ts[6..], ChargedBack, [], [], ChargedBack);
    assert ts[5..][1..] == ts[6..];
    TraceOk(Withdrawn, ts[5..], Disputed, [Ok(())], [ReadingOf(ChargedBack)], ChargedBack);
    assert ts[4..][1..] == ts[5..];
    TraceOk(Disputed, ts[4..], Withdrawn, [Ok(())] + [Ok(())], [ReadingOf(Disputed)] + [ReadingOf(ChargedBack)], ChargedBack);
  }

  /** From the withdrawal on. */
  lemma NoErrorsMiddle()
    ensures Inv(TwoDeposits)
    ensures Trace(TwoDeposits, NoErrorsTransactions[2..]).0 == [Ok(()), Ok(()), Ok(()), Ok(()), Ok(())]
    ensures Trace(TwoDeposits, NoErrorsTransactions[2..]).1
         == [ReadingOf(Withdrawn), ReadingOf(Disputed), ReadingOf(Withdrawn), ReadingOf(Disputed), ReadingOf(ChargedBack)]
    ensures Trace(TwoDeposits, NoErrorsTransactions[2..]).2 == ChargedBack
  {
    var ts := NoErrorsTransactions;
    var ok: Result<(), Error> := Ok(());
    NoErrorsStep3(); NoErrorsStep4();
    NoErrorsTail();
    assert ts[3..][1..] == ts[4..];
    TraceOk(Withdrawn, ts[3..], Disputed, [ok, ok, ok], [ReadingOf(Withdrawn), ReadingOf(Disputed), ReadingOf(ChargedBack)], ChargedBack);
    assert ts[2..][1..] == ts[3..];
    TraceOk(TwoDeposits, ts[2..], Withdrawn, [ok] + [ok, ok, ok],
      [ReadingOf(Disputed)] + [ReadingOf(Withdrawn), ReadingOf(Disputed), ReadingOf(ChargedBack)], ChargedBack);
  }

  /**
   * `test_process_transaction_no_errors`: deposit 10.5 and 3, withdraw 2,
   * dispute and resolve the deposit of 3, dispute it again and charge it
   * back. Every step succeeds; the chargeback takes 3 off the total, empties
   * held and freezes the account, so nothing is available.
   */
  lemma NoErrors(start: AccountState, ts: seq<Transaction>)
    requires start == Empty && ts == NoErrorsTransactions
    ensures Trace(start, ts).0 == [Ok(()), Ok(()), Ok(()), Ok(()), Ok(()), Ok(()), Ok(())]
    ensures Trace(start, ts).1 == NoErrorsExpected
    ensures Trace(start, ts).2 == ChargedBack && ChargedBack.frozen
  {
    NoErrorsFirst(start, ts);
    var ok: Result<(), Error> := Ok(());
    PrependToSix(ok, ok, ok, ok, ok, ok, ok);
    NoErrorsReadingList();
    var rOne, rTwo := ReadingOf(OneDeposit), ReadingOf(TwoDeposits);
    var rOut, rHeld, rBack := ReadingOf(Withdrawn), ReadingOf(Disputed), ReadingOf(ChargedBack);
    PrependToSix(rOne, rTwo, rOut, rHeld, rOut, rHeld, rBack);
  }

  /** The first deposit, in front of the trace of the rest. */
  lemma NoErrorsFirst(start: AccountState, ts: seq<Transaction>)
    requires start == Empty && ts == NoErrorsTransactions
    ensures Trace(start, ts).0 == [Ok(())] + [Ok(()), Ok(()), Ok(()), Ok(()), Ok(()), Ok(())]
    ensures Trace(start, ts).1 == [ReadingOf(OneDeposit)]
         + [ReadingOf(TwoDeposits), ReadingOf(Withdrawn), ReadingOf(Disputed), ReadingOf(Withdrawn), ReadingOf(Disputed), ReadingOf(ChargedBack)]
    ensures Trace(start, ts).2 == ChargedBack
  {
    var ok: Result<(), Error> := Ok(());
    var rTwo := ReadingOf(TwoDeposits);
    var rOut, rHeld, rBack := ReadingOf(Withdrawn), ReadingOf(Disputed), ReadingOf(ChargedBack);
    NoErrorsStep1();
    NoErrorsAfterFirst();
    TraceOk(start, ts, OneDeposit, [ok, ok, ok, ok, ok, ok], [rTwo, rOut, rHeld, rOut, rHeld, rBack], ChargedBack);
  }

  /** From the second deposit on. */
  lemma NoErrorsAfterFirst()
    ensures Inv(OneDeposit)
    ensures Trace(OneDeposit, NoErrorsTransactions[1..]).0 == [Ok(()), Ok(()), Ok(()), Ok(()), Ok(()), Ok(())]
    ensures Trace(OneDeposit, NoErrorsTransactions[1..]).1
         == [ReadingOf(TwoDeposits), ReadingOf(Withdrawn), ReadingOf(Disputed), ReadingOf(Withdrawn), ReadingOf(Disputed), ReadingOf(ChargedBack)]
    ensures Trace(OneDeposit, NoErrorsTransactions[1..]).2 == ChargedBack
  {
    var ts := NoErrorsTransactions;
    var ok: Result<(), Error> := Ok(());
    var rOut, rHeld, rBack := ReadingOf(Withdrawn), ReadingOf(Disputed), ReadingOf(ChargedBack);
    NoErrorsStep1(); NoErrorsStep2();
    NoErrorsMiddle();
    assert ts[1..][1..] == ts[2..];
    TraceOk(OneDeposit, ts[1..], TwoDeposits, [ok, ok, ok, ok, ok], [rOut, rHeld, rOut, rHeld, rBack], ChargedBack);
    PrependToFive(ok, ok, ok, ok, ok, ok);
    PrependToFive(ReadingOf(TwoDeposits), rOut, rHeld, rOut, rHeld, rBack);
  }

  lemma HeldSumOfOne(d: DepositRecord)
    ensures HeldSum([d]) == Weight(d)
  {
    assert [d][1..] == [];
  }

  // ---------------------------------------------------------------------
  // test_edge_case_chargeback_would_go_negative
  // ---------------------------------------------------------------------

  const Five := DepositRecord(0, Amount(50000), false)
  const FiveDisputed := DepositRecord(0, Amount(50000), true)

  const Deposited := AccountState([Five], Amount(50000), Zero(), false)
  const Spent := AccountState([Five], Amount(30000), Zero(), false)
  const HeldOverTotal := AccountState([FiveDisputed], Amount(30000), Amount(50000), false)
  const ClampedToZero := AccountState([FiveDisputed], Zero(), Zero(), true)

  const NegativeTransactions := [
    Transaction(Deposit, 0, Amount(50000)),
    Transaction(Withdrawal, 1, Amount(20000)),
    Transaction(Dispute, 0, Zero()),
    Transaction(Resolve, 0, Zero()),
    Transaction(Dispute, 0, Zero()),
    Transaction(Chargeback, 0, Zero())]

  lemma NegativeStep1()
    ensures Step(Empty, NegativeTransactions[0]) == Ok(Deposited)
  {
    assert InsertSorted([], Five) == [Five];
  }

  lemma NegativeStep2()
    ensures Inv(Deposited) && Step(Deposited, NegativeTransactions[1]) == Ok(Spent)
  {
    HeldSumOfOne(Five);
  }

  lemma NegativeStep3()
    ensures Inv(Spent) && Step(Spent, NegativeTransactions[2]) == Ok(HeldOverTotal)
  {
    HeldSumOfOne(Five);
    assert IndexOfId([Five], 0) == Some(0);
    assert Flagged([Five], 0, true) == [FiveDisputed];
  }

  lemma NegativeStep4()
    ensures Inv(HeldOverTotal) && Step(HeldOverTotal, NegativeTransactions[3]) == Ok(Spent)
  {
    HeldSumOfOne(FiveDisputed);
    assert IndexOfId([FiveDisputed], 0) == Some(0);
    assert Flagged([FiveDisputed], 0, false) == [Five];
  }

  lemma NegativeStep6()
    ensures Inv(HeldOverTotal) && Step(HeldOverTotal, NegativeTransactions[5]) == Ok(ClampedToZero)
  {
    HeldSumOfOne(FiveDisputed);
    assert IndexOfId([FiveDisputed], 0) == Some(0);
  }

  lemma NegativeReadings()
    ensures ReadingOf(Deposited) == Reading(Amount(50000), Zero(), Amount(50000))
    ensures ReadingOf(Spent) == Reading(Amount(30000), Zero(), Amount(30000))
    ensures ReadingOf(HeldOverTotal) == Reading(Amount(30000), Amount(50000), Zero())
    ensures ReadingOf(ClampedToZero) == Reading(Zero(), Zero(), Zero())
  {
  }

  /** The last three steps: resolve, dispute again, chargeback. */
  lemma NegativeTail()
    ensures Inv(HeldOverTotal)
    ensures Trace(HeldOverTotal, NegativeTransactions[3..]).0 == [Ok(()), Ok(()), Ok(())]
    ensures Trace(HeldOverTotal, NegativeTransactions[3..]).1
         == [ReadingOf(Spent), ReadingOf(HeldOverTotal), ReadingOf(ClampedToZero)]
    ensures Trace(HeldOverTotal, NegativeTransactions[3..]).2 == ClampedToZero
  {
    var ts := NegativeTransactions;
    var ok: Result<(), Error> := Ok(());
    NegativeStep3(); NegativeStep4(); NegativeStep6();
    assert ts[5..][1..] == ts[6..] == [];
    TraceOk(HeldOverTotal, ts[5..], ClampedToZero, [], [], ClampedToZero);
    assert ts[4..][1..] == ts[5..];
    TraceOk(Spent, ts[4..], HeldOverTotal, [ok], [ReadingOf(ClampedToZero)], ClampedToZero);
    assert ts[3..][1..] == ts[4..];
    TraceOk(HeldOverTotal, ts[3..], Spent, [ok] + [ok], [ReadingOf(HeldOverTotal)] + [ReadingOf(ClampedToZero)], ClampedToZero);
  }

  /**
   * `test_edge_case_chargeback_would_go_negative`: deposit 5, withdraw 2,
   * dispute the deposit (held 5 exceeds the total 3, so nothing is
   * available), resolve it, dispute it again and charge it back. The
   * chargeback would take the total below zero; it is set to zero instead
   * and the account is frozen.
   */
  lemma ChargebackWouldGoNegative(start: AccountState, ts: seq<Transaction>)
    requires start == Empty && ts == NegativeTransactions
    ensures Trace(start, ts).0 == [Ok(()), Ok(()), Ok(()), Ok(()), Ok(()), Ok(())]
    ensures Trace(start, ts).1 == NegativeExpected
    ensures Trace(start, ts).2 == ClampedToZero && ClampedToZero.frozen
  {
    var ok: Result<(), Error> := Ok(());
    var rIn, rOut := ReadingOf(Deposited), ReadingOf(Spent);
    var rHeld, rZero := ReadingOf(HeldOverTotal), ReadingOf(ClampedToZero);
    NegativeStep1();
    NegativeAfterFirst();
    TraceOk(start, ts, Deposited, [ok, ok, ok, ok, ok], [rOut, rHeld, rOut, rHeld, rZero], ClampedToZero);
    PrependToFive(ok, ok, ok, ok, ok, ok);
    PrependToFive(rIn, rOut, rHeld, rOut, rHeld, rZero);
    NegativeReadingList();
  }

  const NegativeExpected := [
    Reading(Amount(50000), Zero(), Amount(50000)),
    Reading(Amount(30000), Zero(), Amount(30000)),
    Reading(Amount(30000), Amount(50000), Zero()),
    Reading(Amount(30000), Zero(), Amount(30000)),
    Reading(Amount(30000), Amount(50000), Zero()),
    Reading(Zero(), Zero(), Zero())]

  lemma NegativeReadingList()
    ensures [ReadingOf(Deposited), ReadingOf(Spent), ReadingOf(HeldOverTotal),
             ReadingOf(Spent), ReadingOf(HeldOverTotal), ReadingOf(ClampedToZero)] == NegativeExpected
  {
    NegativeReadings();
  }

  /** From the withdrawal on. */
  lemma NegativeAfterFirst()
    ensures Inv(Deposited)
    ensures Trace(Deposited, NegativeTransactions[1..]).0 == [Ok(()), Ok(()), Ok(()), Ok(()), Ok(())]
    ensures Trace(Deposited, NegativeTransactions[1..]).1
         == [ReadingOf(Spent), ReadingOf(HeldOverTotal), ReadingOf(Spent), ReadingOf(HeldOverTotal), ReadingOf(ClampedToZero)]
    ensures Trace(Deposited, NegativeTransactions[1..]).2 == ClampedToZero
  {
    var ts := NegativeTransactions;
    var ok: Result<(), Error> := Ok(());
    var rOut, rHeld, rZero := ReadingOf(Spent), ReadingOf(HeldOverTotal), ReadingOf(ClampedToZero);
    NegativeStep1(); NegativeStep2(); NegativeStep3();
    NegativeTail();
    assert ts[2..][1..] == ts[3..];
    TraceOk(Spent, ts[2..], HeldOverTotal, [ok, ok, ok], [rOut, rHeld, rZero], ClampedToZero);
    assert ts[1..][1..] == ts[2..];
    TraceOk(Deposited, ts[1..], Spent, [ok] + [ok, ok, ok], [rHeld] + [rOut, rHeld, rZero], ClampedToZero);
    PrependToFour(ok, ok, ok, ok, ok);
    PrependToFour(rOut, rHeld, rOut, rHeld, rZero);
  }

  // ---------------------------------------------------------------------
  // test_withdraw_more_than_available
  // ---------------------------------------------------------------------

  const Emptied := AccountState([Five], Zero(), Zero(), false)

  const OverdrawTransactions := [
    Transaction(Withdrawal, 0, Amount(10000)),
    Transaction(Deposit, 0, Amount(50000)),
    Transaction(Withdrawal, 1, Amount(60000)),
    Transaction(Withdrawal, 1, Amount(50000))]

  lemma OverdrawSteps()
    ensures Step(Empty, OverdrawTransactions[0]) == Err(WithdrawOverflow)
    ensures Step(Empty, OverdrawTransactions[1]) == Ok(Deposited)
  {
    assert InsertSorted([], Five) == [Five];
  }

  lemma OverdrawLater()
    ensures Inv(Deposited)
    ensures Step(Deposited, OverdrawTransactions[2]) == Err(WithdrawOverflow)
    ensures Step(Deposited, OverdrawTransactions[3]) == Ok(Emptied)
  {
    HeldSumOfOne(Five);
  }

  /**
   * `test_withdraw_more_than_available`: withdrawing 1 from an empty account
   * and 6 after a deposit of 5 both fail with WithdrawOverflow and change
   * nothing; withdrawing exactly 5 then succeeds.
   */
  lemma WithdrawMoreThanAvailable(start: AccountState, ts: seq<Transaction>)
    requires start == Empty && ts == OverdrawTransactions
    ensures Trace(start, ts).0 == [Err(WithdrawOverflow), Ok(()), Err(WithdrawOverflow), Ok(())]
    ensures Trace(start, ts).1 == [
      Reading(Zero(), Zero(), Zero()),
      Reading(Amount(50000), Zero(), Amount(50000)),
      Reading(Amount(50000), Zero(), Amount(50000)),
      Reading(Zero(), Zero(), Zero())]
    ensures Trace(start, ts).2 == Emptied
  {
    var ok: Result<(), Error> := Ok(());
    var err: Result<(), Error> := Err(WithdrawOverflow);
    var rNone, rIn, rOut := ReadingOf(Empty), ReadingOf(Deposited), ReadingOf(Emptied);
    assert rNone == Reading(Zero(), Zero(), Zero());
    assert rIn == Reading(Amount(50000), Zero(), Amount(50000));
    assert rOut == Reading(Zero(), Zero(), Zero());
    OverdrawSteps();
    OverdrawLater();
    assert ts[3..][1..] == ts[4..] == [];
    TraceOk(Deposited, ts[3..], Emptied, [], [], Emptied);
    assert ts[2..][1..] == ts[3..];
    TraceErr(Deposited, ts[2..], WithdrawOverflow, [ok], [rOut], Emptied);
    assert ts[1..][1..] == ts[2..];
    TraceOk(Empty, ts[1..], Deposited, [err] + [ok], [rIn] + [rOut], Emptied);
    TraceErr(start, ts, WithdrawOverflow, [ok] + ([err] + [ok]), [rIn] + ([rIn] + [rOut]), Emptied);
    var trace := Trace(start, ts);
    assert trace.0 == [err, ok, err, ok];
    assert trace.1 == [rNone, rIn, rIn, rOut];
  }
}
