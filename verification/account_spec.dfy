/**
 * The account ledger of src/accounts.rs at the level of values: one
 * client's state as a datatype, what `Account::process` does to it as the
 * function Step, and what `ClientsDatabase::process_transaction` does to
 * the map of clients as the function Route. The classes in module
 * Accounts are proved to follow these functions; the properties of the
 * ledger are proved here, about the functions.
 */
module AccountSpec {
  import opened Wrappers
  import opened Errors
  import opened Amounts

  /** Rust's `u32`: `TransactionId`. */
  type TransactionId = x: int | 0 <= x <= 0xFFFF_FFFF

  /** Rust's `u16`: `ClientId`. */
  type ClientId = x: int | 0 <= x <= 0xFFFF

  datatype TransactionKind = Deposit | Withdrawal | Dispute | Resolve | Chargeback

  /** `TransactionKind::has_amount`: only deposits and withdrawals carry an amount. */
  predicate HasAmount(kind: TransactionKind) {
    kind == Deposit || kind == Withdrawal
  }

  datatype Transaction = Transaction(kind: TransactionKind, id: TransactionId, amount: Amount)

  /** `Deposit`: the record an account keeps of each deposit, the only kind that can be disputed. */
  datatype DepositRecord = DepositRecord(transactionId: TransactionId, amount: Amount, isDisputed: bool)

  /** The fields of `Account`. */
  datatype AccountState = AccountState(deposits: seq<DepositRecord>, total: Amount, held: Amount, frozen: bool)

  /** `Account::default()`: no deposits, nothing held, not frozen. */
  const Empty := AccountState([], Zero(), Zero(), false)

  // ---------------------------------------------------------------------
  // The invariant the code relies on
  // ---------------------------------------------------------------------

  /** Deposit records are kept in strictly ascending transaction id order. */
  predicate Ascending(ds: seq<DepositRecord>) {
    forall i, j | 0 <= i < j < |ds| :: ds[i].transactionId < ds[j].transactionId
  }

  /** What a deposit record contributes to `held`: its amount while it is disputed. */
  function Weight(d: DepositRecord): nat {
    if d.isDisputed then d.amount.scaled else 0
  }

  /** The sum of the amounts of the disputed deposits. */
  function HeldSum(ds: seq<DepositRecord>): nat
    decreases |ds|
  {
    if ds == [] then 0 else Weight(ds[0]) + HeldSum(ds[1..])
  }

  /**
   * The account invariant: ids ascend, and until a chargeback freezes the
   * account `held` is exactly the sum of the disputed deposits. (A
   * chargeback lowers `held` but leaves its deposit marked disputed; the
   * account is frozen from then on and never changes again.)
   */
  predicate Inv(a: AccountState) {
    Ascending(a.deposits) && (a.frozen || a.held.scaled == HeldSum(a.deposits))
  }

  // ---------------------------------------------------------------------
  // Looking deposits up and inserting them
  // ---------------------------------------------------------------------

  /** The position of the deposit with transaction id `id`, searching from the front. */
  function IndexOfId(ds: seq<DepositRecord>, id: TransactionId): (r: Option<nat>)
    ensures r.Some? ==> r.value < |ds| && ds[r.value].transactionId == id
    ensures r.Some? ==> forall j | 0 <= j < r.value :: ds[j].transactionId != id
    ensures r.None? ==> forall j | 0 <= j < |ds| :: ds[j].transactionId != id
    decreases |ds|
  {
    if ds == [] then None
    else if ds[0].transactionId == id then Some(0)
    else match IndexOfId(ds[1..], id)
      case None => None
      case Some(j) => Some(j + 1)
  }

  /** Inserting a record into an ascending sequence of records at its place. */
  function InsertSorted(ds: seq<DepositRecord>, d: DepositRecord): seq<DepositRecord>
    decreases |ds|
  {
    if ds == [] || d.transactionId < ds[0].transactionId then [d] + ds
    else [ds[0]] + InsertSorted(ds[1..], d)
  }

  /** In an ascending sequence the record at i is the only one with its id. */
  lemma IndexOfIdUnique(ds: seq<DepositRecord>, i: nat)
    requires Ascending(ds) && i < |ds|
    ensures IndexOfId(ds, ds[i].transactionId) == Some(i)
  {
  }

  /** InsertSorted adds exactly the new record. */
  lemma {:induction false} InsertSortedContents(ds: seq<DepositRecord>, d: DepositRecord)
    ensures multiset(InsertSorted(ds, d)) == multiset(ds) + multiset{d}
    ensures |InsertSorted(ds, d)| == |ds| + 1
    decreases |ds|
  {
    if ds != [] && d.transactionId >= ds[0].transactionId {
      InsertSortedContents(ds[1..], d);
      assert ds == [ds[0]] + ds[1..];
    }
  }

  /** InsertSorted of a new id keeps the ids ascending. */
  lemma {:induction false} InsertSortedAscending(ds: seq<DepositRecord>, d: DepositRecord)
    requires Ascending(ds) && IndexOfId(ds, d.transactionId).None?
    ensures Ascending(InsertSorted(ds, d))
    decreases |ds|
  {
    if ds == [] || d.transactionId < ds[0].transactionId {
      forall k | 0 <= k < |ds|
        ensures d.transactionId < ds[k].transactionId
      {
        assert k > 0 ==> ds[0].transactionId < ds[k].transactionId;
      }
      ConsAscending(d, ds);
    } else {
      var tail := ds[1..];
      assert IndexOfId(tail, d.transactionId).None?;
      InsertSortedAscending(tail, d);
      InsertedAbove(ds, d);
      ConsAscending(ds[0], InsertSorted(tail, d));
    }
  }

  /** A record below every record of an ascending sequence can go in front. */
  lemma ConsAscending(x: DepositRecord, r: seq<DepositRecord>)
    requires Ascending(r) && forall k | 0 <= k < |r| :: x.transactionId < r[k].transactionId
    ensures Ascending([x] + r)
  {
    var xr := [x] + r;
    forall i, j | 0 <= i < j < |xr|
      ensures xr[i].transactionId < xr[j].transactionId
    {
      assert xr[j] == r[j - 1];
      if i > 0 {
        assert xr[i] == r[i - 1];
      }
    }
  }

  /** Inserting above the first record leaves every record of the rest above it. */
  lemma InsertedAbove(ds: seq<DepositRecord>, d: DepositRecord)
    requires Ascending(ds) && ds != [] && ds[0].transactionId < d.transactionId
    ensures forall k | 0 <= k < |InsertSorted(ds[1..], d)| :: ds[0].transactionId < InsertSorted(ds[1..], d)[k].transactionId
  {
    var tail := ds[1..];
    InsertSortedContents(tail, d);
    var ins := InsertSorted(tail, d);
    forall k | 0 <= k < |ins|
      ensures ds[0].transactionId < ins[k].transactionId
    {
      assert ins[k] in multiset(ins);
      if ins[k] != d {
        assert ins[k] in multiset(tail);
        var j :| 0 <= j < |tail| && tail[j] == ins[k];
        assert ds[j + 1] == tail[j];
      }
    }
  }

  /** Inserting at the binary-search insertion point is InsertSorted. */
  lemma {:induction false} InsertAtPoint(ds: seq<DepositRecord>, k: nat, d: DepositRecord)
    requires Ascending(ds) && k <= |ds|
    requires forall i | 0 <= i < k :: ds[i].transactionId < d.transactionId
    requires forall i | k <= i < |ds| :: d.transactionId < ds[i].transactionId
    ensures ds[..k] + [d] + ds[k..] == InsertSorted(ds, d)
    decreases k
  {
    if k > 0 {
      var tail := ds[1..];
      InsertAtPoint(tail, k - 1, d);
      assert ds[..k] + [d] + ds[k..] == [ds[0]] + (tail[..k - 1] + [d] + tail[k - 1..]);
    }
  }

  /** HeldSum after changing one record: its old weight out, its new weight in. */
  lemma {:induction false} HeldSumUpdate(ds: seq<DepositRecord>, i: nat, d: DepositRecord)
    requires i < |ds|
    ensures HeldSum(ds[i := d]) + Weight(ds[i]) == HeldSum(ds) + Weight(d)
    decreases |ds|
  {
    if i > 0 {
      HeldSumUpdate(ds[1..], i - 1, d);
      assert ds[i := d][1..] == ds[1..][i - 1 := d];
    }
  }

  /** HeldSum after inserting a record: its weight is added. */
  lemma {:induction false} HeldSumInsert(ds: seq<DepositRecord>, d: DepositRecord)
    ensures HeldSum(InsertSorted(ds, d)) == HeldSum(ds) + Weight(d)
    decreases |ds|
  {
    if ds == [] || d.transactionId < ds[0].transactionId {
      assert ([d] + ds)[1..] == ds;
    } else {
      HeldSumInsert(ds[1..], d);
      assert ([ds[0]] + InsertSorted(ds[1..], d))[1..] == InsertSorted(ds[1..], d);
    }
  }

  /** A disputed deposit's amount is part of HeldSum. */
  lemma {:induction false} DisputedWithinHeld(ds: seq<DepositRecord>, i: nat)
    requires i < |ds| && ds[i].isDisputed
    ensures ds[i].amount.scaled <= HeldSum(ds)
    decreases |ds|
  {
    if i > 0 {
      DisputedWithinHeld(ds[1..], i - 1);
    }
  }

  // ---------------------------------------------------------------------
  // One transaction on one account
  // ---------------------------------------------------------------------

  /**
   * `Account::available_for_withdrawal`: nothing when frozen, otherwise
   * total minus held, or zero when held exceeds total.
   */
  function Available(a: AccountState): (r: Amount)
    ensures r.scaled <= a.total.scaled
    ensures a.frozen ==> r == Zero()
    ensures !a.frozen && a.held.scaled <= a.total.scaled ==> r.scaled + a.held.scaled == a.total.scaled
    ensures !a.frozen && a.held.scaled > a.total.scaled ==> r == Zero()
  {
    if a.frozen then Zero()
    else match CheckedSub(a.total, a.held)
      case Some(v) => v
      case None => Zero()
  }

  /** The record of a deposit with its dispute flag set to b. */
  function Flagged(ds: seq<DepositRecord>, i: nat, b: bool): seq<DepositRecord>
    requires i < |ds|
  {
    ds[i := ds[i].(isDisputed := b)]
  }

  /**
   * `Account::process`: the new account, or the error; an error carries no
   * state because the account is left as it was. The three `unwrap`s of
   * the source appear as `.value` on a CheckedSub that the invariant makes
   * Some.
   */
  function Step(a: AccountState, t: Transaction): Result<AccountState, Error>
    requires Inv(a)
  {
    if a.frozen then Err(AccountFrozen)
    else match t.kind
      case Deposit =>
        if IndexOfId(a.deposits, t.id).Some? then Err(DuplicateTransactionId)
        else (match CheckedAdd(a.total, t.amount)
          case None => Err(DepositOverflow)
          case Some(total) =>
            Ok(a.(deposits := InsertSorted(a.deposits, DepositRecord(t.id, t.amount, false)), total := total)))
      case Withdrawal =>
        (match CheckedSub(Available(a), t.amount)
          case None => Err(WithdrawOverflow)
          case Some(_) => Ok(a.(total := CheckedSub(a.total, t.amount).value)))
      case Dispute =>
        (match IndexOfId(a.deposits, t.id)
          case None => Err(TransactionNotFound)
          case Some(i) =>
            if a.deposits[i].isDisputed then Err(DuplicateDispute)
            else (match CheckedAdd(a.held, a.deposits[i].amount)
              case None => Err(HeldOverflow)
              case Some(held) => Ok(a.(deposits := Flagged(a.deposits, i, true), held := held))))
      case Resolve =>
        (match IndexOfId(a.deposits, t.id)
          case None => Err(TransactionNotFound)
          case Some(i) =>
            if !a.deposits[i].isDisputed then Err(ResolveNotDisputed)
            else
              DisputedWithinHeld(a.deposits, i);
              Ok(a.(deposits := Flagged(a.deposits, i, false),
                    held := CheckedSub(a.held, a.deposits[i].amount).value)))
      case Chargeback =>
        (match IndexOfId(a.deposits, t.id)
          case None => Err(TransactionNotFound)
          case Some(i) =>
            if !a.deposits[i].isDisputed then Err(ChargebackNotDisputed)
            else
              DisputedWithinHeld(a.deposits, i);
              var amount := a.deposits[i].amount;
              Ok(a.(held := CheckedSub(a.held, amount).value,
                    total := match CheckedSub(a.total, amount) case Some(v) => v case None => Zero(),
                    frozen := true)))
  }

  // ---------------------------------------------------------------------
  // Properties of Step
  // ---------------------------------------------------------------------

  /** Every successful transaction keeps the invariant. */
  lemma StepPreservesInv(a: AccountState, t: Transaction)
    requires Inv(a) && Step(a, t).Ok?
    ensures Inv(Step(a, t).value)
  {
    var ds := a.deposits;
    match t.kind
    case Deposit =>
      var d := DepositRecord(t.id, t.amount, false);
      InsertSortedAscending(ds, d);
      HeldSumInsert(ds, d);
    case Withdrawal =>
    case Dispute =>
      var i := IndexOfId(ds, t.id).value;
      HeldSumUpdate(ds, i, ds[i].(isDisputed := true));
    case Resolve =>
      var i := IndexOfId(ds, t.id).value;
      HeldSumUpdate(ds, i, ds[i].(isDisputed := false));
    case Chargeback =>
  }

  /** A frozen account refuses every transaction with AccountFrozen. */
  lemma FrozenRejectsAll(a: AccountState, t: Transaction)
    requires Inv(a) && a.frozen
    ensures Step(a, t) == Err(AccountFrozen)
  {
  }

  /** Only a chargeback sets `frozen`, and nothing clears it. */
  lemma FrozenOnlyByChargeback(a: AccountState, t: Transaction)
    requires Inv(a) && Step(a, t).Ok?
    ensures !a.frozen
    ensures Step(a, t).value.frozen <==> t.kind == Chargeback
  {
  }

  /** Deposit: a duplicate id, an overflowing total, or a new undisputed record and a larger total. */
  lemma DepositOutcome(a: AccountState, t: Transaction)
    requires Inv(a) && !a.frozen && t.kind == Deposit
    ensures (exists i | 0 <= i < |a.deposits| :: a.deposits[i].transactionId == t.id)
            ==> Step(a, t) == Err(DuplicateTransactionId)
    ensures (forall i | 0 <= i < |a.deposits| :: a.deposits[i].transactionId != t.id) ==>
      if a.total.scaled + t.amount.scaled > U64_MAX then Step(a, t) == Err(DepositOverflow)
      else
        Step(a, t).Ok? &&
        var b := Step(a, t).value;
        b.total.scaled == a.total.scaled + t.amount.scaled && b.held == a.held && !b.frozen &&
        multiset(b.deposits) == multiset(a.deposits) + multiset{DepositRecord(t.id, t.amount, false)} &&
        Ascending(b.deposits)
  {
    if forall i | 0 <= i < |a.deposits| :: a.deposits[i].transactionId != t.id {
      InsertSortedAscending(a.deposits, DepositRecord(t.id, t.amount, false));
      InsertSortedContents(a.deposits, DepositRecord(t.id, t.amount, false));
    }
  }

  /**
   * Withdrawal succeeds exactly when the amount is at most what is
   * available, and then lowers the total by exactly the amount.
   */
  lemma WithdrawalOutcome(a: AccountState, t: Transaction)
    requires Inv(a) && !a.frozen && t.kind == Withdrawal
    ensures Step(a, t).Ok? <==> t.amount.scaled <= Available(a).scaled
    ensures Step(a, t).Err? ==> Step(a, t).error == WithdrawOverflow
    ensures Step(a, t).Ok? ==>
      Step(a, t).value == a.(total := Amount(a.total.scaled - t.amount.scaled))
  {
  }

  /**
   * Dispute: an unknown id, a deposit already disputed, an overflowing
   * `held`, or the deposit marked disputed and its amount added to `held`.
   */
  lemma DisputeOutcome(a: AccountState, t: Transaction)
    requires Inv(a) && !a.frozen && t.kind == Dispute
    ensures IndexOfId(a.deposits, t.id).None? ==> Step(a, t) == Err(TransactionNotFound)
    ensures IndexOfId(a.deposits, t.id).Some? ==>
      var i := IndexOfId(a.deposits, t.id).value;
      var d := a.deposits[i];
      if d.isDisputed then Step(a, t) == Err(DuplicateDispute)
      else if a.held.scaled + d.amount.scaled > U64_MAX then Step(a, t) == Err(HeldOverflow)
      else Step(a, t) == Ok(a.(deposits := a.deposits[i := d.(isDisputed := true)],
                               held := Amount(a.held.scaled + d.amount.scaled)))
  {
  }

  /**
   * Resolve: an unknown id, a deposit not disputed, or the deposit's flag
   * cleared and its amount taken back out of `held`, which never underflows.
   */
  lemma ResolveOutcome(a: AccountState, t: Transaction)
    requires Inv(a) && !a.frozen && t.kind == Resolve
    ensures IndexOfId(a.deposits, t.id).None? ==> Step(a, t) == Err(TransactionNotFound)
    ensures IndexOfId(a.deposits, t.id).Some? ==>
      var i := IndexOfId(a.deposits, t.id).value;
      var d := a.deposits[i];
      if !d.isDisputed then Step(a, t) == Err(ResolveNotDisputed)
      else d.amount.scaled <= a.held.scaled &&
           Step(a, t) == Ok(a.(deposits := a.deposits[i := d.(isDisputed := false)],
                               held := Amount(a.held.scaled - d.amount.scaled)))
  {
    var r := IndexOfId(a.deposits, t.id);
    if r.Some? && a.deposits[r.value].isDisputed {
      DisputedWithinHeld(a.deposits, r.value);
    }
  }

  /**
   * Chargeback: an unknown id, a deposit not disputed, or `held` lowered by
   * the deposit's amount, `total` lowered by it but clamped at zero, and the
   * account frozen.
   */
  lemma ChargebackOutcome(a: AccountState, t: Transaction)
    requires Inv(a) && !a.frozen && t.kind == Chargeback
    ensures IndexOfId(a.deposits, t.id).None? ==> Step(a, t) == Err(TransactionNotFound)
    ensures IndexOfId(a.deposits, t.id).Some? ==>
      var d := a.deposits[IndexOfId(a.deposits, t.id).value];
      if !d.isDisputed then Step(a, t) == Err(ChargebackNotDisputed)
      else d.amount.scaled <= a.held.scaled &&
           Step(a, t) == Ok(a.(held := Amount(a.held.scaled - d.amount.scaled),
                               total := Amount(if d.amount.scaled <= a.total.scaled
                                               then a.total.scaled - d.amount.scaled else 0),
                               frozen := true))
  {
    var r := IndexOfId(a.deposits, t.id);
    if r.Some? && a.deposits[r.value].isDisputed {
      DisputedWithinHeld(a.deposits, r.value);
    }
  }

  /** A dispute followed by a resolve of the same deposit gives back the account exactly as it was. */
  lemma DisputeThenResolve(a: AccountState, id: TransactionId, x: Amount, y: Amount)
    requires Inv(a) && !a.frozen
    requires Step(a, Transaction(Dispute, id, x)).Ok?
    ensures var b := Step(a, Transaction(Dispute, id, x)).value;
            Inv(b) && Step(b, Transaction(Resolve, id, y)) == Ok(a)
  {
    var b := Step(a, Transaction(Dispute, id, x)).value;
    StepPreservesInv(a, Transaction(Dispute, id, x));
    var i := IndexOfId(a.deposits, id).value;
    assert b.deposits[i] == a.deposits[i].(isDisputed := true);
    assert IndexOfId(b.deposits, id) == Some(i);
    assert b.deposits[i := b.deposits[i].(isDisputed := false)] == a.deposits;
  }

  /** The first deposit into a new account always succeeds. */
  lemma FirstDepositSucceeds(t: Transaction)
    requires t.kind == Deposit
    ensures Inv(Empty)
    ensures Step(Empty, t) == Ok(AccountState([DepositRecord(t.id, t.amount, false)], t.amount, Zero(), false))
  {
    assert IndexOfId([], t.id).None?;
    assert CheckedAdd(Zero(), t.amount) == Some(t.amount);
    assert InsertSorted([], DepositRecord(t.id, t.amount, false)) == [DepositRecord(t.id, t.amount, false)];
  }

  // ---------------------------------------------------------------------
  // Many transactions on one account
  // ---------------------------------------------------------------------

  /** The account after a sequence of transactions, each one that fails leaving it as it was. */
  function Apply(a: AccountState, ts: seq<Transaction>): (b: AccountState)
    requires Inv(a)
    ensures Inv(b)
    decreases |ts|
  {
    if ts == [] then a
    else
      match Step(a, ts[0])
        case Ok(next) => StepPreservesInv(a, ts[0]); Apply(next, ts[1..])
        case Err(_) => Apply(a, ts[1..])
  }

  /** Once frozen, an account never changes again, whatever comes after. */
  lemma {:induction false} FrozenIsFinal(a: AccountState, ts: seq<Transaction>)
    requires Inv(a) && a.frozen
    ensures Apply(a, ts) == a
    decreases |ts|
  {
    if ts != [] {
      FrozenIsFinal(a, ts[1..]);
    }
  }

  /** A frozen account after any sequence stays frozen after any further sequence. */
  lemma {:induction false} FrozenStaysFrozen(a: AccountState, ts: seq<Transaction>, us: seq<Transaction>)
    requires Inv(a) && Apply(a, ts).frozen
    ensures Apply(Apply(a, ts), us).frozen
  {
    FrozenIsFinal(Apply(a, ts), us);
  }

  // ---------------------------------------------------------------------
  // The database of clients
  // ---------------------------------------------------------------------

  predicate AllInv(db: map<ClientId, AccountState>) {
    forall c | c in db :: Inv(db[c])
  }

  /**
   * `ClientsDatabase::process_transaction`: a known client's account
   * processes the transaction; an unknown client gets a new account, but
   * only for a deposit, and the new account is inserted before the deposit
   * is processed, so it stays even if processing were to fail.
   */
  function Route(db: map<ClientId, AccountState>, cid: ClientId, t: Transaction)
    : (r: (Result<(), Error>, map<ClientId, AccountState>))
    requires AllInv(db)
  {
    if cid in db then
      match Step(db[cid], t)
        case Ok(next) => (Ok(()), db[cid := next])
        case Err(e) => (Err(e), db)
    else if t.kind != Deposit then (Err(AccountNotFound), db)
    else
      match Step(Empty, t)
        case Ok(next) => (Ok(()), db[cid := next])
        case Err(e) => (Err(e), db[cid := Empty])
  }

  /** Routing keeps every account's invariant. */
  lemma RoutePreservesInv(db: map<ClientId, AccountState>, cid: ClientId, t: Transaction)
    requires AllInv(db)
    ensures AllInv(Route(db, cid, t).1)
  {
    if cid in db {
      if Step(db[cid], t).Ok? {
        StepPreservesInv(db[cid], t);
      }
    } else if t.kind == Deposit {
      FirstDepositSucceeds(t);
    }
  }

  /** A transaction other than a deposit for an unknown client fails with AccountNotFound and adds no account. */
  lemma RouteUnknownClient(db: map<ClientId, AccountState>, cid: ClientId, t: Transaction)
    requires AllInv(db) && cid !in db && t.kind != Deposit
    ensures Route(db, cid, t) == (Err(AccountNotFound), db)
  {
  }

  /** A deposit for an unknown client creates its account, and that first deposit succeeds. */
  lemma RouteNewClient(db: map<ClientId, AccountState>, cid: ClientId, t: Transaction)
    requires AllInv(db) && cid !in db && t.kind == Deposit
    ensures Route(db, cid, t).0 == Ok(())
    ensures Route(db, cid, t).1 ==
            db[cid := AccountState([DepositRecord(t.id, t.amount, false)], t.amount, Zero(), false)]
  {
    FirstDepositSucceeds(t);
  }

  /**
   * A deposit for an unknown client is routed exactly as if the client
   * first got an empty account, as `vac.insert(Default::default())` does.
   */
  lemma RouteVacantAsEmpty(db: map<ClientId, AccountState>, cid: ClientId, t: Transaction)
    requires AllInv(db) && cid !in db && t.kind == Deposit
    ensures AllInv(db[cid := Empty])
    ensures Route(db, cid, t) == Route(db[cid := Empty], cid, t)
  {
    FirstDepositSucceeds(t);
    var next := Step(Empty, t).value;
    assert db[cid := Empty][cid := next] == db[cid := next];
  }

  /**
   * Routing changes only the addressed client: every other client's
   * account is the same, and the set of clients grows only by a new
   * client receiving a deposit.
   */
  lemma RouteIsolation(db: map<ClientId, AccountState>, cid: ClientId, t: Transaction)
    requires AllInv(db)
    ensures var db' := Route(db, cid, t).1;
            db'.Keys == db.Keys + (if cid !in db && t.kind == Deposit then {cid} else {}) &&
            forall c | c in db && c != cid :: db'[c] == db[c]
  {
  }

  /** The results and the final map after routing a sequence of (client, transaction) pairs. */
  function Run(db: map<ClientId, AccountState>, txs: seq<(ClientId, Transaction)>)
    : (r: (seq<Result<(), Error>>, map<ClientId, AccountState>))
    requires AllInv(db)
    ensures |r.0| == |txs| && AllInv(r.1)
    decreases |txs|
  {
    if txs == [] then ([], db)
    else
      var (res, next) := Route(db, txs[0].0, txs[0].1);
      RoutePreservesInv(db, txs[0].0, txs[0].1);
      var (rest, last) := Run(next, txs[1..]);
      ([res] + rest, last)
  }

  /** Transaction k of the sequence is a deposit for client c that succeeded. */
  predicate DepositSucceeded(txs: seq<(ClientId, Transaction)>, results: seq<Result<(), Error>>, k: int, c: ClientId)
    requires |results| == |txs|
  {
    0 <= k < |txs| && txs[k].0 == c && txs[k].1.kind == Deposit && results[k] == Ok(())
  }

  /**
   * After a run, a client has an account exactly when it had one before or
   * a deposit for it succeeded during the run.
   */
  lemma {:induction false} RunAccountsExist(db: map<ClientId, AccountState>, txs: seq<(ClientId, Transaction)>, c: ClientId)
    requires AllInv(db)
    ensures var (results, last) := Run(db, txs);
            c in last <==> c in db || exists k :: DepositSucceeded(txs, results, k, c)
    decreases |txs|
  {
    if txs != [] {
      var (results, last) := Run(db, txs);
      var (cid, t) := txs[0];
      var (res, next) := Route(db, cid, t);
      RoutePreservesInv(db, cid, t);
      RouteIsolation(db, cid, t);
      if cid !in db && t.kind == Deposit {
        RouteNewClient(db, cid, t);
      }
      RunAccountsExist(next, txs[1..], c);
      var tailResults := Run(next, txs[1..]).0;
      assert results == [res] + tailResults;
      if c in last {
        if c !in db {
          if c in next {
            assert DepositSucceeded(txs, results, 0, c);
          } else {
            var k :| DepositSucceeded(txs[1..], tailResults, k, c);
            assert DepositSucceeded(txs, results, k + 1, c);
          }
        }
      } else {
        assert c !in next;
        forall k | 0 <= k < |txs| ensures !DepositSucceeded(txs, results, k, c) {
          if k > 0 {
            assert !DepositSucceeded(txs[1..], tailResults, k - 1, c);
          }
        }
      }
    }
  }

  /** Starting from no clients, a client has an account exactly when a deposit for it succeeded. */
  lemma AccountExistsIffDeposit(txs: seq<(ClientId, Transaction)>, c: ClientId)
    ensures var (results, last) := Run(map[], txs);
            c in last <==> exists k :: DepositSucceeded(txs, results, k, c)
  {
    RunAccountsExist(map[], txs, c);
  }
}
