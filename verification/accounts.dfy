/**
 * `Account` and `ClientsDatabase` of src/accounts.rs as classes whose
 * methods update their fields in place, each proved to do what the value
 * functions AccountSpec.Step and AccountSpec.Route say.
 */
module Accounts {
  import opened Wrappers
  import opened Errors
  import opened Amounts
  import opened AccountSpec

  /**
   * `<[Deposit]>::binary_search_by_key` on the transaction id, between lo
   * and hi: Ok with the position of the id, or Err with the position where
   * it would be inserted to keep the ids ascending.
   */
  function SearchById(ds: seq<DepositRecord>, id: TransactionId, lo: nat, hi: nat): (r: Result<nat, nat>)
    requires Ascending(ds) && lo <= hi <= |ds|
    requires forall i | 0 <= i < lo :: ds[i].transactionId < id
    requires forall i | hi <= i < |ds| :: id < ds[i].transactionId
    ensures r.Ok? ==> r.value < |ds| && ds[r.value].transactionId == id
    ensures r.Err? ==> r.error <= |ds|
    ensures r.Err? ==> forall i | 0 <= i < r.error :: ds[i].transactionId < id
    ensures r.Err? ==> forall i | r.error <= i < |ds| :: id < ds[i].transactionId
    decreases hi - lo
  {
    if lo == hi then Err(lo)
    else
      var mid := (lo + hi) / 2;
      if ds[mid].transactionId == id then Ok(mid)
      else if ds[mid].transactionId < id then SearchById(ds, id, mid + 1, hi)
      else SearchById(ds, id, lo, mid)
  }

  /** One client's account. */
  class Account {
    var deposits: seq<DepositRecord>
    var total: Amount
    var held: Amount
    var frozen: bool

    /** The account's fields as a value. */
    function State(): AccountState
      reads this
    {
      AccountState(deposits, total, held, frozen)
    }

    ghost predicate Valid()
      reads this
    {
      Inv(State())
    }

    /** `Account::default()`. */
    constructor ()
      ensures Valid() && State() == Empty
    {
      deposits := [];
      total := Zero();
      held := Zero();
      frozen := false;
    }

    function AvailableForWithdrawal(): Amount
      reads this
    {
      Available(State())
    }

    function Total(): Amount
      reads this
    {
      total
    }

    function Held(): Amount
      reads this
    {
      held
    }

    function IsFrozen(): bool
      reads this
    {
      frozen
    }

    /** `Account::find_deposit_id`: the position of the deposit with id tid, or TransactionNotFound. */
    function FindDepositId(tid: TransactionId): (r: Result<nat, Error>)
      reads this
      requires Ascending(deposits)
      ensures r.Ok? ==> r.value < |deposits| && IndexOfId(deposits, tid) == Some(r.value)
      ensures r.Err? ==> r.error == TransactionNotFound && IndexOfId(deposits, tid).None?
    {
      match SearchById(deposits, tid, 0, |deposits|)
        case Ok(i) => IndexOfIdUnique(deposits, i); Ok(i)
        case Err(_) => Err(TransactionNotFound)
    }

    /**
     * `Account::process`: applies one transaction. On success the account
     * is what Step computes; on an error it is left exactly as it was.
     */
    method Process(t: Transaction) returns (r: Result<(), Error>)
      requires Valid()
      modifies this
      ensures Valid()
      ensures match Step(old(State()), t)
                case Ok(next) => r == Ok(()) && State() == next
                case Err(e) => r == Err(e) && State() == old(State())
    {
      ghost var before := State();
      if frozen {
        return Err(AccountFrozen);
      }
      match t.kind {
        case Deposit =>
          var search := SearchById(deposits, t.id, 0, |deposits|);
          if search.Ok? {
            IndexOfIdUnique(deposits, search.value);
            return Err(DuplicateTransactionId);
          }
          var insertAt := search.error;
          var sum := CheckedAdd(total, t.amount);
          if sum.None? {
            return Err(DepositOverflow);
          }
          total := sum.value;
          var d := DepositRecord(t.id, t.amount, false);
          InsertAtPoint(deposits, insertAt, d);
          deposits := deposits[..insertAt] + [d] + deposits[insertAt..];
        case Withdrawal =>
          if CheckedSub(AvailableForWithdrawal(), t.amount).None? {
            return Err(WithdrawOverflow);
          }
          total := CheckedSub(total, t.amount).value;
        case Dispute =>
          var found := FindDepositId(t.id);
          if found.Err? {
            return Err(found.error);
          }
          var did := found.value;
          if deposits[did].isDisputed {
            return Err(DuplicateDispute);
          }
          var sum := CheckedAdd(held, deposits[did].amount);
          if sum.None? {
            return Err(HeldOverflow);
          }
          held := sum.value;
          deposits := deposits[did := deposits[did].(isDisputed := true)];
        case Resolve =>
          var found := FindDepositId(t.id);
          if found.Err? {
            return Err(found.error);
          }
          var did := found.value;
          if !deposits[did].isDisputed {
            return Err(ResolveNotDisputed);
          }
          DisputedWithinHeld(deposits, did);
          held := CheckedSub(held, deposits[did].amount).value;
          deposits := deposits[did := deposits[did].(isDisputed := false)];
        case Chargeback =>
          var found := FindDepositId(t.id);
          if found.Err? {
            return Err(found.error);
          }
          var did := found.value;
          if !deposits[did].isDisputed {
            return Err(ChargebackNotDisputed);
          }
          DisputedWithinHeld(deposits, did);
          held := CheckedSub(held, deposits[did].amount).value;
          var rest := CheckedSub(total, deposits[did].amount);
          total := if rest.Some? then rest.value else Zero();
          frozen := true;
      }
      assert State() == Step(before, t).value;
      StepPreservesInv(before, t);
      r := Ok(());
    }
  }

  /** The accounts of all clients, keyed by client id. */
  class ClientsDatabase {
    var clients: map<ClientId, Account>
    ghost var Repr: set<Account>

    /** Every account is valid, and no two clients share an account object. */
    ghost predicate Valid()
      reads this, Repr
    {
      (forall c | c in clients :: clients[c] in Repr && clients[c].Valid()) &&
      (forall c, d | c in clients && d in clients && c != d :: clients[c] != clients[d])
    }

    /** The state of every account, by client id. */
    ghost function Snapshot(): (m: map<ClientId, AccountState>)
      reads this, Repr
      requires Valid()
      ensures m.Keys == clients.Keys && AllInv(m)
    {
      map c | c in clients :: clients[c].State()
    }

    /** `ClientsDatabase::default()`: no clients. */
    constructor ()
      ensures Valid() && Snapshot() == map[] && fresh(Repr)
    {
      clients := map[];
      Repr := {};
    }

    /**
     * `Entry::Occupied(..) => occ.get_mut().process(t)`: the account of a
     * known client processes the transaction; no other account changes.
     */
    method ProcessExisting(clientId: ClientId, t: Transaction) returns (r: Result<(), Error>)
      requires Valid() && clientId in clients
      modifies Repr
      ensures Valid() && clients == old(clients) && Repr == old(Repr)
      ensures (r, Snapshot()) == Route(old(Snapshot()), clientId, t)
    {
      ghost var before := Snapshot();
      var acc := clients[clientId];
      assert acc.State() == before[clientId];
      r := acc.Process(t);
      assert forall c | c in clients && c != clientId :: clients[c].State() == old(clients[c].State());
      SnapshotAfterOne(clientId);
      match Step(before[clientId], t) {
        case Ok(next) =>
        case Err(e) => assert before[clientId := before[clientId]] == before;
      }
    }

    /** When only the account of clientId changed, the snapshot changed only at clientId. */
    twostate lemma SnapshotAfterOne(clientId: ClientId)
      requires old(Valid()) && Valid() && clientId in clients
      requires clients == old(clients) && Repr == old(Repr)
      requires forall c | c in clients && c != clientId :: clients[c].State() == old(clients[c].State())
      ensures Snapshot() == old(Snapshot())[clientId := clients[clientId].State()]
    {
      var after, expected := Snapshot(), old(Snapshot())[clientId := clients[clientId].State()];
      forall c | c in clients
        ensures after[c] == expected[c]
      {
        if c != clientId {
          assert after[c] == clients[c].State() == old(clients[c].State()) == old(Snapshot())[c];
        }
      }
      assert after.Keys == expected.Keys;
    }

    /** `Entry::Vacant(vac) => vac.insert(Default::default())`: a new client gets an empty account. */
    method InsertDefault(clientId: ClientId)
      requires Valid() && clientId !in clients
      modifies this
      ensures Valid() && clientId in clients && fresh(Repr - old(Repr))
      ensures Snapshot() == old(Snapshot())[clientId := Empty]
    {
      ghost var before := Snapshot();
      var acc := new Account();
      clients := clients[clientId := acc];
      Repr := Repr + {acc};
      ghost var after, expected := Snapshot(), before[clientId := Empty];
      forall c | c in clients
        ensures after[c] == expected[c]
      {
        if c != clientId {
          assert after[c] == clients[c].State() == old(clients[c].State()) == before[c];
        }
      }
      assert after.Keys == expected.Keys;
    }

    /**
     * `ClientsDatabase::process_transaction`: the result and the new map of
     * accounts are what Route computes from the old map.
     */
    method ProcessTransaction(clientId: ClientId, t: Transaction) returns (r: Result<(), Error>)
      requires Valid()
      modifies this, Repr
      ensures Valid() && fresh(Repr - old(Repr))
      ensures (r, Snapshot()) == Route(old(Snapshot()), clientId, t)
    {
      ghost var before := Snapshot();
      if clientId in clients {
        r := ProcessExisting(clientId, t);
      } else {
        if t.kind != Deposit {
          return Err(AccountNotFound);
        }
        InsertDefault(clientId);
        RouteVacantAsEmpty(before, clientId, t);
        r := ProcessExisting(clientId, t);
      }
    }
  }
}
