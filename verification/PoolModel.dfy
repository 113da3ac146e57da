/**
 The connection pool as a state machine. Each function below is one section
 under the pool's mutex; a run is any interleaving of them.
 */
module PoolModel {

  type Key = string
  type Id = nat
  type LeaseId = nat

  datatype Mode = Exclusive | Shared

  /** A pooled resource; its identity is also the identity of the resource. */
  datatype Entry = Entry(key: Key, mode: Mode, createdAt: int, lastIdleAt: int, active: int, acquisitions: nat,
                         retiring: bool)

  datatype Options = Options(maxConnections: int, lifetime: int, idleTimeout: int)

  datatype Pool = Pool(
    entries: map<Key, seq<Id>>,
    table: map<Id, Entry>,
    pending: map<Key, nat>,
    closed: bool,
    /** Leases not yet released, and the entry each one holds. */
    held: map<LeaseId, Id>,
    /** Every call that closed a resource. */
    closings: multiset<Id>,
    /** Resources dialed so far, numbered from 0. */
    dialed: nat,
    /** Times the notification channel was replaced. */
    signals: nat)

  const EMPTY: Pool := Pool(map[], map[], map[], false, map[], multiset{}, 0, 0)

  function ListOf(entries: map<Key, seq<Id>>, key: Key): seq<Id> {
    if key in entries then entries[key] else []
  }

  function PendingOf(pending: map<Key, nat>, key: Key): nat {
    if key in pending then pending[key] else 0
  }

  /** Stores a list, deleting the key of an empty one. */
  function StoreList(entries: map<Key, seq<Id>>, key: Key, list: seq<Id>): (r: map<Key, seq<Id>>)
    ensures forall k :: ListOf(r, k) == if k == key then list else ListOf(entries, k)
  {
    if list == [] then entries - {key} else entries[key := list]
  }

  function StorePending(pending: map<Key, nat>, key: Key, n: nat): (r: map<Key, nat>)
    ensures forall k :: PendingOf(r, k) == if k == key then n else PendingOf(pending, k)
  {
    if n == 0 then pending - {key} else pending[key := n]
  }

  // ----- expiry -----

  predicate Expired(e: Entry, now: int, options: Options) {
    now - e.createdAt >= options.lifetime || (e.active == 0 && now - e.lastIdleAt >= options.idleTimeout)
  }

  function Aged(e: Entry, now: int, options: Options): Entry {
    e.(retiring := e.retiring || Expired(e, now, options))
  }

  predicate Doomed(e: Entry) {
    e.retiring && e.active == 0
  }

  /** The table with `f` applied to the entries of a list. */
  function Swept(table: map<Id, Entry>, list: seq<Id>, f: Entry -> Entry): map<Id, Entry> {
    map id | id in table :: if id in list then f(table[id]) else table[id]
  }

  predicate Listed(list: seq<Id>, table: map<Id, Entry>) {
    forall id | id in list :: id in table
  }

  predicate Distinct(list: seq<Id>) {
    forall i, j | 0 <= i < j < |list| :: list[i] != list[j]
  }

  /** The entries that stay, in order. */
  function Survivors(list: seq<Id>, table: map<Id, Entry>): (r: seq<Id>)
    requires Listed(list, table)
    ensures |r| <= |list|
    ensures forall id :: id in r <==> id in list && !Doomed(table[id])
    ensures Distinct(list) ==> Distinct(r)
  {
    if list == [] then []
    else
      var front, last := list[..|list| - 1], list[|list| - 1];
      assert list == front + [last];
      Survivors(front, table) + if Doomed(table[last]) then [] else [last]
  }

  /** The entries that are closed, in order. */
  function Casualties(list: seq<Id>, table: map<Id, Entry>): (r: seq<Id>)
    requires Listed(list, table)
    ensures forall id :: id in r <==> id in list && Doomed(table[id])
    ensures Distinct(list) ==> Distinct(r)
  {
    if list == [] then []
    else
      var front, last := list[..|list| - 1], list[|list| - 1];
      assert list == front + [last];
      Casualties(front, table) + if Doomed(table[last]) then [last] else []
  }

  /** Applies `f` to the entries of a key, and closes and drops the doomed ones. */
  function Sweep(p: Pool, key: Key, f: Entry -> Entry): Pool
    requires Listed(ListOf(p.entries, key), p.table)
  {
    var list := ListOf(p.entries, key);
    var table := Swept(p.table, list, f);
    p.(entries := StoreList(p.entries, key, Survivors(list, table)),
       table := table,
       closings := p.closings + multiset(Casualties(list, table)))
  }

  function Expire(p: Pool, key: Key, now: int, options: Options): Pool
    requires Listed(ListOf(p.entries, key), p.table)
  {
    Sweep(p, key, e => Aged(e, now, options))
  }

  // ----- acquisition -----

  predicate Usable(e: Entry, reusable: bool) {
    reusable && !e.retiring && (e.mode == Shared || e.active == 0)
  }

  /** Index of the first usable entry at or after `i`, or the length. */
  function FirstUsable(list: seq<Id>, i: nat, table: map<Id, Entry>, reusable: Id -> bool): (k: nat)
    requires i <= |list| && Listed(list, table)
    ensures i <= k <= |list|
    ensures k < |list| ==> Usable(table[list[k]], reusable(list[k]))
    decreases |list| - i
  {
    if i == |list| || Usable(table[list[i]], reusable(list[i])) then i
    else FirstUsable(list, i + 1, table, reusable)
  }

  /** Retires the entries of `list` that report they cannot be reused. */
  function RetireUnusable(table: map<Id, Entry>, list: seq<Id>, reusable: Id -> bool): map<Id, Entry> {
    map id | id in table :: if id in list && !reusable(id) then table[id].(retiring := true) else table[id]
  }

  datatype Acquired = Leased(lease: LeaseId) | Dial | Wait | Refused

  function Lend(p: Pool, id: Id, lease: LeaseId): Pool
    requires id in p.table
  {
    var e := p.table[id];
    p.(table := p.table[id := e.(active := e.active + 1, acquisitions := e.acquisitions + 1)],
       held := p.held[lease := id])
  }

  /** Lends the first usable entry, or reserves a dial below the cap. */
  function Choose(q: Pool, key: Key, reusable: Id -> bool, lease: LeaseId, options: Options): (Pool, Acquired)
    requires Listed(ListOf(q.entries, key), q.table)
  {
    var list := ListOf(q.entries, key);
    var k := FirstUsable(list, 0, q.table, reusable);
    var examined := if k < |list| then list[..k + 1] else list;
    var r := q.(table := RetireUnusable(q.table, examined, reusable));
    if k < |list| then (Lend(r, list[k], lease), Leased(lease))
    else if |list| + PendingOf(r.pending, key) < options.maxConnections then
      (r.(pending := StorePending(r.pending, key, PendingOf(r.pending, key) + 1)), Dial)
    else (r, Wait)
  }

  /** One pass of the acquisition loop up to where it returns, dials or waits. */
  function Acquire(p: Pool, key: Key, now: int, reusable: Id -> bool, lease: LeaseId, options: Options)
    : (Pool, Acquired)
    requires Listed(ListOf(p.entries, key), p.table)
  {
    var q := Expire(p, key, now, options);
    if q.closed then (q, Refused) else Choose(q, key, reusable, lease, options)
  }

  function Signal(p: Pool): Pool {
    if p.closed then p else p.(signals := p.signals + 1)
  }

  datatype Dialed = DialFailed | DialedResource(mode: Mode)

  /** The end of a dial: the resource joins the pool leased, or is closed if the pool is. */
  function FinishDial(p: Pool, key: Key, outcome: Dialed, now: int, lease: LeaseId): (Pool, Acquired)
    requires PendingOf(p.pending, key) > 0
  {
    var q := Signal(p.(pending := StorePending(p.pending, key, PendingOf(p.pending, key) - 1)));
    match outcome
    case DialFailed => (q, Refused)
    case DialedResource(mode) =>
      var id := q.dialed;
      if q.closed then (q.(dialed := id + 1, closings := q.closings + multiset{id}), Refused)
      else
        (q.(dialed := id + 1,
            entries := StoreList(q.entries, key, ListOf(q.entries, key) + [id]),
            table := q.table[id := Entry(key, mode, now, now, 1, 1, false)],
            held := q.held[lease := id]),
         Leased(lease))
  }

  // ----- release and close -----

  function Without(list: seq<Id>, id: Id): (r: seq<Id>)
    ensures forall k | k in r :: k in list
    ensures forall k | k in list && k != id :: k in r
    ensures |r| <= |list|
  {
    if list == [] then []
    else
      assert list == [list[0]] + list[1..];
      if list[0] == id then list[1..] else [list[0]] + Without(list[1..], id)
  }

  lemma {:induction false} WithoutDistinct(list: seq<Id>, id: Id)
    requires Distinct(list)
    ensures Distinct(Without(list, id)) && id !in Without(list, id)
    decreases |list|
  {
    if list != [] {
      assert list[0] !in list[1..];
      if list[0] != id { WithoutDistinct(list[1..], id); }
    }
  }

  /** Returns a lease; a second release of it does nothing. */
  function Release(p: Pool, lease: LeaseId, reusable: bool, now: int): Pool
    requires lease in p.held ==> p.held[lease] in p.table
  {
    if lease !in p.held then p
    else
      var id := p.held[lease];
      var e := p.table[id];
      var active := e.active - 1;
      var f := e.(active := active,
                  retiring := e.retiring || !reusable || p.closed,
                  lastIdleAt := if active == 0 then now else e.lastIdleAt);
      var q := p.(table := p.table[id := f], held := p.held - {lease});
      if Doomed(f) then
        Signal(q.(entries := StoreList(q.entries, e.key, Without(ListOf(q.entries, e.key), id)),
                  closings := q.closings + multiset{id}))
      else Signal(q)
  }

  predicate InPool(p: Pool, id: Id) {
    id in p.table && id in ListOf(p.entries, p.table[id].key)
  }

  function RetiredTable(p: Pool): map<Id, Entry> {
    map id | id in p.table :: if InPool(p, id) then p.table[id].(retiring := true) else p.table[id]
  }

  function Idle(p: Pool): set<Id> {
    set id | id in p.table && InPool(p, id) && p.table[id].active == 0
  }

  function KeptLists(p: Pool, table: map<Id, Entry>): (r: map<Key, seq<Id>>)
    requires forall key :: Listed(ListOf(p.entries, key), table)
    ensures forall key :: ListOf(r, key) == Survivors(ListOf(p.entries, key), table)
  {
    assert forall key | key in p.entries :: p.entries[key] == ListOf(p.entries, key);
    map key | key in p.entries && Survivors(p.entries[key], table) != [] :: Survivors(p.entries[key], table)
  }

  /** Refuses later acquisitions, closes idle resources and retires the rest. */
  function Close(p: Pool): Pool
    requires ListsOk(p)
  {
    if p.closed then p
    else
      var table := RetiredTable(p);
      p.(closed := true,
         entries := KeptLists(p, table),
         table := table,
         closings := p.closings + multiset(Idle(p)))
  }

  // ----- the invariant -----

  function Holders(held: map<LeaseId, Id>, id: Id): set<LeaseId> {
    set l | l in held && held[l] == id
  }

  predicate GoodList(list: seq<Id>, key: Key, table: map<Id, Entry>) {
    Distinct(list) && Listed(list, table) && forall id | id in list :: table[id].key == key
  }

  /** Lists hold distinct entries of their own key. */
  ghost predicate ListsOk(p: Pool) {
    forall key :: GoodList(ListOf(p.entries, key), key, p.table)
  }

  ghost predicate WithinCap(p: Pool, options: Options) {
    forall key :: |ListOf(p.entries, key)| + PendingOf(p.pending, key) > 0 ==>
                    |ListOf(p.entries, key)| + PendingOf(p.pending, key) <= options.maxConnections
  }

  /** An entry counts its leases, and an exclusive one has at most one. */
  ghost predicate LeasesOk(p: Pool) {
    && (forall l | l in p.held :: p.held[l] in p.table)
    && (forall id | id in p.table :: p.table[id].active == |Holders(p.held, id)|)
    && (forall id | id in p.table && p.table[id].mode == Exclusive :: p.table[id].active <= 1)
  }

  /** A resource is pooled and open, or was closed once, without a lease. */
  ghost predicate ClosingsOk(p: Pool) {
    && (forall id | id in p.table :: id < p.dialed)
    && (forall id | id in p.closings :: id < p.dialed)
    && (forall id | 0 <= id < p.dialed && id !in p.table :: p.closings[id] == 1)
    && (forall id | id in p.table && InPool(p, id) :: p.closings[id] == 0)
    && (forall id | id in p.table && !InPool(p, id) :: p.closings[id] == 1 && p.table[id].active == 0)
  }

  /** A closed pool keeps only leased, retiring entries. */
  ghost predicate ClosedOk(p: Pool) {
    p.closed ==> forall id | id in p.table && InPool(p, id) :: p.table[id].retiring && p.table[id].active > 0
  }

  ghost predicate Core(p: Pool, options: Options) {
    ListsOk(p) && WithinCap(p, options) && LeasesOk(p) && ClosingsOk(p)
  }

  ghost predicate Inv(p: Pool, options: Options) {
    Core(p, options) && ClosedOk(p)
  }

  // ----- steps that only retire and close -----

  ghost predicate SameLife(e: Entry, f: Entry) {
    f.key == e.key && f.mode == e.mode && f.active == e.active && (e.retiring ==> f.retiring)
  }

  /** From `p` to `q`, idle entries left the lists and were closed, once each. */
  ghost predicate Sheds(p: Pool, q: Pool) {
    && q.held == p.held && q.pending == p.pending && q.dialed == p.dialed
    && q.table.Keys == p.table.Keys
    && (forall id | id in p.table :: SameLife(p.table[id], q.table[id]))
    && (forall key :: GoodList(ListOf(q.entries, key), key, q.table))
    && (forall key :: |ListOf(q.entries, key)| <= |ListOf(p.entries, key)|)
    && (forall id | InPool(q, id) :: InPool(p, id))
    && (forall id | InPool(p, id) && !InPool(q, id) :: p.table[id].active == 0)
    && (forall id :: q.closings[id] == p.closings[id] + if InPool(p, id) && !InPool(q, id) then 1 else 0)
  }

  lemma ShedKeepsCore(p: Pool, q: Pool, options: Options)
    requires Core(p, options) && Sheds(p, q)
    ensures Core(q, options)
  {
    hide InPool, GoodList, Holders;
    InPoolTable(p);
    InPoolTable(q);
    assert ClosingsOk(q) by {
      forall id | id in q.closings ensures id < q.dialed {
        assert q.closings[id] > 0;
        assert p.closings[id] > 0 || InPool(p, id);
      }
    }
  }

  lemma InPoolTable(p: Pool)
    ensures forall id | InPool(p, id) :: id in p.table
  {
  }

  /** `f` changes nothing that matters to leases. */
  ghost predicate Ages(f: Entry -> Entry) {
    forall e :: SameLife(e, f(e))
  }

  lemma SweepSheds(p: Pool, key: Key, f: Entry -> Entry)
    requires ListsOk(p) && Ages(f)
    ensures GoodList(ListOf(p.entries, key), key, p.table) && Sheds(p, Sweep(p, key, f))
  {
    hide Survivors, Casualties, Doomed, InPool, GoodList;
    var list := ListOf(p.entries, key);
    assert GoodList(list, key, p.table);
    SweepLists(p, key, f);
    SweepPooled(p, key, f);
    GoodListed(list, key, p.table);
    var q := Sweep(p, key, f);
    DistinctOnce(Casualties(list, q.table));
    forall id | id in p.table ensures SameLife(p.table[id], q.table[id]) {
      assert SameLife(p.table[id], f(p.table[id]));
    }
  }

  lemma ExpireSheds(p: Pool, key: Key, now: int, options: Options)
    requires ListsOk(p)
    ensures GoodList(ListOf(p.entries, key), key, p.table) && Sheds(p, Expire(p, key, now, options))
    ensures Expire(p, key, now, options).closed == p.closed
  {
    hide Sheds, GoodList;
    SweepSheds(p, key, e => Aged(e, now, options));
  }

  lemma GoodListed(list: seq<Id>, key: Key, table: map<Id, Entry>)
    requires GoodList(list, key, table)
    ensures Distinct(list) && Listed(list, table)
  {
  }

  lemma SweepLists(p: Pool, key: Key, f: Entry -> Entry)
    requires ListsOk(p) && Ages(f) && GoodList(ListOf(p.entries, key), key, p.table)
    ensures var q := Sweep(p, key, f);
            && (forall k :: GoodList(ListOf(q.entries, k), k, q.table))
            && (forall k :: |ListOf(q.entries, k)| <= |ListOf(p.entries, k)|)
  {
    hide Survivors, Casualties, Doomed, Distinct;
    var q := Sweep(p, key, f);
    forall k ensures GoodList(ListOf(q.entries, k), k, q.table) && |ListOf(q.entries, k)| <= |ListOf(p.entries, k)| {
      assert GoodList(ListOf(p.entries, k), k, p.table);
      assert forall id | id in p.table :: SameLife(p.table[id], f(p.table[id]));
    }
  }

  /** A sweep takes out of the pool exactly what it closes. */
  lemma SweepPooled(p: Pool, key: Key, f: Entry -> Entry)
    requires ListsOk(p) && Ages(f) && GoodList(ListOf(p.entries, key), key, p.table)
    ensures var q := Sweep(p, key, f);
            var gone := Casualties(ListOf(p.entries, key), q.table);
            && (forall id :: InPool(q, id) <==> InPool(p, id) && id !in gone)
            && (forall id | id in gone :: InPool(p, id) && p.table[id].active == 0)
  {
    hide Survivors, Casualties;
    var q := Sweep(p, key, f);
    var list := ListOf(p.entries, key);
    forall id | id in p.table
      ensures InPool(q, id) <==> InPool(p, id) && id !in Casualties(list, q.table)
      ensures q.table[id].active == p.table[id].active
    {
      assert SameLife(p.table[id], f(p.table[id]));
      assert GoodList(ListOf(p.entries, p.table[id].key), p.table[id].key, p.table);
    }
  }

  lemma {:induction false} DistinctOnce(list: seq<Id>)
    requires Distinct(list)
    ensures forall id :: multiset(list)[id] == if id in list then 1 else 0
    decreases |list|
  {
    if list != [] {
      var front, last := list[..|list| - 1], list[|list| - 1];
      DistinctOnce(front);
      assert list == front + [last];
      assert last !in front;
    }
  }

  lemma RetireSheds(p: Pool, list: seq<Id>, reusable: Id -> bool)
    requires ListsOk(p)
    ensures Sheds(p, p.(table := RetireUnusable(p.table, list, reusable)))
  {
    hide Distinct;
    var q := p.(table := RetireUnusable(p.table, list, reusable));
    forall key ensures GoodList(ListOf(q.entries, key), key, q.table) {
      assert GoodList(ListOf(p.entries, key), key, p.table);
    }
    assert forall id :: InPool(q, id) <==> InPool(p, id);
  }

  lemma ClosePooled(p: Pool)
    requires ListsOk(p) && !p.closed
    ensures forall id :: InPool(Close(p), id) <==> InPool(p, id) && p.table[id].active != 0
  {
    hide Survivors, Distinct;
    var q := Close(p);
    forall id | id in p.table ensures InPool(q, id) <==> InPool(p, id) && p.table[id].active != 0 {
      assert q.table[id].key == p.table[id].key;
      assert GoodList(ListOf(p.entries, p.table[id].key), p.table[id].key, p.table);
    }
  }

  lemma CloseLists(p: Pool)
    requires ListsOk(p) && !p.closed
    ensures forall key :: GoodList(ListOf(Close(p).entries, key), key, Close(p).table)
    ensures forall key :: |ListOf(Close(p).entries, key)| <= |ListOf(p.entries, key)|
  {
    hide Survivors, Distinct, InPool;
    var q := Close(p);
    forall key
      ensures GoodList(ListOf(q.entries, key), key, q.table) && |ListOf(q.entries, key)| <= |ListOf(p.entries, key)|
    {
      assert GoodList(ListOf(p.entries, key), key, p.table);
    }
  }

  lemma CloseSheds(p: Pool)
    requires ListsOk(p) && !p.closed
    ensures Sheds(p, Close(p))
  {
    hide GoodList, InPool;
    InPoolTable(p);
    CloseLists(p);
    ClosePooled(p);
  }

  lemma CloseKeeps(p: Pool, options: Options)
    requires Inv(p, options)
    ensures Inv(Close(p), options)
  {
    hide GoodList, InPool, Holders;
    if !p.closed {
      InPoolTable(p);
      ClosePooled(p);
      CloseSheds(p);
      ShedKeepsCore(p, Close(p), options);
    }
  }

  // ----- leases -----

  lemma HoldersAdd(held: map<LeaseId, Id>, lease: LeaseId, id: Id, other: Id)
    requires lease !in held
    ensures |Holders(held[lease := id], other)| == |Holders(held, other)| + if other == id then 1 else 0
  {
    var before, after := Holders(held, other), Holders(held[lease := id], other);
    if other == id {
      assert after == before + {lease};
    } else {
      assert after == before;
    }
  }

  lemma HoldersRemove(held: map<LeaseId, Id>, lease: LeaseId, other: Id)
    requires lease in held
    ensures |Holders(held - {lease}, other)| == |Holders(held, other)| - if other == held[lease] then 1 else 0
  {
    var before, after := Holders(held, other), Holders(held - {lease}, other);
    if other == held[lease] {
      assert before == after + {lease};
    } else {
      assert after == before;
    }
  }

  /** Lending an entry that is shared or idle keeps the lease counts right. */
  lemma LendLeases(p: Pool, id: Id, lease: LeaseId)
    requires LeasesOk(p) && lease !in p.held && id in p.table
    requires p.table[id].mode == Shared || p.table[id].active == 0
    ensures LeasesOk(Lend(p, id, lease))
  {
    hide Holders;
    var q := Lend(p, id, lease);
    forall other | other in p.table ensures q.table[other].active == |Holders(q.held, other)| {
      HoldersAdd(p.held, lease, id, other);
    }
  }

  lemma LendKeeps(p: Pool, id: Id, lease: LeaseId, options: Options)
    requires Inv(p, options) && lease !in p.held && InPool(p, id)
    requires p.table[id].mode == Shared || p.table[id].active == 0
    ensures Inv(Lend(p, id, lease), options)
  {
    hide Holders, InPool, GoodList, LeasesOk;
    InPoolTable(p);
    var q := Lend(p, id, lease);
    LendLeases(p, id, lease);
    SameLists(p, q);
    SamePooled(p, q);
  }

  lemma SameLists(p: Pool, q: Pool)
    requires ListsOk(p) && q.entries == p.entries && p.table.Keys <= q.table.Keys
    requires forall id | id in p.table :: q.table[id].key == p.table[id].key
    ensures ListsOk(q)
  {
    hide Distinct;
    forall key ensures GoodList(ListOf(q.entries, key), key, q.table) {
      assert GoodList(ListOf(p.entries, key), key, p.table);
    }
  }

  lemma SamePooled(p: Pool, q: Pool)
    requires q.entries == p.entries && q.table.Keys == p.table.Keys
    requires forall id | id in p.table :: q.table[id].key == p.table[id].key
    ensures forall id :: InPool(q, id) <==> InPool(p, id)
  {
  }

  lemma AcquireKeeps(p: Pool, key: Key, now: int, reusable: Id -> bool, lease: LeaseId, options: Options)
    requires Inv(p, options) && lease !in p.held
    ensures Listed(ListOf(p.entries, key), p.table)
    ensures Inv(Acquire(p, key, now, reusable, lease, options).0, options)
  {
    hide Core, ClosedOk, Expire, RetireUnusable, Lend, InPool, GoodList, SameLife;
    CoreLists(p, options);
    GoodListed(ListOf(p.entries, key), key, p.table);
    var q := Expire(p, key, now, options);
    ExpireSheds(p, key, now, options);
    ShedKeepsCore(p, q, options);
    ShedKeepsClosed(p, q);
    if !q.closed {
      CoreLists(q, options);
      var list := ListOf(q.entries, key);
      GoodListed(list, key, q.table);
      var k := FirstUsable(list, 0, q.table, reusable);
      var examined := if k < |list| then list[..k + 1] else list;
      var r := q.(table := RetireUnusable(q.table, examined, reusable));
      RetireSheds(q, examined, reusable);
      ShedKeepsCore(q, r, options);
      ShedKeepsClosed(q, r);
      if k < |list| {
        PooledIn(q, key, list[k]);
        RetireUsable(q, examined, reusable, list[k]);
        LendKeeps(r, list[k], lease, options);
      } else if |list| + PendingOf(r.pending, key) < options.maxConnections {
        PendKeeps(r, key, PendingOf(r.pending, key) + 1, options);
      }
    }
  }

  lemma CoreLists(p: Pool, options: Options)
    requires Core(p, options)
    ensures ListsOk(p)
  {
  }

  lemma ShedKeepsClosed(p: Pool, q: Pool)
    requires ClosedOk(p) && Sheds(p, q) && q.closed == p.closed
    ensures ClosedOk(q)
  {
    hide GoodList, InPool;
    InPoolTable(p);
    InPoolTable(q);
  }

  lemma PooledIn(p: Pool, key: Key, id: Id)
    requires ListsOk(p) && id in ListOf(p.entries, key)
    ensures InPool(p, id) && p.table[id].key == key
  {
    assert GoodList(ListOf(p.entries, key), key, p.table);
  }

  lemma RetireUsable(p: Pool, list: seq<Id>, reusable: Id -> bool, id: Id)
    requires InPool(p, id) && Usable(p.table[id], reusable(id))
    ensures var q := p.(table := RetireUnusable(p.table, list, reusable));
            InPool(q, id) && q.table[id] == p.table[id]
  {
  }

  lemma PendKeeps(p: Pool, key: Key, n: nat, options: Options)
    requires Inv(p, options)
    requires |ListOf(p.entries, key)| + n <= options.maxConnections || n <= PendingOf(p.pending, key)
    ensures Inv(p.(pending := StorePending(p.pending, key, n)), options)
  {
    hide GoodList, Holders;
    var q := p.(pending := StorePending(p.pending, key, n));
    SamePooled(p, q);
    SameLists(p, q);
  }

  lemma SignalKeeps(p: Pool, options: Options)
    ensures Core(Signal(p), options) <==> Core(p, options)
    ensures ClosedOk(Signal(p)) <==> ClosedOk(p)
    ensures ListOf(Signal(p).entries, "") == ListOf(p.entries, "")
  {
    hide GoodList, Holders;
    SamePooled(p, Signal(p));
  }

  // ----- dialing -----

  function Join(p: Pool, key: Key, mode: Mode, now: int, lease: LeaseId): Pool {
    p.(dialed := p.dialed + 1,
       entries := StoreList(p.entries, key, ListOf(p.entries, key) + [p.dialed]),
       table := p.table[p.dialed := Entry(key, mode, now, now, 1, 1, false)],
       held := p.held[lease := p.dialed])
  }

  lemma JoinLeases(p: Pool, key: Key, mode: Mode, now: int, lease: LeaseId)
    requires LeasesOk(p) && ClosingsOk(p) && lease !in p.held
    ensures LeasesOk(Join(p, key, mode, now, lease))
  {
    hide Holders, InPool;
    var q := Join(p, key, mode, now, lease);
    forall other | other in q.table ensures q.table[other].active == |Holders(q.held, other)| {
      HoldersAdd(p.held, lease, p.dialed, other);
      NoHolders(p, p.dialed);
    }
  }

  lemma NoHolders(p: Pool, id: Id)
    requires forall l | l in p.held :: p.held[l] in p.table
    requires id !in p.table
    ensures |Holders(p.held, id)| == 0
  {
    assert Holders(p.held, id) == {};
  }

  lemma JoinLists(p: Pool, key: Key, mode: Mode, now: int, lease: LeaseId)
    requires ListsOk(p) && p.dialed !in p.table
    ensures ListsOk(Join(p, key, mode, now, lease))
    ensures forall id :: InPool(Join(p, key, mode, now, lease), id) <==> InPool(p, id) || id == p.dialed
  {
    var q := Join(p, key, mode, now, lease);
    forall k ensures GoodList(ListOf(q.entries, k), k, q.table) {
      assert GoodList(ListOf(p.entries, k), k, p.table);
      assert GoodList(ListOf(p.entries, key), key, p.table);
    }
    forall id | id in p.table ensures InPool(q, id) <==> InPool(p, id) {
      assert q.table[id] == p.table[id];
    }
  }

  lemma JoinKeeps(p: Pool, key: Key, mode: Mode, now: int, lease: LeaseId, options: Options)
    requires Inv(p, options) && !p.closed && lease !in p.held
    requires |ListOf(p.entries, key)| + PendingOf(p.pending, key) < options.maxConnections
    ensures Inv(Join(p, key, mode, now, lease), options)
  {
    hide Holders, InPool, GoodList, LeasesOk, ListsOk;
    assert p.dialed !in p.table;
    JoinLeases(p, key, mode, now, lease);
    JoinLists(p, key, mode, now, lease);
  }

  lemma DropKeeps(p: Pool, options: Options)
    requires Inv(p, options)
    ensures Inv(p.(dialed := p.dialed + 1, closings := p.closings + multiset{p.dialed}), options)
  {
    hide Holders, GoodList;
    var q := p.(dialed := p.dialed + 1, closings := p.closings + multiset{p.dialed});
    SamePooled(p, q);
    SameLists(p, q);
  }

  lemma FinishDialKeeps(p: Pool, key: Key, outcome: Dialed, now: int, lease: LeaseId, options: Options)
    requires Inv(p, options) && PendingOf(p.pending, key) > 0 && lease !in p.held
    ensures Inv(FinishDial(p, key, outcome, now, lease).0, options)
  {
    hide Core, ClosedOk;
    var pended := p.(pending := StorePending(p.pending, key, PendingOf(p.pending, key) - 1));
    PendKeeps(p, key, PendingOf(p.pending, key) - 1, options);
    SignalKeeps(pended, options);
    var q := Signal(pended);
    if outcome.DialedResource? {
      if q.closed {
        DropKeeps(q, options);
      } else {
        RoomForOne(p, key, options);
        JoinKeeps(q, key, outcome.mode, now, lease, options);
      }
    }
  }

  lemma RoomForOne(p: Pool, key: Key, options: Options)
    requires Core(p, options) && PendingOf(p.pending, key) > 0
    ensures |ListOf(p.entries, key)| + PendingOf(p.pending, key) <= options.maxConnections
  {
  }

  // ----- release -----

  /** A lease given back, before a retiring entry leaves its list. */
  function GiveBack(p: Pool, lease: LeaseId, f: Entry): Pool
    requires lease in p.held
  {
    p.(table := p.table[p.held[lease] := f], held := p.held - {lease})
  }

  lemma GiveBackLeases(p: Pool, lease: LeaseId, f: Entry)
    requires LeasesOk(p) && lease in p.held
    requires f.mode == p.table[p.held[lease]].mode && f.active == p.table[p.held[lease]].active - 1
    ensures LeasesOk(GiveBack(p, lease, f)) && f.active >= 0
  {
    hide Holders;
    var q := GiveBack(p, lease, f);
    forall other | other in p.table ensures q.table[other].active == |Holders(q.held, other)| {
      HoldersRemove(p.held, lease, other);
    }
  }

  lemma GiveBackKeepsCore(p: Pool, lease: LeaseId, f: Entry, options: Options)
    requires Core(p, options) && lease in p.held
    requires var e := p.table[p.held[lease]]; f.key == e.key && f.mode == e.mode && f.active == e.active - 1
    ensures Core(GiveBack(p, lease, f), options)
    ensures InPool(p, p.held[lease]) && InPool(GiveBack(p, lease, f), p.held[lease])
  {
    hide Holders, InPool, GoodList;
    var q := GiveBack(p, lease, f);
    var id := p.held[lease];
    GiveBackLeases(p, lease, f);
    SameLists(p, q);
    SamePooled(p, q);
    assert p.table[id].active > 0;
  }

  /** A closed entry that leaves its list. */
  function Remove(p: Pool, id: Id): Pool
    requires id in p.table
  {
    var key := p.table[id].key;
    p.(entries := StoreList(p.entries, key, Without(ListOf(p.entries, key), id)), closings := p.closings + multiset{id})
  }

  lemma RemovePooled(p: Pool, id: Id)
    requires ListsOk(p) && id in p.table
    ensures ListsOk(Remove(p, id))
    ensures forall other :: InPool(Remove(p, id), other) <==> InPool(p, other) && other != id
    ensures forall k :: |ListOf(Remove(p, id).entries, k)| <= |ListOf(p.entries, k)|
  {
    hide Distinct;
    var q := Remove(p, id);
    var key := p.table[id].key;
    assert GoodList(ListOf(p.entries, key), key, p.table);
    WithoutDistinct(ListOf(p.entries, key), id);
    forall k ensures GoodList(ListOf(q.entries, k), k, q.table) {
      assert GoodList(ListOf(p.entries, k), k, p.table);
    }
    forall other | other in p.table ensures InPool(q, other) <==> InPool(p, other) && other != id {
      assert GoodList(ListOf(p.entries, p.table[other].key), p.table[other].key, p.table);
    }
  }

  lemma RemoveSheds(p: Pool, id: Id)
    requires ListsOk(p) && InPool(p, id) && p.table[id].active == 0
    ensures Sheds(p, Remove(p, id))
  {
    hide InPool, GoodList;
    InPoolTable(p);
    RemovePooled(p, id);
  }

  lemma ReleaseKeeps(p: Pool, lease: LeaseId, reusable: bool, now: int, options: Options)
    requires Inv(p, options)
    ensures lease in p.held ==> p.held[lease] in p.table
    ensures Inv(Release(p, lease, reusable, now), options)
  {
    hide Core, InPool, Sheds, Without;
    HeldListed(p, options);
    if lease in p.held {
      var id := p.held[lease];
      var e := p.table[id];
      var active := e.active - 1;
      var f := e.(active := active,
                  retiring := e.retiring || !reusable || p.closed,
                  lastIdleAt := if active == 0 then now else e.lastIdleAt);
      var q := GiveBack(p, lease, f);
      GiveBackKeepsCore(p, lease, f, options);
      SamePooled(p, q);
      CoreActive(q, options);
      if Doomed(f) {
        CoreLists(q, options);
        RemoveSheds(q, id);
        RemovePooled(q, id);
        var r := Remove(q, id);
        ShedKeepsCore(q, r, options);
        SignalKeeps(r, options);
      } else {
        SignalKeeps(q, options);
      }
    }
  }

  lemma HeldListed(p: Pool, options: Options)
    requires Core(p, options)
    ensures forall l | l in p.held :: p.held[l] in p.table
  {
  }

  lemma CoreActive(p: Pool, options: Options)
    requires Core(p, options)
    ensures forall id | id in p.table :: p.table[id].active >= 0
  {
    hide Holders;
  }

  // ----- whole runs -----

  datatype Step =
    | AcquireStep(key: Key, now: int, reusable: Id -> bool, lease: LeaseId)
    | DialStep(key: Key, outcome: Dialed, now: int, lease: LeaseId)
    | ReleaseStep(lease: LeaseId, keep: bool, now: int)
    | CloseStep

  /** `step` can happen in `p` and leads to `q`; a new lease has a new name. */
  ghost predicate Takes(p: Pool, step: Step, q: Pool, options: Options) {
    match step
    case AcquireStep(key, now, reusable, lease) =>
      && lease !in p.held && Listed(ListOf(p.entries, key), p.table)
      && q == Acquire(p, key, now, reusable, lease, options).0
    case DialStep(key, outcome, now, lease) =>
      lease !in p.held && PendingOf(p.pending, key) > 0 && q == FinishDial(p, key, outcome, now, lease).0
    case ReleaseStep(lease, reusable, now) =>
      (lease in p.held ==> p.held[lease] in p.table) && q == Release(p, lease, reusable, now)
    case CloseStep => ListsOk(p) && q == Close(p)
  }

  ghost predicate Run(states: seq<Pool>, steps: seq<Step>, options: Options) {
    && |states| == |steps| + 1 && states[0] == EMPTY
    && forall i | 0 <= i < |steps| :: Takes(states[i], steps[i], states[i + 1], options)
  }

  lemma StepKeeps(p: Pool, step: Step, q: Pool, options: Options)
    requires Inv(p, options) && Takes(p, step, q, options)
    ensures Inv(q, options)
  {
    hide Inv, Acquire, FinishDial, Release, Close;
    match step
    case AcquireStep(key, now, reusable, lease) => AcquireKeeps(p, key, now, reusable, lease, options);
    case DialStep(key, outcome, now, lease) => FinishDialKeeps(p, key, outcome, now, lease, options);
    case ReleaseStep(lease, reusable, now) => ReleaseKeeps(p, lease, reusable, now, options);
    case CloseStep => CloseKeeps(p, options);
  }

  lemma {:induction false} RunKeeps(states: seq<Pool>, steps: seq<Step>, i: nat, options: Options)
    requires Run(states, steps, options) && i < |states|
    ensures Inv(states[i], options)
    decreases i
  {
    hide Takes, Inv;
    if i == 0 {
      EmptyKeeps(options);
    } else {
      RunKeeps(states, steps, i - 1, options);
      assert Takes(states[i - 1], steps[i - 1], states[i - 1 + 1], options);
      StepKeeps(states[i - 1], steps[i - 1], states[i], options);
    }
  }

  lemma EmptyKeeps(options: Options)
    ensures Inv(EMPTY, options)
  {
  }

  /**
   In every state of every run the entries and dials of an origin stay within
   the cap, an exclusive resource has at most one lease, no resource is closed
   twice, and none is closed while leased.
   */
  lemma PoolIsSafe(states: seq<Pool>, steps: seq<Step>, i: nat, options: Options)
    requires Run(states, steps, options) && i < |states|
    ensures var p := states[i];
            && (forall key :: var n := |ListOf(p.entries, key)| + PendingOf(p.pending, key);
                              n == 0 || n <= options.maxConnections)
            && (forall id | id in p.table && p.table[id].mode == Exclusive :: |Holders(p.held, id)| <= 1)
            && (forall id :: p.closings[id] <= 1)
            && (forall l | l in p.held :: p.closings[p.held[l]] == 0)
  {
    hide Takes, Run, GoodList, Holders, InPool;
    RunKeeps(states, steps, i, options);
    var p := states[i];
    forall l | l in p.held ensures p.closings[p.held[l]] == 0 {
      HolderCounts(p.held, l);
    }
    assert forall id :: p.closings[id] > 0 ==> id in p.closings;
  }

  lemma HolderCounts(held: map<LeaseId, Id>, lease: LeaseId)
    requires lease in held
    ensures |Holders(held, held[lease])| >= 1
  {
    assert lease in Holders(held, held[lease]);
  }

  /**
   Once the pool is closed and every lease and dial has settled, every resource
   ever dialed has been closed exactly once and none is left in the pool.
   */
  lemma EveryResourceClosedOnce(states: seq<Pool>, steps: seq<Step>, i: nat, options: Options)
    requires Run(states, steps, options) && i < |states|
    requires states[i].closed && states[i].held == map[] && forall key :: PendingOf(states[i].pending, key) == 0
    ensures forall id | 0 <= id < states[i].dialed :: states[i].closings[id] == 1
    ensures forall key :: ListOf(states[i].entries, key) == []
  {
    hide Takes, Run, GoodList, InPool;
    RunKeeps(states, steps, i, options);
    var p := states[i];
    forall id ensures |Holders(p.held, id)| == 0 {
      assert Holders(p.held, id) == {};
    }
    InPoolTable(p);
    assert forall id :: !InPool(p, id);
    forall key ensures ListOf(p.entries, key) == [] {
      if ListOf(p.entries, key) != [] { PooledIn(p, key, ListOf(p.entries, key)[0]); }
    }
  }
}
