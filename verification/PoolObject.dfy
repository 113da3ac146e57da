/** The connection pool, updated in place under its mutex. */
module PoolObject {
  import opened PoolModel

  class ConnectionPool {
    const options: Options
    var entries: map<Key, seq<Id>>
    var table: map<Id, Entry>
    var pending: map<Key, nat>
    var closed: bool
    var signals: nat
    var dialed: nat
    /** Leases not yet released, and every closing of a resource. */
    var held: map<LeaseId, Id>
    ghost var closings: multiset<Id>

    ghost function View(): Pool
      reads this
    {
      Pool(entries, table, pending, closed, held, closings, dialed, signals)
    }

    ghost predicate Valid()
      reads this
    {
      Inv(View(), options)
    }

    constructor (options: Options)
      ensures Valid() && View() == EMPTY && this.options == options
    {
      this.options := options;
      entries, table, pending, closed, signals, dialed, held, closings := map[], map[], map[], false, 0, 0, map[],
        multiset{};
      new;
      EmptyKeeps(options);
    }

    /** Applies `f` to the entries of a key in order, closing the doomed ones and keeping the rest. */
    method SweepLocked(key: Key, f: Entry -> Entry)
      requires Listed(ListOf(entries, key), table) && Distinct(ListOf(entries, key))
      modifies this
      ensures View() == Sweep(old(View()), key, f)
    {
      hide Doomed, Swept, Survivors, Casualties, Distinct;
      var list := ListOf(entries, key);
      var kept: seq<Id> := [];
      var i := 0;
      ghost var swept := Swept(table, list, f);
      SweptStart(table, list, f);
      while i < |list|
        invariant 0 <= i <= |list|
        invariant table == Swept(old(table), list[..i], f)
        invariant Listed(list[..i], swept) && kept == Survivors(list[..i], swept)
        invariant closings == old(closings) + multiset(Casualties(list[..i], swept))
        invariant unchanged(`entries) && unchanged(`pending) && unchanged(`closed) && unchanged(`signals)
                  && unchanged(`dialed) && unchanged(`held)
      {
        var id := list[i];
        SweptNext(old(table), list, i, f);
        var e := f(table[id]);
        table := table[id := e];
        if Doomed(e) {
          closings := closings + multiset{id};
        } else {
          kept := kept + [id];
        }
        i := i + 1;
      }
      assert list[..i] == list;
      entries := StoreList(entries, key, kept);
    }

    /** Retires what has expired and closes what is retiring and idle. */
    method ExpireLocked(key: Key, now: int)
      requires Listed(ListOf(entries, key), table) && Distinct(ListOf(entries, key))
      modifies this
      ensures View() == Expire(old(View()), key, now, options)
    {
      var limits := options;
      SweepLocked(key, e => Aged(e, now, limits));
    }

    /** The first usable entry, retiring the unusable ones met before it. */
    method AvailableLocked(key: Key, reusable: Id -> bool) returns (k: nat)
      requires Listed(ListOf(entries, key), table)
      modifies this`table
      ensures k == FirstUsable(ListOf(entries, key), 0, old(table), reusable)
      ensures var list := ListOf(entries, key);
              table == RetireUnusable(old(table), if k < |list| then list[..k + 1] else list, reusable)
    {
      hide RetireUnusable;
      var list := ListOf(entries, key);
      k := 0;
      RetireStart(table, list, reusable);
      while k < |list|
        invariant 0 <= k <= |list|
        invariant table == RetireUnusable(old(table), list[..k], reusable)
        invariant FirstUsable(list, k, old(table), reusable) == FirstUsable(list, 0, old(table), reusable)
      {
        var id := list[k];
        RetireNext(old(table), list, k, reusable);
        if !reusable(id) { table := table[id := table[id].(retiring := true)]; }
        var e := table[id];
        if !e.retiring && (e.mode == Shared || e.active == 0) { return; }
        k := k + 1;
      }
      assert list[..k] == list;
    }

    method ChooseLocked(key: Key, reusable: Id -> bool, lease: LeaseId) returns (r: Acquired)
      requires Listed(ListOf(entries, key), table)
      modifies this
      ensures (View(), r) == Choose(old(View()), key, reusable, lease, options)
    {
      hide RetireUnusable, FirstUsable, StorePending;
      var list := ListOf(entries, key);
      RetiredKeys(table, list, reusable);
      var k := AvailableLocked(key, reusable);
      if k < |list| {
        var id := list[k];
        var e := table[id];
        table := table[id := e.(active := e.active + 1, acquisitions := e.acquisitions + 1)];
        held := held[lease := id];
        return Leased(lease);
      }
      if |list| + PendingOf(pending, key) < options.maxConnections {
        pending := StorePending(pending, key, PendingOf(pending, key) + 1);
        return Dial;
      }
      return Wait;
    }

    /** One pass of the acquisition loop. */
    method AcquirePass(key: Key, now: int, reusable: Id -> bool, lease: LeaseId) returns (r: Acquired)
      requires Valid() && lease !in held
      modifies this
      ensures Valid()
      ensures Listed(ListOf(old(entries), key), old(table))
      ensures (View(), r) == Acquire(old(View()), key, now, reusable, lease, options)
    {
      hide Inv, Expire, Choose, Distinct, Listed;
      ghost var p := View();
      InvLists(p, options);
      AcquireKeeps(p, key, now, reusable, lease, options);
      ListGood(p, key);
      ExpireLocked(key, now);
      if closed { return Refused; }
      ExpiredListed(p, key, now, options);
      r := ChooseLocked(key, reusable, lease);
    }

    method SignalLocked()
      modifies this`signals
      ensures View() == Signal(old(View()))
    {
      if closed { return; }
      signals := signals + 1;
    }

    method FinishDialing(key: Key, outcome: Dialed, now: int, lease: LeaseId) returns (r: Acquired)
      requires Valid() && lease !in held && PendingOf(pending, key) > 0
      modifies this
      ensures Valid()
      ensures (View(), r) == FinishDial(old(View()), key, outcome, now, lease)
    {
      hide Inv, StorePending, StoreList;
      FinishDialKeeps(View(), key, outcome, now, lease, options);
      pending := StorePending(pending, key, PendingOf(pending, key) - 1);
      SignalLocked();
      if outcome.DialFailed? { return Refused; }
      var id := dialed;
      dialed := dialed + 1;
      if closed {
        closings := closings + multiset{id};
        return Refused;
      }
      table := table[id := Entry(key, outcome.mode, now, now, 1, 1, false)];
      entries := StoreList(entries, key, ListOf(entries, key) + [id]);
      held := held[lease := id];
      return Leased(lease);
    }

    method RemoveLocked(key: Key, target: Id)
      modifies this`entries
      ensures entries == StoreList(old(entries), key, Without(ListOf(old(entries), key), target))
    {
      var list := ListOf(entries, key);
      var index := 0;
      while index < |list| && list[index] != target
        invariant 0 <= index <= |list|
        invariant forall j | 0 <= j < index :: list[j] != target
      {
        index := index + 1;
      }
      WithoutAt(list, index, target);
      if index < |list| { list := list[..index] + list[index + 1..]; }
      entries := StoreList(entries, key, list);
    }

    method ReleaseLease(lease: LeaseId, reusable: bool, now: int)
      requires Valid()
      modifies this
      ensures Valid()
      ensures (old(lease in held) ==> old(held[lease] in table)) && View() == Release(old(View()), lease, reusable, now)
    {
      hide Inv, Without, StoreList;
      ReleaseKeeps(View(), lease, reusable, now, options);
      if lease !in held { return; }
      var id := held[lease];
      var e := table[id];
      e := e.(active := e.active - 1);
      if !reusable || closed { e := e.(retiring := true); }
      held := held - {lease};
      if e.active == 0 { e := e.(lastIdleAt := now); }
      table := table[id := e];
      if e.active == 0 && e.retiring {
        RemoveLocked(e.key, id);
        closings := closings + multiset{id};
      }
      SignalLocked();
    }

    /** Refuses later acquisitions, then visits the keys in any order. */
    method Close()
      requires Valid()
      modifies this
      ensures Valid() && ListsOk(old(View())) && View() == PoolModel.Close(old(View()))
    {
      hide Inv, ClosedExcept, AllListed, PoolModel.Close, Sweep, Listed, Distinct, GoodList;
      ghost var p := View();
      InvLists(p, options);
      CloseKeeps(p, options);
      ListsListed(p);
      ClosedAlready(p);
      if closed { return; }
      closed := true;
      var todo := entries.Keys;
      ClosingStarts(p);
      ClosingEnds(p);
      while todo != {}
        invariant todo <= p.entries.Keys && View() == ClosedExcept(p, todo)
        decreases |todo|
      {
        var key :| key in todo;
        ClosingNext(p, todo, key);
        SweepLocked(key, Retired);
        todo := todo - {key};
      }
    }
  }

  function Retired(e: Entry): Entry {
    e.(retiring := true)
  }

  ghost predicate AllListed(p: Pool) {
    forall key | key in p.entries :: Listed(p.entries[key], p.table)
  }

  /** The lists once every key outside `todo` has been visited. */
  ghost function ListsExcept(p: Pool, todo: set<Key>): map<Key, seq<Id>>
    requires AllListed(p)
  {
    var table := RetiredTable(p);
    map key | key in p.entries && (key in todo || Survivors(p.entries[key], table) != [])
      :: if key in todo then p.entries[key] else Survivors(p.entries[key], table)
  }

  function TableExcept(p: Pool, todo: set<Key>): map<Id, Entry> {
    map id | id in p.table :: if p.table[id].key in todo then p.table[id] else RetiredTable(p)[id]
  }

  function IdleExcept(p: Pool, todo: set<Key>): set<Id> {
    set id | id in Idle(p) && p.table[id].key !in todo
  }

  /** The pool closed but for the keys still to be visited. */
  ghost function ClosedExcept(p: Pool, todo: set<Key>): Pool
    requires AllListed(p)
  {
    p.(closed := true, entries := ListsExcept(p, todo), table := TableExcept(p, todo),
       closings := p.closings + multiset(IdleExcept(p, todo)))
  }

  lemma ListsListed(p: Pool)
    requires ListsOk(p)
    ensures AllListed(p)
  {
    hide Distinct;
    forall key | key in p.entries ensures Listed(p.entries[key], p.table) {
      assert p.entries[key] == ListOf(p.entries, key);
      ListGood(p, key);
    }
  }

  lemma ClosingListed(p: Pool, todo: set<Key>, key: Key)
    requires AllListed(p) && ListsOk(p) && key in todo && key in p.entries
    ensures var q := ClosedExcept(p, todo);
            && Listed(p.entries[key], p.table)
            && ListOf(q.entries, key) == p.entries[key] && Listed(p.entries[key], q.table) && Distinct(p.entries[key])
  {
    hide Survivors;
    assert p.entries[key] == ListOf(p.entries, key);
    assert GoodList(ListOf(p.entries, key), key, p.table);
  }

  lemma {:induction false} SameDoom(list: seq<Id>, one: map<Id, Entry>, two: map<Id, Entry>)
    requires Listed(list, one) && Listed(list, two)
    requires forall id | id in list :: one[id] == two[id]
    ensures Survivors(list, one) == Survivors(list, two) && Casualties(list, one) == Casualties(list, two)
  {
    if list != [] {
      var front := list[..|list| - 1];
      assert list == front + [list[|list| - 1]];
      SameDoom(front, one, two);
    }
  }

  lemma ClosingTable(p: Pool, todo: set<Key>, key: Key)
    requires AllListed(p) && ListsOk(p) && key in todo && key in p.entries
    ensures Swept(ClosedExcept(p, todo).table, p.entries[key], Retired) == ClosedExcept(p, todo - {key}).table
  {
    hide Survivors, Distinct;
    var list := p.entries[key];
    var was, now := ClosedExcept(p, todo).table, ClosedExcept(p, todo - {key}).table;
    forall id | id in p.table
      ensures (if id in list then Retired(was[id]) else was[id]) == now[id]
    {
      assert list == ListOf(p.entries, key);
      assert GoodList(ListOf(p.entries, key), key, p.table);
    }
    assert Swept(was, list, Retired).Keys == now.Keys;
  }

  lemma ClosingLists(p: Pool, todo: set<Key>, key: Key)
    requires AllListed(p) && ListsOk(p) && key in todo && key in p.entries
    ensures var list, q := p.entries[key], ClosedExcept(p, todo);
            Listed(list, p.table) &&
            StoreList(q.entries, key, Survivors(list, RetiredTable(p))) == ClosedExcept(p, todo - {key}).entries
  {
    hide Survivors, InPool;
    ClosingListed(p, todo, key);
  }

  lemma ClosingClosings(p: Pool, todo: set<Key>, key: Key)
    requires AllListed(p) && ListsOk(p) && key in todo && key in p.entries
    ensures var list, q := p.entries[key], ClosedExcept(p, todo);
            Listed(list, p.table) &&
            q.closings + multiset(Casualties(list, RetiredTable(p))) == ClosedExcept(p, todo - {key}).closings
  {
    hide Survivors, Casualties;
    ClosingListed(p, todo, key);
    var gone := Casualties(p.entries[key], RetiredTable(p));
    DistinctOnce(gone);
    forall id ensures id in gone <==> id in Idle(p) && p.table[id].key == key {
      assert GoodList(ListOf(p.entries, key), key, p.table);
    }
  }

  /** Sweeping one more key. */
  lemma ClosingNext(p: Pool, todo: set<Key>, key: Key)
    requires AllListed(p) && ListsOk(p) && key in todo && todo <= p.entries.Keys
    ensures var q := ClosedExcept(p, todo);
            && Listed(ListOf(q.entries, key), q.table) && Distinct(ListOf(q.entries, key))
            && Sweep(q, key, Retired) == ClosedExcept(p, todo - {key})
  {
    hide Survivors, Casualties, InPool, Distinct, StoreList;
    ClosingListed(p, todo, key);
    ClosingTable(p, todo, key);
    ClosingLists(p, todo, key);
    ClosingClosings(p, todo, key);
    var list := p.entries[key];
    var swept := ClosedExcept(p, todo - {key}).table;
    forall id | id in list ensures swept[id] == RetiredTable(p)[id] {
      assert GoodList(ListOf(p.entries, key), key, p.table);
    }
    SameDoom(list, swept, RetiredTable(p));
  }

  lemma ClosingStarts(p: Pool)
    requires AllListed(p) && ListsOk(p)
    ensures ClosedExcept(p, p.entries.Keys) == p.(closed := true)
  {
    hide Survivors;
    assert ListsExcept(p, p.entries.Keys) == p.entries;
    forall id | id in p.table ensures TableExcept(p, p.entries.Keys)[id] == p.table[id] {
    }
    assert TableExcept(p, p.entries.Keys) == p.table;
    assert IdleExcept(p, p.entries.Keys) == {};
  }

  lemma ClosingEnds(p: Pool)
    requires AllListed(p) && ListsOk(p) && !p.closed
    ensures ClosedExcept(p, {}) == PoolModel.Close(p)
  {
    hide Survivors, InPool, GoodList;
    assert ListsExcept(p, {}) == KeptLists(p, RetiredTable(p));
    assert TableExcept(p, {}) == RetiredTable(p);
    assert IdleExcept(p, {}) == Idle(p);
  }

  lemma ClosedAlready(p: Pool)
    requires ListsOk(p)
    ensures p.closed ==> PoolModel.Close(p) == p
  {
  }

  lemma InvLists(p: Pool, options: Options)
    requires Inv(p, options)
    ensures ListsOk(p)
  {
  }

  lemma ListGood(p: Pool, key: Key)
    requires ListsOk(p)
    ensures Listed(ListOf(p.entries, key), p.table) && Distinct(ListOf(p.entries, key))
  {
    assert GoodList(ListOf(p.entries, key), key, p.table);
  }

  lemma ExpiredListed(p: Pool, key: Key, now: int, options: Options)
    requires ListsOk(p)
    ensures Listed(ListOf(p.entries, key), p.table)
    ensures var q := Expire(p, key, now, options); Listed(ListOf(q.entries, key), q.table)
  {
    ListGood(p, key);
    ExpireSheds(p, key, now, options);
    ListGood(Expire(p, key, now, options), key);
  }

  lemma SweptStart(table: map<Id, Entry>, list: seq<Id>, f: Entry -> Entry)
    requires Listed(list, table)
    ensures Swept(table, list[..0], f) == table
    ensures var swept := Swept(table, list, f);
            Listed(list, swept) && Survivors(list[..0], swept) == [] && Casualties(list[..0], swept) == []
  {
  }

  lemma SweptNext(table: map<Id, Entry>, list: seq<Id>, i: nat, f: Entry -> Entry)
    requires i < |list| && Distinct(list) && Listed(list, table)
    ensures var before, swept := Swept(table, list[..i], f), Swept(table, list, f);
            var e := f(table[list[i]]);
            && list[i] in before && before[list[i]] == table[list[i]]
            && before[list[i] := e] == Swept(table, list[..i + 1], f)
            && Listed(list[..i], swept) && Listed(list[..i + 1], swept)
            && Survivors(list[..i + 1], swept) == Survivors(list[..i], swept) + (if Doomed(e) then [] else [list[i]])
            && Casualties(list[..i + 1], swept) == Casualties(list[..i], swept) + (if Doomed(e) then [list[i]] else [])
  {
    hide Doomed;
    assert list[..i + 1] == list[..i] + [list[i]];
    assert list[..i + 1][..i] == list[..i];
  }

  lemma RetireStart(table: map<Id, Entry>, list: seq<Id>, reusable: Id -> bool)
    ensures RetireUnusable(table, list[..0], reusable) == table
  {
  }

  lemma RetireNext(table: map<Id, Entry>, list: seq<Id>, k: nat, reusable: Id -> bool)
    requires k < |list| && Listed(list, table)
    ensures var id := list[k];
            var before := RetireUnusable(table, list[..k], reusable);
            var after := RetireUnusable(table, list[..k + 1], reusable);
            && id in before && id in after
            && after == (if reusable(id) then before else before[id := before[id].(retiring := true)])
            && after[id] == (if reusable(id) then table[id] else table[id].(retiring := true))
  {
    assert list[..k + 1] == list[..k] + [list[k]];
  }

  lemma RetiredKeys(table: map<Id, Entry>, list: seq<Id>, reusable: Id -> bool)
    ensures forall some: seq<Id> :: RetireUnusable(table, some, reusable).Keys == table.Keys
  {
  }

  lemma {:induction false} WithoutAt(list: seq<Id>, index: nat, target: Id)
    requires index <= |list| && forall j | 0 <= j < index :: list[j] != target
    requires index < |list| ==> list[index] == target
    ensures Without(list, target) == if index < |list| then list[..index] + list[index + 1..] else list
    decreases index
  {
    if index > 0 {
      WithoutAt(list[1..], index - 1, target);
    }
  }
}
