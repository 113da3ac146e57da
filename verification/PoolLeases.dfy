/** Which resources are lent, and that one returned as unusable is never lent again. */
module PoolLeases {
  import opened PoolModel

  // ----- what an acquisition does -----

  /** Within its lifetime and, if nobody uses it, within the idle timeout. */
  predicate Young(e: Entry, now: int, options: Options) {
    now - e.createdAt < options.lifetime && (e.active == 0 ==> now - e.lastIdleAt < options.idleTimeout)
  }

  /** A resource that may be lent: young, not retiring, usable by its own account, and shared or free. */
  predicate Fit(e: Entry, now: int, reusable: bool, options: Options) {
    Young(e, now, options) && !e.retiring && reusable && (e.mode == Shared || e.active == 0)
  }

  /** A resource that still counts against the cap: in use, or young and not retiring. */
  predicate Counts(e: Entry, now: int, options: Options) {
    e.active != 0 || (Young(e, now, options) && !e.retiring)
  }

  function Counted(p: Pool, key: Key, now: int, options: Options): set<Id>
    requires Listed(ListOf(p.entries, key), p.table)
  {
    set id | id in ListOf(p.entries, key) && Counts(p.table[id], now, options)
  }

  predicate SomeFit(p: Pool, key: Key, now: int, reusable: Id -> bool, options: Options)
    requires Listed(ListOf(p.entries, key), p.table)
  {
    exists id | id in ListOf(p.entries, key) :: Fit(p.table[id], now, reusable(id), options)
  }

  lemma {:induction false} DistinctCount(list: seq<Id>, ids: set<Id>)
    requires Distinct(list) && forall id :: id in list <==> id in ids
    ensures |list| == |ids|
    decreases |list|
  {
    if list == [] {
      assert ids == {};
    } else {
      var front, last := list[..|list| - 1], list[|list| - 1];
      assert list == front + [last] && last in list;
      assert last !in front;
      assert Distinct(front);
      forall id ensures id in front <==> id in ids - {last} {}
      DistinctCount(front, ids - {last});
    }
  }

  /** The entries left after the expiry pass, each as it was except for being marked. */
  lemma AfterExpiry(p: Pool, key: Key, now: int, options: Options)
    requires GoodList(ListOf(p.entries, key), key, p.table)
    ensures var q := Expire(p, key, now, options);
            var list := ListOf(q.entries, key);
            && Listed(list, q.table) && q.held == p.held && q.closed == p.closed && q.pending == p.pending
            && |list| == |Counted(p, key, now, options)|
            && (forall id :: id in list <==> id in Counted(p, key, now, options))
            && (forall id | id in list ::
                  q.table[id] == p.table[id].(retiring := p.table[id].retiring || !Young(p.table[id], now, options)))
  {
    var q := Expire(p, key, now, options);
    DistinctCount(ListOf(q.entries, key), Counted(p, key, now, options));
  }

  lemma {:induction false} FirstIsFirst(list: seq<Id>, i: nat, table: map<Id, Entry>, reusable: Id -> bool)
    requires i <= |list| && Listed(list, table)
    ensures var k := FirstUsable(list, i, table, reusable);
            && (forall j | i <= j < k :: !Usable(table[list[j]], reusable(list[j])))
            && (k < |list| ==> Usable(table[list[k]], reusable(list[k])))
    decreases |list| - i
  {
    if i < |list| && !Usable(table[list[i]], reusable(list[i])) { FirstIsFirst(list, i + 1, table, reusable); }
  }

  /** What a pass over an open pool comes to once the expired entries are gone. */
  lemma Chosen(q: Pool, key: Key, reusable: Id -> bool, lease: LeaseId, options: Options)
    requires Listed(ListOf(q.entries, key), q.table)
    ensures var list := ListOf(q.entries, key);
            var (r, a) := Choose(q, key, reusable, lease, options);
            && (a.Leased? <==> exists id | id in list :: Usable(q.table[id], reusable(id)))
            && (a == Dial <==> !a.Leased? && |list| + PendingOf(q.pending, key) < options.maxConnections)
            && (a == Wait <==> !a.Leased? && |list| + PendingOf(q.pending, key) >= options.maxConnections)
            && (a.Leased? ==> && a == Leased(lease) && lease in r.held && r.held == q.held[lease := r.held[lease]]
                              && r.held[lease] in list && Usable(q.table[r.held[lease]], reusable(r.held[lease])))
            && (!a.Leased? ==> r.held == q.held)
            && (forall other :: PendingOf(r.pending, other) ==
                                PendingOf(q.pending, other) + if a == Dial && other == key then 1 else 0)
  {
    FirstIsFirst(ListOf(q.entries, key), 0, q.table, reusable);
    hide FirstUsable, RetireUnusable, Usable;
    var list := ListOf(q.entries, key);
    var k := FirstUsable(list, 0, q.table, reusable);
    if k == |list| {
      forall id | id in list ensures !Usable(q.table[id], reusable(id)) {
        var j :| 0 <= j < |list| && list[j] == id;
      }
    } else {
      assert list[k] in list;
    }
  }

  /**
   An acquisition from an open pool is lent a fit resource if there is one; else
   it dials if the resources that count, with the pending dials, are below the
   cap; else it waits. A closed pool refuses it.
   */
  lemma AcquiresExactly(p: Pool, key: Key, now: int, reusable: Id -> bool, lease: LeaseId, options: Options)
    requires GoodList(ListOf(p.entries, key), key, p.table) && lease !in p.held
    ensures var (q, a) := Acquire(p, key, now, reusable, lease, options);
            var room := |Counted(p, key, now, options)| + PendingOf(p.pending, key) < options.maxConnections;
            && (a == Refused <==> p.closed)
            && (a.Leased? <==> !p.closed && SomeFit(p, key, now, reusable, options))
            && (a == Dial <==> !p.closed && !SomeFit(p, key, now, reusable, options) && room)
            && (a == Wait <==> !p.closed && !SomeFit(p, key, now, reusable, options) && !room)
            && (a.Leased? ==>
                  && lease in q.held && q.held[lease] in ListOf(p.entries, key) && q.held[lease] in p.table
                  && Fit(p.table[q.held[lease]], now, reusable(q.held[lease]), options))
  {
    AfterExpiry(p, key, now, options);
    var q := Expire(p, key, now, options);
    Chosen(q, key, reusable, lease, options);
    hide Expire, Choose;
    forall id | id in ListOf(q.entries, key)
      ensures Usable(q.table[id], reusable(id)) <==> Fit(p.table[id], now, reusable(id), options)
    {
    }
  }

  // ----- returning a resource as unusable -----

  /** Marked, and still in the pool only for those who use it. */
  predicate Spent(p: Pool, id: Id) {
    id in p.table && p.table[id].retiring && (InPool(p, id) ==> p.table[id].active > 0)
  }

  /** The marked resource is neither lent nor unmarked. */
  predicate StaysSpent(p: Pool, q: Pool, id: Id) {
    Spent(q, id) && forall l | l in q.held && q.held[l] == id :: l in p.held && p.held[l] == id
  }

  lemma ReleaseSpends(p: Pool, lease: LeaseId, now: int, options: Options)
    requires Inv(p, options) && lease in p.held
    ensures p.held[lease] in p.table && StaysSpent(p, Release(p, lease, false, now), p.held[lease])
  {
    HeldListed(p, options);
    CoreActive(p, options);
    var id := p.held[lease];
    var list := ListOf(p.entries, p.table[id].key);
    assert GoodList(list, p.table[id].key, p.table);
    WithoutDistinct(list, id);
    assert p.table[id].active >= 1 by { HolderCounts(p.held, lease); }
    hide Inv, Without;
  }

  lemma AcquireStaysSpent(p: Pool, key: Key, now: int, reusable: Id -> bool, lease: LeaseId, options: Options, id: Id)
    requires ListsOk(p) && lease !in p.held && Spent(p, id)
    ensures StaysSpent(p, Acquire(p, key, now, reusable, lease, options).0, id)
  {
    assert GoodList(ListOf(p.entries, key), key, p.table);
    var q := Expire(p, key, now, options);
    assert Spent(q, id) && q.held == p.held;
    assert Listed(ListOf(q.entries, key), q.table);
    if !q.closed { ChooseStaysSpent(q, key, reusable, lease, options, id); }
    hide ListsOk, Expire, Choose;
  }

  lemma ChooseStaysSpent(q: Pool, key: Key, reusable: Id -> bool, lease: LeaseId, options: Options, id: Id)
    requires Listed(ListOf(q.entries, key), q.table) && lease !in q.held && Spent(q, id)
    ensures StaysSpent(q, Choose(q, key, reusable, lease, options).0, id)
  {
  }

  lemma OthersStaySpent(p: Pool, step: Step, q: Pool, options: Options, id: Id)
    requires Inv(p, options) && Takes(p, step, q, options) && Spent(p, id) && !step.AcquireStep?
    ensures StaysSpent(p, q, id)
  {
    match step
    case DialStep(key, outcome, now, lease) => DialStaysSpent(p, key, outcome, now, lease, options, id);
    case ReleaseStep(lease, keep, now) => ReleaseStaysSpent(p, lease, keep, now, options, id);
    case CloseStep => CloseStaysSpent(p, options, id);
  }

  lemma DialStaysSpent(p: Pool, key: Key, outcome: Dialed, now: int, lease: LeaseId, options: Options, id: Id)
    requires Inv(p, options) && PendingOf(p.pending, key) > 0 && lease !in p.held && Spent(p, id)
    ensures StaysSpent(p, FinishDial(p, key, outcome, now, lease).0, id)
  {
    assert id < p.dialed;
    hide Inv, StorePending;
  }

  lemma ReleaseStaysSpent(p: Pool, lease: LeaseId, keep: bool, now: int, options: Options, id: Id)
    requires Inv(p, options) && Spent(p, id) && (lease in p.held ==> p.held[lease] in p.table)
    ensures StaysSpent(p, Release(p, lease, keep, now), id)
  {
    if lease in p.held && p.held[lease] == id {
      MarkedReleases(p, lease, keep, now);
      ReleaseSpends(p, lease, now, options);
    } else if lease in p.held {
      var other := p.held[lease];
      assert GoodList(ListOf(p.entries, p.table[other].key), p.table[other].key, p.table);
      hide Inv;
    }
  }

  /** For a marked resource it makes no difference how it is returned. */
  lemma MarkedReleases(p: Pool, lease: LeaseId, keep: bool, now: int)
    requires lease in p.held && p.held[lease] in p.table && p.table[p.held[lease]].retiring
    ensures Release(p, lease, keep, now) == Release(p, lease, false, now)
  {
  }

  lemma CloseStaysSpent(p: Pool, options: Options, id: Id)
    requires Inv(p, options) && Spent(p, id)
    ensures StaysSpent(p, Close(p), id)
  {
    hide LeasesOk, ClosingsOk, WithinCap, ClosedOk;
  }

  lemma StepStaysSpent(p: Pool, step: Step, q: Pool, options: Options, id: Id)
    requires Inv(p, options) && Takes(p, step, q, options) && Spent(p, id)
    ensures StaysSpent(p, q, id)
  {
    if step.AcquireStep? {
      AcquireStaysSpent(p, step.key, step.now, step.reusable, step.lease, options, id);
    } else {
      OthersStaySpent(p, step, q, options, id);
    }
  }

  lemma {:induction false} RunStaysSpent(states: seq<Pool>, steps: seq<Step>, m: nat, n: nat, id: Id, options: Options)
    requires Run(states, steps, options) && m <= n < |states| && Spent(states[m], id)
    ensures StaysSpent(states[m], states[n], id)
  {
    hide Takes, Spent;
    if m < n {
      RunStaysSpent(states, steps, m, n - 1, id, options);
      RunKeeps(states, steps, n - 1, options);
      assert Takes(states[n - 1], steps[n - 1], states[n - 1 + 1], options);
      StepStaysSpent(states[n - 1], steps[n - 1], states[n], options, id);
    }
  }

  /**
   In every run, once a lease was returned as unusable its resource is not lent
   again, and it has been closed as soon as nobody uses it.
   */
  lemma UnusableIsNeverLent(states: seq<Pool>, steps: seq<Step>, k: nat, n: nat, options: Options)
    requires Run(states, steps, options) && k < n < |states| && steps[k].ReleaseStep? && !steps[k].keep
    requires steps[k].lease in states[k].held
    ensures var id := states[k].held[steps[k].lease];
            && id in states[n].table && states[n].table[id].retiring
            && Holders(states[n].held, id) <= Holders(states[k + 1].held, id) <= Holders(states[k].held, id)
            && (Holders(states[n].held, id) == {} ==> states[n].closings[id] == 1 && !InPool(states[n], id))
  {
    var id := states[k].held[steps[k].lease];
    RunKeeps(states, steps, k, options);
    assert Takes(states[k], steps[k], states[k + 1], options);
    ReleaseSpends(states[k], steps[k].lease, steps[k].now, options);
    RunStaysSpent(states, steps, k + 1, n, id, options);
    RunKeeps(states, steps, n, options);
    hide Run, Takes, InPool;
  }
}
