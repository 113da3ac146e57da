/** When an acquisition waits although nobody is there to wake it. */
module PoolProgress {
  import opened PoolModel

  /** No lease is out and no dial is under way, for any key. */
  ghost predicate Quiet(p: Pool) {
    p.held == map[] && forall key :: PendingOf(p.pending, key) == 0
  }

  predicate QuietAt(p: Pool, key: Key) {
    && PendingOf(p.pending, key) == 0
    && forall id | id in ListOf(p.entries, key) :: id in p.table && p.table[id].active == 0
  }

  /** The entries of a key that are left after the expiry pass. */
  function Fresh(p: Pool, key: Key, now: int, options: Options): seq<Id>
    requires Listed(ListOf(p.entries, key), p.table)
  {
    ListOf(Expire(p, key, now, options).entries, key)
  }

  lemma {:induction false} NoneUsable(list: seq<Id>, i: nat, table: map<Id, Entry>, reusable: Id -> bool)
    requires i <= |list| && Listed(list, table)
    ensures FirstUsable(list, i, table, reusable) == |list|
            <==> forall k | i <= k < |list| :: !Usable(table[list[k]], reusable(list[k]))
    decreases |list| - i
  {
    if i < |list| { NoneUsable(list, i + 1, table, reusable); }
  }

  lemma ChooseWaits(q: Pool, key: Key, reusable: Id -> bool, lease: LeaseId, options: Options)
    requires Listed(ListOf(q.entries, key), q.table)
    ensures var list := ListOf(q.entries, key);
            Choose(q, key, reusable, lease, options).1 == Wait
            <==> && |list| + PendingOf(q.pending, key) >= options.maxConnections
                 && forall i | 0 <= i < |list| :: !Usable(q.table[list[i]], reusable(list[i]))
  {
    NoneUsable(ListOf(q.entries, key), 0, q.table, reusable);
    hide FirstUsable, RetireUnusable, Usable;
  }

  /** After the expiry pass the entries of a quiet key are idle and none is retiring. */
  lemma FreshEntries(p: Pool, key: Key, now: int, options: Options)
    requires QuietAt(p, key)
    ensures Listed(ListOf(p.entries, key), p.table)
    ensures var q := Expire(p, key, now, options);
            && Listed(Fresh(p, key, now, options), q.table) && q.closed == p.closed && q.pending == p.pending
            && forall id | id in Fresh(p, key, now, options) :: q.table[id].active == 0 && !q.table[id].retiring
  {
    hide Expired;
  }

  /**
   With no lease and no dial outstanding for its key, an acquisition waits if
   and only if the pool is open, the entries left after the expiry pass fill the
   cap, and every one of them reports that it cannot be reused.
   */
  lemma WaitsExactly(p: Pool, key: Key, now: int, reusable: Id -> bool, lease: LeaseId, options: Options)
    requires QuietAt(p, key)
    ensures Acquire(p, key, now, reusable, lease, options).1 == Wait
       <==> && !p.closed
            && |Fresh(p, key, now, options)| >= options.maxConnections
            && forall id | id in Fresh(p, key, now, options) :: !reusable(id)
  {
    hide Expire, Choose;
    FreshEntries(p, key, now, options);
    var q := Expire(p, key, now, options);
    var list := ListOf(q.entries, key);
    ChooseWaits(q, key, reusable, lease, options);
    forall i | 0 <= i < |list| ensures Usable(q.table[list[i]], reusable(list[i])) == reusable(list[i]) {
      assert list[i] in list;
    }
  }

  /** In every state of every run a quiet pool is quiet at every key. */
  lemma QuietEverywhere(states: seq<Pool>, steps: seq<Step>, i: nat, key: Key, options: Options)
    requires Run(states, steps, options) && i < |states| && Quiet(states[i])
    ensures Listed(ListOf(states[i].entries, key), states[i].table) && QuietAt(states[i], key)
  {
    hide Takes, Run;
    RunKeeps(states, steps, i, options);
    var p := states[i];
    assert GoodList(ListOf(p.entries, key), key, p.table);
    forall id | id in p.table ensures p.table[id].active == 0 {
      assert Holders(p.held, id) == {};
    }
  }

  // ----- who wakes a waiter -----

  /** Every returned lease and every finished dial wakes the waiters of an open pool. */
  lemma ReturnsSignal(p: Pool, step: Step, q: Pool, options: Options)
    requires Takes(p, step, q, options) && !p.closed
    requires step.DialStep? || (step.ReleaseStep? && step.lease in p.held)
    ensures q.signals == p.signals + 1
  {
    hide ListOf, StoreList, StorePending, Without;
  }

  /** The acquisition was given a lease or a dial. */
  predicate Served(p: Pool, step: Step, options: Options) {
    step.AcquireStep? && Listed(ListOf(p.entries, step.key), p.table)
    && var r := Acquire(p, step.key, step.now, step.reusable, step.lease, options).1;
       r.Leased? || r.Dial?
  }

  /** In a quiet pool no step wakes anybody, and only an acquisition that is served ends the quiet. */
  lemma QuietStep(p: Pool, step: Step, q: Pool, options: Options)
    requires Takes(p, step, q, options) && Quiet(p)
    ensures q.signals == p.signals
    ensures !Served(p, step, options) ==> Quiet(q)
    ensures q.closed <==> p.closed || step.CloseStep?
  {
    hide ListsOk, FirstUsable, Survivors, Casualties, StoreList, KeptLists;
  }

  /**
   An acquisition that waits in a quiet pool is not woken, except by closing the
   pool, until a later acquisition is served.
   */
  lemma {:induction false} QuietLasts(states: seq<Pool>, steps: seq<Step>, m: nat, n: nat, options: Options)
    requires Run(states, steps, options) && m <= n < |states| && Quiet(states[m])
    requires forall k | m <= k < n :: !Served(states[k], steps[k], options)
    ensures Quiet(states[n]) && states[n].signals == states[m].signals
    ensures states[n].closed <==> states[m].closed || exists k | m <= k < n :: steps[k].CloseStep?
  {
    hide Quiet, Served, Takes;
    if m < n {
      QuietLasts(states, steps, m, n - 1, options);
      assert Takes(states[n - 1], steps[n - 1], states[n - 1 + 1], options);
      QuietStep(states[n - 1], steps[n - 1], states[n], options);
    }
  }

  // ----- a run -----

  const ONE: Options := Options(1, 10, 10)
  const ORIGIN: Key := "origin"

  const DIALING: Pool := EMPTY.(pending := map[ORIGIN := 1])
  const LEASED: Pool := EMPTY.(
    entries := map[ORIGIN := [0]], table := map[0 := Entry(ORIGIN, Exclusive, 0, 0, 1, 1, false)],
    held := map[0 := 0], dialed := 1, signals := 1)
  const RETURNED: Pool := EMPTY.(
    entries := map[ORIGIN := [0]], table := map[0 := Entry(ORIGIN, Exclusive, 0, 0, 0, 1, false)],
    dialed := 1, signals := 2)
  const STRANDED: Pool := RETURNED.(table := map[0 := Entry(ORIGIN, Exclusive, 0, 0, 0, 1, true)])

  const NEVER: Id -> bool := (id: Id) => false

  lemma FirstDials()
    ensures Takes(EMPTY, AcquireStep(ORIGIN, 0, NEVER, 0), DIALING, ONE)
  {
    var q := Expire(EMPTY, ORIGIN, 0, ONE);
    assert q.table == map[] && q.entries == map[] && q == EMPTY;
    assert RetireUnusable(EMPTY.table, [], NEVER) == map[];
  }

  lemma DialJoins()
    ensures Takes(DIALING, DialStep(ORIGIN, DialedResource(Exclusive), 0, 0), LEASED, ONE)
  {
    assert DIALING.pending - {ORIGIN} == map[];
    assert [] + [0] == [0];
    var q := FinishDial(DIALING, ORIGIN, DialedResource(Exclusive), 0, 0).0;
    assert q.entries == LEASED.entries && q.table == LEASED.table && q.held == LEASED.held;
  }

  lemma LeaseReturns()
    ensures Takes(LEASED, ReleaseStep(0, true, 0), RETURNED, ONE)
  {
    assert LEASED.held - {0} == map[];
  }

  lemma {:induction false} AllSurvive(list: seq<Id>, table: map<Id, Entry>)
    requires Listed(list, table) && forall id | id in list :: !Doomed(table[id])
    ensures Survivors(list, table) == list
    decreases |list|
  {
    hide Doomed;
    if list == [] {
    } else {
      var front, last := list[..|list| - 1], list[|list| - 1];
      assert list == front + [last] && last in list;
      AllSurvive(front, table);
      assert Survivors(list, table) == Survivors(front, table) + [last];
    }
  }

  lemma NoneFall(list: seq<Id>, table: map<Id, Entry>)
    requires Listed(list, table) && forall id | id in list :: !Doomed(table[id])
    ensures Casualties(list, table) == []
  {
    hide Doomed, Casualties;
    SomeMember(Casualties(list, table));
  }

  lemma SomeMember(s: seq<Id>)
    ensures s == [] || exists id :: id in s
  {
    if s != [] { assert s[0] in s; }
  }

  lemma SweptSame(table: map<Id, Entry>, list: seq<Id>, f: Entry -> Entry)
    requires Listed(list, table) && forall id | id in list :: f(table[id]) == table[id]
    ensures Swept(table, list, f) == table
  {
  }

  lemma SweepsNothing(p: Pool, key: Key, f: Entry -> Entry)
    requires key in p.entries && p.entries[key] != [] && Listed(p.entries[key], p.table)
    requires Swept(p.table, p.entries[key], f) == p.table
    requires Survivors(p.entries[key], p.table) == p.entries[key] && Casualties(p.entries[key], p.table) == []
    ensures Sweep(p, key, f) == p
  {
    hide Swept, Survivors, Casualties, Listed;
    assert p.entries[key := p.entries[key]] == p.entries;
    assert p.closings + multiset([]) == p.closings;
  }

  /** An expiry pass that finds nothing expired and nothing doomed changes nothing. */
  lemma NoneExpires(p: Pool, key: Key, now: int, options: Options)
    requires key in p.entries && p.entries[key] != [] && Listed(p.entries[key], p.table)
    requires forall id | id in p.entries[key] :: !Expired(p.table[id], now, options) && !Doomed(p.table[id])
    ensures Expire(p, key, now, options) == p
  {
    hide Expired, Doomed, Swept, Survivors, Casualties, Sweep;
    var f := (e: Entry) => Aged(e, now, options);
    SweptSame(p.table, p.entries[key], f);
    AllSurvive(p.entries[key], p.table);
    NoneFall(p.entries[key], p.table);
    SweepsNothing(p, key, f);
  }

  lemma NextChooses()
    ensures Choose(RETURNED, ORIGIN, NEVER, 1, ONE) == (STRANDED, Wait)
  {
    var list := [0];
    assert FirstUsable(list, 1, RETURNED.table, NEVER) == 1;
    assert RetireUnusable(RETURNED.table, list, NEVER) == STRANDED.table;
  }

  lemma NextWaits()
    ensures Takes(RETURNED, AcquireStep(ORIGIN, 0, NEVER, 1), STRANDED, ONE)
    ensures Acquire(RETURNED, ORIGIN, 0, NEVER, 1, ONE).1 == Wait
  {
    NoneExpires(RETURNED, ORIGIN, 0, ONE);
    NextChooses();
    hide Expire, Choose;
  }

  lemma StrandedIsQuiet()
    ensures Quiet(STRANDED) && !STRANDED.closed
  {
  }

  lemma FourSteps(p: seq<Pool>, s: seq<Step>, options: Options)
    requires |p| == 5 && |s| == 4 && p[0] == EMPTY
    requires Takes(p[0], s[0], p[1], options) && Takes(p[1], s[1], p[2], options)
    requires Takes(p[2], s[2], p[3], options) && Takes(p[3], s[3], p[4], options)
    ensures Run(p, s, options)
  {
    hide Takes;
  }

  const STATES: seq<Pool> := [EMPTY, DIALING, LEASED, RETURNED, STRANDED]
  const STEPS: seq<Step> := [
    AcquireStep(ORIGIN, 0, NEVER, 0), DialStep(ORIGIN, DialedResource(Exclusive), 0, 0),
    ReleaseStep(0, true, 0), AcquireStep(ORIGIN, 0, NEVER, 1)]

  /**
   A resource is dialed, returned for reuse, and then reports that it cannot be
   reused: the next acquisition waits in a quiet pool.
   */
  lemma AcquireIsStranded()
    ensures Run(STATES, STEPS, ONE) && STATES[3] == RETURNED && STATES[4] == STRANDED
    ensures Acquire(RETURNED, ORIGIN, 0, NEVER, 1, ONE).1 == Wait && Quiet(STRANDED) && !STRANDED.closed
  {
    hide Takes, Acquire, Run, Quiet;
    FirstDials();
    DialJoins();
    LeaseReturns();
    NextWaits();
    StrandedIsQuiet();
    FourSteps(STATES, STEPS, ONE);
  }
}
