/** Streams, windows and waiters of a session over every run. */
module Http2Invariant {
  import opened Http1Message
  import opened Wrappers
  import opened Http2Session
  import M = Http2Message

  // ----- the stream map -----

  /** A stream is in the map exactly while unfinished, and is settled once. */
  predicate StreamOk(st: Stream, live: bool) {
    && live == !st.finished
    && st.closes == (if st.finished then 1 else 0)
    && (!st.finished ==> st.err.None?)
  }

  predicate Registered(x: Session) {
    && (forall id | id in x.live :: id in x.table)
    && (forall id | id in x.table :: StreamOk(x.table[id], id in x.live))
  }

  predicate Odd(n: int) {
    n % 2 == 1
  }

  /** Ids are the odd numbers below the next one. */
  ghost predicate Numbered(x: Session) {
    && Odd(x.next) && 1 <= x.next <= MAX_STREAM_ID + 2
    && (forall id: Id :: id in x.table <==> Odd(id) && id < x.next)
  }

  predicate Least(bound: Option<nat>, all: seq<nat>) {
    match bound
    case None => all == []
    case Some(b) => b in all && forall last | last in all :: b <= last
  }

  predicate Drained(x: Session) {
    && Least(x.goAway, x.goAways)
    && (x.goAway.Some? ==> forall id | id in x.live :: id <= x.goAway.value)
    && (x.closeErr.Some? ==> x.live == {})
  }

  // ----- the ledger -----

  /** Bytes reserved by all streams with an id below `n`. */
  function TotalReserved(table: map<Id, Stream>, n: nat): nat {
    if n == 0 then 0
    else TotalReserved(table, n - 1) + if n - 1 in table then table[n - 1].reserved else 0
  }

  predicate StreamLedger(st: Stream, initial: int) {
    st.sendWindow == initial + st.credit - st.reserved
  }

  predicate Ledger(x: Session) {
    && x.window == DEFAULT_WINDOW + x.credit - x.reserved
    && 0 <= x.window <= MAX_WINDOW
    && x.reserved == TotalReserved(x.table, x.next)
    && 0 <= x.initial <= MAX_WINDOW && DEFAULT_FRAME <= x.maxFrame <= MAX_FRAME
    && (forall id | id in x.live && id in x.table :: StreamLedger(x.table[id], x.initial))
  }

  ghost predicate Inv(x: Session) {
    Registered(x) && Numbered(x) && Drained(x) && Ledger(x)
  }

  // ----- changes that leave the books alone -----

  predicate SameStreamBooks(s: Stream, t: Stream) {
    && t.sendWindow == s.sendWindow && t.finished == s.finished && t.err == s.err && t.closes == s.closes
    && t.credit == s.credit && t.reserved == s.reserved
  }

  /** Only response progress, the reader and the epochs may differ. */
  predicate SameBooks(x: Session, y: Session) {
    && y == x.(table := y.table, reader := y.reader, flowEpoch := y.flowEpoch, admissionEpoch := y.admissionEpoch,
               maxConcurrent := y.maxConcurrent)
    && y.table.Keys == x.table.Keys
    && (forall id | id in x.table :: SameStreamBooks(x.table[id], y.table[id]))
  }

  lemma {:induction false} SameTotal(one: map<Id, Stream>, two: map<Id, Stream>, n: nat)
    requires forall id: Id | id < n ::
               (id in one <==> id in two) && (id in one ==> one[id].reserved == two[id].reserved)
    ensures TotalReserved(one, n) == TotalReserved(two, n)
  {
    if n > 0 { SameTotal(one, two, n - 1); }
  }

  lemma SameBooksKeep(x: Session, y: Session)
    requires Inv(x) && SameBooks(x, y)
    ensures Inv(y)
  {
    forall id | id in x.table ensures id in y.table && SameStreamBooks(x.table[id], y.table[id]) {
      assert id in y.table.Keys;
    }
    SameTotal(x.table, y.table, x.next);
    assert forall id: Id :: id in y.table <==> id in x.table.Keys;
  }

  // ----- finishing streams -----

  lemma FinishKeys(x: Session, ids: set<Id>, response: Response, err: Option<Error>)
    ensures var y := FinishAll(x, ids, response, err);
            && y.table.Keys == x.table.Keys
            && TotalReserved(y.table, x.next) == TotalReserved(x.table, x.next)
            && (forall id | id in x.table ::
                  y.table[id] == if id in ids then Settle(x.table[id], response, err) else x.table[id])
  {
    SameTotal(x.table, FinishAll(x, ids, response, err).table, x.next);
  }

  lemma FinishKeeps(x: Session, ids: set<Id>, response: Response, err: Option<Error>)
    requires Inv(x) && ids <= x.live
    ensures Inv(FinishAll(x, ids, response, err))
  {
    FinishKeys(x, ids, response, err);
    hide FinishAll, TotalReserved;
    FinishOther(x, ids, response, err);
    var y := FinishAll(x, ids, response, err);
    assert forall id: Id :: id in y.table <==> id in y.table.Keys;
    assert forall id: Id :: id in x.table <==> id in x.table.Keys;
  }

  lemma FinishOther(x: Session, ids: set<Id>, response: Response, err: Option<Error>)
    ensures var y := FinishAll(x, ids, response, err);
            && y.live == x.live - ids
            && y == x.(table := y.table, live := y.live, flowEpoch := x.flowEpoch + |ids|,
                       admissionEpoch := x.admissionEpoch + |ids|)
  {
  }

  lemma CancelKeeps(x: Session, id: Id, err: Error)
    requires Inv(x) && id in x.table
    ensures Inv(Cancel(x, id, err))
  {
    hide FinishAll, Ledger, Numbered, Drained;
    assert StreamOk(x.table[id], id in x.live);
    if !x.table[id].finished { FinishKeeps(x, {id}, BLANK, Some(err)); }
  }

  lemma FinishOneKeeps(x: Session, id: Id, response: Response, err: Option<Error>)
    requires Inv(x)
    ensures Inv(FinishOne(x, id, response, err))
  {
    hide FinishAll, Inv;
    if Alive(x, id) { FinishKeeps(x, {id}, response, err); }
  }

  lemma ShutdownKeeps(x: Session, err: Error)
    requires Inv(x)
    ensures Inv(Shutdown(x, err)) && Shutdown(x, err).live == {}
  {
    hide FinishAll, TotalReserved, StreamOk;
    if x.closeErr.None? {
      FinishKeeps(x, x.live, BLANK, Some(err));
      FinishOther(x, x.live, BLANK, Some(err));
    }
  }

  lemma GoAwayKeeps(x: Session, last: nat)
    requires Inv(x)
    ensures Inv(GoAway(x, last))
  {
    hide FinishAll, TotalReserved, StreamOk;
    var bound := Boundary(x, last);
    FinishKeeps(x, Beyond(x, bound), BLANK, Some(GoAwayError(bound)));
    FinishOther(x, Beyond(x, bound), BLANK, Some(GoAwayError(bound)));
    LeastGrows(x.goAway, x.goAways, last);
  }

  lemma LeastGrows(bound: Option<nat>, all: seq<nat>, last: nat)
    requires Least(bound, all)
    ensures Least(Some(if bound.None? || last < bound.value then last else bound.value), all + [last])
  {
    var grown := all + [last];
    assert grown[|all|] == last;
    forall other | other in all ensures other in grown {
    }
  }

  // ----- opening, reserving and crediting -----

  lemma OddNext(n: int)
    requires Odd(n)
    ensures !Odd(n + 1) && Odd(n + 2)
  {
  }

  lemma OpenNumbered(x: Session)
    requires Numbered(x) && x.next <= MAX_STREAM_ID
    ensures Numbered(Open(x)) && x.next !in x.table && x.next + 1 !in Open(x).table
  {
    OddNext(x.next);
    hide Odd;
    var y := Open(x);
    forall id: Id ensures id in y.table <==> Odd(id) && id < y.next {
      assert id in y.table <==> id in x.table || id == x.next;
    }
  }

  lemma OpenTotal(x: Session)
    requires x.next !in x.table && x.next + 1 !in Open(x).table
    ensures TotalReserved(Open(x).table, x.next + 2) == TotalReserved(x.table, x.next)
  {
    var table := Open(x).table;
    SameTotal(x.table, table, x.next);
    assert TotalReserved(table, x.next + 1) == TotalReserved(table, x.next) + table[x.next].reserved;
  }

  lemma OpenRegistered(x: Session)
    requires Registered(x) && x.next !in x.table
    ensures Registered(Open(x))
  {
  }

  lemma OpenKeeps(x: Session)
    requires Inv(x) && CanOpen(x)
    ensures Inv(Open(x))
  {
    OpenNumbered(x);
    OpenRegistered(x);
    hide Numbered, Registered;
    OpenTotal(x);
    hide TotalReserved;
  }

  lemma {:induction false} TotalUpdate(table: map<Id, Stream>, id: Id, st: Stream, n: nat)
    requires id in table && id < n
    ensures TotalReserved(table[id := st], n) == TotalReserved(table, n) - table[id].reserved + st.reserved
  {
    if n == id + 1 {
      SameTotal(table[id := st], table, id);
    } else {
      TotalUpdate(table, id, st, n - 1);
    }
  }

  lemma GrantKeeps(x: Session, id: Id, size: nat)
    requires Inv(x) && id in x.table && size <= x.window
    ensures Inv(Grant(x, id, size))
  {
    var st := x.table[id];
    TotalUpdate(x.table, id, st.(sendWindow := st.sendWindow - size, reserved := st.reserved + size), x.next);
    hide TotalReserved;
  }

  lemma ReserveKeeps(x: Session, id: Id, remaining: nat)
    requires Inv(x) && id in x.table
    ensures Inv(Reserve(x, id, remaining).0)
  {
    hide Inv, Grant;
    var st := x.table[id];
    if !st.finished && Available(x, st, remaining) > 0 { GrantKeeps(x, id, Available(x, st, remaining)); }
  }

  lemma WindowUpdateKeeps(x: Session, id: Id, increment: nat)
    requires Inv(x)
    ensures Inv(WindowUpdate(x, id, increment).0)
  {
    if id != 0 && Alive(x, id) {
      var st := x.table[id];
      TotalUpdate(x.table, id, st.(sendWindow := st.sendWindow + increment, credit := st.credit + increment), x.next);
    }
    hide TotalReserved;
  }

  lemma RebaseKeeps(x: Session, value: nat)
    requires Inv(x) && value <= MAX_WINDOW
    ensures Inv(Rebase(x, value))
  {
    SameTotal(x.table, Rebase(x, value).table, x.next);
    hide TotalReserved;
  }

  lemma ApplySettingKeeps(x: Session, s: Setting)
    requires Inv(x) && ValidSetting(s)
    ensures Inv(ApplySetting(x, s))
  {
    hide Rebase;
    if s.InitialWindow? { RebaseKeeps(x, s.value); }
  }

  lemma {:induction false} ApplySettingsKeeps(x: Session, settings: seq<Setting>)
    requires Inv(x)
    ensures Inv(ApplySettings(x, settings).0)
    decreases |settings|
  {
    if settings != [] {
      hide Inv, ApplySetting, ValidSetting;
      var front, s := settings[..|settings| - 1], settings[|settings| - 1];
      ApplySettingsKeeps(x, front);
      if ValidSetting(s) { ApplySettingKeeps(ApplySettings(x, front).0, s); }
    }
  }

  lemma ReaderKeeps(x: Session, reader: Reader)
    requires Inv(x)
    ensures Inv(x.(reader := reader))
  {
    SameBooksKeep(x, x.(reader := reader));
  }

  lemma HeadersBooks(x: Session, id: Id, d: M.Decoded, ended: bool, gunzip: M.Gunzip)
    ensures SameBooks(x, Headers(x, id, d, ended, gunzip))
  {
    hide M.Finalize, Finalized;
  }

  lemma DataBooks(x: Session, id: Id, data: seq<int>, ended: bool, gunzip: M.Gunzip)
    requires forall i | 0 <= i < |data| :: 0 <= data[i] < 256
    ensures SameBooks(x, DataFrame(x, id, data, ended, gunzip))
  {
    hide M.Finalize, Finalized;
  }

  // ----- every step, every run -----

  lemma ReadKeeps(x: Session, frame: Frame, gunzip: M.Gunzip)
    requires Inv(x)
    ensures Inv(Read(x, frame, gunzip))
  {
    hide Inv, Headers, DataFrame, GoAway, WindowUpdate, ApplySettings, M.Decode;
    match frame
    case OnHeaders(id, meta, ended) =>
      HeadersBooks(x, id, M.Decode(meta), ended, gunzip);
      SameBooksKeep(x, Headers(x, id, M.Decode(meta), ended, gunzip));
    case OnData(id, data, ended) =>
      DataBooks(x, id, data, ended, gunzip);
      SameBooksKeep(x, DataFrame(x, id, data, ended, gunzip));
    case OnReset(id) => ReaderKeeps(x, Failed(id, ResetError));
    case OnStreamError(id) => ReaderKeeps(x, Failed(id, ProtocolError));
    case OnGoAway(last) => GoAwayKeeps(x, last);
    case OnWindowUpdate(id, increment) =>
      WindowUpdateKeeps(x, id, increment);
      ReaderKeeps(WindowUpdate(x, id, increment).0, Failing(ProtocolError));
    case OnSettings(settings) =>
      ApplySettingsKeeps(x, settings);
      ReaderKeeps(ApplySettings(x, settings).0, Failing(ProtocolError));
    case OnPushPromise => ReaderKeeps(x, Failing(ProtocolError));
    case OnReadError(code) => ReaderKeeps(x, Failing(OtherError(code)));
    case OnOther =>
  }

  lemma StepKeeps(x: Session, step: Step, gunzip: M.Gunzip)
    requires Inv(x) && Enabled(x, step)
    ensures Inv(Next(x, step, gunzip))
  {
    hide Inv, Open, Reserve, Cancel, Shutdown, Read, FinishOne;
    match step
    case OpenStep => if CanOpen(x) { OpenKeeps(x); }
    case ReserveStep(id, remaining) => ReserveKeeps(x, id, remaining);
    case CancelStep(id, err) => CancelKeeps(x, id, err);
    case CloseStep(err) => ShutdownKeeps(x, err);
    case ReadStep(frame) => ReadKeeps(x, frame, gunzip);
    case FinishStep =>
      FinishOneKeeps(x, x.reader.id, x.reader.response, x.reader.err);
      ReaderKeeps(FinishOne(x, x.reader.id, x.reader.response, x.reader.err), Reading);
    case FailStep =>
      ShutdownKeeps(x, x.reader.why);
      ReaderKeeps(Shutdown(x, x.reader.why), Stopped);
  }

  lemma StartInv()
    ensures Inv(START)
  {
    assert TotalReserved(map[], 1) == 0;
  }

  lemma {:induction false} RunKeeps(states: seq<Session>, steps: seq<Step>, gunzip: M.Gunzip, n: nat)
    requires Run(states, steps, gunzip) && n < |states|
    ensures Inv(states[n])
  {
    hide Inv, Next, Enabled;
    if n == 0 {
      StartInv();
    } else {
      RunKeeps(states, steps, gunzip, n - 1);
      RunStep(states, steps, gunzip, n - 1);
      StepKeeps(states[n - 1], steps[n - 1], gunzip);
    }
  }

  /** Windows are exact in every reachable state, whatever the settings did. */
  lemma WindowsAreExact(states: seq<Session>, steps: seq<Step>, gunzip: M.Gunzip, n: nat)
    requires Run(states, steps, gunzip) && n < |states|
    ensures var x := states[n];
            && x.window == DEFAULT_WINDOW + x.credit - TotalReserved(x.table, x.next) && 0 <= x.window <= MAX_WINDOW
            && (forall id | id in x.live ::
                  id in x.table && x.table[id].sendWindow == x.initial + x.table[id].credit - x.table[id].reserved)
  {
    hide Run, TotalReserved, Odd, StreamOk;
    RunKeeps(states, steps, gunzip, n);
    var x := states[n];
    assert forall id | id in x.live :: id in x.table && StreamLedger(x.table[id], x.initial);
  }

  // ----- streams over time -----

  /** What one step may do to the streams: settled ones are untouched, ids only grow. */
  predicate Advances(x: Session, y: Session) {
    && x.next <= y.next
    && (forall id | id in x.table :: id in y.table)
    && (forall id | id in x.table && x.table[id].finished :: y.table[id] == x.table[id])
    && (x.goAway.Some? ==> y.goAway.Some? && y.goAway.value <= x.goAway.value && y.next == x.next)
    && (x.closeErr.Some? ==> y.closeErr == x.closeErr && y.next == x.next)
  }

  lemma FinishAdvances(x: Session, ids: set<Id>, response: Response, err: Option<Error>)
    requires Inv(x) && ids <= x.live
    ensures Advances(x, FinishAll(x, ids, response, err))
  {
    FinishOther(x, ids, response, err);
    FinishKeys(x, ids, response, err);
    hide FinishAll, TotalReserved, Odd;
    var y := FinishAll(x, ids, response, err);
    forall id | id in x.table ensures id in y.table && (x.table[id].finished ==> y.table[id] == x.table[id]) {
      assert id in y.table.Keys;
      assert StreamOk(x.table[id], id in x.live);
    }
  }

  lemma GoAwayAdvances(x: Session, last: nat)
    requires Inv(x)
    ensures Advances(x, GoAway(x, last))
  {
    var bound := Boundary(x, last);
    FinishAdvances(x, Beyond(x, bound), BLANK, Some(GoAwayError(bound)));
    hide FinishAll, Inv;
  }

  lemma SettingAdvances(x: Session, s: Setting)
    requires Inv(x)
    ensures Advances(x, ApplySetting(x, s))
  {
    hide TotalReserved, Odd;
    assert forall id | id in x.table :: StreamOk(x.table[id], id in x.live);
  }

  lemma AdvancesOn(x: Session, y: Session, z: Session)
    requires Advances(x, y) && Advances(y, z)
    ensures Advances(x, z)
  {
  }

  lemma {:induction false} SettingsAdvance(x: Session, settings: seq<Setting>)
    requires Inv(x)
    ensures Advances(x, ApplySettings(x, settings).0)
    decreases |settings|
  {
    if settings != [] {
      hide Inv, ApplySetting, ValidSetting, Advances;
      var front, s := settings[..|settings| - 1], settings[|settings| - 1];
      var y := ApplySettings(x, front).0;
      SettingsAdvance(x, front);
      ApplySettingsKeeps(x, front);
      SettingAdvances(y, s);
      AdvancesOn(x, y, ApplySetting(y, s));
    } else {
      hide Inv;
    }
  }

  lemma DeliveryAdvances(x: Session, frame: Frame, gunzip: M.Gunzip)
    requires frame.OnHeaders? || frame.OnData?
    ensures Advances(x, Read(x, frame, gunzip))
  {
    hide M.Decode, TakeHead, TakeData;
  }

  lemma ReadAdvances(x: Session, frame: Frame, gunzip: M.Gunzip)
    requires Inv(x)
    ensures Advances(x, Read(x, frame, gunzip))
  {
    match frame
    case OnHeaders(_, _, _) => DeliveryAdvances(x, frame, gunzip);
    case OnData(_, _, _) => DeliveryAdvances(x, frame, gunzip);
    case OnGoAway(last) => GoAwayAdvances(x, last);
    case OnSettings(settings) => SettingsAdvance(x, settings);
    case _ =>
    hide Inv, Headers, DataFrame, GoAway, ApplySettings;
  }

  lemma StepAdvances(x: Session, step: Step, gunzip: M.Gunzip)
    requires Inv(x) && Enabled(x, step)
    ensures Advances(x, Next(x, step, gunzip))
  {
    hide FinishAll, Read, Ledger, Numbered, Drained;
    match step
    case CancelStep(id, err) =>
      assert StreamOk(x.table[id], id in x.live);
      if !x.table[id].finished { FinishAdvances(x, {id}, BLANK, Some(err)); }
    case CloseStep(err) => FinishAdvances(x, x.live, BLANK, Some(err));
    case FailStep => FinishAdvances(x, x.live, BLANK, Some(x.reader.why));
    case FinishStep =>
      var r := x.reader;
      if Alive(x, r.id) { FinishAdvances(x, {r.id}, r.response, r.err); }
    case ReadStep(frame) => ReadAdvances(x, frame, gunzip);
    case _ => assert x.next !in x.table by { NextIsNew(x); }
  }

  lemma NextIsNew(x: Session)
    requires Inv(x)
    ensures x.next !in x.table
  {
    hide Registered, Ledger, Drained;
  }

  lemma {:induction false} RunAdvances(states: seq<Session>, steps: seq<Step>, gunzip: M.Gunzip, m: nat, n: nat)
    requires Run(states, steps, gunzip) && m <= n < |states|
    ensures Advances(states[m], states[n])
  {
    if m < n {
      hide Inv, Next, Enabled, Advances, Run;
      RunAdvances(states, steps, gunzip, m, n - 1);
      RunKeeps(states, steps, gunzip, n - 1);
      RunStep(states, steps, gunzip, n - 1);
      StepAdvances(states[n - 1], steps[n - 1], gunzip);
      AdvancesOn(states[m], states[n - 1], states[n]);
    } else {
      hide Run;
    }
  }

  /** Ids are odd, bounded and below the next one; a stream is live exactly while unfinished; settling is final. */
  lemma StreamsSettleOnce(states: seq<Session>, steps: seq<Step>, gunzip: M.Gunzip, m: nat, n: nat, id: Id)
    requires Run(states, steps, gunzip) && m <= n < |states| && id in states[m].table
    ensures Odd(id) && id <= MAX_STREAM_ID && id < states[m].next
    ensures var st := states[m].table[id];
            && (id in states[m].live <==> !st.finished) && st.closes == (if st.finished then 1 else 0)
            && id in states[n].table && (st.finished ==> states[n].table[id] == st)
  {
    hide Run, TotalReserved;
    RunKeeps(states, steps, gunzip, m);
    RunAdvances(states, steps, gunzip, m, n);
    assert StreamOk(states[m].table[id], id in states[m].live);
    OddBound(id, states[m].next);
    hide Odd;
  }

  lemma OddBound(id: Id, next: nat)
    requires Odd(id) && Odd(next) && id < next <= MAX_STREAM_ID + 2
    ensures id <= MAX_STREAM_ID
  {
  }

  /**
   After a GOAWAY no stream is opened and none above the smallest boundary stays live;
   after shutdown none is live.
   */
  lemma DrainingOpensNothing(states: seq<Session>, steps: seq<Step>, gunzip: M.Gunzip, m: nat, n: nat)
    requires Run(states, steps, gunzip) && m <= n < |states|
    ensures states[m].goAway.Some? || states[m].closeErr.Some? ==> states[n].next == states[m].next
    ensures forall id, last | id in states[n].live && last in states[n].goAways :: id <= last
    ensures states[m].goAways != [] ==> states[m].goAway.Some?
    ensures states[m].closeErr.Some? ==> states[n].live == {}
  {
    hide Run, TotalReserved, Odd, StreamOk;
    RunKeeps(states, steps, gunzip, m);
    RunKeeps(states, steps, gunzip, n);
    RunAdvances(states, steps, gunzip, m, n);
  }
}
