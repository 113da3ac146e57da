/** A waiter whose epoch is still current waits for something that has not happened. */
module Http2Wakeups {
  import opened Http1Message
  import opened Wrappers
  import opened Http2Session
  import opened Http2Invariant
  import M = Http2Message

  /** A sender with bytes left finds no room. */
  predicate SendBlocked(x: Session, id: Id, remaining: nat) {
    id in x.table && !x.table[id].finished && Available(x, x.table[id], remaining) <= 0
  }

  /** A request finds every stream slot taken. */
  predicate OpenBlocked(x: Session) {
    x.closeErr.None? && x.goAway.None? && x.next <= MAX_STREAM_ID && |x.live| >= x.maxConcurrent
  }

  // ----- flow control -----

  /** Unless the flow epoch moved, no window grew and no stream finished. */
  predicate NoMoreRoom(x: Session, y: Session) {
    && x.flowEpoch <= y.flowEpoch
    && (x.flowEpoch == y.flowEpoch ==>
          && y.window <= x.window
          && forall id | id in x.table ::
               && id in y.table && y.table[id].sendWindow <= x.table[id].sendWindow
               && y.table[id].finished == x.table[id].finished)
  }

  lemma RoomOn(x: Session, y: Session, z: Session)
    requires NoMoreRoom(x, y) && NoMoreRoom(y, z)
    ensures NoMoreRoom(x, z)
  {
  }

  lemma FinishRoom(x: Session, ids: set<Id>, response: Response, err: Option<Error>)
    ensures NoMoreRoom(x, FinishAll(x, ids, response, err))
  {
    FinishOther(x, ids, response, err);
    if |ids| == 0 {
      assert ids == {};
      assert FinishAll(x, ids, response, err).table == x.table;
    }
    hide FinishAll;
  }

  lemma {:induction false} SettingsRoom(x: Session, settings: seq<Setting>)
    ensures NoMoreRoom(x, ApplySettings(x, settings).0)
    decreases |settings|
  {
    if settings != [] {
      var front, s := settings[..|settings| - 1], settings[|settings| - 1];
      var y := ApplySettings(x, front).0;
      SettingsRoom(x, front);
      assert NoMoreRoom(y, ApplySetting(y, s));
      hide ApplySetting, ValidSetting, NoMoreRoom;
      RoomOn(x, y, ApplySetting(y, s));
    }
  }

  lemma BooksRoom(x: Session, y: Session)
    requires SameBooks(x, y) && x.flowEpoch <= y.flowEpoch
    ensures NoMoreRoom(x, y)
  {
    forall id | id in x.table ensures id in y.table && SameStreamBooks(x.table[id], y.table[id]) {
      assert id in y.table.Keys;
    }
  }

  lemma ReadRoom(x: Session, frame: Frame, gunzip: M.Gunzip)
    requires Inv(x)
    ensures NoMoreRoom(x, Read(x, frame, gunzip))
  {
    hide Inv, M.Decode, ApplySettings, TakeHead, TakeData;
    match frame
    case OnGoAway(last) =>
      FinishRoom(x, Beyond(x, Boundary(x, last)), BLANK, Some(GoAwayError(Boundary(x, last))));
      hide FinishAll;
    case OnSettings(settings) => SettingsRoom(x, settings);
    case OnHeaders(id, meta, ended) =>
      HeadersBooks(x, id, M.Decode(meta), ended, gunzip);
      BooksRoom(x, Headers(x, id, M.Decode(meta), ended, gunzip));
    case OnData(id, data, ended) =>
      DataBooks(x, id, data, ended, gunzip);
      BooksRoom(x, DataFrame(x, id, data, ended, gunzip));
    case _ =>
  }

  lemma OpenRoom(x: Session)
    requires x.next !in x.table
    ensures NoMoreRoom(x, Acquire(x).0)
  {
  }

  lemma ReserveRoom(x: Session, id: Id, remaining: nat)
    requires id in x.table
    ensures NoMoreRoom(x, Reserve(x, id, remaining).0)
  {
    hide Available;
  }

  lemma StepRoom(x: Session, step: Step, gunzip: M.Gunzip)
    requires Inv(x) && Enabled(x, step)
    ensures NoMoreRoom(x, Next(x, step, gunzip))
  {
    NextIsNew(x);
    hide Inv, FinishAll, Read, Acquire, Reserve;
    match step
    case OpenStep => OpenRoom(x);
    case ReserveStep(id, remaining) => ReserveRoom(x, id, remaining);
    case CancelStep(id, err) => FinishRoom(x, {id}, BLANK, Some(err));
    case CloseStep(err) => FinishRoom(x, x.live, BLANK, Some(err));
    case FailStep => FinishRoom(x, x.live, BLANK, Some(x.reader.why));
    case FinishStep => FinishRoom(x, {x.reader.id}, x.reader.response, x.reader.err);
    case ReadStep(frame) => ReadRoom(x, frame, gunzip);
  }

  lemma {:induction false} RunRoom(states: seq<Session>, steps: seq<Step>, gunzip: M.Gunzip, m: nat, n: nat)
    requires Run(states, steps, gunzip) && m <= n < |states|
    ensures NoMoreRoom(states[m], states[n])
  {
    if m < n {
      hide Inv, Next, Enabled, NoMoreRoom, Run;
      RunRoom(states, steps, gunzip, m, n - 1);
      RunKeeps(states, steps, gunzip, n - 1);
      RunStep(states, steps, gunzip, n - 1);
      StepRoom(states[n - 1], steps[n - 1], gunzip);
      RoomOn(states[m], states[n - 1], states[n]);
    } else {
      hide Run;
    }
  }

  /** No lost flow wakeup: a sender that found no room still has none while its epoch is current. */
  lemma SendersAreWoken(states: seq<Session>, steps: seq<Step>, gunzip: M.Gunzip, m: nat, n: nat, id: Id,
                        remaining: nat)
    requires Run(states, steps, gunzip) && m <= n < |states| && remaining > 0
    requires SendBlocked(states[m], id, remaining) && states[n].flowEpoch == states[m].flowEpoch
    ensures SendBlocked(states[n], id, remaining)
  {
    RunRoom(states, steps, gunzip, m, n);
    RunKeeps(states, steps, gunzip, m);
    hide Run, TotalReserved, Registered, Numbered, Drained;
  }

  // ----- admission -----

  /** Unless the admission epoch moved or the session closed, a full session stays full. */
  predicate StaysFull(x: Session, y: Session) {
    && x.admissionEpoch <= y.admissionEpoch
    && (x.admissionEpoch == y.admissionEpoch && y.closeErr.None? && OpenBlocked(x) ==> OpenBlocked(y))
  }

  lemma FinishFull(x: Session, ids: set<Id>, response: Response, err: Option<Error>)
    ensures StaysFull(x, FinishAll(x, ids, response, err))
  {
    FinishOther(x, ids, response, err);
    if |ids| == 0 {
      assert ids == {};
      assert x.live - ids == x.live;
    }
    hide FinishAll;
  }

  lemma {:induction false} SettingsFull(x: Session, settings: seq<Setting>)
    ensures StaysFull(x, ApplySettings(x, settings).0) && ApplySettings(x, settings).0.closeErr == x.closeErr
    decreases |settings|
  {
    if settings != [] {
      SettingsFull(x, settings[..|settings| - 1]);
    }
  }

  lemma ReadFull(x: Session, frame: Frame, gunzip: M.Gunzip)
    ensures StaysFull(x, Read(x, frame, gunzip)) && Read(x, frame, gunzip).closeErr == x.closeErr
  {
    hide M.Decode, ApplySettings, TakeHead, TakeData;
    match frame
    case OnGoAway(last) =>
      FinishFull(x, Beyond(x, Boundary(x, last)), BLANK, Some(GoAwayError(Boundary(x, last))));
    case OnSettings(settings) => SettingsFull(x, settings);
    case _ =>
  }

  lemma StepFull(x: Session, step: Step, gunzip: M.Gunzip)
    requires Enabled(x, step)
    ensures StaysFull(x, Next(x, step, gunzip))
    ensures x.closeErr.Some? ==> Next(x, step, gunzip).closeErr.Some?
  {
    hide FinishAll, Read;
    match step
    case CancelStep(id, err) => FinishFull(x, {id}, BLANK, Some(err)); FinishOther(x, {id}, BLANK, Some(err));
    case CloseStep(err) => FinishFull(x, x.live, BLANK, Some(err));
    case FailStep => FinishFull(x, x.live, BLANK, Some(x.reader.why));
    case FinishStep =>
      FinishFull(x, {x.reader.id}, x.reader.response, x.reader.err);
      FinishOther(x, {x.reader.id}, x.reader.response, x.reader.err);
    case ReadStep(frame) => ReadFull(x, frame, gunzip);
    case _ =>
  }

  lemma {:induction false} RunFull(states: seq<Session>, steps: seq<Step>, gunzip: M.Gunzip, m: nat, n: nat)
    requires Run(states, steps, gunzip) && m <= n < |states|
    ensures StaysFull(states[m], states[n])
    ensures states[m].closeErr.Some? ==> states[n].closeErr.Some?
  {
    if m < n {
      hide Next, Enabled, OpenBlocked, Run;
      RunFull(states, steps, gunzip, m, n - 1);
      RunStep(states, steps, gunzip, n - 1);
      StepFull(states[n - 1], steps[n - 1], gunzip);
    } else {
      hide Run;
    }
  }

  /** No lost admission wakeup: while its epoch is current and the session is open, a waiting request finds no slot. */
  lemma RequestsAreWoken(states: seq<Session>, steps: seq<Step>, gunzip: M.Gunzip, m: nat, n: nat)
    requires Run(states, steps, gunzip) && m <= n < |states|
    requires OpenBlocked(states[m]) && states[n].admissionEpoch == states[m].admissionEpoch && states[n].closeErr.None?
    ensures OpenBlocked(states[n]) && Acquire(states[n]).1 == OpenWaits
  {
    RunFull(states, steps, gunzip, m, n);
    hide Run;
  }
}
