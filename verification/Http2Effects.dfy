/** What each step of a session does, stream by stream, and what the read loop makes of each frame. */
module Http2Effects {
  import opened Bytes
  import opened Http1Message
  import opened Http2Exchange
  import opened Http2Session
  import opened Wrappers
  import I = Http2Invariant
  import M = Http2Message
  import X = Http2Exchange

  // ----- verdicts on response frames -----

  /** The data so far keeps to the declared length. */
  predicate InLength(st: Stream) {
    st.headersReceived && st.expected.Some? ==> |st.response.body| <= st.expected.value
  }

  /** The frames form a response whose data are above 1 MiB, or which turns out too large when it is finalized. */
  predicate Oversize(seen: seq<Seen>, n: nat, gunzip: M.Gunzip) {
    && Interims(seen, n) && X.Body(seen, n)
    && var wire := Wire(seen[n + 1..]);
       || |wire| > 1_048_576
       || (&& Ends(seen[|seen| - 1]) && (seen[n].expected.Some? ==> |wire| == seen[n].expected.value)
           && M.Finalize(seen[n].status, seen[n].headers, wire, gunzip) == M.Unusable(M.TooLarge))
  }

  /** The exact verdict on what a stream has seen: go on, a response, too large, or malformed. */
  ghost predicate Verdict(t: Stream, id: Id, reader: Reader, gunzip: M.Gunzip) {
    && (reader.Reading? <==> Clean(t) && InLength(t))
    && (forall r: Response :: reader == Finishing(id, r, None) <==> Complete(t.seen, t.informational, r, gunzip))
    && (reader == Finishing(id, BLANK, Some(TooLargeError)) <==> Oversize(t.seen, t.informational, gunzip))
    && (|| reader.Reading?
        || (reader.Finishing? && reader.id == id && reader.err.None?)
        || reader == Finishing(id, BLANK, Some(TooLargeError))
        || reader == Finishing(id, BLANK, Some(ProtocolError)))
  }

  /** Only what belongs to the response changes, and the frame is the next one seen. */
  predicate OnlyTaken(st: Stream, t: Stream, s: Seen) {
    t == st.(seen := st.seen + [s], headersReceived := t.headersReceived, response := t.response,
             expected := t.expected, informational := t.informational)
  }

  lemma EmptyWire(seen: seq<Seen>, h: Seen)
    ensures (seen + [h])[|seen| + 1..] == [] && Wire((seen + [h])[|seen| + 1..]) == []
  {
  }

  lemma InterimExactly(st: Stream, id: Id, h: Seen, gunzip: M.Gunzip)
    requires Clean(st) && InLength(st) && h.Head? && 100 <= h.status < 200
    ensures var (t, reader) := TakeHead(st, id, h, gunzip);
            OnlyTaken(st, t, h) && Verdict(t, id, reader, gunzip)
  {
    hide M.Finalize, Wire;
    var (t, reader) := TakeHead(st, id, h, gunzip);
    assert t.seen[|st.seen|] == h;
  }

  lemma FinalExactly(st: Stream, id: Id, h: Seen, gunzip: M.Gunzip)
    requires Clean(st) && InLength(st) && h.Head? && !(100 <= h.status < 200)
    ensures var (t, reader) := TakeHead(st, id, h, gunzip);
            OnlyTaken(st, t, h) && Verdict(t, id, reader, gunzip)
  {
    EmptyWire(st.seen, h);
    hide M.Finalize, Wire;
    var (t, reader) := TakeHead(st, id, h, gunzip);
    assert t.seen[|st.seen|] == h;
  }

  /** A header block on a stream that is well so far. */
  lemma HeadExactly(st: Stream, id: Id, h: Seen, gunzip: M.Gunzip)
    requires Clean(st) && InLength(st) && h.Head?
    ensures var (t, reader) := TakeHead(st, id, h, gunzip);
            OnlyTaken(st, t, h) && Verdict(t, id, reader, gunzip)
  {
    hide *;
    if 100 <= h.status < 200 { InterimExactly(st, id, h, gunzip); } else { FinalExactly(st, id, h, gunzip); }
  }

  /** A DATA frame on a stream that is well so far. */
  lemma DataExactly(st: Stream, id: Id, d: Seen, gunzip: M.Gunzip)
    requires Clean(st) && InLength(st) && d.Data?
    ensures var (t, reader) := TakeData(st, id, d, gunzip);
            OnlyTaken(st, t, d) && Verdict(t, id, reader, gunzip)
  {
    hide M.Finalize, Wire;
    if st.headersReceived {
      WireAppend(st.seen, st.informational, d);
      BodyAppend(st.seen, st.informational, d);
      assert (st.seen + [d])[st.informational] == st.seen[st.informational];
    }
    hide X.Body, Interims;
  }

  // ----- streams a step leaves alone -----

  /** The step may change this stream. */
  predicate Touches(x: Session, step: Step, id: Id) {
    match step
    case OpenStep => false
    case ReserveStep(which, _) => which == id
    case CancelStep(which, _) => which == id
    case CloseStep(_) => id in x.live
    case FailStep => id in x.live
    case FinishStep => x.reader.Finishing? && x.reader.id == id
    case ReadStep(OnHeaders(which, _, _)) => which == id
    case ReadStep(OnData(which, _, _)) => which == id
    case ReadStep(OnGoAway(last)) => id in x.live && id > last
    case ReadStep(OnWindowUpdate(which, _)) => which == id
    case ReadStep(OnSettings(settings)) => id in x.live && exists s | s in settings :: s.InitialWindow?
    case ReadStep(_) => false
  }

  lemma FinishSpares(x: Session, ids: set<Id>, response: Response, err: Option<Error>, id: Id)
    requires id in x.table && id !in ids
    ensures var y := FinishAll(x, ids, response, err); id in y.table && y.table[id] == x.table[id]
  {
  }

  lemma {:induction false} SettingsSpare(x: Session, settings: seq<Setting>, id: Id)
    requires id in x.table && (id in x.live ==> forall s | s in settings :: !s.InitialWindow?)
    ensures var y := ApplySettings(x, settings).0; id in y.table && y.table[id] == x.table[id] && y.live == x.live
    decreases |settings|
  {
    if settings != [] { SettingsSpare(x, settings[..|settings| - 1], id); }
  }

  lemma GoAwaySpares(x: Session, last: nat, id: Id)
    requires id in x.table && (id in x.live ==> id <= last && (x.goAway.Some? ==> id <= x.goAway.value))
    ensures var y := GoAway(x, last); id in y.table && y.table[id] == x.table[id]
  {
    var bound := Boundary(x, last);
    FinishSpares(x, Beyond(x, bound), BLANK, Some(GoAwayError(bound)), id);
    hide FinishAll;
  }

  lemma ReadSpares(x: Session, frame: Frame, gunzip: M.Gunzip, id: Id)
    requires id in x.table && !Touches(x, ReadStep(frame), id)
    requires id in x.live && x.goAway.Some? ==> id <= x.goAway.value
    ensures var y := Read(x, frame, gunzip); id in y.table && y.table[id] == x.table[id]
  {
    hide GoAway, ApplySettings, M.Decode, TakeHead, TakeData;
    match frame
    case OnGoAway(last) => GoAwaySpares(x, last, id);
    case OnSettings(settings) => SettingsSpare(x, settings, id);
    case _ =>
  }

  /** A step changes the streams it is about and no other. */
  lemma OthersUntouched(x: Session, step: Step, gunzip: M.Gunzip, id: Id)
    requires I.Inv(x) && Enabled(x, step) && id in x.table && !Touches(x, step, id)
    ensures var y := Next(x, step, gunzip); id in y.table && y.table[id] == x.table[id]
  {
    I.NextIsNew(x);
    LiveBelow(x, id);
    hide I.Inv, FinishAll, Read, Available;
    match step
    case CancelStep(which, err) => FinishSpares(x, {which}, BLANK, Some(err), id);
    case CloseStep(err) => FinishSpares(x, x.live, BLANK, Some(err), id);
    case FailStep => FinishSpares(x, x.live, BLANK, Some(x.reader.why), id);
    case FinishStep => FinishSpares(x, {x.reader.id}, x.reader.response, x.reader.err, id);
    case ReadStep(frame) => ReadSpares(x, frame, gunzip, id);
    case _ =>
  }

  lemma LiveBelow(x: Session, id: Id)
    requires I.Inv(x)
    ensures id in x.live && x.goAway.Some? ==> id <= x.goAway.value
  {
  }

  // ----- windows -----

  /** Opening a stream needs an open session, no GOAWAY, an identifier left and a free slot. */
  lemma OpensExactly(x: Session)
    requires I.Inv(x)
    ensures var (y, r) := Acquire(x);
            && (r == Opened(x.next) <==>
                  x.closeErr.None? && x.goAway.None? && x.next <= 2_147_483_647 && |x.live| < x.maxConcurrent)
            && (r == OpenWaits <==>
                  x.closeErr.None? && x.goAway.None? && x.next <= 2_147_483_647 && |x.live| >= x.maxConcurrent)
            && (x.closeErr.Some? ==> r == NotOpened(x.closeErr.value))
            && (x.closeErr.None? && x.goAway.Some? ==> r == NotOpened(GoAwayError(x.goAway.value)))
            && (x.closeErr.None? && x.goAway.None? && x.next > 2_147_483_647 ==> r == NotOpened(SessionClosed))
            && (if r.Opened? then
                  && x.next !in x.table && y.next == x.next + 2 && y.live == x.live + {x.next}
                  && y.table == x.table[x.next := NewStream(x.initial)]
                  && y == x.(table := y.table, live := y.live, next := y.next)
                else y == x)
  {
    I.NextIsNew(x);
    hide I.Inv;
  }

  /** The four bounds on one DATA frame; a grant is the least of them. */
  predicate Bounds(x: Session, st: Stream, remaining: nat, size: int) {
    size <= remaining && size <= x.maxFrame && size <= x.window && size <= st.sendWindow
  }

  /** A grant takes as much as all bounds allow out of both windows, and there is none if that is nothing. */
  lemma ReservesExactly(x: Session, id: Id, remaining: nat, size: int)
    requires id in x.table
    ensures var st := x.table[id];
            var (y, r) := Reserve(x, id, remaining);
            && (r == SendEnded(st.err) <==> st.finished)
            && (r == SendWaits <==> !st.finished && !Bounds(x, st, remaining, 1))
            && (size > 0 && r == Granted(size) <==>
                  !st.finished && size > 0 && Bounds(x, st, remaining, size) && !Bounds(x, st, remaining, size + 1))
    ensures var st := x.table[id];
            var (y, r) := Reserve(x, id, remaining);
            if r.Granted? then
              && y.window == x.window - r.size && y.reserved == x.reserved + r.size
              && y.table == x.table[id := st.(sendWindow := st.sendWindow - r.size, reserved := st.reserved + r.size)]
              && y == x.(window := y.window, reserved := y.reserved, table := y.table)
            else y == x
  {
  }

  /** A WINDOW_UPDATE adds to one window, unless that would leave the range. */
  lemma CreditsExactly(x: Session, id: Id, increment: nat)
    ensures var (y, bad) := WindowUpdate(x, id, increment);
            && (bad <==> (id == 0 && x.window + increment > 2_147_483_647)
                         || (id != 0 && Alive(x, id) && x.table[id].sendWindow + increment > 2_147_483_647))
            && (if bad then y == x else
                  && y.flowEpoch == x.flowEpoch + 1
                  && y == x.(flowEpoch := y.flowEpoch, window := y.window, credit := y.credit, table := y.table)
                  && y.window == (if id == 0 then x.window + increment else x.window)
                  && y.credit == (if id == 0 then x.credit + increment else x.credit)
                  && if id != 0 && Alive(x, id) then
                       y.table == x.table[id := x.table[id].(sendWindow := x.table[id].sendWindow + increment,
                                                             credit := x.table[id].credit + increment)]
                     else y.table == x.table)
  {
  }

  // ----- settings -----

  predicate Legal(s: Setting) {
    match s
    case InitialWindow(v) => v <= 2_147_483_647
    case MaxFrameSize(v) => 16_384 <= v <= 16_777_215
    case MaxConcurrent(v) => v <= 4_294_967_295
    case OtherSetting(ok) => ok
  }

  /** The last initial window a list sets, and likewise for the other settings. */
  function InitialIn(settings: seq<Setting>, was: int): int {
    if settings == [] then was
    else
      var s := settings[|settings| - 1];
      if s.InitialWindow? then s.value else InitialIn(settings[..|settings| - 1], was)
  }

  function FrameIn(settings: seq<Setting>, was: int): int {
    if settings == [] then was
    else
      var s := settings[|settings| - 1];
      if s.MaxFrameSize? then s.value else FrameIn(settings[..|settings| - 1], was)
  }

  function ConcurrentIn(settings: seq<Setting>, was: nat): nat {
    if settings == [] then was
    else
      var s := settings[|settings| - 1];
      if s.MaxConcurrent? then s.value else ConcurrentIn(settings[..|settings| - 1], was)
  }

  /** Live streams keep their distance from the initial window; the others keep their windows. */
  predicate Rebased(x: Session, y: Session) {
    && y.table.Keys == x.table.Keys
    && forall id | id in x.table ::
         y.table[id] == x.table[id].(sendWindow := x.table[id].sendWindow
                                                   + if id in x.live then y.initial - x.initial else 0)
  }

  /** A list of legal settings: the last one of each kind counts. */
  lemma {:induction false} SettingsExactly(x: Session, settings: seq<Setting>)
    requires forall s | s in settings :: Legal(s)
    ensures var (y, bad) := ApplySettings(x, settings);
            && !bad && y.initial == InitialIn(settings, x.initial) && y.maxFrame == FrameIn(settings, x.maxFrame)
            && y.maxConcurrent == ConcurrentIn(settings, x.maxConcurrent)
            && Rebased(x, y) && y.live == x.live && y.window == x.window && y.next == x.next
            && y.closeErr == x.closeErr && y.goAway == x.goAway && y.reader == x.reader
    decreases |settings|
  {
    if settings != [] {
      var front := settings[..|settings| - 1];
      SettingsExactly(x, front);
      assert settings[|settings| - 1] in settings;
      var y := ApplySettings(x, front).0;
      RebasedOn(x, y, settings[|settings| - 1]);
    }
  }

  lemma RebasedOn(x: Session, y: Session, s: Setting)
    requires Rebased(x, y) && y.live == x.live
    ensures Rebased(x, ApplySetting(y, s))
  {
    var z := ApplySetting(y, s);
    assert z.table.Keys == y.table.Keys;
    forall id | id in x.table
      ensures z.table[id] == x.table[id].(sendWindow := x.table[id].sendWindow
                                                        + if id in x.live then z.initial - x.initial else 0)
    {
      assert id in y.table.Keys && id in z.table.Keys;
    }
  }

  /** An illegal setting stops the list: those before it count, it and those after it do not. */
  lemma {:induction false} IllegalStops(x: Session, settings: seq<Setting>, n: nat)
    requires n < |settings| && !Legal(settings[n]) && forall s | s in settings[..n] :: Legal(s)
    ensures ApplySettings(x, settings) == (ApplySettings(x, settings[..n]).0, true)
    decreases |settings|
  {
    var front := settings[..|settings| - 1];
    if n < |front| {
      assert front[..n] == settings[..n];
      IllegalStops(x, front, n);
    } else {
      assert settings[..n] == front;
      SettingsExactly(x, front);
    }
  }

  // ----- the read loop -----

  /** The frame ends the session. */
  predicate Fatal(x: Session, frame: Frame) {
    match frame
    case OnPushPromise => true
    case OnReadError(_) => true
    case OnWindowUpdate(id, increment) =>
      || (id == 0 && x.window + increment > 2_147_483_647)
      || (id != 0 && Alive(x, id) && x.table[id].sendWindow + increment > 2_147_483_647)
    case OnSettings(settings) => exists s | s in settings :: !Legal(s)
    case _ => false
  }

  /** A block that cannot be decoded fails its stream for what is wrong; frames for streams not live are ignored. */
  lemma StrayFrames(x: Session, frame: Frame, gunzip: M.Gunzip)
    requires x.reader.Reading?
    ensures var y := Read(x, frame, gunzip);
            && (frame.OnHeaders? && M.Decode(frame.meta) == M.Undecodable(M.TooLarge) ==>
                  y.reader == Finishing(frame.id, BLANK, Some(TooLargeError)))
            && (frame.OnHeaders? && M.Decode(frame.meta) == M.Undecodable(M.Protocol) ==>
                  y.reader == Finishing(frame.id, BLANK, Some(ProtocolError)))
            && (frame.OnHeaders? && M.Decode(frame.meta).Decoded? && !Alive(x, frame.id) ==> y == x)
            && (frame.OnData? && !Alive(x, frame.id) ==> y == x)
  {
    hide M.Decode, M.Finalize, FinishAll, ApplySettings;
  }

  /** The read loop gives up on exactly these frames, and a reset ends the one stream with the error that it means. */
  lemma ReadsExactly(x: Session, frame: Frame, gunzip: M.Gunzip)
    requires x.reader.Reading?
    ensures var y := Read(x, frame, gunzip);
            && (y.reader.Failing? <==> Fatal(x, frame))
            && (y.reader.Failing? ==>
                  y.reader.why == if frame.OnReadError? then OtherError(frame.code) else ProtocolError)
            && (frame.OnReset? ==> y == x.(reader := Finishing(frame.id, BLANK, Some(ResetError))))
            && (frame.OnStreamError? ==> y == x.(reader := Finishing(frame.id, BLANK, Some(ProtocolError))))
            && (frame.OnGoAway? || frame.OnOther? ==> y.reader.Reading?) && (frame.OnOther? ==> y == x)
            && (y.reader.Finishing? ==> frame.OnHeaders? || frame.OnData? || frame.OnReset? || frame.OnStreamError?)
  {
    hide M.Decode, M.Finalize, FinishAll, ApplySettings, Legal;
    match frame
    case OnSettings(settings) => BadSettings(x, settings);
    case OnWindowUpdate(id, increment) => CreditsExactly(x, id, increment);
    case OnGoAway(last) => GoAwayUndisturbed(x, last);
    case _ =>
  }

  lemma BadSettings(x: Session, settings: seq<Setting>)
    ensures var (y, bad) := ApplySettings(x, settings);
            (bad <==> exists s | s in settings :: !Legal(s)) && y.reader == x.reader
  {
    hide ApplySettings, Legal, Rebased;
    SettingsUndisturbed(x, settings);
    if exists s | s in settings :: !Legal(s) {
      var n := FirstIllegal(settings);
      IllegalStops(x, settings, n);
    } else {
      SettingsExactly(x, settings);
    }
  }

  lemma {:induction false} FirstIllegal(settings: seq<Setting>) returns (n: nat)
    requires exists s | s in settings :: !Legal(s)
    ensures n < |settings| && !Legal(settings[n]) && forall s | s in settings[..n] :: Legal(s)
    decreases |settings|
  {
    hide Legal;
    var front := settings[..|settings| - 1];
    if exists s | s in front :: !Legal(s) {
      n := FirstIllegal(front);
      assert front[..n] == settings[..n];
    } else {
      n := |settings| - 1;
      assert settings == front + [settings[n]];
    }
  }

  // ----- over runs -----

  /** Every stream that is still waiting for its response is within its declared length. */
  predicate InLengths(x: Session) {
    forall id | id in x.table && !x.table[id].finished && !(x.reader.Finishing? && x.reader.id == id) ::
      InLength(x.table[id])
  }

  lemma UndisturbedLengths(x: Session, y: Session)
    requires InLengths(x) && Undisturbed(x, y)
    ensures InLengths(y)
  {
    forall id | id in y.table && !y.table[id].finished && !(y.reader.Finishing? && y.reader.id == id)
      ensures InLength(y.table[id])
    {
      assert id in x.table.Keys;
    }
  }

  /** A new verdict concerns the stream it names; the streams before it are as they were. */
  lemma ReaderLengths(x: Session, reader: Reader)
    requires InLengths(x) && x.reader.Reading?
    ensures InLengths(x.(reader := reader))
  {
  }

  lemma DeliverLengths(x: Session, id: Id, taken: (Stream, Reader))
    requires InLengths(x) && x.reader.Reading?
    requires taken.1.Reading? ==> InLength(taken.0)
    requires taken.1.Reading? || (taken.1.Finishing? && taken.1.id == id)
    ensures InLengths(Deliver(x, id, taken))
  {
  }

  lemma HeadersLengths(x: Session, id: Id, d: M.Decoded, ended: bool, gunzip: M.Gunzip)
    requires InLengths(x) && Exchanges(x, gunzip) && x.reader.Reading?
    ensures InLengths(Headers(x, id, d, ended, gunzip))
  {
    hide InLengths, TakeHead, Exchanges, InLength;
    if d.Decoded? && Alive(x, id) {
      WaitingStream(x, id, gunzip);
      var h := Head(d.status, d.headers, d.expected, ended);
      HeadExactly(x.table[id], id, h, gunzip);
      DeliverLengths(x, id, TakeHead(x.table[id], id, h, gunzip));
    } else if d.Undecodable? {
      ReaderLengths(x, Failed(id, ErrorOf(d.why)));
      if Alive(x, id) {
        var st := x.table[id].(seen := x.table[id].seen + [Malformed]);
        DeliverLengths(x, id, (st, Failed(id, ErrorOf(d.why))));
      }
    }
  }

  lemma DataLengths(x: Session, id: Id, data: Text, ended: bool, gunzip: M.Gunzip)
    requires InLengths(x) && Exchanges(x, gunzip) && x.reader.Reading?
    ensures InLengths(DataFrame(x, id, data, ended, gunzip))
  {
    hide InLengths, TakeData, Exchanges, InLength;
    if Alive(x, id) {
      WaitingStream(x, id, gunzip);
      DataExactly(x.table[id], id, Data(data, ended), gunzip);
      DeliverLengths(x, id, TakeData(x.table[id], id, Data(data, ended), gunzip));
    }
  }

  lemma WaitingStream(x: Session, id: Id, gunzip: M.Gunzip)
    requires InLengths(x) && Exchanges(x, gunzip) && x.reader.Reading? && Alive(x, id)
    ensures Clean(x.table[id]) && InLength(x.table[id])
  {
    AliveClean(x, id, gunzip);
  }

  lemma ReadLengths(x: Session, frame: Frame, gunzip: M.Gunzip)
    requires InLengths(x) && Exchanges(x, gunzip) && x.reader.Reading?
    ensures InLengths(Read(x, frame, gunzip))
  {
    hide InLengths, Exchanges, Headers, DataFrame, GoAway, ApplySettings, M.Decode, Undisturbed;
    match frame
    case OnHeaders(id, meta, ended) => HeadersLengths(x, id, M.Decode(meta), ended, gunzip);
    case OnData(id, data, ended) => DataLengths(x, id, data, ended, gunzip);
    case OnGoAway(last) =>
      GoAwayUndisturbed(x, last);
      UndisturbedLengths(x, GoAway(x, last));
    case OnSettings(settings) =>
      var y := ApplySettings(x, settings).0;
      SettingsUndisturbed(x, settings);
      UndisturbedLengths(x, y);
      UndisturbedReader(x, y);
      ReaderLengths(y, Failing(ProtocolError));
    case OnWindowUpdate(id, increment) =>
      CreditUndisturbed(x, id, increment);
      UndisturbedLengths(x, WindowUpdate(x, id, increment).0);
      ReaderLengths(x, Failing(ProtocolError));
    case _ => ReaderLengths(x, Read(x, frame, gunzip).reader);
  }

  lemma FinishLengths(x: Session)
    requires InLengths(x) && I.Registered(x) && x.reader.Finishing?
    ensures InLengths(FinishOne(x, x.reader.id, x.reader.response, x.reader.err).(reader := Reading))
  {
    var id := x.reader.id;
    var y := FinishOne(x, id, x.reader.response, x.reader.err);
    forall other | other in y.table && !y.table[other].finished ensures InLength(y.table[other]) {
      assert I.StreamOk(x.table[other], other in x.live);
    }
  }

  lemma ShutdownLengths(x: Session, err: Error)
    requires InLengths(x)
    ensures InLengths(Shutdown(x, err)) && Shutdown(x, err).reader == x.reader
  {
    FinishUndisturbed(x, x.live, BLANK, err);
    if x.closeErr.None? { UndisturbedLengths(x, Shutdown(x, err)); }
  }

  lemma StepLengths(x: Session, step: Step, gunzip: M.Gunzip)
    requires InLengths(x) && Exchanges(x, gunzip) && I.Inv(x) && Enabled(x, step)
    ensures InLengths(Next(x, step, gunzip))
  {
    hide InLengths, Exchanges, FinishAll, Read, Undisturbed, FinishOne, I.Inv, Grant, Open, Shutdown;
    match step
    case OpenStep => OpenLengths(x);
    case ReserveStep(id, remaining) =>
      ReserveUndisturbed(x, id, remaining);
      UndisturbedLengths(x, Reserve(x, id, remaining).0);
    case CancelStep(id, err) =>
      FinishUndisturbed(x, {id}, BLANK, err);
      UndisturbedLengths(x, FinishAll(x, {id}, BLANK, Some(err)));
    case CloseStep(err) => ShutdownLengths(x, err);
    case FailStep => ShutdownLengths(x, x.reader.why); StoppedLengths(Shutdown(x, x.reader.why));
    case FinishStep => RegisteredOf(x); FinishLengths(x);
    case ReadStep(frame) => ReadLengths(x, frame, gunzip);
  }

  lemma StoppedLengths(x: Session)
    requires InLengths(x) && x.reader.Failing?
    ensures InLengths(x.(reader := Stopped))
  {
  }

  lemma OpenLengths(x: Session)
    requires InLengths(x)
    ensures InLengths(Acquire(x).0)
  {
  }

  lemma {:induction false} RunLengths(states: seq<Session>, steps: seq<Step>, gunzip: M.Gunzip, n: nat)
    requires Run(states, steps, gunzip) && n < |states|
    ensures InLengths(states[n])
  {
    hide Next, Enabled;
    if n > 0 {
      hide InLengths, Exchanges, I.Inv;
      RunLengths(states, steps, gunzip, n - 1);
      RunKeeps(states, steps, gunzip, n - 1);
      I.RunKeeps(states, steps, gunzip, n - 1);
      RunStep(states, steps, gunzip, n - 1);
      StepLengths(states[n - 1], steps[n - 1], gunzip);
    }
  }

  /**
   In every run, a header block or a DATA frame for a live stream gets the
   verdict that the whole exchange so far deserves: the stream completes if and
   only if it has seen a complete response within its bounds.
   */
  lemma VerdictsAreExact(states: seq<Session>, steps: seq<Step>, gunzip: M.Gunzip, n: nat, id: Id)
    requires Run(states, steps, gunzip) && n < |steps| && steps[n].ReadStep? && Alive(states[n], id)
    requires var frame := steps[n].frame;
             (frame.OnHeaders? && frame.id == id && M.Decode(frame.meta).Decoded?) || (frame.OnData? && frame.id == id)
    ensures states[n].reader.Reading? && id in states[n + 1].table
    ensures Verdict(states[n + 1].table[id], id, states[n + 1].reader, gunzip)
    ensures |states[n + 1].table[id].seen| == |states[n].table[id].seen| + 1
    ensures states[n].table[id].seen <= states[n + 1].table[id].seen
  {
    RunKeeps(states, steps, gunzip, n);
    RunLengths(states, steps, gunzip, n);
    RunStep(states, steps, gunzip, n);
    var x := states[n];
    hide Run, Exchanges, InLengths, TakeHead, TakeData, Verdict, InLength, M.Decode;
    WaitingStream(x, id, gunzip);
    match steps[n].frame
    case OnHeaders(_, meta, ended) =>
      var d := M.Decode(meta);
      HeadExactly(x.table[id], id, Head(d.status, d.headers, d.expected, ended), gunzip);
    case OnData(_, data, ended) => DataExactly(x.table[id], id, Data(data, ended), gunzip);
    case _ =>
  }
}
