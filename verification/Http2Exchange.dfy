/** What a stream that completes without an error has seen. */
module Http2Exchange {
  import opened Bytes
  import opened Http1Message
  import opened Wrappers
  import opened Http2Session
  import M = Http2Message
  import F = Http1Framing
  import I = Http2Invariant

  /** The data of a list of DATA frames, in order. */
  function Wire(seen: seq<Seen>): Text {
    if seen == [] then []
    else
      var last := seen[|seen| - 1];
      Wire(seen[..|seen| - 1]) + if last.Data? then last.data else []
  }

  predicate Interim(s: Seen) {
    s.Head? && 100 <= s.status < 200 && s.status != 101 && !s.ended
  }

  predicate FinalBlock(s: Seen) {
    s.Head? && !(100 <= s.status < 200)
  }

  /** The first `n` blocks are informational, at most eight of them. */
  predicate Interims(seen: seq<Seen>, n: nat) {
    n <= MAX_INFORMATIONAL && n <= |seen| && forall i | 0 <= i < n :: Interim(seen[i])
  }

  predicate Ends(s: Seen) {
    !s.Malformed? && s.ended
  }

  /**
   Block `n` is the final header block, everything after it is data, and nothing before the
   last block ends the stream.
   */
  predicate Body(seen: seq<Seen>, n: nat) {
    && n < |seen| && FinalBlock(seen[n])
    && (forall i | n < i < |seen| :: seen[i].Data?)
    && (forall i | n <= i < |seen| - 1 :: !Ends(seen[i]))
  }

  /** A live stream to which nothing wrong has happened. */
  predicate Clean(st: Stream) {
    var n := st.informational;
    && Interims(st.seen, n)
    && if !st.headersReceived then |st.seen| == n
       else
         && Body(st.seen, n) && !Ends(st.seen[|st.seen| - 1])
         && st.response.status == st.seen[n].status && st.response.headers == st.seen[n].headers
         && st.expected == st.seen[n].expected
         && st.response.body == Wire(st.seen[n + 1..]) && |st.response.body| <= F.MAX_BODY_BYTES
  }

  /** A whole exchange: informational blocks, one final block, data up to the end of the stream, and its response. */
  predicate Complete(seen: seq<Seen>, n: nat, response: Response, gunzip: M.Gunzip) {
    && Interims(seen, n) && Body(seen, n) && Ends(seen[|seen| - 1])
    && var wire := Wire(seen[n + 1..]);
       && |wire| <= F.MAX_BODY_BYTES
       && (seen[n].expected.Some? ==> |wire| == seen[n].expected.value)
       && M.Finalize(seen[n].status, seen[n].headers, wire, gunzip) == M.Final(response)
  }

  /** The verdict of a handler on a stream. */
  predicate Judged(st: Stream, id: Id, reader: Reader, gunzip: M.Gunzip) {
    match reader
    case Reading => Clean(st)
    case Finishing(target, response, err) =>
      target == id && (err.None? ==> Complete(st.seen, st.informational, response, gunzip))
    case _ => false
  }

  lemma HeadJudged(st: Stream, id: Id, h: Seen, gunzip: M.Gunzip)
    requires Clean(st) && h.Head?
    ensures var (t, reader) := TakeHead(st, id, h, gunzip); Judged(t, id, reader, gunzip)
  {
    hide M.Finalize;
    assert (st.seen + [h])[|st.seen| + 1..] == [];
  }

  lemma WireAppend(seen: seq<Seen>, n: nat, d: Seen)
    requires n < |seen| && d.Data?
    ensures Wire((seen + [d])[n + 1..]) == Wire(seen[n + 1..]) + d.data
  {
    var more := (seen + [d])[n + 1..];
    assert more[..|more| - 1] == seen[n + 1..];
  }

  lemma BodyAppend(seen: seq<Seen>, n: nat, d: Seen)
    requires Interims(seen, n) && Body(seen, n) && !Ends(seen[|seen| - 1]) && d.Data?
    ensures Interims(seen + [d], n) && Body(seen + [d], n)
  {
    hide Interim, FinalBlock, Ends;
  }

  lemma DataJudged(st: Stream, id: Id, d: Seen, gunzip: M.Gunzip)
    requires Clean(st) && d.Data?
    ensures var (t, reader) := TakeData(st, id, d, gunzip); Judged(t, id, reader, gunzip)
  {
    hide M.Finalize, Wire;
    if st.headersReceived {
      WireAppend(st.seen, st.informational, d);
      BodyAppend(st.seen, st.informational, d);
      assert (st.seen + [d])[st.informational] == st.seen[st.informational];
    }
    hide Body, Interims;
  }

  // ----- the invariant -----

  /** A stream is settled well, clean, or the one the reader is about to finish. */
  predicate StreamJudged(st: Stream, id: Id, reader: Reader, gunzip: M.Gunzip) {
    if st.finished then st.err.None? ==> Complete(st.seen, st.informational, st.response, gunzip)
    else if reader.Finishing? && reader.id == id then Judged(st, id, reader, gunzip)
    else Clean(st)
  }

  predicate Exchanges(x: Session, gunzip: M.Gunzip) {
    && (forall id | id in x.table :: StreamJudged(x.table[id], id, x.reader, gunzip))
    && (x.reader.Finishing? && x.reader.err.None? ==> x.reader.id in x.table)
  }

  /** A stream as far as the exchange is concerned. */
  predicate SameExchange(s: Stream, t: Stream) {
    t == s.(sendWindow := t.sendWindow, credit := t.credit, reserved := t.reserved, closes := t.closes)
  }

  /** Streams change only their windows, or are settled with an error. */
  predicate Undisturbed(x: Session, y: Session) {
    && y.reader == x.reader && y.table.Keys == x.table.Keys
    && forall id | id in x.table ::
         SameExchange(x.table[id], y.table[id]) || (y.table[id].finished && y.table[id].err.Some?)
  }

  lemma UndisturbedKeeps(x: Session, y: Session, gunzip: M.Gunzip)
    requires Exchanges(x, gunzip) && Undisturbed(x, y)
    ensures Exchanges(y, gunzip)
  {
    hide M.Finalize, Wire, Complete, Interims, Body;
    forall id | id in y.table ensures StreamJudged(y.table[id], id, y.reader, gunzip) {
      assert id in x.table.Keys;
      assert StreamJudged(x.table[id], id, x.reader, gunzip);
    }
  }

  lemma FinishUndisturbed(x: Session, ids: set<Id>, response: Response, err: Error)
    ensures Undisturbed(x, FinishAll(x, ids, response, Some(err)))
  {
  }

  lemma UndisturbedOn(x: Session, y: Session, z: Session)
    requires Undisturbed(x, y) && Undisturbed(y, z)
    ensures Undisturbed(x, z)
  {
    forall id | id in x.table
      ensures SameExchange(x.table[id], z.table[id]) || (z.table[id].finished && z.table[id].err.Some?)
    {
      assert id in y.table.Keys && id in z.table.Keys;
      assert SameExchange(y.table[id], z.table[id]) || (z.table[id].finished && z.table[id].err.Some?);
    }
  }

  lemma {:induction false} SettingsUndisturbed(x: Session, settings: seq<Setting>)
    ensures Undisturbed(x, ApplySettings(x, settings).0)
    decreases |settings|
  {
    if settings != [] {
      var front, s := settings[..|settings| - 1], settings[|settings| - 1];
      var y := ApplySettings(x, front).0;
      SettingsUndisturbed(x, front);
      assert Undisturbed(y, ApplySetting(y, s));
      hide ApplySetting, ValidSetting, Undisturbed;
      UndisturbedOn(x, y, ApplySetting(y, s));
    }
  }

  /** With no verdict pending, the reader may take up any verdict that is an error. */
  lemma ErrorKeeps(x: Session, reader: Reader, gunzip: M.Gunzip)
    requires Exchanges(x, gunzip) && x.reader.Reading? && (reader.Finishing? ==> reader.err.Some?)
    ensures Exchanges(x.(reader := reader), gunzip)
  {
    hide M.Finalize, Wire, Complete, Interims, Body, Clean;
    forall id | id in x.table ensures StreamJudged(x.table[id], id, reader, gunzip) {
      assert StreamJudged(x.table[id], id, x.reader, gunzip);
    }
  }

  lemma DeliverKeeps(x: Session, id: Id, taken: (Stream, Reader), gunzip: M.Gunzip)
    requires Exchanges(x, gunzip) && x.reader.Reading? && Alive(x, id)
    requires Judged(taken.0, id, taken.1, gunzip) && !taken.0.finished
    ensures Exchanges(Deliver(x, id, taken), gunzip)
  {
    hide M.Finalize, Wire, Complete, Clean;
    var y := Deliver(x, id, taken);
    forall other | other in y.table ensures StreamJudged(y.table[other], other, y.reader, gunzip) {
      if other != id { assert StreamJudged(x.table[other], other, x.reader, gunzip); }
    }
  }

  lemma HeadersKeeps(x: Session, id: Id, d: M.Decoded, ended: bool, gunzip: M.Gunzip)
    requires Exchanges(x, gunzip) && x.reader.Reading?
    ensures Exchanges(Headers(x, id, d, ended, gunzip), gunzip)
  {
    hide M.Finalize, Wire, Complete, Clean, Exchanges;
    if d.Decoded? && Alive(x, id) {
      var h := Head(d.status, d.headers, d.expected, ended);
      AliveClean(x, id, gunzip);
      HeadJudged(x.table[id], id, h, gunzip);
      HeadUnfinished(x.table[id], id, h, gunzip);
      hide TakeHead;
      DeliverKeeps(x, id, TakeHead(x.table[id], id, h, gunzip), gunzip);
    } else if d.Undecodable? {
      ErrorKeeps(x, Failed(id, ErrorOf(d.why)), gunzip);
      if Alive(x, id) {
        var st := x.table[id].(seen := x.table[id].seen + [Malformed]);
        DeliverKeeps(x, id, (st, Failed(id, ErrorOf(d.why))), gunzip);
      }
    }
  }

  lemma AliveClean(x: Session, id: Id, gunzip: M.Gunzip)
    requires Exchanges(x, gunzip) && x.reader.Reading? && Alive(x, id)
    ensures Clean(x.table[id])
  {
    hide Clean, Complete;
    assert StreamJudged(x.table[id], id, x.reader, gunzip);
  }

  lemma HeadUnfinished(st: Stream, id: Id, h: Seen, gunzip: M.Gunzip)
    requires h.Head?
    ensures TakeHead(st, id, h, gunzip).0.finished == st.finished
  {
    hide M.Finalize;
  }

  lemma DataUnfinished(st: Stream, id: Id, d: Seen, gunzip: M.Gunzip)
    requires d.Data?
    ensures TakeData(st, id, d, gunzip).0.finished == st.finished
  {
    hide M.Finalize;
  }

  lemma DataKeeps(x: Session, id: Id, data: Text, ended: bool, gunzip: M.Gunzip)
    requires Exchanges(x, gunzip) && x.reader.Reading?
    ensures Exchanges(DataFrame(x, id, data, ended, gunzip), gunzip)
  {
    hide M.Finalize, Wire, Complete, Clean, Exchanges, TakeData;
    if Alive(x, id) {
      AliveClean(x, id, gunzip);
      DataJudged(x.table[id], id, Data(data, ended), gunzip);
      DataUnfinished(x.table[id], id, Data(data, ended), gunzip);
      DeliverKeeps(x, id, TakeData(x.table[id], id, Data(data, ended), gunzip), gunzip);
    }
  }

  lemma GoAwayUndisturbed(x: Session, last: nat)
    ensures Undisturbed(x, GoAway(x, last))
  {
    var bound := Boundary(x, last);
    FinishUndisturbed(x, Beyond(x, bound), BLANK, GoAwayError(bound));
    hide FinishAll;
  }

  lemma ReadKeeps(x: Session, frame: Frame, gunzip: M.Gunzip)
    requires Exchanges(x, gunzip) && x.reader.Reading?
    ensures Exchanges(Read(x, frame, gunzip), gunzip)
  {
    hide Exchanges, Headers, DataFrame, GoAway, ApplySettings, M.Decode, Undisturbed;
    match frame
    case OnHeaders(id, meta, ended) => HeadersKeeps(x, id, M.Decode(meta), ended, gunzip);
    case OnData(id, data, ended) => DataKeeps(x, id, data, ended, gunzip);
    case OnGoAway(last) =>
      GoAwayUndisturbed(x, last);
      UndisturbedKeeps(x, GoAway(x, last), gunzip);
    case OnSettings(settings) =>
      var y := ApplySettings(x, settings).0;
      SettingsUndisturbed(x, settings);
      UndisturbedKeeps(x, y, gunzip);
      UndisturbedReader(x, y);
      ErrorKeeps(y, Failing(ProtocolError), gunzip);
    case OnWindowUpdate(id, increment) =>
      var y := WindowUpdate(x, id, increment).0;
      CreditUndisturbed(x, id, increment);
      UndisturbedKeeps(x, y, gunzip);
      ErrorKeeps(x, Failing(ProtocolError), gunzip);
    case _ => ErrorKeeps(x, Read(x, frame, gunzip).reader, gunzip);
  }

  lemma UndisturbedReader(x: Session, y: Session)
    requires Undisturbed(x, y)
    ensures y.reader == x.reader
  {
  }

  lemma CreditUndisturbed(x: Session, id: Id, increment: nat)
    ensures Undisturbed(x, WindowUpdate(x, id, increment).0)
  {
  }

  /** The reader carries out its verdict. */
  lemma FinishKeeps(x: Session, gunzip: M.Gunzip)
    requires Exchanges(x, gunzip) && I.Registered(x) && x.reader.Finishing?
    ensures Exchanges(FinishOne(x, x.reader.id, x.reader.response, x.reader.err).(reader := Reading), gunzip)
  {
    hide M.Finalize, Wire, Complete, Clean;
    var id := x.reader.id;
    var y := FinishOne(x, id, x.reader.response, x.reader.err);
    forall other | other in y.table ensures StreamJudged(y.table[other], other, Reading, gunzip) {
      assert StreamJudged(x.table[other], other, x.reader, gunzip);
      assert I.StreamOk(x.table[other], other in x.live);
    }
  }

  lemma StepKeeps(x: Session, step: Step, gunzip: M.Gunzip)
    requires Exchanges(x, gunzip) && I.Inv(x) && Enabled(x, step)
    ensures Exchanges(Next(x, step, gunzip), gunzip)
  {
    hide Exchanges, FinishAll, Read, Undisturbed, FinishOne, I.Inv, Grant, Open;
    match step
    case OpenStep => OpenKeeps(x, gunzip);
    case ReserveStep(id, remaining) =>
      ReserveUndisturbed(x, id, remaining);
      UndisturbedKeeps(x, Reserve(x, id, remaining).0, gunzip);
    case CancelStep(id, err) =>
      FinishUndisturbed(x, {id}, BLANK, err);
      UndisturbedKeeps(x, FinishAll(x, {id}, BLANK, Some(err)), gunzip);
    case CloseStep(err) => ShutdownKeeps(x, err, gunzip);
    case FailStep => ShutdownKeeps(x, x.reader.why, gunzip); StoppedKeeps(Shutdown(x, x.reader.why), gunzip);
    case FinishStep => RegisteredOf(x); FinishKeeps(x, gunzip);
    case ReadStep(frame) => ReadKeeps(x, frame, gunzip);
  }

  lemma RegisteredOf(x: Session)
    requires I.Inv(x)
    ensures I.Registered(x)
  {
  }

  lemma OpenKeeps(x: Session, gunzip: M.Gunzip)
    requires Exchanges(x, gunzip) && I.Inv(x)
    ensures Exchanges(Acquire(x).0, gunzip)
  {
    I.NextIsNew(x);
    hide M.Finalize, Wire, Complete, I.Inv;
    var y := Acquire(x).0;
    forall id | id in y.table ensures StreamJudged(y.table[id], id, y.reader, gunzip) {
      if id in x.table { assert StreamJudged(x.table[id], id, x.reader, gunzip); }
    }
  }

  lemma ReserveUndisturbed(x: Session, id: Id, remaining: nat)
    requires id in x.table
    ensures Undisturbed(x, Reserve(x, id, remaining).0)
  {
    hide Available;
  }

  lemma ShutdownKeeps(x: Session, err: Error, gunzip: M.Gunzip)
    requires Exchanges(x, gunzip)
    ensures Exchanges(Shutdown(x, err), gunzip) && Shutdown(x, err).reader == x.reader
  {
    FinishUndisturbed(x, x.live, BLANK, err);
    hide FinishAll, Exchanges;
    if x.closeErr.None? { UndisturbedKeeps(x, Shutdown(x, err), gunzip); }
  }

  lemma StoppedKeeps(x: Session, gunzip: M.Gunzip)
    requires Exchanges(x, gunzip) && x.reader.Failing?
    ensures Exchanges(x.(reader := Stopped), gunzip)
  {
    hide M.Finalize, Wire, Complete, Clean;
    forall id | id in x.table ensures StreamJudged(x.table[id], id, Stopped, gunzip) {
      assert StreamJudged(x.table[id], id, x.reader, gunzip);
    }
  }

  lemma {:induction false} RunKeeps(states: seq<Session>, steps: seq<Step>, gunzip: M.Gunzip, n: nat)
    requires Run(states, steps, gunzip) && n < |states|
    ensures Exchanges(states[n], gunzip)
  {
    if n > 0 {
      hide Exchanges, I.Inv, Next, Enabled;
      RunKeeps(states, steps, gunzip, n - 1);
      I.RunKeeps(states, steps, gunzip, n - 1);
      RunStep(states, steps, gunzip, n - 1);
      StepKeeps(states[n - 1], steps[n - 1], gunzip);
    } else {
      hide Next, Enabled;
    }
  }

  /** Every stream that completed without an error saw a well-formed exchange, and its response is within bounds. */
  lemma CompletedStreamsAreWellFormed(states: seq<Session>, steps: seq<Step>, gunzip: M.Gunzip, n: nat, id: Id)
    requires Run(states, steps, gunzip) && n < |states| && id in states[n].table
    requires states[n].table[id].finished && states[n].table[id].err.None?
    ensures var st := states[n].table[id];
            var k := st.informational;
            && Complete(st.seen, k, st.response, gunzip)
            && M.WellFinished(st.response, st.seen[k].status, st.seen[k].headers, Wire(st.seen[k + 1..]))
  {
    RunKeeps(states, steps, gunzip, n);
    hide Run, M.Finalize, Wire, M.WellFinished;
    var st := states[n].table[id];
    var k := st.informational;
    assert StreamJudged(st, id, states[n].reader, gunzip);
    M.FinalizedBounded(st.seen[k].status, st.seen[k].headers, Wire(st.seen[k + 1..]), gunzip);
  }
}
