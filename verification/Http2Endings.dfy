/** Which streams a step ends, with what, and which it leaves alone. */
module Http2Endings {
  import opened Http1Message
  import opened Http2Session
  import opened Http2Invariant
  import opened Wrappers
  import M = Http2Message

  /** The step takes a live stream out of the map. */
  predicate Ends(x: Session, step: Step, id: Id) {
    match step
    case OpenStep => false
    case ReserveStep(_, _) => false
    case CancelStep(which, _) => which == id
    case CloseStep(_) => true
    case FailStep => true
    case FinishStep => x.reader.Finishing? && x.reader.id == id
    case ReadStep(frame) => frame.OnGoAway? && id > frame.last
  }

  /** The error a stream is ended with, or none for a response. */
  function EndsWith(x: Session, step: Step): Option<Error>
    requires step.FinishStep? ==> x.reader.Finishing?
    requires step.FailStep? ==> x.reader.Failing?
  {
    match step
    case CancelStep(_, err) => Some(err)
    case CloseStep(err) => Some(err)
    case FailStep => Some(x.reader.why)
    case FinishStep => x.reader.err
    case ReadStep(frame) => if frame.OnGoAway? then Some(GoAwayError(frame.last)) else None
    case _ => None
  }

  lemma FinishLeaves(x: Session, ids: set<Id>, response: Response, err: Option<Error>, id: Id)
    requires id in x.live && id in x.table
    ensures var y := FinishAll(x, ids, response, err);
            && id in y.table
            && (id in y.live <==> id !in ids)
            && (id in ids ==> y.table[id].err == err && y.table[id].response == response && y.table[id].finished)
            && (id !in ids ==> y.table[id] == x.table[id])
  {
  }

  lemma LiveStream(x: Session, id: Id)
    requires Inv(x) && id in x.live
    ensures id in x.table && !x.table[id].finished && x.closeErr.None? && Alive(x, id)
    ensures x.goAway.Some? ==> id <= x.goAway.value
  {
    assert StreamOk(x.table[id], true);
  }

  /** Every live stream is ended by exactly these steps; a GOAWAY ends those above its boundary and no other. */
  lemma EndedExactly(x: Session, step: Step, gunzip: M.Gunzip, id: Id)
    requires Inv(x) && Enabled(x, step) && id in x.live
    ensures var y := Next(x, step, gunzip);
            && id in y.table
            && (id !in y.live <==> Ends(x, step, id))
            && (Ends(x, step, id) ==> y.table[id].finished && y.table[id].err == EndsWith(x, step))
  {
    LiveStream(x, id);
    hide Inv, FinishAll, Acquire, Reserve, Read;
    match step
    case OpenStep => OpenLeaves(x, id);
    case ReserveStep(which, remaining) => ReserveLeaves(x, which, remaining, id);
    case CancelStep(which, err) => FinishLeaves(x, {which}, BLANK, Some(err), id);
    case CloseStep(err) => FinishLeaves(x, x.live, BLANK, Some(err), id);
    case FailStep => FinishLeaves(x, x.live, BLANK, Some(x.reader.why), id);
    case FinishStep => FinishLeaves(x, {x.reader.id}, x.reader.response, x.reader.err, id);
    case ReadStep(frame) => ReadLeaves(x, frame, gunzip, id);
  }

  lemma OpenLeaves(x: Session, id: Id)
    requires id in x.live && id in x.table
    ensures id in Acquire(x).0.live && id in Acquire(x).0.table
  {
  }

  lemma ReserveLeaves(x: Session, which: Id, remaining: nat, id: Id)
    requires which in x.table && id in x.live && id in x.table
    ensures id in Reserve(x, which, remaining).0.live && id in Reserve(x, which, remaining).0.table
  {
    hide Available;
  }

  lemma GoAwayLeaves(x: Session, last: nat, id: Id)
    requires id in x.live && id in x.table && (x.goAway.Some? ==> id <= x.goAway.value)
    ensures var y := GoAway(x, last);
            && id in y.table && (id !in y.live <==> id > last)
            && (id <= last ==> y.table[id] == x.table[id])
            && (id > last ==> y.table[id].finished && y.table[id].err == Some(GoAwayError(last)))
  {
    hide FinishAll;
    var bound := Boundary(x, last);
    FinishLeaves(x, Beyond(x, bound), BLANK, Some(GoAwayError(bound)), id);
  }

  lemma {:induction false} SettingsLeave(x: Session, settings: seq<Setting>, id: Id)
    requires id in x.live && id in x.table
    ensures var y := ApplySettings(x, settings).0; id in y.live && id in y.table
    decreases |settings|
  {
    if settings != [] { SettingsLeave(x, settings[..|settings| - 1], id); }
  }

  lemma ReadLeaves(x: Session, frame: Frame, gunzip: M.Gunzip, id: Id)
    requires Alive(x, id) && (x.goAway.Some? ==> id <= x.goAway.value)
    ensures var y := Read(x, frame, gunzip);
            && id in y.table
            && (id !in y.live <==> frame.OnGoAway? && id > frame.last)
            && (frame.OnGoAway? && id > frame.last ==>
                  y.table[id].finished && y.table[id].err == Some(GoAwayError(frame.last)))
  {
    hide Headers, DataFrame, GoAway, ApplySettings, M.Decode;
    match frame
    case OnHeaders(which, meta, ended) => BooksLeave(x, Headers(x, which, M.Decode(meta), ended, gunzip), id) by {
      HeadersBooks(x, which, M.Decode(meta), ended, gunzip);
    }
    case OnData(which, data, ended) => BooksLeave(x, DataFrame(x, which, data, ended, gunzip), id) by {
      DataBooks(x, which, data, ended, gunzip);
    }
    case OnGoAway(last) => GoAwayLeaves(x, last, id);
    case OnSettings(settings) => SettingsLeave(x, settings, id);
    case _ =>
  }

  lemma BooksLeave(x: Session, y: Session, id: Id)
    requires SameBooks(x, y) && id in x.live && id in x.table
    ensures id in y.live && id in y.table
  {
    assert id in x.table.Keys;
  }

  /** Across a GOAWAY every stream at or below its boundary stays as it is. */
  lemma GoAwaySpares(x: Session, last: nat, gunzip: M.Gunzip, id: Id)
    requires Inv(x) && x.reader.Reading? && id in x.live && id <= last
    ensures var y := Next(x, ReadStep(OnGoAway(last)), gunzip);
            id in y.live && id in y.table && y.table[id] == x.table[id]
  {
    LiveStream(x, id);
    hide Inv;
    GoAwayLeaves(x, last, id);
  }

  // ----- over runs -----

  /** Nobody but the peer brings a GOAWAY error about. */
  predicate Honest(step: Step) {
    && (step.CancelStep? ==> !step.err.GoAwayError?)
    && (step.CloseStep? ==> !step.err.GoAwayError?)
  }

  predicate ReaderHonest(x: Session) {
    && (x.reader.Finishing? ==> x.reader.err != None ==> !x.reader.err.value.GoAwayError?)
    && (x.reader.Failing? ==> !x.reader.why.GoAwayError?)
  }

  lemma ReadHonest(x: Session, frame: Frame, gunzip: M.Gunzip)
    requires x.reader.Reading?
    ensures ReaderHonest(Read(x, frame, gunzip))
  {
    hide M.Finalize, M.Decode, ApplySettings;
    if frame.OnSettings? { SettingsReader(x, frame.settings); }
  }

  lemma {:induction false} SettingsReader(x: Session, settings: seq<Setting>)
    ensures ApplySettings(x, settings).0.reader == x.reader
    decreases |settings|
  {
    if settings != [] { SettingsReader(x, settings[..|settings| - 1]); }
  }

  lemma StepHonest(x: Session, step: Step, gunzip: M.Gunzip)
    requires Enabled(x, step) && ReaderHonest(x)
    ensures ReaderHonest(Next(x, step, gunzip))
  {
    hide Read;
    if step.ReadStep? { ReadHonest(x, step.frame, gunzip); }
  }

  lemma {:induction false} RunHonest(states: seq<Session>, steps: seq<Step>, gunzip: M.Gunzip, n: nat)
    requires Run(states, steps, gunzip) && n < |states|
    ensures ReaderHonest(states[n])
  {
    hide Next, Enabled, ReaderHonest;
    if n == 0 {
      StartHonest();
    } else {
      RunHonest(states, steps, gunzip, n - 1);
      RunStep(states, steps, gunzip, n - 1);
      StepHonest(states[n - 1], steps[n - 1], gunzip);
    }
  }

  lemma StartHonest()
    ensures ReaderHonest(START)
  {
  }

  /** In every run, a stream that ends with a GOAWAY error has an id above the boundary in that error. */
  lemma GoAwayErrorsAreBeyond(states: seq<Session>, steps: seq<Step>, gunzip: M.Gunzip, n: nat, id: Id, last: nat)
    requires Run(states, steps, gunzip) && n < |steps| && Honest(steps[n])
    requires id in states[n].live && id !in states[n + 1].live
    requires id in states[n + 1].table && states[n + 1].table[id].err == Some(GoAwayError(last))
    ensures steps[n] == ReadStep(OnGoAway(last)) && id > last
  {
    RunStep(states, steps, gunzip, n);
    RunKeeps(states, steps, gunzip, n);
    RunHonest(states, steps, gunzip, n);
    EndedExactly(states[n], steps[n], gunzip, id);
    hide Next, Run, Inv;
  }
}
