/** Where a session departs from what a reader of RFC 9113 would expect, and exactly when. */
module Http2Departures {
  import opened Http1Message
  import opened Http2Session
  import opened Http2Invariant
  import opened Wrappers
  import M = Http2Message

  // ----- a verdict that outruns its stream -----

  /** A verdict waits unchanged until it is carried out. */
  lemma {:induction false} VerdictWaits(states: seq<Session>, steps: seq<Step>, gunzip: M.Gunzip, m: nat, n: nat)
    requires Run(states, steps, gunzip) && m <= n < |states| && states[m].reader.Finishing?
    requires forall k | m <= k < n :: !steps[k].FinishStep?
    ensures states[n].reader == states[m].reader
  {
    hide Next, Enabled;
    if m < n {
      VerdictWaits(states, steps, gunzip, m, n - 1);
      RunStep(states, steps, gunzip, n - 1);
      hide Run;
      StepWaits(states[n - 1], steps[n - 1], gunzip);
    }
  }

  lemma StepWaits(x: Session, step: Step, gunzip: M.Gunzip)
    requires Enabled(x, step) && x.reader.Finishing? && !step.FinishStep?
    ensures Next(x, step, gunzip).reader == x.reader
  {
    hide Read;
  }

  /**
   A frame for a stream that was not open when it was read ends that stream if
   and only if the stream was opened before the reader carried out its verdict
   and nothing else had settled it by then.
   */
  lemma VerdictOutrunsStream(states: seq<Session>, steps: seq<Step>, gunzip: M.Gunzip, m: nat, n: nat)
    requires Run(states, steps, gunzip) && m < n < |steps|
    requires steps[m].ReadStep? && states[m + 1].reader.Finishing? && states[m + 1].reader.id !in states[m].table
    requires steps[n].FinishStep? && forall k | m < k < n :: !steps[k].FinishStep?
    ensures var id := states[m + 1].reader.id;
            var ended := id in states[n].live && id !in states[n + 1].live;
            ended <==> && Odd(id) && states[m].next <= id < states[n].next
                       && id in states[n].table && !states[n].table[id].finished
  {
    var id := states[m + 1].reader.id;
    VerdictWaits(states, steps, gunzip, m + 1, n);
    RunStep(states, steps, gunzip, n);
    RunKeeps(states, steps, gunzip, m);
    RunKeeps(states, steps, gunzip, n);
    hide Run;
    FinishEnds(states[n], gunzip);
    OpenedLater(states[m], states[n], id);
  }

  lemma FinishEnds(x: Session, gunzip: M.Gunzip)
    requires Inv(x) && x.reader.Finishing?
    ensures var id := x.reader.id;
            (id in x.live && id !in Next(x, FinishStep, gunzip).live) <==> id in x.table && !x.table[id].finished
  {
    hide TotalReserved, Odd;
    var id := x.reader.id;
    if id in x.table { assert StreamOk(x.table[id], id in x.live); }
  }

  lemma OpenedLater(x: Session, y: Session, id: Id)
    requires Inv(x) && Inv(y) && id !in x.table
    ensures id in y.table ==> Odd(id) && x.next <= id < y.next
  {
    hide Registered, Ledger, Drained, Odd;
  }

  /** A reset read before stream 1 is opened ends it. */
  lemma EarlyResetEndsStream(gunzip: M.Gunzip)
    ensures var read := Next(START, ReadStep(OnReset(1)), gunzip);
            && Enabled(read, OpenStep)
            && var begun := Next(read, OpenStep, gunzip);
               && 1 !in read.table && 1 in begun.live && Enabled(begun, FinishStep)
               && var ended := Next(begun, FinishStep, gunzip);
                  1 !in ended.live && 1 in ended.table && ended.table[1].err == Some(ResetError)
  {
  }

  // ----- a stream window past its maximum -----

  predicate WithinMaximum(x: Session) {
    forall id | id in x.live && id in x.table :: x.table[id].sendWindow <= MAX_WINDOW
  }

  /**
   A new initial window keeps every live window within the maximum if and only
   if it does so with the credit each stream has not used.
   */
  lemma RebaseWithinMaximum(x: Session, value: nat)
    requires Inv(x)
    ensures WithinMaximum(Rebase(x, value))
            <==> forall id | id in x.live && id in x.table ::
                   value + x.table[id].credit - x.table[id].reserved <= MAX_WINDOW
  {
    hide TotalReserved, Odd, StreamOk;
    var y := Rebase(x, value);
    forall id | id in x.live && id in x.table
      ensures id in y.table && y.table[id].sendWindow == value + x.table[id].credit - x.table[id].reserved
    {
      assert StreamLedger(x.table[id], x.initial);
    }
  }

  /** Live streams stay or go, and none of their windows grows. */
  predicate NoneGrows(x: Session, y: Session) {
    forall id | id in y.live && id in y.table ::
      id in x.live && id in x.table && y.table[id].sendWindow <= x.table[id].sendWindow
  }

  lemma NoneGrowsWithin(x: Session, y: Session)
    requires WithinMaximum(x) && NoneGrows(x, y)
    ensures WithinMaximum(y)
  {
  }

  lemma FinishGrowsNone(x: Session, ids: set<Id>, response: Response, err: Option<Error>)
    ensures NoneGrows(x, FinishAll(x, ids, response, err))
  {
  }

  lemma BooksGrowNone(x: Session, y: Session)
    requires SameBooks(x, y)
    ensures NoneGrows(x, y)
  {
    forall id | id in y.table ensures id in x.table && SameStreamBooks(x.table[id], y.table[id]) {
      assert id in x.table.Keys;
    }
  }

  lemma OpenWithin(x: Session)
    requires Inv(x) && WithinMaximum(x)
    ensures WithinMaximum(Acquire(x).0)
  {
    NextIsNew(x);
    hide TotalReserved, Odd, StreamOk, Registered, Numbered, Drained;
  }

  lemma ReserveGrowsNone(x: Session, id: Id, remaining: nat)
    requires id in x.table
    ensures NoneGrows(x, Reserve(x, id, remaining).0)
  {
    hide Available;
  }

  lemma UpdateWithin(x: Session, id: Id, increment: nat)
    requires WithinMaximum(x)
    ensures WithinMaximum(WindowUpdate(x, id, increment).0)
  {
  }

  lemma ReadWithin(x: Session, frame: Frame, gunzip: M.Gunzip)
    requires WithinMaximum(x) && !frame.OnSettings?
    ensures WithinMaximum(Read(x, frame, gunzip))
  {
    hide Headers, DataFrame, FinishAll, WindowUpdate, M.Decode;
    match frame
    case OnHeaders(id, meta, ended) =>
      HeadersBooks(x, id, M.Decode(meta), ended, gunzip);
      BooksGrowNone(x, Headers(x, id, M.Decode(meta), ended, gunzip));
    case OnData(id, data, ended) =>
      DataBooks(x, id, data, ended, gunzip);
      BooksGrowNone(x, DataFrame(x, id, data, ended, gunzip));
    case OnGoAway(last) =>
      FinishGrowsNone(x, Beyond(x, Boundary(x, last)), BLANK, Some(GoAwayError(Boundary(x, last))));
    case OnWindowUpdate(id, increment) => UpdateWithin(x, id, increment);
    case _ =>
  }

  /** No step but a change of the settings takes a live window past the maximum. */
  lemma OtherStepsWithinMaximum(x: Session, step: Step, gunzip: M.Gunzip)
    requires Inv(x) && WithinMaximum(x) && Enabled(x, step) && !(step.ReadStep? && step.frame.OnSettings?)
    ensures WithinMaximum(Next(x, step, gunzip))
  {
    hide Inv, FinishAll, Read, Acquire, Reserve;
    match step
    case OpenStep => OpenWithin(x);
    case ReserveStep(id, remaining) => ReserveGrowsNone(x, id, remaining);
    case CancelStep(id, err) => FinishGrowsNone(x, {id}, BLANK, Some(err));
    case CloseStep(err) => FinishGrowsNone(x, x.live, BLANK, Some(err));
    case FailStep => FinishGrowsNone(x, x.live, BLANK, Some(x.reader.why));
    case FinishStep => FinishGrowsNone(x, {x.reader.id}, x.reader.response, x.reader.err);
    case ReadStep(frame) => ReadWithin(x, frame, gunzip);
  }

  const CREDIT: Frame := OnWindowUpdate(1, 0x7fff_0000)
  const SETTINGS: seq<Setting> := [InitialWindow(65536)]

  lemma OneSetting(x: Session)
    ensures ApplySettings(x, SETTINGS) == (Rebase(x, 65536), false)
  {
    assert SETTINGS[..0] == [];
    assert ApplySettings(x, []) == (x, false);
  }

  /** A window credited to the maximum and then a larger initial window take stream 1 past it. */
  lemma SettingsPassMaximum(gunzip: M.Gunzip)
    ensures var begun := Next(START, OpenStep, gunzip);
            && Enabled(begun, ReadStep(CREDIT))
            && var credited := Next(begun, ReadStep(CREDIT), gunzip);
               && Enabled(credited, ReadStep(OnSettings(SETTINGS)))
               && var grown := Next(credited, ReadStep(OnSettings(SETTINGS)), gunzip);
                  grown.reader == Reading && 1 in grown.live && 1 in grown.table
                    && grown.table[1].sendWindow == MAX_WINDOW + 1
  {
    hide ApplySettings;
    var begun := Next(START, OpenStep, gunzip);
    assert begun == Open(START);
    var credited := Next(begun, ReadStep(CREDIT), gunzip);
    assert credited.table[1].sendWindow == MAX_WINDOW;
    OneSetting(credited);
  }
}
