/**
 The session's fields, updated in place under its mutex. `Valid` is what the
 model keeps over every run; the methods that stand for a step of it keep it.
 */
module Http2Object {
  import opened Bytes
  import opened Http1Message
  import opened Wrappers
  import opened Http2Session
  import M = Http2Message
  import F = Http1Framing
  import I = Http2Invariant
  import E = Http2Exchange

  ghost predicate SessionOk(x: Session, gunzip: M.Gunzip) {
    I.Inv(x) && E.Exchanges(x, gunzip)
  }

  lemma StartOk(gunzip: M.Gunzip)
    ensures SessionOk(START, gunzip)
  {
    I.StartInv();
  }

  lemma StepOk(x: Session, step: Step, gunzip: M.Gunzip)
    requires SessionOk(x, gunzip) && Enabled(x, step)
    ensures SessionOk(Next(x, step, gunzip), gunzip)
  {
    hide I.Inv, E.Exchanges, Next;
    I.StepKeeps(x, step, gunzip);
    E.StepKeeps(x, step, gunzip);
  }

  lemma AcquireOk(x: Session, gunzip: M.Gunzip)
    requires SessionOk(x, gunzip)
    ensures SessionOk(Acquire(x).0, gunzip)
  {
    hide SessionOk, Open;
    StepOk(x, OpenStep, gunzip);
  }

  lemma ReserveOk(x: Session, id: Id, remaining: nat, gunzip: M.Gunzip)
    requires SessionOk(x, gunzip) && id in x.table
    ensures SessionOk(Reserve(x, id, remaining).0, gunzip)
  {
    hide SessionOk, Reserve;
    StepOk(x, ReserveStep(id, remaining), gunzip);
  }

  lemma GoAwayOk(x: Session, last: nat, gunzip: M.Gunzip)
    requires SessionOk(x, gunzip) && x.reader.Reading?
    ensures SessionOk(GoAway(x, last), gunzip)
  {
    hide SessionOk, GoAway;
    StepOk(x, ReadStep(OnGoAway(last)), gunzip);
  }

  lemma LiveInTable(x: Session, gunzip: M.Gunzip)
    requires SessionOk(x, gunzip)
    ensures x.live <= x.table.Keys
  {
    hide E.Exchanges, I.Numbered, I.Ledger, I.Drained, I.StreamOk;
  }

  /** The reader carries out the verdict it reached under the mutex. */
  function Carried(x: Session): Session {
    if x.reader.Finishing? then FinishOne(x, x.reader.id, x.reader.response, x.reader.err).(reader := Reading) else x
  }

  /** A frame is a step of the session, and carrying out its verdict another one. */
  lemma CarriedOk(x: Session, frame: Frame, gunzip: M.Gunzip)
    requires SessionOk(x, gunzip) && x.reader.Reading?
    ensures SessionOk(Carried(Read(x, frame, gunzip)), gunzip)
  {
    hide SessionOk, Read, FinishOne;
    StepOk(x, ReadStep(frame), gunzip);
    var y := Read(x, frame, gunzip);
    if y.reader.Finishing? { StepOk(y, FinishStep, gunzip); }
  }

  class Connection {
    const gunzip: M.Gunzip
    var table: map<Id, Stream>
    var live: set<Id>
    var next: nat
    var window: int
    var initial: int
    var maxFrame: int
    var maxConcurrent: nat
    var flowEpoch: nat
    var admissionEpoch: nat
    var goAway: Option<nat>
    var closeErr: Option<Error>
    var reader: Reader
    ghost var credit: nat
    ghost var reserved: nat
    ghost var goAways: seq<nat>

    ghost function View(): Session
      reads this
    {
      Session(table, live, next, window, initial, maxFrame, maxConcurrent, flowEpoch, admissionEpoch,
              goAway, closeErr, reader, credit, reserved, goAways)
    }

    ghost predicate Valid()
      reads this
    {
      SessionOk(View(), gunzip)
    }

    constructor (gunzip: M.Gunzip)
      ensures Valid() && View() == START && this.gunzip == gunzip
    {
      this.gunzip := gunzip;
      table, live, next, window, initial, maxFrame := map[], {}, 1, DEFAULT_WINDOW, DEFAULT_WINDOW, DEFAULT_FRAME;
      maxConcurrent, flowEpoch, admissionEpoch, goAway, closeErr, reader := ANY_NUMBER, 0, 0, None, None, Reading;
      credit, reserved, goAways := 0, 0, [];
      new;
      StartOk(gunzip);
    }

    /** One pass of the loop that opens a stream. */
    method AcquireStream() returns (r: Opening)
      requires Valid()
      modifies this
      ensures Valid() && (View(), r) == Acquire(old(View()))
    {
      hide SessionOk;
      AcquireOk(View(), gunzip);
      if closeErr.Some? { return NotOpened(closeErr.value); }
      if goAway.Some? { return NotOpened(GoAwayError(goAway.value)); }
      if next > MAX_STREAM_ID { return NotOpened(SessionClosed); }
      if |live| < maxConcurrent {
        var id := next;
        table := table[id := NewStream(initial)];
        next := next + 2;
        live := live + {id};
        return Opened(id);
      }
      return OpenWaits;
    }

    /** Whether a request may still get a stream, now or after waiting. */
    method Reusable() returns (b: bool)
      ensures b <==> !Acquire(View()).1.NotOpened?
    {
      b := closeErr.None? && goAway.None? && next <= MAX_STREAM_ID;
    }

    /** One pass of the loop that reserves bytes to send. */
    method ReserveSend(id: Id, remaining: nat) returns (r: Reservation)
      requires Valid() && id in table
      modifies this
      ensures Valid() && (View(), r) == Reserve(old(View()), id, remaining)
    {
      hide SessionOk;
      ReserveOk(View(), id, remaining, gunzip);
      var st := table[id];
      if st.finished { return SendEnded(st.err); }
      var available := Min(Min(remaining, maxFrame), Min(window, st.sendWindow));
      if available > 0 {
        window := window - available;
        reserved := reserved + available;
        table := table[id := st.(sendWindow := st.sendWindow - available, reserved := st.reserved + available)];
        return Granted(available);
      }
      return SendWaits;
    }

    method SignalFlow()
      modifies this`flowEpoch
      ensures flowEpoch == old(flowEpoch) + 1
    {
      flowEpoch := flowEpoch + 1;
    }

    method SignalAdmission()
      modifies this`admissionEpoch
      ensures admissionEpoch == old(admissionEpoch) + 1
    {
      admissionEpoch := admissionEpoch + 1;
    }

    method FinishLocked(id: Id, response: Response, err: Option<Error>)
      requires id in table
      modifies this
      ensures View() == FinishAll(old(View()), {id}, response, err)
    {
      table := table[id := Settle(table[id], response, err)];
      live := live - {id};
      SignalAdmission();
      SignalFlow();
    }

    method FinishStream(id: Id, response: Response, err: Option<Error>)
      modifies this
      ensures View() == FinishOne(old(View()), id, response, err)
    {
      if id in live && id in table && !table[id].finished { FinishLocked(id, response, err); }
    }

    method CancelStream(id: Id, err: Error)
      requires Valid() && id in table
      modifies this
      ensures Valid() && View() == Cancel(old(View()), id, err)
    {
      hide SessionOk, FinishAll;
      StepOk(View(), CancelStep(id, err), gunzip);
      if !table[id].finished { FinishLocked(id, BLANK, Some(err)); }
    }

    /** Finishes a set of streams one by one, in any order. */
    method FinishSet(ids: set<Id>, err: Error)
      requires ids <= table.Keys
      modifies this
      ensures View() == FinishAll(old(View()), ids, BLANK, Some(err))
    {
      hide FinishAll;
      ghost var x := View();
      var todo := ids;
      FinishNone(x, BLANK, Some(err));
      assert ids - todo == {};
      while todo != {}
        invariant todo <= ids && ids <= x.table.Keys && table.Keys == x.table.Keys
        invariant View() == FinishAll(x, ids - todo, BLANK, Some(err))
        decreases |todo|
      {
        var id :| id in todo;
        FinishMore(x, ids - todo, id, BLANK, Some(err));
        assert ids - (todo - {id}) == (ids - todo) + {id};
        FinishLocked(id, BLANK, Some(err));
        todo := todo - {id};
      }
      assert ids - todo == ids;
    }

    method ShutdownSession(err: Error)
      requires Valid()
      modifies this
      ensures Valid() && View() == Shutdown(old(View()), err)
    {
      hide SessionOk, FinishAll;
      StepOk(View(), CloseStep(err), gunzip);
      LiveInTable(View(), gunzip);
      if closeErr.Some? { return; }
      FinishSet(live, err);
      closeErr := Some(err);
    }

    /** The reader failed: the session is closed and nothing more is read. */
    method FailSession()
      requires Valid() && reader.Failing?
      modifies this
      ensures Valid() && View() == Next(old(View()), FailStep, gunzip)
    {
      hide SessionOk, FinishAll, Shutdown;
      StepOk(View(), FailStep, gunzip);
      ShutdownSession(reader.why);
      reader := Stopped;
    }

    method HandleReset(id: Id)
      requires Valid() && reader.Reading?
      modifies this
      ensures Valid() && View() == Carried(Read(old(View()), OnReset(id), gunzip))
    {
      hide SessionOk, FinishOne;
      CarriedOk(View(), OnReset(id), gunzip);
      reader := Failed(id, ResetError);
      CarryOut();
    }

    method HandleGoAway(last: nat)
      requires Valid() && reader.Reading?
      modifies this
      ensures Valid() && View() == GoAway(old(View()), last)
    {
      hide SessionOk, FinishAll;
      GoAwayOk(View(), last, gunzip);
      LiveInTable(View(), gunzip);
      if goAway.None? || last < goAway.value { goAway := Some(last); }
      goAways := goAways + [last];
      var bound := goAway.value;
      ghost var x := View();
      FinishCommutes(old(View()), Beyond(x, bound), bound, x);
      var beyond := set id | id in live && id > bound;
      assert beyond == Beyond(x, bound);
      FinishSet(beyond, GoAwayError(bound));
      SignalAdmission();
    }

    /** Credits a window; a peer that overflows one fails the reader. */
    method HandleWindowUpdate(id: Id, increment: nat)
      requires Valid() && reader.Reading?
      modifies this
      ensures Valid() && View() == Read(old(View()), OnWindowUpdate(id, increment), gunzip)
    {
      hide SessionOk;
      StepOk(View(), ReadStep(OnWindowUpdate(id, increment)), gunzip);
      var bad := CreditWindow(id, increment);
      if bad { reader := Failing(ProtocolError); }
    }

    method CreditWindow(id: Id, increment: nat) returns (bad: bool)
      modifies this
      ensures (View(), bad) == WindowUpdate(old(View()), id, increment)
    {
      if id == 0 {
        if window + increment > MAX_WINDOW { return true; }
        window := window + increment;
        credit := credit + increment;
      } else if id in live && id in table && !table[id].finished {
        var st := table[id];
        if st.sendWindow + increment > MAX_WINDOW { return true; }
        table := table[id := st.(sendWindow := st.sendWindow + increment, credit := st.credit + increment)];
      }
      SignalFlow();
      return false;
    }

    /** Moves the windows of the live streams one by one, in any order. */
    method ShiftWindows(delta: int)
      requires live <= table.Keys
      modifies this`table
      ensures table == Shifted(old(table), live, delta)
    {
      hide Shifted;
      ghost var was := table;
      var todo := live;
      assert live - todo == {};
      ShiftNone(was, delta);
      while todo != {}
        invariant todo <= live && table == Shifted(was, live - todo, delta)
        decreases |todo|
      {
        var id :| id in todo;
        ShiftMore(was, live - todo, id, delta);
        assert live - (todo - {id}) == (live - todo) + {id};
        table := table[id := table[id].(sendWindow := table[id].sendWindow + delta)];
        todo := todo - {id};
      }
      assert live - todo == live;
    }

    method RebaseWindows(value: nat)
      requires live <= table.Keys
      modifies this
      ensures View() == Rebase(old(View()), value)
    {
      var delta := value - initial;
      initial := value;
      ShiftWindows(delta);
      SignalFlow();
    }

    /** Applies a SETTINGS frame; an invalid setting fails the reader. */
    method HandleSettings(settings: seq<Setting>)
      requires Valid() && reader.Reading?
      modifies this
      ensures Valid() && View() == Read(old(View()), OnSettings(settings), gunzip)
    {
      hide SessionOk, ApplySettings;
      StepOk(View(), ReadStep(OnSettings(settings)), gunzip);
      LiveInTable(View(), gunzip);
      var bad := ApplyFrame(settings);
      if bad { reader := Failing(ProtocolError); }
    }

    method ApplyFrame(settings: seq<Setting>) returns (bad: bool)
      requires live <= table.Keys
      modifies this
      ensures (View(), bad) == ApplySettings(old(View()), settings)
    {
      hide Rebase;
      ghost var x := View();
      var i := 0;
      while i < |settings|
        invariant 0 <= i <= |settings| && live <= table.Keys
        invariant (View(), false) == ApplySettings(x, settings[..i])
      {
        assert settings[..i + 1][..i] == settings[..i];
        var s := settings[i];
        if !ValidSetting(s) {
          BadSettings(x, settings, i + 1);
          return true;
        }
        match s {
          case InitialWindow(v) =>
            RebaseFrame(View(), v);
            RebaseWindows(v);
          case MaxFrameSize(v) => maxFrame := v;
          case MaxConcurrent(v) =>
            maxConcurrent := v;
            SignalAdmission();
          case OtherSetting(_) =>
        }
        i := i + 1;
      }
      assert settings[..i] == settings;
      return false;
    }

    /** Decodes a header block, takes it, and finishes the stream if the verdict says so. */
    method HandleHeaders(id: Id, meta: M.Meta, ended: bool)
      requires Valid() && reader.Reading?
      modifies this
      ensures Valid() && View() == Carried(Headers(old(View()), id, M.Decode(meta), ended, gunzip))
    {
      hide SessionOk, M.Finalize, M.Decode, FinishOne;
      CarriedOk(View(), OnHeaders(id, meta, ended), gunzip);
      var d := M.DecodeResponseHeaders(meta);
      if d.Undecodable? {
        if id in live && id in table && !table[id].finished {
          table := table[id := table[id].(seen := table[id].seen + [Malformed])];
        }
        reader := Failed(id, ErrorOf(d.why));
      } else if id in live && id in table && !table[id].finished {
        TakeBlock(id, Head(d.status, d.headers, d.expected, ended));
      }
      CarryOut();
    }

    /** The section of the header handler on a live stream. */
    method TakeBlock(id: Id, h: Seen)
      requires id in table && h.Head? && reader.Reading?
      modifies this`table, this`reader
      ensures View() == Deliver(old(View()), id, TakeHead(old(table[id]), id, h, gunzip))
    {
      hide M.Finalize;
      var st := table[id].(seen := table[id].seen + [h]);
      if 100 <= h.status < 200 {
        st := st.(informational := st.informational + 1);
        var invalid := h.status == 101 || h.ended || st.headersReceived || st.informational > MAX_INFORMATIONAL;
        table := table[id := st];
        if invalid { reader := Failed(id, ProtocolError); }
        return;
      }
      if st.headersReceived {
        table := table[id := st];
        reader := Failed(id, ProtocolError);
        return;
      }
      st := st.(headersReceived := true, response := Response(h.status, h.headers, [], 0, 0, false),
                expected := h.expected);
      table := table[id := st];
      if h.ended {
        if h.expected.Some? && h.expected.value != 0 {
          reader := Failed(id, ProtocolError);
          return;
        }
        var final := M.FinalizeResponse(h.status, h.headers, [], gunzip);
        reader := Finalized(id, final);
      }
    }

    method HandleData(id: Id, data: Text, ended: bool)
      requires Valid() && reader.Reading?
      modifies this
      ensures Valid() && View() == Carried(DataFrame(old(View()), id, data, ended, gunzip))
    {
      hide SessionOk, FinishOne, TakeData;
      CarriedOk(View(), OnData(id, data, ended), gunzip);
      if id in live && id in table && !table[id].finished { TakePiece(id, Data(data, ended)); }
      CarryOut();
    }

    /** The section of the data handler on a live stream. */
    method TakePiece(id: Id, d: Seen)
      requires id in table && d.Data? && reader.Reading?
      modifies this`table, this`reader
      ensures View() == Deliver(old(View()), id, TakeData(old(table[id]), id, d, gunzip))
    {
      hide M.Finalize;
      var st := table[id].(seen := table[id].seen + [d]);
      table := table[id := st];
      if !st.headersReceived {
        reader := Failed(id, ProtocolError);
        return;
      }
      if |st.response.body| + |d.data| > F.MAX_BODY_BYTES {
        reader := Failed(id, TooLargeError);
        return;
      }
      st := st.(response := st.response.(body := st.response.body + d.data));
      table := table[id := st];
      var length := |st.response.body|;
      if st.expected.Some? && length > st.expected.value {
        reader := Failed(id, ProtocolError);
        return;
      }
      if d.ended {
        if st.expected.Some? && length != st.expected.value {
          reader := Failed(id, ProtocolError);
          return;
        }
        var final := M.FinalizeResponse(st.response.status, st.response.headers, st.response.body, gunzip);
        reader := Finalized(id, final);
      }
    }

    method CarryOut()
      modifies this
      ensures View() == Carried(old(View()))
    {
      hide FinishOne;
      if reader.Finishing? {
        FinishStream(reader.id, reader.response, reader.err);
        FinishOneReader(old(View()));
        reader := Reading;
      }
    }
  }

  lemma FinishOneReader(x: Session)
    requires x.reader.Finishing?
    ensures FinishOne(x, x.reader.id, x.reader.response, x.reader.err).reader == x.reader
  {
  }

  /** The table with the windows of some streams moved. */
  function Shifted(table: map<Id, Stream>, ids: set<Id>, delta: int): map<Id, Stream> {
    map id | id in table :: if id in ids then table[id].(sendWindow := table[id].sendWindow + delta) else table[id]
  }

  lemma ShiftNone(table: map<Id, Stream>, delta: int)
    ensures Shifted(table, {}, delta) == table
  {
  }

  lemma ShiftMore(table: map<Id, Stream>, ids: set<Id>, id: Id, delta: int)
    requires id in table && id !in ids
    ensures var some := Shifted(table, ids, delta);
            && id in some
            && some[id := some[id].(sendWindow := some[id].sendWindow + delta)] == Shifted(table, ids + {id}, delta)
  {
  }

  lemma RebaseFrame(x: Session, value: nat)
    ensures Rebase(x, value).table.Keys == x.table.Keys && Rebase(x, value).live == x.live
  {
  }

  lemma {:induction false} BadSettings(x: Session, settings: seq<Setting>, n: nat)
    requires n <= |settings| && ApplySettings(x, settings[..n]).1
    ensures ApplySettings(x, settings) == ApplySettings(x, settings[..n])
    decreases |settings|
  {
    if n < |settings| {
      var front := settings[..|settings| - 1];
      assert front[..n] == settings[..n];
      BadSettings(x, front, n);
    } else {
      assert settings[..n] == settings;
    }
  }

  lemma FinishNone(x: Session, response: Response, err: Option<Error>)
    ensures FinishAll(x, {}, response, err) == x
  {
    assert FinishAll(x, {}, response, err).table == x.table;
    assert x.live - {} == x.live;
  }

  lemma FinishMore(x: Session, ids: set<Id>, id: Id, response: Response, err: Option<Error>)
    requires id in x.table && id !in ids
    ensures FinishAll(FinishAll(x, ids, response, err), {id}, response, err) == FinishAll(x, ids + {id}, response, err)
    ensures FinishAll(x, ids + {id}, response, err).table.Keys == x.table.Keys
  {
    assert |ids + {id}| == |ids| + 1;
    assert x.live - ids - {id} == x.live - (ids + {id});
  }

  /** Recording a boundary first makes no difference to the streams finished. */
  lemma FinishCommutes(x: Session, ids: set<Id>, bound: nat, y: Session)
    requires y == x.(goAway := y.goAway, goAways := y.goAways)
    ensures Beyond(y, bound) == Beyond(x, bound)
    ensures FinishAll(y, ids, BLANK, Some(GoAwayError(bound)))
            == FinishAll(x, ids, BLANK, Some(GoAwayError(bound))).(goAway := y.goAway, goAways := y.goAways)
  {
  }
}
