/**
 An HTTP/2 client session as a state machine. Each function is one section under
 the session's mutex; a channel that is closed and replaced is an epoch number.
 */
module Http2Session {
  import opened Bytes
  import opened Http1Message
  import opened Wrappers
  import M = Http2Message
  import F = Http1Framing

  const DEFAULT_WINDOW: int := 65535
  const MAX_WINDOW: int := 0x7fff_ffff
  const DEFAULT_FRAME: int := 16384
  const MAX_FRAME: int := 0xff_ffff
  const MAX_STREAM_ID: nat := 0x7fff_ffff
  const ANY_NUMBER: nat := 0xffff_ffff
  const BLANK: Response := Response(0, [], [], 0, 0, false)

  type Id = nat

  datatype Error =
    | ProtocolError
    | TooLargeError
    | ResetError
    | GoAwayError(last: nat)
    | SessionClosed
    | OtherError(code: nat)

  /** What arrived for a stream while it was live. */
  datatype Seen =
    | Malformed
    | Head(status: int, headers: seq<Header>, expected: Option<nat>, ended: bool)
    | Data(data: Text, ended: bool)

  /** A stream; from `closes` on its fields are history. */
  datatype Stream = Stream(
    sendWindow: int,
    headersReceived: bool,
    response: Response,
    expected: Option<nat>,
    informational: nat,
    finished: bool,
    err: Option<Error>,
    closes: nat,
    credit: nat,
    reserved: nat,
    seen: seq<Seen>)

  /** Where the read loop is: between frames, about to finish a stream, about to shut down, or gone. */
  datatype Reader = Reading | Finishing(id: Id, response: Response, err: Option<Error>) | Failing(why: Error) | Stopped

  datatype Session = Session(
    /** Every stream opened so far. */
    table: map<Id, Stream>,
    /** The keys of the session's stream map. */
    live: set<Id>,
    next: nat,
    window: int,
    initial: int,
    maxFrame: int,
    maxConcurrent: nat,
    flowEpoch: nat,
    admissionEpoch: nat,
    goAway: Option<nat>,
    closeErr: Option<Error>,
    reader: Reader,
    /** Connection credit granted, bytes reserved, and every GOAWAY boundary received. */
    credit: nat,
    reserved: nat,
    goAways: seq<nat>)

  const START: Session := Session(
    map[], {}, 1, DEFAULT_WINDOW, DEFAULT_WINDOW, DEFAULT_FRAME, ANY_NUMBER, 0, 0, None, None, Reading, 0, 0, [])

  predicate Alive(x: Session, id: Id) {
    id in x.live && id in x.table && !x.table[id].finished
  }

  // ----- opening streams and sending -----

  function NewStream(window: int): Stream {
    Stream(window, false, BLANK, None, 0, false, None, 0, 0, 0, [])
  }

  datatype Opening = Opened(id: Id) | NotOpened(why: Error) | OpenWaits

  predicate CanOpen(x: Session) {
    x.closeErr.None? && x.goAway.None? && x.next <= MAX_STREAM_ID && |x.live| < x.maxConcurrent
  }

  function Open(x: Session): Session {
    x.(table := x.table[x.next := NewStream(x.initial)], live := x.live + {x.next}, next := x.next + 2)
  }

  function Acquire(x: Session): (Session, Opening) {
    if x.closeErr.Some? then (x, NotOpened(x.closeErr.value))
    else if x.goAway.Some? then (x, NotOpened(GoAwayError(x.goAway.value)))
    else if x.next > MAX_STREAM_ID then (x, NotOpened(SessionClosed))
    else if |x.live| < x.maxConcurrent then (Open(x), Opened(x.next))
    else (x, OpenWaits)
  }

  datatype Reservation = Granted(size: nat) | SendEnded(why: Option<Error>) | SendWaits

  function Min(a: int, b: int): int {
    if a < b then a else b
  }

  function Available(x: Session, st: Stream, remaining: nat): int {
    Min(Min(remaining, x.maxFrame), Min(x.window, st.sendWindow))
  }

  function Grant(x: Session, id: Id, size: nat): Session
    requires id in x.table
  {
    var st := x.table[id];
    x.(window := x.window - size, reserved := x.reserved + size,
       table := x.table[id := st.(sendWindow := st.sendWindow - size, reserved := st.reserved + size)])
  }

  function Reserve(x: Session, id: Id, remaining: nat): (Session, Reservation)
    requires id in x.table
  {
    var st := x.table[id];
    if st.finished then (x, SendEnded(st.err))
    else
      var available := Available(x, st, remaining);
      if available > 0 then (Grant(x, id, available), Granted(available)) else (x, SendWaits)
  }

  // ----- finishing -----

  function Settle(st: Stream, response: Response, err: Option<Error>): Stream {
    st.(response := response, err := err, finished := true, closes := st.closes + 1)
  }

  function FinishAll(x: Session, ids: set<Id>, response: Response, err: Option<Error>): Session {
    x.(table := map id | id in x.table :: if id in ids then Settle(x.table[id], response, err) else x.table[id],
       live := x.live - ids,
       flowEpoch := x.flowEpoch + |ids|,
       admissionEpoch := x.admissionEpoch + |ids|)
  }

  function FinishOne(x: Session, id: Id, response: Response, err: Option<Error>): Session {
    if Alive(x, id) then FinishAll(x, {id}, response, err) else x
  }

  /** Cancelling goes through the stream itself, not the map. */
  function Cancel(x: Session, id: Id, err: Error): Session
    requires id in x.table
  {
    if x.table[id].finished then x else FinishAll(x, {id}, BLANK, Some(err))
  }

  function Shutdown(x: Session, err: Error): Session {
    if x.closeErr.Some? then x else FinishAll(x, x.live, BLANK, Some(err)).(closeErr := Some(err))
  }

  function Boundary(x: Session, last: nat): nat {
    if x.goAway.None? || last < x.goAway.value then last else x.goAway.value
  }

  function Beyond(x: Session, last: nat): set<Id> {
    set id | id in x.live && id > last
  }

  function GoAway(x: Session, last: nat): Session {
    var bound := Boundary(x, last);
    var y := FinishAll(x, Beyond(x, bound), BLANK, Some(GoAwayError(bound)));
    y.(goAway := Some(bound), goAways := x.goAways + [last], admissionEpoch := y.admissionEpoch + 1)
  }

  // ----- flow control and settings -----

  /** A WINDOW_UPDATE; the flag says the peer overflowed a window. */
  function WindowUpdate(x: Session, id: Id, increment: nat): (Session, bool) {
    if id == 0 then
      if x.window + increment > MAX_WINDOW then (x, true)
      else (x.(window := x.window + increment, credit := x.credit + increment, flowEpoch := x.flowEpoch + 1), false)
    else if Alive(x, id) then
      var st := x.table[id];
      if st.sendWindow + increment > MAX_WINDOW then (x, true)
      else (x.(table := x.table[id := st.(sendWindow := st.sendWindow + increment, credit := st.credit + increment)],
               flowEpoch := x.flowEpoch + 1), false)
    else (x.(flowEpoch := x.flowEpoch + 1), false)
  }

  datatype Setting =
    | InitialWindow(value: nat)
    | MaxFrameSize(value: nat)
    | MaxConcurrent(value: nat)
    | OtherSetting(ok: bool)

  predicate ValidSetting(s: Setting) {
    match s
    case InitialWindow(v) => v <= MAX_WINDOW
    case MaxFrameSize(v) => DEFAULT_FRAME <= v <= MAX_FRAME
    case MaxConcurrent(v) => v <= ANY_NUMBER
    case OtherSetting(ok) => ok
  }

  /** Live streams follow a change of the initial window. */
  function Rebase(x: Session, value: nat): Session {
    var delta := value - x.initial;
    x.(initial := value,
       table := map id | id in x.table ::
                  if id in x.live then x.table[id].(sendWindow := x.table[id].sendWindow + delta) else x.table[id],
       flowEpoch := x.flowEpoch + 1)
  }

  function ApplySetting(x: Session, s: Setting): Session {
    match s
    case InitialWindow(v) => Rebase(x, v)
    case MaxFrameSize(v) => x.(maxFrame := v)
    case MaxConcurrent(v) => x.(maxConcurrent := v, admissionEpoch := x.admissionEpoch + 1)
    case OtherSetting(_) => x
  }

  /** The valid settings before the first invalid one take effect; the flag says there was an invalid one. */
  function ApplySettings(x: Session, settings: seq<Setting>): (Session, bool) {
    if settings == [] then (x, false)
    else
      var (y, bad) := ApplySettings(x, settings[..|settings| - 1]);
      var s := settings[|settings| - 1];
      if bad then (y, true) else if !ValidSetting(s) then (y, true) else (ApplySetting(y, s), false)
  }

  // ----- response frames -----

  function ErrorOf(why: M.Failure): Error {
    match why case Protocol => ProtocolError case TooLarge => TooLargeError
  }

  function Failed(id: Id, err: Error): Reader {
    Finishing(id, BLANK, Some(err))
  }

  function Finalized(id: Id, f: M.Final): Reader {
    match f
    case Final(response) => Finishing(id, response, None)
    case Unusable(why) => Failed(id, ErrorOf(why))
  }

  /** A header block for a live stream, and what the reader does next. */
  function TakeHead(st: Stream, id: Id, h: Seen, gunzip: M.Gunzip): (Stream, Reader)
    requires h.Head?
  {
    var s := st.(seen := st.seen + [h]);
    if 100 <= h.status < 200 then
      var t := s.(informational := s.informational + 1);
      var invalid := h.status == 101 || h.ended || t.headersReceived || t.informational > MAX_INFORMATIONAL;
      (t, if invalid then Failed(id, ProtocolError) else Reading)
    else if s.headersReceived then (s, Failed(id, ProtocolError))
    else
      var t := s.(headersReceived := true, response := Response(h.status, h.headers, [], 0, 0, false),
                  expected := h.expected);
      (t,
       if h.ended && h.expected.Some? && h.expected.value != 0 then Failed(id, ProtocolError)
       else if h.ended then Finalized(id, M.Finalize(h.status, h.headers, [], gunzip))
       else Reading)
  }

  function TakeData(st: Stream, id: Id, d: Seen, gunzip: M.Gunzip): (Stream, Reader)
    requires d.Data?
  {
    var s := st.(seen := st.seen + [d]);
    if !s.headersReceived then (s, Failed(id, ProtocolError))
    else if |s.response.body| + |d.data| > F.MAX_BODY_BYTES then (s, Failed(id, TooLargeError))
    else
      var body := s.response.body + d.data;
      var t := s.(response := s.response.(body := body));
      (t,
       if t.expected.Some? && |body| > t.expected.value then Failed(id, ProtocolError)
       else if !d.ended then Reading
       else if t.expected.Some? && |body| != t.expected.value then Failed(id, ProtocolError)
       else Finalized(id, M.Finalize(t.response.status, t.response.headers, body, gunzip)))
  }

  /** Runs one of the two handlers above on a live stream. */
  function Deliver(x: Session, id: Id, taken: (Stream, Reader)): Session {
    x.(table := x.table[id := taken.0], reader := taken.1)
  }

  function Headers(x: Session, id: Id, d: M.Decoded, ended: bool, gunzip: M.Gunzip): Session {
    match d
    case Undecodable(why) =>
      var y := x.(reader := Failed(id, ErrorOf(why)));
      if Alive(x, id) then y.(table := x.table[id := x.table[id].(seen := x.table[id].seen + [Malformed])]) else y
    case Decoded(status, headers, expected) =>
      if Alive(x, id)
      then Deliver(x, id, TakeHead(x.table[id], id, Head(status, headers, expected, ended), gunzip)) else x
  }

  function DataFrame(x: Session, id: Id, data: Text, ended: bool, gunzip: M.Gunzip): Session {
    if Alive(x, id) then Deliver(x, id, TakeData(x.table[id], id, Data(data, ended), gunzip)) else x
  }

  // ----- steps -----

  datatype Frame =
    | OnHeaders(id: Id, meta: M.Meta, ended: bool)
    | OnData(id: Id, data: Text, ended: bool)
    | OnReset(id: Id)
    | OnStreamError(id: Id)
    | OnGoAway(last: nat)
    | OnWindowUpdate(id: Id, increment: nat)
    | OnSettings(settings: seq<Setting>)
    | OnPushPromise
    | OnReadError(code: nat)
    | OnOther

  function Read(x: Session, frame: Frame, gunzip: M.Gunzip): Session {
    match frame
    case OnHeaders(id, meta, ended) => Headers(x, id, M.Decode(meta), ended, gunzip)
    case OnData(id, data, ended) => DataFrame(x, id, data, ended, gunzip)
    case OnReset(id) => x.(reader := Failed(id, ResetError))
    case OnStreamError(id) => x.(reader := Failed(id, ProtocolError))
    case OnGoAway(last) => GoAway(x, last)
    case OnWindowUpdate(id, increment) =>
      var (y, bad) := WindowUpdate(x, id, increment);
      if bad then y.(reader := Failing(ProtocolError)) else y
    case OnSettings(settings) =>
      var (y, bad) := ApplySettings(x, settings);
      if bad then y.(reader := Failing(ProtocolError)) else y
    case OnPushPromise => x.(reader := Failing(ProtocolError))
    case OnReadError(code) => x.(reader := Failing(OtherError(code)))
    case OnOther => x
  }

  datatype Step =
    | OpenStep
    | ReserveStep(id: Id, remaining: nat)
    | CancelStep(id: Id, err: Error)
    | CloseStep(err: Error)
    | ReadStep(frame: Frame)
    | FinishStep
    | FailStep

  predicate Enabled(x: Session, step: Step) {
    match step
    case OpenStep => true
    case ReserveStep(id, _) => id in x.table
    case CancelStep(id, _) => id in x.table
    case CloseStep(_) => true
    case ReadStep(_) => x.reader.Reading?
    case FinishStep => x.reader.Finishing?
    case FailStep => x.reader.Failing?
  }

  function Next(x: Session, step: Step, gunzip: M.Gunzip): Session
    requires Enabled(x, step)
  {
    match step
    case OpenStep => Acquire(x).0
    case ReserveStep(id, remaining) => Reserve(x, id, remaining).0
    case CancelStep(id, err) => Cancel(x, id, err)
    case CloseStep(err) => Shutdown(x, err)
    case ReadStep(frame) => Read(x, frame, gunzip)
    case FinishStep => FinishOne(x, x.reader.id, x.reader.response, x.reader.err).(reader := Reading)
    case FailStep => Shutdown(x, x.reader.why).(reader := Stopped)
  }

  /** `states` is a run taking `steps` from a new session. */
  predicate Run(states: seq<Session>, steps: seq<Step>, gunzip: M.Gunzip) {
    && |states| == |steps| + 1 && states[0] == START
    && forall i | 0 <= i < |steps| :: Enabled(states[i], steps[i]) && states[i + 1] == Next(states[i], steps[i], gunzip)
  }

  lemma RunStep(states: seq<Session>, steps: seq<Step>, gunzip: M.Gunzip, n: nat)
    requires Run(states, steps, gunzip) && n + 1 < |states|
    ensures n < |steps| && Enabled(states[n], steps[n]) && states[n + 1] == Next(states[n], steps[n], gunzip)
  {
  }
}
