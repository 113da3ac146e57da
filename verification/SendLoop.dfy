/** The attempt loop of one operation against an arbitrary world. */
module SendLoop {
  import opened Bytes
  import opened Int64
  import opened Wrappers
  import opened Observability
  import B = Backoff

  datatype Config = Config(maxAttempts: nat, base: Int64, maximum: Int64)

  /** What the configuration checks guarantee; delays are in milliseconds. */
  predicate ValidConfig(c: Config) {
    1 <= c.maxAttempts <= 10 && c.base >= 1 && c.maximum >= 1
  }

  // ----- terminal conditions -----

  /** What one look at the contexts and the clock finds. */
  datatype Sight = Sight(deadlineDone: bool, exceeded: bool, closed: bool, cancelled: bool, clock: Option<Int64>)

  function ForCommit(committed: bool): State {
    if committed then PossiblySent else NotSent
  }

  function ForCancel(committed: bool): State {
    if committed then CancelledUnknown else NotSent
  }

  function DeadlineError(committed: bool, attempts: nat): SendError {
    SendError(OperationDeadline, ForCommit(committed), false, attempts)
  }

  function HookError(state: State, attempts: nat): SendError {
    SendError(Configuration, state, false, attempts)
  }

  function PreAttemptTerminal(s: Sight, deadline: Int64, committed: bool, attempts: nat): Option<SendError> {
    if s.deadlineDone || s.exceeded then Some(DeadlineError(committed, attempts))
    else if s.closed then Some(SendError(Closed, ForCancel(committed), false, attempts))
    else if s.cancelled then Some(SendError(Cancelled, ForCancel(committed), false, attempts))
    else if s.clock.None? then Some(HookError(ForCommit(committed), attempts))
    else if s.clock.value >= deadline then Some(DeadlineError(committed, attempts))
    else None
  }

  function DeadlineTerminal(s: Sight, deadline: Int64, committed: bool, attempts: nat): Option<SendError> {
    if s.deadlineDone then Some(DeadlineError(committed, attempts))
    else if s.clock.None? then Some(HookError(ForCommit(committed), attempts))
    else if s.clock.value >= deadline then Some(DeadlineError(committed, attempts))
    else None
  }

  // ----- outcomes of an attempt -----

  datatype Failed = Failed(code: Code, committed: bool, proxyAuth: bool, fromCredentials: bool)

  /** How the checks of a successful response's body come out. */
  datatype BodyCheck = BodyMatches | BodyTooLarge | BodyViolation | BodyMismatch

  datatype Answer = Answer(
    status: int, shaped: bool, timedOut: bool, retryForbidden: bool, body: BodyCheck,
    retryAfter: seq<Text>, needsWall: bool, wallFailed: bool, date: Option<Int64>)

  datatype Report = Report(answer: Option<Answer>, failed: Option<Failed>)

  /** An attempt: its report, whether it met its deadline, and three looks at its commit tracker. */
  datatype Attempt = Attempt(report: Report, completed: bool, tracked1: bool, tracked2: bool, tracked3: bool)

  predicate PreCommit(code: Code) {
    code == Dns || code == Connect || code == Proxy || code == Tls
  }

  predicate MayHaveBeenAccepted(status: int) {
    200 <= status < 300 || status == 409 || status >= 500
  }

  predicate StatusRetryable(status: int) {
    200 <= status < 300 || status == 409 || status == 429 || 500 <= status <= 599
  }

  predicate ValidFailed(f: Failed) {
    match f.code
    case Configuration => f.fromCredentials
    case Dns => true
    case Connect => true
    case Proxy => true
    case Tls => true
    case Io => true
    case AttemptTimeout => true
    case Cancelled => true
    case _ => false
  }

  /** Whether the attempt raises the acceptance floor. */
  predicate Raises(r: Report, tracked: bool) {
    if r.failed.Some? && PreCommit(r.failed.value.code) then false
    else if r.answer.Some? then MayHaveBeenAccepted(r.answer.value.status)
    else tracked || (r.failed.Some? && r.failed.value.committed)
  }

  /** What the loop saw of an attempt: a report it classified, or only the commit tracker of one it gave up. */
  datatype Entry = Classified(report: Report, tracked: bool) | GivenUp(tracked: bool)

  predicate RaisedBy(e: Entry) {
    match e
    case Classified(report, tracked) => Raises(report, tracked)
    case GivenUp(tracked) => tracked
  }

  /** Whether one of the first `n` attempts raised the floor. */
  predicate Raised(log: seq<Entry>, n: nat)
    requires n <= |log|
  {
    exists i | 0 <= i < n :: RaisedBy(log[i])
  }

  lemma RaisedMore(log: seq<Entry>, entry: Entry)
    ensures Raised(log + [entry], |log| + 1) <==> Raised(log, |log|) || RaisedBy(entry)
    ensures forall i: nat | i <= |log| :: Raised(log + [entry], i) == Raised(log, i)
  {
    var grown := log + [entry];
    assert grown[|log|] == entry;
    if Raised(log, |log|) {
      var i :| 0 <= i < |log| && RaisedBy(log[i]);
      assert RaisedBy(grown[i]);
    }
    forall i: nat | i <= |log| ensures Raised(grown, i) == Raised(log, i) {
      if Raised(log, i) {
        var j :| 0 <= j < i && RaisedBy(log[j]);
        assert RaisedBy(grown[j]);
      }
    }
  }

  predicate Malformed(r: Report) {
    || (r.answer.Some? <==> r.failed.Some?)
    || (r.failed.Some? && !ValidFailed(r.failed.value))
    || (r.answer.Some? && !r.answer.value.shaped)
  }

  function RejectedBy(a: Answer, attempts: nat): SendError {
    var retryable := StatusRetryable(a.status) && !a.retryForbidden;
    if 300 <= a.status < 400 then SendError(HttpRejected, Rejected, retryable, attempts)
    else if a.status == 407 then SendError(Proxy, NotSent, retryable, attempts)
    else if a.status == 429 then SendError(RateLimited, Rejected, retryable, attempts)
    else if a.status == 409 then SendError(HttpRejected, PossiblySent, retryable, attempts)
    else if a.status >= 500 then SendError(ServerFailure, PossiblySent, retryable, attempts)
    else SendError(HttpRejected, Rejected, retryable, attempts)
  }

  /** The error a response stands for, or none when the response is accepted. */
  function ResponseError(a: Answer, attempts: nat): Option<SendError> {
    if a.timedOut then Some(SendError(AttemptTimeout, PossiblySent, true, attempts))
    else if a.status < 200 || a.status >= 300 then Some(RejectedBy(a, attempts))
    else
      match a.body
      case BodyMatches => None
      case BodyTooLarge => Some(SendError(ResponseTooLarge, PossiblySent, false, attempts))
      case BodyViolation => Some(SendError(ResponseProtocol, PossiblySent, false, attempts))
      case BodyMismatch => Some(SendError(ResponseProtocol, PossiblySent, true, attempts))
  }

  /** An earlier attempt that may have been accepted overrides a rejection. */
  function Overridden(e: SendError, committedBefore: bool): SendError {
    if committedBefore && (e.code == Proxy || e.state == Rejected) then e.(state := PossiblySent) else e
  }

  function Classify(f: Failed, committed: bool, attempts: nat): SendError {
    var retryable := f.code == Dns || f.code == Connect || f.code == Io || f.code == AttemptTimeout
                     || (f.code == Proxy && !f.proxyAuth);
    SendError(f.code, if committed || f.committed then PossiblySent else NotSent, retryable, attempts)
  }

  /** The error an attempt ends with unless something terminal comes first. */
  function EntryError(e: Entry, committedBefore: bool, attempts: nat): Option<SendError> {
    match e
    case GivenUp(_) => None
    case Classified(report, tracked) =>
      if Malformed(report) then None
      else if report.failed.Some? then
        Some(Classify(report.failed.value, committedBefore || Raises(report, tracked), attempts))
      else
        var error := ResponseError(report.answer.value, attempts);
        if error.None? then None else Some(Overridden(error.value, committedBefore))
  }

  /** A report that calls for another attempt. */
  predicate WorthRepeating(r: Report) {
    || (r.failed.Some? && r.failed.value.code in {Dns, Connect, Io, AttemptTimeout})
    || (r.failed.Some? && r.failed.value.code == Proxy && !r.failed.value.proxyAuth)
    || (r.answer.Some? && r.answer.value.timedOut)
    || (r.answer.Some? && 200 <= r.answer.value.status <= 299 && r.answer.value.body == BodyMismatch)
    || (r.answer.Some? && !r.answer.value.retryForbidden
        && (r.answer.value.status in {409, 429} || 500 <= r.answer.value.status <= 599))
  }

  /** Only such an attempt is followed by another. */
  predicate Retryable(e: Entry) {
    e.Classified? && !Malformed(e.report) && WorthRepeating(e.report)
  }

  /** Only such an attempt delivers. */
  predicate Accepts(e: Entry) {
    && e.Classified? && !Malformed(e.report) && e.report.answer.Some? && !e.report.answer.value.timedOut
    && 200 <= e.report.answer.value.status < 300 && e.report.answer.value.body == BodyMatches
  }

  // ----- the floor -----

  predicate Unsure(s: State) {
    s == PossiblySent || s == CancelledUnknown
  }

  predicate FloorKept(s: State, floor: bool) {
    floor ==> Unsure(s)
  }

  lemma TerminalKeepsFloor(s: Sight, deadline: Int64, committed: bool, attempts: nat)
    ensures var e := PreAttemptTerminal(s, deadline, committed, attempts);
            e.Some? ==> FloorKept(e.value.state, committed) && e.value.attempts == attempts
    ensures var e := DeadlineTerminal(s, deadline, committed, attempts);
            e.Some? ==> FloorKept(e.value.state, committed) && e.value.attempts == attempts
  {
  }

  lemma ResponseKeepsFloor(r: Report, tracked: bool, committedBefore: bool, attempts: nat)
    requires r.answer.Some? && r.failed.None? && ResponseError(r.answer.value, attempts).Some?
    ensures var e := Overridden(ResponseError(r.answer.value, attempts).value, committedBefore);
            FloorKept(e.state, committedBefore || Raises(r, tracked)) && e.attempts == attempts
  {
  }

  lemma FailureKeepsFloor(r: Report, tracked: bool, committedBefore: bool, attempts: nat)
    requires r.answer.None? && r.failed.Some?
    ensures var committed := committedBefore || Raises(r, tracked);
            FloorKept(Classify(r.failed.value, committed, attempts).state, committed)
  {
  }

  // ----- the world -----

  /** Everything outside the loop, by the number of the look or the attempt. */
  datatype World = World(
    sight: nat -> Sight,
    attempt: nat -> Attempt,
    /** Whether the bounded call begun at a look returns before the deadline. */
    finishes: nat -> bool,
    entropy: nat -> Option<Int64>,
    sleeps: nat -> bool,
    builtInScheduler: bool)

  /** What an operation is given. */
  datatype Terms = Terms(config: Config, world: World, deadline: Int64)

  /** An expired deadline stays expired, and a bounded call is only abandoned when it has expired. */
  ghost predicate Sticky(w: World) {
    && (forall i: nat, j: nat | i <= j :: w.sight(i).deadlineDone ==> w.sight(j).deadlineDone)
    && (forall i: nat :: w.finishes(i) || w.sight(i + 1).deadlineDone)
  }

  /** The report the loop makes up for an attempt that missed its deadline. */
  function TimedOut(tracked: bool): Report {
    Report(None, Some(Failed(AttemptTimeout, tracked, false, false)))
  }

  /** Whether a look ends the operation, with whatever error. */
  predicate EndsAt(s: Sight, deadline: Int64) {
    LateAt(s, deadline) || s.exceeded || s.closed || s.cancelled
  }

  /** Whether a look turns an accepted response into an error. */
  predicate LateAt(s: Sight, deadline: Int64) {
    s.deadlineDone || s.clock == None || s.clock.value >= deadline
  }

  /** The state of an operation that ends for a reason of its own. */
  predicate Stopped(e: SendError, code: Code, committed: bool, attempts: nat) {
    && e.code == code && !e.retryable && e.attempts == attempts
    && e.state == if !committed then NotSent else if code in {Closed, Cancelled} then CancelledUnknown else PossiblySent
  }

  /** What a look ends the operation with: deadlines first, then closing, then cancelling, then the clock. */
  lemma TerminalExactly(s: Sight, deadline: Int64, committed: bool, attempts: nat)
    ensures var e := PreAttemptTerminal(s, deadline, committed, attempts);
            && (e.Some? <==> EndsAt(s, deadline))
            && (s.deadlineDone || s.exceeded ==> Stopped(e.value, OperationDeadline, committed, attempts))
            && (!s.deadlineDone && !s.exceeded && s.closed ==> Stopped(e.value, Closed, committed, attempts))
            && (!s.deadlineDone && !s.exceeded && !s.closed && s.cancelled ==>
                  Stopped(e.value, Cancelled, committed, attempts))
            && (e.Some? && !s.deadlineDone && !s.exceeded && !s.closed && !s.cancelled ==>
                  Stopped(e.value, if s.clock.None? then Configuration else OperationDeadline, committed, attempts))
    ensures var e := DeadlineTerminal(s, deadline, committed, attempts);
            && (e.Some? <==> LateAt(s, deadline))
            && (e.Some? ==> Stopped(e.value, if !s.deadlineDone && s.clock.None? then Configuration
                                    else OperationDeadline, committed, attempts))
  {
  }

  /** The code and the state that a response outside 200 to 299 stands for. */
  predicate StatusClass(status: int, code: Code, state: State) {
    && (status == 407 ==> code == Proxy && state == NotSent)
    && (status == 409 ==> code == HttpRejected && state == PossiblySent)
    && (status == 429 ==> code == RateLimited && state == Rejected)
    && (status >= 500 ==> code == ServerFailure && state == PossiblySent)
    && (status < 500 && status !in {407, 409, 429} ==> code == HttpRejected && state == Rejected)
  }

  /** The code and the state that a failing body of a response from 200 to 299 stands for. */
  predicate BodyClass(body: BodyCheck, code: Code, state: State) {
    && state == PossiblySent
    && (body == BodyTooLarge ==> code == ResponseTooLarge)
    && (body == BodyViolation || body == BodyMismatch ==> code == ResponseProtocol)
  }

  /** A rejection is no proof once an earlier attempt may have been accepted. */
  predicate Sure(state: State, plain: State, code: Code, committedBefore: bool) {
    state == if committedBefore && (plain == Rejected || code == Proxy) then PossiblySent else plain
  }

  /** The error an attempt itself stands for. */
  ghost predicate OwnError(e: SendError, r: Report, tracked: bool, committedBefore: bool) {
    && (e.retryable <==> WorthRepeating(r))
    && (r.failed.Some? ==>
          && e.code == r.failed.value.code
          && (e.state == PossiblySent <==> committedBefore || Raises(r, tracked) || r.failed.value.committed)
          && (e.state == PossiblySent || e.state == NotSent))
    && (r.answer.Some? ==>
          var a := r.answer.value;
          exists plain: State ::
            && Sure(e.state, plain, e.code, committedBefore)
            && (a.timedOut ==> e.code == AttemptTimeout && plain == PossiblySent)
            && (!a.timedOut && !(200 <= a.status <= 299) ==> StatusClass(a.status, e.code, plain))
            && (!a.timedOut && 200 <= a.status <= 299 ==> BodyClass(a.body, e.code, plain)))
  }

  ghost predicate OwnErrorOf(e: SendError, entry: Entry, committedBefore: bool) {
    entry.Classified? && OwnError(e, entry.report, entry.tracked, committedBefore)
  }

  /** Which reports raise the acceptance floor. */
  lemma RaisesExactly(r: Report, tracked: bool)
    requires !Malformed(r)
    ensures Raises(r, tracked) <==>
              || (r.answer.Some? && (200 <= r.answer.value.status <= 299 || r.answer.value.status == 409
                                     || r.answer.value.status >= 500))
              || (r.failed.Some? && r.failed.value.code !in {Dns, Connect, Proxy, Tls}
                  && (tracked || r.failed.value.committed))
  {
  }

  /** Which reports are well-formed. */
  lemma WellFormedExactly(r: Report)
    ensures !Malformed(r) <==>
              || (r.answer.Some? && r.failed.None? && r.answer.value.shaped)
              || (r.answer.None? && r.failed.Some?
                  && r.failed.value.code in {Dns, Connect, Proxy, Tls, Io, AttemptTimeout, Cancelled})
              || (r.answer.None? && r.failed.Some? && r.failed.value.code == Configuration
                  && r.failed.value.fromCredentials)
  {
  }

  /** Which attempts are repeated, and the error of each that is not accepted. */
  lemma ErrorsExactly(e: Entry, committedBefore: bool, attempts: nat)
    ensures var error := EntryError(e, committedBefore, attempts);
            && (error.Some? <==> e.Classified? && !Malformed(e.report) && !Accepts(e))
            && (error.Some? && error.value.retryable <==> Retryable(e))
            && (error.Some? ==>
                  error.value.attempts == attempts && OwnErrorOf(error.value, e, committedBefore))
  {
    if e.Classified? && !Malformed(e.report) && e.report.answer.Some? {
      AnswerErrors(e.report.answer.value, committedBefore, attempts);
      hide ResponseError, Overridden;
    }
  }

  lemma AnswerErrors(a: Answer, committedBefore: bool, attempts: nat)
    ensures var plain := ResponseError(a, attempts);
            && (plain.None? <==> !a.timedOut && 200 <= a.status <= 299 && a.body == BodyMatches)
            && (plain.Some? ==>
                  var e := Overridden(plain.value, committedBefore);
                  && e.attempts == attempts && e.code == plain.value.code && e.retryable == plain.value.retryable
                  && (e.retryable <==> WorthRepeating(Report(Some(a), None)))
                  && Sure(e.state, plain.value.state, e.code, committedBefore)
                  && (a.timedOut ==> e.code == AttemptTimeout && plain.value.state == PossiblySent)
                  && (!a.timedOut && !(200 <= a.status <= 299) ==> StatusClass(a.status, e.code, plain.value.state))
                  && (!a.timedOut && 200 <= a.status <= 299 ==> BodyClass(a.body, e.code, plain.value.state)))
  {
  }

  /** The transport call begun at a look did not complete in time. */
  predicate Missed(t: Terms, attempt: nat, look: nat) {
    !t.world.attempt(attempt).completed || t.world.sight(look).deadlineDone
  }

  /**
   What the loop sees of an attempt whose transport was called at a look: its
   report if it completed, the commit tracker alone if it did not and the next
   look ended the operation, and otherwise a made-up report.
   */
  function EntryOf(t: Terms, attempt: nat, look: nat): Entry {
    var seen := t.world.attempt(attempt);
    if !Missed(t, attempt, look) then Classified(seen.report, seen.tracked3)
    else if EndsAt(t.world.sight(look + 1), t.deadline) then GivenUp(seen.tracked1)
    else Classified(TimedOut(seen.tracked2), seen.tracked3)
  }

  /** Subtraction that wraps around in 64 bits. */
  function Subtract(a: Int64, b: Int64): (d: Int64)
    ensures MIN as int <= a as int - b as int <= MAX as int ==> d as int == a as int - b as int
  {
    var exact := a as int - b as int;
    if exact > MAX as int then (exact - 0x1_0000_0000_0000_0000) as Int64
    else if exact < MIN as int then (exact + 0x1_0000_0000_0000_0000) as Int64
    else exact as Int64
  }

  datatype Asked = NoDelay | AskedFor(nanos: Int64) | WallClockFailed

  function Wanted(asked: Asked): Option<Int64> {
    if asked.AskedFor? then Some(asked.nanos) else None
  }

  /** The Retry-After delay a response asks for, if it can be used. */
  function AskedOf(answer: Option<Answer>): Asked {
    if answer.None? || B.RetryAfterValue(answer.value.retryAfter).None? then NoDelay
    else
      match B.DeltaOf(B.RetryAfterValue(answer.value.retryAfter).value)
      case Delta(nanos) => AskedFor(nanos)
      case Unusable => NoDelay
      case NotDigits =>
        if !answer.value.needsWall then NoDelay
        else if answer.value.wallFailed then WallClockFailed
        else if answer.value.date.Some? then AskedFor(answer.value.date.value)
        else NoDelay
  }

  /** What a response asks for, by the spelling of its one Retry-After value; a date needs the wall clock. */
  lemma AskedExactly(a: Answer, value: Text)
    requires a.retryAfter != [] && value != [] && forall i | 0 <= i < |a.retryAfter| :: a.retryAfter[i] == value
    ensures var digits := forall i | 0 <= i < |value| :: 0x30 <= value[i] <= 0x39;
            var asked := AskedOf(Some(a));
            && (asked == WallClockFailed <==> !digits && a.needsWall && a.wallFailed)
            && (digits ==>
                  if 1 <= DecimalValue(value) <= 9_223_372_036
                  then asked.AskedFor? && asked.nanos as int == DecimalValue(value) * 1_000_000_000
                  else asked == NoDelay)
            && (!digits && !(a.needsWall && a.wallFailed) ==>
                  asked == if a.needsWall && a.date.Some? then AskedFor(a.date.value) else NoDelay)
  {
    B.RetryAfterExactly(a.retryAfter, value);
    B.DeltaExactly(value, if B.AllDigits(value) then DecimalValue(value) else 0);
    hide B.RetryAfterValue;
  }

  /** Without a value, or with values that differ, it asks for nothing. */
  lemma NothingAsked(a: Answer)
    requires a.retryAfter == [] || a.retryAfter[0] == [] || exists v | v in a.retryAfter :: v != a.retryAfter[0]
    ensures AskedOf(Some(a)) == NoDelay && AskedOf(None) == NoDelay
  {
  }

  // ----- the trace of one attempt -----

  /** The time left in milliseconds, computed in 64 bits as it stands. */
  function Left(deadline: Int64, now: Int64): Int64 {
    var nanos := Subtract(deadline, now);
    if nanos <= 0 then 0 else nanos / B.NANOS_PER_MILLI
  }

  /** The response the loop classified, if it classified one. */
  function AnswerOf(e: Entry): Option<Answer> {
    if e.Classified? then e.report.answer else None
  }

  /** The cap of an attempt in milliseconds. */
  function Cap(config: Config, attempt: nat, left: int): int
    requires attempt >= 1
  {
    B.Least(config.base as int * B.Power2(attempt - 1), config.maximum as int, left)
  }

  /** A delay can be chosen: the clock works, time is left, the jitter is within the cap and the wall clock works. */
  predicate CanWait(t: Terms, attempt: nat, answer: Option<Answer>, waited: nat)
    requires attempt >= 1
  {
    var clock, jitter := t.world.sight(waited).clock, t.world.entropy(waited + 2);
    && clock.Some? && jitter.Some? && !AskedOf(answer).WallClockFailed?
    && var left := Left(t.deadline, clock.value);
       left > 0 && 0 <= jitter.value as int <= Cap(t.config, attempt, left as int)
  }

  /**
   The delay after an attempt, exactly: a jitter within the cap, or the longer
   of it and the Retry-After asked for, cut to 60 s and to the time left.
   */
  predicate DelayIs(t: Terms, attempt: nat, answer: Option<Answer>, waited: nat, delay: Int64)
    requires attempt >= 1
  {
    && CanWait(t, attempt, answer, waited)
    && var left := Left(t.deadline, t.world.sight(waited).clock.value);
       delay as int ==
       B.Delay(t.world.entropy(waited + 2).value, Wanted(AskedOf(answer)), left) as int * 1_000_000
  }

  /**
   At least the jitter, at most the larger of the two caps. It ends by the
   exclusive deadline if and only if the subtraction of the reading from the
   deadline does not wrap around below.
   */
  lemma DelayBounds(t: Terms, attempt: nat, answer: Option<Answer>, waited: nat, delay: Int64)
    requires attempt >= 1 && DelayIs(t, attempt, answer, waited, delay)
    ensures var now := t.world.sight(waited).clock.value;
            var jitter, left := t.world.entropy(waited + 2).value, Left(t.deadline, now);
            && 0 <= jitter as int * 1_000_000 <= delay as int
            && (delay as int <= Cap(t.config, attempt, left as int) * 1_000_000 || delay as int <= 60_000 * 1_000_000)
            && (now as int + delay as int <= t.deadline as int <==> t.deadline as int - now as int >= MIN as int)
  {
    var left := Left(t.deadline, t.world.sight(waited).clock.value);
    hide Cap, AskedOf;
    assert left as int * 1_000_000 <= Subtract(t.deadline, t.world.sight(waited).clock.value) as int;
  }

  /** A number of seconds asked for is waited out, up to 60 s and the time left. */
  lemma DelayHonoursRetryAfter(t: Terms, attempt: nat, answer: Answer, waited: nat, delay: Int64, value: Text)
    requires attempt >= 1 && DelayIs(t, attempt, Some(answer), waited, delay)
    requires B.AllDigits(value) && B.RetryAfterValue(answer.retryAfter) == Some(value)
    requires 1 <= DecimalValue(value) <= (MAX / B.NANOS_PER_SECOND) as int
    ensures var left := Left(t.deadline, t.world.sight(waited).clock.value);
            delay as int >= B.Least(DecimalValue(value) * 1_000, 60_000, left as int) * 1_000_000
  {
    hide Cap, B.RetryAfterValue, Left;
    assert AskedOf(Some(answer)) == AskedFor(DecimalValue(value) as Int64 * B.NANOS_PER_SECOND);
  }

  // ----- the looks of a run -----

  /** A bounded call begun at a look returns before the deadline. */
  predicate InTime(t: Terms, look: nat) {
    !t.world.sight(look).deadlineDone && t.world.finishes(look)
  }

  /** Looks that the call of a scheduler of the user's takes. */
  function Naps(t: Terms): nat {
    if t.world.builtInScheduler then 0 else 1
  }

  /** The sleep begun at a look returns, and the look after it does not end the operation. */
  predicate Sleeps(t: Terms, look: nat) {
    && (t.world.builtInScheduler || InTime(t, look))
    && t.world.sleeps(look + Naps(t)) && !EndsAt(t.world.sight(look + Naps(t)), t.deadline)
  }

  /** A delay is chosen in the wait begun at a look. */
  predicate Delayed(t: Terms, attempt: nat, answer: Option<Answer>, waited: nat)
    requires attempt >= 1
  {
    CanWait(t, attempt, answer, waited) && InTime(t, waited + 1)
  }

  /** The three looks before an attempt let it start. */
  predicate Opens(t: Terms, start: nat) {
    && !EndsAt(t.world.sight(start), t.deadline)
    && t.world.sight(start + 1).clock.Some?
    && !EndsAt(t.world.sight(start + 2), t.deadline)
  }

  /** The look at which a wait begins, if the attempt called at `look` is followed by one. */
  function WaitLook(t: Terms, attempt: nat, look: nat): nat {
    look + if Missed(t, attempt, look) then 3 else 2
  }

  /** The attempt called at `look` is one to repeat, and the look after it does not end the operation. */
  predicate Repeats(t: Terms, attempt: nat, look: nat) {
    && attempt < t.config.maxAttempts && Retryable(EntryOf(t, attempt, look))
    && !EndsAt(t.world.sight(WaitLook(t, attempt, look) - 1), t.deadline)
  }

  /** A delay is chosen after the attempt called at `look`. */
  predicate Pauses(t: Terms, attempt: nat, look: nat)
    requires attempt >= 1
  {
    && Repeats(t, attempt, look)
    && Delayed(t, attempt, AnswerOf(EntryOf(t, attempt, look)), WaitLook(t, attempt, look))
  }

  /** The attempt called at `look` ends the operation with its own error. */
  predicate Exhausts(t: Terms, attempt: nat, committedBefore: bool, look: nat) {
    var error := EntryError(EntryOf(t, attempt, look), committedBefore, attempt);
    && error.Some? && !EndsAt(t.world.sight(WaitLook(t, attempt, look) - 1), t.deadline)
    && (!error.value.retryable || attempt == t.config.maxAttempts)
  }

  /** The attempt called at `look` delivers. */
  predicate Delivers(t: Terms, attempt: nat, look: nat) {
    Accepts(EntryOf(t, attempt, look)) && !LateAt(t.world.sight(look + 1), t.deadline)
  }

  /** The loop goes on after the attempt called at `look`. */
  predicate GoesOn(t: Terms, attempt: nat, look: nat)
    requires attempt >= 1
  {
    Pauses(t, attempt, look) && Sleeps(t, WaitLook(t, attempt, look) + 2)
  }

  /** The first look of the round after `n` attempts, of a loop that begins at `start`. */
  function GateLook(t: Terms, start: nat, n: nat): nat {
    if n == 0 then start else WaitLook(t, n, GateLook(t, start, n - 1) + 3) + 3 + Naps(t)
  }

  /** The look at which the transport is called for the attempt after `n` others. */
  function CallLook(t: Terms, start: nat, n: nat): nat {
    GateLook(t, start, n) + 3
  }

  const IO_FAILURE: Report := Report(None, Some(Failed(Io, false, false, false)))

  /**
   An operation whose attempts fail, and whose clock is before the deadline until
   it jumps, at the look that begins a wait, past the deadline by more than the
   range of a 64-bit integer.
   */
  function Wrapped(waited: nat): Terms {
    Terms(
      Config(2, 250, 60_000),
      World((look: nat) => Sight(false, false, false, false, Some(if look < waited then -10 else MAX)),
            (attempt: nat) => Attempt(IO_FAILURE, true, false, false, false),
            (look: nat) => true, (look: nat) => Some(250), (look: nat) => true, true),
      -2)
  }

  /**
   Begun so that its first wait begins at the jump, it chooses a delay there,
   although the deadline is long past, because the subtraction wraps around.
   */
  lemma WrappedReading(start: nat)
    ensures var t := Wrapped(start + 5);
            && ValidConfig(t.config) && Sticky(t.world) && Opens(t, start)
            && WaitLook(t, 1, CallLook(t, start, 0)) == start + 5 && Pauses(t, 1, CallLook(t, start, 0))
            && DelayIs(t, 1, None, start + 5, 250_000_000)
            && t.world.sight(start + 5).clock == Some(MAX) && MAX as int + 250_000_000 > t.deadline as int
  {
    IoIsRetryable();
    hide Retryable, EntryError;
    var t := Wrapped(start + 5);
    assert EntryOf(t, 1, start + 3) == Classified(IO_FAILURE, false);
    assert B.Power2(0) == 1;
    assert Cap(t.config, 1, Left(t.deadline, MAX) as int) == 250;
  }

  lemma IoIsRetryable()
    ensures Retryable(Classified(IO_FAILURE, false))
  {
  }

  predicate DelayEvent(k: Kind, attempt: nat, floor: bool) {
    k.RetryDelay? && k.number == attempt && FloorKept(k.state, floor)
  }

  predicate EndEvent(k: Kind, attempt: nat, floor: bool) {
    k.AttemptEnd? && k.number == attempt && (k.state == Accepted || FloorKept(k.state, floor))
  }

  predicate Appended(before: seq<Event>, after: seq<Event>, n: nat) {
    |after| == |before| + n && before <= after
  }

  /** The events an attempt adds: none if it never started, else its start, its end and at most one delay. */
  predicate AttemptTrace(before: seq<Event>, after: seq<Event>, attempt: nat, n: nat, floor: bool) {
    && n in {0, 2, 3} && Appended(before, after, n)
    && (n >= 2 ==> after[|before|].kind == AttemptStart(attempt) && EndEvent(after[|before| + 1].kind, attempt, floor))
    && (n == 3 ==> DelayEvent(after[|before| + 2].kind, attempt, floor))
  }

  /** The delay among the events of an attempt, if there is one, is the one its response calls for. */
  predicate Waited(t: Terms, before: seq<Event>, after: seq<Event>, attempt: nat, n: nat, answer: Option<Answer>,
                   waited: nat)
    requires attempt >= 1
  {
    n == 3 ==>
      && |after| == |before| + 3 && after[|before| + 2].kind.RetryDelay?
      && DelayIs(t, attempt, answer, waited, after[|before| + 2].kind.delay)
  }

  datatype Result = Delivered | Error(error: SendError)

  datatype Round = Again(committed: bool) | Done(result: Result)

  class Operation {
    const config: Config
    const world: World
    const deadline: Int64
    const trace: OperationObservability
    /** Looks taken so far. */
    var tick: nat

    constructor (terms: Terms, trace: OperationObservability)
      ensures config == terms.config && world == terms.world && deadline == terms.deadline && this.trace == trace
              && tick == 0
    {
      config, world, deadline, this.trace, tick := terms.config, terms.world, terms.deadline, trace, 0;
    }

    ghost function Given(): Terms {
      Terms(config, world, deadline)
    }

    ghost predicate Ready()
      reads this, trace
    {
      ValidConfig(config) && Sticky(world) && trace.Valid() && !trace.finished
    }

    method Look() returns (s: Sight)
      modifies this`tick
      ensures tick == old(tick) + 1 && s == world.sight(old(tick))
    {
      s := world.sight(tick);
      tick := tick + 1;
    }

    method Terminal(committed: bool, attempts: nat) returns (e: Option<SendError>)
      modifies this`tick
      ensures tick == old(tick) + 1 && e == PreAttemptTerminal(world.sight(old(tick)), deadline, committed, attempts)
      ensures e.Some? ==> FloorKept(e.value.state, committed) && e.value.attempts == attempts
      ensures e.Some? <==> EndsAt(world.sight(old(tick)), deadline)
    {
      var s := Look();
      TerminalExactly(s, deadline, committed, attempts);
      TerminalKeepsFloor(s, deadline, committed, attempts);
      e := PreAttemptTerminal(s, deadline, committed, attempts);
    }

    /** A call that is abandoned when the operation's deadline passes. */
    method BoundedCall() returns (completed: bool)
      requires Sticky(world)
      modifies this`tick
      ensures tick == old(tick) + 1 && (!completed ==> world.sight(tick).deadlineDone)
      ensures completed <==> InTime(Given(), old(tick))
    {
      completed := !world.sight(tick).deadlineDone && world.finishes(tick);
      tick := tick + 1;
    }

    method AskedDelay(answer: Option<Answer>) returns (asked: Asked)
      ensures asked == AskedOf(answer)
    {
      hide B.RetryAfterValue, B.DeltaOf;
      if answer.None? { return NoDelay; }
      var value := B.OneRetryAfter(answer.value.retryAfter);
      if value.None? { return NoDelay; }
      var delta := B.ParseRetryAfterDelta(value.value);
      match delta
      case Delta(nanos) => return AskedFor(nanos);
      case Unusable => return NoDelay;
      case NotDigits =>
        if !answer.value.needsWall { return NoDelay; }
        if answer.value.wallFailed { return WallClockFailed; }
        return if answer.value.date.Some? then AskedFor(answer.value.date.value) else NoDelay;
    }

    /** Waits before another attempt; nothing means go on, and only after a delay. */
    method Backoff(last: SendError, answer: Option<Answer>, attempt: nat, committed: bool)
      returns (e: Option<SendError>)
      requires Ready() && attempt >= 1 && last.attempts == attempt && FloorKept(last.state, committed)
      modifies this, trace
      ensures Ready() && trace.attemptNumber == old(trace.attemptNumber)
      ensures e.Some? ==> e.value.attempts == attempt && FloorKept(e.value.state, committed)
      ensures e.None? <==> Delayed(Given(), attempt, answer, old(tick)) && Sleeps(Given(), old(tick) + 2)
      ensures e.None? ==> tick == old(tick) + 3 + Naps(Given())
      ensures if !Delayed(Given(), attempt, answer, old(tick)) then trace.events == old(trace.events)
              else && Appended(old(trace.events), trace.events, 1)
                   && var k := trace.events[|old(trace.events)|].kind;
                      DelayEvent(k, attempt, committed) && DelayIs(Given(), attempt, answer, old(tick), k.delay)
    {
      hide B.Delay, Cap, B.Power2, Sticky, Ordered, Capped, Observability.Ends, AskedOf, Left, Subtract, Sleeps, InTime,
           EndsAt;
      var s := Look();
      if s.clock.None? { return Some(HookError(ForCommit(committed), attempt)); }
      var left := Left(deadline, s.clock.value);
      if left <= 0 { return Some(DeadlineError(committed, attempt)); }
      var cap := B.RetryCap(config.base, config.maximum, attempt, left);
      CapIs(config, attempt, left as int);
      var completed := BoundedCall();
      if !completed {
        e := Terminal(committed, attempt);
        return;
      }
      var entropy := world.entropy(tick);
      LeftBounded(deadline, s.clock.value);
      if entropy.None? || entropy.value < 0 || entropy.value >= cap + 1 { return Some(HookError(last.state, attempt)); }
      var asked := AskedDelay(answer);
      if asked.WallClockFailed? { return Some(HookError(last.state, attempt)); }
      DelayFits(entropy.value, Wanted(asked), left);
      var delay := B.Delay(entropy.value, Wanted(asked), left) * B.NANOS_PER_MILLI;
      trace.Retry(delay, last);
      e := Sleep(last, attempt, committed);
    }

    /** Sleeps through the scheduler and looks again. */
    method Sleep(last: SendError, attempt: nat, committed: bool) returns (e: Option<SendError>)
      requires Sticky(world) && last.attempts == attempt && FloorKept(last.state, committed)
      modifies this`tick
      ensures e.Some? ==> e.value.attempts == attempt && FloorKept(e.value.state, committed)
      ensures e.None? <==> Sleeps(Given(), old(tick))
      ensures e.None? ==> tick == old(tick) + Naps(Given()) + 1
    {
      var completed := true;
      if !world.builtInScheduler { completed := BoundedCall(); }
      if !completed {
        e := Terminal(committed, attempt);
        assert e.Some?;
        return;
      }
      var slept := world.sleeps(tick);
      e := Terminal(committed, attempt);
      if e.Some? { return; }
      if !slept {
        e := Terminal(committed, attempt);
        if e.Some? { return; }
        return Some(HookError(last.state, attempt));
      }
    }

    /** The checks before an attempt starts. */
    method Gate(attempt: nat, committed: bool) returns (e: Option<SendError>)
      requires attempt >= 1
      modifies this`tick
      ensures e.Some? ==> FloorKept(e.value.state, committed) && e.value.attempts == attempt - 1
      ensures e.None? <==> Opens(Given(), old(tick))
      ensures e.None? ==> tick == old(tick) + 3
    {
      e := Terminal(committed, attempt - 1);
      if e.Some? { return; }
      var s := Look();
      e := Terminal(committed, attempt - 1);
      if e.Some? { return; }
      if s.clock.None? { return Some(HookError(ForCommit(committed), attempt - 1)); }
    }

    /** The transport call; an expired deadline gives an empty report at once. */
    method CallTransport(attempt: nat) returns (report: Report, completed: bool)
      modifies this`tick
      ensures report == (if world.sight(old(tick)).deadlineDone then Report(None, None)
                         else world.attempt(attempt).report)
      ensures completed <==> !world.sight(old(tick)).deadlineDone && world.attempt(attempt).completed
      ensures tick == old(tick) + 1
    {
      var s := Look();
      if s.deadlineDone { return Report(None, None), false; }
      report, completed := world.attempt(attempt).report, world.attempt(attempt).completed;
    }

    /** The report the loop goes on with, or the error with which the operation ends here. */
    method Await(attempt: nat, committed: bool) returns (e: Option<SendError>, report: Report)
      requires Sticky(world)
      modifies this`tick
      ensures var seen := world.attempt(attempt);
              EntryOf(Given(), attempt, old(tick)) ==
              if e.Some? then GivenUp(seen.tracked1) else Classified(report, seen.tracked3)
      ensures tick == WaitLook(Given(), attempt, old(tick)) - 1
      ensures e.Some? ==>
                FloorKept(e.value.state, committed || world.attempt(attempt).tracked1) && e.value.attempts == attempt
    {
      e := None;
      StaysLate(world, tick);
      var completed;
      report, completed := CallTransport(attempt);
      if !completed {
        e := Terminal(committed || world.attempt(attempt).tracked1, attempt);
        if e.None? { report := TimedOut(world.attempt(attempt).tracked2); }
      }
    }

    /** Ends the attempt that was started last. */
    method End(e: Option<SendError>, retryable: bool, ghost before: seq<Event>, attempt: nat, ghost floor: bool)
      requires Ready() && trace.attemptNumber == attempt >= 1
      requires Appended(before, trace.events, 1) && trace.events[|before|].kind == AttemptStart(attempt)
      requires e.Some? ==> FloorKept(e.value.state, floor)
      modifies trace
      ensures Ready() && trace.attemptNumber == 0 && AttemptTrace(before, trace.events, attempt, 2, floor)
    {
      hide Ordered, Capped, Observability.Ends, ValidConfig, Sticky, OutcomeOf;
      trace.EndAttempt(e, retryable, world.sight(tick).closed);
    }

    /** A retryable error: waits for another attempt unless this was the last. */
    method RetryOrFail(error: SendError, answer: Option<Answer>, attempt: nat, committed: bool,
                       ghost before: seq<Event>)
      returns (r: Round, ghost n: nat)
      requires Ready() && trace.attemptNumber == attempt && 1 <= attempt <= config.maxAttempts
      requires Appended(before, trace.events, 1) && trace.events[|before|].kind == AttemptStart(attempt)
      requires error.attempts == attempt && FloorKept(error.state, committed)
      modifies this, trace
      ensures Ready() && trace.attemptNumber == 0 && n >= 2
      ensures AttemptTrace(before, trace.events, attempt, n, committed)
      ensures Waited(Given(), before, trace.events, attempt, n, answer, old(tick))
      ensures n == 3 <==>
                error.retryable && attempt < config.maxAttempts && Delayed(Given(), attempt, answer, old(tick))
      ensures r.Again? <==> n == 3 && Sleeps(Given(), old(tick) + 2)
      ensures r.Again? ==> r.committed == committed && tick == old(tick) + 3 + Naps(Given())
      ensures !error.retryable || attempt == config.maxAttempts ==> r == Done(Error(error))
      ensures r.Done? ==>
                r.result.Error? && FloorKept(r.result.error.state, committed) && r.result.error.attempts == attempt
    {
      hide Ordered, Capped, Observability.Ends, ValidConfig, Sticky, EndEvent, DelayIs, Delayed, Sleeps;
      if !error.retryable || attempt == config.maxAttempts {
        End(Some(error), false, before, attempt, committed);
        return Done(Error(error)), 2;
      }
      End(Some(error), true, before, attempt, committed);
      var e := Backoff(error, answer, attempt, committed);
      n := |trace.events| - |before|;
      return if e.Some? then Done(Error(e.value)) else Again(committed), n;
    }

    method TakeAnswer(report: Report, ghost tracked: bool, attempt: nat, committedBefore: bool,
                      ghost before: seq<Event>)
      returns (r: Round, ghost n: nat)
      requires Ready() && trace.attemptNumber == attempt && 1 <= attempt <= config.maxAttempts
      requires Appended(before, trace.events, 1) && trace.events[|before|].kind == AttemptStart(attempt)
      requires report.answer.Some? && !Malformed(report)
      modifies this, trace
      ensures Ready() && trace.attemptNumber == 0 && n >= 2
      ensures Waited(Given(), before, trace.events, attempt, n, report.answer, old(tick) + 1)
      ensures var floor := committedBefore || Raises(report, tracked);
              && AttemptTrace(before, trace.events, attempt, n, floor)
              && (r.Again? ==> r.committed == floor)
              && (r.Done? && r.result.Error? ==>
                    FloorKept(r.result.error.state, floor) && r.result.error.attempts == attempt)
      ensures Took(r, n, old(tick), Classified(report, tracked), attempt, committedBefore)
    {
      hide Ordered, Capped, Observability.Ends, ValidConfig, Sticky, ResponseError, Overridden, AttemptTrace, DelayIs,
           Delayed, Sleeps, Accepts, EntryError, Malformed;
      WellFormed(report);
      var answer := report.answer.value;
      var committed := committedBefore || MayHaveBeenAccepted(answer.status);
      var error := ResponseError(answer, attempt);
      AnswerEntry(report, tracked, committedBefore, attempt);
      ErrorsExactly(Classified(report, tracked), committedBefore, attempt);
      hide Retryable, OwnErrorOf;
      if error.None? {
        var s := Look();
        TerminalExactly(s, deadline, committed, attempt);
        var late := DeadlineTerminal(s, deadline, committed, attempt);
        TerminalKeepsFloor(s, deadline, committed, attempt);
        End(late, false, before, attempt, committed);
        return Done(if late.Some? then Error(late.value) else Delivered), 2;
      }
      ResponseKeepsFloor(report, tracked, committedBefore, attempt);
      var responseError := Overridden(error.value, committedBefore);
      var e := Terminal(committed, attempt);
      if e.Some? {
        End(e, false, before, attempt, committed);
        return Done(Error(e.value)), 2;
      }
      r, n := RetryOrFail(responseError, Some(answer), attempt, committed, before);
    }

    /** What becomes of an entry at the look `at` after the attempt. */
    ghost predicate Took(r: Round, n: nat, at: nat, entry: Entry, attempt: nat, committedBefore: bool)
      requires attempt >= 1
      reads this
    {
      var error := EntryError(entry, committedBefore, attempt);
      var goes := attempt < config.maxAttempts && Retryable(entry)
                  && !EndsAt(world.sight(at), deadline) && Delayed(Given(), attempt, AnswerOf(entry), at + 1);
      && (n == 3 <==> goes) && (r.Again? <==> goes && Sleeps(Given(), at + 3))
      && (r.Again? ==> tick == at + 4 + Naps(Given()))
      && (r == Done(Delivered) <==> Accepts(entry) && !LateAt(world.sight(at), deadline))
      && (&& error.Some? && !EndsAt(world.sight(at), deadline)
          && (!error.value.retryable || attempt == config.maxAttempts)
          ==> r == Done(Error(error.value)))
    }

    method TakeFailure(report: Report, tracked: bool, attempt: nat, committedBefore: bool, ghost before: seq<Event>)
      returns (r: Round, ghost n: nat)
      requires Ready() && trace.attemptNumber == attempt && 1 <= attempt <= config.maxAttempts
      requires Appended(before, trace.events, 1) && trace.events[|before|].kind == AttemptStart(attempt)
      requires report.failed.Some? && !Malformed(report)
      modifies this, trace
      ensures Ready() && trace.attemptNumber == 0 && n >= 2
      ensures Waited(Given(), before, trace.events, attempt, n, report.answer, old(tick) + 1)
      ensures var floor := committedBefore || Raises(report, tracked);
              && AttemptTrace(before, trace.events, attempt, n, floor)
              && (r.Again? ==> r.committed == floor)
              && (r.Done? ==>
                    r.result.Error? && FloorKept(r.result.error.state, floor) && r.result.error.attempts == attempt)
      ensures Took(r, n, old(tick), Classified(report, tracked), attempt, committedBefore)
    {
      WellFormed(report);
      hide Ordered, Capped, Observability.Ends, ValidConfig, Sticky, Raises, Malformed, Classify, EntryError,
           AttemptTrace, DelayIs, Delayed, Sleeps, Accepts, LateAt;
      var committed := committedBefore || Raises(report, tracked);
      var failure := Classify(report.failed.value, committed, attempt);
      FailureKeepsFloor(report, tracked, committedBefore, attempt);
      FailureEntry(report, tracked, committedBefore, attempt);
      var e := Terminal(committed, attempt);
      if e.Some? {
        End(e, false, before, attempt, committed);
        return Done(Error(e.value)), 2;
      }
      r, n := RetryOrFail(failure, None, attempt, committed, before);
    }

    /** One attempt from its gate to its end or to the next one. */
    method Round(attempt: nat, committed: bool) returns (r: Round, ghost n: nat, ghost entry: Entry)
      requires Ready() && trace.attemptNumber == 0 && 1 <= attempt <= config.maxAttempts
      modifies this, trace
      ensures Ready() && trace.attemptNumber == 0
      ensures var floor := committed || RaisedBy(entry);
              && AttemptTrace(old(trace.events), trace.events, attempt, n, floor)
              && (r.Again? ==> r.committed == floor)
              && (r.Done? && r.result.Error? ==>
                    && FloorKept(r.result.error.state, floor)
                    && r.result.error.attempts == if n == 0 then attempt - 1 else attempt)
      ensures n == 0 <==> !Opens(Given(), old(tick))
      ensures n == 0 ==> r.Done? && r.result.Error? && !RaisedBy(entry)
      ensures n > 0 ==> entry == EntryOf(Given(), attempt, old(tick) + 3)
      ensures n > 0 ==> Became(r, n, old(tick) + 3, attempt, committed)
      ensures Waited(Given(), old(trace.events), trace.events, attempt, n, AnswerOf(entry),
                     WaitLook(Given(), attempt, old(tick) + 3))
    {
      hide Ordered, Capped, Observability.Ends, ValidConfig, Raises, Malformed, Classify, ResponseError, EndEvent,
           DelayEvent, Overridden, DelayIs, Sticky, Opens, EntryOf, WaitLook, Took, Became;
      ghost var before := trace.events;
      entry := GivenUp(false);
      var e := Gate(attempt, committed);
      if e.Some? { return Done(Error(e.value)), 0, entry; }
      trace.StartAttempt(attempt);
      var seen := world.attempt(attempt);
      ghost var look := tick;
      var report;
      e, report := Await(attempt, committed);
      entry := EntryOf(Given(), attempt, look);
      if e.Some? {
        End(e, false, before, attempt, committed || seen.tracked1);
        BecameGivenUp(Done(Error(e.value)), look, attempt, committed);
        return Done(Error(e.value)), 2, entry;
      }
      if Malformed(report) {
        var malformed := SendError(Io, PossiblySent, false, attempt);
        End(Some(malformed), false, before, attempt, committed || Raises(report, seen.tracked3));
        BecameMalformed(Done(Error(malformed)), look, attempt, committed);
        return Done(Error(malformed)), 2, entry;
      }
      WellFormed(report);
      ghost var at := tick;
      if report.answer.Some? {
        r, n := TakeAnswer(report, seen.tracked3, attempt, committed, before);
      } else {
        r, n := TakeFailure(report, seen.tracked3, attempt, committed, before);
      }
      TookBecame(r, n, at, look, attempt, committed);
    }

    /** What becomes of the attempt called at `look`. */
    ghost predicate Became(r: Round, n: nat, look: nat, attempt: nat, committedBefore: bool)
      requires attempt >= 1
      reads this
    {
      var t := Given();
      && (n == 3 <==> Pauses(t, attempt, look))
      && (r.Again? <==> GoesOn(t, attempt, look))
      && (r.Again? ==> tick == WaitLook(t, attempt, look) + 3 + Naps(t))
      && (r == Done(Delivered) <==> Delivers(t, attempt, look))
      && (Exhausts(t, attempt, committedBefore, look) ==>
            r == Done(Error(EntryError(EntryOf(t, attempt, look), committedBefore, attempt).value)))
    }

    lemma BecameGivenUp(r: Round, look: nat, attempt: nat, committedBefore: bool)
      requires attempt >= 1 && EntryOf(Given(), attempt, look).GivenUp? && r.Done? && r.result.Error?
      ensures Became(r, 2, look, attempt, committedBefore)
    {
      hide EntryOf, Delayed, Sleeps;
    }

    lemma BecameMalformed(r: Round, look: nat, attempt: nat, committedBefore: bool)
      requires attempt >= 1 && EntryOf(Given(), attempt, look).Classified?
      requires Malformed(EntryOf(Given(), attempt, look).report) && r.Done? && r.result.Error?
      ensures Became(r, 2, look, attempt, committedBefore)
    {
      hide EntryOf, Delayed, Sleeps, Malformed;
    }

    lemma TookBecame(r: Round, n: nat, at: nat, look: nat, attempt: nat, committedBefore: bool)
      requires attempt >= 1 && at == WaitLook(Given(), attempt, look) - 1
      requires EntryOf(Given(), attempt, look).Classified?
      requires Took(r, n, at, EntryOf(Given(), attempt, look), attempt, committedBefore)
      ensures Became(r, n, look, attempt, committedBefore)
    {
      MissedIsRefused(Given(), attempt, look);
      hide EntryOf, Delayed, Sleeps, EntryError, Accepts;
    }

    /** Attempts until one settles the operation; the loop never runs off its end. */
    method Attempts() returns (result: Result, ghost log: seq<Entry>, ghost trailing: bool)
      requires Ready() && trace.attemptNumber == 0
      requires |trace.events| == 1 && trace.events[0].kind == OperationStart
      modifies this, trace
      ensures Ready() && trace.attemptNumber == 0
      ensures |log| <= config.maxAttempts
      ensures Unfolds(Given(), old(tick), log) && Ceases(Given(), old(tick), log)
      ensures Concludes(Given(), old(tick), log, trailing, result)
      ensures Rounds(trace.events, log, trailing) && Delays(Given(), old(tick), trace.events, log, trailing)
      ensures Summarised(Ends(trace.events), |log|)
      ensures result.Error? ==> FloorKept(result.error.state, Raised(log, |log|)) && result.error.attempts == |log|
      ensures result.Delivered? ==> log != [] && !trailing && Accepts(log[|log| - 1])
      ensures RetriedOnly(log, |log| - 1)
    {
      hide Ordered, Capped, Ends, Sticky, AttemptTrace, Rounds, Raised, RaisedBy, Delays, Waited, Opens, GoesOn, Pauses,
           Delivers, Exhausts, EntryOf, WaitLook, EntryError, Unfolds, Ceases, Concludes, Accepts, RetriedOnly;
      log := [];
      var committed, attempt := false, 1;
      ghost var t, start := Given(), tick;
      StartRounds(t, start, trace.events);
      while attempt <= config.maxAttempts
        invariant 1 <= attempt <= config.maxAttempts && |log| == attempt - 1
        invariant Ready() && trace.attemptNumber == 0 && tick == GateLook(t, start, |log|)
        invariant Unfolds(t, start, log) && (committed <==> Raised(log, |log|))
        invariant log != [] ==> GoesOn(t, |log|, CallLook(t, start, |log| - 1))
        invariant Rounds(trace.events, log, true) && Delays(t, start, trace.events, log, true)
        invariant Summarised(Ends(trace.events), |log|)
        decreases config.maxAttempts - attempt
      {
        ghost var before := trace.events;
        var r, n, entry := Round(attempt, committed);
        RoundsLength(before, log, true);
        ExtendRounds(before, trace.events, log, entry, n);
        ExtendDelays(t, start, before, trace.events, log, entry, n);
        RaisedMore(log, entry);
        ghost var grown := if n == 0 then log else log + [entry];
        if n == 0 {
          Refused(t, start, log, r.result);
        } else {
          Made(t, start, log, entry);
          if r.Done? {
            Settled(t, start, grown, n == 3, r.result);
          } else {
            GoingOn(t, attempt, committed, CallLook(t, start, |log|));
          }
        }
        log := grown;
        if r.Done? {
          OnlyRetryable(t, start, log, n != 2, r.result);
          return r.result, log, n != 2;
        }
        committed := r.committed;
        attempt := attempt + 1;
      }
      assert false;
    }

    /** The whole operation once its preparation is over, with its last event. */
    method Send(prelude: Option<SendError>) returns (result: Result, ghost log: seq<Entry>, ghost trailing: bool)
      requires Ready() && trace.attemptNumber == 0
      requires |trace.events| == 1 && trace.events[0].kind == OperationStart
      requires prelude.Some? ==> prelude.value.state == NotSent && prelude.value.attempts == 0
      modifies this, trace
      ensures trace.finished && Ordered(trace.events)
      ensures |log| <= config.maxAttempts
      ensures if prelude.Some? then log == [] && result == Error(prelude.value)
              else && Unfolds(Given(), old(tick), log) && Ceases(Given(), old(tick), log)
                   && Concludes(Given(), old(tick), log, trailing, result)
      ensures result.Error? ==> FloorKept(result.error.state, Raised(log, |log|)) && result.error.attempts == |log|
      ensures result.Delivered? ==> log != [] && !trailing && Accepts(log[|log| - 1])
      ensures RetriedOnly(log, |log| - 1)
      ensures WholeTrace(Given(), old(tick), trace.startedAt, trace.events, log, trailing, result,
                         world.sight(tick).closed)
    {
      hide Ordered, Accepts, Retryable, Ends, Sticky, Rounds, Raised, Delays, Unfolds, Ceases, Concludes;
      ghost var start := tick;
      StartRounds(Given(), start, trace.events);
      if prelude.Some? {
        result, log, trailing := Error(prelude.value), [], true;
      } else {
        result, log, trailing := Attempts();
      }
      ghost var ran := trace.events;
      ghost var m := |ran|;
      RoundsLength(trace.events, log, trailing);
      var closed := world.sight(tick).closed;
      trace.Finish(Cause(result), closed);
      assert trace.events[..m] == ran;
      WholeAt(Given(), start, trace.startedAt, trace.events, m, log, trailing, result, closed);
    }
  }

  // ----- the log of an operation -----

  /** Attempt `i + 1` was made: the loop went on to it, its gate opened, and its entry is the one of its call. */
  predicate MadeAt(t: Terms, start: nat, log: seq<Entry>, i: nat)
    requires i < |log|
  {
    && (i > 0 ==> GoesOn(t, i, CallLook(t, start, i - 1)))
    && Opens(t, GateLook(t, start, i)) && log[i] == EntryOf(t, i + 1, CallLook(t, start, i))
  }

  predicate Unfolds(t: Terms, start: nat, log: seq<Entry>) {
    forall i: nat | i < |log| :: MadeAt(t, start, log, i)
  }

  /** There is no further attempt: the last one did not go on, or the next gate did not open. */
  predicate Ceases(t: Terms, start: nat, log: seq<Entry>) {
    var n := |log|;
    || (n > 0 && !GoesOn(t, n, CallLook(t, start, n - 1)))
    || !Opens(t, GateLook(t, start, n))
  }

  /**
   How the last attempt ends the operation: it delivers exactly when its response
   is accepted in time, a delay follows it exactly when one is chosen, and unless
   something else ends the operation its own error does.
   */
  ghost predicate Concludes(t: Terms, start: nat, log: seq<Entry>, trailing: bool, result: Result) {
    var n := |log|;
    if n == 0 then trailing && result.Error?
    else
      var look, before := CallLook(t, start, n - 1), Raised(log, n - 1);
      && (trailing <==> Pauses(t, n, look))
      && (result.Delivered? <==> Delivers(t, n, look))
      && (Exhausts(t, n, before, look) ==>
            && result == Error(EntryError(EntryOf(t, n, look), before, n).value)
            && OwnErrorOf(result.error, EntryOf(t, n, look), before))
  }

  lemma RaisedFront(log: seq<Entry>, other: seq<Entry>, n: nat)
    requires n <= |log| && n <= |other| && log[..n] == other[..n]
    ensures Raised(log, n) == Raised(other, n)
  {
    assert forall i | 0 <= i < n :: log[i] == log[..n][i] && other[i] == other[..n][i];
  }

  lemma {:induction false} SameFront(t: Terms, start: nat, log: seq<Entry>, other: seq<Entry>, n: nat)
    requires Unfolds(t, start, log) && Unfolds(t, start, other) && n <= |log| && n <= |other|
    ensures log[..n] == other[..n]
  {
    hide EntryOf, Opens, GoesOn, GateLook;
    if n > 0 {
      SameFront(t, start, log, other, n - 1);
      assert MadeAt(t, start, log, n - 1) && MadeAt(t, start, other, n - 1);
      assert log[..n] == log[..n - 1] + [log[n - 1]] && other[..n] == other[..n - 1] + [other[n - 1]];
    }
  }

  lemma NoneAfter(t: Terms, start: nat, log: seq<Entry>, other: seq<Entry>)
    requires Ceases(t, start, log) && |log| < |other| && log == other[..|log|]
    ensures !MadeAt(t, start, other, |log|)
  {
    hide EntryOf, Opens, GoesOn, GateLook, Raised;
    if log != [] { RaisedFront(log, other, |log| - 1); }
  }

  lemma NoLonger(t: Terms, start: nat, log: seq<Entry>, other: seq<Entry>)
    requires Unfolds(t, start, log) && Ceases(t, start, log) && Unfolds(t, start, other)
    ensures |other| <= |log|
  {
    hide Ceases, MadeAt;
    if |log| < |other| {
      SameFront(t, start, log, other, |log|);
      assert log[..|log|] == log;
      NoneAfter(t, start, log, other);
    }
  }

  /** The terms of an operation and the look at which it begins determine its attempts and what the loop saw of each. */
  lemma LogIsDetermined(t: Terms, start: nat, log: seq<Entry>, other: seq<Entry>)
    requires Unfolds(t, start, log) && Ceases(t, start, log)
    requires Unfolds(t, start, other) && Ceases(t, start, other)
    ensures log == other
  {
    hide Unfolds, Ceases;
    NoLonger(t, start, log, other);
    NoLonger(t, start, other, log);
    SameFront(t, start, log, other, |log|);
    assert log[..|log|] == log && other[..|log|] == other;
  }

  /** A look that finds nothing against going on. */
  predicate Calm(s: Sight, deadline: Int64) {
    && !s.deadlineDone && !s.exceeded && !s.closed && !s.cancelled
    && s.clock.Some? && s.clock.value < deadline
  }

  /** The cap of an attempt from its own numbers. */
  predicate WithinCap(config: Config, attempt: nat, jitter: int, left: int)
    requires attempt >= 1
  {
    && 0 <= jitter <= left && jitter <= config.maximum as int
    && jitter <= config.base as int * B.Power2(attempt - 1)
  }

  /** What lets an attempt be followed by another. */
  predicate Heeded(t: Terms, attempt: nat, last: Entry, waited: nat)
    requires attempt >= 1
  {
    var now, jitter := t.world.sight(waited).clock, t.world.entropy(waited + 2);
    && attempt < t.config.maxAttempts && last.Classified? && !Malformed(last.report) && WorthRepeating(last.report)
    && waited >= 1 && Calm(t.world.sight(waited - 1), t.deadline)
    && now.Some? && jitter.Some? && AskedOf(last.report.answer) != WallClockFailed
    && Left(t.deadline, now.value) > 0
    && WithinCap(t.config, attempt, jitter.value as int, Left(t.deadline, now.value) as int)
    && !t.world.sight(waited + 1).deadlineDone && t.world.finishes(waited + 1)
  }

  lemma PausesHeed(t: Terms, attempt: nat, look: nat)
    requires attempt >= 1 && Pauses(t, attempt, look)
    ensures Heeded(t, attempt, EntryOf(t, attempt, look), WaitLook(t, attempt, look))
  {
    hide Malformed, WorthRepeating, AskedOf, Left, B.Power2, EntryOf;
  }

  lemma SleepsHeed(t: Terms, look: nat)
    requires Sleeps(t, look)
    ensures t.world.sleeps(look + Naps(t)) && Calm(t.world.sight(look + Naps(t)), t.deadline)
  {
  }

  lemma GateHeeds(t: Terms, gate: nat)
    requires Opens(t, gate)
    ensures Calm(t.world.sight(gate), t.deadline) && t.world.sight(gate + 1).clock.Some?
    ensures Calm(t.world.sight(gate + 2), t.deadline)
  {
  }

  lemma GoesOnHeeds(t: Terms, attempt: nat, look: nat)
    requires attempt >= 1 && GoesOn(t, attempt, look)
    ensures Heeded(t, attempt, EntryOf(t, attempt, look), WaitLook(t, attempt, look))
    ensures var awake := WaitLook(t, attempt, look) + 2 + Naps(t);
            t.world.sleeps(awake) && Calm(t.world.sight(awake), t.deadline)
  {
    hide Heeded, Pauses, Sleeps, EntryOf, WaitLook, Calm, Naps;
    PausesHeed(t, attempt, look);
    SleepsHeed(t, WaitLook(t, attempt, look) + 2);
  }

  lemma MadeParts(t: Terms, start: nat, log: seq<Entry>, i: nat)
    requires Unfolds(t, start, log) && i < |log|
    ensures Opens(t, GateLook(t, start, i)) && log[i] == EntryOf(t, i + 1, CallLook(t, start, i))
    ensures i > 0 ==> GoesOn(t, i, CallLook(t, start, i - 1))
  {
    hide Opens, EntryOf, GoesOn, GateLook, CallLook;
    assert MadeAt(t, start, log, i);
  }

  lemma NextGate(t: Terms, start: nat, n: nat)
    requires n > 0
    ensures GateLook(t, start, n) == WaitLook(t, n, CallLook(t, start, n - 1)) + 3 + Naps(t)
  {
    hide WaitLook, Naps;
  }

  /**
   An attempt is made only after looks that find nothing against it; a further
   one also only after an attempt worth repeating, a calm look at its end, a
   delay chosen with time left and a jitter within the cap, and a sleep that
   returned to a calm look.
   */
  lemma AttemptsHeedLooks(t: Terms, start: nat, log: seq<Entry>, i: nat)
    requires Unfolds(t, start, log) && i < |log|
    ensures var gate := GateLook(t, start, i);
            && Calm(t.world.sight(gate), t.deadline) && t.world.sight(gate + 1).clock.Some?
            && Calm(t.world.sight(gate + 2), t.deadline)
    ensures i > 0 ==>
              && Heeded(t, i, log[i - 1], WaitLook(t, i, CallLook(t, start, i - 1)))
              && t.world.sleeps(GateLook(t, start, i) - 1) && Calm(t.world.sight(GateLook(t, start, i) - 1), t.deadline)
  {
    hide *;
    MadeParts(t, start, log, i);
    GateHeeds(t, GateLook(t, start, i));
    if i > 0 {
      MadeParts(t, start, log, i - 1);
      GoesOnHeeds(t, i, CallLook(t, start, i - 1));
      NextGate(t, start, i);
    }
  }

  lemma Refused(t: Terms, start: nat, log: seq<Entry>, result: Result)
    requires Unfolds(t, start, log) && !Opens(t, GateLook(t, start, |log|)) && result.Error?
    requires log != [] ==> GoesOn(t, |log|, CallLook(t, start, |log| - 1))
    ensures Ceases(t, start, log) && Concludes(t, start, log, true, result)
  {
    hide Opens, EntryError, EntryOf, GateLook, WaitLook, Delayed, Sleeps, Accepts, Raised;
    if log != [] { GoingOn(t, |log|, Raised(log, |log| - 1), CallLook(t, start, |log| - 1)); }
  }

  /** An attempt after which the loop goes on neither delivers nor ends the operation. */
  lemma GoingOn(t: Terms, attempt: nat, committedBefore: bool, look: nat)
    requires attempt >= 1 && GoesOn(t, attempt, look)
    ensures Pauses(t, attempt, look) && !Delivers(t, attempt, look)
    ensures !Exhausts(t, attempt, committedBefore, look) && attempt < t.config.maxAttempts
  {
    hide EntryOf, WaitLook, Delayed, Sleeps;
  }

  lemma Made(t: Terms, start: nat, log: seq<Entry>, entry: Entry)
    requires Unfolds(t, start, log) && Opens(t, GateLook(t, start, |log|))
    requires log != [] ==> GoesOn(t, |log|, CallLook(t, start, |log| - 1))
    requires entry == EntryOf(t, |log| + 1, CallLook(t, start, |log|))
    ensures Unfolds(t, start, log + [entry])
  {
    hide Opens, EntryOf, GateLook, GoesOn, Raised;
    var grown := log + [entry];
    RaisedMore(log, entry);
    forall i: nat | i < |grown| ensures MadeAt(t, start, grown, i) {
      if i < |log| { assert MadeAt(t, start, log, i); }
    }
  }

  lemma Settled(t: Terms, start: nat, log: seq<Entry>, trailing: bool, result: Result)
    requires log != []
    requires var look, before := CallLook(t, start, |log| - 1), Raised(log, |log| - 1);
             && !GoesOn(t, |log|, look)
             && (trailing <==> Pauses(t, |log|, look)) && (result.Delivered? <==> Delivers(t, |log|, look))
             && (Exhausts(t, |log|, before, look) ==>
                   result == Error(EntryError(EntryOf(t, |log|, look), before, |log|).value))
    ensures Ceases(t, start, log) && Concludes(t, start, log, trailing, result)
  {
    var look, before := CallLook(t, start, |log| - 1), Raised(log, |log| - 1);
    ErrorsExactly(EntryOf(t, |log|, look), before, |log|);
    hide OwnErrorOf, EntryError, EntryOf, Pauses, GoesOn, Delivers;
  }

  /** A call that missed its deadline brings no response. */
  lemma MissedIsRefused(t: Terms, attempt: nat, look: nat)
    ensures Missed(t, attempt, look) ==> !Accepts(EntryOf(t, attempt, look))
    ensures !Missed(t, attempt, look) ==> WaitLook(t, attempt, look) - 1 == look + 1
  {
  }

  // ----- the trace of an operation -----

  /** Attempt `i` and the delay after it stand at their places, and keep the floor raised up to then. */
  predicate RoundAt(events: seq<Event>, i: nat, log: seq<Entry>, trailing: bool)
    requires i <= |log|
  {
    var floor := Raised(log, i);
    && 1 <= i && 3 * i - 1 < |events|
    && events[3 * i - 2].kind == AttemptStart(i) && EndEvent(events[3 * i - 1].kind, i, floor)
    && (i < |log| || trailing ==> 3 * i < |events| && DelayEvent(events[3 * i].kind, i, floor))
  }

  function Length(log: seq<Entry>, trailing: bool): nat {
    1 + 3 * |log| - if log != [] && !trailing then 1 else 0
  }

  /** One start, the attempts in order with one delay between two, and at most one delay after the last. */
  predicate Rounds(events: seq<Event>, log: seq<Entry>, trailing: bool) {
    && |events| == Length(log, trailing) && events[0].kind == OperationStart
    && forall i: nat | 1 <= i <= |log| :: RoundAt(events, i, log, trailing)
  }

  predicate Summarised(ends: seq<Summary>, k: nat) {
    |ends| == k && forall i | 0 <= i < k :: ends[i].number == i + 1
  }

  function Cause(result: Result): Option<SendError> {
    if result.Error? then Some(result.error) else None
  }

  /** Every delay among the events is the one its attempt calls for. */
  predicate Delays(t: Terms, start: nat, events: seq<Event>, log: seq<Entry>, trailing: bool) {
    forall i: nat | 1 <= i <= |log| && (i < |log| || trailing) :: DelayAt(t, start, events, i, log)
  }

  predicate DelayAt(t: Terms, start: nat, events: seq<Event>, i: nat, log: seq<Entry>)
    requires 1 <= i <= |log|
  {
    && 3 * i < |events| && events[3 * i].kind.RetryDelay?
    && DelayIs(t, i, AnswerOf(log[i - 1]), WaitLook(t, i, CallLook(t, start, i - 1)), events[3 * i].kind.delay)
  }

  /** The rounds with their delays, an optional cancel and one end holding the summaries of the attempt ends. */
  predicate WholeTrace(t: Terms, start: nat, startedAt: Int64, events: seq<Event>, log: seq<Entry>, trailing: bool,
                       result: Result, closed: bool)
  {
    var m := Length(log, trailing);
    && m < |events| && Rounds(events[..m], log, trailing) && Delays(t, start, events[..m], log, trailing)
    && Summarised(Ends(events[..m]), |log|)
    && Closing(events[m..], startedAt, Cause(result), closed, Ends(events[..m]))
  }

  /** The first `n` attempts all ended in a way that allows another. */
  predicate RetriedOnly(log: seq<Entry>, n: int)
    requires n <= |log|
  {
    forall i | 0 <= i < n :: Retryable(log[i])
  }

  /** Only a retryable attempt is followed by another, and only an accepted response delivers. */
  lemma OnlyRetryable(t: Terms, start: nat, log: seq<Entry>, trailing: bool, result: Result)
    requires Unfolds(t, start, log) && Concludes(t, start, log, trailing, result)
    ensures RetriedOnly(log, |log| - 1)
    ensures result.Delivered? ==> log != [] && !trailing && Accepts(log[|log| - 1])
  {
    hide EntryOf, GateLook, EntryError, Accepts, Raised, Opens, WaitLook, Delayed, Sleeps;
    forall i | 0 <= i < |log| - 1 ensures Retryable(log[i]) {
      assert MadeAt(t, start, log, i) && MadeAt(t, start, log, i + 1);
    }
    if log != [] {
      assert MadeAt(t, start, log, |log| - 1);
      AcceptedIsNotRepeated(log[|log| - 1]);
    }
  }

  lemma AcceptedIsNotRepeated(e: Entry)
    ensures Accepts(e) ==> !Retryable(e)
  {
  }

  lemma StartRounds(t: Terms, start: nat, events: seq<Event>)
    requires |events| == 1 && events[0].kind == OperationStart
    ensures Unfolds(t, start, []) && Delays(t, start, events, [], true) && Rounds(events, [], true)
    ensures Summarised(Ends(events), 0) && !Raised([], 0) && GateLook(t, start, 0) == start
  {
  }

  lemma RoundsLength(events: seq<Event>, log: seq<Entry>, trailing: bool)
    requires Rounds(events, log, trailing)
    ensures |events| == Length(log, trailing)
  {
  }

  lemma RoundStays(before: seq<Event>, after: seq<Event>, i: nat, log: seq<Entry>, entry: Entry)
    requires i <= |log| && RoundAt(before, i, log, true) && before <= after
    ensures RoundAt(after, i, log + [entry], true) && RoundAt(after, i, log + [entry], false)
  {
    RaisedMore(log, entry);
    hide Raised;
  }

  lemma RoundAdded(before: seq<Event>, after: seq<Event>, log: seq<Entry>, entry: Entry, n: nat)
    requires |before| == Length(log, true) && n >= 2
    requires AttemptTrace(before, after, |log| + 1, n, Raised(log, |log|) || RaisedBy(entry))
    ensures RoundAt(after, |log| + 1, log + [entry], n == 3)
  {
    RaisedMore(log, entry);
    hide Raised, RaisedBy;
  }

  lemma ExtendRounds(before: seq<Event>, after: seq<Event>, log: seq<Entry>, entry: Entry, n: nat)
    requires Rounds(before, log, true) && Summarised(Ends(before), |log|)
    requires AttemptTrace(before, after, |log| + 1, n, Raised(log, |log|) || RaisedBy(entry))
    ensures (n == 0 || n == 2 || n == 3) && before <= after
    ensures n == 0 ==> after == before
    ensures n >= 2 ==> Rounds(after, log + [entry], n == 3) && Summarised(Ends(after), |log| + 1)
  {
    if n >= 2 {
      RoundAdded(before, after, log, entry, n);
      EndsRound(before, after, |log| + 1, n, Raised(log, |log|) || RaisedBy(entry));
      hide RoundAt, Ends, AttemptTrace, Raised;
      var grown, last := log + [entry], n == 3;
      forall i: nat | 1 <= i <= |grown| ensures RoundAt(after, i, grown, last) {
        if i <= |log| { RoundStays(before, after, i, log, entry); }
      }
    }
  }

  lemma ExtendDelays(t: Terms, start: nat, before: seq<Event>, after: seq<Event>, log: seq<Entry>, entry: Entry,
                     n: nat)
    requires |before| == Length(log, true) && before <= after && Delays(t, start, before, log, true)
    requires Waited(t, before, after, |log| + 1, n, AnswerOf(entry),
                    WaitLook(t, |log| + 1, CallLook(t, start, |log|)))
    ensures n == 0 && after == before ==> Delays(t, start, after, log, true)
    ensures n >= 2 ==> Delays(t, start, after, log + [entry], n == 3)
  {
    hide DelayIs, GateLook, WaitLook;
    if n >= 2 {
      var grown := log + [entry];
      forall i: nat | 1 <= i <= |grown| && (i < |grown| || n == 3) ensures DelayAt(t, start, after, i, grown) {
        if i <= |log| { assert DelayAt(t, start, before, i, log); }
      }
    }
  }

  lemma EndsPair(before: seq<Event>, start: Event, end: Event)
    requires start.kind.AttemptStart? && end.kind.AttemptEnd?
    ensures var ends := Ends(before + [start] + [end]);
            && |ends| == |Ends(before)| + 1 && Ends(before) <= ends && ends[|Ends(before)|].number == end.kind.number
  {
    EndsAppend(before, start);
    EndsAppend(before + [start], end);
  }

  lemma Split(before: seq<Event>, after: seq<Event>, n: nat)
    requires Appended(before, after, n) && n >= 2
    ensures var ended := before + [after[|before|]] + [after[|before| + 1]];
            (n == 2 ==> after == ended) && (n == 3 ==> after == ended + [after[|before| + 2]])
  {
  }

  lemma EndsRound(before: seq<Event>, after: seq<Event>, attempt: nat, n: nat, floor: bool)
    requires AttemptTrace(before, after, attempt, n, floor) && n >= 2 && attempt >= 1
             && Summarised(Ends(before), attempt - 1)
    ensures before <= after && |after| == |before| + n && Summarised(Ends(after), attempt)
  {
    hide FloorKept, Ends, Appended;
    AppendedParts(before, after, n);
    Split(before, after, n);
    var start, end := after[|before|], after[|before| + 1];
    EndsPair(before, start, end);
    if n == 3 { EndsAppend(before + [start] + [end], after[|before| + 2]); }
  }

  lemma AppendedParts(before: seq<Event>, after: seq<Event>, n: nat)
    requires Appended(before, after, n)
    ensures before <= after && |after| == |before| + n
  {
  }

  lemma WholeAt(t: Terms, start: nat, startedAt: Int64, events: seq<Event>, m: nat, log: seq<Entry>, trailing: bool,
                result: Result, closed: bool)
    requires m == Length(log, trailing) < |events| && Rounds(events[..m], log, trailing)
             && Delays(t, start, events[..m], log, trailing)
    requires Closing(events[m..], startedAt, Cause(result), closed, Capped(Ends(events[..m])))
    requires Summarised(Ends(events[..m]), |log|) && |log| <= MAX_SUMMARIES
    ensures WholeTrace(t, start, startedAt, events, log, trailing, result, closed)
  {
    hide Rounds, Delays, Ends, Closing;
    assert Capped(Ends(events[..m])) == Ends(events[..m]);
  }

  lemma CapIs(config: Config, attempt: nat, left: int)
    requires attempt >= 1
    ensures Cap(config, attempt, left) == B.Least(config.base as int * B.Power2(attempt - 1), config.maximum as int,
                                                  left)
    ensures Cap(config, attempt, left) <= left
  {
  }

  lemma LeftBounded(deadline: Int64, now: Int64)
    ensures 0 <= Left(deadline, now) as int * 1_000_000 <= MAX as int
  {
  }

  lemma DelayFits(jitter: Int64, asked: Option<Int64>, left: Int64)
    requires 0 <= jitter <= left
    ensures jitter <= B.Delay(jitter, asked, left) <= left
  {
  }

  /** Whatever was late at a look is late from then on. */
  lemma StaysLate(w: World, look: nat)
    requires Sticky(w)
    ensures w.sight(look).deadlineDone ==> w.sight(look + 1).deadlineDone
  {
  }

  lemma WellFormed(r: Report)
    requires !Malformed(r)
    ensures r.answer.Some? <==> r.failed.None?
  {
  }

  lemma AnswerEntry(report: Report, tracked: bool, committedBefore: bool, attempts: nat)
    requires !Malformed(report) && report.answer.Some?
    ensures var error := ResponseError(report.answer.value, attempts);
            && (error.None? <==> Accepts(Classified(report, tracked)))
            && (error.None? ==> EntryError(Classified(report, tracked), committedBefore, attempts).None?)
            && (error.Some? ==> EntryError(Classified(report, tracked), committedBefore, attempts)
                                == Some(Overridden(error.value, committedBefore)))
  {
  }

  lemma FailureEntry(report: Report, tracked: bool, committedBefore: bool, attempts: nat)
    requires !Malformed(report) && report.failed.Some?
    ensures var failure := Classify(report.failed.value, committedBefore || Raises(report, tracked), attempts);
            && EntryError(Classified(report, tracked), committedBefore, attempts) == Some(failure)
            && failure.attempts == attempts && !Accepts(Classified(report, tracked))
  {
  }
}
