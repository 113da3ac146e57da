/**
 Admission, permits and shutdown of a runtime as a state machine. Each step is
 one section under the runtime's or a permit's mutex, or one wait-group update;
 a run is any interleaving of them.
 */
module AdmissionModel {
  import opened Int64
  import opened Wrappers

  const REQUEST_WORKSPACE := 1_048_576
  const RESPONSE_WORKSPACE := 1_048_576
  const PARSER_SCRATCH := 262_144
  const RESERVATION := REQUEST_WORKSPACE + RESPONSE_WORKSPACE + PARSER_SCRATCH
  const MAX_COUNTER := 9_007_199_254_740_991

  datatype Limits = Limits(maxInFlight: int, maxBytes: int, timeout: Int64)

  datatype Diagnostics = Diagnostics(inFlight: int, buffered: int, concurrencyRejections: int, byteRejections: int,
                                     closed: bool)

  /** The runtime's own fields; `waiting` is the wait-group counter. */
  datatype Core = Core(diagnostics: Diagnostics, closing: bool, waiting: int, closeSignalled: bool)

  datatype Permit = Permit(held: int, active: int, releaseRequested: bool, released: bool)

  const IDLE: Core := Core(Diagnostics(0, 0, 0, 0, false), false, 0, false)
  const FRESH: Permit := Permit(RESERVATION, 0, false, false)

  function SaturatingAdd(counter: int, delta: int): (r: int)
    ensures counter <= MAX_COUNTER ==> r <= MAX_COUNTER
  {
    if delta <= 0 || counter >= MAX_COUNTER then counter
    else if delta > MAX_COUNTER - counter then MAX_COUNTER
    else counter + delta
  }

  // ----- sections under the runtime's mutex -----

  /** What the caller brings: its deadline state, the clock reading if the clock works, and its time left. */
  datatype Arrival = Arrival(expired: bool, clock: Option<Int64>, remaining: Option<Int64>)

  datatype Refusal = Closed | ConcurrencyOverload | ByteOverload | OperationDeadline | ClockFailure

  datatype Admission = Admitted(started: Int64, deadline: Int64) | Refused(why: Refusal)

  /** The earlier of the operation's own deadline and the caller's, with no time left read as none. */
  function Deadline(started: Int64, timeout: Int64, remaining: Option<Int64>): (d: Int64)
    ensures timeout >= 0 ==> d >= started
    ensures d <= AddSaturated(started, timeout)
    ensures remaining.Some? && remaining.value >= 0 ==> d <= AddSaturated(started, remaining.value)
    ensures remaining.Some? && remaining.value <= 0 ==> d <= started
    ensures || d == AddSaturated(started, timeout)
            || (remaining.Some? && remaining.value >= 0 && d == AddSaturated(started, remaining.value))
            || (remaining.Some? && remaining.value < 0 && d == started)
  {
    var own := AddSaturated(started, timeout);
    match remaining
    case None => own
    case Some(left) =>
      var parent := AddSaturated(started, if left < 0 then 0 else left);
      if parent < own then parent else own
  }

  function Admit(s: Core, limits: Limits, a: Arrival): (Core, Admission) {
    var d := s.diagnostics;
    if s.closing || d.closed then (s, Refused(Closed))
    else if d.inFlight >= limits.maxInFlight then
      (s.(diagnostics := d.(concurrencyRejections := SaturatingAdd(d.concurrencyRejections, 1))),
       Refused(ConcurrencyOverload))
    else if d.buffered > limits.maxBytes - RESERVATION then
      (s.(diagnostics := d.(byteRejections := SaturatingAdd(d.byteRejections, 1))), Refused(ByteOverload))
    else if a.expired then (s, Refused(OperationDeadline))
    else if a.clock.None? then (s, Refused(ClockFailure))
    else
      (s.(diagnostics := d.(inFlight := d.inFlight + 1, buffered := d.buffered + RESERVATION),
          waiting := s.waiting + 1),
       Admitted(a.clock.value, Deadline(a.clock.value, limits.timeout, a.remaining)))
  }

  predicate Shut(s: Core) {
    s.closing || s.diagnostics.closed
  }

  predicate Crowded(s: Core, limits: Limits) {
    s.diagnostics.inFlight >= limits.maxInFlight
  }

  predicate Stuffed(s: Core, limits: Limits) {
    s.diagnostics.buffered + 2_359_296 > limits.maxBytes
  }

  /** A counter goes up by one until it stands at 2^53 - 1. */
  predicate CountedUp(before: int, after: int) {
    after == if before < 9_007_199_254_740_991 then before + 1 else before
  }

  /**
   An operation is admitted if and only if the runtime is open, has room for one
   more operation and for its workspace, the caller has time left and the clock
   works; the first of these that fails is the reason, and only the two kinds of
   overload are counted.
   */
  lemma AdmitsExactly(s: Core, limits: Limits, a: Arrival)
    ensures var (after, r) := Admit(s, limits, a);
            && (r.Admitted? <==>
                  !Shut(s) && !Crowded(s, limits) && !Stuffed(s, limits) && !a.expired && a.clock.Some?)
            && (r == Refused(Closed) <==> Shut(s))
            && (r == Refused(ConcurrencyOverload) <==> !Shut(s) && Crowded(s, limits))
            && (r == Refused(ByteOverload) <==> !Shut(s) && !Crowded(s, limits) && Stuffed(s, limits))
            && (r == Refused(OperationDeadline) <==>
                  !Shut(s) && !Crowded(s, limits) && !Stuffed(s, limits) && a.expired)
    ensures var (after, r) := Admit(s, limits, a);
            var d, e := s.diagnostics, after.diagnostics;
            && after.closing == s.closing && after.closeSignalled == s.closeSignalled && e.closed == d.closed
            && (if r.Admitted? then
                  && r.started == a.clock.value && r.deadline == Deadline(r.started, limits.timeout, a.remaining)
                  && e.inFlight == d.inFlight + 1 && e.buffered == d.buffered + 2_359_296
                  && after.waiting == s.waiting + 1
                else e.inFlight == d.inFlight && e.buffered == d.buffered && after.waiting == s.waiting)
            && (if r == Refused(ConcurrencyOverload) then CountedUp(d.concurrencyRejections, e.concurrencyRejections)
                else e.concurrencyRejections == d.concurrencyRejections)
            && (if r == Refused(ByteOverload) then CountedUp(d.byteRejections, e.byteRejections)
                else e.byteRejections == d.byteRejections)
  {
  }

  function Return(s: Core, held: int): Core {
    s.(diagnostics := s.diagnostics.(inFlight := s.diagnostics.inFlight - 1, buffered := s.diagnostics.buffered - held))
  }

  /** The workspace a serialized request of this size gives back. */
  function Unused(size: int): int {
    if 0 <= size < REQUEST_WORKSPACE then REQUEST_WORKSPACE - size else 0
  }

  function GiveBack(s: Core, bytes: int): Core {
    s.(diagnostics := s.diagnostics.(buffered := s.diagnostics.buffered - bytes))
  }

  function BeginClose(s: Core): Core {
    if s.closing || s.diagnostics.closed then s else s.(closing := true)
  }

  function FinishClose(s: Core): Core {
    if s.diagnostics.closed then s
    else s.(diagnostics := s.diagnostics.(closed := true), closeSignalled := true)
  }

  // ----- sections under a permit's mutex; the flag says whether to return the permit -----

  function RequestRelease(p: Permit): (Permit, bool) {
    var final := p.active == 0 && !p.released;
    (p.(releaseRequested := true, released := p.released || final), final)
  }

  function BeginCall(p: Permit): Permit {
    p.(active := p.active + 1)
  }

  function EndCall(p: Permit): (Permit, bool) {
    var active := p.active - 1;
    var final := active == 0 && p.releaseRequested && !p.released;
    (p.(active := active, released := p.released || final), final)
  }

  // ----- the whole system -----

  /** A hook call ends itself when its function returns; a transport call is ended by whoever receives its result. */
  datatype CallKind = Hook | Transport

  /** The goroutine of a call: at work, holding a result it has not handed over, or through. */
  datatype Worker = Working | Offering | Through

  /**
   The operation at a call: waiting for the result, waiting past the deadline of
   its attempt, holding the result with the call yet to be ended, done with it,
   or gone at its deadline.
   */
  datatype Owner = Awaiting | Lapsed | Holding | Settled | Gone

  /** The goroutine left behind at a transport call whose operation is gone. */
  datatype Cleaner = NoCleaner | Receiving | Cleaning | Cleaned

  /** `ends` counts how often the call was taken off its permit, `completed` is what the operation was told. */
  datatype Call = Call(kind: CallKind, worker: Worker, owner: Owner, cleaner: Cleaner, completed: bool, ends: nat)

  datatype Move =
    | Returns
    | Sends
    | Lapses
    | OwnerTakes(attemptOver: bool)
    | OwnerEnds
    | OwnerLeaves
    | CleanerTakes
    | CleanerEnds

  function NewCall(kind: CallKind): Call {
    Call(kind, Working, Awaiting, NoCleaner, false, 0)
  }

  /** A hook's result is buffered, so that sending it needs no receiver; a transport's result is handed over. */
  predicate CanMove(c: Call, move: Move) {
    match move
    case Returns => c.worker == Working
    case Sends => c.kind == Hook && c.worker == Offering
    case Lapses => c.kind == Transport && c.owner == Awaiting
    case OwnerTakes(_) =>
      (c.owner == Awaiting || c.owner == Lapsed) && c.worker == if c.kind == Hook then Through else Offering
    case OwnerEnds => c.owner == Holding
    case OwnerLeaves => c.owner == Awaiting || c.owner == Lapsed
    case CleanerTakes => c.cleaner == Receiving && c.worker == Offering
    case CleanerEnds => c.cleaner == Cleaning
  }

  /** The moves that take the call off its permit. */
  predicate EndsCall(c: Call, move: Move) {
    (c.kind == Hook && move == Returns) || move == OwnerEnds || move == CleanerEnds
  }

  function Moved(c: Call, move: Move): Call
    requires CanMove(c, move)
  {
    var d := c.(ends := c.ends + if EndsCall(c, move) then 1 else 0);
    match move
    case Returns => d.(worker := Offering)
    case Sends => d.(worker := Through)
    case Lapses => d.(owner := Lapsed)
    case OwnerTakes(attemptOver) =>
      if c.kind == Hook then d.(owner := Settled, completed := true)
      else d.(worker := Through, owner := Holding, completed := c.owner == Awaiting && !attemptOver)
    case OwnerEnds => d.(owner := Settled)
    case OwnerLeaves => d.(owner := Gone, cleaner := if c.kind == Hook then NoCleaner else Receiving)
    case CleanerTakes => d.(worker := Through, cleaner := Cleaning)
    case CleanerEnds => d.(cleaner := Cleaned)
  }

  /** Calls not yet ended. */
  function Unended(calls: seq<Call>): nat {
    if calls == [] then 0
    else Unended(calls[..|calls| - 1]) + if calls[|calls| - 1].ends == 0 then 1 else 0
  }

  /**
   An admitted operation: its permit, its calls in order, whether its
   request workspace was shrunk, and how often its permit is about to be
   returned, was returned, is about to leave the wait group and has left it.
   */
  datatype Operation = Operation(
    permit: Permit, calls: seq<Call>, shrunk: bool,
    finishing: nat, finishes: nat, leaving: nat, left: nat)

  /** How far the one caller that closes the runtime has come. */
  datatype Closer = Open | Waiting | Drained | Finished

  datatype System = System(core: Core, operations: seq<Operation>, closer: Closer, overloads: nat, byteOverloads: nat)

  const START: System := System(IDLE, [], Open, 0, 0)

  datatype Step =
    | AdmitStep(arrival: Arrival)
    | BeginCallStep(i: nat, kind: CallKind)
    | CallStep(i: nat, call: nat, move: Move)
    | ShrinkStep(i: nat, size: int)
    | ReleaseStep(i: nat)
    | ReturnStep(i: nat)
    | LeaveStep(i: nat)
    | BeginCloseStep
    | DrainStep
    | FinishCloseStep

  const ADMITTED: Operation := Operation(FRESH, [], false, 0, 0, 0, 0)

  function Arrive(x: System, limits: Limits, arrival: Arrival): System {
    var (core, admission) := Admit(x.core, limits, arrival);
    x.(core := core,
       operations := if admission.Admitted? then x.operations + [ADMITTED] else x.operations,
       overloads := x.overloads + (if admission == Refused(ConcurrencyOverload) then 1 else 0),
       byteOverloads := x.byteOverloads + (if admission == Refused(ByteOverload) then 1 else 0))
  }

  function BeginOperationCall(o: Operation, kind: CallKind): Operation {
    o.(permit := BeginCall(o.permit), calls := o.calls + [NewCall(kind)])
  }

  function MoveOperationCall(o: Operation, call: nat, move: Move): Operation
    requires call < |o.calls| && CanMove(o.calls[call], move)
  {
    var moved := o.(calls := o.calls[call := Moved(o.calls[call], move)]);
    if EndsCall(o.calls[call], move) then
      var (permit, final) := EndCall(o.permit);
      moved.(permit := permit, finishing := o.finishing + if final then 1 else 0)
    else moved
  }

  function ReleaseOperation(o: Operation): Operation {
    var (permit, final) := RequestRelease(o.permit);
    o.(permit := permit, finishing := o.finishing + if final then 1 else 0)
  }

  /**
   What may happen. The operation itself begins calls and shrinks its request,
   at most once, before it releases its permit; the goroutines of its calls move
   whenever they can.
   */
  predicate Enabled(x: System, step: Step) {
    match step
    case AdmitStep(_) => true
    case BeginCallStep(i, _) => i < |x.operations| && !x.operations[i].permit.releaseRequested
    case CallStep(i, call, move) =>
      i < |x.operations| && call < |x.operations[i].calls| && CanMove(x.operations[i].calls[call], move)
    case ShrinkStep(i, _) =>
      i < |x.operations| && !x.operations[i].permit.releaseRequested && !x.operations[i].shrunk
    case ReleaseStep(i) => i < |x.operations|
    case ReturnStep(i) => i < |x.operations| && x.operations[i].finishing > 0
    case LeaveStep(i) => i < |x.operations| && x.operations[i].leaving > 0
    case BeginCloseStep => true
    case DrainStep => x.closer == Waiting && x.core.waiting == 0
    case FinishCloseStep => x.closer == Drained
  }

  function Next(x: System, step: Step, limits: Limits): System
    requires Enabled(x, step)
  {
    match step
    case AdmitStep(arrival) => Arrive(x, limits, arrival)
    case BeginCallStep(i, kind) => x.(operations := x.operations[i := BeginOperationCall(x.operations[i], kind)])
    case CallStep(i, call, move) =>
      x.(operations := x.operations[i := MoveOperationCall(x.operations[i], call, move)])
    case ShrinkStep(i, size) =>
      var o := x.operations[i];
      x.(core := GiveBack(x.core, Unused(size)),
         operations := x.operations[i := o.(permit := o.permit.(held := o.permit.held - Unused(size)), shrunk := true)])
    case ReleaseStep(i) => x.(operations := x.operations[i := ReleaseOperation(x.operations[i])])
    case ReturnStep(i) =>
      var o := x.operations[i];
      x.(core := Return(x.core, o.permit.held),
         operations := x.operations[i := o.(finishing := o.finishing - 1, finishes := o.finishes + 1,
                                            leaving := o.leaving + 1)])
    case LeaveStep(i) =>
      var o := x.operations[i];
      x.(core := x.core.(waiting := x.core.waiting - 1),
         operations := x.operations[i := o.(leaving := o.leaving - 1, left := o.left + 1)])
    case BeginCloseStep =>
      x.(core := BeginClose(x.core), closer := if BeginClose(x.core) == x.core then x.closer else Waiting)
    case DrainStep => x.(closer := Drained)
    case FinishCloseStep => x.(core := FinishClose(x.core), closer := Finished)
  }

  // ----- the invariant -----

  function Sum(operations: seq<Operation>, weight: Operation -> int): int {
    if operations == [] then 0
    else Sum(operations[..|operations| - 1], weight) + weight(operations[|operations| - 1])
  }

  function Unreturned(o: Operation): int { if o.finishes == 0 then 1 else 0 }

  function Held(o: Operation): int { if o.finishes == 0 then o.permit.held else 0 }

  function Staying(o: Operation): int { if o.left == 0 then 1 else 0 }

  /** Either the operation or its cleaner has the result of a transport call. */
  predicate Received(c: Call) {
    c.owner == Holding || c.owner == Settled || c.cleaner == Cleaning || c.cleaner == Cleaned
  }

  /** A call is ended once: by itself, by its operation, or by the cleaner that was left behind. */
  predicate CallOk(c: Call) {
    && (c.completed ==> c.owner == Holding || c.owner == Settled)
    && match c.kind
       case Hook =>
         && c.owner != Lapsed && c.owner != Holding && c.cleaner == NoCleaner
         && (c.owner == Settled ==> c.worker == Through)
         && c.ends == (if c.worker == Working then 0 else 1)
       case Transport =>
         && (c.owner == Gone <==> c.cleaner != NoCleaner)
         && (c.worker == Through <==> Received(c))
         && c.ends == (if c.owner == Settled || c.cleaner == Cleaned then 1 else 0)
  }

  predicate OperationOk(o: Operation) {
    && (forall i | 0 <= i < |o.calls| :: CallOk(o.calls[i]))
    && o.permit.active == Unended(o.calls)
    && (o.permit.released <==> o.permit.releaseRequested && Unended(o.calls) == 0)
    && o.finishing + o.finishes == (if o.permit.released then 1 else 0)
    && o.leaving + o.left == o.finishes
    && RESERVATION - (if o.shrunk then REQUEST_WORKSPACE else 0) <= o.permit.held <= RESERVATION
  }

  function Most(limit: int): int {
    if limit < 0 then 0 else limit
  }

  predicate Counted(x: System) {
    && x.core.diagnostics.inFlight == Sum(x.operations, Unreturned)
    && x.core.diagnostics.buffered == Sum(x.operations, Held)
    && x.core.waiting == Sum(x.operations, Staying)
  }

  predicate WithinLimits(d: Diagnostics, limits: Limits) {
    0 <= d.inFlight <= Most(limits.maxInFlight) && 0 <= d.buffered <= Most(limits.maxBytes)
  }

  predicate Shutting(x: System) {
    && (x.core.closing <==> x.closer != Open)
    && (x.closer.Drained? || x.closer.Finished? ==> x.core.waiting == 0)
    && (x.core.diagnostics.closed <==> x.closer == Finished)
    && (x.core.closeSignalled <==> x.core.diagnostics.closed)
  }

  function Capped(n: nat): int {
    if n <= MAX_COUNTER then n else MAX_COUNTER
  }

  predicate Tallied(x: System) {
    && x.core.diagnostics.concurrencyRejections == Capped(x.overloads)
    && x.core.diagnostics.byteRejections == Capped(x.byteOverloads)
  }

  predicate Inv(x: System, limits: Limits) {
    && (forall i | 0 <= i < |x.operations| :: OperationOk(x.operations[i]))
    && Counted(x)
    && WithinLimits(x.core.diagnostics, limits)
    && Shutting(x)
    && Tallied(x)
  }

  // ----- sums -----

  lemma {:induction false} SumUpdate(s: seq<Operation>, i: nat, o: Operation, weight: Operation -> int)
    requires i < |s|
    ensures Sum(s[i := o], weight) == Sum(s, weight) - weight(s[i]) + weight(o)
    decreases |s|
  {
    var n := |s| - 1;
    if i == n {
      assert s[i := o][..n] == s[..n];
    } else {
      assert s[i := o][..n] == s[..n][i := o];
      SumUpdate(s[..n], i, o, weight);
    }
  }

  lemma SumAdd(s: seq<Operation>, o: Operation, weight: Operation -> int)
    ensures Sum(s + [o], weight) == Sum(s, weight) + weight(o)
  {
    assert (s + [o])[..|s|] == s;
  }

  lemma {:induction false} SumAtMost(s: seq<Operation>, weight: Operation -> int, k: nat, other: Operation -> int)
    requires forall i | 0 <= i < |s| :: 0 <= weight(s[i]) <= k * other(s[i])
    ensures 0 <= Sum(s, weight) <= k * Sum(s, other)
    decreases |s|
  {
    if s != [] {
      SumAtMost(s[..|s| - 1], weight, k, other);
    }
  }

  // ----- every step keeps the invariant -----

  /** Counts after one operation changed and nothing but its own contribution moved. */
  lemma ReplaceCounts(x: System, i: nat, o: Operation, core: Core)
    requires Counted(x) && i < |x.operations|
    requires core.diagnostics.inFlight == x.core.diagnostics.inFlight - Unreturned(x.operations[i]) + Unreturned(o)
    requires core.diagnostics.buffered == x.core.diagnostics.buffered - Held(x.operations[i]) + Held(o)
    requires core.waiting == x.core.waiting - Staying(x.operations[i]) + Staying(o)
    ensures Counted(x.(core := core, operations := x.operations[i := o]))
  {
    SumUpdate(x.operations, i, o, Unreturned);
    SumUpdate(x.operations, i, o, Held);
    SumUpdate(x.operations, i, o, Staying);
  }

  /** The counters are non-negative, and all zero once the wait group is. */
  lemma CountersBounded(x: System)
    requires Counted(x) && forall i | 0 <= i < |x.operations| :: OperationOk(x.operations[i])
    ensures var d := x.core.diagnostics;
            0 <= d.inFlight <= x.core.waiting && 0 <= d.buffered <= RESERVATION * d.inFlight
  {
    SumAtMost(x.operations, Unreturned, 1, Staying);
    SumAtMost(x.operations, Held, RESERVATION, Unreturned);
  }

  lemma {:induction false} UnendedUpdate(calls: seq<Call>, i: nat, c: Call)
    requires i < |calls|
    ensures Unended(calls[i := c]) ==
            Unended(calls) - (if calls[i].ends == 0 then 1 else 0) + (if c.ends == 0 then 1 else 0)
    decreases |calls|
  {
    var n := |calls| - 1;
    if i == n {
      assert calls[i := c][..n] == calls[..n];
    } else {
      assert calls[i := c][..n] == calls[..n][i := c];
      UnendedUpdate(calls[..n], i, c);
    }
  }

  lemma BeginCallOk(o: Operation, kind: CallKind)
    requires OperationOk(o) && !o.permit.releaseRequested
    ensures OperationOk(BeginOperationCall(o, kind))
  {
    assert (o.calls + [NewCall(kind)])[..|o.calls|] == o.calls;
  }

  lemma MoveOk(c: Call, move: Move)
    requires CallOk(c) && CanMove(c, move)
    ensures CallOk(Moved(c, move)) && (EndsCall(c, move) ==> c.ends == 0)
  {
  }

  lemma MoveCallOk(o: Operation, call: nat, move: Move)
    requires OperationOk(o) && call < |o.calls| && CanMove(o.calls[call], move)
    ensures var q := MoveOperationCall(o, call, move);
            OperationOk(q) && q.finishes == o.finishes && q.left == o.left && q.permit.held == o.permit.held
  {
    MoveOk(o.calls[call], move);
    UnendedUpdate(o.calls, call, Moved(o.calls[call], move));
    hide CallOk, CanMove, Unended;
  }

  lemma ReleaseOk(o: Operation)
    requires OperationOk(o)
    ensures OperationOk(ReleaseOperation(o))
    ensures var q := ReleaseOperation(o); q.finishes == o.finishes && q.left == o.left && q.permit.held == o.permit.held
  {
  }

  /** An operation may change as long as the counters follow it. */
  lemma ReplaceKeeps(x: System, i: nat, o: Operation, core: Core, limits: Limits)
    requires Inv(x, limits) && i < |x.operations| && OperationOk(o)
    requires core.diagnostics.inFlight == x.core.diagnostics.inFlight - Unreturned(x.operations[i]) + Unreturned(o)
    requires core.diagnostics.buffered == x.core.diagnostics.buffered - Held(x.operations[i]) + Held(o)
    requires core.waiting == x.core.waiting - Staying(x.operations[i]) + Staying(o)
    requires Unreturned(o) <= Unreturned(x.operations[i]) && Held(o) <= Held(x.operations[i])
             && Staying(o) <= Staying(x.operations[i])
    requires core == x.core.(waiting := core.waiting,
                             diagnostics := x.core.diagnostics.(inFlight := core.diagnostics.inFlight,
                                                                buffered := core.diagnostics.buffered))
    ensures Inv(x.(core := core, operations := x.operations[i := o]), limits)
  {
    hide OperationOk, SaturatingAdd;
    var y := x.(core := core, operations := x.operations[i := o]);
    ReplaceCounts(x, i, o, core);
    forall j | 0 <= j < |y.operations| ensures OperationOk(y.operations[j]) {
    }
    CountersBounded(y);
  }

  lemma ArriveKeeps(x: System, limits: Limits, arrival: Arrival)
    requires Inv(x, limits)
    ensures Inv(Arrive(x, limits, arrival), limits)
  {
    hide Sum;
    var o := ADMITTED;
    SumAdd(x.operations, o, Unreturned);
    SumAdd(x.operations, o, Held);
    SumAdd(x.operations, o, Staying);
  }

  lemma InvOperation(x: System, i: nat, limits: Limits)
    requires Inv(x, limits) && i < |x.operations|
    ensures OperationOk(x.operations[i])
  {
  }

  lemma ShrinkKeeps(x: System, i: nat, size: int, limits: Limits)
    requires Inv(x, limits) && Enabled(x, ShrinkStep(i, size))
    ensures Inv(Next(x, ShrinkStep(i, size), limits), limits)
  {
    hide Inv, Sum;
    InvOperation(x, i, limits);
    var o := x.operations[i];
    ReplaceKeeps(x, i, o.(permit := o.permit.(held := o.permit.held - Unused(size)), shrunk := true),
                 GiveBack(x.core, Unused(size)), limits);
  }

  lemma ReturnKeeps(x: System, i: nat, limits: Limits)
    requires Inv(x, limits) && Enabled(x, ReturnStep(i))
    ensures Inv(Next(x, ReturnStep(i), limits), limits)
  {
    hide Inv, Sum;
    InvOperation(x, i, limits);
    var o := x.operations[i];
    ReplaceKeeps(x, i, o.(finishing := o.finishing - 1, finishes := o.finishes + 1, leaving := o.leaving + 1),
                 Return(x.core, o.permit.held), limits);
  }

  lemma LeaveKeeps(x: System, i: nat, limits: Limits)
    requires Inv(x, limits) && Enabled(x, LeaveStep(i))
    ensures Inv(Next(x, LeaveStep(i), limits), limits)
  {
    hide Inv, Sum;
    InvOperation(x, i, limits);
    var o := x.operations[i];
    ReplaceKeeps(x, i, o.(leaving := o.leaving - 1, left := o.left + 1), x.core.(waiting := x.core.waiting - 1),
                 limits);
  }

  lemma CloseKeeps(x: System, step: Step, limits: Limits)
    requires Inv(x, limits) && Enabled(x, step) && (step.BeginCloseStep? || step.DrainStep? || step.FinishCloseStep?)
    ensures Inv(Next(x, step, limits), limits)
  {
    hide Sum, OperationOk;
  }

  lemma StepKeeps(x: System, step: Step, limits: Limits)
    requires Inv(x, limits) && Enabled(x, step)
    ensures Inv(Next(x, step, limits), limits)
  {
    hide Inv, Sum, Admit, BeginClose, FinishClose;
    match step
    case AdmitStep(arrival) => ArriveKeeps(x, limits, arrival);
    case BeginCallStep(i, kind) =>
      InvOperation(x, i, limits);
      BeginCallOk(x.operations[i], kind);
      ReplaceKeeps(x, i, BeginOperationCall(x.operations[i], kind), x.core, limits);
    case CallStep(i, call, move) =>
      InvOperation(x, i, limits);
      MoveCallOk(x.operations[i], call, move);
      ReplaceKeeps(x, i, MoveOperationCall(x.operations[i], call, move), x.core, limits);
    case ReleaseStep(i) =>
      InvOperation(x, i, limits);
      ReleaseOk(x.operations[i]);
      ReplaceKeeps(x, i, ReleaseOperation(x.operations[i]), x.core, limits);
    case ShrinkStep(i, size) => ShrinkKeeps(x, i, size, limits);
    case ReturnStep(i) => ReturnKeeps(x, i, limits);
    case LeaveStep(i) => LeaveKeeps(x, i, limits);
    case BeginCloseStep => CloseKeeps(x, step, limits);
    case DrainStep => CloseKeeps(x, step, limits);
    case FinishCloseStep => CloseKeeps(x, step, limits);
  }

  // ----- runs -----

  /** `states` is a run taking `steps` from the idle runtime. */
  predicate Run(states: seq<System>, steps: seq<Step>, limits: Limits) {
    && |states| == |steps| + 1 && states[0] == START
    && forall i | 0 <= i < |steps| :: Enabled(states[i], steps[i]) && states[i + 1] == Next(states[i], steps[i], limits)
  }

  lemma {:induction false} RunKeeps(states: seq<System>, steps: seq<Step>, limits: Limits, n: nat)
    requires Run(states, steps, limits) && n < |states|
    ensures Inv(states[n], limits)
  {
    hide Next, Enabled;
    if n == 0 {
    } else {
      RunKeeps(states, steps, limits, n - 1);
      assert Enabled(states[n - 1], steps[n - 1]);
      hide Inv;
      StepKeeps(states[n - 1], steps[n - 1], limits);
      assert states[n - 1 + 1] == Next(states[n - 1], steps[n - 1], limits);
    }
  }

  /** The operations whose permits have not been returned. */
  function Outstanding(operations: seq<Operation>): (r: seq<Operation>) {
    if operations == [] then []
    else
      var last := operations[|operations| - 1];
      Outstanding(operations[..|operations| - 1]) + if last.finishes == 0 then [last] else []
  }

  function TotalHeld(operations: seq<Operation>): int {
    if operations == [] then 0 else TotalHeld(operations[..|operations| - 1]) + operations[|operations| - 1].permit.held
  }

  lemma {:induction false} SumOutstanding(s: seq<Operation>)
    ensures Sum(s, Unreturned) == |Outstanding(s)| && Sum(s, Held) == TotalHeld(Outstanding(s))
    decreases |s|
  {
    if s != [] {
      var front, last := s[..|s| - 1], s[|s| - 1];
      SumOutstanding(front);
      assert (Outstanding(front) + [last])[..|Outstanding(front)|] == Outstanding(front);
      assert Outstanding(front) + [] == Outstanding(front);
    }
  }

  /** In every reachable state the two gauges are exact and within limits. */
  lemma GaugesAreExact(states: seq<System>, steps: seq<Step>, limits: Limits, n: nat)
    requires Run(states, steps, limits) && n < |states|
    ensures var x := states[n];
            var d := x.core.diagnostics;
            && d.inFlight == |Outstanding(x.operations)| <= Most(limits.maxInFlight)
            && d.buffered == TotalHeld(Outstanding(x.operations)) <= Most(limits.maxBytes)
            && d.concurrencyRejections == Capped(x.overloads) && d.byteRejections == Capped(x.byteOverloads)
  {
    hide OperationOk, Sum;
    RunKeeps(states, steps, limits, n);
    SumOutstanding(states[n].operations);
  }

  /** A permit is returned at most once, never while a call runs, and exactly once when everything settled. */
  lemma PermitsReturnedOnce(states: seq<System>, steps: seq<Step>, limits: Limits, n: nat, i: nat)
    requires Run(states, steps, limits) && n < |states| && i < |states[n].operations|
    ensures var o := states[n].operations[i];
            && o.finishes <= 1 && o.left <= o.finishes
            && (o.finishes + o.finishing > 0 ==> o.permit.releaseRequested && Unended(o.calls) == 0)
            && (o.permit.releaseRequested && Unended(o.calls) == 0 && o.finishing == 0 ==> o.finishes == 1)
            && (o.permit.releaseRequested && Unended(o.calls) == 0 && o.finishing == 0 && o.leaving == 0
                ==> o.left == 1)
  {
    hide Run, Sum;
    RunKeeps(states, steps, limits, n);
  }

  /** The goroutine of the call is through and nobody holds its result with the call yet to be ended. */
  predicate Over(c: Call) {
    c.worker == Through && c.owner != Holding && c.cleaner != Cleaning
  }

  /** Someone has yet to end the call: its own goroutine, the operation or the cleaner. */
  predicate Owed(c: Call) {
    match c.kind
    case Hook => c.worker == Working
    case Transport =>
      || c.owner == Awaiting || c.owner == Lapsed || c.owner == Holding
      || c.cleaner == Receiving || c.cleaner == Cleaning
  }

  /**
   A call is ended at most once and not before its function has returned,
   exactly once when it is over, and until then someone has yet to end it,
   however its operation left it. The result of a transport call goes to the
   operation or to the cleaner, not to both, and only an operation that has it
   is told that the call completed.
   */
  lemma CallsEndOnce(states: seq<System>, steps: seq<Step>, limits: Limits, n: nat, i: nat, call: nat)
    requires Run(states, steps, limits) && n < |states|
    requires i < |states[n].operations| && call < |states[n].operations[i].calls|
    ensures var c := states[n].operations[i].calls[call];
            && c.ends <= 1 && (c.ends == 1 ==> c.worker != Working)
            && (Over(c) ==> c.ends == 1) && (Owed(c) <==> c.ends == 0)
            && (c.owner == Settled ==> c.ends == 1)
            && (c.cleaner != NoCleaner ==> c.owner == Gone)
            && (c.completed ==> c.worker == Through && c.cleaner == NoCleaner)
  {
    hide Run, Sum, Unended;
    RunKeeps(states, steps, limits, n);
    assert OperationOk(states[n].operations[i]);
  }

  /** How many moves a call has left at most. */
  function Rank(c: Call): nat {
    (match c.worker case Working => 2 case Offering => 1 case Through => 0)
    + (match c.owner case Awaiting => 5 case Lapsed => 4 case Holding => 1 case Settled => 0 case Gone => 0)
    + (match c.cleaner case NoCleaner => 0 case Receiving => 2 case Cleaning => 1 case Cleaned => 0)
  }

  /** Calls are not stuck: a call that has not ended can move, and it moves only finitely often. */
  lemma CallsMakeProgress(states: seq<System>, steps: seq<Step>, limits: Limits, n: nat, i: nat, call: nat)
    requires Run(states, steps, limits) && n < |states|
    requires i < |states[n].operations| && call < |states[n].operations[i].calls|
    ensures var c := states[n].operations[i].calls[call];
            && (c.ends == 0 ==> exists move :: CanMove(c, move))
            && (forall move | CanMove(c, move) :: Rank(Moved(c, move)) < Rank(c))
  {
    hide Run, Sum, Unended;
    RunKeeps(states, steps, limits, n);
    assert OperationOk(states[n].operations[i]);
    var c := states[n].operations[i].calls[call];
    if c.ends == 0 {
      var move := if c.worker == Working then Returns
      else if c.owner == Awaiting || c.owner == Lapsed then OwnerTakes(true)
      else if c.owner == Holding then OwnerEnds
      else if c.cleaner == Receiving then CleanerTakes
      else CleanerEnds;
      assert CanMove(c, move);
    }
  }

  /** Every snapshot that reports closed reports an empty runtime, and it stays so. */
  lemma ClosedMeansEmpty(states: seq<System>, steps: seq<Step>, limits: Limits, n: nat)
    requires Run(states, steps, limits) && n < |states| && states[n].core.diagnostics.closed
    ensures states[n].core.diagnostics.inFlight == 0 && states[n].core.diagnostics.buffered == 0
    ensures forall o | o in states[n].operations :: o.finishes == 1 && o.left == 1 && Unended(o.calls) == 0
  {
    hide Run, Sum;
    RunKeeps(states, steps, limits, n);
    var x := states[n];
    CountersBounded(x);
    forall o | o in x.operations ensures o.finishes == 1 && o.left == 1 && Unended(o.calls) == 0 {
      var i :| 0 <= i < |x.operations| && x.operations[i] == o;
      SumZero(x.operations, Staying, i);
    }
  }

  lemma {:induction false} SumZero(s: seq<Operation>, weight: Operation -> int, i: nat)
    requires i < |s| && Sum(s, weight) == 0 && forall j | 0 <= j < |s| :: weight(s[j]) >= 0
    ensures weight(s[i]) == 0
    decreases |s|
  {
    var front := s[..|s| - 1];
    SumAtLeastZero(front, weight);
    if i < |s| - 1 { SumZero(front, weight, i); }
  }

  lemma {:induction false} SumAtLeastZero(s: seq<Operation>, weight: Operation -> int)
    requires forall j | 0 <= j < |s| :: weight(s[j]) >= 0
    ensures Sum(s, weight) >= 0
    decreases |s|
  {
    if s != [] { SumAtLeastZero(s[..|s| - 1], weight); }
  }

  /** Once shutdown has begun nothing more is admitted. */
  lemma NoneAdmittedAfterClose(states: seq<System>, steps: seq<Step>, limits: Limits, m: nat, n: nat)
    requires Run(states, steps, limits) && m <= n < |states| && states[m].core.closing
    ensures states[n].core.closing && |states[n].operations| == |states[m].operations|
  {
    if m < n {
      NoneAdmittedAfterClose(states, steps, limits, m, n - 1);
      StaysClosing(states[n - 1], steps[n - 1], limits);
      assert states[n - 1 + 1] == Next(states[n - 1], steps[n - 1], limits);
    }
  }

  lemma StaysClosing(x: System, step: Step, limits: Limits)
    requires Enabled(x, step) && x.core.closing
    ensures var y := Next(x, step, limits); y.core.closing && |y.operations| == |x.operations|
  {
  }

  /** From the first call to close on, nothing is admitted and every caller is told so. */
  lemma CloseAdmitsNothing(states: seq<System>, steps: seq<Step>, limits: Limits, m: nat, n: nat)
    requires Run(states, steps, limits) && m < n < |states| && steps[m].BeginCloseStep?
    ensures states[n].core.closing && |states[n].operations| == |states[m].operations|
    ensures forall a: Arrival :: Admit(states[n].core, limits, a) == (states[n].core, Refused(Closed))
  {
    RunKeeps(states, steps, limits, m);
    assert states[m + 1] == Next(states[m], steps[m], limits);
    NoneAdmittedAfterClose(states, steps, limits, m + 1, n);
  }

  /** A serialized request keeps its own size of the request's 1 MiB and gives back the rest, at its operation only. */
  lemma ShrinksExactly(x: System, i: nat, size: int, limits: Limits)
    requires Enabled(x, ShrinkStep(i, size))
    ensures var y := Next(x, ShrinkStep(i, size), limits);
            var rest := if 0 <= size < 1_048_576 then 1_048_576 - size else 0;
            && |y.operations| == |x.operations|
            && y.operations[i].permit.held == x.operations[i].permit.held - rest
            && y.core.diagnostics.buffered == x.core.diagnostics.buffered - rest
            && y.core.diagnostics.inFlight == x.core.diagnostics.inFlight
            && forall k | 0 <= k < |x.operations| && k != i :: y.operations[k] == x.operations[k]
  {
  }
}
