/**
 The observer dispatcher as a state machine: emitters, the one worker and the
 closers, each section under the mutex and each channel operation one step.
 */
module ObserverModel {
  import A = AdmissionModel

  const CAPACITY := 1024

  /** An event is named by the order in which its emission took the mutex. */
  type Event = nat

  /** Fields shared under the mutex, the queue, the stop channel, and how often waiters were woken. */
  datatype Shared = Shared(queue: seq<Event>, pending: int, active: bool, closing: bool, stopped: bool, broadcasts: nat)

  const EMPTY: Shared := Shared([], 0, false, false, false, 0)

  // ----- sections -----

  predicate Accepts(s: Shared) {
    !s.closing && |s.queue| < CAPACITY
  }

  function Enqueue(s: Shared, event: Event): Shared {
    if Accepts(s) then s.(queue := s.queue + [event], pending := s.pending + 1) else s
  }

  function ClaimDelivery(s: Shared): Shared {
    if s.closing then s else s.(active := true)
  }

  function Delivered(s: Shared): Shared {
    s.(active := false, pending := s.pending - 1, broadcasts := s.broadcasts + 1)
  }

  function Complete(s: Shared, count: nat): Shared {
    var pending := s.pending - count;
    s.(pending := pending, broadcasts := s.broadcasts + if pending == 0 then 1 else 0)
  }

  /** A close by the callback stops the worker at once; any other one waits for the callback to return. */
  function BeginClose(s: Shared, self: bool): Shared {
    if s.closing then s else s.(closing := true, stopped := self || !s.active)
  }

  // ----- the whole system -----

  datatype Worker =
    | Top
    | Selecting
    | Received(event: Event)
    | Calling(event: Event)
    | Refusing(event: Event)
    | Refused
    | Draining(gone: seq<Event>)
    | Counting(gone: seq<Event>)
    | Completing(count: nat)
    | Exited

  datatype System = System(
    shared: Shared,
    worker: Worker,
    /** An outside closer waits for the running callback. */
    closerWaits: bool,
    emitted: nat,
    /** Events whose callback began, in order. */
    delivered: seq<Event>,
    /** Events counted as dropped, in order, and the counter itself. */
    dropped: seq<Event>,
    dropCount: int,
    /** Events refused by an emitter that has not counted them yet. */
    owed: set<Event>)

  const START: System := System(EMPTY, Top, false, 0, [], [], 0, {})

  datatype Step =
    | Emit
    | CountDrop(event: Event)
    | Check
    | Receive
    | Stop
    | Claim
    | Return
    | Refuse
    | Resume
    | DrainOne
    | DrainEnd
    | CountDrained
    | Finish
    | Close
    | CloseFromCallback
    | StopAfterCallback

  predicate Enabled(x: System, step: Step) {
    match step
    case Emit => true
    case CountDrop(event) => event in x.owed
    case Check => x.worker.Top?
    case Receive => x.worker.Selecting? && x.shared.queue != []
    case Stop => x.worker.Selecting? && x.shared.stopped
    case Claim => x.worker.Received?
    case Return => x.worker.Calling?
    case Refuse => x.worker.Refusing?
    case Resume => x.worker.Refused?
    case DrainOne => x.worker.Draining? && x.shared.queue != []
    case DrainEnd => x.worker.Draining? && x.shared.queue == []
    case CountDrained => x.worker.Counting?
    case Finish => x.worker.Completing?
    case Close => true
    case CloseFromCallback => x.worker.Calling?
    case StopAfterCallback => x.closerWaits && !x.shared.active
  }

  function Drop(x: System, events: seq<Event>): System {
    x.(dropped := x.dropped + events, dropCount := A.SaturatingAdd(x.dropCount, |events|))
  }

  function Next(x: System, step: Step): System
    requires Enabled(x, step)
  {
    var s := x.shared;
    match step
    case Emit =>
      x.(shared := Enqueue(s, x.emitted), emitted := x.emitted + 1,
         owed := if Accepts(s) then x.owed else x.owed + {x.emitted})
    case CountDrop(event) => Drop(x.(owed := x.owed - {event}), [event])
    case Check => x.(worker := if s.stopped then Draining([]) else Selecting)
    case Receive => x.(shared := s.(queue := s.queue[1..]), worker := Received(s.queue[0]))
    case Stop => x.(worker := Draining([]))
    case Claim =>
      var event := x.worker.event;
      if s.closing then x.(worker := Refusing(event))
      else x.(shared := ClaimDelivery(s), worker := Calling(event), delivered := x.delivered + [event])
    case Return => x.(shared := Delivered(s), worker := Top)
    case Refuse => Drop(x.(worker := Refused), [x.worker.event])
    case Resume => x.(shared := Complete(s, 1), worker := Top)
    case DrainOne => x.(shared := s.(queue := s.queue[1..]), worker := Draining(x.worker.gone + [s.queue[0]]))
    case DrainEnd => x.(worker := if x.worker.gone == [] then Exited else Counting(x.worker.gone))
    case CountDrained => Drop(x.(worker := Completing(|x.worker.gone|)), x.worker.gone)
    case Finish => x.(shared := Complete(s, x.worker.count), worker := Exited)
    case Close => x.(shared := BeginClose(s, false), closerWaits := x.closerWaits || (!s.closing && s.active))
    case CloseFromCallback => x.(shared := BeginClose(s, true))
    case StopAfterCallback => x.(shared := s.(stopped := true), closerWaits := false)
  }

  // ----- the invariant -----

  /** Accepted events the worker holds that are neither delivered nor counted. */
  function InHand(w: Worker): seq<Event> {
    match w
    case Received(event) => [event]
    case Refusing(event) => [event]
    case Draining(gone) => gone
    case Counting(gone) => gone
    case _ => []
  }

  /** Accepted events the worker has taken and not completed. */
  function Uncompleted(w: Worker): nat {
    match w
    case Calling(_) => 1
    case Refused => 1
    case Completing(count) => count
    case _ => |InHand(w)|
  }

  predicate Ascending(s: seq<Event>) {
    forall i, j | 0 <= i < j < |s| :: s[i] < s[j]
  }

  /** Where an event is, as a count; the invariant makes the total one. */
  function Places(x: System, event: Event): nat {
    Times(x.delivered, event) + Times(x.dropped, event) + multiset(x.owed)[event]
    + Times(x.shared.queue, event) + Times(InHand(x.worker), event)
  }

  function Times(s: seq<Event>, event: Event): nat {
    multiset(s)[event]
  }

  ghost predicate Accounted(x: System) {
    forall event: Event :: Places(x, event) == if event < x.emitted then 1 else 0
  }

  /** Events in the order the worker meets them. */
  function Line(x: System): seq<Event> {
    x.delivered + InHand(x.worker) + x.shared.queue
  }

  predicate Ordered(x: System) {
    Ascending(Line(x)) && forall e | e in Line(x) :: e < x.emitted
  }

  predicate Gauged(x: System) {
    && x.shared.pending == |x.shared.queue| + Uncompleted(x.worker)
    && |x.shared.queue| <= CAPACITY
    && x.dropCount == A.Capped(|x.dropped|)
  }

  predicate Phased(x: System) {
    && (x.shared.active <==> x.worker.Calling?)
    && (x.shared.stopped ==> x.shared.closing)
    && (x.worker.Draining? || x.worker.Counting? || x.worker.Completing? || x.worker.Exited? ==> x.shared.stopped)
    && (x.worker.Counting? || x.worker.Completing? || x.worker.Exited? ==> x.shared.queue == [])
    && (x.worker.Refusing? || x.worker.Refused? ==> x.shared.closing)
    && (x.closerWaits ==> x.shared.closing && !x.shared.stopped)
    && (x.shared.closing ==> x.shared.stopped || x.closerWaits)
  }

  ghost predicate Inv(x: System) {
    Accounted(x) && Ordered(x) && Gauged(x) && Phased(x)
  }

  // ----- every step keeps the invariant -----

  lemma StepPhased(x: System, step: Step)
    requires Phased(x) && Enabled(x, step)
    ensures Phased(Next(x, step))
  {
  }

  lemma CappedAdd(n: nat, more: nat)
    ensures A.SaturatingAdd(A.Capped(n), more) == A.Capped(n + more)
  {
  }

  lemma StepGauged(x: System, step: Step)
    requires Gauged(x) && Phased(x) && Enabled(x, step)
    ensures Gauged(Next(x, step))
  {
    hide A.SaturatingAdd, A.Capped;
    CappedAdd(|x.dropped|, 1);
    if step.CountDrained? { CappedAdd(|x.dropped|, |x.worker.gone|); }
  }

  lemma AscendingCut(a: seq<Event>, b: seq<Event>, c: seq<Event>)
    requires Ascending(a + b + c)
    ensures Ascending(a + [] + c)
  {
    var all, cut := a + b + c, a + [] + c;
    forall i, j | 0 <= i < j < |cut| ensures cut[i] < cut[j] {
      var i', j' := if i < |a| then i else i + |b|, if j < |a| then j else j + |b|;
      assert cut[i] == all[i'] && cut[j] == all[j'];
    }
  }

  /** Steps that move an event from one place to another. */
  predicate Moves(step: Step) {
    step.CountDrop? || step.Receive? || step.Claim? || step.Refuse? || step.DrainOne? || step.CountDrained?
  }

  lemma OtherStep(x: System, step: Step)
    requires Enabled(x, step) && !Moves(step) && !step.Emit?
    ensures var y := Next(x, step);
            && y.delivered == x.delivered && y.dropped == x.dropped && y.owed == x.owed && y.emitted == x.emitted
            && y.shared.queue == x.shared.queue && InHand(y.worker) == InHand(x.worker)
  {
    hide A.SaturatingAdd;
  }

  /** What the moving steps do to the places an event can be in. */
  lemma MovingStep(x: System, step: Step)
    requires Enabled(x, step) && Moves(step)
    ensures var y := Next(x, step);
            var q, hand := x.shared.queue, InHand(x.worker);
            if step.CountDrop? then
              && y.dropped == x.dropped + [step.event] && y.owed == x.owed - {step.event}
              && y.delivered == x.delivered && y.shared.queue == q && InHand(y.worker) == hand
            else if step.Claim? then
              && y.dropped == x.dropped && y.owed == x.owed && y.shared.queue == q
              && ((y.delivered == x.delivered && InHand(y.worker) == hand)
                  || (y.delivered == x.delivered + hand && InHand(y.worker) == []))
            else if step.Refuse? || step.CountDrained? then
              && y.dropped == x.dropped + hand && InHand(y.worker) == []
              && y.delivered == x.delivered && y.owed == x.owed && y.shared.queue == q
            else
              && q != [] && y.shared.queue == q[1..] && InHand(y.worker) == hand + [q[0]]
              && y.delivered == x.delivered && y.dropped == x.dropped && y.owed == x.owed
  {
    hide A.SaturatingAdd;
    if step.Receive? { assert [] + [x.shared.queue[0]] == [x.shared.queue[0]]; }
  }

  lemma LineMoves(delivered: seq<Event>, hand: seq<Event>, queue: seq<Event>)
    ensures (delivered + hand) + [] + queue == delivered + hand + queue
    ensures queue != [] ==> delivered + (hand + [queue[0]]) + queue[1..] == delivered + hand + queue
    ensures forall event :: delivered + hand + (queue + [event]) == delivered + hand + queue + [event]
  {
  }

  lemma Appended(s: seq<Event>, next: Event)
    requires Ascending(s) && forall e | e in s :: e < next
    ensures Ascending(s + [next]) && forall e | e in s + [next] :: e < next + 1
  {
    forall i, j | 0 <= i < j < |s + [next]| ensures (s + [next])[i] < (s + [next])[j] {
      assert s[i] in s;
    }
  }

  /** A step moves the line of events along, appends the newest one, or takes out what the worker held. */
  lemma StepLine(x: System, step: Step)
    requires Enabled(x, step)
    ensures var y := Next(x, step);
            || Line(y) == Line(x)
            || (step.Emit? && Line(y) == Line(x) + [x.emitted])
            || Line(y) == x.delivered + [] + x.shared.queue
  {
    LineMoves(x.delivered, InHand(x.worker), x.shared.queue);
    if Moves(step) { MovingStep(x, step); }
    else if !step.Emit? { OtherStep(x, step); }
    if !step.Emit? { hide Next; }
    hide InHand;
  }

  lemma StepOrdered(x: System, step: Step)
    requires Ordered(x) && Enabled(x, step)
    ensures Ordered(Next(x, step))
  {
    StepLine(x, step);
    EmittedGrows(x, step);
    AscendingCut(x.delivered, InHand(x.worker), x.shared.queue);
    Appended(Line(x), x.emitted);
    hide Next, Enabled;
    forall e | e in x.delivered + [] + x.shared.queue ensures e in Line(x) {
    }
  }

  lemma EmittedGrows(x: System, step: Step)
    requires Enabled(x, step)
    ensures Next(x, step).emitted == x.emitted + if step.Emit? then 1 else 0
  {
  }

  /** Moving the first event of a queue behind another list. */
  lemma MovedFirst(queue: seq<Event>, other: seq<Event>, event: Event)
    requires queue != []
    ensures Times(queue, event) + Times(other, event) == Times(queue[1..], event) + Times(other + [queue[0]], event)
  {
    assert queue == [queue[0]] + queue[1..];
  }

  lemma EmitPlaces(x: System, event: Event)
    requires x.emitted !in x.owed
    ensures Places(Next(x, Emit), event) == Places(x, event) + if event == x.emitted then 1 else 0
  {
  }

  lemma MovePlaces(x: System, step: Step, event: Event)
    requires Enabled(x, step) && Moves(step)
    ensures Places(Next(x, step), event) == Places(x, event)
  {
    MovingStep(x, step);
    var hand := InHand(x.worker);
    TimesJoined(x.delivered, hand, event);
    TimesJoined(x.dropped, hand, event);
    if step.CountDrop? { TimesJoined(x.dropped, [step.event], event); }
    if step.Receive? || step.DrainOne? { MovedFirst(x.shared.queue, hand, event); }
    assert Times([], event) == 0;
    hide Next, InHand;
    if !step.CountDrop? { hide Times; }
  }

  lemma TimesJoined(a: seq<Event>, b: seq<Event>, event: Event)
    ensures Times(a + b, event) == Times(a, event) + Times(b, event)
  {
  }

  lemma StepPlaces(x: System, step: Step, event: Event)
    requires Enabled(x, step) && !step.Emit?
    ensures Places(Next(x, step), event) == Places(x, event)
  {
    if Moves(step) {
      MovePlaces(x, step, event);
      hide Places, Next;
    } else {
      OtherStep(x, step);
      hide Next;
    }
  }

  lemma StepAccounted(x: System, step: Step)
    requires Accounted(x) && Enabled(x, step)
    ensures Accounted(Next(x, step))
  {
    EmittedGrows(x, step);
    assert Places(x, x.emitted) == 0;
    forall event: Event ensures Places(Next(x, step), event) == if event < Next(x, step).emitted then 1 else 0 {
      if step.Emit? { EmitPlaces(x, event); } else { StepPlaces(x, step, event); }
      hide Next, Places;
    }
  }

  lemma StepKeeps(x: System, step: Step)
    requires Inv(x) && Enabled(x, step)
    ensures Inv(Next(x, step))
  {
    hide Accounted, Ordered, Gauged, Phased, Next;
    StepAccounted(x, step);
    StepOrdered(x, step);
    StepGauged(x, step);
    StepPhased(x, step);
  }

  // ----- sequences of steps that one section after another takes -----

  lemma EmitRefused(x: System)
    requires Inv(x) && !Accepts(x.shared)
    ensures var y := Next(x, Emit);
            && Enabled(y, CountDrop(x.emitted))
            && Next(y, CountDrop(x.emitted)) == Drop(x.(emitted := x.emitted + 1), [x.emitted])
            && Inv(Next(y, CountDrop(x.emitted)))
  {
    hide Ordered, Gauged, Phased, A.SaturatingAdd;
    assert Places(x, x.emitted) == 0;
    assert x.owed + {x.emitted} - {x.emitted} == x.owed;
    StepKeeps(x, Emit);
    StepKeeps(Next(x, Emit), CountDrop(x.emitted));
  }

  lemma RefusedInFull(x: System)
    requires Inv(x) && x.worker.Refusing?
    ensures var y := Next(Next(x, Refuse), Resume);
            && y == Drop(x.(shared := Complete(x.shared, 1), worker := Top), [x.worker.event])
            && Inv(y) && y.shared.pending >= 0
  {
    hide Accounted, Ordered, Phased, A.SaturatingAdd;
    StepKeeps(x, Refuse);
    StepKeeps(Next(x, Refuse), Resume);
  }

  /** What the worker leaves of a queue that it has drained. */
  function Exit(x: System): System
    requires x.worker.Draining?
  {
    var gone := x.worker.gone;
    Drop(x.(shared := if gone == [] then x.shared else Complete(x.shared, |gone|), worker := Exited), gone)
  }

  lemma ExitedInFull(x: System)
    requires Inv(x) && x.worker.Draining? && x.shared.queue == []
    ensures Inv(Exit(x)) && x.shared.pending == |x.worker.gone| && Exit(x).shared.pending == 0
  {
    hide Accounted, Ordered, Phased, A.Capped;
    var y := Next(x, DrainEnd);
    StepKeeps(x, DrainEnd);
    if x.worker.gone == [] {
      assert x.dropped + [] == x.dropped;
    } else {
      StepKeeps(y, CountDrained);
      StepKeeps(Next(y, CountDrained), Finish);
    }
  }

  /**
   An event is queued behind the others if and only if the dispatcher is open and
   fewer than 1024 events wait; otherwise its emitter owes it to the drop counter.
   */
  lemma EmitsExactly(x: System)
    ensures var y := Next(x, Emit);
            && y.emitted == x.emitted + 1 && y.delivered == x.delivered && y.dropped == x.dropped
            && (if !x.shared.closing && |x.shared.queue| < 1024
                then && y.shared.queue == x.shared.queue + [x.emitted] && y.shared.pending == x.shared.pending + 1
                     && y.owed == x.owed
                else && y.shared == x.shared && y.owed == x.owed + {x.emitted})
  {
  }

  // ----- runs -----

  predicate Run(states: seq<System>, steps: seq<Step>) {
    && |states| == |steps| + 1 && states[0] == START
    && forall i | 0 <= i < |steps| :: Enabled(states[i], steps[i]) && states[i + 1] == Next(states[i], steps[i])
  }

  lemma StartInv()
    ensures Inv(START)
  {
  }

  lemma RunStep(states: seq<System>, steps: seq<Step>, n: nat)
    requires Run(states, steps) && n + 1 < |states|
    ensures n < |steps| && Enabled(states[n], steps[n]) && states[n + 1] == Next(states[n], steps[n])
  {
  }

  lemma {:induction false} RunKeeps(states: seq<System>, steps: seq<Step>, n: nat)
    requires Run(states, steps) && n < |states|
    ensures Inv(states[n])
  {
    hide Inv, Next;
    if n == 0 {
      StartInv();
    } else {
      RunKeeps(states, steps, n - 1);
      RunStep(states, steps, n - 1);
      StepKeeps(states[n - 1], steps[n - 1]);
    }
  }

  /** Once the worker is gone and every emitter has returned, each event was delivered once or counted dropped once. */
  lemma DeliveredOrDroppedOnce(states: seq<System>, steps: seq<Step>, n: nat, event: Event)
    requires Run(states, steps) && n < |states|
    requires states[n].worker.Exited? && states[n].owed == {} && event < states[n].emitted
    ensures multiset(states[n].delivered)[event] + multiset(states[n].dropped)[event] == 1
    ensures states[n].dropCount == A.Capped(|states[n].dropped|)
  {
    hide Run, A.Capped;
    RunKeeps(states, steps, n);
    assert Places(states[n], event) == 1;
  }

  /** In every reachable state callbacks began in emission order and the pending gauge is the work left. */
  lemma DeliversInOrder(states: seq<System>, steps: seq<Step>, n: nat)
    requires Run(states, steps) && n < |states|
    ensures var x := states[n];
            && Ascending(x.delivered) && (forall e | e in x.delivered :: e < x.emitted)
            && x.shared.pending == |x.shared.queue| + Uncompleted(x.worker) >= 0
            && (x.shared.active <==> x.worker.Calling?)
  {
    hide Run, Accounted, A.Capped;
    RunKeeps(states, steps, n);
    var x := states[n];
    forall i, j | 0 <= i < j < |x.delivered| ensures x.delivered[i] < x.delivered[j] {
      assert x.delivered[i] == Line(x)[i] && x.delivered[j] == Line(x)[j];
    }
    assert forall e | e in x.delivered :: e in Line(x);
  }

  /** A flush returns only when every accepted event was delivered or counted and no callback is running. */
  lemma FlushMeansSettled(states: seq<System>, steps: seq<Step>, n: nat, event: Event)
    requires Run(states, steps) && n < |states| && states[n].shared.pending == 0
    requires event < states[n].emitted && event !in states[n].owed
    ensures !states[n].shared.active && states[n].shared.queue == []
    ensures multiset(states[n].delivered)[event] + multiset(states[n].dropped)[event] == 1
  {
    hide Run, A.Capped;
    RunKeeps(states, steps, n);
    assert Places(states[n], event) == 1;
  }

  lemma StepAfterClosing(x: System, step: Step)
    requires Enabled(x, step) && x.shared.closing
    ensures Next(x, step).shared.closing && Next(x, step).delivered == x.delivered
  {
  }

  /** No callback begins after closing is set, whoever set it. */
  lemma {:induction false} NothingDeliveredAfterClosing(states: seq<System>, steps: seq<Step>, m: nat, n: nat)
    requires Run(states, steps) && m <= n < |states| && states[m].shared.closing
    ensures states[n].shared.closing && states[n].delivered == states[m].delivered
  {
    hide Run, Next;
    if m < n {
      NothingDeliveredAfterClosing(states, steps, m, n - 1);
      RunStep(states, steps, n - 1);
      StepAfterClosing(states[n - 1], steps[n - 1]);
    }
  }

  lemma StepWakes(x: System, step: Step)
    requires Enabled(x, step) && Gauged(x) && Phased(x)
    ensures var y := Next(x, step);
            && y.shared.broadcasts >= x.shared.broadcasts
            && (y.shared.broadcasts == x.shared.broadcasts && x.shared.pending != 0 ==> y.shared.pending != 0)
            && (y.shared.broadcasts == x.shared.broadcasts && x.shared.active ==> y.shared.active)
  {
    hide A.SaturatingAdd, A.Capped;
  }

  /** No lost wakeups: without a broadcast, what a flusher or a closer waits for has not happened. */
  lemma {:induction false} WaitersAreWoken(states: seq<System>, steps: seq<Step>, m: nat, n: nat)
    requires Run(states, steps) && m <= n < |states|
    ensures states[m].shared.broadcasts <= states[n].shared.broadcasts
    ensures states[m].shared.broadcasts == states[n].shared.broadcasts && states[m].shared.pending != 0
            ==> states[n].shared.pending != 0
    ensures states[m].shared.broadcasts == states[n].shared.broadcasts && states[m].shared.active
            ==> states[n].shared.active
  {
    hide Run, Next, Inv;
    if m < n {
      WaitersAreWoken(states, steps, m, n - 1);
      RunStep(states, steps, n - 1);
      RunKeeps(states, steps, n - 1);
      InvParts(states[n - 1]);
      StepWakes(states[n - 1], steps[n - 1]);
    }
  }

  lemma InvParts(x: System)
    requires Inv(x)
    ensures Gauged(x) && Phased(x)
  {
  }
}
