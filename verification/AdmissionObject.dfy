/**
 The runtime's admission state and its permits, updated in place. The runtime
 keeps, as ghosts, the permits it issued and how far its shutdown has come, so
 that its fields and theirs together are a state of the model; every method is a
 step of the model, and `Valid` is the model's invariant.
 */
module AdmissionObject {
  import opened AdmissionModel
  import opened Int64
  import opened Wrappers

  class RuntimeState {
    const limits: Limits
    var diagnostics: Diagnostics
    var closing: bool
    var waiting: int
    var closeSignalled: bool
    ghost var permits: seq<OperationPermit>
    ghost var closer: Closer
    ghost var overloads: nat
    ghost var byteOverloads: nat

    ghost function View(): Core
      reads this
    {
      Core(diagnostics, closing, waiting, closeSignalled)
    }

    ghost function Whole(): System
      reads this, permits
    {
      System(View(), Operations(permits), closer, overloads, byteOverloads)
    }

    ghost predicate Issued()
      reads this
    {
      forall i | 0 <= i < |permits| :: permits[i].state == this && permits[i].index == i
    }

    ghost predicate Valid()
      reads this, permits
    {
      Issued() && Inv(Whole(), limits)
    }

    constructor (limits: Limits)
      ensures Valid() && Whole() == START && this.limits == limits
    {
      this.limits := limits;
      diagnostics, closing, waiting, closeSignalled := Diagnostics(0, 0, 0, 0, false), false, 0, false;
      permits, closer, overloads, byteOverloads := [], Open, 0, 0;
    }

    twostate lemma Joined(new permit: OperationPermit)
      requires permits == old(permits) + [permit] && permit.Tracked() == ADMITTED
      requires forall p | p in old(permits) :: p.Tracked() == old(p.Tracked())
      ensures Operations(permits) == old(Operations(permits)) + [ADMITTED]
    {
    }

    /** Decides about one operation and counts it in. */
    method Decide(a: Arrival) returns (admission: Admission)
      modifies this`diagnostics, this`waiting
      ensures (View(), admission) == Admit(old(View()), limits, a)
    {
      if closing || diagnostics.closed { return Refused(Closed); }
      if diagnostics.inFlight >= limits.maxInFlight {
        diagnostics := diagnostics.(concurrencyRejections := SaturatingAdd(diagnostics.concurrencyRejections, 1));
        return Refused(ConcurrencyOverload);
      }
      if diagnostics.buffered > limits.maxBytes - RESERVATION {
        diagnostics := diagnostics.(byteRejections := SaturatingAdd(diagnostics.byteRejections, 1));
        return Refused(ByteOverload);
      }
      if a.expired { return Refused(OperationDeadline); }
      if a.clock.None? { return Refused(ClockFailure); }
      var started := a.clock.value;
      var deadline := AddSaturated(started, limits.timeout);
      if a.remaining.Some? {
        var remaining := a.remaining.value;
        if remaining < 0 { remaining := 0; }
        var parent := AddSaturated(started, remaining);
        if parent < deadline { deadline := parent; }
      }
      diagnostics := diagnostics.(inFlight := diagnostics.inFlight + 1, buffered := diagnostics.buffered + RESERVATION);
      waiting := waiting + 1;
      admission := Admitted(started, deadline);
    }

    /** Admits one operation, or says why not. */
    method AdmitOperation(a: Arrival) returns (admission: Admission, permit: OperationPermit?)
      requires Valid()
      modifies this
      ensures Valid() && Whole() == Next(old(Whole()), AdmitStep(a), limits)
      ensures admission == Admit(old(View()), limits, a).1
      ensures permit != null <==> admission.Admitted?
      ensures if permit == null then permits == old(permits) else
                && permits == old(permits) + [permit] && fresh(permit) && permit.Registered()
                && permit.started == admission.started && permit.deadline == admission.deadline
    {
      hide Inv, Admit, Operations;
      StepKeeps(Whole(), AdmitStep(a), limits);
      admission := Decide(a);
      permit := null;
      match admission
      case Admitted(started, deadline) =>
        permit := new OperationPermit(this, started, deadline, |permits|);
        permits := permits + [permit];
        Joined(permit);
      case Refused(why) =>
        if why == ConcurrencyOverload { overloads := overloads + 1; }
        if why == ByteOverload { byteOverloads := byteOverloads + 1; }
    }

    /** Shutdown, from whoever asks first. */
    method BeginShutdown() returns (first: bool)
      requires Valid()
      modifies this
      ensures Valid() && permits == old(permits)
      ensures Whole() == Next(old(Whole()), BeginCloseStep, limits) && (first <==> old(closer) == Open)
    {
      StepKeeps(Whole(), BeginCloseStep, limits);
      if closing || diagnostics.closed { return false; }
      closing := true;
      closer := Waiting;
      return true;
    }

    /** What the caller that began the shutdown has once the wait group is empty. */
    ghost method WaitForOperations()
      requires Valid() && closer == Waiting && waiting == 0
      modifies this`closer
      ensures Valid() && Whole() == Next(old(Whole()), DrainStep, limits)
      ensures diagnostics.inFlight == 0 && diagnostics.buffered == 0
    {
      StepKeeps(Whole(), DrainStep, limits);
      CountersBounded(Whole());
      closer := Drained;
    }

    /** Publishes that the runtime is closed, signalling it at most once. */
    method FinishShutdown()
      requires Valid() && closer == Drained
      modifies this
      ensures Valid() && permits == old(permits)
      ensures Whole() == Next(old(Whole()), FinishCloseStep, limits)
      ensures diagnostics.closed && diagnostics.inFlight == 0 && diagnostics.buffered == 0
    {
      StepKeeps(Whole(), FinishCloseStep, limits);
      CountersBounded(Whole());
      if diagnostics.closed { return; }
      diagnostics := diagnostics.(closed := true);
      closeSignalled := true;
      closer := Finished;
    }

    /** A snapshot is within the limits, and empty if it says closed. */
    method Snapshot() returns (d: Diagnostics)
      requires Valid()
      ensures d == Whole().core.diagnostics && WithinLimits(d, limits)
      ensures d.closed ==> d.inFlight == 0 && d.buffered == 0
    {
      CountersBounded(Whole());
      d := diagnostics;
    }
  }

  ghost function Operations(permits: seq<OperationPermit>): seq<Operation>
    reads permits
  {
    seq(|permits|, i requires 0 <= i < |permits| reads permits => permits[i].Tracked())
  }

  /** A step of operation `i`, followed by returning its permit and leaving the wait group if that has fallen due. */
  ghost function Settle(x: System, step: Step, i: nat, limits: Limits): System
    requires Enabled(x, step)
  {
    var y := Next(x, step, limits);
    if i < |y.operations| && y.operations[i].finishing > 0
    then Next(Next(y, ReturnStep(i), limits), LeaveStep(i), limits) else y
  }

  lemma SettleKeeps(x: System, step: Step, i: nat, limits: Limits)
    requires Inv(x, limits) && Enabled(x, step)
    ensures Inv(Settle(x, step, i, limits), limits)
  {
    hide Inv;
    StepKeeps(x, step, limits);
    var y := Next(x, step, limits);
    if i < |y.operations| && y.operations[i].finishing > 0 {
      StepKeeps(y, ReturnStep(i), limits);
      StepKeeps(Next(y, ReturnStep(i), limits), LeaveStep(i), limits);
    }
  }

  ghost function Replaced(x: System, i: nat, o: Operation, core: Core): System
    requires i < |x.operations|
  {
    x.(core := core, operations := x.operations[i := o])
  }

  /** The operation and the runtime after a section of a permit that returns it if `final`. */
  ghost function Returned(o: Operation, final: bool): Operation {
    if final then o.(finishes := o.finishes + 1, left := o.left + 1) else o
  }

  ghost function ReturnedTo(core: Core, held: int, final: bool): Core {
    if final then Return(core, held).(waiting := core.waiting - 1) else core
  }

  lemma SettledRelease(x: System, i: nat, limits: Limits)
    requires i < |x.operations| && x.operations[i].finishing == 0 && x.operations[i].leaving == 0
    ensures var o := x.operations[i];
            var (permit, final) := RequestRelease(o.permit);
            Settle(x, ReleaseStep(i), i, limits) ==
            Replaced(x, i, Returned(o.(permit := permit), final), ReturnedTo(x.core, o.permit.held, final))
  {
  }

  lemma SettledCall(x: System, i: nat, call: nat, move: Move, limits: Limits)
    requires i < |x.operations| && x.operations[i].finishing == 0 && x.operations[i].leaving == 0
    requires Enabled(x, CallStep(i, call, move)) && EndsCall(x.operations[i].calls[call], move)
    ensures var o := x.operations[i];
            var (permit, final) := EndCall(o.permit);
            var moved := o.(calls := o.calls[call := Moved(o.calls[call], move)]);
            Settle(x, CallStep(i, call, move), i, limits) ==
            Replaced(x, i, Returned(moved.(permit := permit), final), ReturnedTo(x.core, o.permit.held, final))
  {
  }

  class OperationPermit {
    const state: RuntimeState
    const started: Int64
    const deadline: Int64
    ghost const index: nat
    var held: int
    var active: int
    var releaseRequested: bool
    var released: bool
    ghost var calls: seq<Call>
    ghost var shrunk: bool

    ghost function View(): Permit
      reads this
    {
      Permit(held, active, releaseRequested, released)
    }

    /** The operation as the model has it between two methods: a released permit has been returned. */
    ghost function Tracked(): Operation
      reads this
    {
      var returned := if released then 1 else 0;
      Operation(View(), calls, shrunk, 0, returned, 0, returned)
    }

    ghost predicate Registered()
      reads this, state
    {
      index < |state.permits| && state.permits[index] == this
    }

    ghost predicate Valid()
      reads this, state, state.permits
    {
      Registered() && state.Valid()
    }

    constructor (state: RuntimeState, started: Int64, deadline: Int64, ghost index: nat)
      ensures Tracked() == ADMITTED && this.state == state && this.index == index
      ensures this.started == started && this.deadline == deadline
    {
      this.state, this.started, this.deadline, this.index := state, started, deadline, index;
      held, active, releaseRequested, released := RESERVATION, 0, false, false;
      calls, shrunk := [], false;
    }

    lemma Mine()
      requires Registered()
      ensures index < |state.Whole().operations| && state.Whole().operations[index] == Tracked()
    {
    }

    /** Only this permit's own operation follows its fields. */
    twostate lemma Alone()
      requires old(state.Issued()) && old(Registered())
      requires state.permits == old(state.permits) && state.closer == old(state.closer)
      requires state.overloads == old(state.overloads) && state.byteOverloads == old(state.byteOverloads)
      requires forall p | p in state.permits && p != this :: p.Tracked() == old(p.Tracked())
      ensures state.Whole() == Replaced(old(state.Whole()), index, Tracked(), state.View())
    {
    }

    method Release()
      requires Valid()
      modifies this, state
      ensures Valid() && state.permits == old(state.permits)
      ensures state.Whole() == Settle(old(state.Whole()), ReleaseStep(index), index, state.limits)
    {
      hide Inv, Settle, Next, Operations;
      Mine();
      SettleKeeps(state.Whole(), ReleaseStep(index), index, state.limits);
      SettledRelease(state.Whole(), index, state.limits);
      releaseRequested := true;
      var final := active == 0 && !released;
      if final {
        released := true;
        FinishRelease();
      }
      Alone();
    }

    method StartCall(ghost kind: CallKind)
      requires Valid() && !releaseRequested
      modifies this
      ensures Valid() && state.Whole() == Next(old(state.Whole()), BeginCallStep(index, kind), state.limits)
    {
      hide Inv, Operations;
      Mine();
      StepKeeps(state.Whole(), BeginCallStep(index, kind), state.limits);
      active := active + 1;
      calls := calls + [NewCall(kind)];
      Alone();
    }

    /** A call moves on without being taken off the permit. */
    ghost method MoveCall(call: nat, move: Move)
      requires Valid() && call < |calls| && CanMove(calls[call], move) && !EndsCall(calls[call], move)
      modifies this`calls
      ensures Valid() && state.Whole() == Next(old(state.Whole()), CallStep(index, call, move), state.limits)
    {
      hide Inv, Operations;
      Mine();
      StepKeeps(state.Whole(), CallStep(index, call, move), state.limits);
      calls := calls[call := Moved(calls[call], move)];
      Alone();
    }

    /** A call is taken off the permit, by the move that ends it. */
    method FinishCall(ghost call: nat, ghost move: Move)
      requires Valid() && call < |calls| && CanMove(calls[call], move) && EndsCall(calls[call], move)
      modifies this, state
      ensures Valid() && state.permits == old(state.permits)
      ensures state.Whole() == Settle(old(state.Whole()), CallStep(index, call, move), index, state.limits)
    {
      hide Inv, Settle, Next, Operations, Moved, CanMove, EndsCall;
      Mine();
      SettleKeeps(state.Whole(), CallStep(index, call, move), index, state.limits);
      SettledCall(state.Whole(), index, call, move, state.limits);
      calls := calls[call := Moved(calls[call], move)];
      active := active - 1;
      var final := active == 0 && releaseRequested && !released;
      if final {
        released := true;
        FinishRelease();
      }
      Alone();
    }

    method FinishRelease()
      modifies state`diagnostics, state`waiting
      ensures state.View() == Return(old(state.View()), held).(waiting := old(state.waiting) - 1)
    {
      state.diagnostics :=
        state.diagnostics.(inFlight := state.diagnostics.inFlight - 1, buffered := state.diagnostics.buffered - held);
      state.waiting := state.waiting - 1;
    }

    /**
     Gives back the part of the request workspace that a serialized request leaves
     unused. The first time, before the permit is released, this is a step of the model.
     */
    method ShrinkRequest(size: int)
      requires Valid()
      modifies this, state
      ensures held == old(held) - Unused(size) && state.View() == GiveBack(old(state.View()), Unused(size))
      ensures state.permits == old(state.permits)
      ensures old(!releaseRequested && !shrunk) ==>
                Valid() && state.Whole() == Next(old(state.Whole()), ShrinkStep(index, size), state.limits)
    {
      hide Inv, Operations;
      Mine();
      if !releaseRequested && !shrunk { StepKeeps(state.Whole(), ShrinkStep(index, size), state.limits); }
      shrunk := true;
      if 0 <= size < REQUEST_WORKSPACE {
        var unused := REQUEST_WORKSPACE - size;
        held := held - unused;
        state.diagnostics := state.diagnostics.(buffered := state.diagnostics.buffered - unused);
      }
      Alone();
    }
  }
}
