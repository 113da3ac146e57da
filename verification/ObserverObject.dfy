/**
 The observer dispatcher's fields, updated in place under its mutex. Ghost fields
 say how far the worker and the closer are and where every event went, so that
 the object is a state of the model; every method is a step of the model or a
 sequence of them, and `Valid` is the model's invariant.
 */
module ObserverObject {
  import opened ObserverModel
  import A = AdmissionModel

  class ObserverDispatcher {
    var queue: seq<Event>
    var pending: int
    var active: bool
    var closing: bool
    var stopped: bool
    var broadcasts: nat
    /** The runtime's counter of dropped events. */
    var dropCount: int
    ghost var worker: Worker
    ghost var closerWaits: bool
    ghost var emitted: nat
    ghost var delivered: seq<Event>
    ghost var dropped: seq<Event>
    ghost var owed: set<Event>

    ghost function View(): Shared
      reads this
    {
      Shared(queue, pending, active, closing, stopped, broadcasts)
    }

    ghost function Whole(): System
      reads this
    {
      System(View(), worker, closerWaits, emitted, delivered, dropped, dropCount, owed)
    }

    ghost predicate Valid()
      reads this
    {
      Inv(Whole())
    }

    constructor ()
      ensures Valid() && Whole() == START
    {
      queue, pending, active, closing, stopped, broadcasts, dropCount := [], 0, false, false, false, 0, 0;
      worker, closerWaits, emitted, delivered, dropped, owed := Top, false, 0, [], [], {};
      new;
      StartInv();
    }

    /** Queues the event, or counts it as dropped when closing or full. */
    method EmitEvent(event: Event)
      requires Valid() && event == emitted
      modifies this
      ensures Valid()
      ensures var x := Next(old(Whole()), Emit);
              Whole() == if old(Accepts(View())) then x else Next(x, CountDrop(event))
    {
      hide Inv, A.SaturatingAdd;
      if Accepts(View()) {
        StepKeeps(Whole(), Emit);
      } else {
        EmitRefused(Whole());
        hide Next;
      }
      emitted := emitted + 1;
      if closing {
        CountDropped(1, [event]);
        return;
      }
      if |queue| < CAPACITY {
        queue := queue + [event];
        pending := pending + 1;
      } else {
        CountDropped(1, [event]);
      }
    }

    method CountDropped(count: nat, ghost events: seq<Event>)
      requires count == |events|
      modifies this`dropCount, this`dropped
      ensures dropped == old(dropped) + events && dropCount == A.SaturatingAdd(old(dropCount), count)
    {
      dropCount := A.SaturatingAdd(dropCount, count);
      dropped := dropped + events;
    }

    /** The worker looks at the stop channel before it waits for an event. */
    method CheckStop() returns (stop: bool)
      requires Valid() && worker.Top?
      modifies this`worker
      ensures Valid() && Whole() == Next(old(Whole()), Check) && stop == stopped
    {
      StepKeeps(Whole(), Check);
      hide Inv;
      stop := stopped;
      worker := if stop then Draining([]) else Selecting;
    }

    method ReceiveEvent() returns (event: Event)
      requires Valid() && worker.Selecting? && queue != []
      modifies this`queue, this`worker
      ensures Valid() && Whole() == Next(old(Whole()), Receive) && worker == Received(event)
    {
      StepKeeps(Whole(), Receive);
      hide Inv;
      event := queue[0];
      queue := queue[1..];
      worker := Received(event);
    }

    /** The worker may call the observer unless the dispatcher is closing. */
    method ClaimNext() returns (claimed: bool)
      requires Valid() && worker.Received?
      modifies this
      ensures Valid() && Whole() == Next(old(Whole()), Claim)
      ensures if claimed then worker.Calling? else worker.Refusing? && closing
    {
      StepKeeps(Whole(), Claim);
      hide Inv;
      if closing {
        worker := Refusing(worker.event);
        return false;
      }
      active := true;
      delivered := delivered + [worker.event];
      worker := Calling(worker.event);
      return true;
    }

    /** The callback has returned; everybody who waits is woken. */
    method FinishDelivery()
      requires Valid() && worker.Calling?
      modifies this
      ensures Valid() && Whole() == Next(old(Whole()), Return) && pending >= 0
    {
      StepKeeps(Whole(), Return);
      active := false;
      pending := pending - 1;
      broadcasts := broadcasts + 1;
      worker := Top;
    }

    /** An event received too late is counted and completed. */
    method RefuseEvent()
      requires Valid() && worker.Refusing?
      modifies this
      ensures Valid() && Whole() == Next(Next(old(Whole()), Refuse), Resume) && pending >= 0
    {
      hide Inv, Next, A.SaturatingAdd;
      RefusedInFull(Whole());
      CountDropped(1, [worker.event]);
      CompleteEvents(1);
      worker := Top;
    }

    method CompleteEvents(count: nat)
      modifies this`pending, this`broadcasts
      ensures View() == Complete(old(View()), count)
    {
      pending := pending - count;
      if pending == 0 { broadcasts := broadcasts + 1; }
    }

    /**
     The stopped worker empties the queue, counts what was in it as dropped and
     exits. Nothing is pending then, and a flusher that waited was woken.
     */
    method DropPending()
      requires Valid() && worker == Draining([])
      modifies this
      ensures Valid() && worker.Exited? && queue == [] && pending == 0
      ensures dropped == old(dropped + queue) && dropCount == A.SaturatingAdd(old(dropCount), |old(queue)|)
      ensures broadcasts == old(broadcasts) + if old(pending) > 0 then 1 else 0
      ensures delivered == old(delivered) && emitted == old(emitted) && owed == old(owed)
      ensures closing == old(closing) && stopped == old(stopped) && active == old(active)
    {
      hide Inv, Next, A.SaturatingAdd;
      var count := DrainQueue();
      ghost var gone := worker.gone;
      ExitedInFull(Whole());
      CountDropped(count, gone);
      if count > 0 { CompleteEvents(count); }
      worker := Exited;
    }

    method DrainQueue() returns (count: nat)
      requires Valid() && worker == Draining([])
      modifies this`queue, this`worker
      ensures Valid() && queue == [] && worker == Draining(old(queue)) && count == |old(queue)|
    {
      hide Inv;
      count := 0;
      while queue != []
        invariant Valid() && worker.Draining? && |worker.gone| == count
        invariant old(queue) == worker.gone + queue
        decreases |queue|
      {
        DrainFirst();
        count := count + 1;
      }
      assert worker.gone + [] == worker.gone;
    }

    method DrainFirst()
      requires Valid() && worker.Draining? && queue != []
      modifies this`queue, this`worker
      ensures Valid() && Whole() == Next(old(Whole()), DrainOne)
    {
      StepKeeps(Whole(), DrainOne);
      hide Inv;
      worker := Draining(worker.gone + [queue[0]]);
      queue := queue[1..];
    }

    /** The closing section; `wait` tells an outside closer that a callback is still running. */
    method CloseDispatcher(self: bool) returns (wait: bool)
      requires Valid() && (self ==> worker.Calling?)
      modifies this
      ensures Valid() && Whole() == Next(old(Whole()), if self then CloseFromCallback else Close)
      ensures closing && (wait <==> old(!closing && active) && !self)
    {
      StepKeeps(Whole(), if self then CloseFromCallback else Close);
      hide Inv;
      if closing { return false; }
      closing := true;
      if self {
        stopped := true;
        return false;
      }
      stopped := !active;
      wait := active;
      closerWaits := closerWaits || wait;
    }

    /** The outside closer, woken after the callback returned, stops the worker. */
    method StopAfterWait()
      requires Valid() && closerWaits && !active
      modifies this`stopped, this`closerWaits
      ensures Valid() && Whole() == Next(old(Whole()), StopAfterCallback)
    {
      StepKeeps(Whole(), StopAfterCallback);
      hide Inv;
      stopped := true;
      closerWaits := false;
    }
  }
}
