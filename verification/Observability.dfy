/** The observer events of one operation, stamped by a clock that may misbehave. */
module Observability {
  import opened Int64
  import opened Wrappers

  datatype Code =
    | Dns | Connect | Proxy | Tls | Io | AttemptTimeout | Cancelled | Closed | Configuration | OperationDeadline
    | HttpRejected | RateLimited | ServerFailure | ResponseProtocol | ResponseTooLarge | OtherCode

  datatype State = NotSent | PossiblySent | CancelledUnknown | Rejected | Accepted

  datatype SendError = SendError(code: Code, state: State, retryable: bool, attempts: nat)

  datatype Outcome =
    | OutcomeAccepted
    | OutcomeRetryable
    | OutcomeRejected
    | OutcomeFailed
    | OutcomeCancelled
    | OutcomeClosed

  datatype Summary = Summary(number: nat, outcome: Outcome, code: Option<Code>, state: State, duration: Int64)

  datatype Kind =
    | OperationStart
    | AttemptStart(number: nat)
    | AttemptEnd(number: nat, outcome: Outcome, code: Option<Code>, state: State, duration: Int64)
    | RetryDelay(number: nat, code: Option<Code>, state: State, delay: Int64)
    | OperationCancel(code: Option<Code>, state: State)
    | OperationEnd(outcome: Outcome, code: Option<Code>, state: State, duration: Int64, summaries: seq<Summary>)

  datatype Event = Event(kind: Kind, timestamp: Int64)

  const MAX_SUMMARIES := 10

  function OutcomeOf(err: Option<SendError>, closed: bool): Outcome {
    match err
    case None => OutcomeAccepted
    case Some(e) =>
      if e.code == Cancelled then (if closed then OutcomeClosed else OutcomeCancelled)
      else if e.code == Closed then OutcomeClosed
      else if e.state == Rejected then OutcomeRejected
      else OutcomeFailed
  }

  /** What is reported of an operation, by its error. */
  lemma OutcomeExactly(err: Option<SendError>, closed: bool)
    ensures var o := OutcomeOf(err, closed);
            && (o == OutcomeAccepted <==> err.None?)
            && (o == OutcomeCancelled <==> err.Some? && err.value.code == Cancelled && !closed)
            && (o == OutcomeClosed <==>
                  err.Some? && (err.value.code == Closed || (err.value.code == Cancelled && closed)))
            && (o == OutcomeRejected <==>
                  err.Some? && err.value.code !in {Closed, Cancelled} && err.value.state == Rejected)
            && o != OutcomeRetryable
  {
  }

  function CodeOf(err: Option<SendError>): Option<Code> {
    if err.Some? then Some(err.value.code) else None
  }

  function StateOf(err: Option<SendError>): State {
    if err.Some? then err.value.state else Accepted
  }

  /** The difference of two clock readings, zero when it is negative or leaves the range. */
  function Elapsed(from: Int64, to: Int64): (d: Int64)
    ensures d >= 0
    ensures if 0 <= to as int - from as int <= 0x7fff_ffff_ffff_ffff then d as int == to as int - from as int
            else d == 0
  {
    var exact := to as int - from as int;
    if 0 <= exact <= MAX as int then exact as Int64 else 0
  }

  /** The later of two readings; a failed reading counts for nothing. */
  function Later(last: Int64, reading: Option<Int64>): (t: Int64)
    ensures t >= last && (reading.Some? ==> t >= reading.value)
  {
    if reading.Some? && reading.value > last then reading.value else last
  }

  predicate Ordered(events: seq<Event>) {
    forall i, j | 0 <= i < j < |events| :: events[i].timestamp <= events[j].timestamp
  }

  /** The summaries repeat the ends of the attempts, in order. */
  function Ends(events: seq<Event>): seq<Summary> {
    if events == [] then []
    else
      var k := events[|events| - 1].kind;
      Ends(events[..|events| - 1])
      + if k.AttemptEnd? then [Summary(k.number, k.outcome, k.code, k.state, k.duration)] else []
  }

  function Capped(s: seq<Summary>): seq<Summary> {
    if |s| <= MAX_SUMMARIES then s else s[..MAX_SUMMARIES]
  }

  lemma EndsAppend(events: seq<Event>, e: Event)
    ensures Ends(events + [e]) ==
            Ends(events) + (if e.kind.AttemptEnd?
                            then [Summary(e.kind.number, e.kind.outcome, e.kind.code, e.kind.state, e.kind.duration)]
                            else [])
    ensures !e.kind.AttemptEnd? ==> Ends(events + [e]) == Ends(events)
  {
    assert (events + [e])[..|events|] == events;
    assert Ends(events) + [] == Ends(events);
  }

  class OperationObservability {
    /** Successive clock readings; a failed one gives nothing. */
    const clock: nat -> Option<Int64>
    const startedAt: Int64
    var readings: nat
    var lastTimestamp: Int64
    var attemptStartedAt: Int64
    var attemptNumber: nat
    var summaries: seq<Summary>
    var finished: bool
    /** Every event emitted, in order. */
    var events: seq<Event>

    ghost predicate Valid()
      reads this
    {
      && Ordered(events) && (forall e | e in events :: e.timestamp <= lastTimestamp)
      && summaries == Capped(Ends(events))
    }

    /** Begins the operation with its first event. */
    constructor (clock: nat -> Option<Int64>, startedAt: Int64)
      ensures Valid() && !finished && attemptNumber == 0
      ensures this.clock == clock && this.startedAt == startedAt
      ensures |events| == 1 && events[0].kind == OperationStart
    {
      this.clock, this.startedAt := clock, startedAt;
      readings, lastTimestamp, attemptStartedAt, attemptNumber := 0, startedAt, 0, 0;
      summaries, finished, events := [], false, [];
      new;
      Emit(OperationStart);
    }

    /** Reads the clock, never going back. */
    method Sample() returns (now: Int64)
      modifies this`readings, this`lastTimestamp
      ensures now == lastTimestamp == Later(old(lastTimestamp), clock(old(readings))) && readings == old(readings) + 1
    {
      var reading := clock(readings);
      readings := readings + 1;
      if reading.Some? && reading.value > lastTimestamp { lastTimestamp := reading.value; }
      now := lastTimestamp;
    }

    method EmitAt(kind: Kind, timestamp: Int64)
      requires Valid() && timestamp == lastTimestamp && !kind.AttemptEnd?
      modifies this`events
      ensures Valid() && events == old(events) + [Event(kind, timestamp)]
    {
      hide Capped, Ends;
      EndsAppend(events, Event(kind, timestamp));
      events := events + [Event(kind, timestamp)];
    }

    method Emit(kind: Kind)
      requires Valid() && !kind.AttemptEnd?
      modifies this`readings, this`lastTimestamp, this`events
      ensures Valid() && events == old(events) + [Event(kind, lastTimestamp)]
    {
      hide Capped, Ends;
      var now := Sample();
      EmitAt(kind, now);
    }

    method StartAttempt(attempt: nat)
      requires Valid() && !finished
      modifies this
      ensures Valid() && !finished && attemptNumber == attempt
      ensures attemptStartedAt == Later(old(lastTimestamp), clock(old(readings)))
      ensures events == old(events) + [Event(AttemptStart(attempt), lastTimestamp)]
    {
      hide Capped, Ends, Ordered;
      attemptNumber := attempt;
      attemptStartedAt := Sample();
      Emit(AttemptStart(attempt));
    }

    /** Ends the running attempt, if there is one, and records its summary. */
    method EndAttempt(err: Option<SendError>, retryable: bool, closed: bool)
      requires Valid()
      modifies this
      ensures Valid() && finished == old(finished) && attemptNumber == 0
      ensures old(attemptNumber) == 0 ==> events == old(events)
      ensures old(attemptNumber) != 0 ==>
                && |events| == |old(events)| + 1 && old(events) <= events
                && var k := events[|old(events)|].kind;
                   && k.AttemptEnd?
                   && k.duration == Elapsed(old(attemptStartedAt), Later(old(lastTimestamp), clock(old(readings))))
                   && k == AttemptEnd(old(attemptNumber), if retryable then OutcomeRetryable
                                      else OutcomeOf(err, closed),
                                      CodeOf(err), StateOf(err), k.duration)
    {
      hide Ends;
      if attemptNumber == 0 { return; }
      var endedAt := Sample();
      var duration := Elapsed(attemptStartedAt, endedAt);
      var outcome := if retryable then OutcomeRetryable else OutcomeOf(err, closed);
      var summary := Summary(attemptNumber, outcome, CodeOf(err), StateOf(err), duration);
      if |summaries| < MAX_SUMMARIES { summaries := summaries + [summary]; }
      var now := Sample();
      var kind := AttemptEnd(attemptNumber, outcome, CodeOf(err), StateOf(err), duration);
      EndsAppend(events, Event(kind, now));
      events := events + [Event(kind, now)];
      attemptNumber := 0;
    }

    method Retry(delay: Int64, err: SendError)
      requires Valid() && !finished
      modifies this
      ensures Valid() && !finished && attemptNumber == old(attemptNumber)
      ensures events == old(events) + [Event(RetryDelay(err.attempts, Some(err.code), err.state, delay), lastTimestamp)]
    {
      hide Capped, Ends, Ordered;
      Emit(RetryDelay(err.attempts, Some(err.code), err.state, delay));
    }

    /** Ends the operation once; a second call does nothing. */
    method Finish(err: Option<SendError>, closed: bool)
      requires Valid()
      modifies this
      ensures Valid() && finished && (old(finished) ==> events == old(events))
      ensures !old(finished) && old(attemptNumber) == 0 ==>
                && old(events) <= events && Closing(events[|old(events)|..], startedAt, err, closed, old(summaries))
    {
      hide Capped, Ends, Ordered;
      if finished { return; }
      finished := true;
      EndAttempt(err, false, closed);
      var outcome := OutcomeOf(err, closed);
      if outcome == OutcomeCancelled {
        Emit(OperationCancel(CodeOf(err), StateOf(err)));
      }
      var endedAt := Sample();
      var duration := Elapsed(startedAt, endedAt);
      EmitAt(OperationEnd(outcome, CodeOf(err), StateOf(err), duration, summaries), endedAt);
    }
  }

  /** A cancel event exactly for a cancelled operation, then the end with its duration and the summaries. */
  predicate Closing(last: seq<Event>, startedAt: Int64, err: Option<SendError>, closed: bool,
                    summaries: seq<Summary>)
  {
    var outcome := OutcomeOf(err, closed);
    && |last| == (if outcome == OutcomeCancelled then 2 else 1)
    && (outcome == OutcomeCancelled ==> last[0].kind == OperationCancel(CodeOf(err), StateOf(err)))
    && var k := last[|last| - 1].kind;
       && k.OperationEnd? && k.duration == Elapsed(startedAt, last[|last| - 1].timestamp)
       && k == OperationEnd(outcome, CodeOf(err), StateOf(err), k.duration, summaries)
  }
}
