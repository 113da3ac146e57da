/** Writing a request stream: header fragments, the commitment signal and DATA chunks. */
module Http2Sending {
  import opened Bytes
  import S = Http2Session

  /** What the sender hands to the framer, with the commitment signal among it. */
  datatype Out =
    | HeadersOut(fragment: Text, endHeaders: bool, endStream: bool)
    | ContinuationOut(fragment: Text, endHeaders: bool)
    | Committed
    | DataOut(data: Text, endStream: bool)

  // ----- header blocks -----

  function Smaller(a: nat, b: nat): nat {
    if a < b then a else b
  }

  /** The CONTINUATION frames from an offset on. */
  function Continuations(block: Text, offset: nat, maxFrame: nat): seq<Out>
    requires offset <= |block| && maxFrame > 0
    decreases |block| - offset
  {
    if offset == |block| then []
    else
      var next := Smaller(offset + maxFrame, |block|);
      [ContinuationOut(block[offset..next], next == |block|)] + Continuations(block, next, maxFrame)
  }

  function HeaderFrames(block: Text, endStream: bool, maxFrame: nat): seq<Out>
    requires maxFrame > 0
  {
    var first := Smaller(|block|, maxFrame);
    [HeadersOut(block[..first], first == |block|, endStream)] + Continuations(block, first, maxFrame)
  }

  /** Writes the block; `accepts` tells which frames the connection takes. */
  method WriteHeaderBlock(block: Text, endStream: bool, maxFrame: nat, accepts: nat -> bool)
    returns (out: seq<Out>, ok: bool)
    requires maxFrame > 0
    ensures out != [] && out <= HeaderFrames(block, endStream, maxFrame)
    ensures ok <==> (forall i | 0 <= i < |HeaderFrames(block, endStream, maxFrame)| :: accepts(i))
    ensures ok ==> out == HeaderFrames(block, endStream, maxFrame)
  {
    var all := HeaderFrames(block, endStream, maxFrame);
    var first := Smaller(|block|, maxFrame);
    out := [HeadersOut(block[..first], first == |block|, endStream)];
    if !accepts(0) { return out, false; }
    var offset := first;
    while offset < |block|
      invariant 0 <= offset <= |block| && |out| > 0
      invariant out + Continuations(block, offset, maxFrame) == all
      invariant forall i | 0 <= i < |out| :: accepts(i)
    {
      var next := Smaller(offset + maxFrame, |block|);
      var frame := ContinuationOut(block[offset..next], next == |block|);
      assert all == (out + [frame]) + Continuations(block, next, maxFrame);
      var index := |out|;
      out := out + [frame];
      if !accepts(index) { return out, false; }
      offset := next;
    }
    return out, true;
  }

  function Fragment(f: Out): Text {
    match f
    case HeadersOut(fragment, _, _) => fragment
    case ContinuationOut(fragment, _) => fragment
    case _ => []
  }

  function Joined(frames: seq<Out>): Text {
    if frames == [] then [] else Fragment(frames[0]) + Joined(frames[1..])
  }

  predicate EndsHeaders(f: Out) {
    (f.HeadersOut? || f.ContinuationOut?) && f.endHeaders
  }

  lemma {:induction false} ContinuationsWhole(block: Text, offset: nat, maxFrame: nat)
    requires offset <= |block| && maxFrame > 0
    ensures var frames := Continuations(block, offset, maxFrame);
            && Joined(frames) == block[offset..]
            && (forall i | 0 <= i < |frames| ::
                  frames[i].ContinuationOut? && 0 < |Fragment(frames[i])| <= maxFrame
                  && (EndsHeaders(frames[i]) <==> i == |frames| - 1))
            && (frames == [] <==> offset == |block|)
    decreases |block| - offset
  {
    if offset < |block| {
      var next := Smaller(offset + maxFrame, |block|);
      ContinuationsWhole(block, next, maxFrame);
      assert block[offset..] == block[offset..next] + block[next..];
    }
  }

  /** The fragments make up the block, fit their frames, and only the last one ends the headers. */
  lemma HeaderFramesWhole(block: Text, endStream: bool, maxFrame: nat)
    requires maxFrame > 0
    ensures var frames := HeaderFrames(block, endStream, maxFrame);
            && Joined(frames) == block
            && frames[0].HeadersOut? && (frames[0].endStream <==> endStream)
            && (forall i | 0 < i < |frames| :: frames[i].ContinuationOut?)
            && (forall i | 0 <= i < |frames| :: |Fragment(frames[i])| <= maxFrame)
            && (forall i | 0 <= i < |frames| :: EndsHeaders(frames[i]) <==> i == |frames| - 1)
  {
    var first := Smaller(|block|, maxFrame);
    ContinuationsWhole(block, first, maxFrame);
    var rest := Continuations(block, first, maxFrame);
    var frames := HeaderFrames(block, endStream, maxFrame);
    assert frames[1..] == rest;
    assert block == block[..first] + block[first..];
    forall i | 0 < i < |frames| ensures frames[i] == rest[i - 1] {
    }
  }

  // ----- the body -----

  /** One turn of the sending loop: the frame size and window found, and what became of the write. */
  datatype Turn = Turn(frame: nat, room: int, refused: bool, executed: bool, accepted: bool)

  /** Any schedule of reservations and writes, turn by turn. */
  type Schedule = nat -> Turn

  /** A turn that finds room and whose write goes through. */
  predicate Passes(t: Turn) {
    t.frame > 0 && t.room > 0 && !t.refused && t.executed && t.accepted
  }

  function Payload(f: Out): Text {
    if f.DataOut? then f.data else []
  }

  function Sent(out: seq<Out>): Text {
    if out == [] then [] else Sent(out[..|out| - 1]) + Payload(out[|out| - 1])
  }

  /** The signal comes first and alone, then DATA frames that are never empty. */
  predicate SignalFirst(out: seq<Out>) {
    && (out != [] ==> |out| >= 2 && out[0].Committed?)
    && forall i | 0 < i < |out| :: out[i].DataOut? && out[i].data != []
  }

  /** Only the frame that completes the body ends the stream. */
  predicate EndsOnce(out: seq<Out>, body: Text) {
    forall i | 0 <= i < |out| && out[i].DataOut? :: out[i].endStream <==> i == |out| - 1 && Sent(out) == body
  }

  /** Every chunk fits the frame size and the window found in its turn. */
  predicate FitsTurns(out: seq<Out>, schedule: Schedule) {
    forall i | 0 < i < |out| && out[i].DataOut? :: FitsTurn(out, i, schedule(i - 1))
  }

  predicate FitsTurn(out: seq<Out>, i: nat, t: Turn)
    requires i < |out| && out[i].DataOut?
  {
    |out[i].data| <= t.frame && |out[i].data| <= t.room
  }

  method SendBody(body: Text, schedule: Schedule) returns (out: seq<Out>, ok: bool)
    ensures SignalFirst(out) && EndsOnce(out, body) && FitsTurns(out, schedule)
    ensures Sent(out) <= body
    ensures ok ==> Sent(out) == body
    ensures (forall k :: Passes(schedule(k))) ==> ok
  {
    hide Sent;
    SentNothing();
    out := [];
    var offset, turn := 0, 0;
    while offset < |body|
      invariant 0 <= offset <= |body| && Sent(out) == body[..offset]
      invariant SignalFirst(out) && EndsOnce(out, body) && FitsTurns(out, schedule)
      invariant if turn == 0 then out == [] && offset == 0 else |out| == turn + 1 && offset > 0
    {
      var t := schedule(turn);
      var size := Least(|body| - offset, t.frame, t.room);
      if t.refused || size <= 0 { return out, false; }
      var end := offset + size == |body|;
      if t.executed {
        var chunk := DataOut(body[offset..offset + size], end);
        ghost var before := out;
        if offset == 0 { out := out + [Committed]; }
        out := out + [chunk];
        assert body[..offset + size] == body[..offset] + chunk.data;
        Extended(before, body, chunk, schedule, offset, turn);
      }
      if !t.executed || !t.accepted { return out, false; }
      offset, turn := offset + size, turn + 1;
    }
    assert body[..offset] == body;
    return out, true;
  }

  lemma SentNothing()
    ensures Sent([]) == []
  {
  }

  /**
   Writes a whole request. The stream ends on its headers exactly when there is
   no body, no DATA precedes the whole header block, and the request counts as
   committed exactly when a DATA frame was handed over.
   */
  method SendRequest(block: Text, body: Text, maxFrame: nat, accepts: nat -> bool, schedule: Schedule)
    returns (head: seq<Out>, out: seq<Out>, ok: bool)
    requires maxFrame > 0
    ensures head <= HeaderFrames(block, body == [], maxFrame)
    ensures out != [] ==> head == HeaderFrames(block, body == [], maxFrame) && body != []
    ensures (exists i | 0 <= i < |out| :: out[i].Committed?) <==> (exists i | 0 <= i < |out| :: out[i].DataOut?)
    ensures SignalFirst(out) && EndsOnce(out, body) && FitsTurns(out, schedule) && Sent(out) <= body
    ensures ok ==> head == HeaderFrames(block, body == [], maxFrame) && Sent(out) == body
  {
    hide HeaderFrames;
    out := [];
    head, ok := WriteHeaderBlock(block, body == [], maxFrame, accepts);
    if !ok { return; }
    out, ok := SendBody(body, schedule);
    if out != [] {
      assert out[0].Committed? && out[1].DataOut?;
      assert body != [] by {
        if body == [] { NoPayload(out); }
      }
    }
  }

  lemma NoPayload(out: seq<Out>)
    requires SignalFirst(out) && out != []
    ensures Sent(out) != []
  {
  }

  function Least(remaining: nat, frame: nat, room: int): (size: int)
    ensures size <= remaining && size <= frame && size <= room
  {
    if room <= frame && room <= remaining then room else Smaller(remaining, frame)
  }

  /**
   A turn is a reservation of the session, which grants the least of the body
   left, the frame size and both windows.
   */
  lemma TurnIsReservation(x: S.Session, id: S.Id, remaining: nat)
    requires id in x.table && x.maxFrame >= 0
    ensures var st := x.table[id];
            var size := Least(remaining, x.maxFrame, S.Min(x.window, st.sendWindow));
            S.Reserve(x, id, remaining).1 ==
            if st.finished then S.SendEnded(st.err) else if size > 0 then S.Granted(size) else S.SendWaits
  {
  }

  lemma TurnsExtended(before: seq<Out>, signalled: seq<Out>, chunk: Out, schedule: Schedule)
    requires FitsTurns(before, schedule) && signalled == if before == [] then [Committed] else before
    requires chunk.DataOut? && |chunk.data| <= schedule(|signalled| - 1).frame
    requires |chunk.data| <= schedule(|signalled| - 1).room
    ensures FitsTurns(signalled + [chunk], schedule)
  {
    var out := signalled + [chunk];
    forall i | 0 < i < |out| && out[i].DataOut? ensures FitsTurn(out, i, schedule(i - 1)) {
      if i < |signalled| { assert FitsTurn(before, i, schedule(i - 1)); }
    }
  }

  lemma Extended(before: seq<Out>, body: Text, chunk: Out, schedule: Schedule, offset: nat, turn: nat)
    requires offset < |body| && chunk.DataOut? && chunk.data != [] && offset + |chunk.data| <= |body|
    requires chunk.data == body[offset..offset + |chunk.data|] && (chunk.endStream <==> offset + |chunk.data| == |body|)
    requires |chunk.data| <= schedule(turn).frame && |chunk.data| <= schedule(turn).room
    requires Sent(before) == body[..offset] && SignalFirst(before) && EndsOnce(before, body)
             && FitsTurns(before, schedule)
    requires if turn == 0 then before == [] && offset == 0 else |before| == turn + 1 && offset > 0
    ensures var out := (if offset == 0 then before + [Committed] else before) + [chunk];
            && SignalFirst(out) && EndsOnce(out, body) && FitsTurns(out, schedule)
            && Sent(out) == body[..offset + |chunk.data|] && |out| == turn + 2
  {
    var signalled := if offset == 0 then before + [Committed] else before;
    var out := signalled + [chunk];
    TurnsExtended(before, signalled, chunk, schedule);
    hide FitsTurns;
    assert out[..|out| - 1] == signalled;
    if offset == 0 { assert signalled[..|before|] == before; }
    assert Sent(signalled) == body[..offset];
    assert Sent(out) == body[..offset + |chunk.data|];
    assert |body[..offset]| < |body|;
  }
}
