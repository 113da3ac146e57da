/** Writing a request with its commitment signal, and bounded decompression. */
module Http1Transfer {
  import opened Bytes
  import opened Http1Framing

  const MAX_EXPANSION: nat := 100
  const BUFFER_BYTES: nat := 0x8000

  // ----- writing -----

  /** What the peer reports for one write: bytes taken and whether it failed. */
  datatype WriteReport = WriteReport(n: int, failed: bool)

  /** The answers of a connection to successive writes, numbered from 0. */
  type Peer = nat -> WriteReport

  /** From call `k` on, the peer takes all of `left`, some bytes at a time, without failing. */
  predicate TakesAll(left: Text, peer: Peer, k: nat)
    decreases |left|
  {
    left == []
    || (0 < peer(k).n <= |left| && !peer(k).failed && TakesAll(left[peer(k).n..], peer, k + 1))
  }

  /**
   Writes all of `data`, however the peer splits it, signalling the first byte
   taken. `sent` is what the peer acknowledged and `marked` whether the signal fired.
   */
  method WriteAll(data: Text, peer: Peer, first: nat) returns (sent: Text, marked: bool, ok: bool, next: nat)
    ensures sent <= data
    ensures marked <==> sent != []
    ensures ok <==> TakesAll(data, peer, first)
    ensures ok ==> sent == data
  {
    sent, marked, next := [], false, first;
    var left := data;
    while left != []
      invariant data == sent + left
      invariant marked <==> sent != []
      invariant TakesAll(left, peer, next) <==> TakesAll(data, peer, first)
      decreases |left|
    {
      var report := peer(next);
      next := next + 1;
      if report.n < 0 || report.n > |left| { return sent, marked, false, next; }
      if report.n > 0 && !marked { marked := true; }
      sent, left := sent + left[..report.n], left[report.n..];
      if report.failed { return sent, marked, false, next; }
      if report.n == 0 { return sent, marked, false, next; }
    }
    ok := true;
  }

  /**
   Writes head and body. The request counts as committed exactly when a body
   byte was taken, and no body byte is offered before the whole head was.
   */
  method WriteRequest(head: Text, body: Text, peer: Peer)
    returns (sentHead: Text, sentBody: Text, committed: bool, ok: bool)
    ensures sentHead <= head && sentBody <= body
    ensures committed <==> sentBody != []
    ensures sentBody != [] ==> sentHead == head
    ensures ok ==> sentHead == head && sentBody == body
    ensures !TakesAll(head, peer, 0) ==> !ok && !committed
  {
    sentBody, committed := [], false;
    var unused, next;
    sentHead, unused, ok, next := WriteAll(head, peer, 0);
    if !ok { return; }
    sentBody, committed, ok, next := WriteAll(body, peer, next);
  }

  // ----- decompression -----

  /** How the library's stream ends: cleanly with `unread` input bytes, or broken. */
  datatype StreamEnd = Clean(unread: nat) | Broken

  datatype Inflate = Inflated(text: Text) | OverExpanded(text: Text) | TooLong(text: Text) | Malformed(text: Text)

  function Clamp(n: nat, hi: nat): (m: nat)
    requires hi >= 1
    ensures 1 <= m <= hi
  {
    if n == 0 then 1 else if n > hi then hi else n
  }

  /**
   Reads the decompressed stream `plain` in pieces of any size. It succeeds
   exactly when the stream is clean, used up its input and is within both the
   expansion and the size limit, whatever the pieces, and never buffers more
   than one byte past the expansion limit or one buffer past the size limit.
   A limit that alone is passed, or is passed a buffer before the other, is the
   one reported.
   */
  method DecodeGzip(compressed: nat, plain: Text, end: StreamEnd, pieces: nat -> nat) returns (r: Inflate)
    ensures r.Inflated? <==> end == Clean(0) && |plain| <= compressed * 100 && |plain| <= 1_048_576
    ensures r.Inflated? ==> r.text == plain
    ensures r.text <= plain
    ensures |r.text| <= compressed * MAX_EXPANSION + 1 && |r.text| <= MAX_BODY_BYTES + BUFFER_BYTES
    ensures r.OverExpanded? || r.TooLong? <==> |plain| > compressed * MAX_EXPANSION || |plain| > MAX_BODY_BYTES
    ensures r.OverExpanded? ==> |plain| > compressed * MAX_EXPANSION
    ensures r.TooLong? ==> |plain| > MAX_BODY_BYTES && MAX_BODY_BYTES <= compressed * MAX_EXPANSION
    ensures compressed * 100 >= 1_048_576 + 32_768 ==> !r.OverExpanded?
  {
    var limit := compressed * MAX_EXPANSION;
    var decoded: Text := [];
    var call := 0;
    while decoded != plain
      invariant decoded <= plain
      invariant |decoded| <= limit && |decoded| <= MAX_BODY_BYTES
      decreases |plain| - |decoded|
    {
      var room := if limit + 1 - |decoded| < BUFFER_BYTES then limit + 1 - |decoded| else BUFFER_BYTES;
      var left := |plain| - |decoded|;
      var n := Clamp(pieces(call), if room < left then room else left);
      call := call + 1;
      decoded := plain[..|decoded| + n];
      if |decoded| > limit { return OverExpanded(decoded); }
      if |decoded| > MAX_BODY_BYTES { return TooLong(decoded); }
    }
    if end != Clean(0) { return Malformed(decoded); }
    return Inflated(decoded);
  }
}
