/**
 Lines and chunks of HTTP/1.1. `LineOf` and `Dechunk` say what one read takes
 from the bytes of a connection; class `Reader` takes it through a buffer that
 may hand a line over in any number of fragments.
 */
module Http1Framing {
  import opened Bytes

  const MAX_BODY_BYTES: nat := 0x100000
  const MAX_HEADER_BYTES: nat := 0x10000
  const MAX_CHUNK_LINE: nat := 256
  const MAX_UINT63: nat := 0x7fff_ffff_ffff_ffff
  const CR: Byte := 0x0d
  const LF: Byte := 0x0a
  const SEMICOLON: Byte := 0x3b

  datatype Error =
    | ErrProtocol
    | ErrHeaderLimit
    | ErrBodyTooLarge
    | ErrIncompleteBody
    | ErrExpansionRatio
    | ErrEnded

  /** Position of the first `b` in `s`, or |s|. */
  function IndexOf(s: Text, b: Byte): (k: nat)
    ensures k <= |s|
    ensures forall i | 0 <= i < k :: s[i] != b
    ensures k < |s| ==> s[k] == b
  {
    if s == [] || s[0] == b then 0
    else
      var k := IndexOf(s[1..], b);
      assert forall i | 1 <= i < k + 1 :: s[i] == s[1..][i - 1];
      k + 1
  }

  lemma IndexIs(s: Text, b: Byte, k: nat)
    requires k < |s| && s[k] == b && forall i | 0 <= i < k :: s[i] != b
    ensures IndexOf(s, b) == k
  {
  }

  lemma IndexAbsent(s: Text, b: Byte)
    requires b !in s
    ensures IndexOf(s, b) == |s|
  {
  }

  // ----- lines -----

  datatype Line = LineDone(line: Text, rest: Text) | LineFail(error: Error)

  /** The line at the front of `s` without its CRLF, and the bytes after it. */
  function LineOf(s: Text, limit: nat): (r: Line)
    ensures r.LineDone? ==> |r.rest| < |s|
  {
    var k := IndexOf(s, LF);
    if k == |s| then LineFail(if |s| > limit + 2 then ErrHeaderLimit else ErrEnded)
    else if k + 1 > limit + 2 then LineFail(ErrHeaderLimit)
    else if k < 1 || s[k - 1] != CR then LineFail(ErrProtocol)
    else LineDone(s[..k - 1], s[k + 1..])
  }

  lemma LineRendered(line: Text, following: Text, limit: nat)
    requires LF !in line && |line| <= limit
    ensures LineOf(line + [CR, LF] + following, limit) == LineDone(line, following)
  {
    var s := line + [CR, LF] + following;
    IndexIs(s, LF, |line| + 1);
  }

  lemma LineSpelled(s: Text, limit: nat)
    requires LineOf(s, limit).LineDone?
    ensures var r := LineOf(s, limit);
            LF !in r.line && |r.line| <= limit && s == r.line + [CR, LF] + r.rest
  {
    var k := IndexOf(s, LF);
    assert s == s[..k - 1] + [s[k - 1], s[k]] + s[k + 1..];
  }

  // ----- chunk sizes -----

  predicate HexDigits(d: Text) {
    forall i | 0 <= i < |d| :: HexDigit(d[i]) >= 0
  }

  function HexValue(d: Text): (n: nat)
    requires HexDigits(d)
  {
    if d == [] then 0 else 16 * HexValue(d[..|d| - 1]) + HexDigit(d[|d| - 1])
  }

  /** The size on a chunk line: the digits before any extension, or -1. */
  function ChunkSize(line: Text): (n: int)
    ensures n >= -1
  {
    var digits := line[..IndexOf(line, SEMICOLON)];
    if digits == [] || !HexDigits(digits) || HexValue(digits) > MAX_UINT63 then -1 else HexValue(digits)
  }

  // ----- chunked bodies -----

  datatype Chunked = ChunkedDone(body: Text, rest: Text) | ChunkedFail(partial: Text, error: Error)

  function Dechunk(s: Text, body: Text): Chunked
    requires |body| <= MAX_BODY_BYTES
    decreases |s|
  {
    match LineOf(s, MAX_CHUNK_LINE)
    case LineFail(e) => ChunkedFail(body, e)
    case LineDone(line, r) =>
      var size := ChunkSize(line);
      if size == -1 then ChunkedFail(body, ErrProtocol)
      else if size == 0 then LastChunk(r, body)
      else
        var remaining := MAX_BODY_BYTES + 1 - |body|;
        if size >= remaining then
          if |r| < remaining then ChunkedFail(body + r, ErrEnded)
          else ChunkedFail(body + r[..remaining], ErrBodyTooLarge)
        else if |r| < size then ChunkedFail(body + r, ErrEnded)
        else if |r| < size + 2 then ChunkedFail(body + r[..size], ErrEnded)
        else if r[size..size + 2] != [CR, LF] then ChunkedFail(body + r[..size], ErrProtocol)
        else Dechunk(r[size + 2..], body + r[..size])
  }

  function LastChunk(s: Text, body: Text): Chunked {
    match LineOf(s, MAX_HEADER_BYTES)
    case LineFail(e) => ChunkedFail(body, e)
    case LineDone(trailer, r) => if trailer != [] then ChunkedFail(body, ErrProtocol) else ChunkedDone(body, r)
  }

  // ----- the chunked coding as a grammar (RFC 9112 section 7.1) -----

  datatype Chunk = Chunk(line: Text, data: Text)

  /** `line` announces `n` bytes, whatever its leading zeros, letter case and extensions. */
  predicate Announces(line: Text, n: nat) {
    |line| <= MAX_CHUNK_LINE && LF !in line && ChunkSize(line) == n
  }

  predicate ChunksOk(chunks: seq<Chunk>) {
    forall i | 0 <= i < |chunks| :: chunks[i].data != [] && Announces(chunks[i].line, |chunks[i].data|)
  }

  function Payload(chunks: seq<Chunk>): Text {
    if chunks == [] then [] else chunks[0].data + Payload(chunks[1..])
  }

  function RenderChunks(chunks: seq<Chunk>, last: Text): Text {
    if chunks == [] then last + [CR, LF] + ([] + [CR, LF] + [])
    else chunks[0].line + [CR, LF] + (chunks[0].data + [CR, LF] + RenderChunks(chunks[1..], last))
  }

  /** Decoding any chunked spelling returns the payload and leaves exactly what follows. */
  lemma {:induction false} ChunksDecoded(chunks: seq<Chunk>, last: Text, body: Text, following: Text)
    requires ChunksOk(chunks) && Announces(last, 0) && |body| <= MAX_BODY_BYTES
    ensures var r := Dechunk(RenderChunks(chunks, last) + following, body);
            if |body + Payload(chunks)| <= MAX_BODY_BYTES then r == ChunkedDone(body + Payload(chunks), following)
            else r.ChunkedFail? && r.error == ErrBodyTooLarge
    decreases |chunks|
  {
    hide LineOf, ChunkSize, Announces;
    var s := RenderChunks(chunks, last) + following;
    if chunks == [] {
      assert body + Payload(chunks) == body;
      LastDecoded(last, body, following);
    } else {
      var c, rest := chunks[0], chunks[1..];
      var tail := RenderChunks(rest, last) + following;
      assert s == c.line + [CR, LF] + (c.data + [CR, LF] + tail);
      assert |Payload(chunks)| == |c.data| + |Payload(rest)|;
      OneDecoded(c, body, tail);
      if |body + c.data| <= MAX_BODY_BYTES {
        ChunksDecoded(rest, last, body + c.data, following);
        assert body + c.data + Payload(rest) == body + Payload(chunks);
      }
    }
  }

  lemma LastDecoded(last: Text, body: Text, following: Text)
    requires Announces(last, 0) && |body| <= MAX_BODY_BYTES
    ensures Dechunk(RenderChunks([], last) + following, body) == ChunkedDone(body, following)
  {
    hide LineOf, ChunkSize, IndexOf;
    var t := [] + [CR, LF] + following;
    assert RenderChunks([], last) + following == last + [CR, LF] + t;
    LineRendered(last, t, MAX_CHUNK_LINE);
    LineRendered([], following, MAX_HEADER_BYTES);
  }

  lemma OneDecoded(c: Chunk, body: Text, tail: Text)
    requires c.data != [] && Announces(c.line, |c.data|) && |body| <= MAX_BODY_BYTES
    ensures var r := Dechunk(c.line + [CR, LF] + (c.data + [CR, LF] + tail), body);
            if |body + c.data| <= MAX_BODY_BYTES then r == Dechunk(tail, body + c.data)
            else r.ChunkedFail? && r.error == ErrBodyTooLarge
  {
    hide LineOf, ChunkSize, LastChunk;
    var r := c.data + [CR, LF] + tail;
    LineRendered(c.line, r, MAX_CHUNK_LINE);
    assert r[..|c.data|] == c.data && r[|c.data|..|c.data| + 2] == [CR, LF] && r[|c.data| + 2..] == tail;
  }

  /** Whatever is decoded was a chunked spelling of the body returned. */
  lemma {:induction false} ChunksSpelled(s: Text, body: Text) returns (chunks: seq<Chunk>, last: Text)
    requires |body| <= MAX_BODY_BYTES && Dechunk(s, body).ChunkedDone?
    ensures ChunksOk(chunks) && Announces(last, 0)
    ensures var r := Dechunk(s, body);
            s == RenderChunks(chunks, last) + r.rest && r.body == body + Payload(chunks) && |r.body| <= MAX_BODY_BYTES
    decreases |s|
  {
    hide LineOf, ChunkSize, Dechunk, RenderChunks, Announces;
    if AtLast(s) {
      chunks := [];
      last := LastSpelled(s, body);
      assert body + Payload(chunks) == body;
    } else {
      var c, tail := OneSpelled(s, body);
      var more;
      more, last := ChunksSpelled(tail, body + c.data);
      chunks := [c] + more;
      assert chunks[1..] == more;
      assert body + c.data + Payload(more) == body + Payload(chunks);
      OneRendered(c, more, last, Dechunk(s, body).rest);
    }
  }

  /** The input begins with a line that announces the last chunk. */
  predicate AtLast(s: Text) {
    LineOf(s, MAX_CHUNK_LINE).LineDone? && ChunkSize(LineOf(s, MAX_CHUNK_LINE).line) == 0
  }

  lemma LastSpelled(s: Text, body: Text) returns (last: Text)
    requires |body| <= MAX_BODY_BYTES && Dechunk(s, body).ChunkedDone?
    requires AtLast(s)
    ensures Announces(last, 0)
    ensures var r := Dechunk(s, body); s == RenderChunks([], last) + r.rest && r.body == body
  {
    hide LineOf, ChunkSize;
    var l := LineOf(s, MAX_CHUNK_LINE);
    LineSpelled(s, MAX_CHUNK_LINE);
    last := l.line;
    LineSpelled(l.rest, MAX_HEADER_BYTES);
    assert s == RenderChunks([], last) + LineOf(l.rest, MAX_HEADER_BYTES).rest;
  }

  lemma OneSpelled(s: Text, body: Text) returns (c: Chunk, tail: Text)
    requires |body| <= MAX_BODY_BYTES && Dechunk(s, body).ChunkedDone?
    requires !AtLast(s)
    ensures c.data != [] && Announces(c.line, |c.data|) && |body + c.data| <= MAX_BODY_BYTES
    ensures s == c.line + [CR, LF] + (c.data + [CR, LF] + tail) && Dechunk(s, body) == Dechunk(tail, body + c.data)
  {
    hide LineOf, ChunkSize, LastChunk;
    var l := LineOf(s, MAX_CHUNK_LINE);
    LineSpelled(s, MAX_CHUNK_LINE);
    var size := ChunkSize(l.line);
    c, tail := Chunk(l.line, l.rest[..size]), l.rest[size + 2..];
    assert l.rest == c.data + [CR, LF] + tail;
  }

  lemma OneRendered(c: Chunk, more: seq<Chunk>, last: Text, rest: Text)
    ensures RenderChunks([c] + more, last) + rest ==
            c.line + [CR, LF] + (c.data + [CR, LF] + (RenderChunks(more, last) + rest))
  {
    var chunks := [c] + more;
    assert chunks[1..] == more;
    hide RenderChunks;
    assert RenderChunks(chunks, last) == c.line + [CR, LF] + (c.data + [CR, LF] + RenderChunks(more, last));
  }

  // ----- the canonical encoder -----

  function ToHex(n: nat): (d: Text)
    ensures d != []
  {
    if n < 16 then [HexChar(n)] else ToHex(n / 16) + [HexChar(n % 16)]
  }

  function Pow16(k: nat): (p: nat)
    ensures p >= 1
  {
    if k == 0 then 1 else 16 * Pow16(k - 1)
  }

  lemma {:induction false} ToHexValue(n: nat, k: nat)
    requires 1 <= k && n < Pow16(k)
    ensures var d := ToHex(n);
            HexDigits(d) && HexValue(d) == n && LF !in d && SEMICOLON !in d && |d| <= k
    decreases n
  {
    var d := ToHex(n);
    if n < 16 {
      assert d[..0] == [];
    } else {
      assert k > 1;
      ToHexValue(n / 16, k - 1);
      assert d[..|d| - 1] == ToHex(n / 16);
    }
  }

  function Concat(parts: seq<Text>): Text {
    if parts == [] then [] else parts[0] + Concat(parts[1..])
  }

  function Chunks(parts: seq<Text>): (cs: seq<Chunk>)
    ensures |cs| == |parts|
  {
    if parts == [] then [] else [Chunk(ToHex(|parts[0]|), parts[0])] + Chunks(parts[1..])
  }

  lemma {:induction false} ChunksOfParts(parts: seq<Text>)
    requires forall i | 0 <= i < |parts| :: parts[i] != []
    requires |Concat(parts)| <= MAX_BODY_BYTES
    ensures ChunksOk(Chunks(parts)) && Payload(Chunks(parts)) == Concat(parts)
    decreases |parts|
  {
    hide Announces;
    if parts != [] {
      ChunksOfParts(parts[1..]);
      assert Chunks(parts)[1..] == Chunks(parts[1..]);
      ToHexAnnounces(|parts[0]|);
    }
  }

  lemma ToHexAnnounces(n: nat)
    requires n <= MAX_BODY_BYTES
    ensures Announces(ToHex(n), n)
  {
    hide ToHex, HexValue, IndexOf;
    assert Pow16(6) == 16 * (16 * (16 * Pow16(3)));
    assert Pow16(3) == 4096;
    ToHexValue(n, 6);
    IndexAbsent(ToHex(n), SEMICOLON);
    assert ToHex(n)[..|ToHex(n)|] == ToHex(n);
  }

  /**
   Any body of at most 1 MiB, split into non-empty parts in any way, comes back
   from its chunked encoding, and the bytes that follow stay unread.
   */
  lemma ChunkedRoundTrip(parts: seq<Text>, following: Text)
    requires forall i | 0 <= i < |parts| :: parts[i] != []
    requires |Concat(parts)| <= MAX_BODY_BYTES
    ensures Dechunk(RenderChunks(Chunks(parts), ToHex(0)) + following, []) == ChunkedDone(Concat(parts), following)
  {
    hide Dechunk, RenderChunks, Payload, Announces, ToHex, ChunksOk, Chunks;
    ChunksOfParts(parts);
    ToHexAnnounces(0);
    ChunksDecoded(Chunks(parts), ToHex(0), [], following);
    assert [] + Payload(Chunks(parts)) == Concat(parts);
  }

  // ----- locality: a read depends only on the bytes it consumes -----

  ghost predicate SameFront(s: Text, t: Text, n: nat) {
    n <= |s| && n <= |t| && s[..n] == t[..n]
  }

  lemma FrontByte(s: Text, t: Text, n: nat, k: nat)
    requires SameFront(s, t, n) && k < n
    ensures s[k] == t[k]
  {
    assert s[..n][k] == t[..n][k];
  }

  lemma LineLocal(s: Text, t: Text, limit: nat)
    requires LineOf(s, limit).LineDone? && SameFront(s, t, |s| - |LineOf(s, limit).rest|)
    ensures LineOf(t, limit) == LineDone(LineOf(s, limit).line, t[|s| - |LineOf(s, limit).rest|..])
  {
    hide IndexOf;
    var k := IndexOf(s, LF);
    forall i | 0 <= i < k + 1 ensures s[i] == t[i] { FrontByte(s, t, k + 1, i); }
    IndexIs(t, LF, k);
    assert s[..k - 1] == t[..k - 1];
  }

  lemma FrontRest(s: Text, t: Text, m: nat, n: nat)
    requires m <= n && SameFront(s, t, n)
    ensures SameFront(s, t, m) && SameFront(s[m..], t[m..], n - m) && s[m..n] == t[m..n]
    ensures forall k | 0 <= k <= n - m :: t[m..][k..] == t[m + k..]
  {
    assert s[..m] == s[..n][..m] && t[..m] == t[..n][..m];
    assert s[m..n] == s[..n][m..] && t[m..n] == t[..n][m..];
    assert s[m..][..n - m] == s[m..n] && t[m..][..n - m] == t[m..n];
  }

  lemma {:induction false} DechunkLocal(s: Text, t: Text, body: Text)
    requires |body| <= MAX_BODY_BYTES && Dechunk(s, body).ChunkedDone?
    requires |Dechunk(s, body).rest| <= |s| && SameFront(s, t, |s| - |Dechunk(s, body).rest|)
    ensures Dechunk(t, body) == ChunkedDone(Dechunk(s, body).body, t[|s| - |Dechunk(s, body).rest|..])
    decreases |s|
  {
    hide LineOf, ChunkSize, SameFront;
    var n := |s| - |Dechunk(s, body).rest|;
    var l := LineOf(s, MAX_CHUNK_LINE);
    var m := |s| - |l.rest|;
    DechunkConsumes(s, body);
    LineSpelled(s, MAX_CHUNK_LINE);
    assert s[m..] == l.rest;
    FrontRest(s, t, m, n);
    LineLocal(s, t, MAX_CHUNK_LINE);
    var size := ChunkSize(l.line);
    if size == 0 {
      LineLocal(l.rest, t[m..], MAX_HEADER_BYTES);
    } else {
      DechunkConsumes(l.rest[size + 2..], body + l.rest[..size]);
      FrontRest(l.rest, t[m..], size + 2, n - m);
      FrontRest(l.rest, t[m..], size, size + 2);
      FrontBytes(l.rest, t[m..], size);
      DechunkLocal(l.rest[size + 2..], t[m..][size + 2..], body + l.rest[..size]);
    }
  }

  lemma FrontBytes(s: Text, t: Text, n: nat)
    requires SameFront(s, t, n)
    ensures n <= |s| && n <= |t| && s[..n] == t[..n]
  {
  }

  /** The bytes left over are the end of the bytes given. */
  lemma {:induction false} DechunkConsumes(s: Text, body: Text)
    requires |body| <= MAX_BODY_BYTES && Dechunk(s, body).ChunkedDone?
    ensures var r := Dechunk(s, body).rest;
            |r| < |s| && s[|s| - |r|..] == r
    ensures var l := LineOf(s, MAX_CHUNK_LINE);
            l.LineDone? && |Dechunk(s, body).rest| < |l.rest|
  {
    hide LineOf, ChunkSize;
    var l := LineOf(s, MAX_CHUNK_LINE);
    LineSpelled(s, MAX_CHUNK_LINE);
    var chunks, last := ChunksSpelled(s, body);
    if ChunkSize(l.line) != 0 {
      var size := ChunkSize(l.line);
      var more, last' := ChunksSpelled(l.rest[size + 2..], body + l.rest[..size]);
    } else {
      LineSpelled(l.rest, MAX_HEADER_BYTES);
    }
  }

  // ----- the buffered reader -----

  datatype Slice = Found | BufferFull | Ended

  class Reader {
    /** The bytes not yet handed over; after them the connection ends. */
    var rest: Text

    constructor (rest: Text)
      ensures this.rest == rest
    {
      this.rest := rest;
    }

    /** Hands over bytes up to the next LF, a full buffer of any size, or the end. */
    method ReadSlice() returns (fragment: Text, status: Slice)
      modifies this
      ensures old(rest) == fragment + rest
      ensures status == Found ==> |fragment| >= 1 && fragment[|fragment| - 1] == LF && LF !in fragment[..|fragment| - 1]
      ensures status == BufferFull ==> fragment != [] && LF !in fragment
      ensures status == Ended ==> rest == [] && LF !in fragment
    {
      var capacity: nat :| capacity >= 1;
      var k := IndexOf(rest, LF);
      if k < |rest| && k < capacity {
        fragment, rest, status := rest[..k + 1], rest[k + 1..], Found;
      } else if capacity <= |rest| {
        fragment, rest, status := rest[..capacity], rest[capacity..], BufferFull;
      } else {
        fragment, rest, status := rest, [], Ended;
      }
    }

    /** A line does not depend on the fragments it arrives in. */
    method ReadLine(limit: nat) returns (r: Line)
      modifies this
      ensures LineOf(old(rest), limit).LineFail? ==> r == LineOf(old(rest), limit)
      ensures LineOf(old(rest), limit).LineDone? ==> r == LineOf(old(rest), limit) && rest == r.rest
    {
      hide LineOf;
      var line: Text := [];
      while true
        invariant old(rest) == line + rest
        invariant LF !in line && |line| <= limit + 2
        decreases |rest|
      {
        var fragment, status := ReadSlice();
        LineFragment(old(rest), line, fragment, rest, status, limit);
        if |line| + |fragment| > limit + 2 { return LineFail(ErrHeaderLimit); }
        line := line + fragment;
        if status == Found { break; }
        if status == Ended { return LineFail(ErrEnded); }
      }
      if |line| < 2 || line[|line| - 2] != CR { return LineFail(ErrProtocol); }
      return LineDone(line[..|line| - 2], rest);
    }

    /** Takes `n` bytes, or all there are. */
    method Take(n: nat) returns (bytes: Text, complete: bool)
      modifies this
      ensures complete == (n <= |old(rest)|)
      ensures bytes == if complete then old(rest)[..n] else old(rest)
      ensures rest == if complete then old(rest)[n..] else []
    {
      complete := n <= |rest|;
      if complete {
        bytes, rest := rest[..n], rest[n..];
      } else {
        bytes, rest := rest, [];
      }
    }

    method ReadChunked() returns (r: Chunked)
      modifies this
      ensures r == Dechunk(old(rest), [])
      ensures r.ChunkedDone? ==> rest == r.rest
    {
      hide LineOf, ChunkSize, LastChunk;
      var body: Text := [];
      while true
        invariant |body| <= MAX_BODY_BYTES
        invariant Dechunk(rest, body) == Dechunk(old(rest), [])
        decreases |rest|
      {
        var line := ReadLine(MAX_CHUNK_LINE);
        if line.LineFail? { return ChunkedFail(body, line.error); }
        var size := ChunkSize(line.line);
        if size == -1 { return ChunkedFail(body, ErrProtocol); }
        if size == 0 {
          r := ReadTrailer(body);
          return;
        }
        var remaining := MAX_BODY_BYTES + 1 - |body|;
        var data, complete := Take(if size >= remaining then remaining else size);
        if !complete { return ChunkedFail(body + data, ErrEnded); }
        body := body + data;
        if size >= remaining { return ChunkedFail(body, ErrBodyTooLarge); }
        var ending, whole := Take(2);
        if !whole { return ChunkedFail(body, ErrEnded); }
        if ending != [CR, LF] { return ChunkedFail(body, ErrProtocol); }
      }
    }

    method ReadTrailer(body: Text) returns (r: Chunked)
      modifies this
      ensures r == LastChunk(old(rest), body)
      ensures r.ChunkedDone? ==> rest == r.rest
    {
      hide LineOf;
      var trailer := ReadLine(MAX_HEADER_BYTES);
      if trailer.LineFail? { return ChunkedFail(body, trailer.error); }
      if trailer.line != [] { return ChunkedFail(body, ErrProtocol); }
      return ChunkedDone(body, rest);
    }
  }

  /** What one fragment decides about the line being read. */
  lemma LineFragment(s: Text, line: Text, fragment: Text, rest: Text, status: Slice, limit: nat)
    requires s == line + (fragment + rest) && LF !in line
    requires status == Found ==> |fragment| >= 1 && fragment[|fragment| - 1] == LF && LF !in fragment[..|fragment| - 1]
    requires status == BufferFull ==> LF !in fragment
    requires status == Ended ==> rest == [] && LF !in fragment
    ensures |line| + |fragment| > limit + 2 ==> LineOf(s, limit) == LineFail(ErrHeaderLimit)
    ensures |line| + |fragment| <= limit + 2 && status == Ended ==> LineOf(s, limit) == LineFail(ErrEnded)
    ensures |line| + |fragment| <= limit + 2 && status == Found ==>
              var all := line + fragment;
              LineOf(s, limit) == if |all| < 2 || all[|all| - 2] != CR then LineFail(ErrProtocol)
                                  else LineDone(all[..|all| - 2], rest)
  {
    var all := line + fragment;
    assert s == all + rest;
    var k := IndexOf(s, LF);
    if status == Found {
      forall i | 0 <= i < |all| - 1 ensures s[i] != LF {
        if i >= |line| { assert s[i] == fragment[..|fragment| - 1][i - |line|]; }
      }
      IndexIs(s, LF, |all| - 1);
    } else {
      forall i | 0 <= i < |all| ensures s[i] != LF {
        if i >= |line| { assert s[i] == fragment[i - |line|]; } else { assert s[i] == line[i]; }
      }
      if status == Ended { IndexAbsent(s, LF); }
    }
  }
}
