/** One HTTP/2 response: decoding its header block and finalizing its body. */
module Http2Message {
  import opened Bytes
  import opened Http1Message
  import opened Wrappers
  import F = Http1Framing
  import Utf8

  const MAX_EXPANSION: nat := 100

  datatype Failure = Protocol | TooLarge

  /** A decompressed header list, as the framing library hands it over. */
  datatype Meta = Meta(truncated: bool, pseudos: seq<Header>, regular: seq<Header>)

  datatype Decoded = Decoded(status: int, headers: seq<Header>, expected: Option<nat>) | Undecodable(why: Failure)

  // ----- header blocks -----

  /** The status named by the only pseudo-header, or -1. */
  function StatusOf(pseudos: seq<Header>): (status: int)
    ensures status == -1 || 100 <= status <= 599
  {
    if |pseudos| != 1 || pseudos[0].name != Ascii(":status") || |pseudos[0].value| != 3 then -1
    else
      var v := pseudos[0].value;
      if !IsDigit(v[0]) || !IsDigit(v[1]) || !IsDigit(v[2]) then -1
      else
        var status := (v[0] - '0' as int) * 100 + (v[1] - '0' as int) * 10 + (v[2] - '0' as int);
        if 100 <= status <= 599 then status else -1
  }

  predicate FieldOk(h: Header) {
    && h.name != [] && |h.name| <= MAX_HEADER_NAME && |h.value| <= MAX_HEADER_VALUE && Utf8.Valid(h.value)
    && forall i | 0 <= i < |h.value| :: ValueByte(h.value[i])
  }

  predicate CanonicalDecimal(v: Text) {
    v == Ascii("0") || (v != [] && v[0] != '0' as int && forall i | 0 <= i < |v| :: IsDigit(v[i]))
  }

  /** Progress over the first fields: their logical size and the declared length, or a failure. */
  datatype Progress = Going(bytes: nat, expected: Option<nat>) | Stopped(why: Failure)

  function TakeLength(p: Progress, h: Header): Progress
    requires p.Going?
  {
    if h.name != Ascii("content-length") then p
    else if p.expected.Some? || !CanonicalDecimal(h.value) then Stopped(Protocol)
    else
      var n := DecimalOf(h.value);
      if n > F.MAX_UINT63 then Stopped(Protocol)
      else if n > F.MAX_BODY_BYTES then Stopped(TooLarge)
      else p.(expected := Some(n))
  }

  function DecimalOf(v: Text): nat
    requires CanonicalDecimal(v)
  {
    assert v == Ascii("0") ==> v[0] == '0' as int;
    DecimalValue(v)
  }

  function TakeField(p: Progress, h: Header): Progress {
    if p.Stopped? then p
    else if !FieldOk(h) then Stopped(Protocol)
    else if p.bytes + FieldBytes(h) > F.MAX_HEADER_BYTES then Stopped(TooLarge)
    else TakeLength(p.(bytes := p.bytes + FieldBytes(h)), h)
  }

  function Fields(headers: seq<Header>): Progress {
    if headers == [] then Going(0, None) else TakeField(Fields(headers[..|headers| - 1]), headers[|headers| - 1])
  }

  function Decode(frame: Meta): Decoded {
    var status := StatusOf(frame.pseudos);
    if frame.truncated then Undecodable(TooLarge)
    else if status == -1 then Undecodable(Protocol)
    else if |frame.regular| > MAX_HEADER_FIELDS then Undecodable(TooLarge)
    else
      match Fields(frame.regular)
      case Stopped(why) => Undecodable(why)
      case Going(_, expected) => Decoded(status, frame.regular, expected)
  }

  method DecodeResponseHeaders(frame: Meta) returns (r: Decoded)
    ensures r == Decode(frame)
  {
    hide TakeField, StatusOf;
    if frame.truncated { return Undecodable(TooLarge); }
    var status := StatusOf(frame.pseudos);
    if status == -1 { return Undecodable(Protocol); }
    var regular := frame.regular;
    if |regular| > MAX_HEADER_FIELDS { return Undecodable(TooLarge); }
    var headers: seq<Header> := [];
    var progress := Going(0, None);
    var i := 0;
    while i < |regular|
      invariant 0 <= i <= |regular| && headers == regular[..i]
      invariant progress.Going? && progress == Fields(regular[..i])
    {
      assert regular[..i + 1][..i] == regular[..i];
      progress := TakeField(progress, regular[i]);
      if progress.Stopped? {
        StaysStopped(regular, i + 1);
        return Undecodable(progress.why);
      }
      headers := headers + [regular[i]];
      i := i + 1;
    }
    assert regular[..i] == regular;
    return Decoded(status, headers, progress.expected);
  }

  lemma {:induction false} StaysStopped(headers: seq<Header>, n: nat)
    requires n <= |headers| && Fields(headers[..n]).Stopped?
    ensures Fields(headers) == Fields(headers[..n])
    decreases |headers|
  {
    if n < |headers| {
      var front := headers[..|headers| - 1];
      assert front[..n] == headers[..n];
      StaysStopped(front, n);
    } else {
      assert headers[..n] == headers;
    }
  }

  /** The values of the fields with exactly this name, in order. */
  function Named(headers: seq<Header>, name: Text): seq<Text> {
    if headers == [] then []
    else
      var last := headers[|headers| - 1];
      Named(headers[..|headers| - 1], name) + if last.name == name then [last.value] else []
  }

  /** A declared length the client accepts. */
  predicate Declares(values: seq<Text>, expected: Option<nat>) {
    if values == [] then expected == None
    else
      && |values| == 1 && CanonicalDecimal(values[0]) && DecimalOf(values[0]) <= F.MAX_BODY_BYTES
      && expected == Some(DecimalOf(values[0]))
  }

  /** The fold accepts a list exactly when its fields, its size and its declared length are all acceptable. */
  lemma {:induction false} FieldsExactly(headers: seq<Header>, expected: Option<nat>)
    ensures Fields(headers) == Going(HeaderBytes(headers), expected)
            <==> (forall h | h in headers :: FieldOk(h)) && HeaderBytes(headers) <= F.MAX_HEADER_BYTES
                 && Declares(Named(headers, Ascii("content-length")), expected)
    ensures Fields(headers).Going? ==> Fields(headers).bytes == HeaderBytes(headers)
    decreases |headers|
  {
    hide FieldOk, CanonicalDecimal, DecimalOf, FieldBytes;
    if headers != [] {
      var front, last := headers[..|headers| - 1], headers[|headers| - 1];
      assert headers == front + [last];
      FieldsExactly(front, expected);
      FieldsExactly(front, None);
    }
  }

  /** The length a block declares, if it declares one. */
  function DeclaredLength(values: seq<Text>): Option<nat> {
    if values != [] && CanonicalDecimal(values[0]) then Some(DecimalOf(values[0])) else None
  }

  /** A header block is accepted exactly when it is complete, names one status, and keeps to every limit. */
  lemma DecodesExactly(frame: Meta)
    ensures var lengths := Named(frame.regular, Ascii("content-length"));
            Decode(frame).Decoded? <==>
              && !frame.truncated && StatusOf(frame.pseudos) != -1
              && |frame.regular| <= MAX_HEADER_FIELDS && HeaderBytes(frame.regular) <= F.MAX_HEADER_BYTES
              && (forall h | h in frame.regular :: FieldOk(h))
              && Declares(lengths, DeclaredLength(lengths))
    ensures var lengths := Named(frame.regular, Ascii("content-length"));
            Decode(frame).Decoded? ==>
              && Decode(frame).headers == frame.regular
              && Declares(lengths, Decode(frame).expected)
              && (Decode(frame).expected.Some? ==> Decode(frame).expected.value <= F.MAX_BODY_BYTES)
  {
    hide FieldOk, StatusOf, CanonicalDecimal, HeaderBytes;
    var lengths := Named(frame.regular, Ascii("content-length"));
    FieldsExactly(frame.regular, DeclaredLength(lengths));
    if Fields(frame.regular).Going? {
      FieldsExactly(frame.regular, Fields(frame.regular).expected);
    }
  }

  // ----- finalizing -----

  /**
   What the decompressor makes of a body: nothing, or a stream of output that
   ends cleanly or in an error, whether that error comes together with the last
   bytes or after them, the input left at its end, and whether closing it reports
   an error after some output was read.
   */
  datatype Inflation =
    | NoStream
    | Stream(text: Text, broken: bool, together: bool, unread: nat, closeFails: nat -> bool)

  type Gunzip = Text -> Inflation

  datatype Coding = Identity | Gzip | Bad

  predicate IsAscii(v: Text) {
    forall i | 0 <= i < |v| :: v[i] <= 0x7f
  }

  predicate IsSpace(b: Byte) {
    b == 0x20 || 0x09 <= b <= 0x0d
  }

  function Trim(v: Text): Text
    decreases |v|
  {
    if v != [] && IsSpace(v[0]) then Trim(v[1..])
    else if v != [] && IsSpace(v[|v| - 1]) then Trim(v[..|v| - 1])
    else v
  }

  function LowerAscii(v: Text): Text {
    seq(|v|, i requires 0 <= i < |v| => Lower(v[i]))
  }

  function CodingNamed(v: Text): Coding {
    if !IsAscii(v) then Bad
    else
      var name := LowerAscii(Trim(v));
      if name == [] || name == Ascii("identity") then Identity
      else if name == Ascii("gzip") then Gzip
      else Bad
  }

  function CodingOf(values: seq<Text>): Coding {
    if values == [] then Identity else if |values| > 1 then Bad else CodingNamed(values[0])
  }

  method ResponseCoding(headers: seq<Header>) returns (coding: Coding)
    ensures coding == CodingOf(Named(headers, Ascii("content-encoding")))
  {
    hide CodingNamed;
    var name := Ascii("content-encoding");
    var seen := false;
    coding := Identity;
    var i := 0;
    while i < |headers|
      invariant 0 <= i <= |headers|
      invariant seen <==> Named(headers[..i], name) != []
      invariant coding == CodingOf(Named(headers[..i], name)) && |Named(headers[..i], name)| <= 1
    {
      assert headers[..i + 1][..i] == headers[..i];
      if headers[i].name == name {
        if seen {
          MoreNamed(headers, i + 1, name);
          return Bad;
        }
        seen, coding := true, CodingNamed(headers[i].value);
      }
      i := i + 1;
    }
    assert headers[..i] == headers;
  }

  lemma {:induction false} MoreNamed(headers: seq<Header>, n: nat, name: Text)
    requires n <= |headers|
    ensures |Named(headers[..n], name)| <= |Named(headers, name)|
    decreases |headers|
  {
    if n < |headers| {
      var front := headers[..|headers| - 1];
      assert front[..n] == headers[..n];
      MoreNamed(front, n, name);
    } else {
      assert headers[..n] == headers;
    }
  }

  predicate Successful(status: int) {
    200 <= status < 300
  }

  function BodyLimit(status: int): nat {
    if Successful(status) then F.MAX_BODY_BYTES else MAX_ERROR_BODY
  }

  /**
   Reads one byte more than the limit at most. An error past that byte stays
   unseen, and so does one right after it unless it comes together with it; what
   is left of the input counts only at the end.
   */
  function ReadStream(stream: Inflation, limit: nat): Option<Text> {
    match stream
    case NoStream => None
    case Stream(text, broken, together, unread, closeFails) =>
      if |text| > limit then
        if (broken && together && |text| == limit + 1) || closeFails(limit + 1) then None
        else Some(text[..limit + 1])
      else if broken || closeFails(|text|) || unread != 0 then None
      else Some(text)
  }

  /** The body before the size checks. */
  function Expand(coding: Coding, wire: Text, limit: nat, gunzip: Gunzip): Option<Text> {
    match coding
    case Bad => None
    case Identity => Some(wire)
    case Gzip => ReadStream(gunzip(wire), limit)
  }

  datatype Final = Final(response: Response) | Unusable(why: Failure)

  function Finalize(status: int, headers: seq<Header>, wire: Text, gunzip: Gunzip): Final {
    var limit := BodyLimit(status);
    match Expand(CodingOf(Named(headers, Ascii("content-encoding"))), wire, limit, gunzip)
    case None => Unusable(Protocol)
    case Some(text) =>
      if |text| > |wire| * MAX_EXPANSION then Unusable(TooLarge)
      else if |text| <= limit then Final(Response(status, headers, text, |wire|, |text|, false))
      else if Successful(status) then Unusable(TooLarge)
      else Final(Response(status, headers, text[..limit], |wire|, |text|, true))
  }

  method FinalizeResponse(status: int, headers: seq<Header>, wire: Text, gunzip: Gunzip) returns (r: Final)
    ensures r == Finalize(status, headers, wire, gunzip)
  {
    var coding := ResponseCoding(headers);
    hide CodingOf, Named;
    var limit := if status < 200 || status >= 300 then MAX_ERROR_BODY else F.MAX_BODY_BYTES;
    var decoded: Text;
    if coding == Identity {
      decoded := wire;
    } else if coding == Gzip {
      var stream := gunzip(wire);
      if stream.NoStream? { return Unusable(Protocol); }
      var cut := |stream.text| > limit;
      decoded := if cut then stream.text[..limit + 1] else stream.text;
      var failed := stream.broken && (!cut || (stream.together && decoded == stream.text));
      if failed || stream.closeFails(|decoded|) { return Unusable(Protocol); }
      if |decoded| <= limit && stream.unread != 0 { return Unusable(Protocol); }
    } else {
      return Unusable(Protocol);
    }
    var length := |decoded|;
    if length > |wire| * MAX_EXPANSION { return Unusable(TooLarge); }
    var truncated := false;
    if length > limit {
      if 200 <= status < 300 { return Unusable(TooLarge); }
      truncated := true;
      decoded := decoded[..limit];
    }
    return Final(Response(status, headers, decoded, |wire|, length, truncated));
  }

  /** What every finalized response promises about its body. */
  predicate WellFinished(r: Response, status: int, headers: seq<Header>, wire: Text) {
    && r.status == status && r.headers == headers && r.compressedBytes == |wire|
    && |r.body| <= r.decompressedBytes <= |wire| * MAX_EXPANSION
    && |r.body| <= BodyLimit(status)
    && (r.truncated <==> |r.body| < r.decompressedBytes)
    && (r.truncated ==> !Successful(status))
    && (CodingOf(Named(headers, Ascii("content-encoding"))) == Identity ==>
          r.body <= wire && r.decompressedBytes == |wire| && (r.truncated <==> |wire| > BodyLimit(status)))
  }

  lemma FinalizedBounded(status: int, headers: seq<Header>, wire: Text, gunzip: Gunzip)
    requires Finalize(status, headers, wire, gunzip).Final?
    ensures WellFinished(Finalize(status, headers, wire, gunzip).response, status, headers, wire)
  {
    hide CodingOf, Named;
  }
}
