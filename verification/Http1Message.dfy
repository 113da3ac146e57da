/** One HTTP/1.1 response: its head, its framing headers and its body. */
module Http1Message {
  import opened Bytes
  import opened Http1Framing
  import opened Wrappers
  import Utf8

  const MAX_HEADER_FIELDS: nat := 100
  const MAX_HEADER_NAME: nat := 256
  const MAX_HEADER_VALUE: nat := 8192
  const MAX_ERROR_BODY: nat := 0x10000
  const MAX_INFORMATIONAL: nat := 8
  const COLON: Byte := 0x3a

  function Ascii(s: string): (t: Text)
    ensures |t| == |s|
  {
    seq(|s|, i requires 0 <= i < |s| => s[i] as int % 256)
  }

  function Lower(b: Byte): Byte {
    if 'A' as int <= b <= 'Z' as int then b + 32 else b
  }

  /** Case folding as far as it meets ASCII: letters, the long s and the Kelvin sign. */
  function Fold(s: Text): (t: Text)
    decreases |s|
  {
    if s == [] then []
    else if At(s, 0, [0xe2, 0x84, 0xaa]) then ['k' as int] + Fold(s[3..])
    else if At(s, 0, [0xc5, 0xbf]) then ['s' as int] + Fold(s[2..])
    else [Lower(s[0])] + Fold(s[1..])
  }

  /** Lower-casing as far as it ends in ASCII: letters, the dotted capital I and the Kelvin sign. */
  function LowerCase(s: Text): (t: Text)
    decreases |s|
  {
    if s == [] then []
    else if At(s, 0, [0xe2, 0x84, 0xaa]) then ['k' as int] + LowerCase(s[3..])
    else if At(s, 0, [0xc4, 0xb0]) then ['i' as int] + LowerCase(s[2..])
    else [Lower(s[0])] + LowerCase(s[1..])
  }

  predicate EqualFold(a: Text, b: Text) {
    Fold(a) == Fold(b)
  }

  // ----- status line and header fields -----

  datatype Header = Header(name: Text, value: Text)

  /** The status code of a status line, or -1. */
  function ParseStatus(line: Text): (status: int)
    ensures status == -1 || 100 <= status <= 599
  {
    if |line| < 12 || line[..9] != Ascii("HTTP/1.1 ") || line[9] < '1' as int || line[9] > '5' as int
       || !IsDigit(line[10]) || !IsDigit(line[11]) || (|line| > 12 && line[12] != ' ' as int)
    then -1
    else (line[9] - '0' as int) * 100 + (line[10] - '0' as int) * 10 + (line[11] - '0' as int)
  }

  predicate IsBlank(b: Byte) { b == 0x20 || b == 0x09 }

  function TrimLeft(s: Text): Text {
    if s != [] && IsBlank(s[0]) then TrimLeft(s[1..]) else s
  }

  function TrimRight(s: Text): Text {
    if s != [] && IsBlank(s[|s| - 1]) then TrimRight(s[..|s| - 1]) else s
  }

  predicate TokenByte(c: Byte) {
    IsDigit(c) || 'a' as int <= c <= 'z' as int || 'A' as int <= c <= 'Z' as int || c in Ascii("!#$%&'*+-.^_`|~")
  }

  predicate ValueByte(c: Byte) {
    c != 0x7f && (c >= 0x20 || c == 0x09)
  }

  datatype ParsedHeader = HeaderDone(header: Header) | HeaderFail(error: Error)

  function ParseHeader(line: Text): ParsedHeader {
    if line == [] || IsBlank(line[0]) then HeaderFail(ErrProtocol)
    else
      var colon := IndexOf(line, COLON);
      if colon == |line| || colon < 1 then HeaderFail(ErrProtocol)
      else
        var name := line[..colon];
        var value := TrimRight(TrimLeft(line[colon + 1..]));
        if |name| > MAX_HEADER_NAME then HeaderFail(ErrHeaderLimit)
        else if exists i | 0 <= i < |name| :: !TokenByte(name[i]) then HeaderFail(ErrProtocol)
        else if |value| > MAX_HEADER_VALUE then HeaderFail(ErrHeaderLimit)
        else if !Utf8.Valid(value) || exists i | 0 <= i < |value| :: !ValueByte(value[i]) then HeaderFail(ErrProtocol)
        else HeaderDone(Header(name, value))
  }

  function FieldBytes(h: Header): nat {
    |h.name| + 2 + |h.value| + 2
  }

  function HeaderBytes(headers: seq<Header>): nat {
    if headers == [] then 0 else HeaderBytes(headers[..|headers| - 1]) + FieldBytes(headers[|headers| - 1])
  }

  datatype Fields = FieldsDone(headers: seq<Header>, rest: Text) | FieldsFail(error: Error)

  /** Header lines up to the empty line, after the fields already read. */
  function FieldsOf(s: Text, headers: seq<Header>): (r: Fields)
    ensures r.FieldsDone? ==> |r.rest| < |s|
    decreases |s|
  {
    match LineOf(s, MAX_HEADER_BYTES + 2)
    case LineFail(e) => FieldsFail(e)
    case LineDone(line, rest) =>
      if line == [] then FieldsDone(headers, rest)
      else if |headers| == MAX_HEADER_FIELDS then FieldsFail(ErrHeaderLimit)
      else
        match ParseHeader(line)
        case HeaderFail(e) => FieldsFail(e)
        case HeaderDone(h) =>
          if HeaderBytes(headers) + FieldBytes(h) > MAX_HEADER_BYTES then FieldsFail(ErrHeaderLimit)
          else FieldsOf(rest, headers + [h])
  }

  /** Every head that is read keeps to the field and byte limits. */
  lemma {:induction false} FieldsBounded(s: Text, headers: seq<Header>)
    requires |headers| <= MAX_HEADER_FIELDS && HeaderBytes(headers) <= MAX_HEADER_BYTES
    ensures var r := FieldsOf(s, headers);
            r.FieldsDone? ==>
              |r.headers| <= MAX_HEADER_FIELDS && HeaderBytes(r.headers) <= MAX_HEADER_BYTES && headers <= r.headers
    decreases |s|
  {
    hide LineOf, ParseHeader;
    var l := LineOf(s, MAX_HEADER_BYTES + 2);
    if FieldsOf(s, headers).FieldsDone? && l.line != [] {
      var grown := headers + [ParseHeader(l.line).header];
      assert grown[..|grown| - 1] == headers;
      FieldsBounded(l.rest, grown);
    }
  }

  // ----- framing headers -----

  /** The values of the fields with a given name, in order. */
  function Values(headers: seq<Header>, name: Text): seq<Text> {
    if headers == [] then []
    else
      var last := headers[|headers| - 1];
      Values(headers[..|headers| - 1], name) + if EqualFold(last.name, name) then [last.value] else []
  }

  datatype Length = NoLength | Length(n: nat) | BadLength

  function LengthOf(values: seq<Text>): Length {
    if values == [] then NoLength
    else if |values| > 1 || values[0] == [] then BadLength
    else if exists i | 0 <= i < |values[0]| :: !IsDigit(values[0][i]) then BadLength
    else if DecimalValue(values[0]) > MAX_UINT63 then BadLength
    else Length(if DecimalValue(values[0]) > MAX_BODY_BYTES then MAX_BODY_BYTES + 1 else DecimalValue(values[0]))
  }

  method SingleContentLength(headers: seq<Header>) returns (r: Length)
    ensures r == LengthOf(Values(headers, Ascii("content-length")))
  {
    hide EqualFold;
    var name := Ascii("content-length");
    var found, value := false, [];
    var i := 0;
    while i < |headers|
      invariant 0 <= i <= |headers|
      invariant Values(headers[..i], name) == if found then [value] else []
      invariant found ==> value != []
    {
      assert headers[..i + 1][..i] == headers[..i];
      if EqualFold(headers[i].name, name) {
        if found || headers[i].value == [] {
          MoreValues(headers, i + 1, name);
          return BadLength;
        }
        found, value := true, headers[i].value;
      }
      i := i + 1;
    }
    assert headers[..i] == headers;
    if !found { return NoLength; }
    if exists k | 0 <= k < |value| :: !IsDigit(value[k]) { return BadLength; }
    var n := DecimalValue(value);
    if n > MAX_UINT63 { return BadLength; }
    return Length(if n > MAX_BODY_BYTES then MAX_BODY_BYTES + 1 else n);
  }

  /** The values found among the first fields are the first values. */
  lemma {:induction false} MoreValues(headers: seq<Header>, i: nat, name: Text)
    requires i <= |headers|
    ensures Values(headers[..i], name) <= Values(headers, name)
    decreases |headers|
  {
    if i < |headers| {
      MoreValues(headers[..|headers| - 1], i, name);
      assert headers[..|headers| - 1][..i] == headers[..i];
    } else {
      assert headers[..i] == headers;
    }
  }

  datatype Coding = Plain | Coded | BadCoding

  function TransferOf(values: seq<Text>): Coding {
    if values == [] then Plain
    else if |values| == 1 && EqualFold(values[0], Ascii("chunked")) then Coded
    else BadCoding
  }

  method TransferChunked(headers: seq<Header>) returns (r: Coding)
    ensures r == TransferOf(Values(headers, Ascii("transfer-encoding")))
  {
    hide EqualFold;
    var name := Ascii("transfer-encoding");
    r := Plain;
    var i := 0;
    while i < |headers|
      invariant 0 <= i <= |headers| && r != BadCoding
      invariant TransferOf(Values(headers[..i], name)) == r
    {
      assert headers[..i + 1][..i] == headers[..i];
      if EqualFold(headers[i].name, name) {
        if r == Coded || !EqualFold(headers[i].value, Ascii("chunked")) {
          MoreValues(headers, i + 1, name);
          return BadCoding;
        }
        r := Coded;
      }
      i := i + 1;
    }
    assert headers[..i] == headers;
  }

  function EncodingOf(values: seq<Text>): Coding {
    if values == [] then Plain
    else if |values| > 1 then BadCoding
    else if LowerCase(values[0]) == Ascii("gzip") then Coded
    else if LowerCase(values[0]) == Ascii("identity") then Plain
    else BadCoding
  }

  method ContentEncoding(headers: seq<Header>) returns (r: Coding)
    ensures r == EncodingOf(Values(headers, Ascii("content-encoding")))
  {
    hide EqualFold, LowerCase;
    var name := Ascii("content-encoding");
    var found, encoding := false, Ascii("identity");
    var i := 0;
    while i < |headers|
      invariant 0 <= i <= |headers|
      invariant !found ==> Values(headers[..i], name) == [] && encoding == Ascii("identity")
      invariant found ==> var v := Values(headers[..i], name); |v| == 1 && encoding == LowerCase(v[0])
    {
      assert headers[..i + 1][..i] == headers[..i];
      if EqualFold(headers[i].name, name) {
        if found {
          MoreValues(headers, i + 1, name);
          return BadCoding;
        }
        found, encoding := true, LowerCase(headers[i].value);
      }
      i := i + 1;
    }
    assert headers[..i] == headers;
    return if encoding == Ascii("gzip") then Coded else if encoding == Ascii("identity") then Plain else BadCoding;
  }

  datatype Framing = Framing(length: Option<nat>, chunked: bool, gzip: bool) | BadFraming

  function FramingOf(headers: seq<Header>): Framing {
    var length := LengthOf(Values(headers, Ascii("content-length")));
    var transfer := TransferOf(Values(headers, Ascii("transfer-encoding")));
    var encoding := EncodingOf(Values(headers, Ascii("content-encoding")));
    if length == BadLength || transfer == BadCoding || encoding == BadCoding then BadFraming
    else if length.Length? && transfer == Coded then BadFraming
    else Framing(if length.Length? then Some(length.n) else None, transfer == Coded, encoding == Coded)
  }

  // ----- heads -----

  datatype Head = HeadDone(status: int, headers: seq<Header>, framing: Framing, rest: Text) | HeadFail(error: Error)

  function HeadOf(s: Text): (r: Head)
    ensures r.HeadDone? ==> |r.rest| < |s| && 100 <= r.status <= 599 && r.framing.Framing?
  {
    match LineOf(s, MAX_HEADER_VALUE)
    case LineFail(e) => HeadFail(e)
    case LineDone(line, rest) =>
      if ParseStatus(line) == -1 then HeadFail(ErrProtocol)
      else
        match FieldsOf(rest, [])
        case FieldsFail(e) => HeadFail(e)
        case FieldsDone(headers, after) =>
          if FramingOf(headers) == BadFraming then HeadFail(ErrProtocol)
          else HeadDone(ParseStatus(line), headers, FramingOf(headers), after)
  }

  predicate Informational(status: int) { 100 <= status < 200 }

  /** An informational head that may stand before the final one. */
  predicate Skippable(h: Head)
    requires h.HeadDone? && h.framing.Framing?
  {
    h.status != 101 && !h.framing.chunked && (h.framing.length == None || h.framing.length == Some(0))
  }

  /** The final head after the informational ones. */
  function FinalHead(s: Text, informational: nat): (r: Head)
    ensures r.HeadDone? ==> |r.rest| < |s| && 200 <= r.status <= 599 && r.framing.Framing?
    decreases |s|
  {
    var h := HeadOf(s);
    if h.HeadFail? || !Informational(h.status) then h
    else if !Skippable(h) || informational + 1 > MAX_INFORMATIONAL then HeadFail(ErrProtocol)
    else FinalHead(h.rest, informational + 1)
  }

  // ----- bodies -----

  datatype Body = BodyDone(wire: Text, rest: Text) | BodyFail(error: Error)

  function BodyOf(status: int, framing: Framing, s: Text): Body
    requires framing.Framing?
  {
    if framing.length.Some? then
      if framing.length.value > MAX_BODY_BYTES then BodyFail(ErrBodyTooLarge)
      else if |s| < framing.length.value then BodyFail(ErrIncompleteBody)
      else BodyDone(s[..framing.length.value], s[framing.length.value..])
    else if framing.chunked then
      match Dechunk(s, [])
      case ChunkedDone(wire, rest) => BodyDone(wire, rest)
      case ChunkedFail(_, e) => BodyFail(if e == ErrEnded then ErrIncompleteBody else e)
    else if status == 204 || status == 304 then BodyDone([], s)
    else BodyFail(ErrProtocol)
  }

  // ----- messages -----

  datatype Response = Response(status: int, headers: seq<Header>, body: Text,
                               compressedBytes: nat, decompressedBytes: nat, truncated: bool)

  datatype Message = MessageDone(response: Response, rest: Text) | MessageFail(error: Error)

  /** What decompression comes to: the text, or the error it ends in. */
  datatype Expansion = Expanded(text: Text) | ExpandFail(error: Error)

  type Decompressor = Text -> Expansion

  function Finish(h: Head, wire: Text, decoded: Expansion, rest: Text): Message
    requires h.HeadDone?
  {
    if decoded.ExpandFail? then MessageFail(decoded.error)
    else if h.status < 200 || h.status >= 300 then
      MessageDone(Response(h.status, h.headers, [], |wire|, |decoded.text|, |decoded.text| > MAX_ERROR_BODY), rest)
    else MessageDone(Response(h.status, h.headers, decoded.text, |wire|, |decoded.text|, false), rest)
  }

  /** One response from the front of `s`; `gunzip` stands for the bounded decompressor. */
  function MessageOf(s: Text, gunzip: Decompressor): Message {
    var h := FinalHead(s, 0);
    if h.HeadFail? then MessageFail(h.error)
    else
      match BodyOf(h.status, h.framing, h.rest)
      case BodyFail(e) => MessageFail(e)
      case BodyDone(wire, rest) => Finish(h, wire, if h.framing.gzip then gunzip(wire) else Expanded(wire), rest)
  }

  // ----- the reading methods -----

  method ReadFields(r: Reader) returns (result: Fields)
    modifies r
    ensures result == FieldsOf(old(r.rest), [])
    ensures result.FieldsDone? ==> r.rest == result.rest
  {
    hide LineOf, ParseHeader;
    var headers: seq<Header> := [];
    var headerBytes := 0;
    while true
      invariant FieldsOf(r.rest, headers) == FieldsOf(old(r.rest), [])
      invariant headerBytes == HeaderBytes(headers)
      decreases |r.rest|
    {
      var line := r.ReadLine(MAX_HEADER_BYTES + 2);
      if line.LineFail? { return FieldsFail(line.error); }
      if line.line == [] { return FieldsDone(headers, r.rest); }
      if |headers| == MAX_HEADER_FIELDS { return FieldsFail(ErrHeaderLimit); }
      var parsed := ParseHeader(line.line);
      if parsed.HeaderFail? { return FieldsFail(parsed.error); }
      headerBytes := headerBytes + FieldBytes(parsed.header);
      if headerBytes > MAX_HEADER_BYTES { return FieldsFail(ErrHeaderLimit); }
      assert (headers + [parsed.header])[..|headers|] == headers;
      headers := headers + [parsed.header];
    }
  }

  method ReadHead(r: Reader) returns (result: Head)
    modifies r
    ensures result == HeadOf(old(r.rest))
    ensures result.HeadDone? ==> r.rest == result.rest
  {
    hide LineOf, FieldsOf, LengthOf, TransferOf, EncodingOf, ParseStatus;
    var statusLine := r.ReadLine(MAX_HEADER_VALUE);
    if statusLine.LineFail? { return HeadFail(statusLine.error); }
    var status := ParseStatus(statusLine.line);
    if status == -1 { return HeadFail(ErrProtocol); }
    var fields := ReadFields(r);
    if fields.FieldsFail? { return HeadFail(fields.error); }
    var length := SingleContentLength(fields.headers);
    if length == BadLength { return HeadFail(ErrProtocol); }
    var transfer := TransferChunked(fields.headers);
    if transfer == BadCoding || (length.Length? && transfer == Coded) { return HeadFail(ErrProtocol); }
    var encoding := ContentEncoding(fields.headers);
    if encoding == BadCoding { return HeadFail(ErrProtocol); }
    var framing := Framing(if length.Length? then Some(length.n) else None, transfer == Coded, encoding == Coded);
    return HeadDone(status, fields.headers, framing, r.rest);
  }

  method ReadFinalHead(r: Reader) returns (result: Head)
    modifies r
    ensures result == FinalHead(old(r.rest), 0)
    ensures result.HeadDone? ==> r.rest == result.rest
  {
    hide HeadOf;
    var informational := 0;
    while true
      invariant FinalHead(r.rest, informational) == FinalHead(old(r.rest), 0)
      decreases |r.rest|
    {
      result := ReadHead(r);
      if result.HeadFail? || !Informational(result.status) { return; }
      informational := informational + 1;
      if informational > MAX_INFORMATIONAL || !Skippable(result) { return HeadFail(ErrProtocol); }
    }
  }

  method ReadBody(r: Reader, status: int, framing: Framing) returns (result: Body)
    requires framing.Framing?
    modifies r
    ensures result == BodyOf(status, framing, old(r.rest))
    ensures result.BodyDone? ==> r.rest == result.rest
  {
    hide Dechunk;
    if framing.length.Some? {
      if framing.length.value > MAX_BODY_BYTES { return BodyFail(ErrBodyTooLarge); }
      var wire, complete := r.Take(framing.length.value);
      return if complete then BodyDone(wire, r.rest) else BodyFail(ErrIncompleteBody);
    }
    if framing.chunked {
      var c := r.ReadChunked();
      if c.ChunkedFail? { return BodyFail(if c.error == ErrEnded then ErrIncompleteBody else c.error); }
      return BodyDone(c.body, r.rest);
    }
    if status == 204 || status == 304 { return BodyDone([], r.rest); }
    return BodyFail(ErrProtocol);
  }

  method ReadResponse(r: Reader, gunzip: Decompressor) returns (result: Message)
    modifies r
    ensures result == MessageOf(old(r.rest), gunzip)
    ensures result.MessageDone? ==> r.rest == result.rest
  {
    hide FinalHead, BodyOf;
    var h := ReadFinalHead(r);
    if h.HeadFail? { return MessageFail(h.error); }
    var body := ReadBody(r, h.status, h.framing);
    if body.BodyFail? { return MessageFail(body.error); }
    var decoded := if h.framing.gzip then gunzip(body.wire) else Expanded(body.wire);
    return Finish(h, body.wire, decoded, r.rest);
  }

  // ----- locality -----

  lemma {:induction false} FieldsLocal(s: Text, t: Text, headers: seq<Header>)
    ensures var r := FieldsOf(s, headers);
            r.FieldsDone? && SameFront(s, t, |s| - |r.rest|) ==>
              |s| - |r.rest| <= |t| && FieldsOf(t, headers) == FieldsDone(r.headers, t[|s| - |r.rest|..])
    decreases |s|
  {
    hide LineOf, ParseHeader, SameFront, HeaderBytes, FieldBytes;
    var r := FieldsOf(s, headers);
    if !r.FieldsDone? || !SameFront(s, t, |s| - |r.rest|) { return; }
    var n := |s| - |r.rest|;
    var l := LineOf(s, MAX_HEADER_BYTES + 2);
    var m := |s| - |l.rest|;
    LineSpelled(s, MAX_HEADER_BYTES + 2);
    assert s[m..] == l.rest;
    FrontRest(s, t, m, n);
    LineLocal(s, t, MAX_HEADER_BYTES + 2);
    FrontBytes(s, t, n);
    if l.line != [] {
      FieldsLocal(l.rest, t[m..], headers + [ParseHeader(l.line).header]);
    }
  }

  lemma HeadLocal(s: Text, t: Text)
    ensures var h := HeadOf(s);
            h.HeadDone? && SameFront(s, t, |s| - |h.rest|) ==>
              |s| - |h.rest| <= |t| && HeadOf(t) == h.(rest := t[|s| - |h.rest|..])
  {
    hide LineOf, FieldsOf, ParseStatus, FramingOf, SameFront;
    var h := HeadOf(s);
    if !h.HeadDone? || !SameFront(s, t, |s| - |h.rest|) { return; }
    var n := |s| - |h.rest|;
    var l := LineOf(s, MAX_HEADER_VALUE);
    var m := |s| - |l.rest|;
    LineSpelled(s, MAX_HEADER_VALUE);
    assert s[m..] == l.rest;
    FrontRest(s, t, m, n);
    FrontBytes(s, t, n);
    LineLocal(s, t, MAX_HEADER_VALUE);
    FieldsLocal(l.rest, t[m..], []);
  }

  lemma {:induction false} FieldsConsume(s: Text, headers: seq<Header>)
    ensures var r := FieldsOf(s, headers); r.FieldsDone? ==> s[|s| - |r.rest|..] == r.rest
    decreases |s|
  {
    hide LineOf, ParseHeader;
    if FieldsOf(s, headers).FieldsFail? { return; }
    var l := LineOf(s, MAX_HEADER_BYTES + 2);
    LineSpelled(s, MAX_HEADER_BYTES + 2);
    assert s[|s| - |l.rest|..] == l.rest;
    if l.line != [] {
      FieldsConsume(l.rest, headers + [ParseHeader(l.line).header]);
    }
  }

  lemma HeadConsumes(s: Text)
    ensures var h := HeadOf(s); h.HeadDone? ==> s[|s| - |h.rest|..] == h.rest
  {
    hide LineOf, FieldsOf, ParseStatus, FramingOf;
    if HeadOf(s).HeadFail? { return; }
    var l := LineOf(s, MAX_HEADER_VALUE);
    LineSpelled(s, MAX_HEADER_VALUE);
    assert s[|s| - |l.rest|..] == l.rest;
    FieldsConsume(l.rest, []);
  }

  lemma {:induction false} FinalHeadLocal(s: Text, t: Text, informational: nat)
    ensures var f := FinalHead(s, informational);
            f.HeadDone? && SameFront(s, t, |s| - |f.rest|) ==>
              && |s| - |f.rest| <= |t| && FinalHead(t, informational) == f.(rest := t[|s| - |f.rest|..])
              && s[|s| - |f.rest|..] == f.rest
    decreases |s|
  {
    hide HeadOf, SameFront;
    var f := FinalHead(s, informational);
    if !f.HeadDone? || !SameFront(s, t, |s| - |f.rest|) { return; }
    var n := |s| - |f.rest|;
    var h := HeadOf(s);
    var m := |s| - |h.rest|;
    FrontRest(s, t, m, n);
    FrontBytes(s, t, n);
    HeadLocal(s, t);
    HeadConsumes(s);
    if Informational(h.status) {
      FinalHeadLocal(h.rest, t[m..], informational + 1);
    }
  }

  lemma BodyLocal(status: int, framing: Framing, s: Text, t: Text)
    requires framing.Framing? && BodyOf(status, framing, s).BodyDone?
    requires |BodyOf(status, framing, s).rest| <= |s| && SameFront(s, t, |s| - |BodyOf(status, framing, s).rest|)
    ensures var b := BodyOf(status, framing, s);
            BodyOf(status, framing, t) == BodyDone(b.wire, t[|s| - |b.rest|..])
  {
    hide Dechunk;
    if framing.length.None? && framing.chunked {
      DechunkLocal(s, t, []);
    } else {
      assert t[0..] == t;
    }
  }

  lemma BodyConsumes(status: int, framing: Framing, s: Text)
    requires framing.Framing? && BodyOf(status, framing, s).BodyDone?
    ensures var b := BodyOf(status, framing, s); |b.rest| <= |s| && s[|s| - |b.rest|..] == b.rest
  {
    hide Dechunk;
    if framing.length.None? && framing.chunked {
      DechunkConsumes(s, []);
    } else {
      assert s[0..] == s;
    }
  }

  /** Bytes taken from the connection by a response that was read. */
  function Consumed(s: Text, gunzip: Decompressor): int {
    if MessageOf(s, gunzip).MessageDone? then |s| - |MessageOf(s, gunzip).rest| else 0
  }

  /** A response is decided by the bytes it consumes, whatever follows them. */
  lemma MessageLocal(s: Text, t: Text, gunzip: Decompressor)
    ensures MessageOf(s, gunzip).MessageDone? ==>
              0 < Consumed(s, gunzip) <= |s| && s[Consumed(s, gunzip)..] == MessageOf(s, gunzip).rest
    ensures MessageOf(s, gunzip).MessageDone? && SameFront(s, t, Consumed(s, gunzip)) ==>
              && Consumed(s, gunzip) <= |t|
              && MessageOf(t, gunzip) == MessageDone(MessageOf(s, gunzip).response, t[Consumed(s, gunzip)..])
  {
    hide FinalHead, BodyOf, SameFront;
    if MessageOf(s, gunzip).MessageFail? { return; }
    var h := FinalHead(s, 0);
    var b := BodyOf(h.status, h.framing, h.rest);
    var m := |s| - |h.rest|;
    BodyConsumes(h.status, h.framing, h.rest);
    SelfFront(s, m);
    FinalHeadLocal(s, s, 0);
    var n := Consumed(s, gunzip);
    assert s[n..] == h.rest[n - m..];
    if SameFront(s, t, n) {
      FrontRest(s, t, m, n);
      FrontBytes(s, t, n);
      FinalHeadLocal(s, t, 0);
      BodyLocal(h.status, h.framing, h.rest, t[m..]);
    }
  }

  lemma SelfFront(s: Text, n: nat)
    requires n <= |s|
    ensures SameFront(s, s, n)
  {
  }

  /**
   A successful read consumes exactly one message: the consumed bytes alone give
   the same response, any bytes after them are left untouched, and no shorter
   front of them is a message.
   */
  lemma ConsumesExactlyOneMessage(s: Text, gunzip: Decompressor, following: Text, k: nat)
    ensures MessageOf(s, gunzip).MessageDone? ==>
              && 0 < Consumed(s, gunzip) <= |s|
              && MessageOf(s[..Consumed(s, gunzip)] + following, gunzip)
                 == MessageDone(MessageOf(s, gunzip).response, following)
              && (k < Consumed(s, gunzip) ==> MessageOf(s[..k], gunzip).MessageFail?)
  {
    hide MessageOf;
    if MessageOf(s, gunzip).MessageFail? { return; }
    var n := Consumed(s, gunzip);
    MessageLocal(s, s, gunzip);
    var t := s[..n] + following;
    assert t[..n] == s[..n] && t[n..] == following;
    MessageLocal(s, t, gunzip);
    if k < n && MessageOf(s[..k], gunzip).MessageDone? {
      FrontConsumes(s, k, gunzip);
    }
  }

  /** A front that is a message is the message read from the whole. */
  lemma FrontConsumes(s: Text, k: nat, gunzip: Decompressor)
    requires k <= |s|
    ensures MessageOf(s[..k], gunzip).MessageDone? ==> MessageOf(s, gunzip).MessageDone? && Consumed(s, gunzip) <= k
  {
    hide MessageOf;
    if MessageOf(s[..k], gunzip).MessageFail? { return; }
    MessageLocal(s[..k], s[..k], gunzip);
    var c := Consumed(s[..k], gunzip);
    assert s[..k][..c] == s[..c];
    MessageLocal(s[..k], s, gunzip);
  }

  /** The body of a response that was read is framed as its head declares. */
  lemma BodyIsFramed(s: Text, gunzip: Decompressor)
    ensures var h, r := FinalHead(s, 0), MessageOf(s, gunzip);
            r.MessageDone? ==>
              && h.HeadDone?
              && r.response.compressedBytes <= MAX_BODY_BYTES
              && (h.framing.length.Some? ==> r.response.compressedBytes == h.framing.length.value)
              && (h.framing.length.None? && h.framing.chunked ==>
                    exists chunks, last ::
                      && ChunksOk(chunks) && Announces(last, 0)
                      && h.rest == RenderChunks(chunks, last) + r.rest
                      && r.response.compressedBytes == |Payload(chunks)|)
              && (h.framing.length.None? && !h.framing.chunked ==> h.rest == r.rest && r.response.compressedBytes == 0)
  {
    hide FinalHead, Dechunk;
    if MessageOf(s, gunzip).MessageFail? { return; }
    var h := FinalHead(s, 0);
    if h.framing.length.None? && h.framing.chunked {
      var chunks, last := ChunksSpelled(h.rest, []);
      assert [] + Payload(chunks) == Payload(chunks);
    }
  }
}
