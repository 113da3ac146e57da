/** Response heads as a grammar (RFC 9112 sections 4 and 5), and what their fields say about the body. */
module Http1Heads {
  import opened Bytes
  import opened Http1Framing
  import opened Http1Message
  import opened Wrappers
  import Utf8

  // ----- lines -----

  /** A line is what stands before the first line feed and the return before it, within the limit. */
  lemma LinesExactly(s: Text, limit: nat, line: Text, rest: Text)
    ensures LineOf(s, limit) == LineDone(line, rest) <==>
              s == line + [0x0d, 0x0a] + rest && 0x0a !in line && |line| <= limit
  {
    if LineOf(s, limit) == LineDone(line, rest) { LineSpelled(s, limit); }
    if s == line + [0x0d, 0x0a] + rest && 0x0a !in line && |line| <= limit { LineRendered(line, rest, limit); }
  }

  /** The hexadecimal number that a chunk line begins with, up to a semicolon. */
  predicate SizeLine(line: Text, digits: Text) {
    digits != [] && HexDigits(digits) && (line == digits || digits + [0x3b] <= line)
  }

  lemma SizeRead(line: Text, digits: Text)
    requires SizeLine(line, digits)
    ensures line[..IndexOf(line, SEMICOLON)] == digits
  {
    assert forall i | 0 <= i < |digits| :: HexDigit(line[i]) >= 0;
    if line == digits {
      IndexAbsent(line, SEMICOLON);
    } else {
      IndexIs(line, SEMICOLON, |digits|);
    }
  }

  /** A line of at most 256 bytes announces a chunk of `n` bytes exactly when it begins with that number. */
  lemma SizesExactly(line: Text, n: nat)
    ensures Announces(line, n) <==>
              && |line| <= 256 && 0x0a !in line && n <= 0x7fff_ffff_ffff_ffff
              && exists k: nat | k <= |line| :: SizeLine(line, line[..k]) && HexValue(line[..k]) == n
  {
    var k := IndexOf(line, SEMICOLON);
    if ChunkSize(line) == n {
      assert SizeLine(line, line[..k]) by {
        if k < |line| { assert line[..k] + [0x3b] == line[..k + 1]; } else { assert line[..k] == line; }
      }
    }
    forall j: nat | j <= |line| && SizeLine(line, line[..j]) ensures line[..k] == line[..j] {
      SizeRead(line, line[..j]);
    }
  }

  // ----- status lines -----

  /** "HTTP/1.1 " */
  const VERSION: Text := [0x48, 0x54, 0x54, 0x50, 0x2f, 0x31, 0x2e, 0x31, 0x20]

  function StatusLine(a: nat, b: nat, c: nat, reason: Text): Text
    requires a < 10 && b < 10 && c < 10
  {
    VERSION + [0x30 + a, 0x30 + b, 0x30 + c] + reason
  }

  predicate ReasonOk(reason: Text) {
    reason == [] || reason[0] == 0x20
  }

  lemma VersionIs()
    ensures VERSION == Ascii("HTTP/1.1 ")
  {
  }

  /** Three digits from 100 to 599 after the version, and a space before any reason, are a status line. */
  lemma StatusRead(a: nat, b: nat, c: nat, reason: Text)
    requires a < 10 && b < 10 && c < 10 && ReasonOk(reason)
    ensures ParseStatus(StatusLine(a, b, c, reason)) == if 1 <= a <= 5 then 100 * a + 10 * b + c else -1
  {
    VersionIs();
    assert StatusLine(a, b, c, reason)[..9] == VERSION;
  }

  /** Nothing else is. */
  lemma StatusSpelled(line: Text) returns (a: nat, b: nat, c: nat, reason: Text)
    requires ParseStatus(line) != -1
    ensures 1 <= a <= 5 && b < 10 && c < 10 && ReasonOk(reason) && line == StatusLine(a, b, c, reason)
    ensures ParseStatus(line) == 100 * a + 10 * b + c
  {
    VersionIs();
    a, b, c, reason := line[9] - 0x30, line[10] - 0x30, line[11] - 0x30, line[12..];
    assert line == line[..9] + line[9..12] + line[12..];
    assert line[9..12] == [line[9], line[10], line[11]];
  }

  // ----- header fields -----

  predicate Blanks(s: Text) {
    forall i | 0 <= i < |s| :: s[i] == 0x20 || s[i] == 0x09
  }

  predicate NameChar(b: Byte) {
    || 0x30 <= b <= 0x39 || 0x41 <= b <= 0x5a || 0x61 <= b <= 0x7a
    || b in {0x21, 0x23, 0x24, 0x25, 0x26, 0x27, 0x2a, 0x2b, 0x2d, 0x2e, 0x5e, 0x5f, 0x60, 0x7c, 0x7e}
  }

  predicate NameOk(name: Text) {
    1 <= |name| <= 256 && forall i | 0 <= i < |name| :: NameChar(name[i])
  }

  /** No control bytes but tabs. */
  predicate Printable(value: Text) {
    forall i | 0 <= i < |value| :: value[i] != 0x7f && (value[i] >= 0x20 || value[i] == 0x09)
  }

  /** Printable text of at most 8 KiB without a blank at either end. */
  predicate ValueOk(value: Text) {
    && |value| <= 8192 && Utf8.Valid(value) && Printable(value)
    && (value != [] ==> !IsBlank(value[0]) && !IsBlank(value[|value| - 1]))
  }

  function FieldLine(name: Text, left: Text, value: Text, right: Text): Text {
    name + [0x3a] + (left + (value + right))
  }

  lemma TokenExactly(b: Byte)
    ensures TokenByte(b) <==> NameChar(b)
  {
    var marks := Ascii("!#$%&'*+-.^_`|~");
    assert |marks| == 15;
    assert marks[0] == 0x21 && marks[1] == 0x23 && marks[2] == 0x24 && marks[3] == 0x25 && marks[4] == 0x26;
    assert marks[5] == 0x27 && marks[6] == 0x2a && marks[7] == 0x2b && marks[8] == 0x2d && marks[9] == 0x2e;
    assert marks[10] == 0x5e && marks[11] == 0x5f && marks[12] == 0x60 && marks[13] == 0x7c && marks[14] == 0x7e;
  }

  lemma NameExactly(name: Text)
    ensures NameOk(name) <==> 1 <= |name| <= 256 && !exists i | 0 <= i < |name| :: !TokenByte(name[i])
  {
    hide TokenByte;
    forall i | 0 <= i < |name| ensures TokenByte(name[i]) <==> NameChar(name[i]) {
      TokenExactly(name[i]);
    }
    hide NameChar;
  }

  lemma {:induction false} TrimLeftIs(left: Text, s: Text)
    requires Blanks(left) && (s != [] ==> !IsBlank(s[0]))
    ensures TrimLeft(left + s) == s
    decreases |left|
  {
    if left == [] {
      assert left + s == s;
    } else {
      assert (left + s)[1..] == left[1..] + s;
      TrimLeftIs(left[1..], s);
    }
  }

  lemma {:induction false} TrimRightIs(s: Text, right: Text)
    requires Blanks(right) && (s != [] ==> !IsBlank(s[|s| - 1]))
    ensures TrimRight(s + right) == s
    decreases |right|
  {
    if right == [] {
      assert s + right == s;
    } else {
      assert (s + right)[..|s + right| - 1] == s + right[..|right| - 1];
      TrimRightIs(s, right[..|right| - 1]);
    }
  }

  lemma WiderLeft(s: Text, left: Text, rest: Text)
    requires s != [] && IsBlank(s[0]) && Blanks(left) && s[1..] == left + rest
    ensures Blanks([s[0]] + left) && s == [s[0]] + left + rest
  {
    assert s == [s[0]] + (left + rest);
  }

  lemma WiderRight(s: Text, rest: Text, right: Text)
    requires s != [] && IsBlank(s[|s| - 1]) && Blanks(right) && s[..|s| - 1] == rest + right
    ensures Blanks(right + [s[|s| - 1]]) && s == rest + (right + [s[|s| - 1]])
  {
    assert s == rest + right + [s[|s| - 1]];
  }

  lemma NoBlanks(s: Text)
    ensures Blanks([]) && s == [] + s && s == s + []
  {
  }

  lemma {:induction false} TrimLeftSpelled(s: Text) returns (left: Text)
    ensures Blanks(left) && s == left + TrimLeft(s) && (TrimLeft(s) != [] ==> !IsBlank(TrimLeft(s)[0]))
    decreases |s|
  {
    hide Blanks, IsBlank;
    if s != [] && IsBlank(s[0]) {
      left := TrimLeftSpelled(s[1..]);
      WiderLeft(s, left, TrimLeft(s));
      left := [s[0]] + left;
    } else {
      left := [];
      NoBlanks(s);
    }
  }

  lemma {:induction false} TrimRightSpelled(s: Text) returns (right: Text)
    ensures Blanks(right) && s == TrimRight(s) + right
    ensures TrimRight(s) != [] ==> !IsBlank(TrimRight(s)[|TrimRight(s)| - 1])
    decreases |s|
  {
    hide Blanks, IsBlank;
    if s != [] && IsBlank(s[|s| - 1]) {
      right := TrimRightSpelled(s[..|s| - 1]);
      WiderRight(s, TrimRight(s), right);
      right := right + [s[|s| - 1]];
    } else {
      right := [];
      NoBlanks(s);
    }
  }

  lemma PrintableExactly(value: Text)
    ensures Printable(value) <==> !exists i | 0 <= i < |value| :: !ValueByte(value[i])
  {
  }

  /** A line splits at its first colon; the value is what is left of the rest between blanks. */
  lemma NameRead(name: Text, after: Text)
    requires NameOk(name)
    ensures var value := TrimRight(TrimLeft(after));
            && (ParseHeader(name + [0x3a] + after) == HeaderDone(Header(name, value)) <==>
                  |value| <= 8192 && Utf8.Valid(value) && Printable(value))
  {
    var line := name + [0x3a] + after;
    var value := TrimRight(TrimLeft(after));
    NameNoColon(name);
    NameExactly(name);
    PrintableExactly(value);
    hide TokenByte, ValueByte, NameOk, TrimLeft, TrimRight, Utf8.Valid, Printable;
    IndexIs(line, COLON, |name|);
    assert line[..|name|] == name && line[|name| + 1..] == after && line[0] == name[0];
  }

  lemma NameSpelled(line: Text) returns (name: Text, after: Text)
    requires ParseHeader(line).HeaderDone?
    ensures NameOk(name) && line == name + [0x3a] + after
    ensures ParseHeader(line).header == Header(name, TrimRight(TrimLeft(after)))
  {
    hide TokenByte, ValueByte, TrimLeft, TrimRight, Utf8.Valid, NameChar;
    var colon := IndexOf(line, COLON);
    name, after := line[..colon], line[colon + 1..];
    NameExactly(name);
    assert line == line[..colon] + [line[colon]] + line[colon + 1..];
  }

  lemma TrimNothing()
    ensures TrimRight([]) == []
  {
  }

  /** A name, a colon and a value between blanks are a header line. */
  lemma HeaderRead(name: Text, left: Text, value: Text, right: Text)
    requires NameOk(name) && Blanks(left) && ValueOk(value) && Blanks(right) && (value == [] ==> left == [])
    ensures ParseHeader(FieldLine(name, left, value, right)) == HeaderDone(Header(name, value))
  {
    hide NameOk, ParseHeader, Utf8.Valid, Printable, TrimLeft, TrimRight;
    var after := left + (value + right);
    NameRead(name, after);
    if value == [] {
      assert after == right + [];
      TrimLeftIs(right, []);
      TrimNothing();
    } else {
      assert (value + right)[0] == value[0];
      TrimLeftIs(left, value + right);
      TrimRightIs(value, right);
    }
  }

  lemma NameNoColon(name: Text)
    requires NameOk(name)
    ensures (forall i | 0 <= i < |name| :: name[i] != 0x3a) && !IsBlank(name[0])
  {
    assert forall i | 0 <= i < |name| :: NameChar(name[i]);
    assert NameChar(name[0]);
  }

  /** Nothing else is. */
  lemma HeaderSpelled(line: Text) returns (name: Text, left: Text, value: Text, right: Text)
    requires ParseHeader(line).HeaderDone?
    ensures NameOk(name) && Blanks(left) && ValueOk(value) && Blanks(right)
    ensures line == FieldLine(name, left, value, right) && ParseHeader(line).header == Header(name, value)
  {
    hide NameOk, ParseHeader, Utf8.Valid, Printable, TrimLeft, TrimRight, Blanks;
    var after;
    name, after := NameSpelled(line);
    left, value, right := ValueSpelled(after);
    NameRead(name, after);
  }

  lemma ValueSpelled(s: Text) returns (left: Text, value: Text, right: Text)
    ensures Blanks(left) && Blanks(right) && s == left + (value + right) && value == TrimRight(TrimLeft(s))
    ensures value != [] ==> !IsBlank(value[0]) && !IsBlank(value[|value| - 1])
  {
    left := TrimLeftSpelled(s);
    right := TrimRightSpelled(TrimLeft(s));
    value := TrimRight(TrimLeft(s));
    hide TrimLeft, TrimRight, Blanks;
    if value != [] { assert value[0] == TrimLeft(s)[0]; }
  }

  // ----- names and codings compared without case -----

  predicate SameLetter(a: Byte, b: Byte) {
    || a == b
    || (0x41 <= a <= 0x5a && b == a + 0x20)
    || (0x41 <= b <= 0x5a && a == b + 0x20)
  }

  /** The texts differ in the case of ASCII letters only. */
  predicate SameText(a: Text, b: Text) {
    |a| == |b| && forall i | 0 <= i < |a| :: SameLetter(a[i], b[i])
  }

  predicate IsAscii(s: Text) {
    forall i | 0 <= i < |s| :: s[i] < 0x80
  }

  lemma {:induction false} FoldAscii(s: Text)
    requires IsAscii(s)
    ensures |Fold(s)| == |s| && forall i | 0 <= i < |s| :: Fold(s)[i] == Lower(s[i])
    decreases |s|
  {
    if s != [] {
      assert !At(s, 0, [0xe2, 0x84, 0xaa]) && !At(s, 0, [0xc5, 0xbf]) by { FirstAscii(s); }
      FoldAscii(s[1..]);
    }
  }

  lemma FirstAscii(s: Text)
    requires s != [] && s[0] < 0x80
    ensures !At(s, 0, [0xe2, 0x84, 0xaa]) && !At(s, 0, [0xc5, 0xbf]) && !At(s, 0, [0xc4, 0xb0])
  {
    if |s| >= 3 { assert s[0..3][0] == s[0]; }
    if |s| >= 2 { assert s[0..2][0] == s[0]; }
  }

  lemma {:induction false} LowerAscii(s: Text)
    requires IsAscii(s)
    ensures |LowerCase(s)| == |s| && forall i | 0 <= i < |s| :: LowerCase(s)[i] == Lower(s[i])
    decreases |s|
  {
    if s != [] {
      FirstAscii(s);
      LowerAscii(s[1..]);
    }
  }

  /** Between ASCII texts, folding sees the case of letters and nothing else. */
  lemma FoldExactly(a: Text, b: Text)
    requires IsAscii(a) && IsAscii(b)
    ensures EqualFold(a, b) <==> SameText(a, b)
  {
    FoldAscii(a);
    FoldAscii(b);
    hide Fold;
    if EqualFold(a, b) {
      forall i | 0 <= i < |a| ensures SameLetter(a[i], b[i]) {
        assert Fold(a)[i] == Fold(b)[i];
      }
    }
    if SameText(a, b) {
      forall i | 0 <= i < |a| ensures Fold(a)[i] == Fold(b)[i] {
        assert SameLetter(a[i], b[i]);
      }
    }
  }

  /** The Kelvin sign folds to k and the long s to s; lower-casing takes the dotted I to i. */
  lemma FoldBeyondAscii()
    ensures EqualFold([0xe2, 0x84, 0xaa], [0x6b]) && EqualFold([0xc5, 0xbf], [0x53])
    ensures LowerCase([0xc4, 0xb0]) == [0x69] && LowerCase([0xe2, 0x84, 0xaa]) == [0x6b]
  {
    var kelvin, long, dotted := [0xe2, 0x84, 0xaa], [0xc5, 0xbf], [0xc4, 0xb0];
    assert kelvin[3..] == [] && long[2..] == [] && dotted[2..] == [];
    assert kelvin[0..3] == kelvin && long[0..2] == long && dotted[0..2] == dotted;
    assert [0x6b][1..] == [] && [0x53][1..] == [];
    FirstAscii([0x6b]);
    FirstAscii([0x53]);
    if |long| >= 3 { assert false; }
  }

  // ----- what the fields say about the body -----

  /** The fields of a name, by position. */
  function Fields(headers: seq<Header>, name: Text): set<nat> {
    set i: nat | i < |headers| && EqualFold(headers[i].name, name)
  }

  /** There are as many values as fields of the name, and the only field has the only value. */
  lemma {:induction false} ValuesCounted(headers: seq<Header>, name: Text)
    ensures |Values(headers, name)| == |Fields(headers, name)|
    ensures forall i: nat | Fields(headers, name) == {i} :: Values(headers, name) == [headers[i].value]
    decreases |headers|
  {
    hide EqualFold;
    if headers == [] {
      assert Fields(headers, name) == {};
    } else {
      var n := |headers| - 1;
      var front := headers[..n];
      ValuesCounted(front, name);
      var last := EqualFold(headers[n].name, name);
      assert Fields(headers, name) == Fields(front, name) + if last then {n} else {};
      forall i: nat | Fields(headers, name) == {i} ensures Values(headers, name) == [headers[i].value] {
        OnlyField(headers, name, i);
      }
    }
  }

  lemma OnlyField(headers: seq<Header>, name: Text, i: nat)
    requires headers != [] && Fields(headers, name) == {i}
    requires var front := headers[..|headers| - 1];
             && |Values(front, name)| == |Fields(front, name)|
             && forall k: nat | Fields(front, name) == {k} :: Values(front, name) == [front[k].value]
    ensures i < |headers| && Values(headers, name) == [headers[i].value]
  {
    hide EqualFold;
    var n := |headers| - 1;
    var front := headers[..n];
    assert i in Fields(headers, name);
    if i == n {
      forall k: nat ensures k !in Fields(front, name) {
        assert k in Fields(front, name) ==> k in Fields(headers, name);
      }
      assert Fields(front, name) == {};
    } else {
      assert n !in Fields(headers, name);
      assert Fields(front, name) == Fields(headers, name);
    }
  }

  /** The decimal value of a length that is one, or none. */
  function DeclaredLength(value: Text): Option<nat> {
    if value == [] || (exists i | 0 <= i < |value| :: !(0x30 <= value[i] <= 0x39)) then None
    else if DecimalValue(value) > 0x7fff_ffff_ffff_ffff then None
    else Some(DecimalValue(value))
  }

  const CONTENT_LENGTH: Text := Ascii("content-length")
  const TRANSFER_ENCODING: Text := Ascii("transfer-encoding")
  const CONTENT_ENCODING: Text := Ascii("content-encoding")

  /** What the length fields come to: absent, one good decimal with everything above 1 MiB alike, or bad. */
  predicate LengthSays(headers: seq<Header>, length: Option<nat>) {
    var fields := Fields(headers, CONTENT_LENGTH);
    if |fields| == 0 then length == None
    else exists i | i in fields :: && fields == {i} && DeclaredLength(headers[i].value).Some?
                          && var n := DeclaredLength(headers[i].value).value;
                             length == Some(if n > 1_048_576 then 1_048_577 else n)
  }

  predicate TransferSays(headers: seq<Header>, chunked: bool) {
    var fields := Fields(headers, TRANSFER_ENCODING);
    if |fields| == 0 then !chunked
    else chunked && exists i | i in fields :: fields == {i} && EqualFold(headers[i].value, Ascii("chunked"))
  }

  predicate EncodingSays(headers: seq<Header>, gzip: bool) {
    var fields := Fields(headers, CONTENT_ENCODING);
    if |fields| == 0 then !gzip
    else exists i | i in fields :: && fields == {i}
                          && LowerCase(headers[i].value) == Ascii(if gzip then "gzip" else "identity")
  }

  lemma SingleField(fields: set<nat>)
    requires |fields| == 1
    ensures exists i | i in fields :: fields == {i}
  {
    var i :| i in fields;
    assert |fields - {i}| == 0;
    assert fields == {i};
  }

  lemma LengthExactly(headers: seq<Header>)
    ensures var r := LengthOf(Values(headers, CONTENT_LENGTH));
            && (r.NoLength? ==> LengthSays(headers, None)) && (r.Length? ==> LengthSays(headers, Some(r.n)))
            && (r.BadLength? ==> forall length :: !LengthSays(headers, length))
  {
    hide EqualFold, Fields;
    ValuesCounted(headers, CONTENT_LENGTH);
    if |Fields(headers, CONTENT_LENGTH)| == 1 { SingleField(Fields(headers, CONTENT_LENGTH)); }
  }

  lemma TransferExactly(headers: seq<Header>)
    ensures var r := TransferOf(Values(headers, TRANSFER_ENCODING));
            && (r == Plain ==> TransferSays(headers, false)) && (r == Coded ==> TransferSays(headers, true))
            && (r == BadCoding ==> forall chunked :: !TransferSays(headers, chunked))
  {
    hide EqualFold, Fields;
    ValuesCounted(headers, TRANSFER_ENCODING);
    if |Fields(headers, TRANSFER_ENCODING)| == 1 { SingleField(Fields(headers, TRANSFER_ENCODING)); }
  }

  lemma EncodingExactly(headers: seq<Header>)
    ensures var r := EncodingOf(Values(headers, CONTENT_ENCODING));
            && (r == Plain ==> EncodingSays(headers, false)) && (r == Coded ==> EncodingSays(headers, true))
            && (r == BadCoding ==> forall gzip :: !EncodingSays(headers, gzip))
  {
    hide EqualFold, Fields, LowerCase;
    ValuesCounted(headers, CONTENT_ENCODING);
    if |Fields(headers, CONTENT_ENCODING)| == 1 { SingleField(Fields(headers, CONTENT_ENCODING)); }
  }

  /** The framing is what the three kinds of fields say, and bad exactly when one of them is or two collide. */
  lemma FramingExactly(headers: seq<Header>, length: Option<nat>, chunked: bool, gzip: bool)
    ensures FramingOf(headers) == Framing(length, chunked, gzip)
       <==> && LengthSays(headers, length) && TransferSays(headers, chunked) && EncodingSays(headers, gzip)
            && !(length.Some? && chunked)
  {
    LengthExactly(headers);
    TransferExactly(headers);
    EncodingExactly(headers);
    SaysOneThing(headers, length, chunked, gzip);
    hide LengthSays, TransferSays, EncodingSays, Values, LengthOf, TransferOf, EncodingOf;
  }

  /** No list of fields says two things. */
  lemma SaysOneThing(headers: seq<Header>, length: Option<nat>, chunked: bool, gzip: bool)
    ensures LengthSays(headers, length) ==> forall other | LengthSays(headers, other) :: other == length
    ensures TransferSays(headers, chunked) ==> !TransferSays(headers, !chunked)
    ensures EncodingSays(headers, gzip) ==> !EncodingSays(headers, !gzip)
  {
    hide EqualFold, LowerCase;
    assert |Ascii("gzip")| != |Ascii("identity")|;
    forall other | LengthSays(headers, length) && LengthSays(headers, other) ensures other == length {
      OneIndex(Fields(headers, CONTENT_LENGTH));
    }
    OneIndex(Fields(headers, CONTENT_ENCODING));
    hide Fields;
  }

  lemma OneIndex(fields: set<nat>)
    ensures forall i: nat, j: nat | fields == {i} && fields == {j} :: i == j
  {
    forall i: nat, j: nat | fields == {i} && fields == {j} ensures i == j {
      assert i in fields;
    }
  }

  // ----- lists of fields -----

  /** A header line: the name, and the value between blanks. */
  datatype Spelling = Spelling(name: Text, left: Text, value: Text, right: Text)

  function LineFor(f: Spelling): Text {
    FieldLine(f.name, f.left, f.value, f.right)
  }

  function HeaderFor(f: Spelling): Header {
    Header(f.name, f.value)
  }

  predicate SpellingOk(f: Spelling) {
    && NameOk(f.name) && Blanks(f.left) && ValueOk(f.value) && Blanks(f.right)
    && |LineFor(f)| <= 65_538
  }

  function RenderFields(fs: seq<Spelling>): Text {
    if fs == [] then [CR, LF] else LineFor(fs[0]) + [CR, LF] + RenderFields(fs[1..])
  }

  function HeadersFor(fs: seq<Spelling>): (hs: seq<Header>)
    ensures |hs| == |fs|
  {
    if fs == [] then [] else [HeaderFor(fs[0])] + HeadersFor(fs[1..])
  }

  lemma {:induction false} HeaderBytesJoin(a: seq<Header>, b: seq<Header>)
    ensures HeaderBytes(a + b) == HeaderBytes(a) + HeaderBytes(b)
    decreases |b|
  {
    if b == [] {
      assert a + b == a;
    } else {
      var c := b[..|b| - 1];
      assert (a + b)[..|a + b| - 1] == a + c;
      HeaderBytesJoin(a, c);
    }
  }

  lemma NoLineFeed(f: Spelling)
    requires SpellingOk(f)
    ensures LF !in LineFor(f) && LineFor(f) != []
  {
    hide Utf8.Valid;
    forall b | b in LineFor(f) ensures b != LF {
      if b in f.name {
        var i :| 0 <= i < |f.name| && f.name[i] == b;
        assert NameChar(f.name[i]);
      }
    }
  }

  /** An empty value takes the blanks beside it all on one side. */
  function Settled(f: Spelling): Spelling {
    if f.value == [] then Spelling(f.name, [], [], f.left + f.right) else f
  }

  lemma LineParsed(f: Spelling)
    requires SpellingOk(f)
    ensures ParseHeader(LineFor(f)) == HeaderDone(HeaderFor(f))
  {
    hide ParseHeader, NameOk, ValueOk;
    var g := Settled(f);
    assert LineFor(g) == LineFor(f);
    assert Blanks(g.right);
    HeaderRead(g.name, g.left, g.value, g.right);
  }

  /** One line more, or one too many. */
  lemma FieldTaken(f: Spelling, tail: Text, headers: seq<Header>)
    requires SpellingOk(f) && |headers| <= 100
    ensures FieldsOf(LineFor(f) + [CR, LF] + tail, headers) ==
            if |headers| == 100 || HeaderBytes(headers + [HeaderFor(f)]) > 65_536 then FieldsFail(ErrHeaderLimit)
            else FieldsOf(tail, headers + [HeaderFor(f)])
  {
    NoLineFeed(f);
    LineParsed(f);
    WithinLine(f);
    hide LineOf, ParseHeader, SpellingOk, LineFor, HeaderFor;
    LineRendered(LineFor(f), tail, MAX_HEADER_BYTES + 2);
    assert (headers + [HeaderFor(f)])[..|headers|] == headers;
  }

  /** The empty line ends the fields. */
  lemma FieldsEnd(following: Text, headers: seq<Header>)
    ensures FieldsOf([CR, LF] + following, headers) == FieldsDone(headers, following)
  {
    hide LineOf;
    assert [CR, LF] + following == [] + [CR, LF] + following;
    LineRendered([], following, MAX_HEADER_BYTES + 2);
  }

  lemma FirstLine(fs: seq<Spelling>, headers: seq<Header>, following: Text)
    requires fs != []
    ensures RenderFields(fs) + following == LineFor(fs[0]) + [CR, LF] + (RenderFields(fs[1..]) + following)
    ensures headers + HeadersFor(fs) == headers + [HeaderFor(fs[0])] + HeadersFor(fs[1..])
  {
    hide LineFor, HeaderFor;
  }

  /** Header lines up to the empty one are read, each as its name and value, within 100 fields and 64 KiB. */
  lemma {:induction false} FieldsRead(fs: seq<Spelling>, headers: seq<Header>, following: Text)
    requires forall f | f in fs :: SpellingOk(f)
    requires |headers| <= 100 && HeaderBytes(headers) <= 65_536
    ensures FieldsOf(RenderFields(fs) + following, headers) ==
            if |headers| + |fs| <= 100 && HeaderBytes(headers + HeadersFor(fs)) <= 65_536
            then FieldsDone(headers + HeadersFor(fs), following) else FieldsFail(ErrHeaderLimit)
    decreases |fs|
  {
    hide FieldsOf, SpellingOk, HeaderBytes, LineFor, HeaderFor;
    if fs == [] {
      FieldsEnd(following, headers);
      assert headers + HeadersFor(fs) == headers;
    } else {
      hide RenderFields, HeadersFor;
      var f, rest := fs[0], fs[1..];
      assert f in fs;
      FirstLine(fs, headers, following);
      FieldTaken(f, RenderFields(rest) + following, headers);
      var grown := headers + [HeaderFor(f)];
      HeaderBytesJoin(grown, HeadersFor(rest));
      if |headers| < 100 && HeaderBytes(grown) <= 65_536 { FieldsRead(rest, grown, following); }
    }
  }

  lemma WithinLine(f: Spelling)
    requires SpellingOk(f)
    ensures |LineFor(f)| <= MAX_HEADER_BYTES + 2
  {
  }

  /** Whatever is read as fields is such a list of lines. */
  lemma {:induction false} FieldsSpelled(s: Text, headers: seq<Header>) returns (fs: seq<Spelling>)
    requires FieldsOf(s, headers).FieldsDone?
    ensures forall f | f in fs :: SpellingOk(f)
    ensures var r := FieldsOf(s, headers); s == RenderFields(fs) + r.rest && r.headers == headers + HeadersFor(fs)
    decreases |s|
  {
    hide LineOf, ParseHeader, SpellingOk;
    var l := LineOf(s, MAX_HEADER_BYTES + 2);
    LineSpelled(s, MAX_HEADER_BYTES + 2);
    if l.line == [] {
      fs := [];
      assert headers + HeadersFor(fs) == headers;
      assert s == [CR, LF] + l.rest;
    } else {
      var f := OneSpelled(l.line);
      var h := ParseHeader(l.line).header;
      var more := FieldsSpelled(l.rest, headers + [h]);
      fs := [f] + more;
      assert fs[1..] == more;
      assert headers + HeadersFor(fs) == headers + [h] + HeadersFor(more);
      assert RenderFields(fs) + FieldsOf(s, headers).rest == LineFor(f) + [CR, LF] + l.rest;
    }
  }

  lemma OneSpelled(line: Text) returns (f: Spelling)
    requires ParseHeader(line).HeaderDone? && |line| <= MAX_HEADER_BYTES + 2
    ensures SpellingOk(f) && LineFor(f) == line && HeaderFor(f) == ParseHeader(line).header
  {
    hide ParseHeader, NameOk, ValueOk, Blanks;
    var name, left, value, right := HeaderSpelled(line);
    f := Spelling(name, left, value, right);
  }

  // ----- informational heads -----

  /** A head that is skipped: informational, not 101, and without content. */
  predicate Interim(h: Head) {
    && h.HeadDone? && h.framing.Framing? && 100 <= h.status <= 199 && h.status != 101
    && !h.framing.chunked && (h.framing.length == None || h.framing.length == Some(0))
  }

  /** What is left after `k` informational heads. */
  function Beyond(s: Text, k: nat): Option<Text>
    decreases k
  {
    if k == 0 then Some(s) else
    var h := HeadOf(s);
    if Interim(h) then Beyond(h.rest, k - 1) else None
  }

  /** The head after `k` informational ones is a final one. */
  predicate FinalAfter(s: Text, k: nat) {
    Beyond(s, k).Some? && HeadOf(Beyond(s, k).value).HeadDone? && HeadOf(Beyond(s, k).value).status >= 200
  }

  /** A final head is found if and only if it stands behind at most eight informational ones. */
  lemma {:induction false} FinalHeadExactly(s: Text, seen: nat)
    requires seen <= 8
    ensures FinalHead(s, seen).HeadDone? <==> exists k: nat | k <= 8 - seen :: FinalAfter(s, k)
    ensures forall k: nat | k <= 8 - seen && FinalAfter(s, k) :: FinalHead(s, seen) == HeadOf(Beyond(s, k).value)
    decreases |s|
  {
    hide HeadOf;
    var h := HeadOf(s);
    if !Interim(h) {
      assert forall k: nat | k > 0 :: Beyond(s, k) == None;
      assert FinalAfter(s, 0) <==> h.HeadDone? && h.status >= 200;
    } else {
      if seen < 8 { FinalHeadExactly(h.rest, seen + 1); }
      forall k: nat | k > 0 ensures FinalAfter(s, k) <==> FinalAfter(h.rest, k - 1) {}
      assert !FinalAfter(s, 0);
      if seen < 8 && FinalHead(s, seen).HeadDone? {
        var k: nat :| k <= 7 - seen && FinalAfter(h.rest, k);
        assert FinalAfter(s, k + 1);
      }
    }
  }

  // ----- bodies and responses -----

  /** The body that the framing calls for, or how reading it fails. */
  lemma BodyExactly(status: int, framing: Framing, s: Text)
    requires framing.Framing?
    ensures var r := BodyOf(status, framing, s);
            var n := if framing.length.Some? then framing.length.value else 0;
            && (framing.length.Some? && n > 1_048_576 ==> r == BodyFail(ErrBodyTooLarge))
            && (framing.length.Some? && n <= 1_048_576 && |s| < n ==> r == BodyFail(ErrIncompleteBody))
            && (framing.length.Some? && n <= 1_048_576 && |s| >= n ==> r == BodyDone(s[..n], s[n..]))
            && (framing.length.None? && framing.chunked ==>
                  && (Dechunk(s, []).ChunkedDone? ==> r == BodyDone(Dechunk(s, []).body, Dechunk(s, []).rest))
                  && (Dechunk(s, []).ChunkedFail? ==>
                        r == BodyFail(if Dechunk(s, []).error == ErrEnded then ErrIncompleteBody
                                      else Dechunk(s, []).error)))
            && (framing.length.None? && !framing.chunked ==>
                  r == if status in {204, 304} then BodyDone([], s) else BodyFail(ErrProtocol))
  {
    hide Dechunk;
  }

  /** A successful response has the decoded body; any other keeps its sizes only, and says whether it passed 64 KiB. */
  lemma ResponseExactly(s: Text, gunzip: Decompressor)
    ensures var r := MessageOf(s, gunzip);
            var h := FinalHead(s, 0);
            r.MessageDone? <==>
              && h.HeadDone? && BodyOf(h.status, h.framing, h.rest).BodyDone?
              && (h.framing.gzip ==> gunzip(BodyOf(h.status, h.framing, h.rest).wire).Expanded?)
    ensures var r := MessageOf(s, gunzip);
            var h := FinalHead(s, 0);
            r.MessageDone? ==>
              var wire := BodyOf(h.status, h.framing, h.rest).wire;
              var text := if h.framing.gzip then gunzip(wire).text else wire;
              && r.response.status == h.status && r.response.headers == h.headers
              && r.response.compressedBytes == |wire| && r.response.decompressedBytes == |text|
              && r.response.body == (if 200 <= h.status <= 299 then text else [])
              && (r.response.truncated <==> !(200 <= h.status <= 299) && |text| > 65_536)
  {
    hide FinalHead, BodyOf;
  }
}
