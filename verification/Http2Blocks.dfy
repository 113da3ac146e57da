/** Header blocks and bodies of HTTP/2 responses, by their spelling and in plain numbers. */
module Http2Blocks {
  import opened Bytes
  import opened Http1Message
  import opened Http2Message
  import opened Wrappers
  import H = Http1Heads
  import M = Http2Message
  import Utf8

  // ----- the status -----

  /** ":status" */
  const STATUS: Text := [0x3a, 0x73, 0x74, 0x61, 0x74, 0x75, 0x73]

  lemma StatusName()
    ensures STATUS == Ascii(":status")
  {
  }

  /** The status is 100 to 599 exactly when the one pseudo-header spells it in three digits. */
  lemma StatusExactly(pseudos: seq<Header>, a: nat, b: nat, c: nat)
    requires 1 <= a <= 5 && b < 10 && c < 10
    ensures StatusOf(pseudos) == 100 * a + 10 * b + c <==> pseudos == [Header(STATUS, [0x30 + a, 0x30 + b, 0x30 + c])]
  {
    StatusName();
    if |pseudos| == 1 && |pseudos[0].value| == 3 {
      var v := pseudos[0].value;
      assert v == [v[0], v[1], v[2]];
      assert pseudos == [Header(pseudos[0].name, v)];
    }
  }

  // ----- declared lengths -----

  /** A number in decimal digits, without leading zeros. */
  function Spelled(n: nat): Text {
    if n < 10 then [0x30 + n] else Spelled(n / 10) + [0x30 + n % 10]
  }

  lemma OneDigit(n: nat)
    requires n < 10
    ensures CanonicalDecimal([0x30 + n]) && DecimalOf([0x30 + n]) == n
  {
    assert Ascii("0") == [0x30];
    assert [0x30 + n][..0] == [];
    assert DecimalValue([]) == 0;
  }

  lemma {:induction false} SpelledIsCanonical(n: nat)
    ensures CanonicalDecimal(Spelled(n)) && DecimalOf(Spelled(n)) == n && (n > 0 ==> Spelled(n)[0] != 0x30)
  {
    if n >= 10 {
      SpelledIsCanonical(n / 10);
      var front := Spelled(n / 10);
      assert Spelled(n)[..|front|] == front;
    } else {
      OneDigit(n);
    }
  }

  /** A canonical decimal is the spelling of its value. */
  lemma {:induction false} CanonicalIsSpelled(v: Text)
    requires CanonicalDecimal(v)
    ensures v == Spelled(DecimalOf(v)) && (v[0] != 0x30 ==> DecimalOf(v) > 0)
    decreases |v|
  {
    assert Ascii("0") == [0x30];
    var front, last: nat := v[..|v| - 1], v[|v| - 1] - 0x30;
    assert v == front + [v[|v| - 1]];
    if front != [] {
      CanonicalIsSpelled(front);
      var n := DecimalOf(v);
      assert n == 10 * DecimalOf(front) + last && n >= 10;
      assert n / 10 == DecimalOf(front) && n % 10 == last;
    } else {
      assert v == [0x30 + last];
      OneDigit(last);
    }
  }

  /** The block declares this length, or none: at most one field, spelling at most 1 MiB. */
  predicate Length(lengths: seq<Text>, expected: Option<nat>) {
    match expected
    case None => lengths == []
    case Some(n) => n <= 1_048_576 && lengths == [Spelled(n)]
  }

  lemma LengthExactly(lengths: seq<Text>, expected: Option<nat>)
    ensures Declares(lengths, expected) <==> Length(lengths, expected)
  {
    hide CanonicalDecimal, DecimalOf, Spelled;
    if lengths != [] && CanonicalDecimal(lengths[0]) { CanonicalIsSpelled(lengths[0]); }
    if expected.Some? { SpelledIsCanonical(expected.value); }
  }

  // ----- blocks -----

  /** A field: a name of up to 256 bytes and up to 8 KiB of text without controls. */
  predicate Field(h: Header) {
    && 1 <= |h.name| <= 256 && |h.value| <= 8192 && Utf8.Valid(h.value)
    && forall i | 0 <= i < |h.value| :: h.value[i] != 0x7f && (h.value[i] >= 0x20 || h.value[i] == 0x09)
  }

  /** A header list as lines of text. */
  function Lines(headers: seq<Header>): Text {
    if headers == [] then []
    else
      var last := headers[|headers| - 1];
      Lines(headers[..|headers| - 1]) + last.name + [0x3a, 0x20] + last.value + [0x0d, 0x0a]
  }

  lemma {:induction false} LinesCounted(headers: seq<Header>)
    ensures HeaderBytes(headers) == |Lines(headers)|
    decreases |headers|
  {
    if headers != [] { LinesCounted(headers[..|headers| - 1]); }
  }

  /** "content-length" */
  const LENGTH: Text := Ascii("content-length")

  lemma FieldsAgree(headers: seq<Header>)
    ensures (forall h | h in headers :: FieldOk(h)) <==> (forall h | h in headers :: Field(h))
  {
    hide Utf8.Valid;
    assert forall h: Header :: FieldOk(h) <==> Field(h);
  }

  /** What a header block is accepted for, in plain numbers. */
  predicate Acceptable(frame: Meta, a: nat, b: nat, c: nat, expected: Option<nat>)
    requires 1 <= a <= 5 && b < 10 && c < 10
  {
    && !frame.truncated && frame.pseudos == [Header(STATUS, [0x30 + a, 0x30 + b, 0x30 + c])]
    && |frame.regular| <= 100 && |Lines(frame.regular)| <= 65_536 && (forall h | h in frame.regular :: Field(h))
    && Length(Named(frame.regular, LENGTH), expected)
  }

  /** A block decodes to a status, its fields and a length exactly when it spells them within the limits. */
  lemma BlocksExactly(frame: Meta, a: nat, b: nat, c: nat, expected: Option<nat>)
    requires 1 <= a <= 5 && b < 10 && c < 10
    ensures Decode(frame) == Decoded(100 * a + 10 * b + c, frame.regular, expected)
       <==> Acceptable(frame, a, b, c, expected)
  {
    hide StatusOf, M.Fields, Named, Declares, Length, FieldOk, Field, HeaderBytes, Lines;
    StatusExactly(frame.pseudos, a, b, c);
    FieldsAgree(frame.regular);
    LinesCounted(frame.regular);
    LengthExactly(Named(frame.regular, LENGTH), expected);
    FieldsExactly(frame.regular, expected);
  }

  /** Every accepted block is such a one. */
  lemma BlocksSpelled(frame: Meta) returns (a: nat, b: nat, c: nat)
    requires Decode(frame).Decoded?
    ensures 1 <= a <= 5 && b < 10 && c < 10 && Acceptable(frame, a, b, c, Decode(frame).expected)
    ensures Decode(frame).status == 100 * a + 10 * b + c && Decode(frame).headers == frame.regular
  {
    hide M.Fields, StatusOf, Acceptable;
    var status := Decode(frame).status;
    a, b, c := status / 100, status / 10 % 10, status % 10;
    BlocksExactly(frame, a, b, c, Decode(frame).expected);
  }

  // ----- codings -----

  predicate Spaces(s: Text) {
    forall i | 0 <= i < |s| :: s[i] in {0x20, 0x09, 0x0a, 0x0b, 0x0c, 0x0d}
  }

  /** A name between white space, in any case. */
  ghost predicate Names(v: Text, name: Text) {
    exists left, word, right :: v == left + word + right && Spaces(left) && Spaces(right) && H.SameText(word, name)
  }

  /** "gzip" and "identity" */
  const GZIP: Text := [0x67, 0x7a, 0x69, 0x70]
  const IDENTITY: Text := [0x69, 0x64, 0x65, 0x6e, 0x74, 0x69, 0x74, 0x79]

  lemma CodingNames()
    ensures GZIP == Ascii("gzip") && IDENTITY == Ascii("identity")
  {
  }

  lemma WiderLeft(v: Text, left: Text, word: Text, right: Text)
    requires v != [] && v[1..] == left + word + right && Spaces(left) && IsSpace(v[0])
    ensures v == [v[0]] + left + word + right && Spaces([v[0]] + left)
  {
    assert v == [v[0]] + (left + word + right);
  }

  lemma WiderRight(v: Text, left: Text, word: Text, right: Text)
    requires v != [] && v[..|v| - 1] == left + word + right && Spaces(right) && IsSpace(v[|v| - 1])
    ensures v == left + word + (right + [v[|v| - 1]]) && Spaces(right + [v[|v| - 1]])
  {
    assert v == left + word + right + [v[|v| - 1]];
  }

  lemma {:induction false} TrimSpelled(v: Text) returns (left: Text, right: Text)
    ensures v == left + Trim(v) + right && Spaces(left) && Spaces(right)
    ensures Trim(v) != [] ==> !IsSpace(Trim(v)[0]) && !IsSpace(Trim(v)[|Trim(v)| - 1])
    decreases |v|
  {
    left, right := [], [];
    if v == [] { return; }
    hide Spaces, IsSpace;
    if IsSpace(v[0]) {
      left, right := TrimSpelled(v[1..]);
      WiderLeft(v, left, Trim(v), right);
      left := [v[0]] + left;
    } else if IsSpace(v[|v| - 1]) {
      left, right := TrimSpelled(v[..|v| - 1]);
      WiderRight(v, left, Trim(v), right);
      right := right + [v[|v| - 1]];
    } else {
      NoSpaces();
    }
  }

  lemma NoSpaces()
    ensures Spaces([])
  {
  }

  lemma {:induction false} TrimRead(left: Text, word: Text, right: Text)
    requires Spaces(left) && Spaces(right) && (word != [] ==> !IsSpace(word[0]) && !IsSpace(word[|word| - 1]))
    ensures Trim(left + word + right) == word
    decreases |left| + |right|
  {
    var v := left + word + right;
    if left != [] {
      assert v[1..] == left[1..] + word + right;
      TrimRead(left[1..], word, right);
    } else if right != [] {
      var short := right[..|right| - 1];
      assert v[..|v| - 1] == left + word + short;
      if word != [] {
        TrimRead(left, word, short);
      } else {
        assert v == right && v[1..] == left + word + right[1..];
        TrimRead(left, word, right[1..]);
      }
    } else {
      assert v == word;
    }
  }

  lemma LowerExactly(word: Text, name: Text)
    requires forall i | 0 <= i < |name| :: 0x61 <= name[i] <= 0x7a
    ensures LowerAscii(word) == name <==> H.SameText(word, name)
  {
    if LowerAscii(word) == name {
      forall i | 0 <= i < |word| ensures H.SameLetter(word[i], name[i]) {
        assert LowerAscii(word)[i] == Lower(word[i]);
      }
    }
    if H.SameText(word, name) {
      forall i | 0 <= i < |word| ensures LowerAscii(word)[i] == name[i] {
        assert H.SameLetter(word[i], name[i]);
      }
    }
  }

  lemma TrimNames(v: Text, name: Text)
    requires name != [] && forall i | 0 <= i < |name| :: 0x61 <= name[i] <= 0x7a
    ensures Names(v, name) <==> LowerAscii(Trim(v)) == name
  {
    hide LowerAscii, Trim;
    LowerExactly(Trim(v), name);
    var left, right := TrimSpelled(v);
    if Names(v, name) {
      var l, word, r :| v == l + word + r && Spaces(l) && Spaces(r) && H.SameText(word, name);
      assert H.SameLetter(word[0], name[0]) && H.SameLetter(word[|word| - 1], name[|name| - 1]);
      TrimRead(l, word, r);
    }
  }

  lemma TrimEmpty(v: Text)
    ensures Trim(v) == [] <==> Spaces(v)
  {
    hide Trim;
    var left, right := TrimSpelled(v);
    if Spaces(v) {
      assert v == v + [] + [];
      TrimRead(v, [], []);
    }
    assert Trim(v) == [] ==> v == left + right;
  }

  /** A coding is gzip or identity by name, identity when nothing is named, and bad otherwise. */
  lemma CodingExactly(v: Text)
    ensures CodingNamed(v) == Gzip <==> H.IsAscii(v) && Names(v, GZIP)
    ensures CodingNamed(v) == Identity <==> H.IsAscii(v) && (Spaces(v) || Names(v, IDENTITY))
  {
    hide Trim, LowerAscii, Names, Spaces;
    CodingNames();
    TrimNames(v, GZIP);
    TrimNames(v, IDENTITY);
    TrimEmpty(v);
    assert LowerAscii(Trim(v)) == [] <==> Trim(v) == [] by { LowerLength(Trim(v)); }
  }

  lemma LowerLength(v: Text)
    ensures |LowerAscii(v)| == |v|
  {
  }

  // ----- refused blocks -----

  /** Fields that are acceptable so far. */
  predicate Sound(headers: seq<Header>) {
    && (forall h | h in headers :: Field(h)) && |Lines(headers)| <= 65_536
    && (Named(headers, LENGTH) == [] || Length(Named(headers, LENGTH), DeclaredLength(Named(headers, LENGTH))))
  }

  /** The next field is the first wrong one, and too large rather than malformed. */
  predicate Outsize(headers: seq<Header>, h: Header) {
    && Field(h)
    && (|Lines(headers + [h])| > 65_536
        || (h.name == LENGTH && Named(headers, LENGTH) == []
            && CanonicalDecimal(h.value) && 1_048_576 < DecimalOf(h.value) <= 0x7fff_ffff_ffff_ffff))
  }

  lemma SoundExactly(headers: seq<Header>)
    ensures Sound(headers) <==> M.Fields(headers).Going?
  {
    hide M.Fields, Named, Declares, Length, FieldOk, Field, HeaderBytes, Lines, DeclaredLength;
    FieldsAgree(headers);
    LinesCounted(headers);
    var lengths := Named(headers, LENGTH);
    LengthExactly(lengths, DeclaredLength(lengths));
    FieldsExactly(headers, DeclaredLength(lengths));
    NoLength(lengths);
    if M.Fields(headers).Going? {
      FieldsExactly(headers, M.Fields(headers).expected);
      DeclaresOne(lengths, M.Fields(headers).expected);
    }
  }

  lemma NoLength(lengths: seq<Text>)
    ensures lengths == [] ==> Declares(lengths, DeclaredLength(lengths))
  {
  }

  lemma DeclaresOne(lengths: seq<Text>, expected: Option<nat>)
    requires Declares(lengths, expected)
    ensures expected == DeclaredLength(lengths)
  {
    hide CanonicalDecimal, DecimalOf;
  }

  lemma OutsizeExactly(headers: seq<Header>, h: Header)
    requires Sound(headers)
    ensures M.Fields(headers + [h]) == Stopped(TooLarge) <==> Outsize(headers, h)
  {
    SoundExactly(headers);
    FieldsExactly(headers, DeclaredLength(Named(headers, LENGTH)));
    FieldsAgree([h]);
    LinesCounted(headers + [h]);
    var all := headers + [h];
    assert all[..|all| - 1] == headers && h in [h];
    hide Named, FieldOk, Field, Lines, CanonicalDecimal, DecimalOf, Sound;
    SoundDeclares(headers);
  }

  lemma SoundDeclares(headers: seq<Header>)
    requires Sound(headers)
    ensures M.Fields(headers).Going? && M.Fields(headers).bytes == HeaderBytes(headers)
    ensures M.Fields(headers).expected.None? <==> Named(headers, LENGTH) == []
  {
    SoundExactly(headers);
    hide M.Fields, Named, FieldOk, HeaderBytes, Sound;
    FieldsExactly(headers, M.Fields(headers).expected);
  }

  /** A block is refused as too large when it is cut short, has too many fields, or its first wrong field is outsize. */
  lemma RefusedExactly(frame: Meta)
    ensures Decode(frame) == Undecodable(TooLarge) <==>
              || frame.truncated
              || (&& StatusOf(frame.pseudos) != -1
                  && (|| |frame.regular| > 100
                      || exists n: nat | n < |frame.regular| ::
                           Sound(frame.regular[..n]) && Outsize(frame.regular[..n], frame.regular[n])))
  {
    hide StatusOf, M.Fields, Sound, Outsize;
    var headers := frame.regular;
    forall n: nat | n < |headers| && Sound(headers[..n]) && Outsize(headers[..n], headers[n])
      ensures M.Fields(headers) == Stopped(TooLarge)
    {
      assert headers[..n] + [headers[n]] == headers[..n + 1];
      OutsizeExactly(headers[..n], headers[n]);
      StaysStopped(headers, n + 1);
    }
    if M.Fields(headers) == Stopped(TooLarge) {
      var n := FirstWrong(headers);
      assert headers[..n] + [headers[n]] == headers[..n + 1];
      OutsizeExactly(headers[..n], headers[n]);
    }
  }

  /** The field that stops the fold. */
  lemma {:induction false} FirstWrong(headers: seq<Header>) returns (n: nat)
    requires M.Fields(headers).Stopped?
    ensures n < |headers| && Sound(headers[..n]) && M.Fields(headers[..n + 1]) == M.Fields(headers)
    decreases |headers|
  {
    hide Sound;
    var front := headers[..|headers| - 1];
    SoundExactly(front);
    if M.Fields(front).Stopped? {
      n := FirstWrong(front);
      assert front[..n] == headers[..n] && front[..n + 1] == headers[..n + 1];
    } else {
      n := |headers| - 1;
      assert headers[..n + 1] == headers;
    }
  }

  // ----- bodies -----

  function Limit(status: int): nat {
    if 200 <= status <= 299 then 1_048_576 else 65_536
  }

  /** A body that is not compressed is kept whole up to the limit; past it, success fails and an error is cut. */
  lemma PlainBodies(status: int, headers: seq<Header>, wire: Text, gunzip: Gunzip)
    requires CodingOf(Named(headers, Ascii("content-encoding"))) == Identity
    ensures Finalize(status, headers, wire, gunzip) ==
            if |wire| <= Limit(status) then Final(Response(status, headers, wire, |wire|, |wire|, false))
            else if 200 <= status <= 299 then M.Unusable(TooLarge)
            else Final(Response(status, headers, wire[..65_536], |wire|, |wire|, true))
  {
    hide CodingOf, Named;
  }

  /** A compressed body within the limit is usable when all of it was read, and expands at most a hundredfold. */
  lemma ShortBodies(status: int, headers: seq<Header>, wire: Text, gunzip: Gunzip)
    requires CodingOf(Named(headers, Ascii("content-encoding"))) == Gzip
    requires gunzip(wire).Stream? && |gunzip(wire).text| <= Limit(status)
    ensures var r, s := Finalize(status, headers, wire, gunzip), gunzip(wire);
            var whole := !s.broken && s.unread == 0 && !s.closeFails(|s.text|);
            && (r == Final(Response(status, headers, s.text, |wire|, |s.text|, false)) <==>
                  whole && |s.text| <= 100 * |wire|)
            && (r == M.Unusable(TooLarge) <==> whole && |s.text| > 100 * |wire|)
            && (r == M.Unusable(Protocol) <==> !whole)
  {
    hide CodingOf, Named;
  }

  /** Past the limit one byte more is read: success fails, an error is cut, and what the rest is like is not seen. */
  lemma LongBodies(status: int, headers: seq<Header>, wire: Text, gunzip: Gunzip)
    requires CodingOf(Named(headers, Ascii("content-encoding"))) == Gzip
    requires gunzip(wire).Stream? && |gunzip(wire).text| > Limit(status)
    ensures var r, s := Finalize(status, headers, wire, gunzip), gunzip(wire);
            var seen := !s.closeFails(Limit(status) + 1) && !(s.broken && s.together && |s.text| == Limit(status) + 1);
            && (r == M.Unusable(Protocol) <==> !seen)
            && (r == M.Unusable(TooLarge) <==> seen && (200 <= status <= 299 || 65_536 >= 100 * |wire|))
            && (r == Final(Response(status, headers, s.text[..65_536], |wire|, 65_537, true)) <==>
                  seen && !(200 <= status <= 299) && 65_536 < 100 * |wire|)
  {
    hide CodingOf, Named;
  }

  /** A coding the client does not know, or a body that is no stream at all, is a protocol error. */
  lemma BadBodies(status: int, headers: seq<Header>, wire: Text, gunzip: Gunzip)
    requires var coding := CodingOf(Named(headers, Ascii("content-encoding")));
             coding == Bad || (coding == Gzip && gunzip(wire).NoStream?)
    ensures Finalize(status, headers, wire, gunzip) == M.Unusable(Protocol)
  {
    hide CodingOf, Named;
  }

  /** The coding is the one field's, identity without one, and bad with several. */
  lemma CodingsExactly(values: seq<Text>)
    ensures CodingOf(values) == Gzip <==> |values| == 1 && H.IsAscii(values[0]) && Names(values[0], GZIP)
    ensures CodingOf(values) == Identity <==>
              || |values| == 0
              || (|values| == 1 && H.IsAscii(values[0]) && (Spaces(values[0]) || Names(values[0], IDENTITY)))
  {
    hide CodingNamed, Names, Spaces;
    if |values| == 1 { CodingExactly(values[0]); }
  }
}
