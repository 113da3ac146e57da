/**
 The scanner recognises exactly the grammar. Every well-formed spelling is
 scanned to its end, and whatever is scanned to its end has a well-formed tree.
 */
module JsonTheorems {
  import opened Bytes
  import opened JsonGrammar
  import opened JsonScanner
  import Utf8

  /** What may follow a value inside a document. */
  predicate Delimited(s: Text, i: nat) {
    i >= |s| || IsSpace(s[i]) || s[i] == ',' as int || s[i] == ']' as int || s[i] == '}' as int
  }

  /**
   The verdict owed to a value: its end and tokens, the limit failure if only a
   limit is passed, or the protocol failure if only a key is repeated.
   */
  ghost predicate Verdict(r: Scan, distinct: bool, fits: bool, index: nat, tokens: nat) {
    if distinct && fits && tokens <= MAX_TOKENS then r == Done(index, tokens)
    else r.Fail? && Blames(r.kind, distinct, fits && tokens <= MAX_TOKENS)
  }

  predicate Blames(kind: Failure, distinct: bool, fits: bool) {
    (distinct ==> kind == FailureLimit) && (fits ==> kind == FailureProtocol)
  }

  // ----- white space and digits -----

  lemma SkipExact(s: Text, i: nat, w: Text)
    requires At(s, i, w) && Spaces(w)
    requires i + |w| < |s| ==> !IsSpace(s[i + |w|])
    ensures SkipSpaces(s, i) == i + |w|
  {
    var j := SkipSpaces(s, i);
    forall k | i <= k < i + |w| ensures IsSpace(s[k]) {
      assert s[i..i + |w|][k - i] == w[k - i];
    }
    forall k | i <= k < j ensures IsSpace(s[k]) {
      assert s[i..j][k - i] == s[k];
    }
  }

  lemma DigitsExact(s: Text, i: nat, w: Text)
    requires At(s, i, w) && Digits(w)
    requires i + |w| < |s| ==> !IsDigit(s[i + |w|])
    ensures DigitsEnd(s, i) == i + |w|
  {
    var j := DigitsEnd(s, i);
    forall k | i <= k < i + |w| ensures IsDigit(s[k]) {
      assert s[i..i + |w|][k - i] == w[k - i];
    }
    forall k | i <= k < j ensures IsDigit(s[k]) {
      assert s[i..j][k - i] == s[k];
    }
  }

  lemma AtByte(s: Text, i: nat, w: Text, k: nat)
    requires At(s, i, w) && k < |w|
    ensures i + k < |s| && s[i + k] == w[k]
  {
    assert s[i..i + |w|][k] == w[k];
  }

  lemma AtSlice(s: Text, i: nat, w: Text)
    requires At(s, i, w)
    ensures i + |w| <= |s| && s[i..i + |w|] == w
  {
  }

  // ----- strings: spelling to scan -----

  lemma UnitAt(s: Text, i: nat, h: Text, rest: Text)
    requires IsHex4(h) && At(s, i, [BACKSLASH, 'u' as int] + (h + rest))
    ensures i + 6 <= |s| && s[i] == BACKSLASH && s[i + 1] == 'u' as int
    ensures At(s, i, [BACKSLASH, 'u' as int])
    ensures HexAt(s, i + 2) && s[i + 2..i + 6] == h
    ensures At(s, i + 6, rest)
  {
    hide At;
    AtConcat(s, i, [BACKSLASH, 'u' as int], h + rest);
    AtConcat(s, i + 2, h, rest);
    AtByte(s, i, [BACKSLASH, 'u' as int], 0);
    AtByte(s, i, [BACKSLASH, 'u' as int], 1);
    AtSlice(s, i + 2, h);
  }

  lemma PieceScanned(s: Text, i: nat, p: Piece)
    requires PieceOk(p) && At(s, i, RenderPiece(p))
    ensures i < |s|
    ensures p.Raw? ==> s[i] == p.b && |RenderPiece(p)| == 1
    ensures !p.Raw? ==> s[i] == BACKSLASH && EscapeEnd(s, i) == i + |RenderPiece(p)|
  {
    hide At, IsHex4;
    match p
    case Raw(_) => AtByte(s, i, RenderPiece(p), 0);
    case Short(_) =>
      AtByte(s, i, RenderPiece(p), 0);
      AtByte(s, i, RenderPiece(p), 1);
    case Unit(h) =>
      assert RenderPiece(p) == [BACKSLASH, 'u' as int] + (h + []);
      UnitAt(s, i, h, []);
    case Pair(h, l) =>
      UnitAt(s, i, h, [BACKSLASH, 'u' as int] + l);
      assert [BACKSLASH, 'u' as int] + l == [BACKSLASH, 'u' as int] + (l + []);
      UnitAt(s, i + 6, l, []);
  }

  lemma {:induction false} PiecesScanned(s: Text, i: nat, ps: seq<Piece>)
    requires PiecesOk(ps) && At(s, i, RenderPieces(ps) + [QUOTE])
    ensures StringEnd(s, i) == i + |RenderPieces(ps)| + 1
    decreases |ps|
  {
    hide At, EscapeEnd, RenderPiece;
    if ps == [] {
      assert RenderPieces(ps) + [QUOTE] == [QUOTE];
      AtByte(s, i, [QUOTE], 0);
    } else {
      var first, rest := RenderPiece(ps[0]), RenderPieces(ps[1..]) + [QUOTE];
      assert RenderPieces(ps) + [QUOTE] == first + rest;
      AtConcat(s, i, first, rest);
      PieceScanned(s, i, ps[0]);
      PiecesScanned(s, i + |first|, ps[1..]);
    }
  }

  lemma UnquotePiece(p: Piece, rest: Text)
    requires PieceOk(p)
    ensures Unquote(RenderPiece(p) + rest) == DecodePiece(p) + Unquote(rest)
  {
    var b := RenderPiece(p) + rest;
    assert b[|RenderPiece(p)|..] == rest;
    match p
    case Raw(_) =>
    case Short(_) =>
    case Unit(h) =>
      assert b[2..6] == h;
    case Pair(h, l) =>
      assert b[2..6] == h;
      assert b[8..12] == l;
  }

  lemma {:induction false} UnquoteRendered(ps: seq<Piece>)
    requires PiecesOk(ps)
    ensures Unquote(RenderPieces(ps)) == Decode(ps)
    decreases |ps|
  {
    if ps != [] {
      UnquotePiece(ps[0], RenderPieces(ps[1..]));
      UnquoteRendered(ps[1..]);
    }
  }

  lemma StringScanned(s: Text, i: nat, ps: seq<Piece>, fieldName: bool)
    requires PiecesOk(ps) && At(s, i, RenderString(ps))
    ensures Next(s, i, QUOTE)
    ensures StringAt(s, i, fieldName) ==
            if StringFits(Decode(ps), fieldName) then StringDone(i + |RenderString(ps)|, Decode(ps))
            else StringFail(FailureLimit)
  {
    hide At, RenderPieces, StringEnd, Unquote, StringFits, Decode;
    var body := RenderPieces(ps);
    assert RenderString(ps) == [QUOTE] + (body + [QUOTE]);
    AtConcat(s, i, [QUOTE], body + [QUOTE]);
    AtByte(s, i, [QUOTE], 0);
    PiecesScanned(s, i + 1, ps);
    AtConcat(s, i + 1, body, [QUOTE]);
    AtSlice(s, i + 1, body);
    UnquoteRendered(ps);
  }

  // ----- numbers: spelling to scan -----

  /** The three parts of an exponent stand one after the other. */
  lemma ExponentParts(s: Text, i: nat, n: Numeral)
    requires NumeralOk(n) && n.exponent.Exponent? && At(s, i, RenderExponent(n))
    ensures var x := n.exponent;
            && |RenderExponent(n)| == 1 + |x.sign| + |x.digits|
            && At(s, i, [x.letter]) && At(s, i + 1, x.sign) && At(s, i + 1 + |x.sign|, x.digits)
  {
    hide At;
    var x := n.exponent;
    assert RenderExponent(n) == [x.letter] + (x.sign + x.digits);
    AtConcat(s, i, [x.letter], x.sign + x.digits);
    AtConcat(s, i + 1, x.sign, x.digits);
  }

  lemma SignedExponent(s: Text, i: nat, n: Numeral)
    requires NumeralOk(n) && n.exponent.Exponent? && n.exponent.sign != []
    requires At(s, i, RenderExponent(n)) && Delimited(s, i + |RenderExponent(n)|)
    ensures i < |s| && !IsDigit(s[i]) && s[i] != '.' as int
    ensures ExponentEnd(s, i) == i + |RenderExponent(n)|
  {
    hide At, DigitsEnd, RenderExponent;
    var x := n.exponent;
    ExponentParts(s, i, n);
    AtByte(s, i, [x.letter], 0);
    AtByte(s, i + 1, x.sign, 0);
    AtByte(s, i + 1 + |x.sign|, x.digits, 0);
    DigitsExact(s, i + 1 + |x.sign|, x.digits);
  }

  lemma UnsignedExponent(s: Text, i: nat, n: Numeral)
    requires NumeralOk(n) && n.exponent.Exponent? && n.exponent.sign == []
    requires At(s, i, RenderExponent(n)) && Delimited(s, i + |RenderExponent(n)|)
    ensures i < |s| && !IsDigit(s[i]) && s[i] != '.' as int
    ensures ExponentEnd(s, i) == i + |RenderExponent(n)|
  {
    hide At, DigitsEnd, RenderExponent;
    var x := n.exponent;
    ExponentParts(s, i, n);
    AtByte(s, i, [x.letter], 0);
    AtByte(s, i + 1, x.digits, 0);
    DigitsExact(s, i + 1, x.digits);
  }

  lemma ExponentScanned(s: Text, i: nat, n: Numeral)
    requires NumeralOk(n) && At(s, i, RenderExponent(n)) && Delimited(s, i + |RenderExponent(n)|)
    ensures i < |s| ==> !IsDigit(s[i]) && s[i] != '.' as int
    ensures ExponentEnd(s, i) == i + |RenderExponent(n)|
  {
    if n.exponent.Exponent? {
      if n.exponent.sign != [] { SignedExponent(s, i, n); } else { UnsignedExponent(s, i, n); }
      hide ExponentEnd, RenderExponent, At;
    }
  }

  lemma FractionScanned(s: Text, i: nat, n: Numeral)
    requires NumeralOk(n) && At(s, i, RenderFraction(n) + RenderExponent(n))
    requires Delimited(s, i + |RenderFraction(n) + RenderExponent(n)|)
    ensures i < |s| ==> !IsDigit(s[i])
    ensures FractionEnd(s, i) == i + |RenderFraction(n)|
    ensures ExponentEnd(s, i + |RenderFraction(n)|) == i + |RenderFraction(n) + RenderExponent(n)|
  {
    hide At, DigitsEnd, RenderExponent, ExponentEnd;
    AtConcat(s, i, RenderFraction(n), RenderExponent(n));
    ExponentScanned(s, i + |RenderFraction(n)|, n);
    if n.fraction != [] {
      AtConcat(s, i, ['.' as int], n.fraction);
      AtByte(s, i, ['.' as int], 0);
      AtByte(s, i + 1, n.fraction, 0);
      DigitsExact(s, i + 1, n.fraction);
    }
  }

  lemma NumeralScanned(s: Text, i: nat, n: Numeral)
    requires NumeralOk(n) && At(s, i, RenderNumeral(n)) && Delimited(s, i + |RenderNumeral(n)|)
    ensures NumeralEnd(s, i) == i + |RenderNumeral(n)|
  {
    hide At, DigitsEnd, FractionEnd, ExponentEnd, RenderFraction, RenderExponent;
    var m, w, t := RenderMinus(n), n.whole, RenderFraction(n) + RenderExponent(n);
    AtConcat(s, i, m, w + t);
    var j := i + |m|;
    AtConcat(s, j, w, t);
    if n.minus { AtByte(s, i, m, 0); }
    AtByte(s, j, w, 0);
    assert MinusEnd(s, i) == j;
    FractionScanned(s, j + |w|, n);
    if w[0] != '0' as int { DigitsExact(s, j, w); }
    assert WholeEnd(s, j) == j + |w|;
  }

  // ----- values: spelling to scan -----

  lemma FirstByte(v: Value)
    requires WellFormed(v)
    ensures |Render(v)| >= 1
    ensures var b := Render(v)[0];
            !IsSpace(b) && b != ']' as int && b != '}' as int && b != ',' as int
    ensures v.Number? ==> IsDigit(Render(v)[0]) || Render(v)[0] == '-' as int
    ensures v.String? ==> Render(v)[0] == QUOTE
    ensures v.Array? || v.EmptyArray? <==> Render(v)[0] == '[' as int
    ensures v.Object? || v.EmptyObject? <==> Render(v)[0] == '{' as int
  {
    if v.Number? {
      var n := v.numeral;
      assert Render(v)[0] == if n.minus then '-' as int else n.whole[0];
      assert IsDigit(n.whole[0]);
    }
  }

  lemma SkippedValue(s: Text, i: nat, before: Text, v: Value, depth: nat, tokens: nat)
    requires Spaces(before) && WellFormed(v) && At(s, i, before) && At(s, i + |before|, Render(v))
    ensures SkipSpaces(s, i) == i + |before|
    ensures ScanValue(s, i, depth, tokens) == ScanValue(s, i + |before|, depth, tokens)
  {
    hide At, Render, SkipSpaces, Spaces, ScanObject, ScanArray, ScanText, ScanLiteral, ScanNumeral;
    FirstByte(v);
    AtByte(s, i + |before|, Render(v), 0);
    SkipExact(s, i, before);
    SkipExact(s, i + |before|, []);
  }

  lemma ScalarScanned(s: Text, i: nat, v: Value, depth: nat, tokens: nat)
    requires v.Literal? || v.Number? || v.String?
    requires WellFormed(v) && At(s, i, Render(v)) && Delimited(s, i + |Render(v)|)
    ensures Verdict(ScanValue(s, i, depth, tokens), true, WithinLimits(v, depth), i + |Render(v)|, tokens + 1)
  {
    hide At, SkipSpaces, StringAt, NumeralEnd, RenderNumeral, RenderString, Decode, Utf8.RuneCount, ScanObject,
         ScanArray;
    FirstByte(v);
    AtByte(s, i, Render(v), 0);
    SkipExact(s, i, []);
    match v
    case Literal(w) => LiteralScanned(s, i, w, depth, tokens);
    case Number(n) => NumeralScanned(s, i, n);
    case String(ps) => StringScanned(s, i, ps, false);
  }

  lemma LiteralScanned(s: Text, i: nat, w: Word, depth: nat, tokens: nat)
    requires At(s, i, Spell(w)) && SkipSpaces(s, i) == i
    ensures ScanValue(s, i, depth, tokens) == Counted(i + |Spell(w)|, tokens)
  {
    hide SkipSpaces, ScanObject, ScanArray, ScanText, ScanNumeral;
    AtByte(s, i, Spell(w), 0);
  }

  lemma EmptyScanned(s: Text, i: nat, v: Value, depth: nat, tokens: nat)
    requires v.EmptyArray? || v.EmptyObject?
    requires WellFormed(v) && At(s, i, Render(v))
    ensures Verdict(ScanValue(s, i, depth, tokens), true, WithinLimits(v, depth), i + |Render(v)|, tokens + 2)
  {
    hide At, SkipSpaces, Spaces, ScanItems, ScanMembers;
    FirstByte(v);
    AtByte(s, i, Render(v), 0);
    SkipExact(s, i, []);
    var open, close := Render(v)[0], Render(v)[|Render(v)| - 1];
    assert Render(v) == [open] + (v.gap + [close]);
    AtConcat(s, i, [open], v.gap + [close]);
    AtConcat(s, i + 1, v.gap, [close]);
    AtByte(s, i + 1 + |v.gap|, [close], 0);
    SkipExact(s, i + 1, v.gap);
  }

  lemma Reskip(s: Text, i: nat)
    requires i <= |s|
    ensures SkipSpaces(s, SkipSpaces(s, i)) == SkipSpaces(s, i)
  {
    SkipExact(s, SkipSpaces(s, i), []);
  }

  /** A value with the white space around it, up to the punctuation that follows. */
  lemma {:induction false} PaddedScanned(s: Text, i: nat, p: Padded, depth: nat, tokens: nat)
    requires PaddedOk(p) && At(s, i, Pad(p, Render(p.value)))
    requires var end := i + |Pad(p, Render(p.value))|; end < |s| ==> Delimited(s, end) && !IsSpace(s[end])
    ensures var end := i + |Pad(p, Render(p.value))|;
            && SkipSpaces(s, i) == i + |p.before| && !Delimited(s, i + |p.before|)
            && i <= end - |p.after| && SkipSpaces(s, end - |p.after|) == end
            && Verdict(ScanValue(s, i, depth, tokens), DistinctKeys(p.value), WithinLimits(p.value, depth),
                       end - |p.after|, tokens + Tokens(p.value))
    decreases p.value, 2
  {
    hide At, SkipSpaces, Render, ScanValue, DistinctKeys, WithinLimits, Tokens, WellFormed;
    var text := Render(p.value);
    var j := i + |p.before|;
    AtConcat(s, i, p.before, text + p.after);
    AtConcat(s, j, text, p.after);
    FirstByte(p.value);
    AtByte(s, j, text, 0);
    SkippedValue(s, i, p.before, p.value, depth, tokens);
    if p.after != [] { AtByte(s, j + |text|, p.after, 0); }
    SkipExact(s, j + |text|, p.after);
    ValueScanned(s, j, p.value, depth, tokens);
  }

  lemma LastItemScanned(s: Text, i: nat, p: Padded, depth: nat, tokens: nat)
    requires ItemsOk(LastItem(p)) && At(s, i, RenderItems(LastItem(p)))
    ensures SkipSpaces(s, i) < |s| && !Delimited(s, SkipSpaces(s, i))
    ensures ItemsVerdict(s, i, LastItem(p), depth, tokens)
    decreases LastItem(p), 0
  {
    hide At, SkipSpaces, Spaces, Render, ScanValue, DistinctKeys, WithinLimits, Tokens, WellFormed, Pad;
    var text := Pad(p, Render(p.value));
    AtConcat(s, i, text, [']' as int]);
    AtByte(s, i + |text|, [']' as int], 0);
    PaddedScanned(s, i, p, depth, tokens);
  }

  lemma {:induction false} ItemsScanned(s: Text, i: nat, items: Items, depth: nat, tokens: nat)
    requires ItemsOk(items) && At(s, i, RenderItems(items))
    ensures SkipSpaces(s, i) < |s| && !Delimited(s, SkipSpaces(s, i))
    ensures ItemsVerdict(s, i, items, depth, tokens)
    decreases items
  {
    hide At, SkipSpaces, Spaces, Render, ScanValue, DistinctKeys, WithinLimits, Tokens, WellFormed, Pad, ScanItems,
         Verdict, ItemsDistinct, ItemsWithin;
    var text := Pad(items.item, Render(items.item.value));
    var end := i + |text|;
    match items
    case LastItem(p) => LastItemScanned(s, i, p, depth, tokens);
    case MoreItems(p, rest) =>
      AtConcat(s, i, text, [',' as int] + RenderItems(rest));
      AtConcat(s, end, [',' as int], RenderItems(rest));
      AtByte(s, end, [',' as int], 0);
      PaddedScanned(s, i, p, depth, tokens);
      ItemsScanned(s, end + 1, rest, depth, tokens + Tokens(p.value));
      MoreItemsScanned(s, i, items, depth, tokens);
  }

  ghost predicate ItemsVerdict(s: Text, i: nat, items: Items, depth: nat, tokens: nat)
    requires ItemsOk(items) && i <= |s|
  {
    Verdict(ScanItems(s, i, depth, tokens), ItemsDistinct(items), ItemsWithin(items, depth),
            i + |RenderItems(items)|, tokens + ItemsTokens(items) + 1)
  }

  lemma MoreItemsScanned(s: Text, i: nat, items: Items, depth: nat, tokens: nat)
    requires items.MoreItems? && ItemsOk(items) && i <= |s|
    requires var p := items.item;
             var end := i + |Pad(p, Render(p.value))|;
             && Next(s, end, ',' as int) && 0 <= end - |p.after| && SkipSpaces(s, end - |p.after|) == end
             && Verdict(ScanValue(s, i, depth, tokens), DistinctKeys(p.value), WithinLimits(p.value, depth),
                        end - |p.after|, tokens + Tokens(p.value))
             && ItemsVerdict(s, end + 1, items.rest, depth, tokens + Tokens(p.value))
    ensures ItemsVerdict(s, i, items, depth, tokens)
  {
    hide SkipSpaces, Spaces, Render, ScanValue, DistinctKeys, WithinLimits, Tokens, WellFormed, Pad;
  }

  ghost predicate MemberVerdict(r: ScannedMember, distinct: bool, fits: bool, index: nat, tokens: nat, key: Text) {
    if distinct && fits && tokens <= MAX_TOKENS then r == MemberDone(index, tokens, key)
    else r.MemberFail? && Blames(r.kind, distinct, fits && tokens <= MAX_TOKENS)
  }

  lemma ColonScanned(s: Text, i: nat, after: Text, depth: nat, tokens: nat)
    requires Spaces(after) && At(s, i, after) && Next(s, i + |after|, ':' as int)
    ensures ScanColonValue(s, i, depth, tokens) == ScanValue(s, i + |after| + 1, depth, tokens)
  {
    hide ScanValue, At, SkipSpaces, Spaces;
    SkipExact(s, i, after);
  }

  lemma KeyScanned(s: Text, i: nat, m: Member, tokens: nat)
    requires Spaces(m.before) && PiecesOk(m.key) && At(s, i, m.before) && At(s, i + |m.before|, RenderString(m.key))
    ensures Next(s, SkipSpaces(s, i), QUOTE)
    ensures tokens + 1 > MAX_TOKENS ==> ScanKey(s, i, tokens) == StringFail(FailureLimit)
    ensures tokens + 1 <= MAX_TOKENS ==>
              ScanKey(s, i, tokens) == if StringFits(Decode(m.key), true)
                                       then StringDone(i + |m.before| + |RenderString(m.key)|, Decode(m.key))
                                       else StringFail(FailureLimit)
  {
    hide At, SkipSpaces, Spaces, StringAt, RenderString, Decode, StringFits;
    StringScanned(s, i + |m.before|, m.key, true);
    SkipExact(s, i, m.before);
  }

  lemma {:induction false} EntryScanned(s: Text, i: nat, m: Member, depth: nat, tokens: nat, keys: set<Text>,
                                        members: nat)
    requires Spaces(m.before) && PiecesOk(m.key) && Spaces(m.after) && PaddedOk(m.padded)
    requires At(s, i, Entry(m, Render(m.padded.value)))
    requires var end := i + |Entry(m, Render(m.padded.value))|; end < |s| && Delimited(s, end) && !IsSpace(s[end])
    ensures var end := i + |Entry(m, Render(m.padded.value))|;
            && Next(s, SkipSpaces(s, i), QUOTE)
            && SkipSpaces(s, end - |m.padded.after|) == end
            && MemberVerdict(ScanMember(s, i, depth, tokens, keys, members),
                             Decode(m.key) !in keys && DistinctKeys(m.padded.value),
                             |Decode(m.key)| <= MAX_FIELD_NAME_BYTES && members <= MAX_MEMBERS
                               && WithinLimits(m.padded.value, depth),
                             end - |m.padded.after|, tokens + 1 + Tokens(m.padded.value), Decode(m.key))
    decreases m.padded.value, 3
  {
    hide At, SkipSpaces, Spaces, Render, ScanValue, ScanKey, ScanColonValue, DistinctKeys, WithinLimits, Tokens,
         WellFormed, Pad, RenderString, Decode, PiecesOk;
    var body := Pad(m.padded, Render(m.padded.value));
    var j := i + |m.before|;
    var k := j + |RenderString(m.key)|;
    AtConcat(s, i, m.before, RenderString(m.key) + (m.after + ([':' as int] + body)));
    AtConcat(s, j, RenderString(m.key), m.after + ([':' as int] + body));
    AtConcat(s, k, m.after, [':' as int] + body);
    AtConcat(s, k + |m.after|, [':' as int], body);
    AtByte(s, k + |m.after|, [':' as int], 0);
    KeyScanned(s, i, m, tokens);
    ColonScanned(s, k, m.after, depth, tokens + 1);
    PaddedScanned(s, k + |m.after| + 1, m.padded, depth, tokens + 1);
  }

  ghost predicate MembersVerdict(s: Text, i: nat, ms: Members, depth: nat, tokens: nat, keys: set<Text>, members: nat)
    requires MembersOk(ms) && i <= |s|
  {
    Verdict(ScanMembers(s, i, depth, tokens, keys, members),
            FreshKeys(ms, keys) && MembersDistinct(ms),
            MembersWithin(ms, depth) && members + MemberCount(ms) <= MAX_MEMBERS + 1,
            i + |RenderMembers(ms)|, tokens + MembersTokens(ms) + 1)
  }

  lemma {:induction false} MembersScanned(s: Text, i: nat, ms: Members, depth: nat, tokens: nat, keys: set<Text>,
                                          members: nat)
    requires MembersOk(ms) && At(s, i, RenderMembers(ms))
    ensures Next(s, SkipSpaces(s, i), QUOTE)
    ensures MembersVerdict(s, i, ms, depth, tokens, keys, members)
    decreases ms
  {
    hide At, SkipSpaces, Spaces, Render, ScanMember, DistinctKeys, WithinLimits, Tokens, WellFormed, Entry, Decode,
         PiecesOk, MembersVerdict;
    var m := ms.member;
    var text := Entry(m, Render(m.padded.value));
    var end := i + |text|;
    match ms
    case LastMember(_) =>
      AtConcat(s, i, text, ['}' as int]);
      AtByte(s, end, ['}' as int], 0);
      EntryScanned(s, i, m, depth, tokens, keys, members);
      LastScanned(s, i, ms, depth, tokens, keys, members);
    case MoreMembers(_, rest) =>
      AtConcat(s, i, text, [',' as int] + RenderMembers(rest));
      AtConcat(s, end, [',' as int], RenderMembers(rest));
      AtByte(s, end, [',' as int], 0);
      EntryScanned(s, i, m, depth, tokens, keys, members);
      MembersScanned(s, end + 1, rest, depth, tokens + 1 + Tokens(m.padded.value), keys + {Decode(m.key)}, members + 1);
      MoreScanned(s, i, ms, depth, tokens, keys, members);
  }

  /** One member has been scanned as it should, up to the punctuation at `end`. */
  ghost predicate HeadScanned(s: Text, i: nat, ms: Members, depth: nat, tokens: nat, keys: set<Text>, members: nat)
    requires MembersOk(ms) && i <= |s|
  {
    var m := ms.member;
    var end := i + |Entry(m, Render(m.padded.value))|;
    && end - |m.padded.after| <= |s|
    && SkipSpaces(s, end - |m.padded.after|) == end
    && MemberVerdict(ScanMember(s, i, depth, tokens, keys, members),
                     Decode(m.key) !in keys && DistinctKeys(m.padded.value),
                     |Decode(m.key)| <= MAX_FIELD_NAME_BYTES && members <= MAX_MEMBERS
                       && WithinLimits(m.padded.value, depth),
                     end - |m.padded.after|, tokens + 1 + Tokens(m.padded.value), Decode(m.key))
  }

  lemma LastScanned(s: Text, i: nat, ms: Members, depth: nat, tokens: nat, keys: set<Text>, members: nat)
    requires ms.LastMember? && MembersOk(ms) && i <= |s| && HeadScanned(s, i, ms, depth, tokens, keys, members)
    requires Next(s, i + |Entry(ms.member, Render(ms.member.padded.value))|, '}' as int)
    ensures MembersVerdict(s, i, ms, depth, tokens, keys, members)
  {
    hide SkipSpaces, Spaces, Render, ScanMember, DistinctKeys, WithinLimits, Tokens, WellFormed, Entry, Decode,
         PiecesOk;
  }

  lemma MoreScanned(s: Text, i: nat, ms: Members, depth: nat, tokens: nat, keys: set<Text>, members: nat)
    requires ms.MoreMembers? && MembersOk(ms) && i <= |s| && HeadScanned(s, i, ms, depth, tokens, keys, members)
    requires Next(s, i + |Entry(ms.member, Render(ms.member.padded.value))|, ',' as int)
    requires MembersVerdict(s, i + |Entry(ms.member, Render(ms.member.padded.value))| + 1, ms.rest, depth,
                            tokens + 1 + Tokens(ms.member.padded.value), keys + {Decode(ms.member.key)}, members + 1)
    ensures MembersVerdict(s, i, ms, depth, tokens, keys, members)
  {
    hide SkipSpaces, Spaces, Render, ScanMember, DistinctKeys, WithinLimits, Tokens, WellFormed, Entry, Decode,
         PiecesOk;
  }

  /** The names of `ms` repeat neither one another nor a name in `keys`. */
  predicate FreshKeys(ms: Members, keys: set<Text>)
    requires MembersOk(ms)
  {
    Decode(ms.member.key) !in keys && (ms.MoreMembers? ==> FreshKeys(ms.rest, keys + {Decode(ms.member.key)}))
  }

  lemma {:induction false} FreshMeansNoDuplicates(ms: Members, keys: set<Text>)
    requires MembersOk(ms)
    ensures FreshKeys(ms, keys) <==> NoDuplicates(KeyList(ms)) && forall k | k in KeyList(ms) :: k !in keys
    decreases ms
  {
    hide Decode, PiecesOk, Spaces, WellFormed;
    var key := Decode(ms.member.key);
    if ms.MoreMembers? {
      var rest := KeyList(ms.rest);
      FreshMeansNoDuplicates(ms.rest, keys + {key});
      assert KeyList(ms) == [key] + rest;
      if NoDuplicates(KeyList(ms)) {
        assert forall i | 0 <= i < |rest| :: rest[i] == KeyList(ms)[i + 1] && KeyList(ms)[0] != KeyList(ms)[i + 1];
      }
    }
  }

  lemma {:induction false} ValueScanned(s: Text, i: nat, v: Value, depth: nat, tokens: nat)
    requires WellFormed(v) && At(s, i, Render(v)) && Delimited(s, i + |Render(v)|)
    ensures Verdict(ScanValue(s, i, depth, tokens), DistinctKeys(v), WithinLimits(v, depth),
                    i + |Render(v)|, tokens + Tokens(v))
    decreases v, 1
  {
    hide At, ScanValue, Delimited;
    match v
    case Array(_) => ArrayScanned(s, i, v, depth, tokens);
    case Object(_) => ObjectScanned(s, i, v, depth, tokens);
    case EmptyArray(_) => EmptyScanned(s, i, v, depth, tokens);
    case EmptyObject(_) => EmptyScanned(s, i, v, depth, tokens);
    case _ => ScalarScanned(s, i, v, depth, tokens);
  }

  lemma {:induction false} ArrayScanned(s: Text, i: nat, v: Value, depth: nat, tokens: nat)
    requires v.Array? && WellFormed(v) && At(s, i, Render(v))
    ensures Verdict(ScanValue(s, i, depth, tokens), DistinctKeys(v), WithinLimits(v, depth),
                    i + |Render(v)|, tokens + Tokens(v))
    decreases v, 0
  {
    hide At, SkipSpaces, Spaces, RenderItems, ItemsOk, ItemsDistinct, ItemsWithin, ItemsTokens, ScanText, ScanLiteral,
         ScanNumeral, ScanObject;
    AtConcat(s, i, ['[' as int], RenderItems(v.items));
    AtByte(s, i, ['[' as int], 0);
    SkipExact(s, i, []);
    ItemsScanned(s, i + 1, v.items, depth + 1, tokens + 1);
    Reskip(s, i + 1);
    var j := SkipSpaces(s, i + 1);
    assert ScanItems(s, j, depth + 1, tokens + 1) == ScanItems(s, i + 1, depth + 1, tokens + 1);
  }

  lemma {:induction false} ObjectScanned(s: Text, i: nat, v: Value, depth: nat, tokens: nat)
    requires v.Object? && WellFormed(v) && At(s, i, Render(v))
    ensures Verdict(ScanValue(s, i, depth, tokens), DistinctKeys(v), WithinLimits(v, depth),
                    i + |Render(v)|, tokens + Tokens(v))
    decreases v, 0
  {
    hide At, SkipSpaces, Spaces, RenderMembers, MembersOk, MembersDistinct, MembersWithin, MembersTokens, MemberCount,
         FreshKeys, KeyList, StringAt, ScanText, ScanLiteral, ScanNumeral, ScanArray;
    AtConcat(s, i, ['{' as int], RenderMembers(v.members));
    AtByte(s, i, ['{' as int], 0);
    SkipExact(s, i, []);
    MembersScanned(s, i + 1, v.members, depth + 1, tokens + 1, {}, 1);
    FreshMeansNoDuplicates(v.members, {});
    Reskip(s, i + 1);
    var j := SkipSpaces(s, i + 1);
    assert ScanKey(s, j, tokens + 1) == ScanKey(s, i + 1, tokens + 1);
    assert ScanMembers(s, j, depth + 1, tokens + 1, {}, 1) == ScanMembers(s, i + 1, depth + 1, tokens + 1, {}, 1);
  }

  // ----- scan to spelling -----

  lemma AtSelf(s: Text, i: nat, j: nat)
    requires i <= j <= |s|
    ensures At(s, i, s[i..j])
  {
  }

  lemma EscapeSpelled(s: Text, i: nat) returns (p: Piece)
    requires i < |s| && s[i] == BACKSLASH && EscapeEnd(s, i) != -1
    ensures PieceOk(p) && At(s, i, RenderPiece(p)) && EscapeEnd(s, i) == i + |RenderPiece(p)|
  {
    hide IsHex4;
    var end := EscapeEnd(s, i);
    AtSelf(s, i, end);
    if end == i + 2 {
      p := Short(s[i + 1]);
    } else if end == i + 6 {
      p := Unit(s[i + 2..i + 6]);
      assert s[i..i + 6] == RenderPiece(p);
    } else {
      PairSpelled(s, i);
      p := Pair(s[i + 2..i + 6], s[i + 8..i + 12]);
    }
  }

  lemma PairSpelled(s: Text, i: nat)
    requires i < |s| && s[i] == BACKSLASH && EscapeEnd(s, i) > i + 6
    ensures EscapeEnd(s, i) == i + 12 <= |s|
    ensures var p := Pair(s[i + 2..i + 6], s[i + 8..i + 12]); PieceOk(p) && At(s, i, RenderPiece(p))
  {
    hide IsHex4;
    var mark, h, l := [BACKSLASH, 'u' as int], s[i + 2..i + 6], s[i + 8..i + 12];
    assert At(s, i, mark) by { assert s[i..i + 2] == mark; }
    AtSelf(s, i + 2, i + 6);
    AtSelf(s, i + 8, i + 12);
    hide At, EscapeEnd;
    AtConcat(s, i + 6, mark, l);
    AtConcat(s, i + 2, h, mark + l);
    AtConcat(s, i, mark, h + (mark + l));
  }

  lemma {:induction false} StringSpelled(s: Text, i: nat) returns (ps: seq<Piece>)
    requires i <= |s| && StringEnd(s, i) != -1
    ensures PiecesOk(ps) && At(s, i, RenderPieces(ps) + [QUOTE])
    ensures StringEnd(s, i) == i + |RenderPieces(ps)| + 1
    decreases |s| - i
  {
    hide At, EscapeEnd, PieceOk, RenderPiece;
    if s[i] == QUOTE {
      ps := [];
      AtSelf(s, i, i + 1);
      assert s[i..i + 1] == RenderPieces(ps) + [QUOTE];
    } else {
      var p: Piece;
      if s[i] == BACKSLASH {
        p := EscapeSpelled(s, i);
      } else {
        p := RawSpelled(s, i);
      }
      var rest := StringSpelled(s, i + |RenderPiece(p)|);
      ps := [p] + rest;
      assert ps[1..] == rest;
      assert RenderPieces(ps) + [QUOTE] == RenderPiece(p) + (RenderPieces(rest) + [QUOTE]);
      AtConcat(s, i, RenderPiece(p), RenderPieces(rest) + [QUOTE]);
    }
  }

  lemma RawSpelled(s: Text, i: nat) returns (p: Piece)
    requires i < |s| && s[i] != QUOTE && s[i] != BACKSLASH && s[i] >= 0x20
    ensures PieceOk(p) && At(s, i, RenderPiece(p)) && |RenderPiece(p)| == 1
  {
    p := Raw(s[i]);
  }

  lemma QuotedSpelled(s: Text, i: nat, fieldName: bool) returns (ps: seq<Piece>)
    requires Next(s, i, QUOTE) && StringAt(s, i, fieldName).StringDone?
    ensures PiecesOk(ps) && At(s, i, RenderString(ps)) && StringAt(s, i, fieldName).index == i + |RenderString(ps)|
  {
    hide At, StringEnd, RenderPieces, PiecesOk, Unquote, StringFits;
    ps := StringSpelled(s, i + 1);
    AtSelf(s, i, i + 1);
    assert s[i..i + 1] == [QUOTE];
    assert RenderString(ps) == [QUOTE] + (RenderPieces(ps) + [QUOTE]);
    AtConcat(s, i, [QUOTE], RenderPieces(ps) + [QUOTE]);
  }

  lemma ExponentSpelled(s: Text, i: nat) returns (x: Exponent)
    requires i <= |s| && ExponentEnd(s, i) != -1
    ensures x.Exponent? ==>
              && (x.letter == 'e' as int || x.letter == 'E' as int)
              && (x.sign == [] || x.sign == ['+' as int] || x.sign == ['-' as int])
              && Digits(x.digits) && |x.digits| >= 1
    ensures s[i..ExponentEnd(s, i)] == if x.NoExponent? then [] else [x.letter] + x.sign + x.digits
  {
    hide Digits;
    if ExponentEnd(s, i) == i {
      x := NoExponent;
    } else {
      var j := SignEnd(s, i + 1);
      x := Exponent(s[i], s[i + 1..j], s[j..DigitsEnd(s, j)]);
    }
  }

  lemma Join(s: Text, i: nat, j: nat, k: nat)
    requires i <= j <= k <= |s|
    ensures s[i..j] + s[j..k] == s[i..k]
  {
  }

  lemma MinusSpelled(s: Text, i: nat) returns (minus: bool)
    requires i <= |s|
    ensures s[i..MinusEnd(s, i)] == if minus then ['-' as int] else []
  {
    minus := i < MinusEnd(s, i);
  }

  lemma WholeSpelled(s: Text, i: nat)
    requires i <= |s| && WholeEnd(s, i) != -1
    ensures var whole := s[i..WholeEnd(s, i)];
            Digits(whole) && |whole| >= 1 && (whole[0] == '0' as int ==> |whole| == 1)
  {
  }

  lemma FractionSpelled(s: Text, i: nat) returns (fraction: Text)
    requires i <= |s| && FractionEnd(s, i) != -1
    ensures Digits(fraction)
    ensures s[i..FractionEnd(s, i)] == if fraction == [] then [] else ['.' as int] + fraction
  {
    hide DigitsEnd;
    fraction := if i < FractionEnd(s, i) then s[i + 1..FractionEnd(s, i)] else [];
  }

  lemma NumeralSpelled(s: Text, i: nat) returns (n: Numeral)
    requires i <= |s| && NumeralEnd(s, i) != -1
    ensures NumeralOk(n) && At(s, i, RenderNumeral(n)) && NumeralEnd(s, i) == i + |RenderNumeral(n)|
  {
    hide ExponentEnd, FractionEnd, WholeEnd, MinusEnd, Digits, At;
    var j := MinusEnd(s, i);
    var w := WholeEnd(s, j);
    var f := FractionEnd(s, w);
    var e := ExponentEnd(s, f);
    var x := ExponentSpelled(s, f);
    var minus := MinusSpelled(s, i);
    WholeSpelled(s, j);
    var fraction := FractionSpelled(s, w);
    n := Numeral(minus, s[j..w], fraction, x);
    Join(s, w, f, e);
    Join(s, j, w, e);
    Join(s, i, j, e);
    AtSelf(s, i, e);
  }

  lemma WordSpelled(s: Text, i: nat, w: Word, tokens: nat) returns (v: Value)
    requires ScanLiteral(s, i, Spell(w), tokens).Done?
    ensures WellFormed(v) && At(s, i, Render(v)) && ScanLiteral(s, i, Spell(w), tokens).index == i + |Render(v)|
  {
    v := Literal(w);
  }

  lemma {:induction false} ValueSpelled(s: Text, i: nat, depth: nat, tokens: nat) returns (v: Value)
    requires i <= |s| && ScanValue(s, i, depth, tokens).Done?
    ensures WellFormed(v) && At(s, SkipSpaces(s, i), Render(v))
    ensures ScanValue(s, i, depth, tokens).index == SkipSpaces(s, i) + |Render(v)|
    decreases |s| - i, 2
  {
    hide At, SkipSpaces, ScanObject, ScanArray, ScanLiteral, StringAt, NumeralEnd, RenderString, RenderNumeral,
         PiecesOk, NumeralOk;
    var j := SkipSpaces(s, i);
    if s[j] == '{' as int {
      v := ObjectSpelled(s, j, depth + 1, tokens);
    } else if s[j] == '[' as int {
      v := ArraySpelled(s, j, depth + 1, tokens);
    } else if s[j] == QUOTE {
      var ps := QuotedSpelled(s, j, false);
      v := String(ps);
    } else if s[j] == 't' as int {
      v := WordSpelled(s, j, True, tokens);
    } else if s[j] == 'f' as int {
      v := WordSpelled(s, j, False, tokens);
    } else if s[j] == 'n' as int {
      v := WordSpelled(s, j, Null, tokens);
    } else {
      var n := NumeralSpelled(s, j);
      v := Number(n);
    }
  }

  /** The bytes between two positions, spelled as white space and one byte. */
  lemma GapSpelled(s: Text, i: nat, b: Byte) returns (gap: Text)
    requires i <= |s| && Next(s, SkipSpaces(s, i), b)
    ensures Spaces(gap) && i + |gap| == SkipSpaces(s, i) && At(s, i, gap) && At(s, i, gap + [b])
  {
    hide At, SkipSpaces;
    var j := SkipSpaces(s, i);
    gap := s[i..j];
    AtSelf(s, i, j);
    AtSelf(s, j, j + 1);
    assert s[j..j + 1] == [b];
    AtConcat(s, i, gap, [b]);
  }

  lemma OpenSpelled(s: Text, i: nat, b: Byte, body: Text)
    requires Next(s, i, b) && At(s, i + 1, body)
    ensures At(s, i, [b] + body)
  {
    hide At;
    AtSelf(s, i, i + 1);
    assert s[i..i + 1] == [b];
    AtConcat(s, i, [b], body);
  }

  lemma {:induction false} ArraySpelled(s: Text, i: nat, depth: nat, tokens: nat) returns (v: Value)
    requires Next(s, i, '[' as int) && ScanArray(s, i, depth, tokens).Done?
    ensures WellFormed(v) && At(s, i, Render(v)) && ScanArray(s, i, depth, tokens).index == i + |Render(v)|
    decreases |s| - i, 1
  {
    hide At, SkipSpaces, ScanItems, RenderItems, ItemsOk, Spaces;
    var j := SkipSpaces(s, i + 1);
    if Next(s, j, ']' as int) {
      var gap := GapSpelled(s, i + 1, ']' as int);
      v := EmptyArray(gap);
      OpenSpelled(s, i, '[' as int, gap + [']' as int]);
    } else {
      Reskip(s, i + 1);
      SameItems(s, i + 1, depth, tokens + 1);
      var items := ItemsSpelled(s, i + 1, depth, tokens + 1);
      v := Array(items);
      OpenSpelled(s, i, '[' as int, RenderItems(items));
    }
  }

  lemma SameItems(s: Text, i: nat, depth: nat, tokens: nat)
    requires i <= |s|
    ensures ScanItems(s, SkipSpaces(s, i), depth, tokens) == ScanItems(s, i, depth, tokens)
  {
    hide SkipSpaces, ScanObject, ScanArray, ScanText, ScanLiteral, ScanNumeral;
    Reskip(s, i);
    assert ScanValue(s, SkipSpaces(s, i), depth, tokens) == ScanValue(s, i, depth, tokens);
  }

  lemma SameMembers(s: Text, i: nat, depth: nat, tokens: nat, keys: set<Text>, members: nat)
    requires i <= |s|
    ensures ScanMembers(s, SkipSpaces(s, i), depth, tokens, keys, members)
            == ScanMembers(s, i, depth, tokens, keys, members)
  {
    hide SkipSpaces, StringAt, ScanColonValue;
    Reskip(s, i);
    assert ScanKey(s, SkipSpaces(s, i), tokens) == ScanKey(s, i, tokens);
    assert ScanMember(s, SkipSpaces(s, i), depth, tokens, keys, members)
           == ScanMember(s, i, depth, tokens, keys, members);
  }

  /** A scanned value with the white space around it and the byte that follows. */
  lemma {:induction false} PaddedSpelled(s: Text, i: nat, depth: nat, tokens: nat, b: Byte) returns (p: Padded)
    requires i <= |s| && ScanValue(s, i, depth, tokens).Done?
    requires Next(s, SkipSpaces(s, ScanValue(s, i, depth, tokens).index), b)
    ensures PaddedOk(p)
    ensures At(s, i, Pad(p, Render(p.value)) + [b])
    ensures i + |Pad(p, Render(p.value))| == SkipSpaces(s, ScanValue(s, i, depth, tokens).index)
    decreases |s| - i, 3
  {
    hide At, SkipSpaces, Spaces, ScanValue, Render, WellFormed;
    var v := ValueSpelled(s, i, depth, tokens);
    var j := SkipSpaces(s, i);
    var after := GapSpelled(s, j + |Render(v)|, b);
    AtSelf(s, i, j);
    p := Padded(s[i..j], v, after);
    AtConcat(s, j, Render(v), after + [b]);
    AtConcat(s, i, p.before, Render(v) + (after + [b]));
    assert Pad(p, Render(v)) + [b] == p.before + (Render(v) + (after + [b]));
  }

  lemma {:induction false} ItemsSpelled(s: Text, i: nat, depth: nat, tokens: nat) returns (items: Items)
    requires i <= |s| && ScanItems(s, i, depth, tokens).Done?
    ensures ItemsOk(items) && At(s, i, RenderItems(items))
            && ScanItems(s, i, depth, tokens).index == i + |RenderItems(items)|
    decreases |s| - i, 4
  {
    hide At, SkipSpaces, Spaces, ScanValue, Render, WellFormed, Pad;
    var end := SkipSpaces(s, ScanValue(s, i, depth, tokens).index);
    if Next(s, end, ']' as int) {
      var p := PaddedSpelled(s, i, depth, tokens, ']' as int);
      items := LastItem(p);
    } else {
      var p := PaddedSpelled(s, i, depth, tokens, ',' as int);
      var text := Pad(p, Render(p.value));
      var rest := ItemsSpelled(s, end + 1, depth, ScanValue(s, i, depth, tokens).tokens);
      items := MoreItems(p, rest);
      AtConcat(s, i, text + [',' as int], RenderItems(rest));
      assert RenderItems(items) == (text + [',' as int]) + RenderItems(rest);
    }
  }

  lemma {:induction false} ObjectSpelled(s: Text, i: nat, depth: nat, tokens: nat) returns (v: Value)
    requires Next(s, i, '{' as int) && ScanObject(s, i, depth, tokens).Done?
    ensures WellFormed(v) && At(s, i, Render(v)) && ScanObject(s, i, depth, tokens).index == i + |Render(v)|
    decreases |s| - i, 1
  {
    hide At, SkipSpaces, ScanMembers, RenderMembers, MembersOk, Spaces;
    var j := SkipSpaces(s, i + 1);
    if Next(s, j, '}' as int) {
      var gap := GapSpelled(s, i + 1, '}' as int);
      v := EmptyObject(gap);
      OpenSpelled(s, i, '{' as int, gap + ['}' as int]);
    } else {
      SameMembers(s, i + 1, depth, tokens + 1, {}, 1);
      var ms := MembersSpelled(s, i + 1, depth, tokens + 1, {}, 1);
      v := Object(ms);
      OpenSpelled(s, i, '{' as int, RenderMembers(ms));
    }
  }

  lemma KeySpelled(s: Text, i: nat, tokens: nat) returns (before: Text, key: seq<Piece>)
    requires i <= |s| && ScanKey(s, i, tokens).StringDone?
    ensures Spaces(before) && PiecesOk(key) && At(s, i, before + RenderString(key))
    ensures ScanKey(s, i, tokens).index == i + |before + RenderString(key)|
  {
    hide At, SkipSpaces, Spaces, StringAt, RenderString, PiecesOk;
    var j := SkipSpaces(s, i);
    key := QuotedSpelled(s, j, true);
    before := s[i..j];
    AtSelf(s, i, j);
    AtConcat(s, i, before, RenderString(key));
  }

  /** A scanned member and the byte that follows it. */
  lemma {:induction false} EntrySpelled(s: Text, i: nat, depth: nat, tokens: nat, keys: set<Text>, members: nat,
                                        b: Byte)
    returns (m: Member)
    requires i <= |s| && ScanMember(s, i, depth, tokens, keys, members).MemberDone?
    requires Next(s, SkipSpaces(s, ScanMember(s, i, depth, tokens, keys, members).index), b)
    ensures Spaces(m.before) && PiecesOk(m.key) && Spaces(m.after) && PaddedOk(m.padded)
    ensures At(s, i, Entry(m, Render(m.padded.value)) + [b])
    ensures i + |Entry(m, Render(m.padded.value))|
            == SkipSpaces(s, ScanMember(s, i, depth, tokens, keys, members).index)
    decreases |s| - i, 3
  {
    hide At, SkipSpaces, Spaces, ScanValue, ScanKey, Render, RenderString, PaddedOk, PiecesOk, Pad;
    var before, key := KeySpelled(s, i, tokens);
    var k := ScanKey(s, i, tokens).index;
    var after := GapSpelled(s, k, ':' as int);
    var p := PaddedSpelled(s, k + |after| + 1, depth, tokens + 1, b);
    m := Member(before, key, after, p);
    var text := Pad(p, Render(p.value));
    AtConcat(s, k, after + [':' as int], text + [b]);
    AtConcat(s, i, before + RenderString(key), after + [':' as int] + (text + [b]));
    assert Entry(m, Render(p.value)) + [b] == before + RenderString(key) + (after + [':' as int] + (text + [b]));
  }

  lemma {:induction false} MembersSpelled(s: Text, i: nat, depth: nat, tokens: nat, keys: set<Text>, members: nat)
    returns (ms: Members)
    requires i <= |s| && ScanMembers(s, i, depth, tokens, keys, members).Done?
    ensures MembersOk(ms) && At(s, i, RenderMembers(ms))
    ensures ScanMembers(s, i, depth, tokens, keys, members).index == i + |RenderMembers(ms)|
    decreases |s| - i, 4
  {
    hide At, SkipSpaces, Spaces, ScanMember, Render, WellFormed, PiecesOk, Entry;
    var r := ScanMember(s, i, depth, tokens, keys, members);
    var end := SkipSpaces(s, r.index);
    if Next(s, end, '}' as int) {
      var m := EntrySpelled(s, i, depth, tokens, keys, members, '}' as int);
      ms := LastMember(m);
    } else {
      var m := EntrySpelled(s, i, depth, tokens, keys, members, ',' as int);
      var text := Entry(m, Render(m.padded.value));
      var rest := MembersSpelled(s, end + 1, depth, r.tokens, keys + {r.key}, members + 1);
      ms := MoreMembers(m, rest);
      AtConcat(s, i, text + [',' as int], RenderMembers(rest));
      assert RenderMembers(ms) == (text + [',' as int]) + RenderMembers(rest);
    }
  }

  // ----- documents -----

  /** A text with a tree is accepted exactly when its keys are distinct and it is within the limits. */
  lemma DocumentScanned(data: Text, doc: Padded)
    requires PaddedOk(doc) && Pad(doc, Render(doc.value)) == data
    ensures ScanDocument(data) == FailureNone <==> DistinctKeys(doc.value) && DocumentWithinLimits(doc)
    ensures ScanDocument(data) != FailureNone ==>
              Blames(ScanDocument(data), DistinctKeys(doc.value), DocumentWithinLimits(doc))
  {
    hide At, SkipSpaces, Spaces, ScanValue, Render, WellFormed, Pad, DistinctKeys, WithinLimits, Tokens;
    AtSelf(data, 0, |data|);
    assert data[0..|data|] == data;
    PaddedScanned(data, 0, doc, 0, 0);
    Reskip(data, 0);
    SameValue(data, 0, 0, 0);
  }

  lemma SameValue(s: Text, i: nat, depth: nat, tokens: nat)
    requires i <= |s|
    ensures ScanValue(s, SkipSpaces(s, i), depth, tokens) == ScanValue(s, i, depth, tokens)
  {
    hide SkipSpaces, ScanObject, ScanArray, ScanText, ScanLiteral, ScanNumeral;
    Reskip(s, i);
  }

  lemma DocumentSpelled(data: Text) returns (doc: Padded)
    requires ScanDocument(data) == FailureNone
    ensures PaddedOk(doc) && Pad(doc, Render(doc.value)) == data
  {
    hide At, SkipSpaces, Spaces, ScanValue, Render, WellFormed;
    SameValue(data, 0, 0, 0);
    var r := ScanValue(data, 0, 0, 0);
    var v := ValueSpelled(data, 0, 0, 0);
    var j := SkipSpaces(data, 0);
    AtSlice(data, j, Render(v));
    doc := Padded(data[..j], v, data[r.index..]);
    assert data[0..j] == data[..j];
    assert data[r.index..|data|] == data[r.index..];
    assert data == data[..j] + (data[j..r.index] + data[r.index..]);
  }

  lemma NoMark(data: Text, doc: Padded)
    requires PaddedOk(doc) && Pad(doc, Render(doc.value)) == data
    ensures !HasByteOrderMark(data)
  {
    hide WellFormed, Render;
    FirstByte(doc.value);
    assert doc.before == [] ==> data[0] == Render(doc.value)[0];
    assert doc.before != [] ==> data[0] == doc.before[0];
    assert HasByteOrderMark(data) ==> data[..3][0] == data[0];
    FirstByteAscii(doc.value);
  }

  lemma FirstByteAscii(v: Value)
    requires WellFormed(v)
    ensures |Render(v)| >= 1 && Render(v)[0] < 0x80
  {
    FirstByte(v);
  }

  /**
   The scanner accepts a document exactly when it is a bounded UTF-8 text that
   spells one JSON value with paired surrogates, distinct keys, and every
   length, depth, member and token limit met.
   */
  lemma AcceptsExactlyTheGrammar(data: Text)
    ensures ParseFailure(data) == FailureNone
       <==> |data| <= 1_048_576 && Utf8.Valid(data)
            && exists doc :: IsDocument(data, doc) && DocumentWithinLimits(doc)
  {
    hide Utf8.Valid, ScanDocument, Render, WellFormed, DistinctKeys, WithinLimits, Spaces, HasByteOrderMark, Pad;
    if ParseFailure(data) == FailureNone {
      var doc := DocumentSpelled(data);
      DocumentScanned(data, doc);
      assert IsDocument(data, doc);
    }
    forall doc | IsDocument(data, doc) && DocumentWithinLimits(doc)
      ensures !HasByteOrderMark(data) && ScanDocument(data) == FailureNone
    {
      DocumentScanned(data, doc);
      NoMark(data, doc);
    }
  }

  /** A UTF-8 text that spells a duplicate-free document fails, if at all, for a limit. */
  lemma RejectsWellFormedOnlyForLimits(data: Text, doc: Padded)
    requires Utf8.Valid(data) && IsDocument(data, doc)
    ensures ParseFailure(data) ==
            if |data| <= 1_048_576 && DocumentWithinLimits(doc) then FailureNone else FailureLimit
  {
    hide Utf8.Valid, ScanDocument, Render, WellFormed, DistinctKeys, WithinLimits, Spaces, HasByteOrderMark, Pad;
    DocumentScanned(data, doc);
    NoMark(data, doc);
  }

  /**
   A text that spells a document with a repeated key is never accepted, however
   it is spelled, and if it keeps to every limit the failure is the protocol's.
   */
  lemma RejectsRepeatedKeys(data: Text, doc: Padded)
    requires PaddedOk(doc) && Pad(doc, Render(doc.value)) == data && !DistinctKeys(doc.value)
    ensures ParseFailure(data) != FailureNone
    ensures |data| <= 1_048_576 && DocumentWithinLimits(doc) ==> ParseFailure(data) == FailureProtocol
  {
    hide Utf8.Valid, ScanDocument, Render, WellFormed, DistinctKeys, WithinLimits, Spaces, HasByteOrderMark, Pad;
    DocumentScanned(data, doc);
  }
}
