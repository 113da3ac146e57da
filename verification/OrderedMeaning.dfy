/**
 What the encoders write is JSON, and it says what the value says: the same
 fields and items in the same order, and the same text in every string, with
 bytes that are not UTF-8 replaced by U+FFFD.
 */
module OrderedMeaning {
  import opened Bytes
  import opened OrderedJson
  import J = JsonGrammar
  import Utf8

  // ----- strings -----

  const REPLACEMENT: Text := [0xef, 0xbf, 0xbd]

  /** A text as JSON can carry it. */
  function Carried(s: Text): Text
    decreases |s|
  {
    if s == [] then []
    else if Utf8.RuneWidth(s) == 0 then REPLACEMENT + Carried(s[1..])
    else s[..Utf8.RuneWidth(s)] + Carried(s[Utf8.RuneWidth(s)..])
  }

  /** Text in UTF-8 is carried as it is. */
  lemma {:induction false} ValidIsCarried(s: Text)
    requires Utf8.Valid(s)
    ensures Carried(s) == s
    decreases |s|
  {
    if s != [] {
      var w := Utf8.RuneWidth(s);
      ValidIsCarried(s[w..]);
      assert s[..w] + s[w..] == s;
    }
  }

  function Raws(s: Text): seq<J.Piece> {
    if s == [] then [] else [J.Raw(s[0])] + Raws(s[1..])
  }

  predicate Plainly(b: Byte) {
    b >= 0x20 && b != 0x22 && b != 0x5c
  }

  lemma {:induction false} RawsSpell(s: Text)
    requires forall i | 0 <= i < |s| :: Plainly(s[i])
    ensures J.PiecesOk(Raws(s)) && J.RenderPieces(Raws(s)) == s && J.Decode(Raws(s)) == s
    decreases |s|
  {
    if s != [] {
      assert Plainly(s[0]);
      RawsSpell(s[1..]);
      var ps := Raws(s);
      assert ps[0] == J.Raw(s[0]) && ps[1..] == Raws(s[1..]);
      assert s == [s[0]] + s[1..];
    }
  }

  lemma {:induction false} PiecesJoin(a: seq<J.Piece>, b: seq<J.Piece>)
    requires J.PiecesOk(a) && J.PiecesOk(b)
    ensures J.PiecesOk(a + b) && J.RenderPieces(a + b) == J.RenderPieces(a) + J.RenderPieces(b)
    ensures J.Decode(a + b) == J.Decode(a) + J.Decode(b)
    decreases |a|
  {
    hide J.PieceOk, J.RenderPiece, J.DecodePiece;
    if a == [] {
      assert a + b == b;
    } else {
      PiecesJoin(a[1..], b);
      assert (a + b)[1..] == a[1..] + b && (a + b)[0] == a[0];
    }
  }

  lemma OnePiece(p: J.Piece)
    requires J.PieceOk(p)
    ensures J.PiecesOk([p]) && J.RenderPieces([p]) == J.RenderPiece(p) && J.Decode([p]) == J.DecodePiece(p)
  {
    hide J.PieceOk, J.RenderPiece, J.DecodePiece;
    assert [p][1..] == [];
  }

  /** Every byte of a rune after the first 0x80 is plain. */
  lemma WideRune(s: Text)
    requires s != [] && s[0] >= 0x20 && s[0] != 0x22 && s[0] != 0x5c && Utf8.RuneWidth(s) != 0
    ensures forall i | 0 <= i < Utf8.RuneWidth(s) :: Plainly(s[i])
  {
  }

  lemma UnitPiece(a: nat, b: nat, c: nat, d: nat, value: nat)
    requires a < 16 && b < 16 && c < 16 && d < 16 && value == 0x1000 * a + 0x100 * b + 0x10 * c + d
    requires !J.IsHigh(value) && !J.IsLow(value)
    ensures var p := J.Unit([HexChar(a), HexChar(b), HexChar(c), HexChar(d)]);
            J.PieceOk(p) && J.RenderPiece(p) == Escape4(a, b, c, d) && J.DecodePiece(p) == Utf8.Encode(value)
  {
    hide HexDigit, HexChar, Utf8.Encode;
  }

  /** The first rune of a text, as pieces of a string literal. */
  lemma RuneSpelled(s: Text) returns (ps: seq<J.Piece>)
    requires s != []
    ensures J.PiecesOk(ps) && J.RenderPieces(ps) == EncodeRune(s)
    ensures J.Decode(ps) == if Utf8.RuneWidth(s) == 0 then REPLACEMENT else s[..Utf8.RuneWidth(s)]
  {
    hide Utf8.RuneWidth, J.PieceOk, J.RenderPiece, J.DecodePiece, HexChar;
    var b := s[0];
    if b < 0x80 { NarrowRune(s); }
    if b == 0x22 || b == 0x5c || b == 0x08 || b == 0x0c || b == 0x0a || b == 0x0d || b == 0x09 {
      ps := ShortSpelled(s);
    } else if b < 0x20 {
      UnitPiece(0, 0, b / 16, b % 16, b);
      ps := [J.Unit([HexChar(0), HexChar(0), HexChar(b / 16), HexChar(b % 16)])];
      OnePiece(ps[0]);
    } else if Utf8.RuneWidth(s) == 0 {
      UnitPiece(15, 15, 15, 13, 0xfffd);
      ps := [J.Unit([HexChar(15), HexChar(15), HexChar(15), HexChar(13)])];
      OnePiece(ps[0]);
    } else if LineSeparator(s) {
      ps := SeparatorSpelled(s);
    } else {
      WideRune(s);
      ps := Raws(s[..Utf8.RuneWidth(s)]);
      RawsSpell(s[..Utf8.RuneWidth(s)]);
    }
  }

  lemma NarrowRune(s: Text)
    requires s != [] && s[0] < 0x80
    ensures Utf8.RuneWidth(s) == 1 && s[..1] == [s[0]]
  {
  }

  lemma ShortSpelled(s: Text) returns (ps: seq<J.Piece>)
    requires s != [] && s[0] in {0x22, 0x5c, 0x08, 0x0c, 0x0a, 0x0d, 0x09}
    ensures J.PiecesOk(ps) && J.RenderPieces(ps) == EncodeRune(s) && J.Decode(ps) == [s[0]]
  {
    var c := EncodeRune(s)[1];
    ps := [J.Short(c)];
    OnePiece(J.Short(c));
  }

  lemma SeparatorSpelled(s: Text) returns (ps: seq<J.Piece>)
    requires s != [] && LineSeparator(s) && Utf8.RuneWidth(s) != 0
    ensures J.PiecesOk(ps) && J.RenderPieces(ps) == EncodeRune(s) && J.Decode(ps) == s[..Utf8.RuneWidth(s)]
  {
    assert s[..3] == s[0..3];
    var d: nat := s[2] - 0xa0;
    assert s[0..3][0] == s[0] && s[0..3][1] == s[1] && s[0..3][2] == s[2];
    UnitPiece(2, 0, 2, d, 0x2020 + d);
    ps := [J.Unit([HexChar(2), HexChar(0), HexChar(2), HexChar(d)])];
    OnePiece(ps[0]);
  }

  lemma {:induction false} RunesSpelled(s: Text) returns (ps: seq<J.Piece>)
    ensures J.PiecesOk(ps) && J.RenderPieces(ps) == EncodeRunes(s) && J.Decode(ps) == Carried(s)
    decreases |s|
  {
    hide Utf8.RuneWidth, J.PieceOk, J.RenderPiece, J.DecodePiece, EncodeRune;
    if s == [] {
      ps := [];
    } else {
      var first := RuneSpelled(s);
      var rest := RunesSpelled(s[Utf8.RuneStep(s)..]);
      PiecesJoin(first, rest);
      ps := first + rest;
    }
  }

  lemma StringSpelled(s: Text) returns (ps: seq<J.Piece>)
    ensures J.PiecesOk(ps) && J.RenderString(ps) == EncodeString(s) && J.Decode(ps) == Carried(s)
  {
    hide EncodeRunes, J.RenderPieces;
    ps := RunesSpelled(s);
  }

  // ----- values -----

  /** What the library writes for a scalar is itself a JSON value. */
  ghost predicate ScalarsOk(v: Json) {
    match v
    case Object(fields) => forall f | f in fields :: ScalarsOk(f.value)
    case List(items) => forall x | x in items :: ScalarsOk(x)
    case Scalar(e) => exists w :: J.WellFormed(w) && J.Render(w) == e
    case _ => true
  }

  /** The JSON value `w` says what `v` says. */
  ghost predicate Means(w: J.Value, v: Json, bounded: bool)
    decreases v, 1
  {
    match v
    case Str(s) => w.String? && J.PiecesOk(w.pieces) && J.Decode(w.pieces) == Carried(s)
    case Scalar(e) => J.Render(w) == e
    case NilList => w == if bounded then J.EmptyArray([]) else J.Literal(J.Null)
    case NilObject => w == J.Literal(J.Null)
    case Unencodable => false
    case List(items) => if items == [] then w == J.EmptyArray([]) else w.Array? && ItemsMean(w.items, v, 0, bounded)
    case Object(fields) =>
      if fields == [] then w == J.EmptyObject([]) else w.Object? && MembersMean(w.members, v, 0, bounded)
  }

  /** The items say what the items of `v` from `i` on say, one for one. */
  ghost predicate ItemsMean(items: J.Items, v: Json, i: nat, bounded: bool)
    requires v.List? && i < |v.items|
    decreases v, 0, |v.items| - i
  {
    && items.item.before == [] && items.item.after == [] && Means(items.item.value, v.items[i], bounded)
    && (items.LastItem? <==> i == |v.items| - 1)
    && (items.MoreItems? && i < |v.items| - 1 ==> ItemsMean(items.rest, v, i + 1, bounded))
  }

  ghost predicate MembersMean(ms: J.Members, v: Json, i: nat, bounded: bool)
    requires v.Object? && i < |v.fields|
    decreases v, 0, |v.fields| - i
  {
    && MemberMeans(ms.member, v.fields[i].key)
    && Means(ms.member.padded.value, v.fields[i].value, bounded)
    && (ms.LastMember? <==> i == |v.fields| - 1)
    && (ms.MoreMembers? && i < |v.fields| - 1 ==> MembersMean(ms.rest, v, i + 1, bounded))
  }

  /** A member without white space whose name is the key. */
  ghost predicate MemberMeans(m: J.Member, key: Text) {
    && m.before == [] && m.after == [] && m.padded.before == [] && m.padded.after == []
    && J.PiecesOk(m.key) && J.Decode(m.key) == Carried(key)
  }

  lemma ItemsFront(v: Json, i: nat, n: nat, bounded: bool)
    requires v.List? && i <= n <= |v.items| && EncodeItems(v, n, bounded).Encoded?
    ensures EncodeItems(v, i, bounded).Encoded? && (i < n ==> Encode(v.items[i], bounded).Encoded?)
    decreases n
  {
    hide Encode;
    if i < n - 1 { ItemsFront(v, i, n - 1, bounded); }
  }

  lemma FieldsFront(v: Json, i: nat, n: nat, bounded: bool)
    requires v.Object? && i <= n <= |v.fields| && EncodeFields(v, n, bounded).Encoded?
    ensures EncodeFields(v, i, bounded).Encoded? && (i < n ==> Encode(v.fields[i].value, bounded).Encoded?)
    decreases n
  {
    hide Encode;
    if i < n - 1 { FieldsFront(v, i, n - 1, bounded); }
  }

  /** What is encoded is a well-formed JSON value that says what the value says. */
  lemma {:induction false} EncodingMeans(v: Json, bounded: bool) returns (w: J.Value)
    requires ScalarsOk(v) && Encode(v, bounded).Encoded?
    ensures J.WellFormed(w) && J.Render(w) == Encode(v, bounded).text && Means(w, v, bounded)
    decreases v, 1
  {
    hide EncodeString, J.RenderString, J.RenderItems, J.RenderMembers, J.ItemsOk, J.MembersOk, ItemsMean, MembersMean;
    match v
    case Str(s) =>
      var ps := StringSpelled(s);
      w := J.String(ps);
    case Scalar(e) => w :| J.WellFormed(w) && J.Render(w) == e;
    case NilList => w := if bounded then J.EmptyArray([]) else J.Literal(J.Null);
    case NilObject => w := J.Literal(J.Null);
    case List(items) =>
      if items == [] {
        w := J.EmptyArray([]);
      } else {
        var all := ItemsFrom(v, 0, bounded);
        w := J.Array(all);
        assert ItemsText(v, 0, bounded, all);
      }
    case Object(fields) =>
      if fields == [] {
        w := J.EmptyObject([]);
      } else {
        var all := MembersFrom(v, 0, bounded);
        w := J.Object(all);
      }
  }

  /** The encoding from item `i` on is the text of `items`. */
  ghost predicate ItemsText(v: Json, i: nat, bounded: bool, items: J.Items)
    requires v.List? && i < |v.items|
  {
    && J.ItemsOk(items) && ItemsMean(items, v, i, bounded)
    && Encode(v, bounded).Encoded? && EncodeItems(v, i, bounded).Encoded?
    && Encode(v, bounded).text == EncodeItems(v, i, bounded).text + (Comma(i) + J.RenderItems(items))
  }

  lemma {:induction false} ItemsFrom(v: Json, i: nat, bounded: bool) returns (items: J.Items)
    requires v.List? && i < |v.items| && ScalarsOk(v) && Encode(v, bounded).Encoded?
    ensures ItemsText(v, i, bounded, items)
    decreases v, 0, |v.items| - i
  {
    ListEncoded(v, i, bounded);
    hide Encode, EncodeItems, ScalarsOk, ItemsText, Means, J.Render, J.WellFormed;
    var value := EncodingMeans(v.items[i], bounded);
    if i == |v.items| - 1 {
      items := LastItemsText(v, bounded, value);
    } else {
      var rest := ItemsFrom(v, i + 1, bounded);
      items := MoreItemsText(v, i, bounded, value, rest);
    }
  }

  lemma ListEncoded(v: Json, i: nat, bounded: bool)
    requires v.List? && i < |v.items| && ScalarsOk(v) && Encode(v, bounded).Encoded?
    ensures ScalarsOk(v.items[i]) && Encode(v.items[i], bounded).Encoded?
  {
    ItemsFront(v, i, |v.items|, bounded);
    assert v.items[i] in v.items;
  }

  lemma LastItemsText(v: Json, bounded: bool, value: J.Value) returns (items: J.Items)
    requires v.List? && v.items != [] && Encode(v, bounded).Encoded? && J.WellFormed(value)
    requires var last := v.items[|v.items| - 1];
             && Encode(last, bounded).Encoded? && J.Render(value) == Encode(last, bounded).text
             && Means(value, last, bounded)
    ensures ItemsText(v, |v.items| - 1, bounded, items)
  {
    var p := J.Padded([], value, []);
    items := J.LastItem(p);
    NoPadding(p);
    LastItemText(v, bounded);
    hide Encode, EncodeItems, Means, J.Render, J.WellFormed, J.Pad;
  }

  lemma MoreItemsText(v: Json, i: nat, bounded: bool, value: J.Value, rest: J.Items) returns (items: J.Items)
    requires v.List? && i < |v.items| - 1 && J.WellFormed(value) && ItemsText(v, i + 1, bounded, rest)
    requires Encode(v.items[i], bounded).Encoded? && J.Render(value) == Encode(v.items[i], bounded).text
    requires Means(value, v.items[i], bounded)
    ensures ItemsText(v, i, bounded, items)
  {
    var p := J.Padded([], value, []);
    items := J.MoreItems(p, rest);
    NoPadding(p);
    ItemText(v, i, bounded);
    hide Encode, EncodeItems, Means, J.Render, J.WellFormed, J.Pad;
    assert Comma(i + 1) == [',' as int];
    assert J.RenderItems(items) == J.Render(value) + ([',' as int] + J.RenderItems(rest));
    Shift(EncodeItems(v, i, bounded).text, Comma(i), J.Render(value), [',' as int] + J.RenderItems(rest));
  }

  lemma ItemText(v: Json, i: nat, bounded: bool)
    requires v.List? && i < |v.items| && EncodeItems(v, i + 1, bounded).Encoded?
    ensures EncodeItems(v, i, bounded).Encoded? && Encode(v.items[i], bounded).Encoded?
    ensures EncodeItems(v, i + 1, bounded).text ==
            EncodeItems(v, i, bounded).text + (Comma(i) + Encode(v.items[i], bounded).text)
  {
    hide Encode;
  }

  lemma NoPadding(p: J.Padded)
    requires p.before == [] && p.after == []
    ensures J.Pad(p, J.Render(p.value)) == J.Render(p.value) && J.Spaces([])
  {
  }

  lemma LastItemText(v: Json, bounded: bool)
    requires v.List? && v.items != [] && Encode(v, bounded).Encoded?
    ensures var n := |v.items|;
            && EncodeItems(v, n - 1, bounded).Encoded? && Encode(v.items[n - 1], bounded).Encoded?
            && Encode(v, bounded).text == EncodeItems(v, n - 1, bounded).text
                                          + (Comma(n - 1) + (Encode(v.items[n - 1], bounded).text + [']' as int]))
  {
  }

  /** The encoding from field `i` on is the text of `ms`. */
  ghost predicate MembersText(v: Json, i: nat, bounded: bool, ms: J.Members)
    requires v.Object? && i < |v.fields|
  {
    && J.MembersOk(ms) && MembersMean(ms, v, i, bounded)
    && Encode(v, bounded).Encoded? && EncodeFields(v, i, bounded).Encoded?
    && Encode(v, bounded).text == EncodeFields(v, i, bounded).text + (Comma(i) + J.RenderMembers(ms))
  }

  lemma {:induction false} MembersFrom(v: Json, i: nat, bounded: bool) returns (ms: J.Members)
    requires v.Object? && i < |v.fields| && ScalarsOk(v) && Encode(v, bounded).Encoded?
    ensures MembersText(v, i, bounded, ms)
    decreases v, 0, |v.fields| - i
  {
    ObjectEncoded(v, i, bounded);
    hide Encode, EncodeFields, ScalarsOk, MembersText, Means, J.Render, J.WellFormed, MemberFor;
    var value := EncodingMeans(v.fields[i].value, bounded);
    var m := KeyedMember(v.fields[i].key, value);
    if i == |v.fields| - 1 {
      ms := J.LastMember(m);
      LastMembersText(v, bounded, m);
    } else {
      var rest := MembersFrom(v, i + 1, bounded);
      ms := J.MoreMembers(m, rest);
      MoreMembersText(v, i, bounded, m, rest);
    }
  }

  lemma ObjectEncoded(v: Json, i: nat, bounded: bool)
    requires v.Object? && i < |v.fields| && ScalarsOk(v) && Encode(v, bounded).Encoded?
    ensures ScalarsOk(v.fields[i].value) && Encode(v.fields[i].value, bounded).Encoded?
  {
    FieldsFront(v, i, |v.fields|, bounded);
    assert v.fields[i] in v.fields;
  }

  /** A well-formed member that spells the key and the value without white space. */
  ghost predicate MemberFor(m: J.Member, key: Text, value: J.Value) {
    && MemberMeans(m, key) && m.padded.value == value && J.Spaces([]) && J.WellFormed(value)
    && J.Entry(m, J.Render(value)) == EncodeString(key) + ([':' as int] + J.Render(value))
  }

  lemma KeyedMember(key: Text, value: J.Value) returns (m: J.Member)
    requires J.WellFormed(value)
    ensures MemberFor(m, key, value)
  {
    hide J.Render, J.WellFormed, EncodeString, J.RenderString, J.PiecesOk, J.Decode;
    var ps := StringSpelled(key);
    m := J.Member([], ps, [], J.Padded([], value, []));
    NoPadding(m.padded);
    MemberText(m);
  }

  lemma LastMembersText(v: Json, bounded: bool, m: J.Member)
    requires v.Object? && v.fields != [] && Encode(v, bounded).Encoded?
    requires var last := v.fields[|v.fields| - 1];
             && MemberFor(m, last.key, m.padded.value) && Encode(last.value, bounded).Encoded?
             && J.Render(m.padded.value) == Encode(last.value, bounded).text
             && Means(m.padded.value, last.value, bounded)
    ensures MembersText(v, |v.fields| - 1, bounded, J.LastMember(m))
  {
    LastFieldText(v, bounded);
    hide Encode, EncodeFields, Means, J.Render, J.WellFormed, EncodeString, J.Entry, J.PiecesOk, J.Decode;
  }

  lemma MoreMembersText(v: Json, i: nat, bounded: bool, m: J.Member, rest: J.Members)
    requires v.Object? && i < |v.fields| - 1 && MembersText(v, i + 1, bounded, rest)
    requires MemberFor(m, v.fields[i].key, m.padded.value) && Encode(v.fields[i].value, bounded).Encoded?
    requires J.Render(m.padded.value) == Encode(v.fields[i].value, bounded).text
    requires Means(m.padded.value, v.fields[i].value, bounded)
    ensures MembersText(v, i, bounded, J.MoreMembers(m, rest))
  {
    FieldsFront(v, i, i + 1, bounded);
    FieldText(v, i, bounded);
    MembersOkMore(m, rest);
    var ms := J.MoreMembers(m, rest);
    hide Encode, EncodeFields, Means, J.Render, J.WellFormed, EncodeString, J.Entry, J.PiecesOk, J.Decode, J.MembersOk;
    var entry := J.Entry(m, J.Render(m.padded.value));
    assert Comma(i + 1) == [',' as int];
    assert J.RenderMembers(ms) == entry + ([',' as int] + J.RenderMembers(rest));
    Shift(EncodeFields(v, i, bounded).text, Comma(i), entry, [',' as int] + J.RenderMembers(rest));
  }

  lemma MembersOkMore(m: J.Member, rest: J.Members)
    requires exists key :: MemberFor(m, key, m.padded.value)
    requires J.MembersOk(rest)
    ensures J.MembersOk(J.MoreMembers(m, rest))
  {
  }

  lemma Shift(front: Text, comma: Text, entry: Text, tail: Text)
    ensures front + (comma + entry) + tail == front + (comma + (entry + tail))
  {
  }

  lemma MemberText(m: J.Member)
    requires m.before == [] && m.after == [] && m.padded.before == [] && m.padded.after == []
    ensures J.Entry(m, J.Render(m.padded.value)) == J.RenderString(m.key) + ([':' as int] + J.Render(m.padded.value))
  {
    hide J.Render, J.RenderString;
  }

  lemma FieldText(v: Json, i: nat, bounded: bool)
    requires v.Object? && i < |v.fields|
    requires EncodeFields(v, i, bounded).Encoded? && Encode(v.fields[i].value, bounded).Encoded?
    ensures EncodeFields(v, i + 1, bounded).Encoded?
    ensures EncodeFields(v, i + 1, bounded).text ==
            EncodeFields(v, i, bounded).text
            + (Comma(i) + (EncodeString(v.fields[i].key) + ([':' as int] + Encode(v.fields[i].value, bounded).text)))
  {
    hide Encode, EncodeString;
  }

  lemma LastFieldText(v: Json, bounded: bool)
    requires v.Object? && v.fields != [] && Encode(v, bounded).Encoded?
    ensures var n := |v.fields|;
            && EncodeFields(v, n - 1, bounded).Encoded? && Encode(v.fields[n - 1].value, bounded).Encoded?
            && Encode(v, bounded).text ==
               EncodeFields(v, n - 1, bounded).text
               + (Comma(n - 1) + (EncodeString(v.fields[n - 1].key)
                                  + ([':' as int] + Encode(v.fields[n - 1].value, bounded).text)) + ['}' as int])
  {
    hide EncodeString;
    FieldsFront(v, |v.fields| - 1, |v.fields|, bounded);
    FieldText(v, |v.fields| - 1, bounded);
  }
}
