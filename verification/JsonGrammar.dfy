/**
 The language accepted by the strict scanner, stated without any scanning: a
 document is a tree, `Render` spells the tree out, and a text is a JSON document
 (RFC 8259 sections 2 to 7) exactly when some well-formed tree renders to it.
 White space is part of the tree, so every spelling of a document has one.
 */
module JsonGrammar {
  import opened Bytes
  import Utf8

  const MAX_DOCUMENT_BYTES: nat := 1_048_576
  const MAX_NESTING_DEPTH: nat := 32
  const MAX_TOKENS: nat := 10_000
  const MAX_FIELD_NAME_BYTES: nat := 64
  const MAX_SCALAR_BYTES: nat := 8_192
  const MAX_SCALAR_CHARS: nat := 8_192
  const MAX_NUMBER_CHARS: nat := 128
  const MAX_MEMBERS: nat := 16

  const QUOTE: Byte := 0x22
  const BACKSLASH: Byte := 0x5c

  predicate IsSpace(b: Byte) {
    b == 0x20 || b == 0x09 || b == 0x0a || b == 0x0d
  }

  predicate Spaces(s: Text) {
    forall i | 0 <= i < |s| :: IsSpace(s[i])
  }

  // ----- strings -----

  /** One unit of a string literal between its quotes. */
  datatype Piece =
    | Raw(b: Byte)
    | Short(c: Byte)
    | Unit(hex: Text)
    | Pair(high: Text, low: Text)

  predicate IsShort(c: Byte) {
    c == 0x22 || c == 0x5c || c == '/' as int || c == 'b' as int || c == 'f' as int
    || c == 'n' as int || c == 'r' as int || c == 't' as int
  }

  predicate IsHex4(h: Text) {
    |h| == 4 && forall i | 0 <= i < 4 :: HexDigit(h[i]) >= 0
  }

  function Hex4Value(h: Text): (v: nat)
    requires IsHex4(h)
    ensures v < 0x10000
  {
    0x1000 * HexDigit(h[0]) + 0x100 * HexDigit(h[1]) + 0x10 * HexDigit(h[2]) + HexDigit(h[3])
  }

  predicate IsHigh(v: nat) { 0xd800 <= v <= 0xdbff }

  predicate IsLow(v: nat) { 0xdc00 <= v <= 0xdfff }

  predicate PieceOk(p: Piece) {
    match p
    case Raw(b) => b >= 0x20 && b != 0x22 && b != 0x5c
    case Short(c) => IsShort(c)
    case Unit(h) => IsHex4(h) && !IsHigh(Hex4Value(h)) && !IsLow(Hex4Value(h))
    case Pair(h, l) => IsHex4(h) && IsHex4(l) && IsHigh(Hex4Value(h)) && IsLow(Hex4Value(l))
  }

  function RenderPiece(p: Piece): (s: Text)
    ensures |s| >= 1
  {
    match p
    case Raw(b) => [b]
    case Short(c) => [0x5c, c]
    case Unit(h) => [0x5c, 'u' as int] + h
    case Pair(h, l) => [0x5c, 'u' as int] + (h + ([0x5c, 'u' as int] + l))
  }

  predicate PiecesOk(ps: seq<Piece>) {
    forall i | 0 <= i < |ps| :: PieceOk(ps[i])
  }

  function RenderPieces(ps: seq<Piece>): Text {
    if ps == [] then [] else RenderPiece(ps[0]) + RenderPieces(ps[1..])
  }

  function ShortValue(c: Byte): Byte {
    if c == 'b' as int then 0x08
    else if c == 'f' as int then 0x0c
    else if c == 'n' as int then 0x0a
    else if c == 'r' as int then 0x0d
    else if c == 't' as int then 0x09
    else c
  }

  function PairValue(high: nat, low: nat): nat
    requires IsHigh(high) && IsLow(low)
  {
    0x10000 + (high - 0xd800) * 0x400 + (low - 0xdc00)
  }

  function DecodePiece(p: Piece): Text
    requires PieceOk(p)
  {
    match p
    case Raw(b) => [b]
    case Short(c) => [ShortValue(c)]
    case Unit(h) => Utf8.Encode(Hex4Value(h))
    case Pair(h, l) => Utf8.Encode(PairValue(Hex4Value(h), Hex4Value(l)))
  }

  /** The UTF-8 text a string literal denotes. */
  function Decode(ps: seq<Piece>): Text
    requires PiecesOk(ps)
  {
    if ps == [] then [] else DecodePiece(ps[0]) + Decode(ps[1..])
  }

  function RenderString(ps: seq<Piece>): Text {
    [0x22] + RenderPieces(ps) + [0x22]
  }

  // ----- numbers -----

  datatype Exponent = NoExponent | Exponent(letter: Byte, sign: Text, digits: Text)

  datatype Numeral = Numeral(minus: bool, whole: Text, fraction: Text, exponent: Exponent)

  predicate Digits(s: Text) {
    forall i | 0 <= i < |s| :: IsDigit(s[i])
  }

  predicate NumeralOk(n: Numeral) {
    && Digits(n.whole) && |n.whole| >= 1 && (n.whole[0] == '0' as int ==> |n.whole| == 1)
    && Digits(n.fraction)
    && (n.exponent.Exponent? ==>
          && (n.exponent.letter == 'e' as int || n.exponent.letter == 'E' as int)
          && (n.exponent.sign == [] || n.exponent.sign == ['+' as int] || n.exponent.sign == ['-' as int])
          && Digits(n.exponent.digits) && |n.exponent.digits| >= 1)
  }

  function RenderMinus(n: Numeral): Text {
    if n.minus then ['-' as int] else []
  }

  function RenderFraction(n: Numeral): Text {
    if n.fraction == [] then [] else ['.' as int] + n.fraction
  }

  function RenderExponent(n: Numeral): Text {
    if n.exponent.NoExponent? then [] else [n.exponent.letter] + n.exponent.sign + n.exponent.digits
  }

  function RenderNumeral(n: Numeral): Text {
    RenderMinus(n) + (n.whole + (RenderFraction(n) + RenderExponent(n)))
  }

  // ----- values -----

  datatype Word = True | False | Null

  const WORD_TRUE: Text := ['t' as int, 'r' as int, 'u' as int, 'e' as int]
  const WORD_FALSE: Text := ['f' as int, 'a' as int, 'l' as int, 's' as int, 'e' as int]
  const WORD_NULL: Text := ['n' as int, 'u' as int, 'l' as int, 'l' as int]

  function Spell(w: Word): (s: Text)
  {
    match w
    case True => WORD_TRUE
    case False => WORD_FALSE
    case Null => WORD_NULL
  }

  datatype Value =
    | Literal(word: Word)
    | Number(numeral: Numeral)
    | String(pieces: seq<Piece>)
    | EmptyArray(gap: Text)
    | Array(items: Items)
    | EmptyObject(gap: Text)
    | Object(members: Members)

  /** A value with the white space around it. */
  datatype Padded = Padded(before: Text, value: Value, after: Text)

  datatype Items = LastItem(item: Padded) | MoreItems(item: Padded, rest: Items)

  datatype Member = Member(before: Text, key: seq<Piece>, after: Text, padded: Padded)

  datatype Members = LastMember(member: Member) | MoreMembers(member: Member, rest: Members)

  predicate WellFormed(v: Value) {
    match v
    case Literal(_) => true
    case Number(n) => NumeralOk(n)
    case String(ps) => PiecesOk(ps)
    case EmptyArray(gap) => Spaces(gap)
    case Array(items) => ItemsOk(items)
    case EmptyObject(gap) => Spaces(gap)
    case Object(ms) => MembersOk(ms)
  }

  predicate ItemsOk(items: Items) {
    && Spaces(items.item.before) && WellFormed(items.item.value) && Spaces(items.item.after)
    && (items.MoreItems? ==> ItemsOk(items.rest))
  }

  predicate MembersOk(ms: Members) {
    && Spaces(ms.member.before) && PiecesOk(ms.member.key) && Spaces(ms.member.after)
    && Spaces(ms.member.padded.before) && WellFormed(ms.member.padded.value) && Spaces(ms.member.padded.after)
    && (ms.MoreMembers? ==> MembersOk(ms.rest))
  }

  function Render(v: Value): Text {
    match v
    case Literal(w) => Spell(w)
    case Number(n) => RenderNumeral(n)
    case String(ps) => RenderString(ps)
    case EmptyArray(gap) => ['[' as int] + (gap + [']' as int])
    case Array(items) => ['[' as int] + RenderItems(items)
    case EmptyObject(gap) => ['{' as int] + (gap + ['}' as int])
    case Object(ms) => ['{' as int] + RenderMembers(ms)
  }

  /** The text of a padded value, given the text of the value. */
  function Pad(p: Padded, text: Text): Text {
    p.before + (text + p.after)
  }

  /** The items of an array up to and including its closing bracket. */
  function RenderItems(items: Items): Text {
    match items
    case LastItem(p) => Pad(p, Render(p.value)) + [']' as int]
    case MoreItems(p, rest) => Pad(p, Render(p.value)) + ([',' as int] + RenderItems(rest))
  }

  /** The text of a member, given the text of its value. */
  function Entry(m: Member, text: Text): Text {
    m.before + (RenderString(m.key) + (m.after + ([':' as int] + Pad(m.padded, text))))
  }

  /** The members of an object up to and including its closing brace. */
  function RenderMembers(ms: Members): Text {
    match ms
    case LastMember(m) => Entry(m, Render(m.padded.value)) + ['}' as int]
    case MoreMembers(m, rest) => Entry(m, Render(m.padded.value)) + ([',' as int] + RenderMembers(rest))
  }

  // ----- keys and limits -----

  function KeyList(ms: Members): seq<Text>
    requires MembersOk(ms)
  {
    match ms
    case LastMember(m) => [Decode(m.key)]
    case MoreMembers(m, rest) => [Decode(m.key)] + KeyList(rest)
  }

  predicate NoDuplicates(keys: seq<Text>) {
    forall i, j | 0 <= i < j < |keys| :: keys[i] != keys[j]
  }

  /** No object, at any depth, names two members alike once escapes are undone. */
  predicate DistinctKeys(v: Value)
    requires WellFormed(v)
  {
    match v
    case Array(items) => ItemsDistinct(items)
    case Object(ms) => NoDuplicates(KeyList(ms)) && MembersDistinct(ms)
    case _ => true
  }

  predicate ItemsDistinct(items: Items)
    requires ItemsOk(items)
  {
    DistinctKeys(items.item.value) && (items.MoreItems? ==> ItemsDistinct(items.rest))
  }

  predicate MembersDistinct(ms: Members)
    requires MembersOk(ms)
  {
    DistinctKeys(ms.member.padded.value) && (ms.MoreMembers? ==> MembersDistinct(ms.rest))
  }

  /** Tokens of a value: one per scalar and per key, two per array or object. */
  function Tokens(v: Value): (n: nat)
    ensures n >= 1
  {
    match v
    case EmptyArray(_) => 2
    case Array(items) => 2 + ItemsTokens(items)
    case EmptyObject(_) => 2
    case Object(ms) => 2 + MembersTokens(ms)
    case _ => 1
  }

  function ItemsTokens(items: Items): (n: nat)
    ensures n >= 1
  {
    match items
    case LastItem(p) => Tokens(p.value)
    case MoreItems(p, rest) => Tokens(p.value) + ItemsTokens(rest)
  }

  function MembersTokens(ms: Members): (n: nat)
    ensures n >= 2
  {
    match ms
    case LastMember(m) => 1 + Tokens(m.padded.value)
    case MoreMembers(m, rest) => 1 + Tokens(m.padded.value) + MembersTokens(rest)
  }

  function MemberCount(ms: Members): nat {
    match ms
    case LastMember(_) => 1
    case MoreMembers(_, rest) => 1 + MemberCount(rest)
  }

  /** Every length, depth and member limit of a value that stands inside `depth` containers. */
  predicate WithinLimits(v: Value, depth: nat)
    requires WellFormed(v)
  {
    match v
    case Literal(_) => true
    case Number(n) => |RenderNumeral(n)| <= 128
    case String(ps) => |Decode(ps)| <= 8_192 && Utf8.RuneCount(Decode(ps)) <= 8_192
    case EmptyArray(_) => depth < 32
    case Array(items) => depth < 32 && ItemsWithin(items, depth + 1)
    case EmptyObject(_) => depth < 32
    case Object(ms) => depth < 32 && MemberCount(ms) <= 16 && MembersWithin(ms, depth + 1)
  }

  predicate ItemsWithin(items: Items, depth: nat)
    requires ItemsOk(items)
  {
    WithinLimits(items.item.value, depth) && (items.MoreItems? ==> ItemsWithin(items.rest, depth))
  }

  predicate MembersWithin(ms: Members, depth: nat)
    requires MembersOk(ms)
  {
    && |Decode(ms.member.key)| <= 64
    && WithinLimits(ms.member.padded.value, depth)
    && (ms.MoreMembers? ==> MembersWithin(ms.rest, depth))
  }

  predicate PaddedOk(p: Padded) {
    Spaces(p.before) && WellFormed(p.value) && Spaces(p.after)
  }

  /** `data` spells the document `doc`, duplicate-free. */
  predicate IsDocument(data: Text, doc: Padded) {
    PaddedOk(doc) && DistinctKeys(doc.value) && Pad(doc, Render(doc.value)) == data
  }

  predicate DocumentWithinLimits(doc: Padded)
    requires PaddedOk(doc)
  {
    WithinLimits(doc.value, 0) && Tokens(doc.value) <= 10_000
  }
}
