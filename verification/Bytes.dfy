/** A value that may be missing. */
module Wrappers {
  datatype Option<+T> = None | Some(value: T)
}

/** Bytes, byte strings and the UTF-8 decoding rules shared by the wire formats. */
module Bytes {

  type Byte = b: int | 0 <= b < 256

  type Text = seq<Byte>

  /** Text `t` stands in `s` at position `i`. */
  predicate At(s: Text, i: nat, t: Text) {
    i + |t| <= |s| && s[i..i + |t|] == t
  }

  lemma AtConcat(s: Text, i: nat, a: Text, b: Text)
    ensures At(s, i, a + b) <==> At(s, i, a) && At(s, i + |a|, b)
  {
    if i + |a| + |b| <= |s| {
      var w := s[i..i + |a| + |b|];
      assert w[..|a|] == s[i..i + |a|];
      assert w[|a|..] == s[i + |a|..i + |a| + |b|];
      if w == a + b {
        assert w[..|a|] == a && w[|a|..] == b;
      }
      if w[..|a|] == a && w[|a|..] == b {
        assert w == w[..|a|] + w[|a|..];
      }
    }
  }

  predicate IsDigit(b: Byte) {
    '0' as int <= b <= '9' as int
  }

  /** The value of one hexadecimal digit, or -1. */
  function HexDigit(b: Byte): (d: int)
    ensures -1 <= d < 16
  {
    if '0' as int <= b <= '9' as int then b - '0' as int
    else if 'a' as int <= b <= 'f' as int then b - 'a' as int + 10
    else if 'A' as int <= b <= 'F' as int then b - 'A' as int + 10
    else -1
  }

  function HexChar(d: nat): (b: Byte)
    requires d < 16
    ensures HexDigit(b) == d
  {
    if d < 10 then '0' as int + d else 'a' as int + d - 10
  }

  function DecimalValue(d: Text): nat
    requires forall i | 0 <= i < |d| :: IsDigit(d[i])
  {
    if d == [] then 0
    else
      assert IsDigit(d[|d| - 1]);
      10 * DecimalValue(d[..|d| - 1]) + (d[|d| - 1] - '0' as int)
  }
}

/** UTF-8 as in RFC 3629 section 4, read one rune at a time. */
module Utf8 {
  import opened Bytes

  predicate Continuation(s: Text, i: nat, lo: Byte, hi: Byte) {
    i < |s| && lo <= s[i] <= hi
  }

  /** Bytes taken by the first rune of `s`, or 0 when `s` does not start with a valid encoding. */
  function RuneWidth(s: Text): (w: nat)
    requires s != []
    ensures w <= 4 && w <= |s|
  {
    var b := s[0];
    if b < 0x80 then 1
    else if 0xc2 <= b <= 0xdf then
      if Continuation(s, 1, 0x80, 0xbf) then 2 else 0
    else if 0xe0 <= b <= 0xef then
      var lo := if b == 0xe0 then 0xa0 else 0x80;
      var hi := if b == 0xed then 0x9f else 0xbf;
      if Continuation(s, 1, lo, hi) && Continuation(s, 2, 0x80, 0xbf) then 3 else 0
    else if 0xf0 <= b <= 0xf4 then
      var lo := if b == 0xf0 then 0x90 else 0x80;
      var hi := if b == 0xf4 then 0x8f else 0xbf;
      if Continuation(s, 1, lo, hi) && Continuation(s, 2, 0x80, 0xbf) && Continuation(s, 3, 0x80, 0xbf)
      then 4 else 0
    else 0
  }

  /** Bytes consumed by decoding one rune; an invalid byte counts as one rune. */
  function RuneStep(s: Text): (w: nat)
    requires s != []
    ensures 1 <= w <= 4 && w <= |s|
  {
    if RuneWidth(s) == 0 then 1 else RuneWidth(s)
  }

  predicate Valid(s: Text)
    decreases |s|
  {
    s == [] || (RuneWidth(s) != 0 && Valid(s[RuneWidth(s)..]))
  }

  function RuneCount(s: Text): (n: nat)
    ensures n <= |s|
    decreases |s|
  {
    if s == [] then 0 else 1 + RuneCount(s[RuneStep(s)..])
  }

  /** The encoding of one code point. */
  function Encode(cp: nat): (s: Text)
    requires cp < 0x110000
    ensures 1 <= |s| <= 4
  {
    if cp < 0x80 then [cp]
    else if cp < 0x800 then [0xc0 + cp / 0x40, 0x80 + cp % 0x40]
    else if cp < 0x10000 then [0xe0 + cp / 0x1000, 0x80 + cp / 0x40 % 0x40, 0x80 + cp % 0x40]
    else [0xf0 + cp / 0x40000, 0x80 + cp / 0x1000 % 0x40, 0x80 + cp / 0x40 % 0x40, 0x80 + cp % 0x40]
  }
}
