/** UTF-8 text is the encodings of its scalar values, one after another. */
module Utf8Text {
  import opened Bytes
  import opened Utf8

  /** A code point that is not a surrogate. */
  predicate Scalar(cp: nat) {
    cp < 0xd800 || 0xe000 <= cp < 0x11_0000
  }

  predicate Scalars(cps: seq<nat>) {
    forall i | 0 <= i < |cps| :: Scalar(cps[i])
  }

  function EncodeAll(cps: seq<nat>): Text
    requires Scalars(cps)
  {
    if cps == [] then [] else Encode(cps[0]) + EncodeAll(cps[1..])
  }

  // ----- six bits at a time -----

  lemma Six(high: nat, low: nat)
    requires low < 0x40
    ensures (high * 0x40 + low) / 0x40 == high && (high * 0x40 + low) % 0x40 == low
  {
  }

  lemma Twelve(cp: nat)
    ensures cp / 0x1000 == cp / 0x40 / 0x40
  {
  }

  lemma Eighteen(cp: nat)
    ensures cp / 0x4_0000 == cp / 0x40 / 0x40 / 0x40
  {
  }

  /** The bytes of a longer encoding, by the groups of six bits. */
  lemma EncodeTwo(a: nat, b: nat)
    requires 2 <= a < 0x20 && b < 0x40
    ensures 0x80 <= a * 0x40 + b < 0x800 && Encode(a * 0x40 + b) == [0xc0 + a, 0x80 + b]
  {
    Six(a, b);
  }

  lemma EncodeThree(a: nat, b: nat, c: nat)
    requires a < 0x10 && b < 0x40 && c < 0x40 && (a > 0 || b >= 0x20)
    ensures var cp := (a * 0x40 + b) * 0x40 + c;
            0x800 <= cp < 0x1_0000 && Encode(cp) == [0xe0 + a, 0x80 + b, 0x80 + c]
  {
    Twelve((a * 0x40 + b) * 0x40 + c);
    Six(a * 0x40 + b, c);
    Six(a, b);
  }

  lemma EncodeFour(a: nat, b: nat, c: nat, d: nat)
    requires b < 0x40 && c < 0x40 && d < 0x40 && (a > 0 || b >= 0x10) && (a < 4 || (a == 4 && b < 0x10))
    ensures var cp := ((a * 0x40 + b) * 0x40 + c) * 0x40 + d;
            0x1_0000 <= cp < 0x11_0000 && Encode(cp) == [0xf0 + a, 0x80 + b, 0x80 + c, 0x80 + d]
  {
    var cp := ((a * 0x40 + b) * 0x40 + c) * 0x40 + d;
    Eighteen(cp);
    Twelve(cp);
    Six((a * 0x40 + b) * 0x40 + c, d);
    Six(a * 0x40 + b, c);
    Six(a, b);
  }

  lemma Groups(cp: nat)
    ensures cp == (cp / 0x40) * 0x40 + cp % 0x40 && cp % 0x40 < 0x40
  {
  }

  // ----- one rune -----

  lemma TwoRead(cp: nat, rest: Text)
    requires 0x80 <= cp < 0x800
    ensures |Encode(cp)| == 2 && RuneWidth(Encode(cp) + rest) == 2
  {
    hide RuneWidth, Encode;
    Groups(cp);
    EncodeTwo(cp / 0x40, cp % 0x40);
    ReadTwo(cp / 0x40, cp % 0x40, rest);
  }

  lemma ThreeRead(cp: nat, rest: Text)
    requires 0x800 <= cp < 0x1_0000 && Scalar(cp)
    ensures |Encode(cp)| == 3 && RuneWidth(Encode(cp) + rest) == 3
  {
    hide RuneWidth, Encode;
    var h := cp / 0x40;
    Groups(cp);
    Groups(h);
    EncodeThree(h / 0x40, h % 0x40, cp % 0x40);
    ReadThree(h / 0x40, h % 0x40, cp % 0x40, rest);
  }

  lemma FourRead(cp: nat, rest: Text)
    requires 0x1_0000 <= cp < 0x11_0000
    ensures |Encode(cp)| == 4 && RuneWidth(Encode(cp) + rest) == 4
  {
    hide RuneWidth, Encode;
    var h, k := cp / 0x40, cp / 0x40 / 0x40;
    Groups(cp);
    Groups(h);
    Groups(k);
    EncodeFour(k / 0x40, k % 0x40, h % 0x40, cp % 0x40);
    ReadFour(k / 0x40, k % 0x40, h % 0x40, cp % 0x40, rest);
  }

  /** An encoded scalar value is read whole, whatever follows. */
  lemma RuneRead(cp: nat, rest: Text)
    requires Scalar(cp)
    ensures RuneWidth(Encode(cp) + rest) == |Encode(cp)|
  {
    if cp < 0x80 { return; }
    hide RuneWidth, Encode;
    if cp < 0x800 { TwoRead(cp, rest); } else if cp < 0x1_0000 { ThreeRead(cp, rest); } else { FourRead(cp, rest); }
  }

  lemma ReadTwo(a: nat, b: nat, rest: Text)
    requires 2 <= a < 0x20 && b < 0x40
    ensures RuneWidth([0xc0 + a, 0x80 + b] + rest) == 2
  {
  }

  lemma ReadThree(a: nat, b: nat, c: nat, rest: Text)
    requires a < 0x10 && b < 0x40 && c < 0x40 && (a > 0 || b >= 0x20) && (a == 0xd ==> b < 0x20)
    ensures RuneWidth([0xe0 + a, 0x80 + b, 0x80 + c] + rest) == 3
  {
  }

  lemma ReadFour(a: nat, b: nat, c: nat, d: nat, rest: Text)
    requires b < 0x40 && c < 0x40 && d < 0x40 && (a > 0 || b >= 0x10) && (a < 4 || (a == 4 && b < 0x10))
    ensures RuneWidth([0xf0 + a, 0x80 + b, 0x80 + c, 0x80 + d] + rest) == 4
  {
  }

  /** Whatever is read as a rune is the encoding of a scalar value. */
  lemma RuneSpelled(s: Text) returns (cp: nat)
    requires s != [] && RuneWidth(s) != 0
    ensures Scalar(cp) && s[..RuneWidth(s)] == Encode(cp)
  {
    var w := RuneWidth(s);
    if w == 1 {
      cp := s[0];
    } else if w == 2 {
      var a: nat, b: nat := s[0] - 0xc0, s[1] - 0x80;
      cp := a * 0x40 + b;
      EncodeTwo(a, b);
    } else if w == 3 {
      var a: nat, b: nat, c: nat := s[0] - 0xe0, s[1] - 0x80, s[2] - 0x80;
      cp := (a * 0x40 + b) * 0x40 + c;
      EncodeThree(a, b, c);
    } else {
      var a: nat, b: nat, c: nat, d: nat := s[0] - 0xf0, s[1] - 0x80, s[2] - 0x80, s[3] - 0x80;
      cp := ((a * 0x40 + b) * 0x40 + c) * 0x40 + d;
      EncodeFour(a, b, c, d);
    }
    hide Encode;
  }

  // ----- texts -----

  lemma {:induction false} EncodedIsValid(cps: seq<nat>)
    requires Scalars(cps)
    ensures Valid(EncodeAll(cps)) && RuneCount(EncodeAll(cps)) == |cps|
  {
    if cps != [] {
      var rest := EncodeAll(cps[1..]);
      RuneRead(cps[0], rest);
      EncodedIsValid(cps[1..]);
      hide RuneWidth, Encode;
      assert (Encode(cps[0]) + rest)[|Encode(cps[0])|..] == rest;
    }
  }

  lemma {:induction false} ValidIsEncoded(s: Text) returns (cps: seq<nat>)
    requires Valid(s)
    ensures Scalars(cps) && s == EncodeAll(cps)
    decreases |s|
  {
    hide RuneWidth, Encode;
    cps := [];
    if s != [] {
      var w := RuneWidth(s);
      var cp := RuneSpelled(s);
      var more := ValidIsEncoded(s[w..]);
      cps := [cp] + more;
      assert cps[1..] == more;
      assert s == s[..w] + s[w..];
    }
  }

  /** Text is accepted exactly when it encodes scalar values, and it has as many runes as it encodes. */
  lemma ValidExactly(s: Text)
    ensures Valid(s) <==> exists cps: seq<nat> | Scalars(cps) :: s == EncodeAll(cps)
    ensures forall cps: seq<nat> | Scalars(cps) && s == EncodeAll(cps) :: RuneCount(s) == |cps|
  {
    hide RuneCount, EncodeAll;
    if Valid(s) { var cps := ValidIsEncoded(s); }
    forall cps: seq<nat> | Scalars(cps) && s == EncodeAll(cps) ensures Valid(s) && RuneCount(s) == |cps| {
      EncodedIsValid(cps);
    }
  }

  // ----- cutting and joining -----

  /** A byte that starts no rune. */
  predicate Continues(b: Byte) {
    0x80 <= b <= 0xbf
  }

  /** The first rune is the same whatever comes after it, and its other bytes start no rune. */
  lemma RuneStands(s: Text, n: nat)
    requires s != [] && RuneWidth(s) != 0 && n <= |s|
    ensures RuneWidth(s) <= n ==> RuneWidth(s[..n]) == RuneWidth(s)
    ensures 0 < n < RuneWidth(s) ==> Continues(s[n])
  {
  }

  lemma RuneJoins(a: Text, b: Text)
    requires a != [] && RuneWidth(a) != 0
    ensures RuneWidth(a + b) == RuneWidth(a)
  {
    assert (a + b)[..|a|] == a;
    assert |a| > 1 ==> (a + b)[1] == a[1];
    assert |a| > 2 ==> (a + b)[2] == a[2];
    assert |a| > 3 ==> (a + b)[3] == a[3];
  }

  /** Text cut before the start of a rune is text on both sides. */
  lemma {:induction false} CutText(s: Text, n: nat)
    requires Valid(s) && n <= |s| && (n < |s| ==> !Continues(s[n]))
    ensures Valid(s[..n]) && Valid(s[n..])
    decreases |s|
  {
    if n > 0 {
      var w := RuneWidth(s);
      RuneStands(s, n);
      hide RuneWidth, Continues;
      CutText(s[w..], n - w);
      assert s[..n][w..] == s[w..][..n - w] && s[n..] == s[w..][n - w..];
    } else {
      assert s[n..] == s;
    }
  }

  lemma {:induction false} JoinText(a: Text, b: Text)
    requires Valid(a) && Valid(b)
    ensures Valid(a + b)
    decreases |a|
  {
    if a == [] {
      assert a + b == b;
    } else {
      var w := RuneWidth(a);
      RuneJoins(a, b);
      hide RuneWidth;
      JoinText(a[w..], b);
      assert (a + b)[w..] == a[w..] + b;
    }
  }

  lemma {:induction false} AsciiText(s: Text)
    requires forall i | 0 <= i < |s| :: s[i] < 0x80
    ensures Valid(s)
    decreases |s|
  {
    if s != [] { AsciiText(s[1..]); }
  }

  /** What stands before an ASCII byte is text, with and without it. */
  lemma CutAfterAscii(s: Text, n: nat)
    requires Valid(s) && n < |s| && s[n] < 0x80
    ensures Valid(s[..n]) && Valid(s[..n + 1])
  {
    CutText(s, n);
    AsciiText([s[n]]);
    JoinText(s[..n], [s[n]]);
    hide Valid;
    assert s[..n + 1] == s[..n] + [s[n]];
  }
}
