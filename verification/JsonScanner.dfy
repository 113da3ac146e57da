/**
 The strict JSON scanner. The `Scan` functions say what each scanner method does
 to the position and the token count; class `Scanner` does it in place.
 */
module JsonScanner {
  import opened Bytes
  import opened JsonGrammar
  import Utf8

  datatype Failure = FailureNone | FailureProtocol | FailureLimit

  /** Where a scan stops and the tokens counted so far, or why it fails. */
  datatype Scan = Done(index: nat, tokens: nat) | Fail(kind: Failure)

  datatype ScanString = StringDone(index: nat, value: Text) | StringFail(kind: Failure)

  datatype ScannedMember = MemberDone(index: nat, tokens: nat, key: Text) | MemberFail(kind: Failure)

  function SkipSpaces(s: Text, i: nat): (j: nat)
    requires i <= |s|
    ensures i <= j <= |s|
    ensures Spaces(s[i..j])
    ensures j < |s| ==> !IsSpace(s[j])
    decreases |s| - i
  {
    if i < |s| && IsSpace(s[i]) then
      var j := SkipSpaces(s, i + 1);
      assert s[i..j] == [s[i]] + s[i + 1..j];
      j
    else i
  }

  predicate Next(s: Text, i: nat, b: Byte) {
    i < |s| && s[i] == b
  }

  predicate HexAt(s: Text, i: nat) {
    i + 4 <= |s| && IsHex4(s[i..i + 4])
  }

  /** Index just past the escape starting at `i`, if it is one. */
  function EscapeEnd(s: Text, i: nat): (r: int)
    requires i < |s|
    ensures r != -1 ==> i < r <= |s|
  {
    if i + 1 >= |s| then -1
    else if IsShort(s[i + 1]) then i + 2
    else if s[i + 1] != 'u' as int || !HexAt(s, i + 2) then -1
    else
      var v := Hex4Value(s[i + 2..i + 6]);
      if IsHigh(v) then
        if At(s, i + 6, [BACKSLASH, 'u' as int]) && HexAt(s, i + 8) && IsLow(Hex4Value(s[i + 8..i + 12]))
        then i + 12 else -1
      else if IsLow(v) then -1
      else i + 6
  }

  /** Index just past the closing quote, scanning from inside a string literal. */
  function StringEnd(s: Text, i: nat): (r: int)
    requires i <= |s|
    ensures r != -1 ==> i < r <= |s|
    decreases |s| - i
  {
    if i >= |s| then -1
    else if s[i] == QUOTE then i + 1
    else if s[i] == BACKSLASH then
      if EscapeEnd(s, i) == -1 then -1 else StringEnd(s, EscapeEnd(s, i))
    else if s[i] < 0x20 then -1
    else StringEnd(s, i + 1)
  }

  /** What the library's string decoding returns for the text between the quotes. */
  function Unquote(b: Text): Text
    decreases |b|
  {
    if b == [] then []
    else if b[0] != BACKSLASH then [b[0]] + Unquote(b[1..])
    else if |b| < 2 then []
    else if b[1] != 'u' as int then [ShortValue(b[1])] + Unquote(b[2..])
    else if !HexAt(b, 2) then []
    else
      var v := Hex4Value(b[2..6]);
      if IsHigh(v) && HexAt(b, 8) && IsLow(Hex4Value(b[8..12])) then
        Utf8.Encode(PairValue(v, Hex4Value(b[8..12]))) + Unquote(b[12..])
      else Utf8.Encode(v) + Unquote(b[6..])
  }

  predicate StringFits(value: Text, fieldName: bool) {
    if fieldName then |value| <= MAX_FIELD_NAME_BYTES
    else |value| <= MAX_SCALAR_BYTES && Utf8.RuneCount(value) <= MAX_SCALAR_CHARS
  }

  function StringAt(s: Text, i: nat, fieldName: bool): (r: ScanString)
    requires Next(s, i, QUOTE)
    ensures if r.StringDone? then i + 1 < r.index <= |s| else r.kind != FailureNone
  {
    var end := StringEnd(s, i + 1);
    if end == -1 then StringFail(FailureProtocol)
    else
      var value := Unquote(s[i + 1..end - 1]);
      if StringFits(value, fieldName) then StringDone(end, value) else StringFail(FailureLimit)
  }

  function DigitsEnd(s: Text, i: nat): (j: nat)
    requires i <= |s|
    ensures i <= j <= |s|
    ensures Digits(s[i..j])
    ensures j < |s| ==> !IsDigit(s[j])
    decreases |s| - i
  {
    if i < |s| && IsDigit(s[i]) then
      var j := DigitsEnd(s, i + 1);
      assert s[i..j] == [s[i]] + s[i + 1..j];
      j
    else i
  }

  function MinusEnd(s: Text, i: nat): (j: nat)
    requires i <= |s|
    ensures i <= j <= |s|
  {
    if Next(s, i, '-' as int) then i + 1 else i
  }

  function WholeEnd(s: Text, i: nat): (r: int)
    requires i <= |s|
    ensures r != -1 ==> i < r <= |s|
  {
    if i >= |s| || !IsDigit(s[i]) then -1
    else if s[i] == '0' as int then
      if i + 1 < |s| && IsDigit(s[i + 1]) then -1 else i + 1
    else DigitsEnd(s, i)
  }

  function FractionEnd(s: Text, i: nat): (r: int)
    requires i <= |s|
    ensures r != -1 ==> i <= r <= |s|
  {
    if !Next(s, i, '.' as int) then i
    else if i + 1 < |s| && IsDigit(s[i + 1]) then DigitsEnd(s, i + 1)
    else -1
  }

  function SignEnd(s: Text, i: nat): (j: nat)
    requires i <= |s|
    ensures i <= j <= |s|
  {
    if Next(s, i, '+' as int) || Next(s, i, '-' as int) then i + 1 else i
  }

  function ExponentEnd(s: Text, i: nat): (r: int)
    requires i <= |s|
    ensures r != -1 ==> i <= r <= |s|
  {
    if !(Next(s, i, 'e' as int) || Next(s, i, 'E' as int)) then i
    else
      var j := SignEnd(s, i + 1);
      if j < |s| && IsDigit(s[j]) then DigitsEnd(s, j) else -1
  }

  /** Index just past the longest numeral at `i`. */
  function NumeralEnd(s: Text, i: nat): (r: int)
    requires i <= |s|
    ensures r != -1 ==> i < r <= |s|
  {
    var whole := WholeEnd(s, MinusEnd(s, i));
    if whole == -1 then -1
    else
      var fraction := FractionEnd(s, whole);
      if fraction == -1 then -1 else ExponentEnd(s, fraction)
  }

  function Counted(index: nat, tokens: nat): Scan {
    if tokens + 1 > MAX_TOKENS then Fail(FailureLimit) else Done(index, tokens + 1)
  }

  function ScanNumeral(s: Text, i: nat, tokens: nat): (r: Scan)
    requires i <= |s|
    ensures if r.Done? then i < r.index <= |s| else r.kind != FailureNone
  {
    var end := NumeralEnd(s, i);
    if end == -1 then Fail(FailureProtocol)
    else if end - i > MAX_NUMBER_CHARS then Fail(FailureLimit)
    else Counted(end, tokens)
  }

  function ScanLiteral(s: Text, i: nat, word: Text, tokens: nat): (r: Scan)
    requires word != []
    ensures if r.Done? then i < r.index <= |s| else r.kind != FailureNone
  {
    if !At(s, i, word) then Fail(FailureProtocol) else Counted(i + |word|, tokens)
  }

  function ScanText(s: Text, i: nat, tokens: nat): (r: Scan)
    requires Next(s, i, QUOTE)
    ensures if r.Done? then i < r.index <= |s| else r.kind != FailureNone
  {
    if tokens + 1 > MAX_TOKENS then Fail(FailureLimit)
    else
      match StringAt(s, i, false)
      case StringFail(kind) => Fail(kind)
      case StringDone(end, _) => Done(end, tokens + 1)
  }

  function ScanValue(s: Text, i: nat, depth: nat, tokens: nat): (r: Scan)
    requires i <= |s|
    ensures if r.Done? then i < r.index <= |s| else r.kind != FailureNone
    decreases |s| - i, 2
  {
    var j := SkipSpaces(s, i);
    if j >= |s| then Fail(FailureProtocol)
    else if s[j] == '{' as int then ScanObject(s, j, depth + 1, tokens)
    else if s[j] == '[' as int then ScanArray(s, j, depth + 1, tokens)
    else if s[j] == QUOTE then ScanText(s, j, tokens)
    else if s[j] == 't' as int then ScanLiteral(s, j, WORD_TRUE, tokens)
    else if s[j] == 'f' as int then ScanLiteral(s, j, WORD_FALSE, tokens)
    else if s[j] == 'n' as int then ScanLiteral(s, j, WORD_NULL, tokens)
    else ScanNumeral(s, j, tokens)
  }

  function ScanObject(s: Text, i: nat, depth: nat, tokens: nat): (r: Scan)
    requires i < |s|
    ensures if r.Done? then i < r.index <= |s| else r.kind != FailureNone
    decreases |s| - i, 1
  {
    if depth > MAX_NESTING_DEPTH || tokens + 1 > MAX_TOKENS then Fail(FailureLimit)
    else
      var j := SkipSpaces(s, i + 1);
      if Next(s, j, '}' as int) then Counted(j + 1, tokens + 1)
      else ScanMembers(s, j, depth, tokens + 1, {}, 1)
  }

  /** A member name: white space, one token, one string. */
  function ScanKey(s: Text, i: nat, tokens: nat): (r: ScanString)
    requires i <= |s|
    ensures if r.StringDone? then i < r.index <= |s| else r.kind != FailureNone
  {
    var j := SkipSpaces(s, i);
    if !Next(s, j, QUOTE) then StringFail(FailureProtocol)
    else if tokens + 1 > MAX_TOKENS then StringFail(FailureLimit)
    else StringAt(s, j, true)
  }

  function ScanColonValue(s: Text, i: nat, depth: nat, tokens: nat): (r: Scan)
    requires i <= |s|
    ensures if r.Done? then i < r.index <= |s| else r.kind != FailureNone
    decreases |s| - i, 0
  {
    var colon := SkipSpaces(s, i);
    if Next(s, colon, ':' as int) then ScanValue(s, colon + 1, depth, tokens) else Fail(FailureProtocol)
  }

  function ScanMember(s: Text, i: nat, depth: nat, tokens: nat, keys: set<Text>, members: nat): (r: ScannedMember)
    requires i <= |s|
    ensures if r.MemberDone? then i < r.index <= |s| else r.kind != FailureNone
    decreases |s| - i, 0
  {
    match ScanKey(s, i, tokens)
    case StringFail(kind) => MemberFail(kind)
    case StringDone(end, key) =>
      if key in keys then MemberFail(FailureProtocol)
      else if members > MAX_MEMBERS then MemberFail(FailureLimit)
      else
        match ScanColonValue(s, end, depth, tokens + 1)
        case Fail(kind) => MemberFail(kind)
        case Done(after, counted) => MemberDone(after, counted, key)
  }

  function ScanMembers(s: Text, i: nat, depth: nat, tokens: nat, keys: set<Text>, members: nat): (r: Scan)
    requires i <= |s|
    ensures if r.Done? then i < r.index <= |s| else r.kind != FailureNone
    decreases |s| - i, 1
  {
    match ScanMember(s, i, depth, tokens, keys, members)
    case MemberFail(kind) => Fail(kind)
    case MemberDone(after, counted, key) =>
      var k := SkipSpaces(s, after);
      if Next(s, k, '}' as int) then Counted(k + 1, counted)
      else if Next(s, k, ',' as int) then ScanMembers(s, k + 1, depth, counted, keys + {key}, members + 1)
      else Fail(FailureProtocol)
  }

  function ScanArray(s: Text, i: nat, depth: nat, tokens: nat): (r: Scan)
    requires i < |s|
    ensures if r.Done? then i < r.index <= |s| else r.kind != FailureNone
    decreases |s| - i, 1
  {
    if depth > MAX_NESTING_DEPTH || tokens + 1 > MAX_TOKENS then Fail(FailureLimit)
    else
      var j := SkipSpaces(s, i + 1);
      if Next(s, j, ']' as int) then Counted(j + 1, tokens + 1)
      else ScanItems(s, j, depth, tokens + 1)
  }

  function ScanItems(s: Text, i: nat, depth: nat, tokens: nat): (r: Scan)
    requires i <= |s|
    ensures if r.Done? then i < r.index <= |s| else r.kind != FailureNone
    decreases |s| - i, 3
  {
    match ScanValue(s, i, depth, tokens)
    case Fail(kind) => Fail(kind)
    case Done(after, counted) =>
      var k := SkipSpaces(s, after);
      if Next(s, k, ']' as int) then Counted(k + 1, counted)
      else if Next(s, k, ',' as int) then ScanItems(s, k + 1, depth, counted)
      else Fail(FailureProtocol)
  }

  function ScanDocument(s: Text): Failure {
    match ScanValue(s, SkipSpaces(s, 0), 0, 0)
    case Fail(kind) => kind
    case Done(after, _) => if SkipSpaces(s, after) == |s| then FailureNone else FailureProtocol
  }

  predicate HasByteOrderMark(data: Text) {
    |data| >= 3 && data[..3] == [0xef, 0xbb, 0xbf]
  }

  function ParseFailure(data: Text): Failure {
    if |data| > MAX_DOCUMENT_BYTES then FailureLimit
    else if HasByteOrderMark(data) || !Utf8.Valid(data) then FailureProtocol
    else ScanDocument(data)
  }

  // ----- the scanner -----

  class Scanner {
    const data: Text
    var index: nat
    var tokens: nat

    constructor (data: Text)
      ensures this.data == data && index == 0 && tokens == 0
    {
      this.data := data;
      index, tokens := 0, 0;
    }

    /** The outcome `err` and the state reached are what `r` says. */
    ghost predicate Reached(err: Failure, r: Scan)
      reads this
    {
      match r
      case Fail(kind) => err == kind
      case Done(i, t) => err == FailureNone && index == i && tokens == t
    }

    method Whitespace()
      requires index <= |data|
      modifies this`index
      ensures index == SkipSpaces(data, old(index))
    {
      while index < |data|
        invariant index <= |data|
        invariant SkipSpaces(data, index) == SkipSpaces(data, old(index))
      {
        if IsSpace(data[index]) { index := index + 1; } else { return; }
      }
    }

    method Consume(b: Byte) returns (taken: bool)
      requires index <= |data|
      modifies this`index
      ensures taken == Next(data, old(index), b)
      ensures index == if taken then old(index) + 1 else old(index)
    {
      taken := index < |data| && data[index] == b;
      if taken { index := index + 1; }
    }

    method Token() returns (err: Failure)
      modifies this`tokens
      ensures tokens == old(tokens) + 1
      ensures err == if tokens > MAX_TOKENS then FailureLimit else FailureNone
    {
      tokens := tokens + 1;
      err := if tokens > MAX_TOKENS then FailureLimit else FailureNone;
    }

    /** The value of the four digits at `offset`, accumulated digit by digit in sixteen bits. */
    method HexUnit(offset: nat) returns (value: nat, ok: bool)
      ensures ok == HexAt(data, offset)
      ensures ok ==> value == Hex4Value(data[offset..offset + 4])
    {
      if offset + 4 > |data| { return 0, false; }
      value := 0;
      var digits := data[offset..offset + 4];
      var k := 0;
      while k < 4
        invariant 0 <= k <= 4
        invariant forall i | 0 <= i < k :: HexDigit(digits[i]) >= 0
        invariant value == (if k == 0 then 0
                            else if k == 1 then HexDigit(digits[0])
                            else if k == 2 then 0x10 * HexDigit(digits[0]) + HexDigit(digits[1])
                            else if k == 3 then
                              0x100 * HexDigit(digits[0]) + 0x10 * HexDigit(digits[1]) + HexDigit(digits[2])
                            else
                              0x1000 * HexDigit(digits[0]) + 0x100 * HexDigit(digits[1])
                              + 0x10 * HexDigit(digits[2]) + HexDigit(digits[3]))
      {
        var d := HexDigit(digits[k]);
        if d < 0 { return 0, false; }
        value := (value * 16) % 0x10000 + d;
        k := k + 1;
      }
      ok := true;
    }

    method Escape() returns (err: Failure)
      requires index < |data|
      modifies this`index
      ensures EscapeEnd(data, old(index)) == -1 ==> err == FailureProtocol
      ensures EscapeEnd(data, old(index)) != -1 ==> err == FailureNone && index == EscapeEnd(data, old(index))
    {
      if index + 1 >= |data| { return FailureProtocol; }
      if IsShort(data[index + 1]) {
        index := index + 2;
        return FailureNone;
      }
      if data[index + 1] != 'u' as int { return FailureProtocol; }
      var value, ok := HexUnit(index + 2);
      if !ok { return FailureProtocol; }
      index := index + 6;
      if IsHigh(value) {
        if index + 6 > |data| || data[index] != BACKSLASH || data[index + 1] != 'u' as int { return FailureProtocol; }
        var low, lowOk := HexUnit(index + 2);
        if !lowOk || !IsLow(low) { return FailureProtocol; }
        index := index + 6;
      } else if IsLow(value) {
        return FailureProtocol;
      }
      return FailureNone;
    }

    /** Moves from inside a string literal past its closing quote. */
    method StringBody() returns (err: Failure)
      requires index <= |data|
      modifies this`index
      ensures StringEnd(data, old(index)) == -1 ==> err == FailureProtocol
      ensures StringEnd(data, old(index)) != -1 ==> err == FailureNone && index == StringEnd(data, old(index))
    {
      while index < |data|
        invariant index <= |data|
        invariant StringEnd(data, index) == StringEnd(data, old(index))
        decreases |data| - index
      {
        if data[index] == QUOTE {
          index := index + 1;
          return FailureNone;
        } else if data[index] == BACKSLASH {
          err := Escape();
          if err != FailureNone { return; }
        } else {
          if data[index] < 0x20 { return FailureProtocol; }
          index := index + 1;
        }
      }
      return FailureProtocol;
    }

    method String(fieldName: bool) returns (value: Text, err: Failure)
      requires Next(data, index, QUOTE)
      modifies this`index
      ensures match StringAt(data, old(index), fieldName)
              case StringFail(kind) => err == kind
              case StringDone(end, text) => err == FailureNone && index == end && value == text
    {
      hide Unquote, StringEnd, StringFits;
      var start := index;
      index := index + 1;
      err := StringBody();
      if err != FailureNone { return [], err; }
      value := Unquote(data[start + 1..index - 1]);
      if !StringFits(value, fieldName) { return [], FailureLimit; }
    }

    method Literal(word: Text) returns (err: Failure)
      requires word != [] && index <= |data|
      modifies this
      ensures Reached(err, ScanLiteral(data, old(index), word, old(tokens)))
    {
      if |data| - index < |word| || data[index..index + |word|] != word { return FailureProtocol; }
      err := Token();
      if err != FailureNone { return; }
      index := index + |word|;
    }

    method SkipDigits()
      requires index <= |data|
      modifies this`index
      ensures index == DigitsEnd(data, old(index))
    {
      while index < |data| && IsDigit(data[index])
        invariant index <= |data|
        invariant DigitsEnd(data, index) == DigitsEnd(data, old(index))
      {
        index := index + 1;
      }
    }

    method Whole() returns (ok: bool)
      requires index <= |data|
      modifies this`index
      ensures ok == (WholeEnd(data, old(index)) != -1)
      ensures ok ==> index == WholeEnd(data, old(index))
    {
      var zero := Consume('0' as int);
      if zero { return !(index < |data| && IsDigit(data[index])); }
      if index >= |data| || data[index] < '1' as int || data[index] > '9' as int { return false; }
      SkipDigits();
      ok := true;
    }

    method Fraction() returns (ok: bool)
      requires index <= |data|
      modifies this`index
      ensures ok == (FractionEnd(data, old(index)) != -1)
      ensures ok ==> index == FractionEnd(data, old(index))
    {
      var dot := Consume('.' as int);
      if dot {
        if index >= |data| || !IsDigit(data[index]) { return false; }
        SkipDigits();
      }
      ok := true;
    }

    method ExponentPart() returns (ok: bool)
      requires index <= |data|
      modifies this`index
      ensures ok == (ExponentEnd(data, old(index)) != -1)
      ensures ok ==> index == ExponentEnd(data, old(index))
    {
      if index < |data| && (data[index] == 'e' as int || data[index] == 'E' as int) {
        index := index + 1;
        if index < |data| && (data[index] == '+' as int || data[index] == '-' as int) {
          index := index + 1;
        }
        if index >= |data| || !IsDigit(data[index]) { return false; }
        SkipDigits();
      }
      ok := true;
    }

    method Number() returns (err: Failure)
      requires index <= |data|
      modifies this
      ensures Reached(err, ScanNumeral(data, old(index), old(tokens)))
    {
      var start := index;
      var minus := Consume('-' as int);
      if minus && index >= |data| { return FailureProtocol; }
      var ok := Whole();
      if !ok { return FailureProtocol; }
      ok := Fraction();
      if !ok { return FailureProtocol; }
      ok := ExponentPart();
      if !ok { return FailureProtocol; }
      if index - start > MAX_NUMBER_CHARS { return FailureLimit; }
      err := Token();
    }

    method Value(depth: nat) returns (err: Failure)
      requires index <= |data|
      modifies this
      ensures Reached(err, ScanValue(data, old(index), depth, old(tokens)))
      decreases |data| - index, 2
    {
      Whitespace();
      if index >= |data| { return FailureProtocol; }
      if data[index] == '{' as int {
        err := Object(depth + 1);
      } else if data[index] == '[' as int {
        err := Array(depth + 1);
      } else if data[index] == QUOTE {
        err := Token();
        if err != FailureNone { return; }
        var _, e := String(false);
        err := e;
      } else if data[index] == 't' as int {
        err := Literal(WORD_TRUE);
      } else if data[index] == 'f' as int {
        err := Literal(WORD_FALSE);
      } else if data[index] == 'n' as int {
        err := Literal(WORD_NULL);
      } else {
        err := Number();
      }
    }

    method Key() returns (key: Text, err: Failure)
      requires index <= |data|
      modifies this
      ensures match ScanKey(data, old(index), old(tokens))
              case StringFail(kind) => err == kind
              case StringDone(end, text) =>
                err == FailureNone && index == end && key == text && tokens == old(tokens) + 1
    {
      Whitespace();
      if index >= |data| || data[index] != QUOTE { return [], FailureProtocol; }
      err := Token();
      if err != FailureNone { return [], err; }
      key, err := String(true);
    }

    method ColonValue(depth: nat) returns (err: Failure)
      requires index <= |data|
      modifies this
      ensures Reached(err, ScanColonValue(data, old(index), depth, old(tokens)))
      decreases |data| - index, 0
    {
      Whitespace();
      var colon := Consume(':' as int);
      if !colon { return FailureProtocol; }
      err := Value(depth);
    }

    /** After an item or member: the closing byte, counted as a token, or a comma. */
    method CloseOrComma(close: Byte) returns (closed: bool, err: Failure)
      requires index <= |data|
      modifies this
      ensures var k := SkipSpaces(data, old(index));
              if Next(data, k, close) then closed && Reached(err, Counted(k + 1, old(tokens)))
              else if Next(data, k, ',' as int)
              then !closed && err == FailureNone && index == k + 1 && tokens == old(tokens)
              else !closed && err == FailureProtocol
    {
      Whitespace();
      closed := Consume(close);
      if closed {
        err := Token();
        return;
      }
      var comma := Consume(',' as int);
      err := if comma then FailureNone else FailureProtocol;
    }

    method Object(depth: nat) returns (err: Failure)
      requires index < |data|
      modifies this
      ensures Reached(err, ScanObject(data, old(index), depth, old(tokens)))
      decreases |data| - index, 1
    {
      if depth > MAX_NESTING_DEPTH { return FailureLimit; }
      err := Token();
      if err != FailureNone { return; }
      index := index + 1;
      Whitespace();
      var closed := Consume('}' as int);
      if closed {
        err := Token();
        return;
      }
      err := Members(depth);
    }

    method Member(depth: nat, keys: set<Text>, members: nat) returns (key: Text, err: Failure)
      requires index <= |data|
      modifies this
      ensures match ScanMember(data, old(index), depth, old(tokens), keys, members)
              case MemberFail(kind) => err == kind
              case MemberDone(i, t, name) => err == FailureNone && index == i && tokens == t && key == name
      decreases |data| - index, 0
    {
      key, err := Key();
      if err != FailureNone { return; }
      if key in keys { return key, FailureProtocol; }
      if members > MAX_MEMBERS { return key, FailureLimit; }
      err := ColonValue(depth);
    }

    method Members(depth: nat) returns (err: Failure)
      requires index <= |data|
      modifies this
      ensures Reached(err, ScanMembers(data, old(index), depth, old(tokens), {}, 1))
      decreases |data| - index, 1
    {
      hide ScanMember, SkipSpaces;
      ghost var target := ScanMembers(data, index, depth, tokens, {}, 1);
      var keys: set<Text> := {};
      var members := 1;
      while true
        invariant old(index) <= index <= |data|
        invariant members >= 1
        invariant ScanMembers(data, index, depth, tokens, keys, members) == target
        decreases |data| - index
      {
        var key;
        key, err := Member(depth, keys, members);
        if err != FailureNone { return; }
        var closed;
        closed, err := CloseOrComma('}' as int);
        if closed || err != FailureNone { return; }
        keys, members := keys + {key}, members + 1;
      }
    }

    method Array(depth: nat) returns (err: Failure)
      requires index < |data|
      modifies this
      ensures Reached(err, ScanArray(data, old(index), depth, old(tokens)))
      decreases |data| - index, 1
    {
      if depth > MAX_NESTING_DEPTH { return FailureLimit; }
      err := Token();
      if err != FailureNone { return; }
      index := index + 1;
      Whitespace();
      var closed := Consume(']' as int);
      if closed {
        err := Token();
        return;
      }
      err := Items(depth);
    }

    method Items(depth: nat) returns (err: Failure)
      requires index <= |data|
      modifies this
      ensures Reached(err, ScanItems(data, old(index), depth, old(tokens)))
      decreases |data| - index, 3
    {
      hide ScanValue, SkipSpaces;
      ghost var target := ScanItems(data, index, depth, tokens);
      while true
        invariant old(index) <= index <= |data|
        invariant ScanItems(data, index, depth, tokens) == target
        decreases |data| - index
      {
        err := Value(depth);
        if err != FailureNone { return; }
        var closed;
        closed, err := CloseOrComma(']' as int);
        if closed || err != FailureNone { return; }
      }
    }

    method Parse() returns (err: Failure)
      requires index == 0 && tokens == 0
      modifies this
      ensures err == ScanDocument(data)
    {
      Whitespace();
      err := Value(0);
      if err != FailureNone { return; }
      Whitespace();
      if index != |data| { return FailureProtocol; }
    }
  }

  /** Validates one document before the library decodes it. */
  method Parse(data: Text) returns (err: Failure)
    ensures err == ParseFailure(data)
  {
    if |data| > MAX_DOCUMENT_BYTES { return FailureLimit; }
    if (|data| >= 3 && data[..3] == [0xef, 0xbb, 0xbf]) || !Utf8.Valid(data) { return FailureProtocol; }
    var scanner := new Scanner(data);
    err := scanner.Parse();
  }
}
