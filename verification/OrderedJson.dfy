/**
 Insertion-ordered JSON objects with two encoders: the plain one, and the one
 that stops one byte past a limit and must otherwise agree with it.
 */
module OrderedJson {
  import opened Bytes
  import Utf8

  const MAX_PAYLOAD_BYTES: nat := 0x100000

  /** Values inside a payload. `Scalar` carries what the library writes for it. */
  datatype Json =
    | Object(fields: seq<Field>)
    | List(items: seq<Json>)
    | NilList
    | NilObject
    | Str(text: Text)
    | Scalar(encoding: Text)
    | Unencodable

  datatype Field = Field(key: Text, value: Json)

  /** Why an encoder stopped: the library refused a value, or a nil object was dereferenced. */
  datatype Reason = Refused | Dereferenced

  /** What an encoder writes: everything, or what it wrote before it stopped. */
  datatype Encoding = Encoded(text: Text) | Stopped(text: Text, why: Reason)

  /** What a caller gets. */
  datatype Marshaled = Marshaled(text: Text) | MarshalError | MarshalPanic

  function Outcome(e: Encoding): Marshaled {
    match e
    case Encoded(text) => Marshaled(text)
    case Stopped(_, Refused) => MarshalError
    case Stopped(_, Dereferenced) => MarshalPanic
  }

  const NULL: Text := ['n' as int, 'u' as int, 'l' as int, 'l' as int]

  // ----- strings -----

  function Escape4(a: nat, b: nat, c: nat, d: nat): Text
    requires a < 16 && b < 16 && c < 16 && d < 16
  {
    [0x5c, 'u' as int, HexChar(a), HexChar(b), HexChar(c), HexChar(d)]
  }

  predicate LineSeparator(s: Text) {
    At(s, 0, [0xe2, 0x80, 0xa8]) || At(s, 0, [0xe2, 0x80, 0xa9])
  }

  /** What the library writes for the first rune of `s`. */
  function EncodeRune(s: Text): (t: Text)
    requires s != []
    ensures |t| >= Utf8.RuneStep(s)
  {
    var b := s[0];
    if b == 0x22 || b == 0x5c then [0x5c, b]
    else if b == 0x08 then [0x5c, 'b' as int]
    else if b == 0x0c then [0x5c, 'f' as int]
    else if b == 0x0a then [0x5c, 'n' as int]
    else if b == 0x0d then [0x5c, 'r' as int]
    else if b == 0x09 then [0x5c, 't' as int]
    else if b < 0x20 then Escape4(0, 0, b / 16, b % 16)
    else if Utf8.RuneWidth(s) == 0 then Escape4(15, 15, 15, 13)
    else if LineSeparator(s) then Escape4(2, 0, 2, s[2] - 0xa0)
    else s[..Utf8.RuneWidth(s)]
  }

  /** The rune is one of U+2028 and U+2029, which end a line in JavaScript. */
  predicate EndsLine(s: Text) {
    |s| >= 3 && s[0] == 0xe2 && s[1] == 0x80 && (s[2] == 0xa8 || s[2] == 0xa9)
  }

  /** A rune is written as it is exactly when it is valid, not a control, a quote or a backslash, and ends no line. */
  lemma RuneWritten(s: Text)
    requires s != []
    ensures var plain := Utf8.RuneWidth(s) != 0 && s[0] >= 0x20 && s[0] != 0x22 && s[0] != 0x5c && !EndsLine(s);
            && (plain ==> EncodeRune(s) == s[..Utf8.RuneWidth(s)])
            && (!plain ==> EncodeRune(s)[0] == 0x5c)
  {
    if |s| >= 3 { assert s[0..3] == [s[0], s[1], s[2]]; }
  }

  function EncodeRunes(s: Text): (t: Text)
    ensures |t| >= |s|
    decreases |s|
  {
    if s == [] then [] else EncodeRune(s) + EncodeRunes(s[Utf8.RuneStep(s)..])
  }

  /** An encoded string is at least two bytes longer than the string. */
  function EncodeString(s: Text): (t: Text)
    ensures |t| >= |s| + 2
  {
    [0x22] + EncodeRunes(s) + [0x22]
  }

  // ----- the encodings of a value -----

  function Join(a: Encoding, b: Encoding): (r: Encoding)
    ensures |a.text| <= |r.text|
  {
    if a.Stopped? then a
    else if b.Encoded? then Encoded(a.text + b.text)
    else Stopped(a.text + b.text, b.why)
  }

  function Comma(n: nat): Text {
    if n > 0 then [',' as int] else []
  }

  const EMPTY_LIST: Text := ['[' as int, ']' as int]

  /** Compact JSON. The encoders differ on nil lists and nil objects only. */
  function Encode(v: Json, bounded: bool): Encoding
    decreases v, 1
  {
    match v
    case Object(fields) => Join(EncodeFields(v, |fields|, bounded), Encoded(['}' as int]))
    case List(items) => Join(EncodeItems(v, |items|, bounded), Encoded([']' as int]))
    case NilList => Encoded(if bounded then EMPTY_LIST else NULL)
    case NilObject => if bounded then Stopped(['{' as int], Dereferenced) else Encoded(NULL)
    case Str(s) => Encoded(EncodeString(s))
    case Scalar(e) => Encoded(e)
    case Unencodable => Stopped([], Refused)
  }

  /** The opening brace and the first `n` fields. */
  function EncodeFields(v: Json, n: nat, bounded: bool): Encoding
    requires v.Object? && n <= |v.fields|
    decreases v, 0, n
  {
    if n == 0 then Encoded(['{' as int])
    else
      Join(EncodeFields(v, n - 1, bounded), Join(Encoded(FieldStart(v, n - 1)), Encode(v.fields[n - 1].value, bounded)))
  }

  /** The opening bracket and the first `n` items. */
  function EncodeItems(v: Json, n: nat, bounded: bool): Encoding
    requires v.List? && n <= |v.items|
    decreases v, 0, n
  {
    if n == 0 then Encoded(['[' as int])
    else Join(EncodeItems(v, n - 1, bounded), Join(Encoded(Comma(n - 1)), Encode(v.items[n - 1], bounded)))
  }

  function FieldStart(v: Json, i: nat): Text
    requires v.Object? && i < |v.fields|
  {
    Comma(i) + EncodeString(v.fields[i].key) + [':' as int]
  }

  /** The plain encoding. */
  function Plain(v: Json): Encoding {
    Encode(v, false)
  }

  /**
   What the bounded encoder would write without a limit: a nil list as an empty one, and
   nothing after meeting a nil object.
   */
  function Spelled(v: Json): Encoding {
    Encode(v, true)
  }

  // ----- insertion order -----

  function SetField(fields: seq<Field>, key: Text, value: Json): seq<Field> {
    if fields == [] then [Field(key, value)]
    else if fields[0].key == key then [Field(key, value)] + fields[1..]
    else [fields[0]] + SetField(fields[1..], key, value)
  }

  function FieldsOf(keys: seq<Text>, values: map<Text, Json>): (fs: seq<Field>)
    requires forall k | k in keys :: k in values
    ensures |fs| == |keys|
    ensures forall i | 0 <= i < |fs| :: fs[i] == Field(keys[i], values[keys[i]])
  {
    seq(|keys|, i requires 0 <= i < |keys| => Field(keys[i], values[keys[i]]))
  }

  lemma SetOld(keys: seq<Text>, values: map<Text, Json>, key: Text, value: Json)
    requires forall i, j | 0 <= i < j < |keys| :: keys[i] != keys[j]
    requires (forall k | k in keys :: k in values) && key in keys
    ensures FieldsOf(keys, values[key := value]) == SetField(FieldsOf(keys, values), key, value)
  {
    hide SetField, FieldsOf;
    var fields := FieldsOf(keys, values);
    SetFieldAt(fields, key, value);
    var i :| 0 <= i < |keys| && keys[i] == key;
    assert fields[i].key == key;
    assert |SetField(fields, key, value)| == |fields|;
  }

  lemma SetNew(keys: seq<Text>, values: map<Text, Json>, key: Text, value: Json)
    requires forall i, j | 0 <= i < j < |keys| :: keys[i] != keys[j]
    requires (forall k | k in keys :: k in values) && key !in keys
    ensures (forall k | k in keys + [key] :: k in values[key := value])
    ensures FieldsOf(keys + [key], values[key := value]) == SetField(FieldsOf(keys, values), key, value)
  {
    hide SetField, FieldsOf;
    var fields := FieldsOf(keys, values);
    SetFieldAt(fields, key, value);
    assert forall i | 0 <= i < |fields| :: fields[i].key == keys[i];
    assert |SetField(fields, key, value)| == |fields| + 1;
  }

  lemma SetStored(keys: seq<Text>, values: map<Text, Json>, key: Text, value: Json)
    requires forall i, j | 0 <= i < j < |keys| :: keys[i] != keys[j]
    requires forall k | k in keys :: k in values
    requires forall k | k in values :: k in keys
    ensures var keys' := if key in values then keys else keys + [key];
            && (forall k | k in keys' :: k in values[key := value])
            && FieldsOf(keys', values[key := value]) == SetField(FieldsOf(keys, values), key, value)
  {
    hide SetField, FieldsOf;
    if key in values { SetOld(keys, values, key, value); } else { SetNew(keys, values, key, value); }
  }

  lemma FieldsStart(v: Json, bounded: bool)
    requires v.Object?
    ensures EncodeFields(v, 0, bounded) == Encoded(['{' as int])
  {
  }

  lemma FieldsNext(v: Json, i: nat, bounded: bool)
    requires v.Object? && i < |v.fields|
    ensures EncodeFields(v, i + 1, bounded) ==
            Join(EncodeFields(v, i, bounded), Join(Encoded(FieldStart(v, i)), Encode(v.fields[i].value, bounded)))
  {
  }

  class OrderedObject {
    var keys: seq<Text>
    var values: map<Text, Json>

    ghost predicate Valid()
      reads this
    {
      && (forall i, j | 0 <= i < j < |keys| :: keys[i] != keys[j])
      && (forall k | k in keys :: k in values)
      && (forall k | k in values :: k in keys)
    }

    function Fields(): (fs: seq<Field>)
      requires forall k | k in keys :: k in values
      reads this
    {
      FieldsOf(keys, values)
    }

    constructor ()
      ensures Valid() && Fields() == []
    {
      keys, values := [], map[];
    }

    /** Appends a new key and overwrites a known one where it stands. */
    method Set(key: Text, value: Json)
      requires Valid()
      modifies this
      ensures Valid() && Fields() == SetField(old(Fields()), key, value)
    {
      hide FieldsOf, SetField;
      SetStored(keys, values, key, value);
      if key !in values { keys := keys + [key]; }
      values := values[key := value];
    }

    /** The plain encoding, in insertion order, or an error. */
    method MarshalJSON() returns (r: Marshaled)
      requires Valid()
      ensures r == Outcome(Plain(Object(Fields())))
    {
      hide EncodeString, EncodeFields;
      var v := Object(Fields());
      var buffer: Text := ['{' as int];
      FieldsStart(v, false);
      var i := 0;
      while i < |keys|
        invariant 0 <= i <= |keys|
        invariant EncodeFields(v, i, false) == Encoded(buffer)
      {
        ghost var before := buffer;
        if i > 0 { buffer := buffer + [',' as int]; }
        buffer := buffer + EncodeString(keys[i]) + [':' as int];
        var encoded := Plain(values[keys[i]]);
        FieldsNext(v, i, false);
        if encoded.Stopped? {
          FieldsExtend(v, i + 1, |keys|, false);
          PlainRefused(values[keys[i]]);
          return MarshalError;
        }
        assert buffer + encoded.text == before + (FieldStart(v, i) + encoded.text);
        buffer := buffer + encoded.text;
        i := i + 1;
      }
      return Marshaled(buffer + ['}' as int]);
    }

    /** The bounded encoding: what it comes to when that fits `limit`, otherwise `limit + 1` bytes. */
    method MarshalJSONLimit(limit: nat) returns (r: Marshaled)
      requires Valid()
      ensures Bounded(Spelled(Object(Fields())), limit, r)
    {
      hide Encode;
      var encoder := new LimitedEncoder(limit);
      var status := encoder.Value(Object(Fields()));
      assert [] + Spelled(Object(Fields())).text == Spelled(Object(Fields())).text;
      if status == Failed { return MarshalError; }
      if status == Panicked { return MarshalPanic; }
      return Marshaled(encoder.buffer);
    }
  }

  /** The plain encoder stops only where the library refuses a value. */
  lemma {:induction false} PlainRefused(v: Json)
    ensures Plain(v).Stopped? ==> Plain(v).why == Refused
    decreases v, 1
  {
    match v
    case Object(fields) => PlainFieldsRefused(v, |fields|);
    case List(items) => PlainItemsRefused(v, |items|);
    case _ =>
  }

  lemma {:induction false} PlainFieldsRefused(v: Json, n: nat)
    requires v.Object? && n <= |v.fields|
    ensures EncodeFields(v, n, false).Stopped? ==> EncodeFields(v, n, false).why == Refused
    decreases v, 0, n
  {
    if n > 0 {
      PlainFieldsRefused(v, n - 1);
      PlainRefused(v.fields[n - 1].value);
    }
  }

  lemma {:induction false} PlainItemsRefused(v: Json, n: nat)
    requires v.List? && n <= |v.items|
    ensures EncodeItems(v, n, false).Stopped? ==> EncodeItems(v, n, false).why == Refused
    decreases v, 0, n
  {
    if n > 0 {
      PlainItemsRefused(v, n - 1);
      PlainRefused(v.items[n - 1]);
    }
  }

  lemma {:induction false} SetFieldAt(fields: seq<Field>, key: Text, value: Json)
    requires forall i, j | 0 <= i < j < |fields| :: fields[i].key != fields[j].key
    ensures var r := SetField(fields, key, value);
            && |fields| <= |r|
            && (forall i | 0 <= i < |fields| :: r[i] == if fields[i].key == key then Field(key, value) else fields[i])
            && ((exists i | 0 <= i < |fields| :: fields[i].key == key) ==> |r| == |fields|)
            && ((forall i | 0 <= i < |fields| :: fields[i].key != key)
                ==> |r| == |fields| + 1 && r[|fields|] == Field(key, value))
  {
    if fields != [] && fields[0].key != key {
      SetFieldAt(fields[1..], key, value);
      assert forall i | 1 <= i < |fields| :: fields[i] == fields[1..][i - 1];
    }
  }

  // ----- the bounded encoder -----

  datatype Status = Fits | OverLimit | Failed | Panicked

  /** What a bounded encoding of something spelled `e` is. */
  predicate Bounded(e: Encoding, limit: nat, r: Marshaled) {
    if |e.text| <= limit then r == Outcome(e) else r.Marshaled? && |r.text| == limit + 1
  }

  function StatusOf(e: Encoding): Status {
    match e
    case Encoded(_) => Fits
    case Stopped(_, Refused) => Failed
    case Stopped(_, Dereferenced) => Panicked
  }

  /** What writing `e` after `start` does to the buffer. */
  predicate Appended(start: Text, e: Encoding, limit: nat, status: Status, buffer: Text) {
    if |start| + |e.text| <= limit then status == StatusOf(e) && buffer == start + e.text
    else status == OverLimit && |buffer| == limit + 1
  }

  /** More fields only add to what was written, and nothing once the encoder has stopped. */
  lemma {:induction false} FieldsExtend(v: Json, i: nat, n: nat, bounded: bool)
    requires v.Object? && i <= n <= |v.fields|
    ensures |EncodeFields(v, i, bounded).text| <= |EncodeFields(v, n, bounded).text|
    ensures EncodeFields(v, i, bounded).Stopped? ==> EncodeFields(v, n, bounded) == EncodeFields(v, i, bounded)
    decreases n
  {
    hide Encode, FieldStart;
    if i < n { FieldsExtend(v, i, n - 1, bounded); }
  }

  lemma {:induction false} ItemsExtend(v: Json, i: nat, n: nat, bounded: bool)
    requires v.List? && i <= n <= |v.items|
    ensures |EncodeItems(v, i, bounded).text| <= |EncodeItems(v, n, bounded).text|
    ensures EncodeItems(v, i, bounded).Stopped? ==> EncodeItems(v, n, bounded) == EncodeItems(v, i, bounded)
    decreases n
  {
    hide Encode;
    if i < n { ItemsExtend(v, i, n - 1, bounded); }
  }

  /** An object is its fields so far and more, or just them once the encoder has stopped. */
  lemma ObjectExtends(v: Json, i: nat)
    requires v.Object? && i <= |v.fields|
    ensures |EncodeFields(v, i, true).text| <= |Spelled(v).text|
    ensures EncodeFields(v, i, true).Stopped? ==> Spelled(v) == EncodeFields(v, i, true)
  {
    FieldsExtend(v, i, |v.fields|, true);
    hide EncodeFields;
  }

  lemma ListExtends(v: Json, i: nat)
    requires v.List? && i <= |v.items|
    ensures |EncodeItems(v, i, true).text| <= |Spelled(v).text|
    ensures EncodeItems(v, i, true).Stopped? ==> Spelled(v) == EncodeItems(v, i, true)
  {
    ItemsExtend(v, i, |v.items|, true);
    hide EncodeItems;
  }

  lemma ItemsNext(v: Json, i: nat, bounded: bool)
    requires v.List? && i < |v.items|
    ensures EncodeItems(v, i + 1, bounded) ==
            Join(EncodeItems(v, i, bounded), Join(Encoded(Comma(i)), Encode(v.items[i], bounded)))
  {
  }

  class LimitedEncoder {
    var buffer: Text
    const limit: nat

    constructor (limit: nat)
      ensures buffer == [] && this.limit == limit
    {
      buffer := [];
      this.limit := limit;
    }

    /** Appends up to one byte past the limit; a buffer already past it stays as it is. */
    method Write(data: Text) returns (status: Status)
      modifies this
      ensures |old(buffer)| <= limit ==> Appended(old(buffer), Encoded(data), limit, status, buffer)
      ensures |old(buffer)| > limit ==> status == OverLimit && buffer == old(buffer)
    {
      var remaining := limit + 1 - |buffer|;
      if remaining <= 0 { return OverLimit; }
      buffer := buffer + if |data| > remaining then data[..remaining] else data;
      status := if |buffer| > limit then OverLimit else Fits;
    }

    method FillLimit() returns (status: Status)
      modifies this
      ensures status == OverLimit && old(buffer) <= buffer
      ensures |buffer| == if |old(buffer)| > limit then |old(buffer)| else limit + 1
    {
      var remaining := limit + 1 - |buffer|;
      if remaining > 0 { buffer := buffer + seq(remaining, _ => 0); }
      status := OverLimit;
    }

    /** A string too long to fit is not encoded at all. */
    method StringValue(s: Text) returns (status: Status)
      requires |buffer| <= limit
      modifies this
      ensures Appended(old(buffer), Encoded(EncodeString(s)), limit, status, buffer)
    {
      hide EncodeRunes;
      if |s| + 2 > limit + 1 - |buffer| {
        status := FillLimit();
      } else {
        status := Write(EncodeString(s));
      }
    }

    method Value(v: Json) returns (status: Status)
      requires |buffer| <= limit
      modifies this
      ensures Appended(old(buffer), Spelled(v), limit, status, buffer)
      decreases v, 2
    {
      hide EncodeString, EncodeFields, EncodeItems;
      match v
      case Object(_) => status := ObjectValue(v);
      case NilObject =>
        status := Write(['{' as int]);
        if status == Fits { status := Panicked; }
      case List(_) => status := ListValue(v);
      case NilList =>
        status := Write(['[' as int]);
        if status == Fits { status := Write([']' as int]); }
      case Str(s) => status := StringValue(s);
      case Scalar(e) => status := Write(e);
      case Unencodable =>
        assert buffer == buffer + [];
        status := Failed;
    }

    method ObjectValue(v: Json) returns (status: Status)
      requires v.Object? && |buffer| <= limit
      modifies this
      ensures Appended(old(buffer), Spelled(v), limit, status, buffer)
      decreases v, 1
    {
      hide EncodeFields, Encode;
      FieldsStart(v, true);
      ObjectExtends(v, 0);
      status := Write(['{' as int]);
      if status != Fits { return; }
      var i := 0;
      while i < |v.fields|
        invariant 0 <= i <= |v.fields|
        invariant EncodeFields(v, i, true).Encoded?
        invariant Appended(old(buffer), EncodeFields(v, i, true), limit, Fits, buffer)
      {
        status := FieldValue(v, i, old(buffer));
        ObjectExtends(v, i + 1);
        if status != Fits { return; }
        i := i + 1;
      }
      ObjectParts(v, true);
      status := Write(['}' as int]);
    }

    /** What stands before a field's value: a comma after the first field, the key, a colon. */
    method FieldKey(v: Json, i: nat) returns (status: Status)
      requires v.Object? && i < |v.fields| && |buffer| <= limit
      modifies this
      ensures Appended(old(buffer), Encoded(FieldStart(v, i)), limit, status, buffer)
    {
      hide EncodeString;
      if i > 0 {
        status := Write([',' as int]);
        if status != Fits { return; }
      }
      assert buffer == old(buffer) + Comma(i);
      status := StringValue(v.fields[i].key);
      if status != Fits { return; }
      status := Write([':' as int]);
      assert status == Fits ==> buffer == old(buffer) + FieldStart(v, i);
    }

    /** One field of an object, after the fields before it. */
    method FieldValue(v: Json, i: nat, ghost start: Text) returns (status: Status)
      requires v.Object? && i < |v.fields| && EncodeFields(v, i, true).Encoded?
      requires Appended(start, EncodeFields(v, i, true), limit, Fits, buffer)
      modifies this
      ensures Appended(start, EncodeFields(v, i + 1, true), limit, status, buffer)
      decreases v, 0
    {
      hide Encode, FieldStart, EncodeFields;
      FieldsNext(v, i, true);
      status := FieldKey(v, i);
      if status != Fits { return; }
      ghost var before := buffer;
      status := Value(v.fields[i].value);
      assert start + EncodeFields(v, i + 1, true).text == before + Spelled(v.fields[i].value).text;
    }

    method ListValue(v: Json) returns (status: Status)
      requires v.List? && |buffer| <= limit
      modifies this
      ensures Appended(old(buffer), Spelled(v), limit, status, buffer)
      decreases v, 1
    {
      hide EncodeItems, Encode;
      ItemsStart(v, true);
      ListExtends(v, 0);
      status := Write(['[' as int]);
      if status != Fits { return; }
      var i := 0;
      while i < |v.items|
        invariant 0 <= i <= |v.items|
        invariant EncodeItems(v, i, true).Encoded?
        invariant Appended(old(buffer), EncodeItems(v, i, true), limit, Fits, buffer)
      {
        status := ItemValue(v, i, old(buffer));
        ListExtends(v, i + 1);
        if status != Fits { return; }
        i := i + 1;
      }
      ListParts(v, true);
      status := Write([']' as int]);
    }

    method ItemValue(v: Json, i: nat, ghost start: Text) returns (status: Status)
      requires v.List? && i < |v.items| && EncodeItems(v, i, true).Encoded?
      requires Appended(start, EncodeItems(v, i, true), limit, Fits, buffer)
      modifies this
      ensures Appended(start, EncodeItems(v, i + 1, true), limit, status, buffer)
      decreases v, 0
    {
      hide Encode, EncodeItems;
      ItemsNext(v, i, true);
      if i > 0 {
        status := Write([',' as int]);
        if status != Fits { return; }
      }
      ghost var before := buffer;
      status := Value(v.items[i]);
      assert start + EncodeItems(v, i + 1, true).text == before + Spelled(v.items[i]).text;
    }
  }

  lemma ItemsStart(v: Json, bounded: bool)
    requires v.List?
    ensures EncodeItems(v, 0, bounded) == Encoded(['[' as int])
  {
  }

  // ----- agreement -----

  /** How many nil lists and nil objects a value holds. */
  datatype Nils = Nils(lists: nat, objects: nat)

  function Sum(a: Nils, b: Nils): Nils {
    Nils(a.lists + b.lists, a.objects + b.objects)
  }

  const NO_NILS: Nils := Nils(0, 0)

  function NilsIn(v: Json): Nils
    decreases v, 1
  {
    match v
    case Object(fields) => NilFields(v, |fields|)
    case List(items) => NilItems(v, |items|)
    case NilList => Nils(1, 0)
    case NilObject => Nils(0, 1)
    case _ => NO_NILS
  }

  function NilFields(v: Json, n: nat): Nils
    requires v.Object? && n <= |v.fields|
    decreases v, 0, n
  {
    if n == 0 then NO_NILS else Sum(NilFields(v, n - 1), NilsIn(v.fields[n - 1].value))
  }

  function NilItems(v: Json, n: nat): Nils
    requires v.List? && n <= |v.items|
    decreases v, 0, n
  {
    if n == 0 then NO_NILS else Sum(NilItems(v, n - 1), NilsIn(v.items[n - 1]))
  }

  /**
   The bounded encoder gets to the end exactly where the plain one does and
   there is no nil object; it is then two bytes shorter per nil list. At a nil
   object it stops having written less than the plain one.
   */
  predicate Apart(plain: Encoding, spelled: Encoding, nils: Nils) {
    && (spelled.Encoded? <==> plain.Encoded? && nils.objects == 0)
    && (spelled.Encoded? ==> |plain.text| == |spelled.text| + 2 * nils.lists && (nils.lists == 0 ==> plain == spelled))
    && (plain.Encoded? && nils.objects > 0 ==> spelled.why == Dereferenced && |spelled.text| < |plain.text|)
  }

  lemma JoinApart(p1: Encoding, s1: Encoding, n1: Nils, p2: Encoding, s2: Encoding, n2: Nils)
    requires Apart(p1, s1, n1) && Apart(p2, s2, n2)
    ensures Apart(Join(p1, p2), Join(s1, s2), Sum(n1, n2))
  {
  }

  lemma LeafApart(v: Json)
    requires !v.Object? && !v.List?
    ensures Apart(Plain(v), Spelled(v), NilsIn(v))
  {
    hide EncodeString, EncodeFields, EncodeItems;
  }

  lemma ObjectParts(v: Json, bounded: bool)
    requires v.Object?
    ensures Encode(v, bounded) == Join(EncodeFields(v, |v.fields|, bounded), Encoded(['}' as int]))
    ensures NilsIn(v) == NilFields(v, |v.fields|)
  {
  }

  lemma ListParts(v: Json, bounded: bool)
    requires v.List?
    ensures Encode(v, bounded) == Join(EncodeItems(v, |v.items|, bounded), Encoded([']' as int]))
    ensures NilsIn(v) == NilItems(v, |v.items|)
  {
  }

  lemma {:induction false} SpellingsApart(v: Json)
    ensures Apart(Plain(v), Spelled(v), NilsIn(v))
    decreases v, 1
  {
    hide Encode, EncodeFields, EncodeItems, NilsIn, NilFields, NilItems, Apart, Join;
    var brace, bracket := Encoded(['}' as int]), Encoded([']' as int]);
    match v
    case Object(fields) =>
      var n := |fields|;
      FieldsApart(v, n);
      SameApart(brace.text);
      ObjectParts(v, false);
      ObjectParts(v, true);
      JoinApart(EncodeFields(v, n, false), EncodeFields(v, n, true), NilFields(v, n), brace, brace, NO_NILS);
    case List(items) =>
      var n := |items|;
      ItemsApart(v, n);
      SameApart(bracket.text);
      ListParts(v, false);
      ListParts(v, true);
      JoinApart(EncodeItems(v, n, false), EncodeItems(v, n, true), NilItems(v, n), bracket, bracket, NO_NILS);
    case _ => LeafApart(v);
  }

  lemma {:induction false} FieldsApart(v: Json, n: nat)
    requires v.Object? && n <= |v.fields|
    ensures Apart(EncodeFields(v, n, false), EncodeFields(v, n, true), NilFields(v, n))
    decreases v, 0, n
  {
    hide Encode, NilsIn, EncodeString, Apart, Join;
    if n > 0 {
      var start, value := Encoded(FieldStart(v, n - 1)), v.fields[n - 1].value;
      FieldsApart(v, n - 1);
      SpellingsApart(value);
      SameApart(FieldStart(v, n - 1));
      JoinApart(start, start, NO_NILS, Plain(value), Spelled(value), NilsIn(value));
      JoinApart(EncodeFields(v, n - 1, false), EncodeFields(v, n - 1, true), NilFields(v, n - 1),
                Join(start, Plain(value)), Join(start, Spelled(value)), NilsIn(value));
    } else {
      SameApart(['{' as int]);
    }
  }

  lemma {:induction false} ItemsApart(v: Json, n: nat)
    requires v.List? && n <= |v.items|
    ensures Apart(EncodeItems(v, n, false), EncodeItems(v, n, true), NilItems(v, n))
    decreases v, 0, n
  {
    hide Encode, NilsIn, Apart, Join;
    if n > 0 {
      var start, value := Encoded(Comma(n - 1)), v.items[n - 1];
      ItemsApart(v, n - 1);
      SpellingsApart(value);
      SameApart(Comma(n - 1));
      JoinApart(start, start, NO_NILS, Plain(value), Spelled(value), NilsIn(value));
      JoinApart(EncodeItems(v, n - 1, false), EncodeItems(v, n - 1, true), NilItems(v, n - 1),
                Join(start, Plain(value)), Join(start, Spelled(value)), NilsIn(value));
    } else {
      SameApart(['[' as int]);
    }
  }

  lemma SameApart(text: Text)
    ensures Apart(Encoded(text), Encoded(text), NO_NILS)
  {
  }

  /**
   The bounded result is the plain encoding, or `limit + 1` bytes when that is
   too long, if and only if the value holds no nil list and no nil object, or
   the bounded encoder passes the limit before it meets a nil object.
   */
  lemma BoundedAgreesWithPlain(v: Json, limit: nat, r: Marshaled)
    requires Bounded(Spelled(v), limit, r) && Plain(v).Encoded?
    ensures Bounded(Plain(v), limit, r) <==> NilsIn(v) == NO_NILS || |Spelled(v).text| > limit
  {
    hide Encode, NilsIn;
    SpellingsApart(v);
  }

  const LETTER: Text := ['a' as int]

  lemma OneField(v: Json, bounded: bool)
    requires v.Object? && |v.fields| == 1
    ensures Encode(v, bounded) ==
            Join(Join(Encoded(['{' as int]), Join(Encoded(FieldStart(v, 0)), Encode(v.fields[0].value, bounded))),
                 Encoded(['}' as int]))
  {
    hide Encode, EncodeFields, FieldStart;
    ObjectParts(v, bounded);
    FieldsStart(v, bounded);
    FieldsNext(v, 0, bounded);
  }

  lemma LetterStart(v: Json)
    requires v.Object? && |v.fields| == 1 && v.fields[0].key == LETTER
    ensures FieldStart(v, 0) == [0x22, 'a' as int, 0x22, ':' as int]
  {
    hide EncodeString;
    EncodeOneByte();
  }

  /** A one-field object around a value: `{"a":` before it and `}` after it. */
  lemma Around(v: Json, bounded: bool)
    requires v.Object? && |v.fields| == 1 && v.fields[0].key == LETTER
    ensures var inner := Encode(v.fields[0].value, bounded);
            |Encode(v, bounded).text| == 5 + |inner.text| + (if inner.Encoded? then 1 else 0)
            && (inner.Encoded? <==> Encode(v, bounded).Encoded?)
            && (inner.Stopped? ==> Encode(v, bounded).why == inner.why)
  {
    hide Encode, FieldStart;
    OneField(v, bounded);
    LetterStart(v);
  }

  /** A nil list inside a payload makes the encoders disagree: `{"a":null}` against `{"a":[]}`. */
  lemma NilListDisagrees(r: Marshaled)
    requires Bounded(Spelled(NIL_LIST_PAYLOAD), MAX_PAYLOAD_BYTES, r)
    ensures Plain(NIL_LIST_PAYLOAD).Encoded? && r.Marshaled? && !Bounded(Plain(NIL_LIST_PAYLOAD), MAX_PAYLOAD_BYTES, r)
  {
    assert Plain(NilList) == Encoded(NULL) && Spelled(NilList) == Encoded(EMPTY_LIST);
    hide Encode;
    Around(NIL_LIST_PAYLOAD, false);
    Around(NIL_LIST_PAYLOAD, true);
  }

  const NIL_LIST_PAYLOAD: Json := Object([Field(LETTER, NilList)])

  lemma NilItem()
    ensures Plain(NIL_ITEM) == Encoded(['[' as int] + NULL + [']' as int])
    ensures Spelled(NIL_ITEM) == Stopped(['[' as int, '{' as int], Dereferenced)
  {
    hide EncodeItems;
    ItemsStart(NIL_ITEM, false);
    ItemsStart(NIL_ITEM, true);
    ItemsNext(NIL_ITEM, 0, false);
    ItemsNext(NIL_ITEM, 0, true);
  }

  const NIL_ITEM: Json := List([NilObject])

  /** A nil object inside a payload makes the bounded encoder panic where the plain one writes `{"a":[null]}`. */
  lemma NilObjectPanics(r: Marshaled)
    requires Bounded(Spelled(NIL_OBJECT_PAYLOAD), MAX_PAYLOAD_BYTES, r)
    ensures Plain(NIL_OBJECT_PAYLOAD).Encoded? && r.MarshalPanic?
            && !Bounded(Plain(NIL_OBJECT_PAYLOAD), MAX_PAYLOAD_BYTES, r)
  {
    NilItem();
    hide Encode;
    Around(NIL_OBJECT_PAYLOAD, false);
    Around(NIL_OBJECT_PAYLOAD, true);
  }

  const NIL_OBJECT_PAYLOAD: Json := Object([Field(LETTER, NIL_ITEM)])

  lemma EncodeOneByte()
    ensures EncodeString(LETTER) == [0x22, 'a' as int, 0x22]
  {
    assert EncodeRunes([]) == [];
    assert LETTER[1..] == [];
  }

  // ----- the request envelope -----

  /** The request body, and whether it is over the payload limit. */
  method MarshalEnvelope(customerID: Text, eventType: Text, timestamp: Text, data: Json)
    returns (r: Marshaled, tooLarge: bool)
    ensures Bounded(Spelled(Object(EnvelopeFields(customerID, eventType, timestamp, data))), MAX_PAYLOAD_BYTES, r)
    ensures tooLarge <==> r.Marshaled? && |r.text| > 1_048_576
    ensures var body := Object(EnvelopeFields(customerID, eventType, timestamp, data));
            Plain(body).Encoded? ==>
              (Bounded(Plain(body), MAX_PAYLOAD_BYTES, r)
               <==> NilsIn(data) == NO_NILS || |Spelled(body).text| > MAX_PAYLOAD_BYTES)
  {
    hide Encode, NilsIn;
    var body := new OrderedObject();
    body.Set(KEY_TYPE, Str(eventType));
    body.Set(KEY_CUSTOMER, Str(customerID));
    body.Set(KEY_TIMESTAMP, Str(timestamp));
    body.Set(KEY_DATA, data);
    EnvelopeOrder(customerID, eventType, timestamp, data);
    r := body.MarshalJSONLimit(MAX_PAYLOAD_BYTES);
    tooLarge := r.Marshaled? && |r.text| > MAX_PAYLOAD_BYTES;
    ghost var v := Object(body.Fields());
    EnvelopeNils(customerID, eventType, timestamp, data);
    if Plain(v).Encoded? { BoundedAgreesWithPlain(v, MAX_PAYLOAD_BYTES, r); }
  }

  const KEY_CUSTOMER: Text :=
    ['c' as int, 'u' as int, 's' as int, 't' as int, 'o' as int, 'm' as int, 'e' as int, 'r' as int, 'I' as int,
     'd' as int]
  const KEY_TIMESTAMP: Text :=
    ['t' as int, 'i' as int, 'm' as int, 'e' as int, 's' as int, 't' as int, 'a' as int, 'm' as int, 'p' as int]
  const KEY_TYPE: Text := ['t' as int, 'y' as int, 'p' as int, 'e' as int]
  const KEY_DATA: Text := ['d' as int, 'a' as int, 't' as int, 'a' as int]

  function EnvelopeFields(customerID: Text, eventType: Text, timestamp: Text, data: Json): seq<Field> {
    [Field(KEY_TYPE, Str(eventType)), Field(KEY_CUSTOMER, Str(customerID)),
     Field(KEY_TIMESTAMP, Str(timestamp)), Field(KEY_DATA, data)]
  }

  lemma SetNewField(fields: seq<Field>, key: Text, value: Json)
    requires forall i | 0 <= i < |fields| :: fields[i].key != key
    ensures SetField(fields, key, value) == fields + [Field(key, value)]
  {
    if fields != [] {
      SetNewField(fields[1..], key, value);
    }
  }

  lemma EnvelopeOrder(customerID: Text, eventType: Text, timestamp: Text, data: Json)
    ensures var a := SetField([], KEY_TYPE, Str(eventType));
            var b := SetField(a, KEY_CUSTOMER, Str(customerID));
            var c := SetField(b, KEY_TIMESTAMP, Str(timestamp));
            SetField(c, KEY_DATA, data) == EnvelopeFields(customerID, eventType, timestamp, data)
  {
    hide SetField;
    var a := [Field(KEY_TYPE, Str(eventType))];
    var b := a + [Field(KEY_CUSTOMER, Str(customerID))];
    var c := b + [Field(KEY_TIMESTAMP, Str(timestamp))];
    assert |KEY_TYPE| == 4 && |KEY_CUSTOMER| == 10 && |KEY_TIMESTAMP| == 9 && |KEY_DATA| == 4
           && KEY_TYPE[0] != KEY_DATA[0];
    SetNewField([], KEY_TYPE, Str(eventType));
    SetNewField(a, KEY_CUSTOMER, Str(customerID));
    SetNewField(b, KEY_TIMESTAMP, Str(timestamp));
    SetNewField(c, KEY_DATA, data);
    assert [] + a == a;
    assert c + [Field(KEY_DATA, data)] == EnvelopeFields(customerID, eventType, timestamp, data);
  }

  lemma NilFieldsNext(v: Json, i: nat)
    requires v.Object? && i < |v.fields|
    ensures NilFields(v, i + 1) == Sum(NilFields(v, i), NilsIn(v.fields[i].value))
    ensures NilFields(v, 0) == NO_NILS && (v.fields[i].value.Str? ==> NilsIn(v.fields[i].value) == NO_NILS)
  {
  }

  lemma LastFieldNils(v: Json)
    requires v.Object? && |v.fields| == 4 && forall i | 0 <= i < 3 :: v.fields[i].value.Str?
    ensures NilsIn(v) == NilsIn(v.fields[3].value)
  {
    hide NilsIn, NilFields, Encode, EncodeFields;
    ObjectParts(v, true);
    NilFieldsNext(v, 0);
    NilFieldsNext(v, 1);
    NilFieldsNext(v, 2);
    NilFieldsNext(v, 3);
  }

  lemma EnvelopeNils(customerID: Text, eventType: Text, timestamp: Text, data: Json)
    ensures NilsIn(Object(EnvelopeFields(customerID, eventType, timestamp, data))) == NilsIn(data)
  {
    hide NilsIn;
    LastFieldNils(Object(EnvelopeFields(customerID, eventType, timestamp, data)));
  }
}
