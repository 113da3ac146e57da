/**
 What the limit failure means. Whenever the scanner answers it, the text up to
 some position, finished with at most one null and closing brackets, is a
 duplicate-free document that passes a limit: the limit was passed by what had
 been read, and nothing before it was wrong.
 */
module JsonLimits {
  import opened Bytes
  import opened JsonGrammar
  import opened JsonScanner
  import opened JsonTheorems
  import Utf8

  const COLON_NULL: Text := [':' as int] + WORD_NULL
  const BRACKET: Text := [']' as int]
  const BRACE: Text := ['}' as int]

  predicate Closers(e: Text) {
    forall i | 0 <= i < |e| :: e[i] == ']' as int || e[i] == '}' as int
  }

  /** Nothing but closing brackets, after a null value or the colon and null of a member that lacks them. */
  predicate Finishes(e: Text) {
    || Closers(e)
    || (WORD_NULL <= e && Closers(e[|WORD_NULL|..]))
    || (COLON_NULL <= e && Closers(e[|COLON_NULL|..]))
  }

  lemma FinishesMore(e: Text, close: Text)
    requires Finishes(e) && Closers(close)
    ensures Finishes(e + close)
  {
    if WORD_NULL <= e { assert (e + close)[|WORD_NULL|..] == e[|WORD_NULL|..] + close; }
    if COLON_NULL <= e { assert (e + close)[|COLON_NULL|..] == e[|COLON_NULL|..] + close; }
  }

  /** A front of the text from `i` and how to finish it. */
  datatype Cut = Cut(k: nat, rest: Text)

  predicate CutOk(s: Text, i: nat, c: Cut) {
    i <= c.k <= |s| && Finishes(c.rest)
  }

  function Whole(s: Text, i: nat, c: Cut): Text
    requires CutOk(s, i, c)
  {
    s[i..c.k] + c.rest
  }

  /** The finished front is a duplicate-free value that passes a limit. */
  ghost predicate Passes(s: Text, i: nat, depth: nat, tokens: nat, c: Cut, v: Value) {
    && CutOk(s, i, c) && WellFormed(v) && DistinctKeys(v) && Whole(s, i, c) == Render(v)
    && !(WithinLimits(v, depth) && tokens + Tokens(v) <= MAX_TOKENS)
  }

  ghost predicate ItemsPass(s: Text, i: nat, depth: nat, tokens: nat, c: Cut, items: Items) {
    && CutOk(s, i, c) && ItemsOk(items) && ItemsDistinct(items) && Whole(s, i, c) == RenderItems(items)
    && !(ItemsWithin(items, depth) && tokens + ItemsTokens(items) + 1 <= MAX_TOKENS)
  }

  ghost predicate MembersPass(s: Text, i: nat, depth: nat, tokens: nat, keys: set<Text>, members: nat, c: Cut,
                              ms: Members) {
    && CutOk(s, i, c) && MembersOk(ms) && FreshKeys(ms, keys) && MembersDistinct(ms)
    && Whole(s, i, c) == RenderMembers(ms)
    && !(MembersWithin(ms, depth) && members + MemberCount(ms) <= MAX_MEMBERS + 1
         && tokens + MembersTokens(ms) + 1 <= MAX_TOKENS)
  }

  // ----- scalars -----

  lemma FullString(s: Text, i: nat, fieldName: bool) returns (ps: seq<Piece>)
    requires Next(s, i, QUOTE) && StringAt(s, i, fieldName) == StringFail(FailureLimit)
    ensures PiecesOk(ps) && At(s, i, RenderString(ps)) && !StringFits(Decode(ps), fieldName)
  {
    hide At, StringEnd, RenderPieces, PiecesOk, Unquote, StringFits, Decode;
    var end := StringEnd(s, i + 1);
    ps := StringSpelled(s, i + 1);
    AtSelf(s, i, i + 1);
    assert s[i..i + 1] == [QUOTE];
    assert RenderString(ps) == [QUOTE] + (RenderPieces(ps) + [QUOTE]);
    AtConcat(s, i, [QUOTE], RenderPieces(ps) + [QUOTE]);
    AtConcat(s, i + 1, RenderPieces(ps), [QUOTE]);
    AtSlice(s, i + 1, RenderPieces(ps));
    assert s[i + 1..end - 1] == RenderPieces(ps);
    UnquoteRendered(ps);
  }

  lemma NullPasses(s: Text, i: nat, depth: nat, tokens: nat) returns (c: Cut, v: Value)
    requires i <= |s| && tokens + 1 > MAX_TOKENS
    ensures Passes(s, i, depth, tokens, c, v)
  {
    c, v := Cut(i, WORD_NULL), Literal(Null);
  }

  lemma SpelledPasses(s: Text, i: nat, depth: nat, tokens: nat, v: Value) returns (c: Cut)
    requires WellFormed(v) && DistinctKeys(v) && At(s, i, Render(v)) && !WithinLimits(v, depth)
    ensures Passes(s, i, depth, tokens, c, v)
  {
    hide WellFormed, DistinctKeys, WithinLimits, Render, Tokens;
    AtSlice(s, i, Render(v));
    c := Cut(i + |Render(v)|, []);
  }

  lemma LimitText(s: Text, i: nat, depth: nat, tokens: nat) returns (c: Cut, v: Value)
    requires Next(s, i, QUOTE) && ScanText(s, i, tokens) == Fail(FailureLimit)
    ensures Passes(s, i, depth, tokens, c, v)
  {
    hide StringAt, Passes, At;
    if tokens + 1 > MAX_TOKENS {
      c, v := NullPasses(s, i, depth, tokens);
    } else {
      var ps := FullString(s, i, false);
      v := String(ps);
      c := SpelledPasses(s, i, depth, tokens, v);
    }
  }

  lemma LimitNumeral(s: Text, i: nat, depth: nat, tokens: nat) returns (c: Cut, v: Value)
    requires i <= |s| && ScanNumeral(s, i, tokens) == Fail(FailureLimit)
    ensures Passes(s, i, depth, tokens, c, v)
  {
    hide NumeralEnd, Passes, At, RenderNumeral, NumeralOk;
    if tokens + 1 > MAX_TOKENS {
      c, v := NullPasses(s, i, depth, tokens);
    } else {
      var n := NumeralSpelled(s, i);
      v := Number(n);
      c := SpelledPasses(s, i, depth, tokens, v);
    }
  }

  lemma {:induction false} LimitValue(s: Text, i: nat, depth: nat, tokens: nat) returns (c: Cut, v: Value)
    requires i <= |s| && ScanValue(s, i, depth, tokens) == Fail(FailureLimit)
    ensures Passes(s, SkipSpaces(s, i), depth, tokens, c, v)
    decreases |s| - i, 2
  {
    hide Passes, SkipSpaces, ScanObject, ScanArray, ScanText, ScanNumeral;
    var j := SkipSpaces(s, i);
    if s[j] == '{' as int {
      c, v := LimitObject(s, j, depth, tokens);
    } else if s[j] == '[' as int {
      c, v := LimitArray(s, j, depth, tokens);
    } else if s[j] == QUOTE {
      c, v := LimitText(s, j, depth, tokens);
    } else if s[j] == 't' as int || s[j] == 'f' as int || s[j] == 'n' as int {
      c, v := NullPasses(s, j, depth, tokens);
    } else {
      c, v := LimitNumeral(s, j, depth, tokens);
    }
  }

  // ----- arrays -----

  lemma EmptyPasses(s: Text, i: nat, depth: nat, tokens: nat, v: Value) returns (c: Cut)
    requires v == EmptyArray([]) || v == EmptyObject([])
    requires Next(s, i, Render(v)[0]) && (depth + 1 > MAX_NESTING_DEPTH || tokens + 2 > MAX_TOKENS)
    ensures Passes(s, i, depth, tokens, c, v)
  {
    c := Cut(i + 1, Render(v)[1..]);
    assert s[i..i + 1] == [Render(v)[0]];
    assert Render(v) == [Render(v)[0]] + Render(v)[1..];
  }

  /** A bracket that opens a 33rd container or is the 10001st token fails with the limit, whatever follows. */
  lemma OpeningStops(s: Text, i: nat, depth: nat, tokens: nat)
    requires i <= |s| && (Next(s, SkipSpaces(s, i), '[' as int) || Next(s, SkipSpaces(s, i), '{' as int))
    ensures depth >= 32 || tokens >= 10_000 ==> ScanValue(s, i, depth, tokens) == Fail(FailureLimit)
  {
    hide SkipSpaces, ScanItems, ScanMembers;
  }

  lemma {:induction false} LimitArray(s: Text, i: nat, depth: nat, tokens: nat) returns (c: Cut, v: Value)
    requires Next(s, i, '[' as int) && ScanArray(s, i, depth + 1, tokens) == Fail(FailureLimit)
    ensures Passes(s, i, depth, tokens, c, v)
    decreases |s| - i, 1
  {
    hide Passes, SkipSpaces, ScanItems;
    if depth + 1 > MAX_NESTING_DEPTH || tokens + 2 > MAX_TOKENS {
      v := EmptyArray([]);
      c := EmptyPasses(s, i, depth, tokens, v);
    } else {
      SameItems(s, i + 1, depth + 1, tokens + 1);
      var items;
      c, items := LimitItems(s, i + 1, depth + 1, tokens + 1);
      v := Array(items);
      ArrayPasses(s, i, depth, tokens, c, items);
    }
  }

  lemma OpenWhole(s: Text, i: nat, b: Byte, c: Cut)
    requires Next(s, i, b) && CutOk(s, i + 1, c)
    ensures CutOk(s, i, c) && Whole(s, i, c) == [b] + Whole(s, i + 1, c)
  {
    hide Finishes;
    assert s[i..c.k] == [b] + s[i + 1..c.k];
  }

  lemma ArrayPasses(s: Text, i: nat, depth: nat, tokens: nat, c: Cut, items: Items)
    requires Next(s, i, '[' as int) && ItemsPass(s, i + 1, depth + 1, tokens + 1, c, items)
    ensures Passes(s, i, depth, tokens, c, Array(items))
  {
    hide RenderItems, ItemsOk, ItemsDistinct, ItemsWithin, ItemsTokens, CutOk, Whole;
    OpenWhole(s, i, '[' as int, c);
  }

  /** A scanned value followed by a closer or a comma, with its tokens. */
  lemma ScannedItem(s: Text, i: nat, depth: nat, tokens: nat, b: Byte) returns (p: Padded)
    requires i <= |s| && ScanValue(s, i, depth, tokens).Done?
    requires Next(s, SkipSpaces(s, ScanValue(s, i, depth, tokens).index), b)
    requires b == ',' as int || b == ']' as int || b == '}' as int
    ensures PaddedOk(p) && At(s, i, Pad(p, Render(p.value))) && DistinctKeys(p.value)
    ensures i + |Pad(p, Render(p.value))| == SkipSpaces(s, ScanValue(s, i, depth, tokens).index)
    ensures ScanValue(s, i, depth, tokens).tokens == tokens + Tokens(p.value)
  {
    hide At, SkipSpaces, ScanValue, Render, DistinctKeys, WithinLimits, Tokens, WellFormed, Pad, Spaces;
    p := PaddedSpelled(s, i, depth, tokens, b);
    AtConcat(s, i, Pad(p, Render(p.value)), [b]);
    PaddedScanned(s, i, p, depth, tokens);
  }

  lemma {:induction false} LimitItems(s: Text, i: nat, depth: nat, tokens: nat) returns (c: Cut, items: Items)
    requires i <= |s| && ScanItems(s, i, depth, tokens) == Fail(FailureLimit)
    ensures ItemsPass(s, i, depth, tokens, c, items)
    decreases |s| - i, 4
  {
    hide Passes, ItemsPass, SkipSpaces, ScanValue, At, PaddedOk, DistinctKeys, Pad, Tokens, Render;
    var r := ScanValue(s, i, depth, tokens);
    if r.Fail? {
      var v;
      c, v := LimitValue(s, i, depth, tokens);
      c, items := LastPasses(s, i, depth, tokens, c, v);
    } else {
      var m := SkipSpaces(s, r.index);
      if Next(s, m, ']' as int) {
        var p := ScannedItem(s, i, depth, tokens, ']' as int);
        c, items := Cut(m + 1, []), LastItem(p);
        ClosedPass(s, i, depth, tokens, p);
      } else {
        var p := ScannedItem(s, i, depth, tokens, ',' as int);
        var rest;
        c, rest := LimitItems(s, m + 1, depth, r.tokens);
        items := MoreItems(p, rest);
        MorePass(s, i, depth, tokens, c, p, rest);
      }
    }
  }

  lemma LastPasses(s: Text, i: nat, depth: nat, tokens: nat, cut: Cut, v: Value) returns (c: Cut, items: Items)
    requires i <= |s| && Passes(s, SkipSpaces(s, i), depth, tokens, cut, v)
    ensures ItemsPass(s, i, depth, tokens, c, items)
  {
    hide Finishes, Closers, Render, WellFormed, DistinctKeys, WithinLimits, Tokens, SkipSpaces;
    var j := SkipSpaces(s, i);
    var p := Padded(s[i..j], v, []);
    c, items := Cut(cut.k, cut.rest + BRACKET), LastItem(p);
    BracketCloses();
    FinishesMore(cut.rest, BRACKET);
    assert s[i..c.k] == s[i..j] + s[j..c.k];
    assert Whole(s, i, c) == s[i..j] + (Whole(s, j, cut) + []) + BRACKET;
  }

  lemma BracketCloses()
    ensures Closers(BRACKET) && Closers(BRACE) && Closers([])
  {
  }

  lemma ClosedPass(s: Text, i: nat, depth: nat, tokens: nat, p: Padded)
    requires PaddedOk(p) && DistinctKeys(p.value) && At(s, i, Pad(p, Render(p.value)))
    requires Next(s, i + |Pad(p, Render(p.value))|, ']' as int) && tokens + Tokens(p.value) + 1 > MAX_TOKENS
    ensures ItemsPass(s, i, depth, tokens, Cut(i + |Pad(p, Render(p.value))| + 1, []), LastItem(p))
  {
    hide Finishes, Closers, Render, WellFormed, DistinctKeys, WithinLimits, Tokens, Pad, Spaces;
    var text := Pad(p, Render(p.value));
    NothingFinishes();
    AtSlice(s, i, text);
    assert s[i..i + |text| + 1] == text + BRACKET;
    assert s[i..i + |text| + 1] + [] == text + BRACKET;
  }

  lemma NothingFinishes()
    ensures Finishes([])
  {
  }

  lemma MorePass(s: Text, i: nat, depth: nat, tokens: nat, c: Cut, p: Padded, rest: Items)
    requires PaddedOk(p) && DistinctKeys(p.value) && At(s, i, Pad(p, Render(p.value)))
    requires var end := i + |Pad(p, Render(p.value))|;
             Next(s, end, ',' as int) && ItemsPass(s, end + 1, depth, tokens + Tokens(p.value), c, rest)
    ensures ItemsPass(s, i, depth, tokens, c, MoreItems(p, rest))
  {
    hide Finishes, Render, WellFormed, DistinctKeys, WithinLimits, Tokens, Pad, Spaces;
    var text := Pad(p, Render(p.value));
    var end := i + |text|;
    AtSlice(s, i, text);
    assert s[i..c.k] == text + ([',' as int] + s[end + 1..c.k]);
    assert Whole(s, i, c) == text + ([',' as int] + Whole(s, end + 1, c));
  }

  // ----- objects -----

  ghost predicate ShortKeys(keys: set<Text>) {
    forall k | k in keys :: |k| <= MAX_FIELD_NAME_BYTES
  }

  lemma {:induction false} LimitObject(s: Text, i: nat, depth: nat, tokens: nat) returns (c: Cut, v: Value)
    requires Next(s, i, '{' as int) && ScanObject(s, i, depth + 1, tokens) == Fail(FailureLimit)
    ensures Passes(s, i, depth, tokens, c, v)
    decreases |s| - i, 1
  {
    hide Passes, SkipSpaces, ScanMembers, MembersPass;
    if depth + 1 > MAX_NESTING_DEPTH || tokens + 2 > MAX_TOKENS {
      v := EmptyObject([]);
      c := EmptyPasses(s, i, depth, tokens, v);
    } else {
      SameMembers(s, i + 1, depth + 1, tokens + 1, {}, 1);
      var ms;
      c, ms := LimitMembers(s, i + 1, depth + 1, tokens + 1, {}, 1);
      v := Object(ms);
      ObjectPasses(s, i, depth, tokens, c, ms);
    }
  }

  lemma ObjectPasses(s: Text, i: nat, depth: nat, tokens: nat, c: Cut, ms: Members)
    requires Next(s, i, '{' as int) && MembersPass(s, i + 1, depth + 1, tokens + 1, {}, 1, c, ms)
    ensures Passes(s, i, depth, tokens, c, Object(ms))
  {
    FreshMeansNoDuplicates(ms, {});
    hide RenderMembers, MembersOk, MembersDistinct, MembersWithin, MembersTokens, MemberCount, FreshKeys, KeyList,
         CutOk, Whole;
    OpenWhole(s, i, '{' as int, c);
  }

  predicate MemberOk(m: Member) {
    Spaces(m.before) && PiecesOk(m.key) && Spaces(m.after) && PaddedOk(m.padded)
  }

  lemma {:induction false} LimitMembers(s: Text, i: nat, depth: nat, tokens: nat, keys: set<Text>, members: nat)
    returns (c: Cut, ms: Members)
    requires i <= |s| && tokens + 1 <= MAX_TOKENS && ShortKeys(keys)
    requires ScanMembers(s, i, depth, tokens, keys, members) == Fail(FailureLimit)
    ensures MembersPass(s, i, depth, tokens, keys, members, c, ms)
    decreases |s| - i, 4
  {
    hide MembersPass, SkipSpaces, ScanMember, At, MemberOk, DistinctKeys, Entry, Tokens, Render, Decode;
    var r := ScanMember(s, i, depth, tokens, keys, members);
    if r.MemberFail? {
      c, ms := LimitMember(s, i, depth, tokens, keys, members);
    } else {
      var end := SkipSpaces(s, r.index);
      var b := if Next(s, end, '}' as int) then '}' as int else ',' as int;
      var m := ScannedMemberOf(s, i, depth, tokens, keys, members, b);
      if r.tokens + 1 > MAX_TOKENS {
        c, ms := Cut(end, BRACE), LastMember(m);
        MemberClosed(s, i, depth, tokens, keys, members, m);
      } else {
        var rest;
        c, rest := LimitMembers(s, end + 1, depth, r.tokens, keys + {r.key}, members + 1);
        ms := MoreMembers(m, rest);
        MembersMore(s, i, depth, tokens, keys, members, c, m, rest);
      }
    }
  }

  /** A scanned member followed by a brace or a comma, with its key and its tokens. */
  lemma ScannedMemberOf(s: Text, i: nat, depth: nat, tokens: nat, keys: set<Text>, members: nat, b: Byte)
    returns (m: Member)
    requires i <= |s| && ScanMember(s, i, depth, tokens, keys, members).MemberDone?
    requires Next(s, SkipSpaces(s, ScanMember(s, i, depth, tokens, keys, members).index), b)
    requires b == ',' as int || b == '}' as int
    ensures MemberOk(m) && At(s, i, Entry(m, Render(m.padded.value))) && DistinctKeys(m.padded.value)
    ensures var r := ScanMember(s, i, depth, tokens, keys, members);
            && i + |Entry(m, Render(m.padded.value))| == SkipSpaces(s, r.index)
            && r.key == Decode(m.key) && r.key !in keys && |r.key| <= MAX_FIELD_NAME_BYTES
            && r.tokens == tokens + 1 + Tokens(m.padded.value)
  {
    hide At, SkipSpaces, ScanMember, Render, DistinctKeys, WithinLimits, Tokens, WellFormed, Entry, Spaces, PiecesOk,
         Decode;
    m := EntrySpelled(s, i, depth, tokens, keys, members, b);
    AtConcat(s, i, Entry(m, Render(m.padded.value)), [b]);
    EntryScanned(s, i, m, depth, tokens, keys, members);
  }

  lemma MemberClosed(s: Text, i: nat, depth: nat, tokens: nat, keys: set<Text>, members: nat, m: Member)
    requires MemberOk(m) && DistinctKeys(m.padded.value) && Decode(m.key) !in keys
    requires At(s, i, Entry(m, Render(m.padded.value))) && tokens + 1 + Tokens(m.padded.value) + 1 > MAX_TOKENS
    ensures MembersPass(s, i, depth, tokens, keys, members, Cut(i + |Entry(m, Render(m.padded.value))|, BRACE),
                        LastMember(m))
  {
    hide Render, WellFormed, DistinctKeys, WithinLimits, Tokens, Entry, Spaces, PiecesOk, Decode;
    var text := Entry(m, Render(m.padded.value));
    AtSlice(s, i, text);
    BracketCloses();
  }

  lemma MembersMore(s: Text, i: nat, depth: nat, tokens: nat, keys: set<Text>, members: nat, c: Cut, m: Member,
                    rest: Members)
    requires MemberOk(m) && DistinctKeys(m.padded.value) && Decode(m.key) !in keys
    requires At(s, i, Entry(m, Render(m.padded.value)))
    requires var end := i + |Entry(m, Render(m.padded.value))|;
             && Next(s, end, ',' as int)
             && MembersPass(s, end + 1, depth, tokens + 1 + Tokens(m.padded.value), keys + {Decode(m.key)}, members + 1,
                            c, rest)
    ensures MembersPass(s, i, depth, tokens, keys, members, c, MoreMembers(m, rest))
  {
    hide Finishes, Render, WellFormed, DistinctKeys, WithinLimits, Tokens, Entry, Spaces, PiecesOk, Decode;
    var text := Entry(m, Render(m.padded.value));
    var end := i + |text|;
    AtSlice(s, i, text);
    assert s[i..c.k] == text + ([',' as int] + s[end + 1..c.k]);
    assert Whole(s, i, c) == text + ([',' as int] + Whole(s, end + 1, c));
  }

  /** The member whose value the text does not reach. */
  function NullMember(before: Text, key: seq<Piece>): Member {
    Member(before, key, [], Padded([], Literal(Null), []))
  }

  lemma NullMemberOk(before: Text, key: seq<Piece>, keys: set<Text>)
    requires Spaces(before) && PiecesOk(key) && Decode(key) !in keys
    ensures var ms := LastMember(NullMember(before, key));
            MembersOk(ms) && FreshKeys(ms, keys) && MembersDistinct(ms) && MemberCount(ms) == 1
  {
    NoSpaces();
    hide Spaces, PiecesOk, Decode;
    assert WellFormed(Literal(Null)) && DistinctKeys(Literal(Null));
  }

  lemma NullRendered(before: Text, key: seq<Piece>)
    ensures RenderMembers(LastMember(NullMember(before, key))) == before + RenderString(key) + (COLON_NULL + BRACE)
  {
    hide RenderString, RenderMembers;
    LastRendered(before, key, [], [], Literal(Null));
    assert Render(Literal(Null)) == WORD_NULL;
  }

  lemma NullFinishes()
    ensures Finishes(COLON_NULL + BRACE)
  {
    BracketCloses();
    assert (COLON_NULL + BRACE)[|COLON_NULL|..] == BRACE;
  }

  lemma KeyPasses(s: Text, i: nat, depth: nat, tokens: nat, keys: set<Text>, members: nat, before: Text,
                  key: seq<Piece>)
    returns (c: Cut, ms: Members)
    requires Spaces(before) && PiecesOk(key) && At(s, i, before + RenderString(key)) && Decode(key) !in keys
    requires |Decode(key)| > MAX_FIELD_NAME_BYTES || members > MAX_MEMBERS
    ensures MembersPass(s, i, depth, tokens, keys, members, c, ms)
  {
    NullMemberOk(before, key, keys);
    NullRendered(before, key);
    NullFinishes();
    hide Spaces, PiecesOk, RenderString, Decode, Finishes, RenderMembers, MembersOk, FreshKeys, MembersDistinct,
         MemberCount;
    var text := before + RenderString(key);
    AtSlice(s, i, text);
    c, ms := Cut(i + |text|, COLON_NULL + BRACE), LastMember(NullMember(before, key));
  }

  lemma NoSpaces()
    ensures Spaces([])
  {
  }

  lemma {:induction false} LimitMember(s: Text, i: nat, depth: nat, tokens: nat, keys: set<Text>, members: nat)
    returns (c: Cut, ms: Members)
    requires i <= |s| && tokens + 1 <= MAX_TOKENS && ShortKeys(keys)
    requires ScanMember(s, i, depth, tokens, keys, members) == MemberFail(FailureLimit)
    ensures MembersPass(s, i, depth, tokens, keys, members, c, ms)
    decreases |s| - i, 3
  {
    hide MembersPass, SkipSpaces, At, StringAt, ScanValue, Spaces, PiecesOk, RenderString, Decode, Passes;
    var j := SkipSpaces(s, i);
    var r := ScanKey(s, i, tokens);
    if r.StringFail? {
      var key := FullString(s, j, true);
      AtSelf(s, i, j);
      AtConcat(s, i, s[i..j], RenderString(key));
      c, ms := KeyPasses(s, i, depth, tokens, keys, members, s[i..j], key);
    } else {
      var before, key := KeySpelled(s, i, tokens);
      KeyIs(s, i, tokens, before, key);
      if members > MAX_MEMBERS {
        c, ms := KeyPasses(s, i, depth, tokens, keys, members, before, key);
      } else {
        var gap := GapSpelled(s, r.index, ':' as int);
        var colon := r.index + |gap|;
        var v;
        c, v := LimitValue(s, colon + 1, depth, tokens + 1);
        AtConcat(s, i, before + RenderString(key), gap + [':' as int]);
        c, ms := ValuePasses(s, i, depth, tokens, keys, members, before, key, gap, c, v);
      }
    }
  }

  lemma KeyIs(s: Text, i: nat, tokens: nat, before: Text, key: seq<Piece>)
    requires i <= |s| && ScanKey(s, i, tokens).StringDone?
    requires Spaces(before) && PiecesOk(key) && At(s, i, before + RenderString(key))
    ensures ScanKey(s, i, tokens).value == Decode(key)
  {
    hide At, Spaces, PiecesOk, RenderString, Decode, SkipSpaces, StringAt;
    AtConcat(s, i, before, RenderString(key));
    KeyScanned(s, i, Member(before, key, [], Padded([], Literal(Null), [])), tokens);
  }

  /** The text of the last member, finished. */
  lemma LastWhole(s: Text, i: nat, text: Text, j: nat, cut: Cut)
    requires i + |text| <= j && At(s, i, text) && CutOk(s, j, cut)
    ensures var c := Cut(cut.k, cut.rest + BRACE);
            && CutOk(s, i, c)
            && Whole(s, i, c) == text + (s[i + |text|..j] + (Whole(s, j, cut) + [])) + BRACE
  {
    hide Finishes, Closers;
    AtSlice(s, i, text);
    BracketCloses();
    FinishesMore(cut.rest, BRACE);
    assert s[i..cut.k] == text + s[i + |text|..j] + s[j..cut.k];
  }

  lemma LastRendered(before: Text, key: seq<Piece>, gap: Text, pad: Text, v: Value)
    ensures RenderMembers(LastMember(Member(before, key, gap, Padded(pad, v, [])))) ==
            before + RenderString(key) + (gap + [':' as int]) + (pad + (Render(v) + [])) + BRACE
  {
    hide RenderString, Render;
  }

  lemma ValuePasses(s: Text, i: nat, depth: nat, tokens: nat, keys: set<Text>, members: nat, before: Text,
                    key: seq<Piece>, gap: Text, cut: Cut, v: Value)
    returns (c: Cut, ms: Members)
    requires Spaces(before) && PiecesOk(key) && Spaces(gap) && Decode(key) !in keys
    requires At(s, i, before + RenderString(key) + (gap + [':' as int]))
    requires var after := i + |before + RenderString(key) + (gap + [':' as int])|;
             Passes(s, SkipSpaces(s, after), depth, tokens + 1, cut, v)
    ensures MembersPass(s, i, depth, tokens, keys, members, c, ms)
  {
    hide Finishes, Closers, Render, WellFormed, DistinctKeys, WithinLimits, Tokens, SkipSpaces, PiecesOk, RenderString,
         Decode, At, RenderMembers, CutOk, Whole;
    var text := before + RenderString(key) + (gap + [':' as int]);
    var after := i + |text|;
    var j := SkipSpaces(s, after);
    NoSpaces();
    LastWhole(s, i, text, j, cut);
    LastRendered(before, key, gap, s[after..j], v);
    c, ms := Cut(cut.k, cut.rest + BRACE), LastMember(Member(before, key, gap, Padded(s[after..j], v, [])));
  }

  // ----- documents -----

  /** A front of the text, finished, is a duplicate-free document that passes a limit. */
  ghost predicate LimitReached(data: Text) {
    exists c, doc :: CutOk(data, 0, c) && IsDocument(Whole(data, 0, c), doc) && !DocumentWithinLimits(doc)
  }

  /** The limit failure is answered only for a text that is too long or that has passed a limit so far. */
  lemma LimitMeansPassed(data: Text)
    requires ParseFailure(data) == FailureLimit
    ensures |data| > 1_048_576 || LimitReached(data)
  {
    hide Passes, SkipSpaces, ScanValue, Utf8.Valid, HasByteOrderMark;
    if |data| <= MAX_DOCUMENT_BYTES {
      SameValue(data, 0, 0, 0);
      var c, v := LimitValue(data, 0, 0, 0);
      DocumentPasses(data, c, v);
    }
  }

  lemma DocumentPasses(data: Text, c: Cut, v: Value)
    requires Passes(data, SkipSpaces(data, 0), 0, 0, c, v)
    ensures LimitReached(data)
  {
    hide Finishes, Render, WellFormed, DistinctKeys, WithinLimits, Tokens, SkipSpaces;
    var j := SkipSpaces(data, 0);
    var doc := Padded(data[0..j], v, []);
    NoSpaces();
    assert data[0..c.k] == data[0..j] + data[j..c.k];
    assert Whole(data, 0, c) == data[0..j] + (Whole(data, j, c) + []);
    assert IsDocument(Whole(data, 0, c), doc);
    assert !DocumentWithinLimits(doc);
  }
}
