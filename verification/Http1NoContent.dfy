/** Responses whose status forbids content, where the reader departs from RFC 9112. */
module Http1NoContent {
  import opened Bytes
  import opened Http1Framing
  import opened Http1Message
  import opened Wrappers
  import Utf8

  /** Statuses whose responses end with their head, whatever it declares (section 6.3 of RFC 9112). */
  predicate ForbidsContent(status: int) {
    100 <= status < 200 || status == 204 || status == 304
  }

  predicate DeclaresNothing(f: Framing)
    requires f.Framing?
  {
    f.length == Some(0) || (f.length.None? && !f.chunked)
  }

  /**
   The body of a response by section 6.3 of RFC 9112: none, chunks, a number of bytes, or
   everything up to the close.
   */
  function BodyByRfc(status: int, framing: Framing, s: Text): Body
    requires framing.Framing?
  {
    if ForbidsContent(status) then BodyDone([], s)
    else if framing.chunked then
      match Dechunk(s, [])
      case ChunkedDone(wire, rest) => BodyDone(wire, rest)
      case ChunkedFail(_, e) => BodyFail(e)
    else if framing.length.Some? then
      if |s| < framing.length.value then BodyFail(ErrIncompleteBody)
      else BodyDone(s[..framing.length.value], s[framing.length.value..])
    else BodyDone(s, [])
  }

  /** A body that is read is the one the RFC describes if and only if the status allows one or none is declared. */
  lemma BodyByRfcExactly(status: int, framing: Framing, s: Text)
    requires framing.Framing? && !(framing.length.Some? && framing.chunked)
    ensures BodyOf(status, framing, s).BodyDone? ==>
              (BodyOf(status, framing, s) == BodyByRfc(status, framing, s)
               <==> !ForbidsContent(status) || DeclaresNothing(framing))
  {
    hide Dechunk;
    if framing.length.None? && framing.chunked && Dechunk(s, []).ChunkedDone? { DechunkConsumes(s, []); }
  }

  // ----- an input -----

  /** "content-length" */
  const NAME: Text :=
    [0x63, 0x6f, 0x6e, 0x74, 0x65, 0x6e, 0x74, 0x2d, 0x6c, 0x65, 0x6e, 0x67, 0x74, 0x68]
  /** "HTTP/1.1 204" */
  const STATUS_LINE: Text := [0x48, 0x54, 0x54, 0x50, 0x2f, 0x31, 0x2e, 0x31, 0x20, 0x32, 0x30, 0x34]
  const ONE: Text := [0x31]
  const BODY: Text := [0x58]
  const HEADER: Header := Header(NAME, ONE)

  function After(line: Text, following: Text): Text {
    line + [CR, LF] + following
  }

  /** A 204 response that declares one byte, and the byte. */
  const NO_CONTENT: Text := After(STATUS_LINE, After(NAME + [COLON] + ONE, After([], BODY)))

  lemma StatusParsed()
    ensures ParseStatus(STATUS_LINE) == 204
  {
    assert STATUS_LINE[..9] == Ascii("HTTP/1.1 ");
  }

  lemma NameIs()
    ensures NAME == Ascii("content-length")
  {
  }

  lemma NameIsToken()
    ensures forall i | 0 <= i < |NAME| :: TokenByte(NAME[i])
  {
    assert Ascii("!#$%&'*+-.^_`|~")[8] == 0x2d;
  }

  lemma HeaderParsed()
    ensures ParseHeader(NAME + [COLON] + ONE) == HeaderDone(HEADER)
  {
    hide TokenByte;
    var line := NAME + [COLON] + ONE;
    NameIsToken();
    IndexIs(line, COLON, 14);
    assert line[..14] == NAME && line[15..] == ONE;
    assert TrimLeft(ONE) == ONE && TrimRight(ONE) == ONE;
    assert Utf8.Valid(ONE) by { assert ONE[1..] == []; }
  }

  lemma FieldsParsed()
    ensures FieldsOf(After(NAME + [COLON] + ONE, After([], BODY)), []) == FieldsDone([HEADER], BODY)
  {
    hide LineOf, ParseHeader;
    HeaderParsed();
    LineRendered(NAME + [COLON] + ONE, After([], BODY), MAX_HEADER_BYTES + 2);
    LineRendered([], BODY, MAX_HEADER_BYTES + 2);
    assert [] + [HEADER] == [HEADER];
  }

  /** Folding keeps the length of ASCII text. */
  lemma {:induction false} FoldedLength(s: Text)
    requires forall i | 0 <= i < |s| :: s[i] < 0x80
    ensures |Fold(s)| == |s|
    decreases |s|
  {
    if s != [] { FoldedLength(s[1..]); }
  }

  predicate IsAscii(s: Text) {
    forall i | 0 <= i < |s| :: s[i] < 0x80
  }

  lemma OtherName(h: Header, name: Text)
    requires IsAscii(h.name) && IsAscii(name) && |h.name| != |name|
    ensures Values([h], name) == []
  {
    hide Fold;
    FoldedLength(h.name);
    FoldedLength(name);
    assert [h][..0] == [];
  }

  lemma SameName(h: Header)
    ensures Values([h], h.name) == [h.value]
  {
    hide Fold;
    assert [h][..0] == [];
  }

  lemma OneByte()
    ensures LengthOf([ONE]) == Length(1)
  {
    assert ONE[..0] == [];
  }

  lemma Framed()
    ensures FramingOf([HEADER]) == Framing(Some(1), false, false)
  {
    hide Values, LengthOf;
    NameIs();
    OneByte();
    SameName(HEADER);
    OtherName(HEADER, Ascii("transfer-encoding"));
    OtherName(HEADER, Ascii("content-encoding"));
  }

  /** There the reader returns a 204 response whose content it has consumed. */
  lemma NoContentIsRead(gunzip: Decompressor)
    ensures ForbidsContent(204)
    ensures MessageOf(NO_CONTENT, gunzip) == MessageDone(Response(204, [HEADER], BODY, 1, 1, false), [])
  {
    hide LineOf, FieldsOf, FramingOf, ParseStatus;
    StatusParsed();
    FieldsParsed();
    Framed();
    LineRendered(STATUS_LINE, After(NAME + [COLON] + ONE, After([], BODY)), MAX_HEADER_VALUE);
    assert BODY[..1] == BODY && BODY[1..] == [];
  }
}
