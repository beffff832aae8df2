/** The opaque cursor of a page: base64url around `timestamp|identifier`. */
module Cursor {
  import opened Wrappers
  import opened Timestamps
  import opened Persistence
  import opened Digits
  import opened CursorText
  import Base64Url

  /** The key of the last row of a page. */
  datatype Position = Position(createdAt: Timestamp, id: Uuid)

  /** Which component of the decoder refused its input; all of these are caught together. */
  datatype CodecError = NotAscii | BadBase64 | NotText | NoSeparator | BadTimestamp | BadIdentifier

  datatype CursorError = InvalidCursorError(cursor: string)

  predicate IsAscii(s: string) {
    forall c | c in s :: c < 128 as char
  }

  function Bytes(s: string): (bytes: seq<Base64Url.Byte>)
    requires IsAscii(s)
    ensures |bytes| == |s|
  {
    seq<Base64Url.Byte>(|s|, i requires 0 <= i < |s| => assert s[i] in s; s[i] as Base64Url.Byte)
  }

  /** The text of ASCII bytes. */
  function Text(bytes: seq<Base64Url.Byte>): Option<string> {
    if forall b | b in bytes :: b < 128 then
      Some(seq(|bytes|, i requires 0 <= i < |bytes| => assert bytes[i] in bytes; bytes[i] as char))
    else None
  }

  function CursorBody(p: Position): string {
    Iso(p.createdAt) + ['|'] + UuidText(p.id)
  }

  lemma CursorBodyIsAscii(p: Position)
    ensures IsAscii(CursorBody(p))
  {
    hide Iso, UuidText;
    IsoIsPlain(p.createdAt);
    UuidIsPlain(p.id);
  }

  function Encode(p: Position): string {
    CursorBodyIsAscii(p);
    Base64Url.Encode(Bytes(CursorBody(p)))
  }

  /** The two halves of a decoded cursor. */
  function ReadBody(body: string): Result<Position, CodecError> {
    match Split('|', body)
    case None => Failure(NoSeparator)
    case Some((createdAt, id)) =>
      if ReadIso(createdAt).None? then Failure(BadTimestamp)
      else if ReadUuid(id).None? then Failure(BadIdentifier)
      else Success(Position(ReadIso(createdAt).value, ReadUuid(id).value))
  }

  function Read(cursor: string): Result<Position, CodecError> {
    if !IsAscii(cursor) then Failure(NotAscii)
    else
      match Base64Url.Decode(cursor)
      case Failure(_) => Failure(BadBase64)
      case Success(bytes) => if Text(bytes).None? then Failure(NotText) else ReadBody(Text(bytes).value)
  }

  /** Whatever component refuses, the caller is told that the cursor is invalid. */
  function Decode(cursor: string): Result<Position, CursorError> {
    match Read(cursor)
    case Failure(_) => Failure(InvalidCursorError(cursor))
    case Success(p) => Success(p)
  }

  lemma TextOfBytes(s: string)
    requires IsAscii(s)
    ensures Text(Bytes(s)) == Some(s)
  {
    var bytes := Bytes(s);
    forall b | b in bytes ensures b < 128 {
      var i :| 0 <= i < |bytes| && bytes[i] == b;
      assert s[i] in s;
    }
    assert Text(bytes).value == s;
  }

  lemma BodyRoundTrip(p: Position)
    ensures ReadBody(CursorBody(p)) == Success(p)
  {
    hide Iso, UuidText, ReadIso, ReadUuid;
    IsoIsPlain(p.createdAt);
    SplitAtMark('|', Iso(p.createdAt), UuidText(p.id));
    IsoRoundTrip(p.createdAt);
    UuidRoundTrip(p.id);
  }

  /** A cursor decodes to the creation time and identifier it was made from. */
  lemma RoundTrip(p: Position)
    ensures Decode(Encode(p)) == Success(p)
  {
    hide CursorBody, Bytes, Text, ReadBody;
    var body := CursorBody(p);
    CursorBodyIsAscii(p);
    Base64Url.EncodeIsAscii(Bytes(body));
    Base64Url.RoundTrip(Bytes(body));
    TextOfBytes(body);
    BodyRoundTrip(p);
  }

  /** Different positions have different cursors. */
  lemma Injective(p: Position, q: Position)
    requires Encode(p) == Encode(q)
    ensures p == q
  {
    hide Encode, Decode;
    RoundTrip(p);
    RoundTrip(q);
  }

  // ---------------------------------------------------------------- which texts are cursors

  /** Base64url, in the lenient reading, of a timestamp, a bar and an identifier. */
  ghost predicate Spells(cursor: string, a: string, b: string, p: Position) {
    && IsAscii(a + ['|'] + b) && '|' !in a
    && Base64Url.Decode(cursor) == Success(Bytes(a + ['|'] + b))
    && ReadIso(a) == Some(p.createdAt) && ReadUuid(b) == Some(p.id)
  }

  lemma BytesOfText(bytes: seq<Base64Url.Byte>)
    requires Text(bytes).Some?
    ensures IsAscii(Text(bytes).value) && Bytes(Text(bytes).value) == bytes
  {
    var s := Text(bytes).value;
    forall c | c in s ensures c < 128 as char {
      var i :| 0 <= i < |s| && s[i] == c;
      assert bytes[i] in bytes;
    }
  }

  lemma SpelledIsDecoded(cursor: string, a: string, b: string, p: Position)
    requires IsAscii(cursor) && Spells(cursor, a, b, p)
    ensures Decode(cursor) == Success(p)
  {
    hide ReadIso, ReadUuid, Split, Base64Url.Decode, Bytes, Text;
    TextOfBytes(a + ['|'] + b);
    SplitAtMark('|', a, b);
  }

  lemma DecodedIsSpelled(cursor: string, p: Position)
    requires Decode(cursor) == Success(p)
    ensures IsAscii(cursor) && exists a, b :: Spells(cursor, a, b, p)
  {
    hide ReadIso, ReadUuid, Split, Base64Url.Decode, Bytes, Text;
    var bytes := Base64Url.Decode(cursor).value;
    BytesOfText(bytes);
    var body := Text(bytes).value;
    SplitMeaning('|', body);
    var (a, b) := Split('|', body).value;
    assert Spells(cursor, a, b, p);
  }

  /** Decoding succeeds exactly on those texts; every other text is reported as an invalid cursor. */
  lemma DecodeMeaning(cursor: string, p: Position)
    ensures Decode(cursor) == Success(p) <==> IsAscii(cursor) && exists a, b :: Spells(cursor, a, b, p)
    ensures Decode(cursor).Failure? ==> Decode(cursor) == Failure(InvalidCursorError(cursor))
  {
    if Decode(cursor) == Success(p) {
      DecodedIsSpelled(cursor, p);
    }
    if a, b :| IsAscii(cursor) && Spells(cursor, a, b, p) {
      SpelledIsDecoded(cursor, a, b, p);
    }
  }

  /** Spellings are not unique: foreign ASCII characters inside a cursor do not matter. */
  lemma ForeignCharactersIgnored(s: string, c: char, rest: string)
    requires Base64Url.DecodeChar(c).None? && c != '=' && c < 128 as char
    requires IsAscii(s + rest)
    ensures Read(s + [c] + rest) == Read(s + rest)
  {
    hide Base64Url.Decode, ReadBody, Text;
    Base64Url.ForeignCharactersIgnored(s, c, rest);
    forall d | d in s + [c] + rest ensures d < 128 as char {
      assert d in s + rest || d == c;
    }
  }
}
