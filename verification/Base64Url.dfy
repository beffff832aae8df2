/** The URL-safe base64 of section 5 of RFC 4648: a strict encoder and the lenient decoder that reads it. */
module Base64Url {
  import opened Wrappers

  type Byte = n: nat | n < 256
  type Sextet = n: nat | n < 64

  function EncodeChar(k: Sextet): char {
    if k < 26 then 'A' + k as char
    else if k < 52 then 'a' + (k - 26) as char
    else if k < 62 then '0' + (k - 52) as char
    else if k == 62 then '-'
    else '_'
  }

  /** The decoder takes both alphabets, since '-' and '_' are translated to '+' and '/' before it runs. */
  function DecodeChar(c: char): Option<Sextet> {
    if 'A' <= c <= 'Z' then Some((c - 'A') as nat)
    else if 'a' <= c <= 'z' then Some((c - 'a') as nat + 26)
    else if '0' <= c <= '9' then Some((c - '0') as nat + 52)
    else if c == '-' || c == '+' then Some(62)
    else if c == '_' || c == '/' then Some(63)
    else None
  }

  /** Three bytes as four characters; a shorter last group is padded. */
  function Encode(bytes: seq<Byte>): string {
    if bytes == [] then ""
    else if |bytes| == 1 then
      [EncodeChar(bytes[0] / 4), EncodeChar(bytes[0] % 4 * 16), '=', '=']
    else if |bytes| == 2 then
      [EncodeChar(bytes[0] / 4), EncodeChar(bytes[0] % 4 * 16 + bytes[1] / 16),
       EncodeChar(bytes[1] % 16 * 4), '=']
    else
      [EncodeChar(bytes[0] / 4), EncodeChar(bytes[0] % 4 * 16 + bytes[1] / 16),
       EncodeChar(bytes[1] % 16 * 4 + bytes[2] / 64), EncodeChar(bytes[2] % 64)]
      + Encode(bytes[3..])
  }

  datatype DecodeError = TruncatedGroup

  /**
   The decoder's state: how many characters of the group have been read, the bits left over from the last one,
   and the pad characters seen. Characters outside the alphabet are skipped, and a complete padding ends the
   input whatever follows.
   */
  datatype State = State(quad: nat, left: Sextet, pads: nat)

  const START := State(0, 0, 0)

  /** One sextet: the bytes completed by it and the next state. */
  function Accept(st: State, v: Sextet): (seq<Byte>, State)
    requires st.quad < 4
  {
    if st.quad == 0 then ([], State(1, v, 0))
    else if st.quad == 1 then ([(st.left * 4 + v / 16) % 256], State(2, v % 16, 0))
    else if st.quad == 2 then ([(st.left * 16 + v / 4) % 256], State(3, v % 4, 0))
    else ([(st.left * 64 + v) % 256], State(0, 0, 0))
  }

  function DecodeFrom(s: string, st: State): Result<seq<Byte>, DecodeError>
    requires st.quad < 4
    decreases |s|
  {
    if s == "" then (if st.quad == 0 then Success([]) else Failure(TruncatedGroup))
    else if s[0] == '=' then
      var pads := if st.quad >= 2 then st.pads + 1 else st.pads;
      if st.quad >= 2 && st.quad + pads >= 4 then Success([])
      else DecodeFrom(s[1..], st.(pads := pads))
    else
      match DecodeChar(s[0])
      case None => DecodeFrom(s[1..], st)
      case Some(v) =>
        var (bytes, st') := Accept(st, v);
        var rest :- DecodeFrom(s[1..], st');
        Success(bytes + rest)
  }

  function Decode(s: string): Result<seq<Byte>, DecodeError> {
    DecodeFrom(s, START)
  }

  lemma CharRoundTrip(k: Sextet)
    ensures EncodeChar(k) != '=' && DecodeChar(EncodeChar(k)) == Some(k)
  {
  }

  /** Reading one encoded sextet. */
  lemma {:induction false} DecodeSextet(k: Sextet, rest: string, st: State)
    requires st.quad < 4
    ensures DecodeFrom([EncodeChar(k)] + rest, st) ==
      var (bytes, st') := Accept(st, k);
      match DecodeFrom(rest, st')
      case Failure(e) => Failure(e)
      case Success(more) => Success(bytes + more)
  {
    CharRoundTrip(k);
    assert ([EncodeChar(k)] + rest)[1..] == rest;
  }

  /** A whole group of four characters gives its three bytes. */
  lemma {:induction false} DecodeGroup(a: Byte, b: Byte, c: Byte, rest: string)
    requires DecodeFrom(rest, START).Success?
    ensures DecodeFrom([EncodeChar(a / 4), EncodeChar(a % 4 * 16 + b / 16),
                        EncodeChar(b % 16 * 4 + c / 64), EncodeChar(c % 64)] + rest, START)
         == Success([a, b, c] + DecodeFrom(rest, START).value)
  {
    hide DecodeFrom, EncodeChar, Accept;
    var p, q, r, t := a / 4, a % 4 * 16 + b / 16, b % 16 * 4 + c / 64, c % 64;
    var w, x, y, z := [EncodeChar(p)], [EncodeChar(q)], [EncodeChar(r)], [EncodeChar(t)];
    GroupBytes(a, b, c);
    DecodeSextet(p, x + (y + (z + rest)), START);
    DecodeSextet(q, y + (z + rest), State(1, p, 0));
    DecodeSextet(r, z + rest, State(2, b / 16, 0));
    DecodeSextet(t, rest, State(3, c / 64, 0));
    var more := DecodeFrom(rest, START).value;
    assert [] + ([a] + ([b] + ([c] + more))) == [a, b, c] + more;
    assert w + (x + (y + (z + rest)))
        == [EncodeChar(p), EncodeChar(q), EncodeChar(r), EncodeChar(t)] + rest;
  }

  /** The sextets of a group put its bytes together again, one by one. */
  lemma GroupBytes(a: Byte, b: Byte, c: Byte)
    ensures Accept(START, a / 4) == ([], State(1, a / 4, 0))
    ensures Accept(State(1, a / 4, 0), a % 4 * 16 + b / 16) == ([a], State(2, b / 16, 0))
    ensures Accept(State(2, b / 16, 0), b % 16 * 4 + c / 64) == ([b], State(3, c / 64, 0))
    ensures Accept(State(3, c / 64, 0), c % 64) == ([c], START)
  {
    assert (a % 4 * 16 + b / 16) / 16 == a % 4;
    assert (a % 4 * 16 + b / 16) % 16 == b / 16;
    assert (b % 16 * 4 + c / 64) / 4 == b % 16;
    assert (b % 16 * 4 + c / 64) % 4 == c / 64;
  }

  lemma {:induction false} DecodePads(st: State)
    requires st.quad == 2 || st.quad == 3
    requires st.pads == 0
    ensures st.quad == 2 ==> DecodeFrom(['=', '='], st) == Success([])
    ensures st.quad == 3 ==> DecodeFrom(['='], st) == Success([])
  {
    PaddingRules(st, "");
    assert ['=', '='] + "" == ['=', '='] && ['='] + "" == ['='];
  }

  /**
   Padding: ignored before the third letter of a group; one pad completes a group of three letters and two complete one
   of two, and then whatever follows is not read. A group that is neither complete nor completed is an error.
   */
  lemma {:induction false} PaddingRules(st: State, rest: string)
    requires st.quad < 4 && st.pads == 0
    ensures st.quad <= 1 ==> DecodeFrom(['='] + rest, st) == DecodeFrom(rest, st)
    ensures st.quad == 2 ==> DecodeFrom(['=', '='] + rest, st) == Success([])
    ensures st.quad == 2 ==> DecodeFrom(['='], st) == Failure(TruncatedGroup)
    ensures st.quad == 3 ==> DecodeFrom(['='] + rest, st) == Success([])
    ensures DecodeFrom("", st) == if st.quad == 0 then Success([]) else Failure(TruncatedGroup)
  {
    assert (['=', '='] + rest)[1..] == ['='] + rest && (['='] + rest)[1..] == rest;
    assert ['='][1..] == "";
  }

  /** A single pad is forgotten when a letter follows. */
  lemma {:induction false} PadForgotten(st: State, c: char, rest: string)
    requires st.quad == 2 && st.pads == 0 && DecodeChar(c).Some?
    ensures DecodeFrom(['=', c] + rest, st) == DecodeFrom([c] + rest, st)
  {
    assert (['=', c] + rest)[1..] == [c] + rest && ([c] + rest)[1..] == rest;
  }

  /** Decoding gives back every byte string from its encoding. */
  lemma {:induction false} RoundTrip(bytes: seq<Byte>)
    ensures Decode(Encode(bytes)) == Success(bytes)
  {
    if |bytes| == 1 {
      OneByte(bytes[0]);
      assert bytes == [bytes[0]];
    } else if |bytes| == 2 {
      TwoBytes(bytes[0], bytes[1]);
      assert bytes == [bytes[0], bytes[1]];
    } else if |bytes| >= 3 {
      RoundTrip(bytes[3..]);
      DecodeGroup(bytes[0], bytes[1], bytes[2], Encode(bytes[3..]));
      assert bytes == [bytes[0], bytes[1], bytes[2]] + bytes[3..];
    }
  }

  lemma {:induction false} OneByte(a: Byte)
    ensures Decode(Encode([a])) == Success([a])
  {
    hide DecodeFrom, EncodeChar, Accept;
    var p, q := a / 4, a % 4 * 16;
    GroupBytes(a, 0, 0);
    DecodeSextet(p, [EncodeChar(q)] + ['=', '='], START);
    DecodeSextet(q, ['=', '='], State(1, p, 0));
    DecodePads(State(2, 0, 0));
    assert [] + ([a] + []) == [a];
    assert [EncodeChar(p)] + ([EncodeChar(q)] + ['=', '=']) == Encode([a]);
  }

  lemma {:induction false} TwoBytes(a: Byte, b: Byte)
    ensures Decode(Encode([a, b])) == Success([a, b])
  {
    hide DecodeFrom, EncodeChar, Accept;
    var p, q, r := a / 4, a % 4 * 16 + b / 16, b % 16 * 4;
    GroupBytes(a, b, 0);
    DecodeSextet(p, [EncodeChar(q)] + ([EncodeChar(r)] + ['=']), START);
    DecodeSextet(q, [EncodeChar(r)] + ['='], State(1, p, 0));
    DecodeSextet(r, ['='], State(2, b / 16, 0));
    DecodePads(State(3, 0, 0));
    assert [] + ([a] + ([b] + [])) == [a, b];
    assert [EncodeChar(p)] + ([EncodeChar(q)] + ([EncodeChar(r)] + ['='])) == Encode([a, b]);
  }

  /** The alphabet of section 5 of RFC 4648: four runs of consecutive characters, between these ends. */
  lemma Alphabet(k: Sextet)
    ensures EncodeChar(0) == 'A' && EncodeChar(25) == 'Z' && EncodeChar(26) == 'a' && EncodeChar(51) == 'z'
    ensures EncodeChar(52) == '0' && EncodeChar(61) == '9' && EncodeChar(62) == '-' && EncodeChar(63) == '_'
    ensures k < 61 && k != 25 && k != 51 ==> EncodeChar(k + 1) == EncodeChar(k) + 1 as char
  {
  }

  /** It is read back, and so are the last two letters of the older alphabet. */
  lemma DecodeCharMeaning(c: char, k: Sextet)
    ensures DecodeChar(c) == Some(k) <==> c == EncodeChar(k) || (c == '+' && k == 62) || (c == '/' && k == 63)
  {
  }

  /** The six bits of a letter; padding stands for none. */
  function Bits(c: char): int {
    if DecodeChar(c).Some? then DecodeChar(c).value else 0
  }

  function ByteAt(bytes: seq<Byte>, i: nat): Byte {
    if i < |bytes| then bytes[i] else 0
  }

  /**
   Each group of four letters writes the 24 bits of three bytes, most significant first; a last group of one or two
   bytes is filled with zero bits, and the letters it does not need are written '='.
   */
  lemma EncodeMeaning(bytes: seq<Byte>)
    requires bytes != []
    ensures var s := Encode(bytes);
      && |s| >= 4 && s[4..] == (if |bytes| > 3 then Encode(bytes[3..]) else "")
      && ((Bits(s[0]) * 64 + Bits(s[1])) * 64 + Bits(s[2])) * 64 + Bits(s[3])
         == (ByteAt(bytes, 0) as int * 256 + ByteAt(bytes, 1)) * 256 + ByteAt(bytes, 2)
      && s[0] != '=' && s[1] != '=' && (s[2] == '=' <==> |bytes| == 1) && (s[3] == '=' <==> |bytes| <= 2)
  {
    hide EncodeChar, Bits, Encode, Decode;
    if |bytes| <= 2 {
      LastGroup(bytes);
    } else {
      FullGroup(bytes);
    }
    hide ByteAt;
    GroupBits(Encode(bytes)[..4], ByteAt(bytes, 0), ByteAt(bytes, 1), ByteAt(bytes, 2), |bytes|);
  }

  /** The letters of three bytes, of which n are there. */
  ghost predicate IsGroup(s: string, a: Byte, b: Byte, c: Byte, n: nat) {
    && |s| == 4 && (n <= 1 ==> b == 0) && (n <= 2 ==> c == 0)
    && s[0] == EncodeChar(a / 4) && s[1] == EncodeChar(a % 4 * 16 + b / 16)
    && s[2] == (if n > 1 then EncodeChar(b % 16 * 4 + c / 64) else '=')
    && s[3] == (if n > 2 then EncodeChar(c % 64) else '=')
  }

  lemma GroupBits(s: string, a: Byte, b: Byte, c: Byte, n: nat)
    requires IsGroup(s, a, b, c, n)
    ensures ((Bits(s[0]) * 64 + Bits(s[1])) * 64 + Bits(s[2])) * 64 + Bits(s[3]) == (a as int * 256 + b) * 256 + c
    ensures s[0] != '=' && s[1] != '=' && (s[2] == '=' <==> n <= 1) && (s[3] == '=' <==> n <= 2)
  {
    hide EncodeChar, Bits;
    TwentyFourBits(a, b, c);
    BitsOf(a / 4);
    BitsOf(a % 4 * 16 + b / 16);
    BitsOf(b % 16 * 4 + c / 64);
    BitsOf(c % 64);
    NoBits();
  }

  lemma LastGroup(bytes: seq<Byte>)
    requires 1 <= |bytes| <= 2
    ensures |Encode(bytes)| == 4 && Encode(bytes)[4..] == ""
    ensures IsGroup(Encode(bytes)[..4], ByteAt(bytes, 0), ByteAt(bytes, 1), ByteAt(bytes, 2), |bytes|)
  {
    hide EncodeChar;
    assert 0 / 16 == 0 && 0 / 64 == 0;
  }

  lemma FullGroup(bytes: seq<Byte>)
    requires |bytes| >= 3
    ensures |Encode(bytes)| >= 4 && Encode(bytes)[4..] == (if |bytes| > 3 then Encode(bytes[3..]) else "")
    ensures IsGroup(Encode(bytes)[..4], ByteAt(bytes, 0), ByteAt(bytes, 1), ByteAt(bytes, 2), |bytes|)
  {
    var four := GroupThenRest(bytes);
    hide Encode, EncodeChar, IsGroup;
    var rest := Encode(bytes[3..]);
    assert (four + rest)[..4] == four && (four + rest)[4..] == rest;
  }

  lemma GroupThenRest(bytes: seq<Byte>) returns (four: string)
    requires |bytes| >= 3
    ensures IsGroup(four, ByteAt(bytes, 0), ByteAt(bytes, 1), ByteAt(bytes, 2), |bytes|)
    ensures Encode(bytes) == four + Encode(bytes[3..]) && (|bytes| == 3 ==> Encode(bytes[3..]) == "")
  {
    hide EncodeChar;
    four := [EncodeChar(bytes[0] / 4), EncodeChar(bytes[0] % 4 * 16 + bytes[1] / 16),
             EncodeChar(bytes[1] % 16 * 4 + bytes[2] / 64), EncodeChar(bytes[2] % 64)];
  }

  lemma BitsOf(k: Sextet)
    ensures Bits(EncodeChar(k)) == k && EncodeChar(k) != '='
  {
    CharRoundTrip(k);
  }

  lemma NoBits()
    ensures Bits('=') == 0
  {
  }

  lemma TwentyFourBits(a: Byte, b: Byte, c: Byte)
    ensures ((((a / 4) as int * 64 + (a % 4 * 16 + b / 16)) * 64 + (b % 16 * 4 + c / 64)) * 64 + c % 64) as int
         == ((a as int) * 256 + b) * 256 + c
  {
  }

  /** Every encoding is ASCII. */
  lemma {:induction false} EncodeIsAscii(bytes: seq<Byte>)
    ensures forall c | c in Encode(bytes) :: c < 128 as char
  {
    if |bytes| >= 3 {
      EncodeIsAscii(bytes[3..]);
    }
  }

  /** The decoder is lenient: characters outside both alphabets, such as spaces, are ignored. */
  lemma {:induction false} ForeignCharactersIgnored(s: string, c: char, rest: string)
    requires DecodeChar(c).None? && c != '='
    ensures Decode(s + [c] + rest) == Decode(s + rest)
  {
    SkipForeign(s, c, rest, START);
  }

  lemma {:induction false} SkipForeign(s: string, c: char, rest: string, st: State)
    requires DecodeChar(c).None? && c != '=' && st.quad < 4
    ensures DecodeFrom(s + [c] + rest, st) == DecodeFrom(s + rest, st)
    decreases |s|
  {
    if s == "" {
      assert ([] + [c] + rest)[1..] == rest && [] + rest == rest;
    } else {
      assert (s + [c] + rest)[1..] == s[1..] + [c] + rest;
      assert (s + rest)[1..] == s[1..] + rest;
      if s[0] == '=' {
        SkipForeign(s[1..], c, rest, st.(pads := if st.quad >= 2 then st.pads + 1 else st.pads));
      } else {
        match DecodeChar(s[0])
        case None => SkipForeign(s[1..], c, rest, st);
        case Some(v) => SkipForeign(s[1..], c, rest, Accept(st, v).1);
      }
    }
  }
}
