/** The texts a cursor is made of: ISO 8601 timestamps and identifiers, printed and read back. */
module CursorText {
  import opened Wrappers
  import opened Timestamps
  import opened Persistence
  import opened Digits

  // ---------------------------------------------------------------- three fields and two marks

  /** A date, a time of day or an offset: three zero-padded numbers with a mark between them. */
  function Triple(w: nat, mark: char, a: nat, b: nat, c: nat): (s: string)
    ensures |s| == w + 6
  {
    Pad(10, a, w) + [mark] + Pad(10, b, 2) + [mark] + Pad(10, c, 2)
  }

  function ReadTriple(w: nat, mark: char, s: string): Option<(nat, nat, nat)> {
    if |s| != w + 6 || s[w] != mark || s[w + 3] != mark then None
    else
      var a, b, c := Number(10, s[..w]), Number(10, s[w + 1..w + 3]), Number(10, s[w + 4..]);
      if a.Some? && b.Some? && c.Some? then Some((a.value, b.value, c.value)) else None
  }

  lemma TripleRoundTrip(w: nat, mark: char, a: nat, b: nat, c: nat)
    requires a < Bound(10, w) && b < 100 && c < 100
    ensures ReadTriple(w, mark, Triple(w, mark, a, b, c)) == Some((a, b, c))
  {
    hide Number, Pad;
    BoundTwo();
    var s := Triple(w, mark, a, b, c);
    var x, y, z := Pad(10, a, w), Pad(10, b, 2), Pad(10, c, 2);
    assert s[..w] == x && s[w + 1..w + 3] == y && s[w + 4..] == z;
    NumberRoundTrip(10, a, w);
    NumberRoundTrip(10, b, 2);
    NumberRoundTrip(10, c, 2);
  }

  lemma BoundTwo()
    ensures Bound(10, 2) == 100 && Bound(10, 4) == 10000 && Bound(10, 6) == 1000000
  {
    assert Bound(10, 3) == 1000 && Bound(10, 5) == 100000;
  }

  // ---------------------------------------------------------------- timestamps

  function AbsOffset(n: int): nat {
    if n < 0 then -n else n
  }

  /** Microseconds are written only when there are some. */
  function MicroText(micro: nat): string {
    if micro == 0 then "" else ['.'] + Pad(10, micro, 6)
  }

  /** m seconds as hours, minutes and seconds. */
  function Hms(m: nat): (s: string)
    ensures |s| == 8
  {
    Triple(2, ':', m / 3600, m / 60 % 60, m % 60)
  }

  /** Seconds of an offset are written only when there are some. */
  function OffsetText(offset: Option<int>): string {
    match offset
    case None => ""
    case Some(n) =>
      var text := Hms(AbsOffset(n));
      [if n < 0 then '-' else '+'] + (if n % 60 == 0 then text[..5] else text)
  }

  /** isoformat. */
  function Iso(t: Timestamp): string {
    Triple(4, '-', t.year, t.month, t.day) + ['T'] + Triple(2, ':', t.hour, t.minute, t.second)
    + MicroText(t.micro) + OffsetText(t.offset)
  }

  /** The fraction of a second at the front of a text, and what follows it. */
  function ReadMicro(s: string): Option<(nat, string)> {
    if |s| == 0 || s[0] != '.' then Some((0, s))
    else if |s| < 7 || Number(10, s[1..7]).None? then None
    else Some((Number(10, s[1..7]).value, s[7..]))
  }

  function ReadOffset(s: string): Option<Option<int>> {
    if s == "" then Some(None)
    else if s[0] != '+' && s[0] != '-' then None
    else
      match ReadTriple(2, ':', if |s| == 6 then s[1..] + ":00" else s[1..])
      case None => None
      case Some((hours, minutes, seconds)) =>
        var n := (hours * 60 + minutes) * 60 + seconds;
        Some(Some(if s[0] == '-' then 0 - n else n))
  }

  /** fromisoformat on the spellings isoformat writes; a date, time or offset out of range is refused. */
  function ReadIso(s: string): Option<Timestamp> {
    if |s| < 19 || s[10] != 'T' then None
    else
      var micro := ReadMicro(s[19..]);
      if micro.None? then None
      else
        match (ReadTriple(4, '-', s[..10]), ReadTriple(2, ':', s[11..19]), ReadOffset(micro.value.1))
        case (Some((year, month, day)), Some((hour, minute, second)), Some(offset)) =>
          var t := DateTime(year, month, day, hour, minute, second, micro.value.0, offset);
          if IsReal(t) then Some(t) else None
        case _ => None
  }

  lemma OffsetRoundTrip(offset: Option<int>)
    requires offset.Some? ==> -86400 < offset.value < 86400
    ensures ReadOffset(OffsetText(offset)) == Some(offset)
    ensures OffsetText(offset) != "" ==> OffsetText(offset)[0] != '.'
  {
    if offset.Some? {
      hide ReadTriple, Hms;
      var m := AbsOffset(offset.value);
      HmsRoundTrip(m);
      var s := OffsetText(offset);
      if offset.value % 60 == 0 {
        WholeMinutes(offset.value);
        assert s[1..] == Hms(m)[..5];
      } else {
        assert s[1..] == Hms(m);
      }
    }
  }

  lemma HmsRoundTrip(m: nat)
    requires m < 86400
    ensures var t := ReadTriple(2, ':', Hms(m)); t.Some? && (t.value.0 * 60 + t.value.1) * 60 + t.value.2 == m
  {
    hide ReadTriple, Triple, Bound;
    BoundTwo();
    TripleRoundTrip(2, ':', m / 3600, m / 60 % 60, m % 60);
    HoursMinutesSeconds(m);
  }

  /** Without seconds the last three characters are left out. */
  lemma WholeMinutes(n: int)
    requires n % 60 == 0
    ensures Hms(AbsOffset(n))[..5] + ":00" == Hms(AbsOffset(n))
  {
    var m := AbsOffset(n);
    assert m % 60 == 0;
    hide Triple;
    NoSeconds(m / 3600, m / 60 % 60);
  }

  lemma HoursMinutesSeconds(m: nat)
    ensures (m / 3600 * 60 + m / 60 % 60) * 60 + m % 60 == m
  {
  }

  lemma NoSeconds(a: nat, b: nat)
    ensures Triple(2, ':', a, b, 0)[..5] + ":00" == Triple(2, ':', a, b, 0)
  {
    assert Pad(10, 0, 1) == Pad(10, 0, 0) + ['0'];
    assert Pad(10, 0, 2) == "00";
  }

  lemma MicroRoundTrip(micro: nat, rest: string)
    requires micro < 1000000 && (rest != "" ==> rest[0] != '.')
    ensures ReadMicro(MicroText(micro) + rest) == Some((micro, rest))
  {
    if micro == 0 {
      assert "" + rest == rest;
    } else {
      hide Pad, Number;
      BoundTwo();
      NumberRoundTrip(10, micro, 6);
      var s := MicroText(micro) + rest;
      assert s[1..7] == Pad(10, micro, 6) && s[7..] == rest;
    }
  }

  /** Every timestamp is read back from its text, with or without microseconds and offset. */
  lemma IsoRoundTrip(t: Timestamp)
    ensures ReadIso(Iso(t)) == Some(t)
  {
    hide ReadTriple, Triple, ReadMicro, MicroText, ReadOffset, OffsetText, Bound;
    BoundTwo();
    var date, time := Triple(4, '-', t.year, t.month, t.day), Triple(2, ':', t.hour, t.minute, t.second);
    var tail := MicroText(t.micro) + OffsetText(t.offset);
    var s := Iso(t);
    TripleRoundTrip(4, '-', t.year, t.month, t.day);
    TripleRoundTrip(2, ':', t.hour, t.minute, t.second);
    OffsetRoundTrip(t.offset);
    MicroRoundTrip(t.micro, OffsetText(t.offset));
    assert s == date + (['T'] + (time + tail));
    assert s[..10] == date && s[11..19] == time && s[19..] == tail;
  }

  /** How a number of digits stands at some place of a text. */
  ghost predicate Spelled(s: string, from: nat, to: nat, n: nat) {
    from <= to <= |s| && Number(10, s[from..to]) == Some(n)
  }

  /** A text of w + 6 characters: three numbers, the last two of two digits, with the mark before each of these. */
  lemma TripleSpelling(w: nat, mark: char, a: nat, b: nat, c: nat)
    requires a < Bound(10, w) && b < 100 && c < 100
    ensures var s := Triple(w, mark, a, b, c);
      && Spelled(s, 0, w, a) && s[w] == mark && Spelled(s, w + 1, w + 3, b) && s[w + 3] == mark
      && Spelled(s, w + 4, w + 6, c)
  {
    hide Number, Pad;
    BoundTwo();
    var s := Triple(w, mark, a, b, c);
    assert s[0..w] == Pad(10, a, w) && s[w + 1..w + 3] == Pad(10, b, 2) && s[w + 4..w + 6] == Pad(10, c, 2);
    NumberRoundTrip(10, a, w);
    NumberRoundTrip(10, b, 2);
    NumberRoundTrip(10, c, 2);
  }

  /** The date and the time of day stand where ISO 8601 has them. */
  lemma IsoSpelling(t: Timestamp)
    ensures var s := Iso(t);
      && |s| >= 19 && Spelled(s, 0, 4, t.year) && s[4] == '-' && Spelled(s, 5, 7, t.month) && s[7] == '-'
      && Spelled(s, 8, 10, t.day) && s[10] == 'T' && Spelled(s, 11, 13, t.hour) && s[13] == ':'
      && Spelled(s, 14, 16, t.minute) && s[16] == ':' && Spelled(s, 17, 19, t.second)
      && s[19..] == MicroText(t.micro) + OffsetText(t.offset)
  {
    hide Number, Triple, MicroText, OffsetText, Bound;
    BoundTwo();
    TripleSpelling(4, '-', t.year, t.month, t.day);
    TripleSpelling(2, ':', t.hour, t.minute, t.second);
    var date, time := Triple(4, '-', t.year, t.month, t.day), Triple(2, ':', t.hour, t.minute, t.second);
    var s := Iso(t);
    assert s[..10] == date && s[11..19] == time;
    assert s[0..4] == date[0..4] && s[5..7] == date[5..7] && s[8..10] == date[8..10];
    assert s[11..13] == time[0..2] && s[14..16] == time[3..5] && s[17..19] == time[6..8];
  }

  /** After them a point and six digits, if there are microseconds at all. */
  lemma MicroSpelling(micro: nat)
    requires micro < 1000000
    ensures var s := MicroText(micro);
      if micro == 0 then s == "" else |s| == 7 && s[0] == '.' && Spelled(s, 1, 7, micro)
  {
    hide Number, Pad;
    BoundTwo();
    NumberRoundTrip(10, micro, 6);
    if micro > 0 {
      assert MicroText(micro)[1..7] == Pad(10, micro, 6);
    }
  }

  /** And the offset: a sign, hours and minutes, and seconds if there are any. */
  lemma OffsetSpelling(n: int)
    requires -86400 < n < 86400
    ensures var s := OffsetText(Some(n));
      && |s| == (if n % 60 == 0 then 6 else 9) && s[0] == (if n < 0 then '-' else '+')
      && Spelled(s, 1, 3, AbsOffset(n) / 3600) && s[3] == ':' && Spelled(s, 4, 6, AbsOffset(n) / 60 % 60)
      && (n % 60 != 0 ==> s[6] == ':' && Spelled(s, 7, 9, AbsOffset(n) % 60))
    ensures OffsetText(None) == ""
  {
    hide Number, Triple, Bound;
    BoundTwo();
    var m := AbsOffset(n);
    TripleSpelling(2, ':', m / 3600, m / 60 % 60, m % 60);
    var s, text := OffsetText(Some(n)), Hms(m);
    assert s[1..3] == text[0..2] && s[4..6] == text[3..5];
    assert n % 60 != 0 ==> s[7..9] == text[6..8];
  }

  // ---------------------------------------------------------------- identifiers

  function StripDashes(s: string): string {
    if s == "" then "" else if s[0] == '-' then StripDashes(s[1..]) else [s[0]] + StripDashes(s[1..])
  }

  /** The canonical 8-4-4-4-12 spelling. */
  function UuidText(id: Uuid): string {
    var hex := Pad(16, id, 32);
    hex[..8] + ['-'] + hex[8..12] + ['-'] + hex[12..16] + ['-'] + hex[16..20] + ['-'] + hex[20..]
  }

  /** Dashes are ignored wherever they stand; 32 hexadecimal digits must remain. */
  function ReadUuid(s: string): Option<Uuid> {
    var hex := StripDashes(s);
    if |hex| != 32 || Number(16, hex).None? then None
    else
      NumberBelow(16, hex);
      BoundUuid();
      Some(Number(16, hex).value)
  }

  lemma BoundByte()
    ensures Bound(16, 2) == 256
  {
    assert Bound(16, 1) == 16;
  }

  /** Thirty-two hexadecimal digits write exactly the 128-bit identifiers. */
  lemma BoundUuid()
    ensures Bound(16, 32) == 0x1_0000_0000_0000_0000_0000_0000_0000_0000
  {
    hide Bound;
    BoundByte();
    BoundSplit(2, 2);
    BoundSplit(4, 4);
    BoundSplit(8, 8);
    BoundSplit(16, 16);
  }

  lemma StripFirst(c: char, s: string)
    ensures StripDashes([c] + s) == (if c == '-' then "" else [c]) + StripDashes(s)
  {
    assert ([c] + s)[1..] == s;
    assert "" + StripDashes(s) == StripDashes(s);
  }

  lemma {:induction false} StripAppend(a: string, b: string)
    ensures StripDashes(a + b) == StripDashes(a) + StripDashes(b)
  {
    if a == "" {
      assert "" + b == b;
    } else {
      hide StripDashes;
      StripAppend(a[1..], b);
      StripFirst(a[0], a[1..]);
      StripFirst(a[0], a[1..] + b);
      assert [a[0]] + a[1..] == a && [a[0]] + (a[1..] + b) == a + b;
      var c, x, y := if a[0] == '-' then "" else [a[0]], StripDashes(a[1..]), StripDashes(b);
      assert c + (x + y) == c + x + y;
    }
  }

  lemma {:induction false} StripNothing(s: string)
    requires '-' !in s
    ensures StripDashes(s) == s
  {
    if s != "" {
      StripNothing(s[1..]);
    }
  }

  /** One more group after a dash. */
  lemma StripGroup(a: string, b: string)
    requires '-' !in b
    ensures StripDashes(a + ['-'] + b) == StripDashes(a) + b
  {
    StripAppend(a + ['-'], b);
    StripAppend(a, ['-']);
    StripNothing(b);
    assert StripDashes(['-']) == "";
  }

  /** Every identifier is read back from its text. */
  lemma UuidRoundTrip(id: Uuid)
    ensures ReadUuid(UuidText(id)) == Some(id)
  {
    hide Pad, Number, Bound, StripDashes;
    var hex := Pad(16, id, 32);
    PadIsDigits(16, id, 32);
    assert '-' !in hex;
    BoundUuid();
    NumberRoundTrip(16, id, 32);
    var a, b, c, d, e := hex[..8], hex[8..12], hex[12..16], hex[16..20], hex[20..];
    StripNothing(a);
    StripGroup(a, b);
    StripGroup(a + ['-'] + b, c);
    StripGroup(a + ['-'] + b + ['-'] + c, d);
    StripGroup(a + ['-'] + b + ['-'] + c + ['-'] + d, e);
    assert a + b + c + d + e == hex;
  }

  lemma Dashed(a: string, b: string, c: string, d: string, e: string)
    requires |a| == 8 && |b| == |c| == |d| == 4 && |e| == 12
    ensures var s := a + ['-'] + b + ['-'] + c + ['-'] + d + ['-'] + e;
      && |s| == 36 && s[8] == s[13] == s[18] == s[23] == '-'
      && s[..8] == a && s[9..13] == b && s[14..18] == c && s[19..23] == d && s[24..] == e
  {
  }

  /** Thirty-two hexadecimal digits in lower case, with dashes after the 8th, 12th, 16th and 20th. */
  lemma UuidSpelling(id: Uuid)
    ensures var s := UuidText(id);
      && |s| == 36 && s[8] == s[13] == s[18] == s[23] == '-'
      && Number(16, s[..8] + s[9..13] + s[14..18] + s[19..23] + s[24..]) == Some(id)
      && forall i | 0 <= i < 36 && i !in {8, 13, 18, 23} :: '0' <= s[i] <= '9' || 'a' <= s[i] <= 'f'
  {
    hide Number, Pad, Bound;
    var hex, s := Pad(16, id, 32), UuidText(id);
    PadIsDigits(16, id, 32);
    BoundUuid();
    NumberRoundTrip(16, id, 32);
    Dashed(hex[..8], hex[8..12], hex[12..16], hex[16..20], hex[20..]);
    assert hex[..8] + hex[8..12] + hex[12..16] + hex[16..20] + hex[20..] == hex;
    forall i | 0 <= i < 36 && i !in {8, 13, 18, 23} ensures s[i] in hex {
      if i < 8 {
        assert s[i] == s[..8][i] == hex[i];
      } else if i < 13 {
        assert s[i] == s[9..13][i - 9] == hex[i - 1];
      } else if i < 18 {
        assert s[i] == s[14..18][i - 14] == hex[i - 2];
      } else if i < 23 {
        assert s[i] == s[19..23][i - 19] == hex[i - 3];
      } else {
        assert s[i] == s[24..][i - 24] == hex[i - 4];
      }
    }
  }

  // ---------------------------------------------------------------- the characters of these texts

  /** ASCII, and not the separator of a cursor. */
  predicate IsPlain(c: char) {
    c < 128 as char && c != '|'
  }

  predicate AllPlain(s: string) {
    forall c | c in s :: IsPlain(c)
  }

  lemma TripleIsPlain(w: nat, mark: char, a: nat, b: nat, c: nat)
    requires IsPlain(mark)
    ensures AllPlain(Triple(w, mark, a, b, c))
  {
    PadIsDigits(10, a, w);
    PadIsDigits(10, b, 2);
    PadIsDigits(10, c, 2);
  }

  lemma IsoIsPlain(t: Timestamp)
    ensures AllPlain(Iso(t))
  {
    hide Triple, Pad;
    TripleIsPlain(4, '-', t.year, t.month, t.day);
    TripleIsPlain(2, ':', t.hour, t.minute, t.second);
    PadIsDigits(10, t.micro, 6);
    if t.offset.Some? {
      var m := AbsOffset(t.offset.value);
      TripleIsPlain(2, ':', m / 3600, m / 60 % 60, m % 60);
    }
  }

  lemma UuidIsPlain(id: Uuid)
    ensures AllPlain(UuidText(id))
  {
    hide Pad;
    PadIsDigits(16, id, 32);
    var hex := Pad(16, id, 32);
    assert AllPlain(hex);
    PartIsPlain(hex, 0, 8);
    PartIsPlain(hex, 8, 12);
    PartIsPlain(hex, 12, 16);
    PartIsPlain(hex, 16, 20);
    PartIsPlain(hex, 20, 32);
  }

  lemma PartIsPlain(s: string, i: nat, j: nat)
    requires i <= j <= |s| && AllPlain(s)
    ensures AllPlain(s[i..j])
  {
  }
}
