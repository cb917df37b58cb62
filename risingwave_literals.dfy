/** Text encodings the RisingWave dialect uses for literals it renders
    itself: binary values as a string of `\xHH` escapes, dates in the
    calendar ISO-8601 form `YYYY-MM-DD`. Each encoder comes with the
    decoder that inverts it, and the round trip is proved both ways. */
module RisingWaveLiterals {
  import opened Common

  /** One element of a Python `bytes` value. */
  newtype uint8 = x: int | 0 <= x < 256

  // ---------------------------------------------------------------
  // Binary literals: every byte becomes `\x` and two lowercase hex
  // digits, zero-padded (the `{:0>2x}` format of each byte).
  // ---------------------------------------------------------------

  /** A lowercase hexadecimal digit, the alphabet of `{:x}`. */
  predicate IsHexDigit(c: char) {
    '0' <= c <= '9' || 'a' <= c <= 'f'
  }

  function HexDigit(n: int): (c: char)
    requires 0 <= n < 16
    ensures IsHexDigit(c)
  {
    if n < 10 then ('0' as int + n) as char else ('a' as int + n - 10) as char
  }

  /** The value of a lowercase hex digit; upper-case and other characters
      are not produced by the encoder and are rejected. */
  function HexValue(c: char): (r: Option<int>)
    ensures r.Some? <==> IsHexDigit(c)
    ensures r.Some? ==> 0 <= r.value < 16 && HexDigit(r.value) == c
  {
    if '0' <= c <= '9' then Some(c as int - '0' as int)
    else if 'a' <= c <= 'f' then Some(c as int - 'a' as int + 10)
    else None
  }

  lemma HexValueOfDigit(n: int)
    requires 0 <= n < 16
    ensures HexValue(HexDigit(n)) == Some(n)
  {
  }

  /** The four-character escape of one byte: a backslash, `x`, then the
      high and the low nibble as lowercase hex digits. */
  function EscapeByte(b: uint8): (r: string)
    ensures |r| == 4 && r[0] == '\\' && r[1] == 'x'
    ensures HexValue(r[2]).Some? && HexValue(r[3]).Some?
    ensures HexValue(r[2]).value * 16 + HexValue(r[3]).value == b as int
  {
    var hi, lo := b as int / 16, b as int % 16;
    HexValueOfDigit(hi);
    HexValueOfDigit(lo);
    ['\\', 'x', HexDigit(hi), HexDigit(lo)]
  }

  /** The escaped text of a byte string, bytes in order. */
  function HexEscape(bs: seq<uint8>): (r: string)
    ensures |r| == 4 * |bs|
  {
    if bs == [] then [] else EscapeByte(bs[0]) + HexEscape(bs[1..])
  }

  /** Byte `i` is escaped at characters `4 * i` to `4 * i + 3`. */
  lemma {:induction false} HexEscapeBlocks(bs: seq<uint8>, i: int)
    requires 0 <= i < |bs|
    ensures HexEscape(bs)[4 * i..4 * i + 4] == EscapeByte(bs[i])
    decreases |bs|
  {
    var e, rest := EscapeByte(bs[0]), HexEscape(bs[1..]);
    assert HexEscape(bs) == e + rest;
    if i > 0 {
      HexEscapeBlocks(bs[1..], i - 1);
      assert (e + rest)[4 * i..4 * i + 4] == rest[4 * (i - 1)..4 * (i - 1) + 4];
    } else {
      assert (e + rest)[..4] == e;
    }
  }

  /** Reads a string of `\xHH` escapes back into bytes; anything else,
      including upper-case digits and a trailing partial escape, fails. */
  function HexUnescape(s: string): (r: Option<seq<uint8>>)
    ensures r.Some? ==> |s| == 4 * |r.value|
    decreases |s|
  {
    if s == [] then Some([])
    else if |s| < 4 || s[0] != '\\' || s[1] != 'x' then None
    else match (HexValue(s[2]), HexValue(s[3]))
      case (Some(h), Some(l)) =>
        (match HexUnescape(s[4..])
         case Some(rest) => Some([(h * 16 + l) as uint8] + rest)
         case None => None)
      case _ => None
  }

  lemma {:induction false} UnescapeEscape(bs: seq<uint8>)
    ensures HexUnescape(HexEscape(bs)) == Some(bs)
    decreases |bs|
  {
    if bs != [] {
      var s := HexEscape(bs);
      var e := EscapeByte(bs[0]);
      assert s == e + HexEscape(bs[1..]);
      assert s[4..] == HexEscape(bs[1..]);
      UnescapeEscape(bs[1..]);
      assert [bs[0]] + bs[1..] == bs;
    }
  }

  /** The escape of the byte with nibbles `h` and `l`. */
  lemma EscapeOfNibbles(h: int, l: int)
    requires 0 <= h < 16 && 0 <= l < 16
    ensures EscapeByte((h * 16 + l) as uint8) == ['\\', 'x', HexDigit(h), HexDigit(l)]
  {
    var b := (h * 16 + l) as uint8;
    assert b as int / 16 == h && b as int % 16 == l;
  }

  /** An escape the decoder accepts is the escape of the byte it decodes to. */
  lemma EscapeOfAccepted(e: string)
    requires |e| == 4 && e[0] == '\\' && e[1] == 'x' && IsHexDigit(e[2]) && IsHexDigit(e[3])
    ensures EscapeByte((HexValue(e[2]).value * 16 + HexValue(e[3]).value) as uint8) == e
  {
    var h, l := HexValue(e[2]).value, HexValue(e[3]).value;
    EscapeOfNibbles(h, l);
    assert e == ['\\', 'x', HexDigit(h), HexDigit(l)];
  }

  /** A decoded string starts with the escape of its first byte, and the
      rest decodes to the remaining bytes. */
  lemma UnescapeHead(s: string, bs: seq<uint8>)
    requires s != [] && HexUnescape(s) == Some(bs)
    ensures |s| >= 4 && |bs| > 0
    ensures EscapeByte(bs[0]) == s[..4]
    ensures HexUnescape(s[4..]) == Some(bs[1..])
  {
    var h, l := HexValue(s[2]).value, HexValue(s[3]).value;
    var rest := HexUnescape(s[4..]).value;
    assert bs == [(h * 16 + l) as uint8] + rest;
    var e := s[..4];
    assert e[2] == s[2] && e[3] == s[3];
    EscapeOfAccepted(e);
  }

  lemma {:induction false} EscapeUnescape(s: string, bs: seq<uint8>)
    requires HexUnescape(s) == Some(bs)
    ensures HexEscape(bs) == s
    decreases |s|
  {
    if s != [] {
      UnescapeHead(s, bs);
      EscapeUnescape(s[4..], bs[1..]);
      assert s == s[..4] + s[4..];
    }
  }

  /** The escape is a bijection between byte strings and the strings the
      decoder accepts. */
  lemma HexRoundTrip(s: string, bs: seq<uint8>)
    ensures HexUnescape(s) == Some(bs) <==> HexEscape(bs) == s
  {
    if HexUnescape(s) == Some(bs) {
      EscapeUnescape(s, bs);
    }
    if HexEscape(bs) == s {
      UnescapeEscape(bs);
    }
  }

  // ---------------------------------------------------------------
  // Date literals: Python's `date.isoformat()`, a four-digit year, a
  // two-digit month and a two-digit day joined by dashes.
  // ---------------------------------------------------------------

  datatype CalendarDate = CalendarDate(year: int, month: int, day: int)

  predicate IsLeapYear(y: int) {
    y % 4 == 0 && (y % 100 != 0 || y % 400 == 0)
  }

  function DaysInMonth(y: int, m: int): (n: int)
    requires 1 <= m <= 12
    ensures 28 <= n <= 31
    ensures n == 29 <==> m == 2 && IsLeapYear(y)
  {
    if m == 2 then (if IsLeapYear(y) then 29 else 28)
    else if m == 4 || m == 6 || m == 9 || m == 11 then 30
    else 31
  }

  /** The dates Python's `datetime.date` can hold: years 1 to 9999 of the
      proleptic Gregorian calendar. */
  predicate ValidDate(d: CalendarDate) {
    && 1 <= d.year <= 9999
    && 1 <= d.month <= 12
    && 1 <= d.day <= DaysInMonth(d.year, d.month)
  }

  function Pow10(n: nat): (r: nat)
    ensures r >= 1
  {
    if n == 0 then 1 else 10 * Pow10(n - 1)
  }

  predicate IsDigit(c: char) {
    '0' <= c <= '9'
  }

  /** `n` in decimal, zero-padded on the left to exactly `width` digits. */
  function Digits(n: nat, width: nat): (r: string)
    requires n < Pow10(width)
    ensures |r| == width
    ensures forall i :: 0 <= i < |r| ==> IsDigit(r[i])
  {
    if width == 0 then []
    else Digits(n / 10, width - 1) + [('0' as int + n % 10) as char]
  }

  /** The value of a decimal digit string (the empty string reads as 0). */
  function ParseDigits(s: string): (r: Option<nat>)
    ensures r.Some? ==> r.value < Pow10(|s|)
    ensures r.Some? <==> forall i :: 0 <= i < |s| ==> IsDigit(s[i])
  {
    if s == [] then Some(0)
    else
      var last := s[|s| - 1];
      match ParseDigits(s[..|s| - 1])
      case None => None
      case Some(v) =>
        if IsDigit(last) then Some(10 * v + (last as int - '0' as int))
        else None
  }

  lemma {:induction false} ParseDigitsOfDigits(n: nat, width: nat)
    requires n < Pow10(width)
    ensures ParseDigits(Digits(n, width)) == Some(n)
    decreases width
  {
    if width > 0 {
      var s := Digits(n, width);
      assert s[..|s| - 1] == Digits(n / 10, width - 1);
      ParseDigitsOfDigits(n / 10, width - 1);
    }
  }

  lemma {:induction false} DigitsOfParseDigits(s: string)
    requires ParseDigits(s).Some?
    ensures Digits(ParseDigits(s).value, |s|) == s
    decreases |s|
  {
    if s != [] {
      var init := s[..|s| - 1];
      DigitsOfParseDigits(init);
      assert s == init + [s[|s| - 1]];
    }
  }

  /** The ISO-8601 calendar text of a date. */
  function IsoFormat(d: CalendarDate): (r: string)
    requires ValidDate(d)
    ensures |r| == 10 && r[4] == '-' && r[7] == '-'
    ensures forall i :: 0 <= i < 10 && i != 4 && i != 7 ==> IsDigit(r[i])
  {
    Digits(d.year, 4) + "-" + Digits(d.month, 2) + "-" + Digits(d.day, 2)
  }

  /** Reads `YYYY-MM-DD` back into a date; malformed text and dates that
      do not exist are rejected. */
  function ParseIso(s: string): (r: Option<CalendarDate>)
    ensures r.Some? ==> ValidDate(r.value)
  {
    if |s| != 10 || s[4] != '-' || s[7] != '-' then None
    else match (ParseDigits(s[..4]), ParseDigits(s[5..7]), ParseDigits(s[8..]))
      case (Some(y), Some(m), Some(d)) =>
        if ValidDate(CalendarDate(y, m, d)) then Some(CalendarDate(y, m, d)) else None
      case _ => None
  }

  lemma IsoRoundTrip(d: CalendarDate)
    requires ValidDate(d)
    ensures ParseIso(IsoFormat(d)) == Some(d)
  {
    var s := IsoFormat(d);
    assert s[..4] == Digits(d.year, 4);
    assert s[5..7] == Digits(d.month, 2);
    assert s[8..] == Digits(d.day, 2);
    ParseDigitsOfDigits(d.year, 4);
    ParseDigitsOfDigits(d.month, 2);
    ParseDigitsOfDigits(d.day, 2);
  }

  lemma IsoParseFormats(s: string, d: CalendarDate)
    requires ParseIso(s) == Some(d)
    ensures IsoFormat(d) == s
  {
    DigitsOfParseDigits(s[..4]);
    DigitsOfParseDigits(s[5..7]);
    DigitsOfParseDigits(s[8..]);
    assert s == s[..4] + "-" + s[5..7] + "-" + s[8..];
  }

  /** Distinct dates have distinct ISO texts. */
  lemma IsoFormatInjective(d: CalendarDate, e: CalendarDate)
    requires ValidDate(d) && ValidDate(e)
    requires IsoFormat(d) == IsoFormat(e)
    ensures d == e
  {
    IsoRoundTrip(d);
    IsoRoundTrip(e);
  }
}
