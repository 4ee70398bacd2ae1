/** What stands for what in a JSON string (native/src/json.cpp): section 7 of RFC 8259 for what is read, section 3.2.2.2
    of RFC 8785 for what is written. */
module JsonEscapes {
  import opened Ordering
  import opened Utf8
  import opened JsonBasics
  import opened JsonString

  /** The byte is the hexadecimal digit of this value, in either case. */
  predicate IsHexOf(b: byte, v: int) {
    (0 <= v <= 9 && b == 0x30 + v) || (10 <= v <= 15 && (b == 0x41 + v - 10 || b == 0x61 + v - 10))
  }

  /** Six bytes: a backslash, a u, and the four digits of a 16-bit number. */
  predicate IsUnitEscape(s: Bytes, unit: int) {
    && |s| == 6 && s[0] == 0x5C && s[1] == 0x75 && 0 <= unit < 0x10000
    && IsHexOf(s[2], unit / 0x1000) && IsHexOf(s[3], unit / 0x100 % 0x10)
    && IsHexOf(s[4], unit / 0x10 % 0x10) && IsHexOf(s[5], unit % 0x10)
  }

  lemma HexIsRead(b: byte, v: int)
    requires IsHexOf(b, v)
    ensures IsHex(b) && HexValue(b) == v
  {
  }

  lemma FourDigits(unit: nat)
    requires unit < 0x10000
    ensures ((unit / 0x1000 * 16 + unit / 0x100 % 0x10) * 16 + unit / 0x10 % 0x10) * 16 + unit % 0x10 == unit
  {
  }

  lemma UnitIsRead(s: Bytes, unit: int, rest: Bytes)
    requires IsUnitEscape(s, unit)
    ensures Hex4((s + rest)[2..]) == Ok(unit, 4)
  {
    var t := (s + rest)[2..];
    assert t[0] == s[2] && t[1] == s[3] && t[2] == s[4] && t[3] == s[5];
    HexIsRead(s[2], unit / 0x1000);
    HexIsRead(s[3], unit / 0x100 % 0x10);
    HexIsRead(s[4], unit / 0x10 % 0x10);
    HexIsRead(s[5], unit % 0x10);
    FourDigits(unit);
  }

  /** Every scalar value up to U+FFFF may be written as one escape, whatever follows. */
  lemma UnitEscapeMeans(s: Bytes, cp: nat, rest: Bytes)
    requires IsUnitEscape(s, cp) && IsScalar(cp)
    ensures Element(s + rest) == Ok(Encode(cp), 6) && IsUtf8Of(Encode(cp), cp)
  {
    UnitIsRead(s, cp, rest);
    EncodeIsUtf8(cp);
    hide Hex4, Encode, IsHexOf;
  }

  /** And every one beyond as two: the escapes of its high and its low surrogate. */
  lemma PairMeans(s: Bytes, t: Bytes, cp: nat, high: int, low: int, rest: Bytes)
    requires IsUnitEscape(s, high) && IsUnitEscape(t, low) && 0x10000 <= cp < 0x110000 && AreUnits([high, low], cp)
    ensures Element(s + t + rest) == Ok(Encode(cp), 12) && IsUtf8Of(Encode(cp), cp)
  {
    UnitIsRead(s, high, t + rest);
    UnitIsRead(t, low, rest);
    EncodeIsUtf8(cp);
    hide Hex4, Encode, IsHexOf;
    var text := s + t + rest;
    assert text == s + (t + rest);
    assert text[2..][6..] == (t + rest)[2..] && text[2..][4] == t[0] && text[2..][5] == t[1];
  }

  /** A low surrogate is never read alone, and a high one exactly before the escape of a low one. */
  lemma SurrogatesPair(s: Bytes, unit: int, rest: Bytes)
    requires IsUnitEscape(s, unit) && 0xD800 <= unit <= 0xDFFF
    ensures Element(s + rest).Ok? <==>
            unit <= 0xDBFF && |rest| >= 6 && exists low: int :: 0xDC00 <= low <= 0xDFFF && IsUnitEscape(rest[..6], low)
  {
    UnitIsRead(s, unit, rest);
    var text := s + rest;
    if unit <= 0xDBFF && Element(text).Ok? {
      assert |rest| >= 2 && text[2..][4] == rest[0] && text[2..][5] == rest[1] && text[2..][6..] == rest[2..];
      HexIsUnit(rest);
      assert IsUnitEscape(rest[..6], Hex4(rest[2..]).value);
    }
    hide Hex4, IsHexOf;
    if unit <= 0xDBFF && |rest| >= 6 {
      if low: int :| 0xDC00 <= low <= 0xDFFF && IsUnitEscape(rest[..6], low) {
        PairMeans(s, rest[..6], 0x10000 + (unit - 0xD800) * 0x400 + (low - 0xDC00), unit, low, rest[6..]);
        assert s + rest[..6] + rest[6..] == text;
      }
    }
  }

  lemma HexIsUnit(rest: Bytes)
    requires |rest| >= 2 && rest[0] == BACKSLASH && rest[1] == LOWER_U && Hex4(rest[2..]).Ok?
    ensures |rest| >= 6 && IsUnitEscape(rest[..6], Hex4(rest[2..]).value)
  {
    var t := rest[2..];
    var a, b, c, d := HexValue(t[0]), HexValue(t[1]), HexValue(t[2]), HexValue(t[3]);
    DigitsOf(a, b, c, d);
  }

  lemma DigitsOf(a: nat, b: nat, c: nat, d: nat)
    requires a < 16 && b < 16 && c < 16 && d < 16
    ensures var v := ((a * 16 + b) * 16 + c) * 16 + d;
            v / 0x1000 == a && v / 0x100 % 0x10 == b && v / 0x10 % 0x10 == c && v % 0x10 == d
  {
  }

  /** The escapes of two bytes and what they mean: these eight and no others. */
  const SHORT: map<byte, byte> :=
    map[0x22 := 0x22, 0x5C := 0x5C, 0x2F := 0x2F, 0x62 := 0x08, 0x66 := 0x0C, 0x6E := 0x0A, 0x72 := 0x0D, 0x74 := 0x09]

  lemma ShortEscapeMeans(e: byte, rest: Bytes)
    requires e != 0x75
    ensures Element([0x5C, e] + rest) == if e in SHORT then Ok([SHORT[e]], 2) else Err
  {
  }

  /** Anything else stands for itself, if it is a character: no quote, no control character, and valid UTF-8. */
  lemma RawMeans(s: Bytes)
    requires s != [] && s[0] != 0x5C
    ensures Element(s).Ok? <==> s[0] != 0x22 && s[0] >= 0x20 && exists cp: nat :: IsScalar(cp) && Encode(cp) <= s
    ensures Element(s).Ok? ==> Element(s).value == s[..Element(s).used]
  {
    CharIff(s);
    hide CharLength, Encode;
  }

  /* ---- Writing ---- */

  /** Which bytes are written as they are, which with a letter, and which as a number in lower case. */
  lemma EscapeMeans(c: byte)
    ensures c >= 0x20 && c != 0x22 && c != 0x5C <==> Escape(c) == [c]
    ensures c in {0x08, 0x09, 0x0A, 0x0C, 0x0D, 0x22, 0x5C} <==> |Escape(c)| == 2
    ensures |Escape(c)| == 2 ==> Escape(c)[0] == 0x5C && Escape(c)[1] in SHORT && SHORT[Escape(c)[1]] == c
    ensures |Escape(c)| > 2 ==>
              && IsUnitEscape(Escape(c), c)
              && forall k :: 2 <= k < 6 ==> 0x30 <= Escape(c)[k] <= 0x39 || 0x61 <= Escape(c)[k] <= 0x66
  {
  }

  /** A text is written byte by byte. */
  lemma {:induction false} EscapedOfBoth(a: Bytes, b: Bytes)
    ensures Escaped(a + b) == Escaped(a) + Escaped(b)
    decreases |a|
  {
    hide Escape;
    if a == [] {
      assert a + b == b;
    } else {
      EscapedOfBoth(a[1..], b);
      assert (a + b)[1..] == a[1..] + b;
    }
  }
}
