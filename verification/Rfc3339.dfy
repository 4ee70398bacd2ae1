/** RFC 3339 section 5.6 timestamps: the strict parser of fallback_activation_resolver.h, the wider one and the
    printer of fallback_program_fetch.h (native/adapters/shared). */
module Rfc3339 {
  import opened Basics
  import opened Ordering
  import opened CivilDate
  import opened JsonBasics
  import opened JsonNumber

  const DASH: byte := 0x2D
  const LETTER_T: byte := 0x54
  const LETTER_Z: byte := 0x5A
  const SMALL_Z: byte := 0x7A

  /* ---- Parsing ---- */

  predicate DigitAt(s: Bytes, i: nat) {
    i < |s| && IsDigit(s[i])
  }

  function TwoAt(s: Bytes, i: nat): (n: int)
    requires DigitAt(s, i) && DigitAt(s, i + 1)
    ensures 0 <= n <= 99
  {
    (s[i] - ZERO) * 10 + (s[i + 1] - ZERO)
  }

  /** The digits and signs of YYYY-MM-DDTHH:MM:SS. */
  predicate Shaped(s: Bytes) {
    && |s| >= 19
    && DigitAt(s, 0) && DigitAt(s, 1) && DigitAt(s, 2) && DigitAt(s, 3) && s[4] == DASH
    && DigitAt(s, 5) && DigitAt(s, 6) && s[7] == DASH
    && DigitAt(s, 8) && DigitAt(s, 9) && s[10] == LETTER_T
    && DigitAt(s, 11) && DigitAt(s, 12) && s[13] == COLON
    && DigitAt(s, 14) && DigitAt(s, 15) && s[16] == COLON
    && DigitAt(s, 17) && DigitAt(s, 18)
  }

  datatype Stamp = Stamp(date: Date, hour: int, minute: int, second: int)

  function StampOf(s: Bytes): Stamp
    requires Shaped(s)
  {
    Stamp(Date(TwoAt(s, 0) * 100 + TwoAt(s, 2), TwoAt(s, 5), TwoAt(s, 8)), TwoAt(s, 11), TwoAt(s, 14), TwoAt(s, 17))
  }

  predicate InRange(t: Stamp) {
    && 1 <= t.date.month <= 12 && 1 <= t.date.day <= 31
    && 0 <= t.hour <= 23 && 0 <= t.minute <= 59 && 0 <= t.second <= 60
  }

  function SecondsOf(t: Stamp): int
    requires InRange(t)
  {
    DaysFromCivil(t.date) * 86400 + t.hour * 3600 + t.minute * 60 + t.second
  }

  /** parseRfc3339Utc: exactly YYYY-MM-DDTHH:MM:SSZ. */
  function ParseUtc(s: Bytes): Option<int> {
    if |s| == 20 && Shaped(s) && s[19] == LETTER_Z && InRange(StampOf(s)) then Some(SecondsOf(StampOf(s)))
    else None
  }

  /** Where a fraction of a second ends, if it is well formed. */
  function FractionEnd(s: Bytes): (r: Option<nat>)
    requires |s| >= 19
    ensures r.Some? ==> 19 <= r.value <= |s|
  {
    if !StartsWith(s[19..], POINT) then Some(19)
    else
      var n := LeadingDigits(s[20..]);
      if n == 0 then None else Some(20 + n)
  }

  /** The offset from UTC written at i, in seconds, when nothing follows it. */
  function OffsetAt(s: Bytes, i: nat): Option<int>
    requires i <= |s|
  {
    if i == |s| then None
    else if s[i] == LETTER_Z || s[i] == SMALL_Z then (if i + 1 == |s| then Some(0) else None)
    else if s[i] != PLUS && s[i] != MINUS then None
    else if i + 6 != |s| || !DigitAt(s, i + 1) || !DigitAt(s, i + 2) || s[i + 3] != COLON || !DigitAt(s, i + 4)
            || !DigitAt(s, i + 5) then None
    else
      var size := TwoAt(s, i + 1) * 3600 + TwoAt(s, i + 4) * 60;
      Some(if s[i] == MINUS then -size else size)
  }

  /** parseRfc3339ToEpochSeconds: fractions are dropped, offsets taken off. */
  function ParseEpochSeconds(s: Bytes): Option<int> {
    if |s| < 20 || !Shaped(s) || !InRange(StampOf(s)) then None
    else
      match FractionEnd(s)
      case None => None
      case Some(i) =>
        match OffsetAt(s, i)
        case None => None
        case Some(offset) => Some(SecondsOf(StampOf(s)) - offset)
  }

  /* ---- Printing ---- */

  function TwoText(n: int): (s: Bytes)
    requires 0 <= n <= 99
    ensures |s| == 2
  {
    [ZERO + n / 10, ZERO + n % 10]
  }

  /** Zeros on the left up to a width. */
  function Padded(digits: Bytes, width: nat): Bytes {
    if |digits| >= width then digits else Zeros(width - |digits|) + digits
  }

  /** %04ld. */
  function YearText(y: int): Bytes {
    if y < 0 then [MINUS] + Padded(NatText(-y), 3) else Padded(NatText(y), 4)
  }

  /** formatEpochMillisAsRfc3339. */
  function FormatMillis(millis: int): Bytes {
    var seconds := Truncated(millis, 1000) - if millis < 0 && millis % 1000 != 0 then 1 else 0;
    var days := if seconds >= 0 then seconds / 86400 else -((-seconds + 86399) / 86400);
    FormatStamp(CivilFromDays(days), seconds - days * 86400)
  }

  function FormatStamp(d: Date, secondOfDay: int): Bytes {
    YearText(d.year)
    + if 0 <= d.month <= 99 && 0 <= d.day <= 99 && 0 <= secondOfDay < 86400 then
        [DASH] + TwoText(d.month) + [DASH] + TwoText(d.day) + [LETTER_T] + TwoText(secondOfDay / 3600)
        + [COLON] + TwoText(secondOfDay % 3600 / 60) + [COLON] + TwoText(secondOfDay % 60) + [LETTER_Z]
      else []
  }

  /* ---- The two parsers agree ---- */

  /** On every text the strict parser accepts the wider one gives the same instant; and the strict one accepts
      exactly the accepted texts that end in Z straight after the seconds. */
  lemma ParsersAgree(s: Bytes)
    ensures ParseUtc(s).Some? ==> ParseEpochSeconds(s) == ParseUtc(s)
    ensures ParseUtc(s).Some? <==> ParseEpochSeconds(s).Some? && |s| == 20 && s[19] == LETTER_Z
  {
  }

  /* ---- Printing, then parsing ---- */

  lemma {:induction false} NatTextLength(n: nat)
    ensures n < 10 ==> |NatText(n)| == 1
    ensures 10 <= n < 100 ==> |NatText(n)| == 2
    ensures 100 <= n < 1000 ==> |NatText(n)| == 3
    ensures 1000 <= n < 10000 ==> |NatText(n)| == 4
    ensures n >= 10000 ==> |NatText(n)| >= 5
    decreases n
  {
    if n < 10 {
    } else {
      NatTextLength(n / 10);
    }
  }

  lemma {:induction false} ZerosCountNothing(j: nat, digits: Bytes)
    requires AllDigits(digits)
    ensures AllDigits(Zeros(j) + digits) && NatOf(Zeros(j) + digits) == NatOf(digits)
    decreases j + |digits|
  {
    var s := Zeros(j) + digits;
    if digits != [] {
      var k := |digits| - 1;
      ZerosCountNothing(j, digits[..k]);
      assert s[..|s| - 1] == Zeros(j) + digits[..k];
    } else if j > 0 {
      ZerosCountNothing(j - 1, []);
      assert s[..|s| - 1] == Zeros(j - 1) + [];
      assert s[|s| - 1] == ZERO;
    }
  }

  /** A year of four digits is printed as those digits. */
  lemma YearIsRead(y: int)
    requires 0 <= y <= 9999
    ensures var s := YearText(y);
            && |s| == 4 && DigitAt(s, 0) && DigitAt(s, 1) && DigitAt(s, 2) && DigitAt(s, 3)
            && TwoAt(s, 0) * 100 + TwoAt(s, 2) == y
  {
    hide NatText;
    NatTextLength(y);
    var digits := NatText(y);
    ZerosCountNothing(4 - |digits|, digits);
    assert |digits| == 4 ==> Zeros(0) + digits == digits;
    FourDigits(YearText(y));
  }

  lemma FourDigits(s: Bytes)
    requires |s| == 4 && AllDigits(s)
    ensures NatOf(s) == ((s[0] - ZERO) * 10 + (s[1] - ZERO)) * 100 + (s[2] - ZERO) * 10 + (s[3] - ZERO)
  {
    var a, b, c := s[..3], s[..2], s[..1];
    assert a[..2] == b && b[..1] == c && c[..0] == [];
    assert NatOf(c) == s[0] - ZERO;
    assert NatOf(b) == NatOf(c) * 10 + (s[1] - ZERO);
    assert NatOf(a) == NatOf(b) * 10 + (s[2] - ZERO);
  }

  /** Any other year does not leave four digits before the first dash. */
  lemma OtherYearsAreRefused(y: int, rest: Bytes)
    requires y < 0 || y > 9999
    ensures !Shaped(YearText(y) + rest)
  {
    hide NatText;
    var s := YearText(y) + rest;
    if y < 0 {
      assert s[0] == MINUS;
    } else {
      NatTextLength(y);
      assert s[4] == NatText(y)[4];
    }
  }

  /** What is printed for a real date of four-digit years and a second of the day is that stamp. */
  lemma StampIsRead(d: Date, secondOfDay: int)
    requires IsDate(d) && 0 <= d.year <= 9999 && 0 <= secondOfDay < 86400
    ensures var s := FormatStamp(d, secondOfDay);
            && |s| == 20 && s[19] == LETTER_Z && Shaped(s)
            && StampOf(s) == Stamp(d, secondOfDay / 3600, secondOfDay % 3600 / 60, secondOfDay % 60)
  {
    hide YearText;
    YearIsRead(d.year);
    var y, s := YearText(d.year), FormatStamp(d, secondOfDay);
    assert |s| == 20;
    assert s[0] == y[0] && s[1] == y[1] && s[2] == y[2] && s[3] == y[3];
  }

  lemma FloorsOfMillis(millis: int)
    ensures var seconds := millis / 1000;
            && Truncated(millis, 1000) - (if millis < 0 && millis % 1000 != 0 then 1 else 0) == seconds
            && (if seconds >= 0 then seconds / 86400 else -((-seconds + 86399) / 86400)) == seconds / 86400
  {
  }

  lemma SplitSecond(seconds: int)
    ensures var t := seconds - seconds / 86400 * 86400;
            0 <= t < 86400 && t / 3600 * 3600 + t % 3600 / 60 * 60 + t % 60 == t
            && 0 <= t / 3600 <= 23 && 0 <= t % 3600 / 60 <= 59 && 0 <= t % 60 <= 59
  {
  }

  /** A printed instant reads back, in both parsers, as its whole second, rounded towards the past; and this holds
      for exactly the milliseconds of years 0 to 9999. */
  lemma PrintedInstantIsRead(millis: int)
    ensures var year := CivilFromDays(millis / 1000 / 86400).year;
            if 0 <= year <= 9999
            then ParseEpochSeconds(FormatMillis(millis)) == Some(millis / 1000) == ParseUtc(FormatMillis(millis))
            else ParseEpochSeconds(FormatMillis(millis)).None? && ParseUtc(FormatMillis(millis)).None?
  {
    hide CivilFromDays, DaysFromCivil, YearText, ParseEpochSeconds, Shaped, StampOf;
    var seconds := millis / 1000;
    var days := seconds / 86400;
    FloorsOfMillis(millis);
    SplitSecond(seconds);
    DaysAndBack(days);
    var d, t := CivilFromDays(days), seconds - days * 86400;
    assert FormatMillis(millis) == FormatStamp(d, t);
    ParsersAgree(FormatStamp(d, t));
    if 0 <= d.year <= 9999 {
      hide FormatStamp;
      StampIsRead(d, t);
    } else {
      Refused(d, t);
    }
  }

  lemma Refused(d: Date, t: int)
    requires d.year < 0 || d.year > 9999
    ensures ParseEpochSeconds(FormatStamp(d, t)).None?
  {
    hide Shaped, YearText;
    var s := FormatStamp(d, t);
    OtherYearsAreRefused(d.year, s[|YearText(d.year)|..]);
    assert s == YearText(d.year) + s[|YearText(d.year)|..];
  }
}
