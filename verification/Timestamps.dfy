/** The timestamps of RFC 3339 the player reads (native/adapters/shared/fallback_activation_resolver.h:263-289,
    native/adapters/shared/fallback_program_fetch.h:374-432), spelled out in bytes and numbers. */
module Timestamps {
  import opened Basics
  import opened Ordering
  import opened CivilDate
  import opened JsonBasics
  import opened Rfc3339

  /** A number of two digits stands at i. */
  predicate IsTwo(s: Bytes, i: nat, n: int) {
    i + 2 <= |s| && 0 <= n <= 99 && s[i] == 0x30 + n / 10 && s[i + 1] == 0x30 + n % 10
  }

  /** "YYYY-MM-DD" */
  predicate IsDateText(s: Bytes, d: Date) {
    && |s| >= 10
    && 0 <= d.year <= 9999 && IsTwo(s, 0, d.year / 100) && IsTwo(s, 2, d.year % 100)
    && s[4] == 0x2D && IsTwo(s, 5, d.month) && 1 <= d.month <= 12
    && s[7] == 0x2D && IsTwo(s, 8, d.day) && 1 <= d.day <= 31
  }

  /** And "THH:MM:SS" behind it, where a leap second may stand. */
  predicate IsStampText(s: Bytes, t: Stamp) {
    && |s| >= 19 && IsDateText(s, t.date)
    && s[10] == 0x54 && IsTwo(s, 11, t.hour) && t.hour <= 23
    && s[13] == 0x3A && IsTwo(s, 14, t.minute) && t.minute <= 59
    && s[16] == 0x3A && IsTwo(s, 17, t.second) && t.second <= 60
  }

  /** Nothing, or a point and digits. */
  predicate IsFraction(s: Bytes) {
    s == [] || (|s| >= 2 && s[0] == 0x2E && forall k :: 1 <= k < |s| ==> 0x30 <= s[k] <= 0x39)
  }

  /** "Z", "z", "+HH:MM" or "-HH:MM", with how far it lies ahead of UTC. */
  ghost predicate IsZone(s: Bytes, ahead: int) {
    || ((s == [0x5A] || s == [0x7A]) && ahead == 0)
    || (|s| == 6 && s[3] == 0x3A && exists hours, minutes :: IsOffset(s, hours, minutes, ahead))
  }

  predicate IsOffset(s: Bytes, hours: int, minutes: int, ahead: int) {
    && IsTwo(s, 1, hours) && IsTwo(s, 4, minutes)
    && ((s[0] == 0x2B && ahead == 3600 * hours + 60 * minutes)
        || (s[0] == 0x2D && ahead == -3600 * hours - 60 * minutes))
  }

  /** A whole timestamp; its zone starts at i. */
  ghost predicate IsTimestamp(s: Bytes, t: Stamp, i: nat, ahead: int) {
    IsStampText(s, t) && 19 <= i < |s| && IsFraction(s[19..i]) && IsZone(s[i..], ahead)
  }

  /** The instant of a stamp read in a zone, in seconds. */
  function Instant(t: Stamp, ahead: int): int
    requires 1 <= t.date.month <= 12 && 1 <= t.date.day <= 31
  {
    86400 * DaysFromCivil(t.date) + 3600 * t.hour + 60 * t.minute + t.second - ahead
  }

  lemma TwoIff(s: Bytes, i: nat, n: int)
    ensures IsTwo(s, i, n) <==> DigitAt(s, i) && DigitAt(s, i + 1) && TwoAt(s, i) == n
  {
  }

  lemma StampIff(s: Bytes, t: Stamp)
    ensures IsStampText(s, t) <==> Shaped(s) && InRange(StampOf(s)) && StampOf(s) == t
  {
    hide IsTwo, DigitAt, TwoAt;
    if |s| >= 19 {
      TwoIff(s, 0, t.date.year / 100);
      TwoIff(s, 2, t.date.year % 100);
      TwoIff(s, 5, t.date.month);
      TwoIff(s, 8, t.date.day);
      TwoIff(s, 11, t.hour);
      TwoIff(s, 14, t.minute);
      TwoIff(s, 17, t.second);
    }
  }

  lemma FractionIff(s: Bytes, i: nat)
    requires 19 <= i < |s| && !IsDigit(s[i]) && s[i] != POINT
    ensures IsFraction(s[19..i]) <==> FractionEnd(s) == Some(i)
  {
    if s[19] == POINT {
      var digits := s[20..];
      var n := LeadingDigits(digits);
      assert forall k :: 20 <= k < i ==> s[19..i][k - 19] == s[k] == digits[k - 20];
      if IsFraction(s[19..i]) {
        assert forall k :: 20 <= k < i ==> IsDigit(s[k]);
        assert n >= i - 20;
        assert digits[i - 20] == s[i];
      }
    } else if i > 19 {
      assert s[19..i][0] == s[19];
    }
  }

  lemma ZoneIff(s: Bytes, i: nat, ahead: int)
    requires i < |s|
    ensures IsZone(s[i..], ahead) <==> OffsetAt(s, i) == Some(ahead)
  {
    hide IsTwo, DigitAt, TwoAt;
    var z := s[i..];
    assert z[0] == s[i];
    if i + 6 == |s| {
      assert z[3] == s[i + 3];
      Shifted(s, i, 1);
      Shifted(s, i, 4);
      if IsZone(z, ahead) {
        var hours, minutes :| IsOffset(z, hours, minutes, ahead);
        TwoIff(z, 1, hours);
        TwoIff(z, 4, minutes);
      }
      if OffsetAt(s, i) == Some(ahead) {
        TwoIff(z, 1, TwoAt(s, i + 1));
        TwoIff(z, 4, TwoAt(s, i + 4));
        assert IsOffset(z, TwoAt(s, i + 1), TwoAt(s, i + 4), ahead);
      }
    }
  }

  lemma Shifted(s: Bytes, i: nat, k: nat)
    requires i + k + 2 <= |s|
    ensures DigitAt(s[i..], k) == DigitAt(s, i + k) && DigitAt(s[i..], k + 1) == DigitAt(s, i + k + 1)
    ensures DigitAt(s, i + k) && DigitAt(s, i + k + 1) ==> TwoAt(s[i..], k) == TwoAt(s, i + k)
  {
  }

  /** A zone starts with none of the bytes a fraction has. */
  lemma ZoneStart(z: Bytes, ahead: int)
    requires z != [] && IsZone(z, ahead)
    ensures !IsDigit(z[0]) && z[0] != POINT
  {
  }

  /** Everything the wider parser reads is spelled so, and everything spelled so is read as its instant. */
  lemma ReadIff(s: Bytes, seconds: int)
    ensures ParseEpochSeconds(s) == Some(seconds) <==>
              exists t, i, ahead :: IsTimestamp(s, t, i, ahead) && seconds == Instant(t, ahead)
  {
    hide IsFraction, IsZone, Shaped, StampOf, FractionEnd, OffsetAt, DaysFromCivil;
    if ParseEpochSeconds(s) == Some(seconds) {
      var t, i := StampOf(s), FractionEnd(s).value;
      var ahead := OffsetAt(s, i).value;
      StampIff(s, t);
      OffsetNeedsText(s, i);
      ZoneIff(s, i, ahead);
      ZoneStart(s[i..], ahead);
      FractionIff(s, i);
      assert IsTimestamp(s, t, i, ahead) && seconds == Instant(t, ahead);
    }
    forall t, i, ahead | IsTimestamp(s, t, i, ahead)
      ensures ParseEpochSeconds(s) == Some(Instant(t, ahead))
    {
      SpelledIsRead(s, t, i, ahead);
    }
  }

  lemma OffsetNeedsText(s: Bytes, i: nat)
    requires i <= |s| && OffsetAt(s, i).Some?
    ensures i < |s|
  {
  }

  lemma SpelledIsRead(s: Bytes, t: Stamp, i: nat, ahead: int)
    requires IsTimestamp(s, t, i, ahead)
    ensures ParseEpochSeconds(s) == Some(Instant(t, ahead))
  {
    hide IsStampText, IsFraction, IsZone, Shaped, StampOf, FractionEnd, OffsetAt, DaysFromCivil;
    StampIff(s, t);
    ZoneIff(s, i, ahead);
    ZoneStart(s[i..], ahead);
    FractionIff(s, i);
  }

  /** The strict one reads those without a fraction that end in a capital Z. */
  lemma StrictlyReadIff(s: Bytes, seconds: int)
    ensures ParseUtc(s) == Some(seconds) <==>
              |s| == 20 && s[19] == 0x5A && exists t :: IsStampText(s, t) && seconds == Instant(t, 0)
  {
    hide IsStampText, Shaped, StampOf, DaysFromCivil;
    if |s| == 20 {
      StampIff(s, if Shaped(s) then StampOf(s) else Stamp(Date(0, 1, 1), 0, 0, 0));
      forall t | IsStampText(s, t)
        ensures Shaped(s) && InRange(t) && StampOf(s) == t
      {
        StampIff(s, t);
      }
    }
  }
}
