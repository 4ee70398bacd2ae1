/** JSON numbers as exact decimals: the grammar of parseNumber and the layout of formatNumber
    (native/src/json.cpp; RFC 8785 section 3.2.2.3). */
module JsonNumber {
  import opened Ordering
  import opened JsonBasics

  /** 0.digits times ten to the exponent; every other number has exactly one such form. */
  datatype Decimal = Zero | Decimal(negative: bool, digits: Bytes, exponent: int)

  predicate AllDigits(s: Bytes) {
    forall i :: 0 <= i < |s| ==> IsDigit(s[i])
  }

  predicate Significant(digits: Bytes) {
    digits != [] && AllDigits(digits) && digits[0] != ZERO && digits[|digits| - 1] != ZERO
  }

  predicate IsNormal(d: Decimal) {
    d.Zero? || Significant(d.digits)
  }

  type NormalDecimal = d: Decimal | IsNormal(d) witness Zero

  function Normalize(negative: bool, digits: Bytes, exponent: int): (d: Decimal)
    requires AllDigits(digits)
    ensures IsNormal(d)
    decreases |digits|
  {
    if digits == [] then Zero
    else if digits[0] == ZERO then Normalize(negative, digits[1..], exponent - 1)
    else if digits[|digits| - 1] == ZERO then Normalize(negative, digits[..|digits| - 1], exponent)
    else Decimal(negative, digits, exponent)
  }

  function NatOf(digits: Bytes): nat
    requires AllDigits(digits)
  {
    if digits == [] then 0
    else NatOf(digits[..|digits| - 1]) * 10 + (digits[|digits| - 1] - ZERO)
  }

  /* ---- Reading ---- */

  function Whole(s: Bytes): (r: Parsed<Bytes>)
    ensures r.Ok? ==> 0 < r.used <= |s| && r.value == s[..r.used] && AllDigits(r.value)
  {
    if s == [] then Err
    else if s[0] == ZERO then Ok(s[..1], 1)
    else if IsDigit(s[0]) then Ok(s[..LeadingDigits(s)], LeadingDigits(s))
    else Err
  }

  function Fraction(s: Bytes): (r: Parsed<Bytes>)
    ensures r.Ok? ==> r.used <= |s| && AllDigits(r.value)
  {
    if !StartsWith(s, POINT) then Ok([], 0)
    else
      var n := LeadingDigits(s[1..]);
      if n == 0 then Err else Ok(s[1..1 + n], 1 + n)
  }

  function Exponent(s: Bytes): (r: Parsed<int>)
    ensures r.Ok? ==> r.used <= |s|
  {
    if !StartsWith(s, LOWER_E) && !StartsWith(s, UPPER_E) then Ok(0, 0)
    else
      var k := if StartsWith(s[1..], PLUS) || StartsWith(s[1..], MINUS) then 2 else 1;
      var n := LeadingDigits(s[k..]);
      if n == 0 then Err
      else
        var size: int := NatOf(s[k..k + n]);
        Ok(if s[1] == MINUS then -size else size, k + n)
  }

  /** Digits as they stand in the text: 0.digits times ten to the exponent. */
  datatype Raw = Raw(digits: Bytes, exponent: int)

  function FractionAndExponent(s: Bytes): (r: Parsed<Raw>)
    ensures r.Ok? ==> r.used <= |s| && AllDigits(r.value.digits)
  {
    match Fraction(s)
    case Err => Err
    case Ok(fraction, n) =>
      match Exponent(s[n..])
      case Err => Err
      case Ok(e, m) => Ok(Raw(fraction, e), n + m)
  }

  function Unsigned(s: Bytes): (r: Parsed<Raw>)
    ensures r.Ok? ==> 0 < r.used <= |s| && AllDigits(r.value.digits)
  {
    match Whole(s)
    case Err => Err
    case Ok(whole, n) =>
      match FractionAndExponent(s[n..])
      case Err => Err
      case Ok(raw, m) => Ok(Raw(whole + raw.digits, |whole| + raw.exponent), n + m)
  }

  function ParseNumber(s: Bytes): (r: Parsed<Decimal>)
    ensures r.Ok? ==> 0 < r.used <= |s| && IsNormal(r.value)
  {
    var sign := if StartsWith(s, MINUS) then 1 else 0;
    match Unsigned(s[sign..])
    case Err => Err
    case Ok(raw, n) => Ok(Normalize(sign == 1, raw.digits, raw.exponent), sign + n)
  }

  /** Nothing here would make a number longer. */
  predicate NumberEnd(s: Bytes) {
    s == [] || !(IsDigit(s[0]) || s[0] == POINT || s[0] == LOWER_E || s[0] == UPPER_E)
  }

  /* ---- Writing ---- */

  function Zeros(n: nat): (s: Bytes)
    ensures |s| == n && AllDigits(s) && forall i :: 0 <= i < n ==> s[i] == ZERO
  {
    if n == 0 then [] else [ZERO] + Zeros(n - 1)
  }

  function NatText(n: nat): (s: Bytes)
    ensures s != [] && AllDigits(s) && NatOf(s) == n
    ensures s[0] == ZERO ==> n == 0
    ensures n == 0 ==> s == [ZERO]
  {
    if n < 10 then
      assert [ZERO + n][..0] == [];
      [ZERO + n]
    else
      var s := NatText(n / 10) + [ZERO + n % 10];
      assert s[..|s| - 1] == NatText(n / 10);
      s
  }

  function ExponentText(e: int): Bytes {
    [LOWER_E, if e >= 0 then PLUS else MINUS] + NatText(if e >= 0 then e else -e)
  }

  /** A fraction behind its point; no point without one. */
  function PointText(fraction: Bytes): Bytes {
    if fraction == [] then [] else [POINT] + fraction
  }

  function Placed(digits: Bytes, n: int): Bytes
    requires Significant(digits)
  {
    var k := |digits|;
    if k <= n <= 21 then digits + Zeros(n - k)
    else if 0 < n <= 21 then digits[..n] + [POINT] + digits[n..]
    else if -6 < n <= 0 then [ZERO, POINT] + Zeros(-n) + digits
    else digits[..1] + PointText(digits[1..]) + ExponentText(n - 1)
  }

  function NumberText(d: Decimal): (s: Bytes)
    requires IsNormal(d)
  {
    if d.Zero? then [ZERO]
    else (if d.negative then [MINUS] else []) + Placed(d.digits, d.exponent)
  }

  /* ---- Each part is read back ---- */

  lemma WholeIsRead(digits: Bytes, rest: Bytes)
    requires digits != [] && AllDigits(digits) && (digits[0] == ZERO ==> |digits| == 1)
    requires rest == [] || !IsDigit(rest[0])
    ensures Whole(digits + rest) == Ok(digits, |digits|)
  {
    LeadingDigitsAre(digits + rest, |digits|);
    assert (digits + rest)[..|digits|] == digits;
  }

  lemma FractionIsRead(digits: Bytes, rest: Bytes)
    requires digits != [] && AllDigits(digits)
    requires rest == [] || !IsDigit(rest[0])
    ensures Fraction([POINT] + digits + rest) == Ok(digits, 1 + |digits|)
  {
    var s := [POINT] + digits + rest;
    assert s[1..] == digits + rest;
    LeadingDigitsAre(digits + rest, |digits|);
    assert s[1..1 + |digits|] == digits;
  }

  lemma ExponentIsRead(e: int, rest: Bytes)
    requires rest == [] || !IsDigit(rest[0])
    ensures Exponent(ExponentText(e) + rest) == Ok(e, |ExponentText(e)|)
  {
    var digits := NatText(if e >= 0 then e else -e);
    var s := ExponentText(e) + rest;
    assert s[2..] == digits + rest;
    LeadingDigitsAre(digits + rest, |digits|);
    assert s[2..2 + |digits|] == digits;
    assert s[1..][0] == s[1];
  }

  lemma {:induction false} TrailingZerosGo(negative: bool, digits: Bytes, n: int, j: nat)
    requires Significant(digits)
    ensures Normalize(negative, digits + Zeros(j), n) == Decimal(negative, digits, n)
  {
    if j == 0 {
      assert digits + Zeros(0) == digits;
    } else {
      var s := digits + Zeros(j);
      assert s[..|s| - 1] == digits + Zeros(j - 1);
      TrailingZerosGo(negative, digits, n, j - 1);
    }
  }

  lemma {:induction false} LeadingZerosGo(negative: bool, digits: Bytes, n: int, j: nat)
    requires Significant(digits)
    ensures Normalize(negative, Zeros(j) + digits, n) == Decimal(negative, digits, n - j)
    decreases j
  {
    if j == 0 {
      assert Zeros(0) + digits == digits;
    } else {
      var s := Zeros(j) + digits;
      assert s[1..] == Zeros(j - 1) + digits;
      LeadingZerosGo(negative, digits, n - 1, j - 1);
    }
  }

  lemma UnsignedIsRead(whole: Bytes, after: Bytes, raw: Raw, m: nat)
    requires whole != [] && AllDigits(whole) && (whole[0] == ZERO ==> |whole| == 1)
    requires after == [] || !IsDigit(after[0])
    requires FractionAndExponent(after) == Ok(raw, m)
    ensures Unsigned(whole + after) == Ok(Raw(whole + raw.digits, |whole| + raw.exponent), |whole| + m)
  {
    WholeIsRead(whole, after);
    assert (whole + after)[|whole|..] == after;
  }

  lemma OnlyFraction(fraction: Bytes, rest: Bytes)
    requires fraction != [] && AllDigits(fraction) && NumberEnd(rest)
    ensures FractionAndExponent([POINT] + fraction + rest) == Ok(Raw(fraction, 0), 1 + |fraction|)
  {
    FractionIsRead(fraction, rest);
    assert ([POINT] + fraction + rest)[1 + |fraction|..] == rest;
  }

  lemma FractionThenExponent(fraction: Bytes, e: int, rest: Bytes)
    requires AllDigits(fraction) && NumberEnd(rest)
    ensures FractionAndExponent(PointText(fraction) + ExponentText(e) + rest)
         == Ok(Raw(fraction, e), |PointText(fraction)| + |ExponentText(e)|)
    ensures !IsDigit((PointText(fraction) + ExponentText(e) + rest)[0])
  {
    var point, last := PointText(fraction), ExponentText(e) + rest;
    ExponentIsRead(e, rest);
    Assoc(point, ExponentText(e), rest);
    if fraction == [] {
      assert point + last == last && last[0..] == last;
    } else {
      FractionIsRead(fraction, last);
      DropFront(point, last);
    }
  }

  /** The digits formatNumber lays out, with the zeros it adds for the point's place. */
  function LaidOut(digits: Bytes, n: int): Raw
    requires Significant(digits)
  {
    if |digits| <= n <= 21 then Raw(digits + Zeros(n - |digits|), n)
    else if -6 < n <= 0 then Raw(Zeros(1 - n) + digits, 1)
    else Raw(digits, n)
  }

  /** The text is read back, wherever formatNumber places the point. */
  lemma PlacedIsRead(digits: Bytes, n: int, rest: Bytes)
    requires Significant(digits) && NumberEnd(rest)
    ensures Unsigned(Placed(digits, n) + rest) == Ok(LaidOut(digits, n), |Placed(digits, n)|)
  {
    if |digits| <= n <= 21 {
      WholeAloneIsRead(digits + Zeros(n - |digits|), rest);
    } else {
      PointIsRead(digits, n, rest);
    }
  }

  lemma PointIsRead(digits: Bytes, n: int, rest: Bytes)
    requires Significant(digits) && NumberEnd(rest) && !(|digits| <= n <= 21)
    ensures Unsigned(Placed(digits, n) + rest) == Ok(LaidOut(digits, n), |Placed(digits, n)|)
  {
    if 0 < n <= 21 {
      PointInsideIsRead(digits, n, rest);
    } else if -6 < n <= 0 {
      PointBeforeIsRead(digits, n, rest);
    } else {
      ExponentialIsRead(digits, n, rest);
    }
  }

  lemma WholeAloneIsRead(whole: Bytes, rest: Bytes)
    requires whole != [] && AllDigits(whole) && (whole[0] == ZERO ==> |whole| == 1) && NumberEnd(rest)
    ensures Unsigned(whole + rest) == Ok(Raw(whole, |whole|), |whole|)
  {
    assert rest[0..] == rest;
    UnsignedIsRead(whole, rest, Raw([], 0), 0);
    assert whole + [] == whole;
  }

  lemma PointInsideIsRead(digits: Bytes, n: nat, rest: Bytes)
    requires Significant(digits) && NumberEnd(rest) && 0 < n < |digits|
    ensures Unsigned(digits[..n] + [POINT] + digits[n..] + rest) == Ok(Raw(digits, n), |digits| + 1)
  {
    var fraction := digits[n..];
    var after := [POINT] + fraction + rest;
    OnlyFraction(fraction, rest);
    UnsignedIsRead(digits[..n], after, Raw(fraction, 0), 1 + |fraction|);
    Assoc4(digits[..n], [POINT], fraction, rest);
    assert digits[..n] + fraction == digits;
  }

  lemma PointBeforeIsRead(digits: Bytes, n: int, rest: Bytes)
    requires Significant(digits) && NumberEnd(rest) && n <= 0
    ensures Unsigned([ZERO, POINT] + Zeros(-n) + digits + rest) == Ok(Raw(Zeros(1 - n) + digits, 1), 2 - n + |digits|)
  {
    var fraction := Zeros(-n) + digits;
    var after := [POINT] + fraction + rest;
    OnlyFraction(fraction, rest);
    UnsignedIsRead([ZERO], after, Raw(fraction, 0), 1 + |fraction|);
    assert [ZERO] + after == [ZERO, POINT] + Zeros(-n) + digits + rest by {
      Assoc4([ZERO], [POINT], fraction, rest);
      assert [ZERO] + [POINT] == [ZERO, POINT];
      Assoc([ZERO, POINT], Zeros(-n), digits);
    }
    Assoc([ZERO], Zeros(-n), digits);
    assert Zeros(1 - n) == [ZERO] + Zeros(-n);
  }

  lemma ExponentialIsRead(digits: Bytes, n: int, rest: Bytes)
    requires Significant(digits) && NumberEnd(rest)
    ensures Unsigned(digits[..1] + PointText(digits[1..]) + ExponentText(n - 1) + rest)
         == Ok(Raw(digits, n), 1 + |PointText(digits[1..])| + |ExponentText(n - 1)|)
  {
    hide Unsigned, FractionAndExponent, ExponentText;
    var fraction := digits[1..];
    var point, e := PointText(fraction), ExponentText(n - 1);
    FractionThenExponent(fraction, n - 1, rest);
    UnsignedIsRead(digits[..1], point + e + rest, Raw(fraction, n - 1), |point| + |e|);
    Assoc4(digits[..1], point, e, rest);
    assert digits[..1] + fraction == digits;
  }

  lemma LaidOutNormalizes(negative: bool, digits: Bytes, n: int)
    requires Significant(digits)
    ensures AllDigits(LaidOut(digits, n).digits)
    ensures Normalize(negative, LaidOut(digits, n).digits, LaidOut(digits, n).exponent) == Decimal(negative, digits, n)
  {
    if |digits| <= n <= 21 {
      TrailingZerosGo(negative, digits, n, n - |digits|);
    } else if -6 < n <= 0 {
      LeadingZerosGo(negative, digits, 1, 1 - n);
    }
  }

  lemma ZeroIsRead(rest: Bytes)
    requires NumberEnd(rest)
    ensures ParseNumber([ZERO] + rest) == Ok(Zero, 1)
  {
    var s := [ZERO] + rest;
    assert s[0..] == s;
    WholeAloneIsRead([ZERO], rest);
    assert Normalize(false, [ZERO], 1) == Normalize(false, [], 0) == Zero;
  }

  lemma SignedIsRead(negative: bool, digits: Bytes, n: int, rest: Bytes)
    requires Significant(digits) && NumberEnd(rest)
    ensures var sign := if negative then [MINUS] else [];
            ParseNumber(sign + (Placed(digits, n) + rest)) ==
              Ok(Decimal(negative, digits, n), |sign| + |Placed(digits, n)|)
  {
    var text := Placed(digits, n) + rest;
    PlacedStartsWithDigit(digits, n);
    PlacedIsRead(digits, n, rest);
    LaidOutNormalizes(negative, digits, n);
    SignIsRead(negative, text, LaidOut(digits, n), |Placed(digits, n)|);
  }

  lemma SignIsRead(negative: bool, text: Bytes, raw: Raw, n: nat)
    requires text != [] && IsDigit(text[0]) && Unsigned(text) == Ok(raw, n)
    ensures var sign := if negative then [MINUS] else [];
            ParseNumber(sign + text) == Ok(Normalize(negative, raw.digits, raw.exponent), |sign| + n)
  {
    DropFront(if negative then [MINUS] else [], text);
  }

  /** Round trip: every decimal is laid out as a text that reads back as itself, whatever follows. */
  lemma NumberIsRead(d: Decimal, rest: Bytes)
    requires IsNormal(d) && NumberEnd(rest)
    ensures ParseNumber(NumberText(d) + rest) == Ok(d, |NumberText(d)|)
  {
    if d.Zero? {
      ZeroIsRead(rest);
    } else {
      SignedIsRead(d.negative, d.digits, d.exponent, rest);
      Assoc(if d.negative then [MINUS] else [], Placed(d.digits, d.exponent), rest);
    }
  }

  lemma PlacedStartsWithDigit(digits: Bytes, n: int)
    requires Significant(digits)
    ensures Placed(digits, n) != [] && IsDigit(Placed(digits, n)[0])
  {
  }

  lemma NumberTextStart(d: Decimal)
    requires IsNormal(d)
    ensures var s := NumberText(d); s != [] && (IsDigit(s[0]) || s[0] == MINUS)
  {
  }

  /** Distinct decimals print differently, even with text after them. */
  lemma NumberTextIsInjective(d: Decimal, e: Decimal, u: Bytes, v: Bytes)
    requires IsNormal(d) && IsNormal(e) && NumberEnd(u) && NumberEnd(v)
    requires NumberText(d) + u == NumberText(e) + v
    ensures d == e && u == v
  {
    NumberIsRead(d, u);
    NumberIsRead(e, v);
    var n := |NumberText(d)|;
    assert u == (NumberText(d) + u)[n..] && v == (NumberText(e) + v)[n..];
  }

  /* ---- A number is read the same wherever its own bytes stand ---- */

  lemma DigitsAreLocal(s: Bytes, t: Bytes)
    requires Agree(s, t, LeadingDigits(s)) && (t[LeadingDigits(s)..] == [] || !IsDigit(t[LeadingDigits(s)]))
    ensures LeadingDigits(t) == LeadingDigits(s)
  {
    var n := LeadingDigits(s);
    forall i | 0 <= i < n
      ensures IsDigit(t[i])
    {
      AgreeAt(s, t, n, i);
    }
    LeadingDigitsAre(t, n);
  }

  lemma WholeIsLocal(s: Bytes, t: Bytes, n: nat)
    requires Whole(s).Ok? && Whole(s).used == n && Agree(s, t, n)
    requires t[n..] == [] || !IsDigit(t[n])
    ensures Whole(t) == Whole(s)
  {
  }

  lemma FractionIsLocal(s: Bytes, t: Bytes, n: nat)
    requires Fraction(s).Ok? && Fraction(s).used == n && Agree(s, t, n)
    requires t[n..] == [] || !(IsDigit(t[n]) || t[n] == POINT)
    ensures Fraction(t) == Fraction(s)
  {
  }

  lemma ExponentIsLocal(s: Bytes, t: Bytes, n: nat)
    requires Exponent(s).Ok? && Exponent(s).used == n && Agree(s, t, n) && NumberEnd(t[n..])
    ensures Exponent(t) == Exponent(s)
  {
    hide NatOf, LeadingDigits;
    if n > 0 {
      AgreeAt(s, t, n, 0);
      AgreeAt(s, t, n, 1);
      var k := if StartsWith(s[1..], PLUS) || StartsWith(s[1..], MINUS) then 2 else 1;
      AgreeDrop(s, t, n, k, n - k);
      assert t[k..][n - k..] == t[n..];
      DigitsAreLocal(s[k..], t[k..]);
      assert s[k..n] == s[k..][..n - k] && t[k..n] == t[k..][..n - k];
    }
  }

  lemma FractionAndExponentAreLocal(s: Bytes, t: Bytes, n: nat)
    requires FractionAndExponent(s).Ok? && FractionAndExponent(s).used == n && Agree(s, t, n) && NumberEnd(t[n..])
    ensures FractionAndExponent(t) == FractionAndExponent(s)
  {
    var k := Fraction(s).used;
    AgreeLess(s, t, n, k);
    AgreeDrop(s, t, n, k, n - k);
    assert t[k..][n - k..] == t[n..];
    if k < n {
      AgreeAt(s, t, n, k);
    }
    FractionIsLocal(s, t, k);
    ExponentIsLocal(s[k..], t[k..], n - k);
  }

  lemma TailIsNoDigit(s: Bytes)
    requires FractionAndExponent(s).Ok? && FractionAndExponent(s).used > 0
    ensures !IsDigit(s[0])
  {
  }

  lemma UnsignedIsLocal(s: Bytes, t: Bytes, n: nat)
    requires Unsigned(s).Ok? && Unsigned(s).used == n && Agree(s, t, n) && NumberEnd(t[n..])
    ensures Unsigned(t) == Unsigned(s)
  {
    hide Whole, FractionAndExponent;
    var k := Whole(s).used;
    AgreeLess(s, t, n, k);
    AgreeDrop(s, t, n, k, n - k);
    SplitIsLocal(s, t, k, s[k..], t[k..], n - k);
  }

  lemma SplitIsLocal(s: Bytes, t: Bytes, k: nat, u: Bytes, v: Bytes, m: nat)
    requires Agree(s, t, k) && u == s[k..] && v == t[k..]
    requires Whole(s).Ok? && Whole(s).used == k
    requires FractionAndExponent(u).Ok? && FractionAndExponent(u).used == m && Agree(u, v, m) && NumberEnd(v[m..])
    ensures Whole(t) == Whole(s) && FractionAndExponent(v) == FractionAndExponent(u)
  {
    FractionAndExponentAreLocal(u, v, m);
    if m > 0 {
      AgreeAt(u, v, m, 0);
      TailIsNoDigit(u);
    }
    assert v == [] || !IsDigit(v[0]);
    WholeIsLocal(s, t, k);
  }

  lemma NumberIsLocal(s: Bytes, t: Bytes, n: nat)
    requires ParseNumber(s).Ok? && ParseNumber(s).used == n && Agree(s, t, n) && NumberEnd(t[n..])
    ensures ParseNumber(t) == ParseNumber(s)
  {
    hide Unsigned;
    var k := if StartsWith(s, MINUS) then 1 else 0;
    AgreeAt(s, t, n, 0);
    AgreeDrop(s, t, n, k, n - k);
    assert t[k..][n - k..] == t[n..];
    UnsignedIsLocal(s[k..], t[k..], n - k);
  }
}
