/** What number texts denote: the grammar and the layout of JsonNumber against the real number line. */
module JsonNumberMeaning {
  import opened Ordering
  import opened JsonBasics
  import opened JsonNumber

  function Pow10(n: int): (p: real)
    ensures p > 0.0
    decreases if n < 0 then -n else n
  {
    if n == 0 then 1.0 else if n > 0 then 10.0 * Pow10(n - 1) else Pow10(n + 1) / 10.0
  }

  /** p added up k times. */
  function Times(k: nat, p: real): real {
    if k == 0 then 0.0 else Times(k - 1, p) + p
  }

  /** 0.digits times ten to the n. */
  function Scaled(digits: Bytes, n: int): real
    requires AllDigits(digits)
  {
    if digits == [] then 0.0
    else Times(digits[0] - ZERO, Pow10(n - 1)) + Scaled(digits[1..], n - 1)
  }

  function Signed(negative: bool, x: real): real {
    if negative then -x else x
  }

  /** The number a decimal stands for. */
  function Meaning(d: Decimal): real
    requires IsNormal(d)
  {
    if d.Zero? then 0.0 else Signed(d.negative, Scaled(d.digits, d.exponent))
  }

  lemma Pow10Step(n: int)
    ensures Pow10(n) == 10.0 * Pow10(n - 1)
  {
  }

  lemma {:induction false} Pow10Monotone(n: int, m: int)
    requires n <= m
    ensures Pow10(n) <= Pow10(m)
    decreases m - n
  {
    if n < m {
      Pow10Step(m);
      Pow10Monotone(n, m - 1);
    }
  }

  lemma {:induction false} ScaledConcat(a: Bytes, b: Bytes, n: int)
    requires AllDigits(a) && AllDigits(b)
    ensures Scaled(a + b, n) == Scaled(a, n) + Scaled(b, n - |a|)
    decreases |a|
  {
    if a == [] {
      assert a + b == b;
    } else {
      ScaledConcat(a[1..], b, n - 1);
      assert (a + b)[1..] == a[1..] + b;
    }
  }

  lemma {:induction false} TimesIsProduct(k: nat, p: real)
    ensures Times(k, p) == k as real * p
  {
    if k == 0 {
    } else {
      TimesIsProduct(k - 1, p);
    }
  }

  lemma {:induction false} TimesMonotone(j: nat, k: nat, p: real)
    requires j <= k && p >= 0.0
    ensures Times(j, p) <= Times(k, p)
    ensures j < k ==> Times(j, p) + p <= Times(k, p)
    decreases k
  {
    if j < k {
      TimesMonotone(j, k - 1, p);
    }
  }

  lemma {:induction false} TimesAdds(j: nat, k: nat, p: real)
    ensures Times(j + k, p) == Times(j, p) + Times(k, p)
    decreases k
  {
    if k == 0 {
    } else {
      TimesAdds(j, k - 1, p);
    }
  }

  lemma {:induction false} TimesTen(k: nat, p: real)
    ensures Times(k, 10.0 * p) == Times(k * 10, p)
  {
    if k == 0 {
    } else {
      TimesTen(k - 1, p);
      TimesAdds((k - 1) * 10, 10, p);
      TimesIsProduct(10, p);
    }
  }

  /** The digits read as one whole number, shifted into place. */
  lemma {:induction false} ScaledIsShiftedNat(digits: Bytes, n: int)
    requires AllDigits(digits)
    ensures Scaled(digits, n) == Times(NatOf(digits), Pow10(n - |digits|))
    decreases |digits|
  {
    if digits == [] {
    } else {
      var k := |digits| - 1;
      ScaledSplitsLast(digits, n);
      ScaledIsShiftedNat(digits[..k], n);
      Pow10Step(n - k);
      TimesTen(NatOf(digits[..k]), Pow10(n - k - 1));
      TimesAdds(NatOf(digits[..k]) * 10, digits[k] - ZERO, Pow10(n - k - 1));
    }
  }

  lemma ScaledSplitsLast(digits: Bytes, n: int)
    requires digits != [] && AllDigits(digits)
    ensures var k := |digits| - 1;
            Scaled(digits, n) == Scaled(digits[..k], n) + Times(digits[k] - ZERO, Pow10(n - k - 1))
  {
    var k := |digits| - 1;
    assert digits == digits[..k] + [digits[k]];
    ScaledConcat(digits[..k], [digits[k]], n);
    assert [digits[k]][1..] == [];
  }

  lemma {:induction false} ScaledBounds(digits: Bytes, n: int)
    requires AllDigits(digits)
    ensures 0.0 <= Scaled(digits, n) < Pow10(n)
    ensures digits != [] && digits[0] != ZERO ==> Scaled(digits, n) >= Pow10(n - 1)
    ensures digits != [] && digits[|digits| - 1] != ZERO ==> Scaled(digits, n) > 0.0
    decreases |digits|
  {
    if digits == [] {
    } else {
      var rest := digits[1..];
      ScaledBounds(rest, n - 1);
      Pow10Step(n);
      assert IsDigit(digits[0]);
      TimesMonotone(0, digits[0] - ZERO, Pow10(n - 1));
      TimesMonotone(digits[0] - ZERO, 9, Pow10(n - 1));
      TimesIsProduct(9, Pow10(n - 1));
      if |digits| > 1 {
        assert rest[|rest| - 1] == digits[|digits| - 1];
      }
    }
  }

  /** Leading digits are told apart by the number. */
  lemma LeadingDigitIsDetermined(j: nat, k: nat, p: real, x: real, y: real)
    requires 0.0 <= x < p && 0.0 <= y < p && Times(j, p) + x == Times(k, p) + y
    ensures j == k
  {
    if j < k {
      TimesMonotone(j, k, p);
    } else if k < j {
      TimesMonotone(k, j, p);
    }
  }

  /** No two digit strings without trailing zeros denote one number at one scale. */
  lemma {:induction false} ScaledIsInjective(a: Bytes, b: Bytes, n: int)
    requires AllDigits(a) && AllDigits(b) && Scaled(a, n) == Scaled(b, n)
    requires a == [] || a[|a| - 1] != ZERO
    requires b == [] || b[|b| - 1] != ZERO
    ensures a == b
    decreases |a|
  {
    ScaledBounds(a, n);
    ScaledBounds(b, n);
    if a != [] && b != [] {
      SameLeadingDigit(a, b, n);
      ScaledIsInjective(a[1..], b[1..], n - 1);
      assert a == [a[0]] + a[1..] && b == [b[0]] + b[1..];
    }
  }

  lemma SameLeadingDigit(a: Bytes, b: Bytes, n: int)
    requires AllDigits(a) && AllDigits(b) && a != [] && b != [] && Scaled(a, n) == Scaled(b, n)
    ensures a[0] == b[0] && Scaled(a[1..], n - 1) == Scaled(b[1..], n - 1)
  {
    ScaledBounds(a[1..], n - 1);
    ScaledBounds(b[1..], n - 1);
    LeadingDigitIsDetermined(a[0] - ZERO, b[0] - ZERO, Pow10(n - 1), Scaled(a[1..], n - 1), Scaled(b[1..], n - 1));
  }

  /** Normal decimals and numbers: one number, one form. */
  lemma NormalFormIsUnique(d: Decimal, e: Decimal)
    requires IsNormal(d) && IsNormal(e)
    ensures Meaning(d) == Meaning(e) <==> d == e
  {
    if d.Decimal? {
      ScaledBounds(d.digits, d.exponent);
    }
    if e.Decimal? {
      ScaledBounds(e.digits, e.exponent);
    }
    if Meaning(d) == Meaning(e) && d.Decimal? && e.Decimal? {
      if d.exponent < e.exponent {
        Pow10Monotone(d.exponent, e.exponent - 1);
      } else if e.exponent < d.exponent {
        Pow10Monotone(e.exponent, d.exponent - 1);
      }
      ScaledIsInjective(d.digits, e.digits, d.exponent);
    }
  }

  /** Dropping zeros at either end changes no number. */
  lemma {:induction false} NormalizeKeepsMeaning(negative: bool, digits: Bytes, n: int)
    requires AllDigits(digits)
    ensures Meaning(Normalize(negative, digits, n)) == Signed(negative, Scaled(digits, n))
    decreases |digits|
  {
    if digits != [] && digits[0] == ZERO {
      NormalizeKeepsMeaning(negative, digits[1..], n - 1);
    } else if digits != [] && digits[|digits| - 1] == ZERO {
      NormalizeKeepsMeaning(negative, digits[..|digits| - 1], n);
      ScaledSplitsLast(digits, n);
    }
  }

  /** The number an accepted text denotes: all its digits as one whole number, scaled by the exponent written
      less the digits behind the point. */
  lemma ParsedNumberMeans(s: Bytes)
    requires ParseNumber(s).Ok?
    ensures var raw := Unsigned(if StartsWith(s, MINUS) then s[1..] else s).value;
            Meaning(ParseNumber(s).value) ==
              Signed(StartsWith(s, MINUS), Times(NatOf(raw.digits), Pow10(raw.exponent - |raw.digits|)))
  {
    assert s[0..] == s;
    var raw := Unsigned(if StartsWith(s, MINUS) then s[1..] else s).value;
    NormalizeKeepsMeaning(StartsWith(s, MINUS), raw.digits, raw.exponent);
    ScaledIsShiftedNat(raw.digits, raw.exponent);
  }

  /** What formatNumber prints denotes the very number it was given. */
  lemma PrintedNumberMeans(d: Decimal)
    requires IsNormal(d)
    ensures ParseNumber(NumberText(d)).Ok? && ParseNumber(NumberText(d)).used == |NumberText(d)|
    ensures Meaning(ParseNumber(NumberText(d)).value) == Meaning(d)
  {
    assert NumberText(d) + [] == NumberText(d);
    NumberIsRead(d, []);
  }
}
