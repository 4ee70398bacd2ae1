/** The number grammar of section 6 of RFC 8259, and that parseNumber (native/src/json.cpp) reads exactly its texts, as
    the numbers they denote. */
module JsonNumberGrammar {
  import opened Ordering
  import opened JsonBasics
  import opened JsonNumber
  import opened JsonNumberMeaning

  /** A minus sign or none, whole digits, digits behind a point or none, and an exponent or none. */
  datatype Parts = Parts(negative: bool, whole: Bytes, fraction: Bytes, letter: Bytes, sign: Bytes, exponent: Bytes)

  predicate AreDigits(t: Bytes) {
    forall i :: 0 <= i < |t| ==> 0x30 <= t[i] <= 0x39
  }

  predicate IsProper(p: Parts) {
    && AreDigits(p.whole) && AreDigits(p.fraction) && AreDigits(p.exponent)
    && p.whole != [] && (|p.whole| > 1 ==> p.whole[0] != 0x30)
    && (p.letter == [] || p.letter == [0x65] || p.letter == [0x45])
    && (p.sign == [] || p.sign == [0x2B] || p.sign == [0x2D])
    && (if p.letter == [] then p.sign == [] && p.exponent == [] else p.exponent != [])
  }

  function FractionText(p: Parts): Bytes {
    if p.fraction == [] then [] else [0x2E] + p.fraction
  }

  function TailOf(p: Parts): Bytes {
    FractionText(p) + (p.letter + (p.sign + p.exponent))
  }

  function BodyOf(p: Parts): Bytes {
    p.whole + TailOf(p)
  }

  function TextOf(p: Parts): Bytes {
    (if p.negative then [0x2D] else []) + BodyOf(p)
  }

  /** Whole digits and fraction as one. */
  function DigitsOf(p: Parts): (r: Bytes)
    requires IsProper(p)
    ensures AllDigits(r) && |r| == |p.whole| + |p.fraction|
  {
    p.whole + p.fraction
  }

  function ExponentOf(p: Parts): int
    requires IsProper(p)
  {
    var size: int := NatOf(p.exponent);
    if StartsWith(p.sign, MINUS) then -size else size
  }

  lemma ExponentReads(p: Parts, rest: Bytes)
    requires IsProper(p) && NumberEnd(rest)
    ensures Exponent(p.letter + (p.sign + p.exponent) + rest) ==
            Ok(ExponentOf(p), |p.letter| + |p.sign| + |p.exponent|)
  {
    if p.letter == [] {
      assert p.letter + (p.sign + p.exponent) + rest == rest;
    } else {
      LetterReads(p.letter[0], p.sign, p.exponent, rest);
      hide Exponent, NatOf, NumberEnd, AreDigits;
      assert p.letter + (p.sign + p.exponent) + rest == [p.letter[0]] + (p.sign + (p.exponent + rest));
    }
  }

  lemma LetterReads(letter: byte, sign: Bytes, digits: Bytes, rest: Bytes)
    requires letter == 0x65 || letter == 0x45
    requires |sign| <= 1 && (sign != [] ==> sign[0] == PLUS || sign[0] == MINUS)
    requires digits != [] && AllDigits(digits) && NumberEnd(rest)
    ensures var size: int := NatOf(digits);
            Exponent([letter] + (sign + (digits + rest))) ==
            Ok(if StartsWith(sign, MINUS) then -size else size, 1 + |sign| + |digits|)
  {
    hide NatOf, Exponent, NumberEnd, AllDigits, LeadingDigits;
    DigitsEnd(digits, rest);
    Joints([letter], sign, digits + rest);
    ExponentStep([letter] + (sign + (digits + rest)), 1 + |sign|, digits, rest);
  }

  lemma Joints(a: Bytes, b: Bytes, c: Bytes)
    requires |a| == 1 && c != [] && |b| <= 1
    ensures var s := a + (b + c); s[1 + |b|..] == c && s[0] == a[0] && s[1] == if b == [] then c[0] else b[0]
  {
  }

  lemma DigitsEnd(digits: Bytes, rest: Bytes)
    requires AllDigits(digits) && NumberEnd(rest)
    ensures LeadingDigits(digits + rest) == |digits|
    ensures digits != [] ==> digits[0] != PLUS && digits[0] != MINUS && (digits + rest)[0] == digits[0]
  {
    LeadingDigitsAre(digits + rest, |digits|);
  }

  lemma ExponentStep(s: Bytes, k: nat, digits: Bytes, rest: Bytes)
    requires |s| > 1 && (s[0] == 0x65 || s[0] == 0x45) && k == if s[1] == PLUS || s[1] == MINUS then 2 else 1
    requires k <= |s| && s[k..] == digits + rest && AllDigits(digits) && digits != []
    requires LeadingDigits(digits + rest) == |digits|
    ensures var size: int := NatOf(digits); Exponent(s) == Ok(if s[1] == MINUS then -size else size, k + |digits|)
  {
    hide NatOf;
    assert s[1..][0] == s[1];
    assert s[k..k + |digits|] == (digits + rest)[..|digits|] == digits;
  }

  lemma FractionReads(p: Parts, rest: Bytes)
    requires IsProper(p) && (rest == [] || !(IsDigit(rest[0]) || rest[0] == POINT))
    ensures Fraction(FractionText(p) + rest) == Ok(p.fraction, |FractionText(p)|)
  {
    if p.fraction == [] {
      assert FractionText(p) + rest == rest;
    } else {
      FractionIsRead(p.fraction, rest);
    }
  }

  lemma AfterPoint(p: Parts, rest: Bytes)
    requires IsProper(p) && NumberEnd(rest)
    ensures var tail := p.letter + (p.sign + p.exponent) + rest;
            tail == [] || !(IsDigit(tail[0]) || tail[0] == POINT)
  {
    var tail := p.letter + (p.sign + p.exponent) + rest;
    assert p.letter == [] ==> tail == rest;
  }

  lemma TailReads(p: Parts, rest: Bytes)
    requires IsProper(p) && NumberEnd(rest)
    ensures var tail := TailOf(p) + rest;
            && FractionAndExponent(tail) ==
               Ok(Raw(p.fraction, ExponentOf(p)), |TailOf(p)|)
            && (tail == [] || !IsDigit(tail[0]))
  {
    var e := p.letter + (p.sign + p.exponent);
    AfterPoint(p, rest);
    FractionReads(p, e + rest);
    ExponentReads(p, rest);
    Assoc(FractionText(p), e, rest);
    DropFront(FractionText(p), e + rest);
    hide Fraction, Exponent, NatOf;
  }

  /** Every such text is read to its end, whatever follows that does not go on with it, as whole and fraction together
      times ten to the exponent less the digits of the fraction. */
  lemma PartsAreRead(p: Parts, rest: Bytes)
    requires IsProper(p) && NumberEnd(rest)
    ensures var r := ParseNumber(TextOf(p) + rest);
            && r.Ok? && r.used == |TextOf(p)|
            && Meaning(r.value) ==
               Signed(p.negative, Times(NatOf(DigitsOf(p)), Pow10(ExponentOf(p) - |p.fraction|)))
  {
    hide BodyOf, DigitsOf, ExponentOf, IsProper, ParseNumber, Meaning, Times, Pow10, Signed, NatOf, Unsigned, NumberEnd;
    UnsignedReads(p, rest);
    SignedReads(p.negative, BodyOf(p), rest, DigitsOf(p), |p.whole| + ExponentOf(p));
  }

  lemma UnsignedReads(p: Parts, rest: Bytes)
    requires IsProper(p) && NumberEnd(rest)
    ensures Unsigned(BodyOf(p) + rest) == Ok(Raw(DigitsOf(p), |p.whole| + ExponentOf(p)), |BodyOf(p)|)
    ensures BodyOf(p) != [] && BodyOf(p)[0] != MINUS
  {
    hide Unsigned, Whole, FractionAndExponent, NatOf, TailOf, ExponentOf, AreDigits, AllDigits, NumberEnd;
    TailReads(p, rest);
    WholeReads(p, TailOf(p) + rest);
    WholeAndTail(p.whole, TailOf(p), rest, p.fraction, ExponentOf(p));
  }

  lemma WholeReads(p: Parts, rest: Bytes)
    requires IsProper(p) && (rest == [] || !IsDigit(rest[0]))
    ensures Whole(p.whole + rest) == Ok(p.whole, |p.whole|) && p.whole[0] != MINUS
  {
    WholeIsRead(p.whole, rest);
  }

  lemma WholeAndTail(whole: Bytes, tail: Bytes, rest: Bytes, fraction: Bytes, e: int)
    requires Whole(whole + (tail + rest)) == Ok(whole, |whole|)
    requires FractionAndExponent(tail + rest) == Ok(Raw(fraction, e), |tail|)
    ensures Unsigned(whole + tail + rest) == Ok(Raw(whole + fraction, |whole| + e), |whole + tail|)
  {
    hide Whole, FractionAndExponent;
    Assoc(whole, tail, rest);
    DropFront(whole, tail + rest);
  }

  lemma SignedReads(negative: bool, body: Bytes, rest: Bytes, digits: Bytes, exponent: int)
    requires AllDigits(digits) && Unsigned(body + rest) == Ok(Raw(digits, exponent), |body|)
    requires body != [] && body[0] != MINUS
    ensures var sign := if negative then [0x2D] else [];
            var r := ParseNumber(sign + body + rest);
            && r.Ok? && r.used == |sign + body|
            && Meaning(r.value) == Signed(negative, Times(NatOf(digits), Pow10(exponent - |digits|)))
  {
    hide Unsigned, NatOf, Times, Meaning;
    var sign := if negative then [0x2D] else [];
    var s := sign + (body + rest);
    Assoc(sign, body, rest);
    DropFront(sign, body + rest);
    assert (body + rest)[0] == body[0] && (body + rest)[0..] == body + rest;
    ParsedNumberMeans(s);
  }

  /* ---- And nothing else is read ---- */

  lemma DigitsRead(s: Bytes)
    ensures AreDigits(s[..LeadingDigits(s)])
  {
  }

  lemma BodyHasParts(t: Bytes, negative: bool) returns (p: Parts)
    requires Unsigned(t).Ok?
    ensures IsProper(p) && p.negative == negative && BodyOf(p) == t[..Unsigned(t).used]
  {
    hide NatOf;
    var n := Whole(t).used;
    var m := n + Fraction(t[n..]).used;
    assert t[n..][Fraction(t[n..]).used..] == t[m..];
    var letter, sign, exponent := ExponentHasParts(t[m..]);
    p := Parts(negative, Whole(t).value, Fraction(t[n..]).value, letter, sign, exponent);
    WholeHasParts(t);
    FractionHasParts(t[n..]);
    var end := m + Exponent(t[m..]).used;
    assert Unsigned(t).used == end;
    hide Whole, Fraction, Exponent, Unsigned, AreDigits;
    Concatenated(t, n, m, end);
  }

  lemma Concatenated(t: Bytes, n: nat, m: nat, end: nat)
    requires n <= m <= end <= |t|
    ensures t[..end] == t[..n] + (t[n..][..m - n] + t[m..][..end - m])
  {
  }

  /** Whatever is read is such a text. */
  lemma ReadHasParts(s: Bytes) returns (p: Parts)
    requires ParseNumber(s).Ok?
    ensures IsProper(p) && TextOf(p) == s[..ParseNumber(s).used]
  {
    hide Unsigned, Normalize, BodyOf, IsProper;
    var sign: nat := if StartsWith(s, MINUS) then 1 else 0;
    p := BodyHasParts(s[sign..], sign == 1);
    var used := ParseNumber(s).used;
    assert s[..used] == s[..sign] + s[sign..][..used - sign];
  }

  lemma WholeHasParts(t: Bytes)
    requires Whole(t).Ok?
    ensures var w := Whole(t);
            && w.value == t[..w.used] && w.value != [] && AreDigits(w.value)
            && (|w.value| > 1 ==> w.value[0] != 0x30)
  {
    DigitsRead(t);
  }

  lemma FractionHasParts(t: Bytes)
    requires Fraction(t).Ok?
    ensures var f := Fraction(t);
            && AreDigits(f.value) && t[..f.used] == if f.value == [] then [] else [0x2E] + f.value
  {
  }

  lemma ExponentHasParts(t: Bytes) returns (letter: Bytes, sign: Bytes, exponent: Bytes)
    requires Exponent(t).Ok?
    ensures AreDigits(exponent) && t[..Exponent(t).used] == letter + (sign + exponent)
    ensures letter == [] || letter == [0x65] || letter == [0x45]
    ensures sign == [] || sign == [0x2B] || sign == [0x2D]
    ensures if letter == [] then sign == [] && exponent == [] else exponent != []
  {
    hide NatOf;
    if !StartsWith(t, LOWER_E) && !StartsWith(t, UPPER_E) {
      letter, sign, exponent := [], [], [];
    } else {
      letter := [t[0]];
      if StartsWith(t[1..], PLUS) || StartsWith(t[1..], MINUS) {
        sign, exponent := [t[1]], t[2..Exponent(t).used];
      } else {
        sign, exponent := [], t[1..Exponent(t).used];
      }
    }
  }
}
