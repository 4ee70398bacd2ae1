/** How numbers and whole values are laid out in canonical text (native/src/json.cpp; sections 3.2.1 and 3.2.2.3 of
    RFC 8785), as properties of the bytes. */
module JsonLayout {
  import opened Ordering
  import opened JsonBasics
  import opened JsonNumber
  import opened JsonString
  import opened Json

  /** Digits alone. */
  predicate IsWhole(t: Bytes) {
    t != [] && forall i :: 0 <= i < |t| ==> IsDigit(t[i])
  }

  /** Digits, with a point behind the first so many. */
  predicate IsPointed(t: Bytes, before: int) {
    && 0 < before < |t| - 1 && t[before] == 0x2E
    && forall i :: 0 <= i < |t| && i != before ==> IsDigit(t[i])
  }

  /** A mantissa with one digit before its point, if it has one, and behind the e a sign and a number that does not
      start with 0. */
  predicate IsExponential(t: Bytes, digits: nat, exponent: int) {
    var e := if digits == 1 then 1 else digits + 1;
    && |t| > e + 2 && t[e] == 0x65 && t[e + 1] == (if exponent < 0 then 0x2D else 0x2B)
    && (if digits == 1 then IsWhole(t[..e]) else IsPointed(t[..e], 1))
    && IsWhole(t[e + 2..]) && t[e + 2] != 0x30
    && NatOf(t[e + 2..]) == if exponent < 0 then -exponent else exponent
  }

  /** The four layouts of a number 0.d1...dk times ten to the n, and exactly when each is used. */
  lemma LayoutOf(digits: Bytes, n: int)
    requires Significant(digits)
    ensures var t, k := Placed(digits, n), |digits|;
            && t[0] != 0x2D
            && (n > 21 || n <= -6 <==> LOWER_E in t)
            && (n > 21 || n <= -6 ==> IsExponential(t, k, n - 1))
            && (-6 < n <= 21 && k <= n ==> IsWhole(t) && |t| == n && t[0] != 0x30)
            && (-6 < n <= 21 && 0 < n < k ==> IsPointed(t, n) && |t| == k + 1 && t[0] != 0x30)
            && (-6 < n <= 0 ==> IsPointed(t, 1) && |t| == 2 - n + k && t[0] == 0x30)
  {
    var t, k := Placed(digits, n), |digits|;
    if k <= n <= 21 || -6 < n <= 21 {
      NoLetter(t);
    } else {
      ExponentialOf(digits, n);
    }
  }

  lemma NoLetter(t: Bytes)
    ensures (forall i :: 0 <= i < |t| ==> IsDigit(t[i]) || t[i] == 0x2E) ==> LOWER_E !in t
  {
  }

  lemma ExponentialOf(digits: Bytes, n: int)
    requires Significant(digits) && (n > 21 || n <= -6)
    ensures LOWER_E in Placed(digits, n) && IsExponential(Placed(digits, n), |digits|, n - 1)
  {
    var size := NatText(if n - 1 >= 0 then n - 1 else 1 - n);
    var mantissa := digits[..1] + PointText(digits[1..]);
    MantissaOf(digits);
    hide NatText, NatOf, IsPointed;
    var sign: byte := if n - 1 >= 0 then PLUS else MINUS;
    PutTogether(mantissa, sign, size, |digits|, n - 1);
    assert Placed(digits, n) == mantissa + ([LOWER_E, sign] + size);
  }

  lemma MantissaOf(digits: Bytes)
    requires Significant(digits)
    ensures var mantissa := digits[..1] + PointText(digits[1..]);
            if |digits| == 1 then |mantissa| == 1 && IsWhole(mantissa)
            else |mantissa| == |digits| + 1 && IsPointed(mantissa, 1)
  {
  }

  lemma PutTogether(mantissa: Bytes, sign: byte, size: Bytes, k: nat, exponent: int)
    requires k > 0 && |mantissa| == (if k == 1 then 1 else k + 1)
    requires if k == 1 then IsWhole(mantissa) else IsPointed(mantissa, 1)
    requires sign == if exponent < 0 then 0x2D else 0x2B
    requires IsWhole(size) && size[0] != 0x30 && NatOf(size) == if exponent < 0 then -exponent else exponent
    ensures var t := mantissa + ([LOWER_E, sign] + size); LOWER_E in t && IsExponential(t, k, exponent)
  {
    var t, e := mantissa + ([LOWER_E, sign] + size), |mantissa|;
    assert t[..e] == mantissa && t[e + 2..] == size && t[e] == LOWER_E && t[e + 1] == sign;
    hide IsPointed, NatOf;
  }

  /** A number's whole text: 0, or the digits so laid out behind a minus sign for a negative one. */
  lemma NumberTextIs(d: Decimal)
    requires IsNormal(d)
    ensures d.Zero? ==> NumberText(d) == [0x30]
    ensures d.Decimal? && d.negative ==> NumberText(d) == [0x2D] + Placed(d.digits, d.exponent)
    ensures d.Decimal? && !d.negative ==> NumberText(d) == Placed(d.digits, d.exponent)
  {
  }

  /* ---- No byte too many ---- */

  function Total(lengths: seq<int>): int {
    if lengths == [] then 0 else lengths[0] + Total(lengths[1..])
  }

  /** An array's text has a bracket at either end, and a comma between its values; nothing else. */
  lemma ArrayLength(items: seq<Value>)
    ensures var t := Text(Array(items));
            && t[0] == 0x5B && t[|t| - 1] == 0x5D
            && |t| == 2 + Total(seq(|items|, i requires 0 <= i < |items| => |Text(items[i])|))
                        + if items == [] then 0 else |items| - 1
  {
    if items != [] {
      ItemsLength(items);
    }
  }

  lemma {:induction false} ItemsLength(items: seq<Value>)
    requires items != []
    ensures var t := ItemsText(items);
            && t[|t| - 1] == 0x5D
            && |t| == |items| + Total(seq(|items|, i requires 0 <= i < |items| => |Text(items[i])|))
  {
    var lengths := seq(|items|, i requires 0 <= i < |items| => |Text(items[i])|);
    if |items| == 1 {
      assert lengths[1..] == [];
    } else {
      var later := items[1..];
      ItemsLength(later);
      assert lengths[1..] == seq(|later|, i requires 0 <= i < |later| => |Text(later[i])|);
    }
  }

  function MemberSize(m: Member): int {
    |StringText(m.name)| + 1 + |Text(m.value)|
  }

  lemma MemberHasSize(m: Member)
    ensures |MemberText(m)| == MemberSize(m)
  {
  }

  /** An object's text likewise, with a colon between each name and its value. */
  lemma ObjectLength(members: seq<Member>)
    ensures var t := Text(Object(members));
            && t[0] == 0x7B && t[|t| - 1] == 0x7D
            && |t| == 2 + Total(seq(|members|, i requires 0 <= i < |members| => MemberSize(members[i])))
                        + if members == [] then 0 else |members| - 1
  {
    if members != [] {
      MembersLength(members);
    }
  }

  lemma {:induction false} MembersLength(members: seq<Member>)
    requires members != []
    ensures var t := MembersText(members);
            && t[|t| - 1] == 0x7D
            && |t| == |members| + Total(seq(|members|, i requires 0 <= i < |members| => MemberSize(members[i])))
  {
    MemberHasSize(members[0]);
    hide MemberText, MemberSize;
    var lengths := seq(|members|, i requires 0 <= i < |members| => MemberSize(members[i]));
    if |members| == 1 {
      assert lengths[1..] == [];
    } else {
      var later := members[1..];
      MembersLength(later);
      assert lengths[1..] == seq(|later|, i requires 0 <= i < |later| => MemberSize(later[i]));
    }
  }
}
