/** UTF-8 validation and code points of native/src/json.cpp, and the UTF-16 order of member names
    (RFC 8785 section 3.2.3). */
module Utf8 {
  import opened Ordering

  predicate Continuation(b: byte) {
    0x80 <= b <= 0xBF
  }

  /** Bytes of the valid UTF-8 character s starts with, or 0 when there is none (appendValidUtf8Char). */
  function CharLength(s: Bytes): (n: nat)
    ensures n <= 4 && n <= |s|
  {
    if s == [] then 0
    else
      var c := s[0];
      if c <= 0x7F then 1
      else if 0xC2 <= c <= 0xDF then
        if |s| >= 2 && Continuation(s[1]) then 2 else 0
      else if 0xE0 <= c <= 0xEF then
        var lo := if c == 0xE0 then 0xA0 else 0x80;
        var hi := if c == 0xED then 0x9F else 0xBF;
        if |s| >= 3 && lo <= s[1] <= hi && Continuation(s[2]) then 3 else 0
      else if 0xF0 <= c <= 0xF4 then
        var lo := if c == 0xF0 then 0x90 else 0x80;
        var hi := if c == 0xF4 then 0x8F else 0xBF;
        if |s| >= 4 && lo <= s[1] <= hi && Continuation(s[2]) && Continuation(s[3]) then 4 else 0
      else 0
  }

  predicate ValidUtf8(s: Bytes) {
    s == [] || (CharLength(s) > 0 && ValidUtf8(s[CharLength(s)..]))
  }

  /** One more six-bit group below hi: (hi << 6) | (b & 0x3F). */
  function Pack(hi: int, b: int): int {
    hi * 64 + b % 64
  }

  lemma PackIsInjective(x: int, b: int, y: int, c: int)
    requires 0x80 <= b < 0xC0 && 0x80 <= c < 0xC0 && Pack(x, b) == Pack(y, c)
    ensures x == y && b == c
  {
  }

  /** Splitting off the low six bits undoes Pack. */
  lemma PackOfSplit(cp: int)
    ensures Pack(cp / 64, 0x80 + cp % 64) == cp
  {
  }

  function CodePointOf(n: nat, s: Bytes): int
    requires 1 <= n <= 4 && n <= |s|
  {
    var lead: int := s[0];
    if n == 1 then lead
    else if n == 2 then Pack(lead - 0xC0, s[1])
    else if n == 3 then Pack(Pack(lead - 0xE0, s[1]), s[2])
    else Pack(Pack(Pack(lead - 0xF0, s[1]), s[2]), s[3])
  }

  /** The code point of the character s starts with. */
  function CodePoint(s: Bytes): (cp: nat)
    requires CharLength(s) > 0
    ensures CharLength(s) == 1 <==> cp < 0x80
    ensures CharLength(s) == 2 <==> 0x80 <= cp < 0x800
    ensures CharLength(s) == 3 <==> 0x800 <= cp < 0x10000
    ensures CharLength(s) == 4 <==> 0x10000 <= cp
    ensures IsScalar(cp)
  {
    CodePointOf(CharLength(s), s)
  }

  predicate IsScalar(cp: nat) {
    cp < 0xD800 || 0xE000 <= cp < 0x110000
  }

  /** appendCodePoint. */
  function Encode(cp: nat): (s: Bytes)
    requires IsScalar(cp)
    ensures 0 < |s| <= 4
  {
    if cp < 0x80 then [cp]
    else if cp < 0x800 then [0xC0 + cp / 64, 0x80 + cp % 64]
    else if cp < 0x10000 then [0xE0 + cp / 64 / 64, 0x80 + cp / 64 % 64, 0x80 + cp % 64]
    else [0xF0 + cp / 64 / 64 / 64, 0x80 + cp / 64 / 64 % 64, 0x80 + cp / 64 % 64, 0x80 + cp % 64]
  }

  /** Whatever follows, the encoding is read back as one character with that code point. */
  lemma EncodeIsRead(cp: nat, rest: Bytes)
    requires IsScalar(cp)
    ensures CharLength(Encode(cp) + rest) == |Encode(cp)|
    ensures CodePoint(Encode(cp) + rest) == cp
  {
    var e, s := Encode(cp), Encode(cp) + rest;
    assert s[0] == e[0];
    if cp >= 0x80 {
      assert s[1] == e[1];
      PackOfSplit(cp);
      if cp >= 0x800 {
        assert s[2] == e[2];
        PackOfSplit(cp / 64);
        if cp >= 0x10000 {
          assert s[3] == e[3];
          PackOfSplit(cp / 64 / 64);
        }
      }
    }
  }

  /** The bytes of a code point, as section 3 of RFC 3629 lays them out. */
  ghost predicate IsUtf8Of(s: Bytes, cp: nat) {
    if cp < 0x80 then s == [cp]
    else if cp < 0x800 then
      && |s| == 2 && 0xC2 <= s[0] <= 0xDF && 0x80 <= s[1] <= 0xBF
      && var a: int, b: int := s[0], s[1]; cp == (a - 0xC0) * 0x40 + (b - 0x80)
    else if cp < 0x10000 then
      && |s| == 3 && 0xE0 <= s[0] <= 0xEF && 0x80 <= s[1] <= 0xBF && 0x80 <= s[2] <= 0xBF
      && var a: int, b: int, c: int := s[0], s[1], s[2]; cp == (a - 0xE0) * 0x1000 + (b - 0x80) * 0x40 + (c - 0x80)
    else
      && |s| == 4 && 0xF0 <= s[0] <= 0xF4
      && 0x80 <= s[1] <= 0xBF && 0x80 <= s[2] <= 0xBF && 0x80 <= s[3] <= 0xBF
      && var a: int, b: int, c: int, d: int := s[0], s[1], s[2], s[3];
         cp == (a - 0xF0) * 0x40000 + (b - 0x80) * 0x1000 + (c - 0x80) * 0x40 + (d - 0x80)
  }

  /** That is what is written. */
  lemma EncodeIsUtf8(cp: nat)
    requires IsScalar(cp)
    ensures IsUtf8Of(Encode(cp), cp)
  {
  }

  /** And what is read: a character is the encoding of a scalar value, and of its own code point alone. */
  lemma CharIsUtf8(s: Bytes)
    requires CharLength(s) > 0
    ensures IsScalar(CodePoint(s)) && s[..CharLength(s)] == Encode(CodePoint(s))
    ensures IsUtf8Of(s[..CharLength(s)], CodePoint(s))
  {
    var cp := CodePoint(s);
    EncodeIsRead(cp, []);
    assert Encode(cp) + [] == Encode(cp);
    CodePointIsInjective(s, Encode(cp));
    EncodeIsUtf8(cp);
  }

  /** A text starts with a character exactly if it starts with the encoding of some scalar value. */
  lemma CharIff(s: Bytes)
    ensures CharLength(s) > 0 <==> exists cp: nat :: IsScalar(cp) && Encode(cp) <= s
  {
    if CharLength(s) > 0 {
      CharIsUtf8(s);
      assert Encode(CodePoint(s)) <= s;
    }
    if cp: nat :| IsScalar(cp) && Encode(cp) <= s {
      EncodeIsRead(cp, s[|Encode(cp)|..]);
      assert s == Encode(cp) + s[|Encode(cp)|..];
    }
  }

  /** A character only depends on its own bytes. */
  lemma CharIsLocal(s: Bytes, rest: Bytes)
    requires CharLength(s) > 0
    ensures CharLength(s[..CharLength(s)] + rest) == CharLength(s)
    ensures CodePoint(s[..CharLength(s)] + rest) == CodePoint(s)
  {
    var t := s[..CharLength(s)] + rest;
    assert forall i :: 0 <= i < CharLength(s) ==> t[i] == s[i];
  }

  /** Two characters with one code point have the same bytes: no over-long forms are let through. */
  lemma CodePointIsInjective(a: Bytes, b: Bytes)
    requires CharLength(a) > 0 && CharLength(b) > 0 && CodePoint(a) == CodePoint(b)
    ensures CharLength(a) == CharLength(b) && a[..CharLength(a)] == b[..CharLength(b)]
  {
    var n := CharLength(a);
    assert CharLength(b) == n;
    if n == 2 {
      PackIsInjective(a[0] - 0xC0, a[1], b[0] - 0xC0, b[1]);
    } else if n == 3 {
      PackIsInjective(Pack(a[0] - 0xE0, a[1]), a[2], Pack(b[0] - 0xE0, b[1]), b[2]);
      PackIsInjective(a[0] - 0xE0, a[1], b[0] - 0xE0, b[1]);
    } else if n == 4 {
      PackIsInjective(Pack(Pack(a[0] - 0xF0, a[1]), a[2]), a[3], Pack(Pack(b[0] - 0xF0, b[1]), b[2]), b[3]);
      PackIsInjective(Pack(a[0] - 0xF0, a[1]), a[2], Pack(b[0] - 0xF0, b[1]), b[2]);
      PackIsInjective(a[0] - 0xF0, a[1], b[0] - 0xF0, b[1]);
    }
    assert forall i :: 0 <= i < n ==> a[i] == b[i];
  }

  lemma {:induction false} ValidConcat(a: Bytes, b: Bytes)
    requires ValidUtf8(a) && ValidUtf8(b)
    ensures ValidUtf8(a + b)
    decreases |a|
  {
    hide CharLength, CodePoint;
    if a == [] {
      assert a + b == b;
    } else {
      var n := CharLength(a);
      CharIsLocal(a, a[n..] + b);
      assert a + b == a[..n] + (a[n..] + b);
      assert (a + b)[n..] == a[n..] + b;
      ValidConcat(a[n..], b);
    }
  }

  /* ---- UTF-16 order ---- */

  /** The 16-bit code units of one code point. */
  function Units(cp: int): seq<int> {
    if cp >= 0x10000 then [(0xD800 + (cp - 0x10000) / 1024) % 0x10000, 0xDC00 + (cp - 0x10000) % 1024] else [cp]
  }

  /** The UTF-16 code units of a code point: itself, or a high and a low surrogate. */
  ghost predicate AreUnits(units: seq<int>, cp: nat) {
    if cp < 0x10000 then units == [cp]
    else
      && |units| == 2 && 0xD800 <= units[0] <= 0xDBFF && 0xDC00 <= units[1] <= 0xDFFF
      && cp == 0x10000 + (units[0] - 0xD800) * 0x400 + (units[1] - 0xDC00)
  }

  lemma UnitsAreUtf16(cp: nat)
    requires IsScalar(cp)
    ensures AreUnits(Units(cp), cp)
  {
  }

  /** The length a lead byte announces, or 0 for a byte that cannot lead. */
  function LeadLength(c: byte): (n: nat)
    ensures n <= 4
  {
    if c < 0x80 then 1 else if 0xC0 <= c <= 0xDF then 2 else if 0xE0 <= c <= 0xEF then 3
    else if 0xF0 <= c <= 0xF7 then 4 else 0
  }

  /** toUtf16: any lead byte is taken at its word, and anything else is one unit. */
  function ToUtf16(s: Bytes): seq<int>
    decreases |s|
  {
    if s == [] then []
    else
      var len := LeadLength(s[0]);
      if len == 0 || len > |s| then [s[0]] + ToUtf16(s[1..])
      else Units(CodePointOf(len, s)) + ToUtf16(s[len..])
  }

  predicate LessUtf16(a: Bytes, b: Bytes) {
    SeqLess(ToUtf16(a), ToUtf16(b))
  }

  lemma ToUtf16Step(s: Bytes)
    requires CharLength(s) > 0
    ensures ToUtf16(s) == Units(CodePoint(s)) + ToUtf16(s[CharLength(s)..])
  {
  }

  /** A text that is encoded code point by code point has the units of each, in order. */
  lemma ToUtf16Is(cp: nat, rest: Bytes)
    requires IsScalar(cp)
    ensures ToUtf16([]) == []
    ensures ToUtf16(Encode(cp) + rest) == Units(cp) + ToUtf16(rest)
  {
    EncodeIsRead(cp, rest);
    ToUtf16Step(Encode(cp) + rest);
    assert (Encode(cp) + rest)[|Encode(cp)|..] == rest;
  }

  /** Names are compared unit by unit: at the first that differs the smaller comes first, and a proper prefix comes
      first. */
  lemma LessUtf16Iff(a: Bytes, b: Bytes)
    ensures LessUtf16(a, b) <==> exists k: nat :: FirstDiffers(ToUtf16(a), ToUtf16(b), k)
  {
    SeqLessIff(ToUtf16(a), ToUtf16(b));
    hide ToUtf16, SeqLess;
    assert LessUtf16(a, b) == SeqLess(ToUtf16(a), ToUtf16(b));
  }

  /** Code points can be told apart by their units, whatever follows. */
  lemma UnitsArePrefixFree(x: nat, y: nat, u: seq<int>, v: seq<int>)
    requires IsScalar(x) && IsScalar(y) && Units(x) + u == Units(y) + v
    ensures x == y && u == v
  {
    var p, q := Units(x) + u, Units(y) + v;
    assert p[0] == Units(x)[0] && q[0] == Units(y)[0];
    if x >= 0x10000 && y >= 0x10000 {
      assert p[1] == Units(x)[1] && q[1] == Units(y)[1];
    }
    assert u == p[|Units(x)|..] && v == q[|Units(y)|..];
  }

  lemma Rejoined(a: Bytes, b: Bytes, n: nat)
    requires n <= |a| && n <= |b| && a[..n] == b[..n] && a[n..] == b[n..]
    ensures a == b
  {
    assert a == a[..n] + a[n..] && b == b[..n] + b[n..];
  }

  /** Distinct valid names are never tied in the UTF-16 order. */
  lemma {:induction false} ToUtf16IsInjective(a: Bytes, b: Bytes)
    requires ValidUtf8(a) && ValidUtf8(b) && ToUtf16(a) == ToUtf16(b)
    ensures a == b
    decreases |a|
  {
    if a != [] && b != [] {
      SameHead(a, b);
      var n := CharLength(a);
      ToUtf16IsInjective(a[n..], b[n..]);
      Rejoined(a, b, n);
    } else if a != [] {
      ToUtf16Step(a);
    } else if b != [] {
      ToUtf16Step(b);
    }
  }

  lemma SameHead(a: Bytes, b: Bytes)
    requires CharLength(a) > 0 && CharLength(b) > 0 && ToUtf16(a) == ToUtf16(b)
    ensures CharLength(a) == CharLength(b) && a[..CharLength(a)] == b[..CharLength(b)]
    ensures ToUtf16(a[CharLength(a)..]) == ToUtf16(b[CharLength(b)..])
  {
    ToUtf16Step(a);
    ToUtf16Step(b);
    UnitsArePrefixFree(CodePoint(a), CodePoint(b), ToUtf16(a[CharLength(a)..]), ToUtf16(b[CharLength(b)..]));
    CodePointIsInjective(a, b);
  }

  /** On valid names the order is total, and strict. */
  lemma LessUtf16IsTotal(a: Bytes, b: Bytes)
    requires ValidUtf8(a) && ValidUtf8(b)
    ensures a == b || LessUtf16(a, b) || LessUtf16(b, a)
    ensures LessUtf16(a, b) ==> a != b && !LessUtf16(b, a)
  {
    SeqLessTotal(ToUtf16(a), ToUtf16(b));
    if ToUtf16(a) == ToUtf16(b) {
      ToUtf16IsInjective(a, b);
    }
    if LessUtf16(a, b) {
      SeqLessAsymmetric(ToUtf16(a), ToUtf16(b));
    }
  }

  /** Where byte order and UTF-16 order part: a character beyond U+FFFF against one from U+E000 on. */
  lemma ByteOrderDiffers()
    ensures var supplementary, private: Bytes := [0xF0, 0x90, 0x80, 0x80], [0xEE, 0x80, 0x80];
            ValidUtf8(supplementary) && ValidUtf8(private) &&
            LessUtf16(supplementary, private) && SeqLess(private, supplementary)
  {
  }
}
