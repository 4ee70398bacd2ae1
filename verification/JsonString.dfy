/** JSON strings: parseString and appendEscaped of native/src/json.cpp. */
module JsonString {
  import opened Ordering
  import opened Utf8
  import opened JsonBasics

  predicate IsHex(b: byte) {
    IsDigit(b) || 0x61 <= b <= 0x66 || 0x41 <= b <= 0x46
  }

  function HexValue(b: byte): (v: nat)
    requires IsHex(b)
    ensures v < 16
  {
    if IsDigit(b) then b - 0x30 else if b >= 0x61 then b - 0x61 + 10 else b - 0x41 + 10
  }

  function HexDigit(v: nat): (b: byte)
    requires v < 16
    ensures IsHex(b) && HexValue(b) == v
  {
    if v < 10 then 0x30 + v else 0x61 + v - 10
  }

  /** parseHex4. */
  function Hex4(s: Bytes): (r: Parsed<nat>)
    ensures r.Ok? ==> r.used == 4 <= |s| && r.value < 0x10000
  {
    if |s| < 4 || !IsHex(s[0]) || !IsHex(s[1]) || !IsHex(s[2]) || !IsHex(s[3]) then Err
    else Ok(((HexValue(s[0]) * 16 + HexValue(s[1])) * 16 + HexValue(s[2])) * 16 + HexValue(s[3]), 4)
  }

  /** What follows \u: one scalar value, or a surrogate pair written as two escapes. */
  function UnicodeEscape(s: Bytes): (r: Parsed<nat>)
    ensures r.Ok? ==> 0 < r.used <= |s| && IsScalar(r.value)
  {
    match Hex4(s)
    case Err => Err
    case Ok(cp, _) =>
      if 0xD800 <= cp <= 0xDBFF then
        if |s| >= 6 && s[4] == BACKSLASH && s[5] == LOWER_U then
          match Hex4(s[6..])
          case Err => Err
          case Ok(low, _) =>
            if low < 0xDC00 || low > 0xDFFF then Err
            else Ok(0x10000 + (cp - 0xD800) * 1024 + (low - 0xDC00), 10)
        else Err
      else if 0xDC00 <= cp <= 0xDFFF then Err
      else Ok(cp, 4)
  }

  /** The byte a two-byte escape stands for. */
  function SimpleEscape(e: byte): Bytes {
    if e == QUOTE then [QUOTE] else if e == BACKSLASH then [BACKSLASH] else if e == 0x2F then [0x2F]
    else if e == 0x62 then [0x08] else if e == 0x66 then [0x0C] else if e == 0x6E then [0x0A]
    else if e == 0x72 then [0x0D] else if e == 0x74 then [0x09] else []
  }

  /** One character of a string, raw or escaped, and the bytes it denotes. */
  function Element(s: Bytes): (r: Parsed<Bytes>)
    requires s != []
    ensures r.Ok? ==> 0 < r.used <= |s|
  {
    if s[0] == QUOTE || s[0] < 0x20 then Err
    else if s[0] != BACKSLASH then
      var n := CharLength(s);
      if n == 0 then Err else Ok(s[..n], n)
    else if |s| < 2 then Err
    else if s[1] == LOWER_U then
      match UnicodeEscape(s[2..])
      case Err => Err
      case Ok(cp, n) => Ok(Encode(cp), 2 + n)
    else if SimpleEscape(s[1]) == [] then Err
    else Ok(SimpleEscape(s[1]), 2)
  }

  /** The rest of a string behind its opening quote, up to and with the closing one. */
  function StringBody(s: Bytes): (r: Parsed<Bytes>)
    ensures r.Ok? ==> 0 < r.used <= |s| && s[r.used - 1] == QUOTE
    decreases |s|
  {
    if s == [] then Err
    else if s[0] == QUOTE then Ok([], 1)
    else
      match Element(s)
      case Err => Err
      case Ok(piece, n) =>
        match StringBody(s[n..])
        case Err => Err
        case Ok(tail, m) => Ok(piece + tail, n + m)
  }

  function Escape(c: byte): (s: Bytes)
    ensures s != [] && s[0] != QUOTE
  {
    if c == QUOTE then [BACKSLASH, QUOTE] else if c == BACKSLASH then [BACKSLASH, BACKSLASH]
    else if c == 0x08 then [BACKSLASH, 0x62] else if c == 0x0C then [BACKSLASH, 0x66]
    else if c == 0x0A then [BACKSLASH, 0x6E] else if c == 0x0D then [BACKSLASH, 0x72]
    else if c == 0x09 then [BACKSLASH, 0x74]
    else if c < 0x20 then [BACKSLASH, LOWER_U, 0x30, 0x30, HexDigit(c / 16), HexDigit(c % 16)]
    else [c]
  }

  function Escaped(s: Bytes): Bytes {
    if s == [] then [] else Escape(s[0]) + Escaped(s[1..])
  }

  /** appendEscaped. */
  function StringText(s: Bytes): Bytes {
    [QUOTE] + Escaped(s) + [QUOTE]
  }

  /* ---- Accepted strings are valid ---- */

  lemma ElementIsValid(s: Bytes)
    requires s != [] && Element(s).Ok?
    ensures ValidUtf8(Element(s).value)
  {
    if s[0] != BACKSLASH {
      CharIsLocal(s, []);
      assert s[..CharLength(s)] + [] == s[..CharLength(s)];
    } else if s[1] == LOWER_U {
      var cp := UnicodeEscape(s[2..]).value;
      EncodeIsRead(cp, []);
      assert Encode(cp) + [] == Encode(cp);
    }
  }

  lemma {:induction false} BodyIsValid(s: Bytes)
    requires StringBody(s).Ok?
    ensures ValidUtf8(StringBody(s).value)
    decreases |s|
  {
    if s[0] == QUOTE {
    } else {
      var n := Element(s).used;
      ElementIsValid(s);
      BodyIsValid(s[n..]);
      ValidConcat(Element(s).value, StringBody(s[n..]).value);
    }
  }

  /* ---- Written strings are read back ---- */

  lemma EscapeIsRead(c: byte, rest: Bytes)
    requires c < 0x80
    ensures Element(Escape(c) + rest) == Ok([c], |Escape(c)|)
  {
  }

  /** Bytes beyond ASCII are written as they are. */
  lemma {:induction false} EscapedTail(s: Bytes, n: nat)
    requires n <= |s| && forall i :: 0 <= i < n ==> s[i] >= 0x80
    ensures Escaped(s) == s[..n] + Escaped(s[n..])
    decreases n
  {
    if n > 0 {
      var t := s[1..];
      EscapedTail(t, n - 1);
      assert t[n - 1..] == s[n..];
      assert Escape(s[0]) == [s[0]];
      assert Escaped(s) == [s[0]] + (t[..n - 1] + Escaped(s[n..]));
      Assoc([s[0]], t[..n - 1], Escaped(s[n..]));
      assert s[..n] == [s[0]] + t[..n - 1];
    } else {
      assert s[..0] == [] && s[0..] == s;
    }
  }

  /** The first character of a valid string is written so that it reads back as itself. */
  lemma FirstCharIsRead(t: Bytes, rest: Bytes)
    requires CharLength(t) > 0
    ensures var n, s := CharLength(t), Escaped(t) + rest;
            && |Escaped(t[n..])| < |Escaped(t)| && s != [] && s[0] != QUOTE
            && var k := |Escaped(t)| - |Escaped(t[n..])|;
               Element(s) == Ok(t[..n], k) && s[k..] == Escaped(t[n..]) + rest
  {
    var n := CharLength(t);
    var after := Escaped(t[n..]) + rest;
    if n == 1 {
      hide CharLength, Escape, Element;
      EscapeIsRead(t[0], after);
      Assoc(Escape(t[0]), Escaped(t[1..]), rest);
      DropFront(Escape(t[0]), after);
      assert t[..1] == [t[0]];
    } else {
      EscapedTail(t, n);
      hide CharLength, Element;
      WideCharIsRead(t, after);
      Assoc(t[..n], Escaped(t[n..]), rest);
      DropFront(t[..n], after);
    }
  }

  lemma WideCharIsRead(t: Bytes, after: Bytes)
    requires CharLength(t) > 1
    ensures Element(t[..CharLength(t)] + after) == Ok(t[..CharLength(t)], CharLength(t))
    ensures (t[..CharLength(t)] + after)[0] != QUOTE
  {
  }

  lemma {:induction false} BodyIsRead(t: Bytes, rest: Bytes)
    requires ValidUtf8(t)
    ensures StringBody(Escaped(t) + [QUOTE] + rest) == Ok(t, |Escaped(t)| + 1)
    decreases |t|
  {
    hide Element, Escape, CharLength;
    var after := [QUOTE] + rest;
    Assoc(Escaped(t), [QUOTE], rest);
    if t == [] {
      assert Escaped(t) + after == after;
    } else {
      hide StringBody;
      var n := CharLength(t);
      FirstCharIsRead(t, after);
      Assoc(Escaped(t[n..]), [QUOTE], rest);
      BodyIsRead(t[n..], rest);
      BodyStep(Escaped(t) + after, t[..n], |Escaped(t)| - |Escaped(t[n..])|, t[n..], |Escaped(t[n..])| + 1);
      assert t == t[..n] + t[n..];
    }
  }

  lemma BodyStep(s: Bytes, piece: Bytes, k: nat, tail: Bytes, m: nat)
    requires s != [] && s[0] != QUOTE && Element(s) == Ok(piece, k) && StringBody(s[k..]) == Ok(tail, m)
    ensures StringBody(s) == Ok(piece + tail, k + m)
  {
    hide Element;
  }

  /* ---- Reading a string looks at its own bytes only ---- */

  lemma Hex4IsLocal(s: Bytes, t: Bytes)
    requires Hex4(s).Ok? && Agree(s, t, 4)
    ensures Hex4(t) == Hex4(s)
  {
    assert forall i :: 0 <= i < 4 ==> s[..4][i] == s[i] && t[..4][i] == t[i];
  }

  lemma UnicodeEscapeIsLocal(s: Bytes, t: Bytes, n: nat)
    requires UnicodeEscape(s).Ok? && UnicodeEscape(s).used == n && Agree(s, t, n)
    ensures UnicodeEscape(t) == UnicodeEscape(s)
  {
    AgreeLess(s, t, n, 4);
    Hex4IsLocal(s, t);
    if n == 10 {
      AgreeAt(s, t, n, 4);
      AgreeAt(s, t, n, 5);
      AgreeDrop(s, t, n, 6, 4);
      Hex4IsLocal(s[6..], t[6..]);
    }
  }

  lemma CharLengthIsLocal(s: Bytes, t: Bytes, n: nat)
    requires CharLength(s) == n > 0 && Agree(s, t, n)
    ensures CharLength(t) == n
  {
    CharIsLocal(s, t[n..]);
    assert t == s[..n] + t[n..];
  }

  lemma ElementIsLocal(s: Bytes, t: Bytes, n: nat)
    requires s != [] && Element(s).Ok? && Element(s).used == n && Agree(s, t, n)
    ensures t != [] && Element(t) == Element(s)
  {
    AgreeAt(s, t, n, 0);
    if s[0] != BACKSLASH {
      CharLengthIsLocal(s, t, n);
    } else {
      AgreeAt(s, t, n, 1);
      if s[1] == LOWER_U {
        AgreeDrop(s, t, n, 2, n - 2);
        UnicodeEscapeIsLocal(s[2..], t[2..], n - 2);
      }
    }
  }

  lemma {:induction false} BodyIsLocal(s: Bytes, t: Bytes, n: nat)
    requires StringBody(s).Ok? && StringBody(s).used == n && Agree(s, t, n)
    ensures StringBody(t) == StringBody(s)
    decreases |s|
  {
    hide Element;
    AgreeAt(s, t, n, 0);
    if s[0] == QUOTE {
    } else {
      var k := Element(s).used;
      AgreeLess(s, t, n, k);
      ElementIsLocal(s, t, k);
      AgreeDrop(s, t, n, k, n - k);
      BodyIsLocal(s[k..], t[k..], n - k);
    }
  }

  /* ---- Writing is one to one on all byte strings, valid or not ---- */

  lemma EscapeIsPrefixFree(x: byte, y: byte, u: Bytes, v: Bytes)
    requires Escape(x) + u == Escape(y) + v
    ensures x == y && u == v
  {
    var s, t := Escape(x) + u, Escape(y) + v;
    assert s[0] == Escape(x)[0] && t[0] == Escape(y)[0];
    if Escape(x)[0] == BACKSLASH {
      assert s[1] == Escape(x)[1] && t[1] == Escape(y)[1];
      if Escape(x)[1] == LOWER_U {
        assert s[4] == Escape(x)[4] && t[4] == Escape(y)[4];
        assert s[5] == Escape(x)[5] && t[5] == Escape(y)[5];
        assert x == HexValue(s[4]) * 16 + HexValue(s[5]) && y == HexValue(t[4]) * 16 + HexValue(t[5]);
      }
    }
    DropFront(Escape(x), u);
    DropFront(Escape(y), v);
  }

  lemma BodyStart(a: Bytes, p: Bytes)
    requires StartsWith(p, QUOTE)
    ensures StartsWith(Escaped(a) + p, QUOTE) <==> a == []
  {
  }

  lemma {:induction false} EscapedIsInjective(a: Bytes, b: Bytes, u: Bytes, v: Bytes)
    requires Escaped(a) + [QUOTE] + u == Escaped(b) + [QUOTE] + v
    ensures a == b && u == v
    decreases |a|
  {
    Assoc(Escaped(a), [QUOTE], u);
    Assoc(Escaped(b), [QUOTE], v);
    var p, q := [QUOTE] + u, [QUOTE] + v;
    assert Escaped(a) + p == Escaped(b) + q;
    if a != [] && b != [] {
      Assoc(Escape(a[0]), Escaped(a[1..]), p);
      Assoc(Escape(b[0]), Escaped(b[1..]), q);
      EscapeIsPrefixFree(a[0], b[0], Escaped(a[1..]) + p, Escaped(b[1..]) + q);
      Assoc(Escaped(a[1..]), [QUOTE], u);
      Assoc(Escaped(b[1..]), [QUOTE], v);
      EscapedIsInjective(a[1..], b[1..], u, v);
      assert a == [a[0]] + a[1..] && b == [b[0]] + b[1..];
    } else {
      BodyStart(a, p);
      BodyStart(b, q);
      assert Escaped(a) + p == p && Escaped(b) + q == q;
      DropFront([QUOTE], u);
      DropFront([QUOTE], v);
    }
  }
}
