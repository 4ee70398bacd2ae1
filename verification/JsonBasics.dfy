/** What the JSON parser, printer and scanner share: bytes, results and white space. */
module JsonBasics {
  import opened Ordering

  const QUOTE: byte := 0x22
  const BACKSLASH: byte := 0x5C
  const COMMA: byte := 0x2C
  const COLON: byte := 0x3A
  const OPEN_ARRAY: byte := 0x5B
  const CLOSE_ARRAY: byte := 0x5D
  const OPEN_OBJECT: byte := 0x7B
  const CLOSE_OBJECT: byte := 0x7D
  const ZERO: byte := 0x30
  const MINUS: byte := 0x2D
  const PLUS: byte := 0x2B
  const POINT: byte := 0x2E
  const LOWER_E: byte := 0x65
  const UPPER_E: byte := 0x45
  const LOWER_U: byte := 0x75

  /** What a reader found at the front of the text, and how many bytes it took. */
  datatype Parsed<+T> = Ok(value: T, used: nat) | Err

  predicate StartsWith(s: Bytes, b: byte) {
    s != [] && s[0] == b
  }

  predicate IsDigit(b: byte) {
    0x30 <= b <= 0x39
  }

  predicate IsSpace(b: byte) {
    b == 0x20 || b == 0x09 || b == 0x0A || b == 0x0D
  }

  /** Leading white space. */
  function Spaces(s: Bytes): (n: nat)
    ensures n <= |s|
    ensures n < |s| ==> !IsSpace(s[n])
    ensures forall i :: 0 <= i < n ==> IsSpace(s[i])
  {
    if s != [] && IsSpace(s[0]) then 1 + Spaces(s[1..]) else 0
  }

  /** Leading decimal digits. */
  function LeadingDigits(s: Bytes): (n: nat)
    ensures n <= |s|
    ensures n < |s| ==> !IsDigit(s[n])
    ensures forall i :: 0 <= i < n ==> IsDigit(s[i])
  {
    if s != [] && IsDigit(s[0]) then 1 + LeadingDigits(s[1..]) else 0
  }

  /** The two texts start with the same n bytes. */
  predicate Agree(s: Bytes, t: Bytes, n: nat) {
    n <= |s| && n <= |t| && s[..n] == t[..n]
  }

  lemma AgreeAt(s: Bytes, t: Bytes, n: nat, i: nat)
    requires Agree(s, t, n) && i < n
    ensures s[i] == t[i]
  {
    assert s[..n][i] == t[..n][i];
  }

  lemma AgreeLess(s: Bytes, t: Bytes, n: nat, k: nat)
    requires Agree(s, t, n) && k <= n
    ensures Agree(s, t, k)
  {
    assert s[..k] == s[..n][..k] && t[..k] == t[..n][..k];
  }

  lemma AgreeDrop(s: Bytes, t: Bytes, n: nat, k: nat, m: nat)
    requires Agree(s, t, n) && k + m <= n
    ensures Agree(s[k..], t[k..], m)
  {
    assert s[k..][..m] == s[..n][k..k + m];
    assert t[k..][..m] == t[..n][k..k + m];
  }

  lemma Assoc(a: Bytes, b: Bytes, c: Bytes)
    ensures a + (b + c) == a + b + c
  {
  }

  lemma Assoc4(a: Bytes, b: Bytes, c: Bytes, d: Bytes)
    ensures a + (b + c + d) == a + b + c + d
  {
  }

  lemma DropFront(a: Bytes, b: Bytes)
    ensures (a + b)[|a|..] == b && (a + b)[..|a|] == a
  {
  }

  /** A count of leading bytes is the only one that ends where it does. */
  lemma SpacesAre(s: Bytes, n: nat)
    requires n <= |s| && (n < |s| ==> !IsSpace(s[n]))
    requires forall i :: 0 <= i < n ==> IsSpace(s[i])
    ensures Spaces(s) == n
  {
  }

  lemma LeadingDigitsAre(s: Bytes, n: nat)
    requires n <= |s| && (n < |s| ==> !IsDigit(s[n]))
    requires forall i :: 0 <= i < n ==> IsDigit(s[i])
    ensures LeadingDigits(s) == n
  {
  }

  /** White space is read the same in a text that agrees past its end. */
  lemma SpacesAgree(s: Bytes, t: Bytes, n: nat)
    requires Agree(s, t, n) && Spaces(s) < n
    ensures Spaces(t) == Spaces(s)
  {
  }
}
