/** Streaming SHA-256 (native/src/sha256.cpp): however a message is split over the calls, the digest is the fold of the
    compression function over the message padded as section 5.1.1 of FIPS 180-4 says. The compression function itself
    is a parameter. */
module Sha256 {
  import opened Ordering

  const BLOCK := 64
  const LENGTH_AT := 56
  const TWO_TO_THE_64 := 0x1_0000_0000_0000_0000

  type Word = w: int | 0 <= w < 0x1_0000_0000

  type State = s: seq<Word> | |s| == 8 witness [0, 0, 0, 0, 0, 0, 0, 0]

  type Compression = (State, Bytes) -> State

  const INITIAL: State := [0x6a09e667, 0xbb67ae85, 0x3c6ef372, 0xa54ff53a,
                           0x510e527f, 0x9b05688c, 0x1f83d9ab, 0x5be0cd19]

  /* ---- What SHA-256 of a whole message is ---- */

  /** Section 6.2: the state after the blocks of a text, the incomplete last one left out. */
  function Fold(compress: Compression, state: State, text: Bytes): State
    decreases |text|
  {
    if |text| < BLOCK then state else Fold(compress, compress(state, text[..BLOCK]), text[BLOCK..])
  }

  function ZeroBytes(n: nat): Bytes {
    seq(n, _ => 0)
  }

  /** n in count bytes, most significant first; higher bits are lost. */
  function BigEndian(n: nat, count: nat): (s: Bytes)
    ensures |s| == count
  {
    if count == 0 then [] else BigEndian(n / 256, count - 1) + [n % 256]
  }

  /** How many zero bytes stand between the one bit and the length. */
  function ZeroCount(length: nat): nat {
    (119 - length % BLOCK) % BLOCK
  }

  /** Section 5.1.1, for a message of whole bytes. */
  function Padded(message: Bytes): Bytes {
    message + [0x80] + ZeroBytes(ZeroCount(|message|)) + BigEndian(8 * |message|, 8)
  }

  function DigestOf(words: State): Bytes {
    WordBytes(words, 8)
  }

  function WordBytes(words: State, count: nat): (s: Bytes)
    requires count <= 8
    ensures |s| == 4 * count
  {
    if count == 0 then [] else WordBytes(words, count - 1) + BigEndian(words[count - 1], 4)
  }

  function Sha(compress: Compression, message: Bytes): Bytes {
    DigestOf(Fold(compress, INITIAL, Padded(message)))
  }

  /* ---- The padding is the standard's, ends on a block, and loses nothing ---- */

  /** The bit count k of section 5.1.1: the least non-negative one with l + 1 + k congruent to 448 modulo 512. */
  lemma ZeroBitsAreLeast(length: nat, k: nat)
    ensures var zeroBits := 7 + 8 * ZeroCount(length);
            && (8 * length + 1 + zeroBits) % 512 == 448
            && ((8 * length + 1 + k) % 512 == 448 ==> zeroBits <= k)
  {
    var q, r := length / BLOCK, length % BLOCK;
    assert length == BLOCK * q + r;
    var zeroBits := 7 + 8 * ZeroCount(length);
    var j := if r <= 55 then 0 else 1;
    assert 8 * length + 1 + zeroBits == 512 * (q + j) + 448;
    if (8 * length + 1 + k) % 512 == 448 {
      var p := (8 * length + 1 + k) / 512;
      assert 8 * length + 1 + k == 512 * p + 448;
      assert p >= q + j;
    }
  }

  lemma PaddedIsWhole(message: Bytes)
    ensures |Padded(message)| % BLOCK == 0
    ensures message <= Padded(message)
  {
    hide ZeroCount, BigEndian;
    WholeBlocks(|message|);
  }

  lemma WholeBlocks(length: nat)
    ensures (length + 1 + ZeroCount(length) + 8) % BLOCK == 0
  {
    var q, r := length / BLOCK, length % BLOCK;
    assert ZeroCount(length) == if r <= 55 then 55 - r else 119 - r;
    assert length + 1 + ZeroCount(length) + 8 == BLOCK * (q + if r <= 55 then 1 else 2);
  }

  lemma {:induction false} BigEndianIsInjective(a: nat, b: nat, count: nat)
    requires a < Power256(count) && b < Power256(count)
    requires BigEndian(a, count) == BigEndian(b, count)
    ensures a == b
  {
    if count == 0 {
    } else {
      var s, t := BigEndian(a / 256, count - 1), BigEndian(b / 256, count - 1);
      assert (s + [a % 256])[..count - 1] == s && (t + [b % 256])[..count - 1] == t;
      assert (s + [a % 256])[count - 1] == a % 256 && (t + [b % 256])[count - 1] == b % 256;
      BigEndianIsInjective(a / 256, b / 256, count - 1);
    }
  }

  function Power256(n: nat): nat {
    if n == 0 then 1 else 256 * Power256(n - 1)
  }

  /** No two messages under 2^61 bytes are padded alike: the length that stands at the end tells them apart. */
  lemma PaddingIsInjective(a: Bytes, b: Bytes)
    requires 8 * |a| < TWO_TO_THE_64 && 8 * |b| < TWO_TO_THE_64
    requires Padded(a) == Padded(b)
    ensures a == b
  {
    var m, n := |Padded(a)| - 8, |Padded(b)| - 8;
    assert Padded(a)[m..] == BigEndian(8 * |a|, 8) && Padded(b)[n..] == BigEndian(8 * |b|, 8);
    Power8();
    BigEndianIsInjective(8 * |a|, 8 * |b|, 8);
    assert Padded(a)[..|a|] == a && Padded(b)[..|a|] == b;
  }

  /* ---- Folding in pieces ---- */

  /** The part of a text that does not fill a block yet. */
  function Tail(text: Bytes): Bytes {
    text[|text| - |text| % BLOCK..]
  }

  /** Only the unfinished block of what came before matters to what comes after. */
  lemma {:induction false} FoldResumes(compress: Compression, state: State, before: Bytes, after: Bytes)
    ensures Fold(compress, state, before + after) == Fold(compress, Fold(compress, state, before), Tail(before) + after)
    ensures Tail(before + after) == Tail(Tail(before) + after)
    decreases |before|
  {
    hide Tail;
    if |before| < BLOCK {
      ShortTail(before);
    } else {
      FoldResumes(compress, compress(state, before[..BLOCK]), before[BLOCK..], after);
      FirstBlock(before, after);
      TailSkipsBlock(before);
      TailSkipsBlock(before + after);
    }
  }

  lemma ShortTail(text: Bytes)
    requires |text| < BLOCK
    ensures Tail(text) == text
  {
  }

  lemma FirstBlock(before: Bytes, after: Bytes)
    requires |before| >= BLOCK
    ensures (before + after)[..BLOCK] == before[..BLOCK] && (before + after)[BLOCK..] == before[BLOCK..] + after
  {
  }

  lemma TailSkipsBlock(text: Bytes)
    requires |text| >= BLOCK
    ensures Tail(text[BLOCK..]) == Tail(text)
  {
    assert |text[BLOCK..]| % BLOCK == |text| % BLOCK;
  }

  /** The padding loop stops at the distance the standard gives. */
  lemma FillDistance(length: nat, zeros: nat)
    requires zeros <= ZeroCount(length)
    ensures (length + 1 + zeros) % BLOCK == LENGTH_AT <==> zeros == ZeroCount(length)
  {
    var q, r := length / BLOCK, length % BLOCK;
    assert length + 1 + zeros == BLOCK * q + (r + 1 + zeros);
    Remainder(q, r + 1 + zeros);
  }

  lemma Remainder(q: nat, n: nat)
    ensures (BLOCK * q + n) % BLOCK == n % BLOCK
  {
  }

  lemma FilledTail(m: Bytes, zeros: nat)
    requires zeros <= ZeroCount(|m|)
    ensures |Tail(m + [0x80] + ZeroBytes(zeros))| == LENGTH_AT <==> zeros == ZeroCount(|m|)
  {
    hide ZeroCount;
    FillDistance(|m|, zeros);
  }

  /* ---- The length bytes ---- */

  lemma {:induction false} BigEndianAt(n: nat, count: nat, i: nat)
    requires i < count
    ensures Power256(count - 1 - i) > 0
    ensures BigEndian(n, count)[i] == n / Power256(count - 1 - i) % 256
  {
    PowerPositive(count - 1 - i);
    if i < count - 1 {
      BigEndianAt(n / 256, count - 1, i);
      DivideTwice(n, Power256(count - 2 - i));
    }
  }

  lemma {:induction false} PowerPositive(n: nat)
    ensures Power256(n) > 0
  {
    if n == 0 {
    } else {
      PowerPositive(n - 1);
    }
  }

  lemma DivideTwice(n: nat, b: nat)
    requires b > 0
    ensures n / 256 / b == n / (256 * b)
  {
    var q, r := n / 256 / b, n / 256 % b;
    assert n / 256 == b * q + r;
    assert 256 * (b * q) == (256 * b) * q;
    QuotientIs(n, 256 * b, q, 256 * r + n % 256);
  }

  lemma QuotientIs(n: nat, d: nat, q: nat, r: nat)
    requires d > 0 && n == d * q + r && r < d
    ensures n / d == q
  {
    Multiples(d, n / d, q);
    Multiples(d, q, n / d);
  }

  lemma Multiples(d: nat, x: nat, y: nat)
    ensures x < y ==> d * x + d <= d * y
  {
    if x < y {
      assert d * y == d * (x + 1) + d * (y - x - 1);
    }
  }

  /** Bits above the field do not reach it. */
  lemma {:induction false} BigEndianModulo(n: nat, over: nat, count: nat)
    ensures BigEndian(n + over * Power256(count), count) == BigEndian(n, count)
  {
    if count == 0 {
    } else {
      var p := Power256(count - 1);
      assert n + over * Power256(count) == n + 256 * (over * p);
      assert (n + 256 * (over * p)) / 256 == n / 256 + over * p;
      BigEndianModulo(n / 256, over, count - 1);
    }
  }

  lemma CountAdds(a: nat, b: nat)
    ensures (a % TWO_TO_THE_64 + b) % TWO_TO_THE_64 == (a + b) % TWO_TO_THE_64
  {
  }

  lemma CountedLength(bits: nat, length: nat)
    requires bits == 8 * length % TWO_TO_THE_64
    ensures BigEndian(bits, 8) == BigEndian(8 * length, 8)
  {
    Power8();
    BigEndianModulo(bits, 8 * length / TWO_TO_THE_64, 8);
  }

  lemma Power8()
    ensures Power256(8) == TWO_TO_THE_64
  {
    assert Power256(8) == 256 * (256 * (256 * (256 * (256 * (256 * (256 * (256 * Power256(0))))))));
  }

  lemma FourBytes(w: Word)
    ensures BigEndian(w, 4) == [w / 0x100_0000 % 256, w / 0x1_0000 % 256, w / 0x100 % 256, w % 256]
  {
    var a := w / 256;
    var b := a / 256;
    var c := b / 256;
    assert b == w / 0x1_0000 && c == w / 0x100_0000;
    assert BigEndian(c, 1) == BigEndian(c / 256, 0) + [c % 256];
    assert BigEndian(b, 2) == BigEndian(c, 1) + [b % 256];
    assert BigEndian(a, 3) == BigEndian(b, 2) + [a % 256];
  }

  /* ---- The same in plain numbers ---- */

  /** A word is the fractional part of the square root of p, cut off after 32 bits. */
  predicate IsSquareRoot(word: Word, p: nat, whole: nat) {
    var root := whole * 0x1_0000_0000 + word;
    root * root <= p * TWO_TO_THE_64 < (root + 1) * (root + 1)
  }

  /** Section 5.3.3: the square roots of the first eight primes. */
  lemma InitialWordsAreSquareRoots()
    ensures IsSquareRoot(INITIAL[0], 2, 1) && IsSquareRoot(INITIAL[1], 3, 1)
    ensures IsSquareRoot(INITIAL[2], 5, 2) && IsSquareRoot(INITIAL[3], 7, 2)
    ensures IsSquareRoot(INITIAL[4], 11, 3) && IsSquareRoot(INITIAL[5], 13, 3)
    ensures IsSquareRoot(INITIAL[6], 17, 4) && IsSquareRoot(INITIAL[7], 19, 4)
  {
  }

  /** The number some bytes stand for, most significant first. */
  function NumberOf(s: Bytes): nat {
    if s == [] then 0 else 256 * NumberOf(s[..|s| - 1]) + s[|s| - 1]
  }

  lemma {:induction false} BigEndianIs(n: nat, count: nat)
    requires n < Power256(count)
    ensures NumberOf(BigEndian(n, count)) == n
  {
    if count == 0 {
    } else {
      var s := BigEndian(n / 256, count - 1);
      BigEndianIs(n / 256, count - 1);
      assert (s + [n % 256])[..count - 1] == s;
    }
  }

  /** Section 5.1.1: the message, a one bit, zeros, and the length in bits in the last eight bytes. */
  lemma PaddingMeans(message: Bytes, i: nat)
    requires 8 * |message| < TWO_TO_THE_64
    ensures var s := Padded(message); var end := |s| - 8;
            && |message| + 9 <= |s| <= |message| + 8 + BLOCK && |s| % BLOCK == 0
            && s[..|message|] == message && s[|message|] == 0x80
            && (|message| < i < end ==> s[i] == 0)
            && NumberOf(s[end..]) == 8 * |message|
  {
    hide BigEndian, NumberOf;
    PaddedIsWhole(message);
    Power8();
    BigEndianIs(8 * |message|, 8);
    var s := Padded(message);
    assert s[|s| - 8..] == BigEndian(8 * |message|, 8);
  }

  /** Each four bytes of a digest are one word of the state. */
  lemma {:induction false} DigestMeans(words: State, count: nat, i: nat)
    requires i < count <= 8
    ensures NumberOf(WordBytes(words, count)[4 * i..4 * i + 4]) == words[i]
    decreases count
  {
    hide NumberOf, BigEndian;
    var rest, last := WordBytes(words, count - 1), BigEndian(words[count - 1], 4);
    if i == count - 1 {
      Power4();
      BigEndianIs(words[i], 4);
      assert (rest + last)[4 * i..4 * i + 4] == last;
    } else {
      DigestMeans(words, count - 1, i);
      assert (rest + last)[4 * i..4 * i + 4] == rest[4 * i..4 * i + 4];
    }
  }

  lemma Power4()
    ensures Power256(4) == 0x1_0000_0000
  {
    assert Power256(4) == 256 * (256 * (256 * (256 * Power256(0))));
  }

  function Concat(pieces: seq<Bytes>): Bytes {
    if pieces == [] then [] else Concat(pieces[..|pieces| - 1]) + pieces[|pieces| - 1]
  }

  /* ---- The class ---- */

  class Hasher {
    const compress: Compression
    var state: State
    const buffer: array<byte>
    var bufferLength: nat
    var totalBits: nat
    /** Everything taken in since the last reset. */
    ghost var message: Bytes

    ghost predicate Valid()
      reads this, buffer
    {
      && buffer.Length == BLOCK
      && bufferLength < BLOCK
      && state == Fold(compress, INITIAL, message)
      && buffer[..bufferLength] == Tail(message)
    }

    /** The length counted in a 64-bit number. */
    ghost predicate Counted()
      reads this
    {
      totalBits == 8 * |message| % TWO_TO_THE_64
    }

    constructor (compress: Compression)
      ensures Valid() && Counted() && message == [] && fresh(buffer) && this.compress == compress
    {
      this.compress := compress;
      buffer := new byte[BLOCK](_ => 0);
      state, bufferLength, totalBits, message := INITIAL, 0, 0, [];
    }

    method Reset()
      requires buffer.Length == BLOCK
      modifies this, buffer
      ensures Valid() && Counted() && message == []
    {
      state, bufferLength, totalBits, message := INITIAL, 0, 0, [];
      forall i | 0 <= i < BLOCK {
        buffer[i] := 0;
      }
    }

    method Update(data: Bytes)
      requires Valid()
      modifies this, buffer
      ensures Valid()
      ensures message == old(message) + data
      ensures totalBits == (old(totalBits) + 8 * |data|) % TWO_TO_THE_64
      ensures old(Counted()) ==> Counted()
    {
      hide Fold, Tail;
      totalBits := (totalBits + 8 * |data|) % TWO_TO_THE_64;
      ghost var counted := totalBits;
      var p := 0;
      while p < |data|
        invariant p <= |data|
        invariant Valid() && message == old(message) + data[..p]
        invariant totalBits == counted
      {
        var take := if BLOCK - bufferLength < |data| - p then BLOCK - bufferLength else |data| - p;
        Absorb(data[p..p + take]);
        assert data[..p] + data[p..p + take] == data[..p + take];
        p := p + take;
      }
      assert data[..p] == data;
      if old(Counted()) {
        CountAdds(8 * |old(message)|, 8 * |data|);
      }
    }

    /** One round of the copy loop: a piece that fits the buffer. */
    method Absorb(piece: Bytes)
      requires Valid() && bufferLength + |piece| <= BLOCK
      modifies this`state, this`bufferLength, this`message, buffer
      ensures Valid() && message == old(message) + piece
    {
      ghost var pending := buffer[..bufferLength];
      FoldResumes(compress, INITIAL, message, piece);
      forall i | 0 <= i < |piece| {
        buffer[bufferLength + i] := piece[i];
      }
      bufferLength := bufferLength + |piece|;
      message := message + piece;
      assert buffer[..bufferLength] == pending + piece;
      if bufferLength == BLOCK {
        assert (pending + piece)[..BLOCK] == buffer[..] && (pending + piece)[BLOCK..] == [];
        state := compress(state, buffer[..]);
        bufferLength := 0;
      }
    }

    method Finish() returns (out: Bytes)
      requires Valid() && Counted()
      modifies this, buffer
      ensures out == Sha(compress, old(message))
    {
      var bits := totalBits;
      ghost var m := message;
      Update([0x80]);
      PadWithZeros(m);
      var lengthBytes := LengthBytes(bits);
      CountedLength(bits, |m|);
      var saved := totalBits;
      Update(lengthBytes);
      totalBits := saved;
      assert message == Padded(m);
      out := WriteWords();
    }

    method PadWithZeros(ghost m: Bytes)
      requires Valid() && message == m + [0x80]
      modifies this, buffer
      ensures Valid() && message == m + [0x80] + ZeroBytes(ZeroCount(|m|))
    {
      hide Fold, ZeroCount, Tail;
      ghost var zeros := 0;
      assert message == m + [0x80] + ZeroBytes(0);
      FilledTail(m, zeros);
      assert bufferLength == |buffer[..bufferLength]|;
      while bufferLength != LENGTH_AT
        invariant Valid() && message == m + [0x80] + ZeroBytes(zeros)
        invariant zeros <= ZeroCount(|m|)
        invariant bufferLength == LENGTH_AT <==> zeros == ZeroCount(|m|)
        decreases ZeroCount(|m|) - zeros
      {
        Update([0]);
        zeros := zeros + 1;
        assert ZeroBytes(zeros) == ZeroBytes(zeros - 1) + [0];
        FilledTail(m, zeros);
        assert bufferLength == |buffer[..bufferLength]|;
      }
    }

    method LengthBytes(bits: nat) returns (bytes: Bytes)
      ensures bytes == BigEndian(bits, 8)
    {
      bytes := [];
      for i := 0 to 8
        invariant bytes == BigEndian(bits, 8)[..i]
      {
        BigEndianAt(bits, 8, i);
        bytes := bytes + [bits / Power256(7 - i) % 256];
      }
    }

    method WriteWords() returns (out: Bytes)
      ensures out == DigestOf(state)
    {
      out := [];
      for i := 0 to 8
        invariant out == WordBytes(state, i)
      {
        var w := state[i];
        FourBytes(w);
        out := out + [w / 0x100_0000 % 256, w / 0x1_0000 % 256, w / 0x100 % 256, w % 256];
      }
    }
  }

  /** A message handed over in pieces: the digest does not depend on where it was cut. */
  method HashPieces(compress: Compression, pieces: seq<Bytes>) returns (digest: Bytes)
    ensures digest == Sha(compress, Concat(pieces))
  {
    hide Fold, Tail, Padded, DigestOf;
    var hasher := new Hasher(compress);
    for i := 0 to |pieces|
      invariant fresh(hasher) && fresh(hasher.buffer) && hasher.compress == compress
      invariant hasher.Valid() && hasher.Counted() && hasher.message == Concat(pieces[..i])
    {
      assert pieces[..i + 1][..i] == pieces[..i];
      hasher.Update(pieces[i]);
    }
    assert pieces[..|pieces|] == pieces;
    digest := hasher.Finish();
  }
}
