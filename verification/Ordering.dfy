/** Bytes, and the lexicographic order that std::string and std::vector compare with. */
module Ordering {

  type byte = b: int | 0 <= b < 256
  type Bytes = seq<byte>

  /** Strict lexicographic order: a proper prefix comes first. */
  predicate SeqLess(a: seq<int>, b: seq<int>) {
    b != [] && (a == [] || a[0] < b[0] || (a[0] == b[0] && SeqLess(a[1..], b[1..])))
  }

  /** Two sequences agree up to k, where a ends or has the smaller element. */
  predicate FirstDiffers(a: seq<int>, b: seq<int>, k: nat) {
    k <= |a| && k < |b| && a[..k] == b[..k] && (k == |a| || a[k] < b[k])
  }

  /** At the first difference the smaller element comes first, and a proper prefix comes first. */
  lemma {:induction false} SeqLessIff(a: seq<int>, b: seq<int>)
    ensures SeqLess(a, b) <==> exists k: nat :: FirstDiffers(a, b, k)
    decreases |a|
  {
    if a == [] {
      assert b != [] ==> FirstDiffers(a, b, 0);
    } else if b == [] || a[0] != b[0] {
      assert b != [] && a[0] < b[0] ==> FirstDiffers(a, b, 0);
      assert forall k: nat :: FirstDiffers(a, b, k) && k > 0 ==> a[..k][0] == b[..k][0];
    } else {
      SeqLessIff(a[1..], b[1..]);
      if k: nat :| FirstDiffers(a[1..], b[1..], k) {
        assert a[..k + 1] == [a[0]] + a[1..][..k] && b[..k + 1] == [b[0]] + b[1..][..k];
        assert FirstDiffers(a, b, k + 1);
      }
      if k: nat :| FirstDiffers(a, b, k) {
        assert k > 0 && a[1..][..k - 1] == a[..k][1..] && b[1..][..k - 1] == b[..k][1..];
        assert FirstDiffers(a[1..], b[1..], k - 1);
      }
    }
  }

  predicate SeqLeq(a: seq<int>, b: seq<int>) {
    a == b || SeqLess(a, b)
  }

  lemma {:induction false} SeqLessIrreflexive(a: seq<int>)
    ensures !SeqLess(a, a)
  {
    if a == [] {
    } else {
      SeqLessIrreflexive(a[1..]);
    }
  }

  lemma {:induction false} SeqLessTransitive(a: seq<int>, b: seq<int>, c: seq<int>)
    requires SeqLess(a, b) && SeqLess(b, c)
    ensures SeqLess(a, c)
  {
    if a != [] && a[0] == b[0] == c[0] {
      SeqLessTransitive(a[1..], b[1..], c[1..]);
    }
  }

  lemma {:induction false} SeqLessTotal(a: seq<int>, b: seq<int>)
    ensures a == b || SeqLess(a, b) || SeqLess(b, a)
  {
    if a != [] && b != [] && a[0] == b[0] {
      SeqLessTotal(a[1..], b[1..]);
      assert a == [a[0]] + a[1..];
      assert b == [b[0]] + b[1..];
    }
  }

  /** Both directions of the order at once: at most one of the two holds, and never for equals. */
  lemma SeqLessAsymmetric(a: seq<int>, b: seq<int>)
    requires SeqLess(a, b)
    ensures a != b && !SeqLess(b, a)
  {
  }

  lemma SeqLeqAntisymmetric(a: seq<int>, b: seq<int>)
    requires SeqLeq(a, b) && SeqLeq(b, a)
    ensures a == b
  {
    if a != b {
      SeqLessAsymmetric(a, b);
    }
  }

  lemma SeqLeqTransitive(a: seq<int>, b: seq<int>, c: seq<int>)
    requires SeqLeq(a, b) && SeqLeq(b, c)
    ensures SeqLeq(a, c)
  {
    if a != b && b != c {
      SeqLessTransitive(a, b, c);
    }
  }
}
