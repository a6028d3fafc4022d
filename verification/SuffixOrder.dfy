/** Lexicographic order of the suffixes of a text, and how the skew algorithm's sample of triples reflects it. */
module SuffixOrder {
  import opened Perm

  /** Strict lexicographic order; a proper prefix comes first. */
  ghost predicate LexLess(a: seq<int>, b: seq<int>) {
    b != [] && (a == [] || a[0] < b[0] || (a[0] == b[0] && LexLess(a[1..], b[1..])))
  }

  /** What it means for sa to be the suffix array of x. */
  ghost predicate IsSuffixArray(x: seq<int>, sa: seq<int>) {
    && |sa| == |x| && Within(sa, |x|) && Covers(sa, |x|)
    && forall i, j | 0 <= i < j < |sa| :: LexLess(x[sa[i]..], x[sa[j]..])
  }

  /** n symbols in 1..K followed by (at least) three zeros. */
  ghost predicate Text(t: seq<int>, n: nat, K: int) {
    && |t| >= n + 3 && t[n] == t[n + 1] == t[n + 2] == 0
    && forall i | 0 <= i < n :: 1 <= t[i] <= K
  }

  /** The same order on positions of a padded text; positions from n on name the empty suffix. */
  ghost predicate Less(t: seq<int>, n: nat, i: nat, j: nat)
    requires n <= |t|
    decreases n - i
  {
    j < n && (n <= i || t[i] < t[j] || (t[i] == t[j] && Less(t, n, i + 1, j + 1)))
  }

  lemma {:induction false} LessIsLexLess(t: seq<int>, n: nat, i: nat, j: nat)
    requires n <= |t| && i <= n && j <= n
    ensures Less(t, n, i, j) <==> LexLess(t[i..n], t[j..n])
    decreases n - i
  {
    if i < n && j < n {
      LessIsLexLess(t, n, i + 1, j + 1);
      assert t[i..n][1..] == t[i + 1..n] && t[j..n][1..] == t[j + 1..n];
    }
  }

  lemma {:induction false} LessTransitive(t: seq<int>, n: nat, i: nat, j: nat, k: nat)
    requires n <= |t| && Less(t, n, i, j) && Less(t, n, j, k)
    ensures Less(t, n, i, k)
    decreases n - i
  {
    if i < n && t[i] == t[j] == t[k] {
      LessTransitive(t, n, i + 1, j + 1, k + 1);
    }
  }

  lemma {:induction false} LessIrreflexive(t: seq<int>, n: nat, i: nat)
    requires n <= |t|
    ensures !Less(t, n, i, i)
    decreases n - i
  {
    if i < n {
      LessIrreflexive(t, n, i + 1);
    }
  }

  /** A text has at most one suffix array. */
  lemma {:induction false} SuffixArrayUnique(x: seq<int>, sa: seq<int>, sb: seq<int>)
    requires IsSuffixArray(x, sa) && IsSuffixArray(x, sb)
    ensures sa == sb
  {
    forall k: nat | k <= |x|
      ensures sa[..k] == sb[..k]
    {
      PrefixUnique(x, sa, sb, k);
    }
    assert sa[..|x|] == sa && sb[..|x|] == sb;
  }

  lemma {:induction false} PrefixUnique(x: seq<int>, sa: seq<int>, sb: seq<int>, k: nat)
    requires IsSuffixArray(x, sa) && IsSuffixArray(x, sb) && k <= |x|
    ensures sa[..k] == sb[..k]
  {
    if k > 0 {
      PrefixUnique(x, sa, sb, k - 1);
      NotBefore(x, sa, sb, k - 1);
      NotBefore(x, sb, sa, k - 1);
      if sa[k - 1] != sb[k - 1] {
        LexAsymmetric(x[sa[k - 1]..], x[sb[k - 1]..]);
      }
      assert sa[..k] == sa[..k - 1] + [sa[k - 1]] && sb[..k] == sb[..k - 1] + [sb[k - 1]];
    }
  }

  /** With equal prefixes, the k-th member of sb is in sa at k or later. */
  lemma NotBefore(x: seq<int>, sa: seq<int>, sb: seq<int>, k: nat)
    requires IsSuffixArray(x, sa) && IsSuffixArray(x, sb) && k < |x| && sa[..k] == sb[..k]
    ensures sb[k] == sa[k] || LexLess(x[sa[k]..], x[sb[k]..])
  {
    assert sb[k] in sa;
    var m :| 0 <= m < |sa| && sa[m] == sb[k];
    if m < k {
      assert sb[m] == sb[..k][m] == sa[m];
      assert LexLess(x[sb[m]..], x[sb[k]..]);
      LexAsymmetric(x[sb[m]..], x[sb[k]..]);
    }
  }

  lemma {:induction false} LexAsymmetric(a: seq<int>, b: seq<int>)
    requires LexLess(a, b)
    ensures !LexLess(b, a)
  {
    if a != [] && a[0] == b[0] {
      LexAsymmetric(a[1..], b[1..]);
    }
  }

  // ---------------------------------------------------------------- triples

  /** Lexicographic order of the triples at i and j, ssort.cc:7-12. */
  predicate LeqPair(a1: int, a2: int, b1: int, b2: int) {
    a1 < b1 || (a1 == b1 && a2 <= b2)
  }

  predicate LeqTriple(a1: int, a2: int, a3: int, b1: int, b2: int, b3: int) {
    a1 < b1 || (a1 == b1 && LeqPair(a2, a3, b2, b3))
  }

  ghost predicate TripleEq(t: seq<int>, i: nat, j: nat)
    requires i + 2 < |t| && j + 2 < |t|
  {
    t[i] == t[j] && t[i + 1] == t[j + 1] && t[i + 2] == t[j + 2]
  }

  ghost predicate TripleLess(t: seq<int>, i: nat, j: nat)
    requires i + 2 < |t| && j + 2 < |t|
  {
    t[i] < t[j] || (t[i] == t[j] && (t[i + 1] < t[j + 1] || (t[i + 1] == t[j + 1] && t[i + 2] < t[j + 2])))
  }

  /** A smaller triple means a smaller suffix. */
  lemma TripleDecides(t: seq<int>, n: nat, K: int, i: nat, j: nat)
    requires Text(t, n, K) && i <= n && j <= n && TripleLess(t, i, j)
    ensures Less(t, n, i, j)
  {
    assert Less(t, n, i, j) == (j < n && (n <= i || t[i] < t[j] || (t[i] == t[j] && Less(t, n, i + 1, j + 1))));
    assert Less(t, n, i + 1, j + 1)
        == (j + 1 < n && (n <= i + 1 || t[i + 1] < t[j + 1] || (t[i + 1] == t[j + 1] && Less(t, n, i + 2, j + 2))));
  }

  /** Equal triples at different positions hold no zero, and hand the comparison on to i+3 and j+3. */
  lemma TripleTie(t: seq<int>, n: nat, K: int, i: nat, j: nat)
    requires Text(t, n, K) && i <= n && j <= n && i != j && TripleEq(t, i, j)
    ensures i + 3 <= n && j + 3 <= n
    ensures Less(t, n, i, j) <==> Less(t, n, i + 3, j + 3)
  {
    assert Less(t, n, i, j) == (j < n && (n <= i || t[i] < t[j] || (t[i] == t[j] && Less(t, n, i + 1, j + 1))));
    assert Less(t, n, i + 1, j + 1)
        == (j + 1 < n && (n <= i + 1 || t[i + 1] < t[j + 1] || (t[i + 1] == t[j + 1] && Less(t, n, i + 2, j + 2))));
  }

  // ------------------------------------------------- the sample of mod 1 and mod 2 positions

  function N0(n: nat): nat { (n + 2) / 3 }
  function N1(n: nat): nat { (n + 1) / 3 }
  function N2(n: nat): nat { n / 3 }
  function N02(n: nat): nat { N0(n) + N2(n) }

  /** The text position a slot of the reduced string stands for. */
  function Pos(n: nat, q: nat): nat {
    if q < N0(n) then 3 * q + 1 else 3 * (q - N0(n)) + 2
  }

  /** The slot of a mod 1 or mod 2 position, ssort.cc:49-50. */
  function Slot(n: nat, p: nat): nat {
    if p % 3 == 1 then p / 3 else p / 3 + N0(n)
  }

  predicate Sampled(n: nat, p: int) {
    0 <= p <= n && p % 3 != 0 && (p == n ==> n % 3 == 1)
  }

  lemma SlotPos(n: nat, q: nat)
    requires q < N02(n)
    ensures Sampled(n, Pos(n, q)) && Slot(n, Pos(n, q)) == q
  {
  }

  lemma PosSlot(n: nat, p: nat)
    requires Sampled(n, p)
    ensures Slot(n, p) < N02(n) && Pos(n, Slot(n, p)) == p
  {
  }

  /** The reduced string R names the triples of t in an order-preserving way. */
  ghost predicate Names(t: seq<int>, n: nat, R: seq<int>)
    requires |t| >= n + 3
  {
    && |R| >= N02(n)
    && forall q, q' | 0 <= q < N02(n) && 0 <= q' < N02(n) :: NamedAlike(t, n, R, q, q')
  }

  ghost predicate NamedAlike(t: seq<int>, n: nat, R: seq<int>, q: nat, q': nat)
    requires |t| >= n + 3 && q < N02(n) && q' < N02(n) <= |R|
  {
    && (R[q] < R[q'] <==> TripleLess(t, Pos(n, q), Pos(n, q')))
    && (R[q] == R[q'] <==> TripleEq(t, Pos(n, q), Pos(n, q')))
  }

  /** Suffixes of the reduced string compare exactly as the suffixes of the text they stand for. */
  lemma {:induction false} ReducedOrder(t: seq<int>, n: nat, K: int, R: seq<int>, q: nat, q': nat)
    requires Text(t, n, K) && Names(t, n, R) && q != q' && q < N02(n) && q' < N02(n)
    ensures Less(R, N02(n), q, q') <==> Less(t, n, Pos(n, q), Pos(n, q'))
    decreases N02(n) - q
  {
    var i, j := Pos(n, q), Pos(n, q');
    SlotPos(n, q);
    SlotPos(n, q');
    assert NamedAlike(t, n, R, q, q') && NamedAlike(t, n, R, q', q);
    if TripleLess(t, i, j) {
      TripleDecides(t, n, K, i, j);
    } else if TripleLess(t, j, i) {
      TripleDecides(t, n, K, j, i);
      assert !Less(t, n, i, j) by {
        if Less(t, n, i, j) {
          LessTransitive(t, n, i, j, i);
          LessIrreflexive(t, n, i);
        }
      }
      assert !Less(R, N02(n), q, q');
    } else {
      assert TripleEq(t, i, j);
      TripleTie(t, n, K, i, j);
      NextSlot(n, q);
      NextSlot(n, q');
      assert Less(R, N02(n), q, q') == Less(R, N02(n), q + 1, q' + 1);
      if q + 1 < N02(n) && q' + 1 < N02(n) {
        ReducedOrder(t, n, K, R, q + 1, q' + 1);
      }
    }
  }

  /**
   * When three text symbols follow a slot's position, the next slot stands for the position three on, or both ran off
   * the end.
   */
  lemma NextSlot(n: nat, q: nat)
    requires q < N02(n) && Pos(n, q) + 3 <= n
    ensures Pos(n, q + 1) == Pos(n, q) + 3
    ensures q + 1 == N02(n) ==> Pos(n, q) + 3 == n
    ensures q + 1 < N02(n) && Pos(n, q) + 3 == n ==> n % 3 == 1
  {
  }
}
