/** The counting sort of the skew algorithm (ssort.cc, radixPass). */
module RadixPass {

  /** Members of a are indices into key, and their keys lie in 0..K. */
  ghost predicate Keyed(a: seq<int>, key: seq<int>, K: int) {
    forall i | 0 <= i < |a| :: 0 <= a[i] < |key| && 0 <= key[a[i]] <= K
  }

  /** The members of a with key k, in the order a lists them. */
  ghost function Bucket(a: seq<int>, key: seq<int>, K: int, k: int): seq<int>
    requires Keyed(a, key, K)
  {
    if a == [] then []
    else
      var front, last := a[..|a| - 1], a[|a| - 1];
      Bucket(front, key, K, k) + if key[last] == k then [last] else []
  }

  /** The buckets 0 .. k-1, one after the other. */
  ghost function Buckets(a: seq<int>, key: seq<int>, K: int, k: nat): seq<int>
    requires Keyed(a, key, K)
  {
    if k == 0 then [] else Buckets(a, key, K, k - 1) + Bucket(a, key, K, k - 1)
  }

  /** The stable order of a by key. */
  ghost function StableByKey(a: seq<int>, key: seq<int>, K: nat): seq<int>
    requires Keyed(a, key, K)
  {
    Buckets(a, key, K, K + 1)
  }

  ghost predicate Pairwise(s: seq<int>, P: (int, int) -> bool) {
    forall i, j | 0 <= i < j < |s| :: P(s[i], s[j])
  }

  lemma {:induction false} BucketMembers(a: seq<int>, key: seq<int>, K: int, k: int)
    requires Keyed(a, key, K)
    ensures forall i | 0 <= i < |Bucket(a, key, K, k)| ::
              Bucket(a, key, K, k)[i] in a && key[Bucket(a, key, K, k)[i]] == k
  {
    if a != [] {
      BucketMembers(a[..|a| - 1], key, K, k);
    }
  }

  lemma {:induction false} BucketsMembers(a: seq<int>, key: seq<int>, K: int, k: nat)
    requires Keyed(a, key, K)
    ensures forall i | 0 <= i < |Buckets(a, key, K, k)| ::
              Buckets(a, key, K, k)[i] in a && 0 <= key[Buckets(a, key, K, k)[i]] < k
  {
    if k > 0 {
      BucketsMembers(a, key, K, k - 1);
      BucketMembers(a, key, K, k - 1);
    }
  }

  lemma {:induction false} BucketPairwise(a: seq<int>, key: seq<int>, K: int, k: int, P: (int, int) -> bool)
    requires Keyed(a, key, K) && Pairwise(a, P)
    ensures Pairwise(Bucket(a, key, K, k), P)
  {
    if a != [] {
      var front := a[..|a| - 1];
      BucketPairwise(front, key, K, k, P);
      BucketMembers(front, key, K, k);
    }
  }

  /** Q holds of x before y when x's key is smaller, or the keys agree and P already held. */
  ghost predicate KeyThen(a: seq<int>, key: seq<int>, K: int, P: (int, int) -> bool, Q: (int, int) -> bool)
    requires Keyed(a, key, K)
  {
    forall x, y | x in a && y in a && (key[x] < key[y] || (key[x] == key[y] && P(x, y))) :: Q(x, y)
  }

  lemma {:induction false} BucketsPairwise(a: seq<int>, key: seq<int>, K: int, k: nat,
                                           P: (int, int) -> bool, Q: (int, int) -> bool)
    requires Keyed(a, key, K) && Pairwise(a, P) && KeyThen(a, key, K, P, Q)
    ensures Pairwise(Buckets(a, key, K, k), Q)
  {
    if k > 0 {
      BucketsPairwise(a, key, K, k - 1, P, Q);
      BucketsMembers(a, key, K, k - 1);
      BucketMembers(a, key, K, k - 1);
      BucketPairwise(a, key, K, k - 1, P);
      var b, c := Buckets(a, key, K, k - 1), Bucket(a, key, K, k - 1);
      forall i, j | 0 <= i < j < |b + c|
        ensures Q((b + c)[i], (b + c)[j])
      {
        if i < |b| <= j {
          assert key[b[i]] < key[c[j - |b|]];
        } else if |b| <= i {
          assert P(c[i - |b|], c[j - |b|]);
        }
      }
    }
  }

  /** The pass orders by key first and keeps the earlier order P among equal keys. */
  lemma StableOrder(a: seq<int>, key: seq<int>, K: nat, P: (int, int) -> bool, Q: (int, int) -> bool)
    requires Keyed(a, key, K) && Pairwise(a, P) && KeyThen(a, key, K, P, Q)
    ensures Pairwise(StableByKey(a, key, K), Q)
  {
    BucketsPairwise(a, key, K, K + 1, P, Q);
  }

  lemma BucketSnoc(front: seq<int>, last: int, key: seq<int>, K: int, k: int)
    requires Keyed(front + [last], key, K) && Keyed(front, key, K)
    requires 0 <= last < |key|
    ensures 0 <= key[last] <= K
    ensures Bucket(front + [last], key, K, k) == Bucket(front, key, K, k) + if key[last] == k then [last] else []
  {
    assert (front + [last])[..|front|] == front && (front + [last])[|front|] == last;
  }

  lemma {:induction false} BucketsSnoc(front: seq<int>, last: int, key: seq<int>, K: int, k: nat)
    requires Keyed(front + [last], key, K) && Keyed(front, key, K)
    requires 0 <= last < |key|
    ensures multiset(Buckets(front + [last], key, K, k))
         == multiset(Buckets(front, key, K, k)) + if key[last] < k then multiset{last} else multiset{}
  {
    hide Bucket, Keyed;
    BucketSnoc(front, last, key, K, k - 1);
    if k > 0 {
      BucketsSnoc(front, last, key, K, k - 1);
    }
  }

  lemma {:induction false} BucketsEmpty(key: seq<int>, K: int, k: nat)
    ensures Buckets([], key, K, k) == []
  {
    if k > 0 {
      BucketsEmpty(key, K, k - 1);
    }
  }

  /** The pass loses nothing and invents nothing. */
  lemma {:induction false} StablePermutation(a: seq<int>, key: seq<int>, K: nat)
    requires Keyed(a, key, K)
    ensures multiset(StableByKey(a, key, K)) == multiset(a)
    ensures |StableByKey(a, key, K)| == |a|
  {
    if a == [] {
      BucketsEmpty(key, K, K + 1);
    } else {
      var front, last := a[..|a| - 1], a[|a| - 1];
      assert a == front + [last];
      StablePermutation(front, key, K);
      assert key[a[|a| - 1]] <= K;
      BucketsSnoc(front, last, key, K, K + 1);
      assert multiset(a) == multiset(front) + multiset{last};
    }
    assert |multiset(StableByKey(a, key, K))| == |multiset(a)|;
  }

  lemma {:induction false} BucketPrefix(a: seq<int>, key: seq<int>, K: int, k: int, i: nat)
    requires Keyed(a, key, K) && i <= |a|
    ensures Keyed(a[..i], key, K)
    ensures Bucket(a[..i], key, K, k) <= Bucket(a, key, K, k)
    decreases |a| - i
  {
    if i == |a| {
      assert a[..i] == a;
    } else {
      BucketPrefix(a, key, K, k, i + 1);
      assert a[..i + 1][..i] == a[..i];
    }
  }

  lemma {:induction false} BucketsLength(a: seq<int>, key: seq<int>, K: int, j: nat, k: nat)
    requires Keyed(a, key, K) && j <= k
    ensures |Buckets(a, key, K, j)| <= |Buckets(a, key, K, k)|
  {
    if j < k {
      BucketsLength(a, key, K, j, k - 1);
    }
  }

  ghost predicate Counted(c: seq<int>, a: seq<int>, key: seq<int>, K: nat, i: nat)
    requires Keyed(a, key, K) && i <= |a| && |c| == K + 1
  {
    forall k | 0 <= k <= K :: c[k] == |Bucket(a[..i], key, K, k)|
  }

  lemma CountedStep(c: seq<int>, d: seq<int>, a: seq<int>, key: seq<int>, K: nat, i: nat)
    requires Keyed(a, key, K) && i < |a| && |c| == |d| == K + 1
    requires Counted(c, a, key, K, i) && d == c[key[a[i]] := c[key[a[i]]] + 1]
    ensures Counted(d, a, key, K, i + 1)
  {
    assert a[..i + 1][..i] == a[..i];
  }

  /**
   * The state of the distribution loop: bucket k begins at its final offset, holds its members among the first i, and
   * c[k] is where its next member goes.
   */
  ghost predicate Distributed(b: seq<int>, c: seq<int>, a: seq<int>, key: seq<int>, K: nat, i: nat)
    requires Keyed(a, key, K) && i <= |a| && |c| == K + 1 && |b| >= |a|
  {
    forall k | 0 <= k <= K :: SlotFilled(b, c[k], a, key, K, i, k)
  }

  ghost predicate SlotFilled(b: seq<int>, next: int, a: seq<int>, key: seq<int>, K: nat, i: nat, k: nat)
    requires Keyed(a, key, K) && i <= |a| && k <= K
  {
    var start := |Buckets(a, key, K, k)|;
    && next == start + |Bucket(a[..i], key, K, k)| <= |b|
    && b[start..next] == Bucket(a[..i], key, K, k)
  }

  lemma Room(a: seq<int>, key: seq<int>, K: nat, i: nat, k: nat)
    requires Keyed(a, key, K) && i <= |a| && k <= K
    ensures Keyed(a[..i], key, K)
    ensures |Buckets(a, key, K, k)| + |Bucket(a[..i], key, K, k)| <= |Buckets(a, key, K, k + 1)| <= |a|
  {
    BucketPrefix(a, key, K, k, i);
    BucketsLength(a, key, K, k + 1, K + 1);
    StablePermutation(a, key, K);
  }

  lemma RoomNext(a: seq<int>, key: seq<int>, K: nat, i: nat)
    requires Keyed(a, key, K) && i < |a|
    ensures var k := key[a[i]];
            |Buckets(a, key, K, k)| + |Bucket(a[..i], key, K, k)| < |Buckets(a, key, K, k + 1)| <= |a|
  {
    Room(a, key, K, i + 1, key[a[i]]);
    assert a[..i + 1][..i] == a[..i];
  }

  /** Placing a[i] at the next free place of its own slot leaves every other slot alone. */
  lemma SlotKept(b: seq<int>, next: int, at: int, a: seq<int>, key: seq<int>, K: nat, i: nat, k: nat)
    requires Keyed(a, key, K) && i < |a| <= |b| && k <= K && k != key[a[i]]
    requires SlotFilled(b, next, a, key, K, i, k) && SlotFilled(b, at, a, key, K, i, key[a[i]])
    ensures 0 <= at < |b| && SlotFilled(b[at := a[i]], next, a, key, K, i + 1, k)
  {
    hide Buckets;
    var h := key[a[i]];
    assert a[..i + 1][..i] == a[..i];
    assert Bucket(a[..i + 1], key, K, k) == Bucket(a[..i], key, K, k);
    hide Bucket;
    RoomNext(a, key, K, i);
    Room(a, key, K, i, k);
    if k < h {
      BucketsLength(a, key, K, k + 1, h);
    } else {
      BucketsLength(a, key, K, h + 1, k);
    }
    var start := |Buckets(a, key, K, k)|;
    assert b[at := a[i]][start..next] == b[start..next];
  }

  lemma SlotGrown(b: seq<int>, at: int, a: seq<int>, key: seq<int>, K: nat, i: nat)
    requires Keyed(a, key, K) && i < |a| <= |b|
    requires SlotFilled(b, at, a, key, K, i, key[a[i]])
    ensures 0 <= at < |b| && SlotFilled(b[at := a[i]], at + 1, a, key, K, i + 1, key[a[i]])
  {
    var h := key[a[i]];
    assert a[..i + 1][..i] == a[..i];
    assert Bucket(a[..i + 1], key, K, h) == Bucket(a[..i], key, K, h) + [a[i]];
    RoomNext(a, key, K, i);
    hide Bucket;
    hide Buckets;
    var start := |Buckets(a, key, K, h)|;
    assert b[at := a[i]][start..at + 1] == b[start..at] + [a[i]];
  }

  lemma DistributedStep(b: seq<int>, c: seq<int>, b': seq<int>, c': seq<int>,
                        a: seq<int>, key: seq<int>, K: nat, i: nat)
    requires Keyed(a, key, K) && i < |a| <= |b| && |c| == |c'| == K + 1 && |b'| == |b|
    requires Distributed(b, c, a, key, K, i)
    requires 0 <= c[key[a[i]]] < |b|
    requires b' == b[c[key[a[i]]] := a[i]] && c' == c[key[a[i]] := c[key[a[i]]] + 1]
    ensures Distributed(b', c', a, key, K, i + 1)
  {
    var h := key[a[i]];
    forall k | 0 <= k <= K
      ensures SlotFilled(b', c'[k], a, key, K, i + 1, k)
    {
      assert SlotFilled(b, c[k], a, key, K, i, k) && SlotFilled(b, c[h], a, key, K, i, h);
      if k == h {
        SlotGrown(b, c[h], a, key, K, i);
      } else {
        SlotKept(b, c[k], c[h], a, key, K, i, k);
      }
    }
  }

  lemma DistributedStart(b: seq<int>, c: seq<int>, a: seq<int>, key: seq<int>, K: nat)
    requires Keyed(a, key, K) && |c| == K + 1 && |b| >= |a|
    requires forall k | 0 <= k <= K :: c[k] == |Buckets(a, key, K, k)|
    ensures Distributed(b, c, a, key, K, 0)
  {
    forall k | 0 <= k <= K
      ensures SlotFilled(b, c[k], a, key, K, 0, k)
    {
      Room(a, key, K, 0, k);
    }
  }

  lemma NextPlace(b: seq<int>, c: seq<int>, a: seq<int>, key: seq<int>, K: nat, i: nat)
    requires Keyed(a, key, K) && |c| == K + 1 && |b| >= |a| && i < |a|
    requires Distributed(b, c, a, key, K, i)
    ensures 0 <= c[key[a[i]]] < |a|
  {
    RoomNext(a, key, K, i);
    assert SlotFilled(b, c[key[a[i]]], a, key, K, i, key[a[i]]);
  }

  lemma {:induction false} DistributedPrefix(b: seq<int>, c: seq<int>, a: seq<int>, key: seq<int>, K: nat, k: nat)
    requires Keyed(a, key, K) && |c| == K + 1 && |b| >= |a| && k <= K + 1
    requires Distributed(b, c, a, key, K, |a|)
    ensures |Buckets(a, key, K, k)| <= |a|
    ensures b[..|Buckets(a, key, K, k)|] == Buckets(a, key, K, k)
  {
    hide Bucket;
    if k > 0 {
      DistributedPrefix(b, c, a, key, K, k - 1);
      Room(a, key, K, |a|, k - 1);
      assert a[..|a|] == a;
      assert SlotFilled(b, c[k - 1], a, key, K, |a|, k - 1);
      var start := |Buckets(a, key, K, k - 1)|;
      var end := |Buckets(a, key, K, k)|;
      assert c[k - 1] == end;
      assert b[..end] == b[..start] + b[start..end];
    }
  }

  /** Stably sorts a[..n] into b[..n] by the keys r[off + x]; K bounds the keys. */
  method Sort(a: array<int>, b: array<int>, r: array<int>, off: nat, n: nat, K: nat)
    requires b != a && b != r && n <= a.Length && n <= b.Length && off <= r.Length
    requires Keyed(a[..n], r[off..], K)
    modifies b
    ensures b[..n] == old(StableByKey(a[..n], r[off..], K))
    ensures b[n..] == old(b[n..])
  {
    hide Bucket, Buckets, Distributed;
    var c := new int[K + 1];
    CountKeys(a, r, off, n, K, c);
    PrefixSums(a[..n], r[off..], K, c);
    ghost var A, key := a[..n], r[off..];
    DistributedStart(b[..], c[..], A, key, K);
    for i := 0 to n
      invariant a[..n] == A && r[off..] == key
      invariant b[n..] == old(b[n..])
      invariant Distributed(b[..], c[..], A, key, K, i)
    {
      ghost var b0, c0 := b[..], c[..];
      var k := r[off + a[i]];
      assert k == key[A[i]];
      NextPlace(b0, c0, A, key, K, i);
      b[c[k]] := a[i];
      c[k] := c[k] + 1;
      DistributedStep(b0, c0, b[..], c[..], A, key, K, i);
    }
    DistributedPrefix(b[..], c[..], A, key, K, K + 1);
    StablePermutation(A, key, K);
    assert b[..][..n] == b[..n];
  }

  method CountKeys(a: array<int>, r: array<int>, off: nat, n: nat, K: nat, c: array<int>)
    requires c != a && c != r && n <= a.Length && off <= r.Length && c.Length == K + 1
    requires Keyed(a[..n], r[off..], K)
    modifies c
    ensures Counted(c[..], a[..n], r[off..], K, n)
  {
    for i := 0 to K + 1
      invariant forall k | 0 <= k < i :: c[k] == 0
    {
      c[i] := 0;
    }
    ghost var A, key := a[..n], r[off..];
    for i := 0 to n
      invariant a[..n] == A && r[off..] == key
      invariant Counted(c[..], A, key, K, i)
    {
      ghost var c0 := c[..];
      var k := r[off + a[i]];
      assert k == key[A[i]];
      c[k] := c[k] + 1;
      CountedStep(c0, c[..], A, key, K, i);
    }
  }

  /** Exclusive prefix sums: afterwards c[k] is the number of members with a key below k. */
  method PrefixSums(ghost a: seq<int>, ghost key: seq<int>, K: nat, c: array<int>)
    requires c.Length == K + 1 && Keyed(a, key, K)
    requires Counted(c[..], a, key, K, |a|)
    modifies c
    ensures forall k | 0 <= k <= K :: c[k] == |Buckets(a, key, K, k)|
  {
    hide Bucket, Buckets, Keyed;
    CountsAre(c[..], a, key, K);
    var sum := 0;
    for i := 0 to K + 1
      invariant sum == |Buckets(a, key, K, i)|
      invariant forall k | 0 <= k < i :: c[k] == |Buckets(a, key, K, k)|
      invariant forall k | i <= k <= K :: c[k] == |Bucket(a, key, K, k)|
    {
      BucketsUnfold(a, key, K, i);
      var t := c[i];
      c[i] := sum;
      sum := sum + t;
    }
  }

  lemma CountsAre(c: seq<int>, a: seq<int>, key: seq<int>, K: nat)
    requires |c| == K + 1 && Keyed(a, key, K) && Counted(c, a, key, K, |a|)
    ensures Buckets(a, key, K, 0) == []
    ensures forall k | 0 <= k <= K :: c[k] == |Bucket(a, key, K, k)|
  {
    assert a[..|a|] == a;
  }

  lemma BucketsUnfold(a: seq<int>, key: seq<int>, K: int, k: nat)
    requires Keyed(a, key, K)
    ensures Buckets(a, key, K, k + 1) == Buckets(a, key, K, k) + Bucket(a, key, K, k)
  {
  }
}
