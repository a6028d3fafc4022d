/** Duplicate-free index sequences, and the pigeonhole facts about them. */
module Perm {

  ghost predicate Distinct<T>(s: seq<T>) {
    forall i, j | 0 <= i < j < |s| :: s[i] != s[j]
  }

  ghost predicate Within(s: seq<int>, n: int) {
    forall i | 0 <= i < |s| :: 0 <= s[i] < n
  }

  /** Every number below n occurs in s. */
  ghost predicate Covers(s: seq<int>, n: int) {
    forall v | 0 <= v < n :: v in s
  }

  ghost function Below(n: nat): (r: set<int>)
    ensures |r| == n && forall v :: v in r <==> 0 <= v < n
  {
    if n == 0 then {} else Below(n - 1) + {n - 1}
  }

  lemma {:induction false} DistinctCardinality<T>(s: seq<T>)
    requires Distinct(s)
    ensures |set x | x in s| == |s|
  {
    if |s| > 0 {
      var front, last := s[..|s| - 1], s[|s| - 1];
      DistinctCardinality(front);
      assert last !in front;
      assert (set x | x in s) == (set x | x in front) + {last};
    }
  }

  /** Distinct numbers below n: at most n of them, and with n of them none is missing. */
  lemma Pigeonhole(s: seq<int>, n: nat)
    requires Distinct(s) && Within(s, n)
    ensures |s| <= n
    ensures |s| == n ==> Covers(s, n)
  {
    var elems := set x | x in s;
    DistinctCardinality(s);
    assert elems <= Below(n);
    SubsetCardinality(elems, Below(n));
    if |s| == n {
      assert elems == Below(n);
      forall v | 0 <= v < n
        ensures v in s
      {
        assert v in Below(n);
      }
    }
  }

  lemma {:induction false} SubsetCardinality<T>(a: set<T>, b: set<T>)
    requires a <= b
    ensures |a| <= |b|
    ensures |a| == |b| ==> a == b
  {
    assert b == a + (b - a);
    assert |b| == |a| + |b - a|;
  }

  /** A sequence that covers [0, n) has at least n members. */
  lemma CoverLength(s: seq<int>, n: nat)
    requires Covers(s, n)
    ensures |s| >= n
  {
    var elems := set x | x in s;
    assert Below(n) <= elems;
    SubsetCardinality(Below(n), elems);
    SetOfSeqBound(s);
  }

  lemma {:induction false} SetOfSeqBound<T>(s: seq<T>)
    ensures |set x | x in s| <= |s|
  {
    if |s| > 0 {
      var front, last := s[..|s| - 1], s[|s| - 1];
      SetOfSeqBound(front);
      assert (set x | x in s) == (set x | x in front) + {last};
    }
  }

  /** n numbers that cover [0, n) are distinct and within it. */
  lemma CoverExactly(s: seq<int>, n: nat)
    requires Covers(s, n) && |s| == n
    ensures Distinct(s) && Within(s, n)
  {
    forall j | 0 <= j < |s|
      ensures 0 <= s[j] < n && forall i | 0 <= i < j :: s[i] != s[j]
    {
      if !(0 <= s[j] < n) || exists i | 0 <= i < j :: s[i] == s[j] {
        var t := s[..j] + s[j + 1..];
        forall v | 0 <= v < n
          ensures v in t
        {
          StillIn(s, j, v);
        }
        CoverLength(t, n);
        assert false;
      }
    }
  }

  lemma StillIn(s: seq<int>, j: nat, v: int)
    requires j < |s| && v in s && (v != s[j] || exists i | 0 <= i < j :: s[i] == s[j])
    ensures v in s[..j] + s[j + 1..]
  {
    var t := s[..j] + s[j + 1..];
    if v == s[j] {
      var i :| 0 <= i < j && s[i] == s[j];
      assert t[i] == v;
    } else {
      var i :| 0 <= i < |s| && s[i] == v;
      assert t[if i < j then i else i - 1] == v;
    }
  }

  lemma DistinctAppend<T>(a: seq<T>, b: seq<T>)
    requires Distinct(a) && Distinct(b) && forall x | x in a :: x !in b
    ensures Distinct(a + b)
  {
    forall i, j | 0 <= i < j < |a + b|
      ensures (a + b)[i] != (a + b)[j]
    {
      if i < |a| && j >= |a| {
        assert (a + b)[i] in a && (a + b)[j] in b;
      }
    }
  }
}
