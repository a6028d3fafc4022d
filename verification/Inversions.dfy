/** Inversions of a sequence, and what exchanging two elements does to their parity. */
module Inversions {
  import opened Perm

  /** How many elements of s are smaller than x. */
  function Smaller(x: int, s: seq<int>): nat {
    if s == [] then 0 else (if x > s[0] then 1 else 0) + Smaller(x, s[1..])
  }

  /** The number of pairs that are out of order. */
  function Disorder(s: seq<int>): nat {
    if s == [] then 0 else Smaller(s[0], s[1..]) + Disorder(s[1..])
  }

  function Swap(s: seq<int>, a: nat, b: nat): seq<int>
    requires a < |s| && b < |s|
  {
    s[a := s[b]][b := s[a]]
  }

  lemma {:induction false} SmallerSwap(x: int, s: seq<int>, a: nat)
    requires a + 1 < |s|
    ensures Smaller(x, Swap(s, a, a + 1)) == Smaller(x, s)
  {
    var t := Swap(s, a, a + 1);
    if a == 0 {
      assert t[1..][1..] == s[1..][1..] && t[1..][0] == s[0];
    } else {
      SmallerSwap(x, s[1..], a - 1);
      assert t[1..] == Swap(s[1..], a - 1, a);
    }
  }

  /** Neighbours exchanged: one pair changes its order. */
  lemma {:induction false} NeighboursFlip(s: seq<int>, a: nat)
    requires a + 1 < |s| && s[a] != s[a + 1]
    ensures Disorder(Swap(s, a, a + 1)) == Disorder(s) + if s[a] < s[a + 1] then 1 else -1
  {
    var t := Swap(s, a, a + 1);
    if a == 0 {
      assert t[1..][1..] == s[1..][1..] && t[1..][0] == s[0] && t[0] == s[1];
    } else {
      SmallerSwap(s[0], s[1..], a - 1);
      NeighboursFlip(s[1..], a - 1);
      assert t[1..] == Swap(s[1..], a - 1, a);
    }
  }

  lemma SwapDistinct(s: seq<int>, a: nat, b: nat)
    requires a < |s| && b < |s| && Distinct(s)
    ensures Distinct(Swap(s, a, b))
  {
  }

  /** Any two elements exchanged: the parity changes. */
  lemma {:induction false} SwapFlips(s: seq<int>, a: nat, b: nat)
    requires a < b < |s| && Distinct(s)
    ensures Disorder(Swap(s, a, b)) % 2 != Disorder(s) % 2
    decreases b - a
  {
    if b == a + 1 {
      NeighboursFlip(s, a);
    } else {
      var s1 := Swap(s, a, a + 1);
      SwapDistinct(s, a, a + 1);
      NeighboursFlip(s, a);
      var s2 := Swap(s1, a + 1, b);
      SwapDistinct(s1, a + 1, b);
      SwapFlips(s1, a + 1, b);
      NeighboursFlip(s2, a);
      assert Swap(s2, a, a + 1) == Swap(s, a, b);
    }
  }

  lemma {:induction false} SortedHasNone(s: seq<int>)
    requires forall i, j | 0 <= i < j < |s| :: s[i] <= s[j]
    ensures Disorder(s) == 0
  {
    if s != [] {
      NoneSmaller(s[0], s[1..]);
      SortedHasNone(s[1..]);
    }
  }

  lemma {:induction false} NoneSmaller(x: int, s: seq<int>)
    requires forall i | 0 <= i < |s| :: x <= s[i]
    ensures Smaller(x, s) == 0
  {
    if s != [] {
      NoneSmaller(x, s[1..]);
    }
  }
}
