/** Turning three elements of a sequence, and how such turns compose. */
module ThreeCycles {
  import opened Perm

  /** The elements at x, y, z move on to y, z, x. */
  function Turn<A>(w: seq<A>, x: nat, y: nat, z: nat): (r: seq<A>)
    requires x < |w| && y < |w| && z < |w|
    ensures |r| == |w|
  {
    w[x := w[z]][y := w[x]][z := w[y]]
  }

  predicate Apart(x: nat, y: nat, z: nat) {
    x != y && y != z && z != x
  }

  /** Two turns make the turn the other way. */
  lemma TurnBack<A>(w: seq<A>, x: nat, y: nat, z: nat)
    requires x < |w| && y < |w| && z < |w| && Apart(x, y, z)
    ensures Turn(w, y, z, x) == Turn(w, x, y, z)
    ensures Turn(Turn(w, x, y, z), x, y, z) == Turn(w, x, z, y)
  {
  }

  /** Turning c, b out of the way, then a, b, d, then back: altogether b, c, d are turned. */
  lemma ConjugateTwo<A>(w: seq<A>, a: nat, b: nat, c: nat, d: nat)
    requires a < |w| && b < |w| && c < |w| && d < |w| && Apart(a, b, c) && Apart(a, b, d) && c != d
    ensures Turn(Turn(Turn(w, a, c, b), a, b, d), a, b, c) == Turn(w, b, c, d)
  {
    var w1 := Turn(w, a, c, b);
    var w2 := Turn(w1, a, b, d);
    var w3, v := Turn(w2, a, b, c), Turn(w, b, c, d);
    forall k | 0 <= k < |w|
      ensures w3[k] == v[k]
    {
    }
  }

  /** The same with one common position r: it gives way to u. */
  lemma ConjugateOne<A>(w: seq<A>, p: nat, r: nat, q: nat, u: nat, v: nat)
    requires p < |w| && r < |w| && q < |w| && u < |w| && v < |w| && Apart(p, r, q) && Apart(r, u, v)
    requires u != p && u != q && v != p && v != q
    ensures Turn(Turn(Turn(w, r, v, u), p, r, q), r, u, v) == Turn(w, p, u, q)
  {
    var w1 := Turn(w, r, v, u);
    var w2 := Turn(w1, p, r, q);
    var w3, x := Turn(w2, r, u, v), Turn(w, p, u, q);
    forall k | 0 <= k < |w|
      ensures w3[k] == x[k]
    {
    }
  }

  lemma TurnDistinct<A>(w: seq<A>, x: nat, y: nat, z: nat)
    requires x < |w| && y < |w| && z < |w| && Apart(x, y, z) && Distinct(w)
    ensures Distinct(Turn(w, x, y, z))
  {
  }
}
