/** Square matrices over the integers: products, powers, and their residues. */
module MatrixAlgebra {
  type Mat = (int, int) -> int

  /** The sum of a(i, k) * b(k, j) over k < n. */
  function Dot(a: Mat, b: Mat, i: int, j: int, n: nat): int {
    if n == 0 then 0 else Dot(a, b, i, j, n - 1) + a(i, n - 1) * b(n - 1, j)
  }

  function Mul(M: nat, a: Mat, b: Mat): Mat {
    (i, j) => Dot(a, b, i, j, M)
  }

  function Id(): Mat {
    (i: int, j: int) => if i == j then 1 else 0
  }

  function Pow(M: nat, a: Mat, e: nat): Mat {
    if e == 0 then Id() else Mul(M, Pow(M, a, e - 1), a)
  }

  ghost predicate Same(M: nat, a: Mat, b: Mat) {
    forall i, j | 0 <= i < M && 0 <= j < M :: a(i, j) == b(i, j)
  }

  lemma {:induction false} DotSame(M: nat, a: Mat, b: Mat, c: Mat, d: Mat, i: int, j: int, n: nat)
    requires Same(M, a, c) && Same(M, b, d) && 0 <= i < M && 0 <= j < M && n <= M
    ensures Dot(a, b, i, j, n) == Dot(c, d, i, j, n)
    decreases n
  {
    if n > 0 {
      DotSame(M, a, b, c, d, i, j, n - 1);
      assert a(i, n - 1) == c(i, n - 1) && b(n - 1, j) == d(n - 1, j);
    }
  }

  lemma MulSame(M: nat, a: Mat, b: Mat, c: Mat, d: Mat)
    requires Same(M, a, c) && Same(M, b, d)
    ensures Same(M, Mul(M, a, b), Mul(M, c, d))
  {
    forall i, j | 0 <= i < M && 0 <= j < M
      ensures Mul(M, a, b)(i, j) == Mul(M, c, d)(i, j)
    {
      DotSame(M, a, b, c, d, i, j, M);
    }
  }

  lemma {:induction false} DotId(a: Mat, i: int, j: int, n: nat)
    requires 0 <= j
    ensures Dot(a, Id(), i, j, n) == if j < n then a(i, j) else 0
    decreases n
  {
    if n > 0 {
      DotId(a, i, j, n - 1);
      assert a(i, n - 1) * Id()(n - 1, j) == if n - 1 == j then a(i, n - 1) else 0;
    }
  }

  lemma MulId(M: nat, a: Mat)
    ensures Same(M, Mul(M, a, Id()), a)
  {
    forall i, j | 0 <= i < M && 0 <= j < M
      ensures Mul(M, a, Id())(i, j) == a(i, j)
    {
      DotId(a, i, j, M);
    }
  }

  /** The double sum of a(i, k) * b(k, l) * c(l, j) over k < m and l < n. */
  function Triple(a: Mat, b: Mat, c: Mat, i: int, j: int, n: nat, m: nat): int {
    if n == 0 then 0 else Triple(a, b, c, i, j, n - 1, m) + Dot(a, b, i, n - 1, m) * c(n - 1, j)
  }

  lemma Spread(x: int, y: int, z: int, w: int, d: int)
    ensures (x + y * z) * w + y * d == x * w + y * (d + z * w)
  {
    assert (x + y * z) * w == x * w + (y * z) * w;
    assert y * (d + z * w) == y * d + y * (z * w);
    assert (y * z) * w == y * (z * w);
  }

  lemma {:induction false} TripleStep(a: Mat, b: Mat, c: Mat, i: int, j: int, n: nat, m: nat)
    requires m > 0
    ensures Triple(a, b, c, i, j, n, m) == Triple(a, b, c, i, j, n, m - 1) + a(i, m - 1) * Dot(b, c, m - 1, j, n)
    decreases n
  {
    if n > 0 {
      TripleStep(a, b, c, i, j, n - 1, m);
      Spread(Dot(a, b, i, n - 1, m - 1), a(i, m - 1), b(m - 1, n - 1), c(n - 1, j), Dot(b, c, m - 1, j, n - 1));
    }
  }

  lemma {:induction false} TripleNone(a: Mat, b: Mat, c: Mat, i: int, j: int, n: nat)
    ensures Triple(a, b, c, i, j, n, 0) == 0
    decreases n
  {
    if n > 0 {
      TripleNone(a, b, c, i, j, n - 1);
    }
  }

  lemma {:induction false} TripleRows(M: nat, a: Mat, b: Mat, c: Mat, i: int, j: int, n: nat)
    ensures Triple(a, b, c, i, j, n, M) == Dot(Mul(M, a, b), c, i, j, n)
    decreases n
  {
    if n > 0 {
      TripleRows(M, a, b, c, i, j, n - 1);
    }
  }

  lemma {:induction false} TripleColumns(M: nat, a: Mat, b: Mat, c: Mat, i: int, j: int, m: nat)
    ensures Triple(a, b, c, i, j, M, m) == Dot(a, Mul(M, b, c), i, j, m)
    decreases m
  {
    if m == 0 {
      TripleNone(a, b, c, i, j, M);
    } else {
      TripleStep(a, b, c, i, j, M, m);
      TripleColumns(M, a, b, c, i, j, m - 1);
    }
  }

  lemma MulAssociates(M: nat, a: Mat, b: Mat, c: Mat)
    ensures Same(M, Mul(M, Mul(M, a, b), c), Mul(M, a, Mul(M, b, c)))
  {
    forall i, j | 0 <= i < M && 0 <= j < M
      ensures Mul(M, Mul(M, a, b), c)(i, j) == Mul(M, a, Mul(M, b, c))(i, j)
    {
      TripleRows(M, a, b, c, i, j, M);
      TripleColumns(M, a, b, c, i, j, M);
    }
  }

  /** Exponents add. */
  lemma {:induction false} PowAdd(M: nat, a: Mat, p: nat, q: nat)
    ensures Same(M, Mul(M, Pow(M, a, p), Pow(M, a, q)), Pow(M, a, p + q))
    decreases q
  {
    hide Mul;
    if q == 0 {
      MulId(M, Pow(M, a, p));
    } else {
      PowAdd(M, a, p, q - 1);
      MulAssociates(M, Pow(M, a, p), Pow(M, a, q - 1), a);
      MulSame(M, Mul(M, Pow(M, a, p), Pow(M, a, q - 1)), a, Pow(M, a, p + q - 1), a);
    }
  }
}
