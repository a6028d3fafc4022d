/** The M-step recurrence by repeated squaring of its companion matrix (fib.c). */
module MatrixFib {
  import opened Bits
  import opened MatrixAlgebra

  const WORD: nat := W

  /** fib.c:3: f(n) = f(n-1) + ... + f(n-M), here without the modulus; f(0) = 1 and f is 0 below 0. */
  ghost function Fib(M: nat, n: int): nat
    decreases if n < 0 then 0 else n, M + 1
  {
    if n < 0 then 0 else if n == 0 then 1 else Back(M, n, M)
  }

  /** f(n-1) + ... + f(n-m). */
  ghost function Back(M: nat, n: int, m: nat): nat
    requires n > 0 && m <= M
    decreases n, m
  {
    if m == 0 then 0 else Back(M, n, m - 1) + Fib(M, n - m)
  }

  /** fib.c:46-49: ones in the last row and just above the diagonal. */
  function Companion(M: nat): Mat {
    (i: int, j: int) => if i == M - 1 || j == i + 1 then 1 else 0
  }

  // ---------------------------------------------------------------- the recurrence in the powers

  lemma {:induction false} DotCompanion(M: nat, a: Mat, i: int, j: int, n: nat)
    requires 0 <= j < M && n <= M
    ensures Dot(a, Companion(M), i, j, n)
            == (if 0 < j <= n && j < M then a(i, j - 1) else 0) + (if n == M then a(i, M - 1) else 0)
    decreases n
  {
    if n > 0 {
      DotCompanion(M, a, i, j, n - 1);
      var c := Companion(M)(n - 1, j);
      assert c == if n == M || j == n then 1 else 0;
      assert a(i, n - 1) * c == if n == M || j == n then a(i, n - 1) else 0;
    }
  }

  lemma PowStep(M: nat, e: nat, i: int, j: int)
    requires 0 <= j < M && e > 0
    ensures Pow(M, Companion(M), e)(i, j)
            == Pow(M, Companion(M), e - 1)(i, M - 1) + if j > 0 then Pow(M, Companion(M), e - 1)(i, j - 1) else 0
  {
    DotCompanion(M, Pow(M, Companion(M), e - 1), i, j, M);
  }

  lemma {:induction false} BackShift(M: nat, n: int, m: nat)
    requires n > 1 && 0 < m <= M
    ensures Back(M, n, m) == Fib(M, n - 1) + Back(M, n - 1, m - 1)
    decreases m
  {
    if m > 1 {
      BackShift(M, n, m - 1);
    }
  }

  lemma {:induction false} BackOne(M: nat, m: nat)
    requires 0 < m <= M
    ensures Back(M, 1, m) == 1
    decreases m
  {
    if m > 1 {
      BackOne(M, m - 1);
    }
  }

  /** The last row of the n-th power: partial sums of the recurrence, the whole of it in the corner. */
  lemma {:induction false} LastRow(M: nat, n: nat, j: nat)
    requires 0 < M && j < M && n > 0
    ensures Pow(M, Companion(M), n)(M - 1, j) == Back(M, n, j + 1)
    decreases n, j
  {
    hide Pow;
    PowStep(M, n, M - 1, j);
    if n == 1 {
      FirstPower(M, M - 1);
      FirstPower(M, j - 1);
      BackOne(M, j + 1);
    } else {
      Corner(M, n - 1);
      BackShift(M, n, j + 1);
      if j > 0 {
        LastRow(M, n - 1, j - 1);
      }
    }
  }

  lemma FirstPower(M: nat, j: int)
    ensures Pow(M, Companion(M), 0)(M - 1, j) == if j == M - 1 then 1 else 0
  {
  }

  /** The corner of the n-th power is the n-th term. */
  lemma Corner(M: nat, n: nat)
    requires M > 0
    ensures Pow(M, Companion(M), n)(M - 1, M - 1) == Fib(M, n)
    decreases n, M
  {
    hide Pow;
    if n == 0 {
      FirstPower(M, M - 1);
    } else {
      LastRow(M, n, M - 1);
    }
  }

  // ---------------------------------------------------------------- matrices in flat arrays of words

  /** fib.c:8-14. */
  function Index(M: nat, i: nat, j: nat): nat {
    i * M + j
  }

  lemma IndexInside(M: nat, i: nat, j: nat)
    requires i < M && j < M
    ensures Index(M, i, j) < M * M
  {
    MulMono(i + 1, M, M);
    assert (i + 1) * M == i * M + M;
  }

  lemma IndexInjective(M: nat, i: nat, j: nat, k: nat, l: nat)
    requires j < M && l < M && Index(M, i, j) == Index(M, k, l)
    ensures i == k && j == l
  {
    MulDivMod(Index(M, i, j), M, i, j);
    MulDivMod(Index(M, i, j), M, k, l);
  }

  ghost predicate Cell(M: nat, s: seq<nat>, x: Mat, i: nat, j: nat)
    requires i < M && j < M && |s| == M * M
  {
    IndexInside(M, i, j);
    s[Index(M, i, j)] == x(i, j) % WORD
  }

  /** The array holds the matrix modulo 2^32, row by row. */
  ghost predicate Holds(M: nat, s: seq<nat>, x: Mat) {
    |s| == M * M && forall i: nat, j: nat | i < M && j < M :: Cell(M, s, x, i, j)
  }

  /** The cells before (i, j) hold the matrix. */
  ghost predicate Upto(M: nat, s: seq<nat>, x: Mat, i: nat, j: nat)
    requires |s| == M * M
  {
    forall k: nat, l: nat | k < M && l < M && (k < i || (k == i && l < j)) :: Cell(M, s, x, k, l)
  }

  /** Writing one cell right extends what is held, and spoils no other cell. */
  lemma WriteCell(M: nat, s: seq<nat>, x: Mat, i: nat, j: nat, v: nat, r: seq<nat>)
    requires |s| == M * M && i < M && j < M && Upto(M, s, x, i, j) && Index(M, i, j) < |s|
    requires r == s[Index(M, i, j) := v] && v == x(i, j) % WORD
    ensures Upto(M, r, x, i, j + 1)
  {
    hide Index;
    forall k: nat, l: nat | k < M && l < M && (k < i || (k == i && l < j + 1))
      ensures Cell(M, r, x, k, l)
    {
      IndexInside(M, k, l);
      if Index(M, k, l) == Index(M, i, j) {
        IndexInjective(M, k, l, i, j);
      } else {
        assert Cell(M, s, x, k, l);
      }
    }
  }

  lemma UptoRow(M: nat, s: seq<nat>, x: Mat, i: nat)
    requires |s| == M * M && Upto(M, s, x, i, M)
    ensures Upto(M, s, x, i + 1, 0)
  {
    forall k: nat, l: nat | k < M && l < M && k < i + 1
      ensures Cell(M, s, x, k, l)
    {
    }
  }

  lemma HoldsSame(M: nat, s: seq<nat>, x: Mat, y: Mat)
    requires Holds(M, s, x) && Same(M, x, y)
    ensures Holds(M, s, y)
  {
    forall i: nat, j: nat | i < M && j < M
      ensures Cell(M, s, y, i, j)
    {
      assert Cell(M, s, x, i, j);
    }
  }

  /** One step of the inner loop, modulo 2^32. */
  lemma StepWord(d: int, x: int, y: int)
    ensures (d % WORD + (x % WORD) * (y % WORD)) % WORD == (d + x * y) % WORD
  {
    var p, q, r := d / WORD, x / WORD, y / WORD;
    var u, v, w := d % WORD, x % WORD, y % WORD;
    assert x * y == v * w + WORD * (q * y + v * r) by {
      assert x == WORD * q + v && y == WORD * r + w;
      assert x * y == (WORD * q) * y + v * y;
      assert v * y == v * (WORD * r) + v * w;
      assert (WORD * q) * y == WORD * (q * y);
      assert v * (WORD * r) == WORD * (v * r);
      assert WORD * (q * y + v * r) == WORD * (q * y) + WORD * (v * r);
    }
    Wrap(u + v * w, p + (q * y + v * r));
  }

  lemma Wrap(x: int, k: int)
    ensures (x + WORD * k) % WORD == x % WORD
  {
  }

  // ---------------------------------------------------------------- fib.c

  /** fib.c:16-24: c becomes the product, modulo 2^32. */
  method Mult(M: nat, c: array<nat>, a: array<nat>, b: array<nat>, ghost x: Mat, ghost y: Mat)
    requires c.Length == M * M && c != a && c != b && Holds(M, a[..], x) && Holds(M, b[..], y)
    modifies c
    ensures Holds(M, c[..], Mul(M, x, y))
  {
    hide Index, Upto, Holds, Mul;
    HoldsLength(M, a[..], x);
    HoldsLength(M, b[..], y);
    ghost var p := Mul(M, x, y);
    UptoStart(M, c[..], p);
    var i := 0;
    while i < M
      invariant i <= M && Upto(M, c[..], p, i, 0)
    {
      var j := 0;
      while j < M
        invariant j <= M && Upto(M, c[..], p, i, j)
      {
        IndexInside(M, i, j);
        ghost var was := c[..];
        c[Index(M, i, j)] := 0;
        var k := 0;
        while k < M
          invariant k <= M && c[..] == was[Index(M, i, j) := c[Index(M, i, j)]]
          invariant c[Index(M, i, j)] == Dot(x, y, i, j, k) % WORD
        {
          IndexInside(M, i, k);
          IndexInside(M, k, j);
          HoldsAt(M, a[..], x, i, k);
          HoldsAt(M, b[..], y, k, j);
          StepWord(Dot(x, y, i, j, k), x(i, k), y(k, j));
          c[Index(M, i, j)] := (c[Index(M, i, j)] + a[Index(M, i, k)] * b[Index(M, k, j)]) % WORD;
          k := k + 1;
        }
        MulAt(M, x, y, i, j);
        WriteCell(M, was, p, i, j, c[Index(M, i, j)], c[..]);
        j := j + 1;
      }
      UptoRow(M, c[..], p, i);
      i := i + 1;
    }
    UptoAll(M, c[..], p);
  }

  lemma MulAt(M: nat, x: Mat, y: Mat, i: int, j: int)
    ensures Mul(M, x, y)(i, j) == Dot(x, y, i, j, M)
  {
  }

  lemma HoldsLength(M: nat, s: seq<nat>, x: Mat)
    requires Holds(M, s, x)
    ensures |s| == M * M
  {
  }

  lemma HoldsAt(M: nat, s: seq<nat>, x: Mat, i: nat, j: nat)
    requires Holds(M, s, x) && i < M && j < M
    ensures Index(M, i, j) < |s| && s[Index(M, i, j)] == x(i, j) % WORD
  {
    IndexInside(M, i, j);
    assert Cell(M, s, x, i, j);
  }

  lemma UptoStart(M: nat, s: seq<nat>, x: Mat)
    requires |s| == M * M
    ensures Upto(M, s, x, 0, 0)
  {
  }

  lemma UptoAll(M: nat, s: seq<nat>, x: Mat)
    requires |s| == M * M && Upto(M, s, x, M, 0)
    ensures Holds(M, s, x)
  {
  }

  /** fib.c:26-30. */
  method Assign(M: nat, a: array<nat>, b: array<nat>, ghost x: Mat)
    requires a.Length == M * M && a != b && Holds(M, b[..], x)
    modifies a
    ensures Holds(M, a[..], x)
  {
    hide Index, Upto, Holds;
    HoldsLength(M, b[..], x);
    UptoStart(M, a[..], x);
    var i := 0;
    while i < M
      invariant i <= M && Upto(M, a[..], x, i, 0)
    {
      var j := 0;
      while j < M
        invariant j <= M && Upto(M, a[..], x, i, j)
      {
        HoldsAt(M, b[..], x, i, j);
        ghost var was := a[..];
        a[Index(M, i, j)] := b[Index(M, i, j)];
        WriteCell(M, was, x, i, j, a[Index(M, i, j)], a[..]);
        j := j + 1;
      }
      UptoRow(M, a[..], x, i);
      i := i + 1;
    }
    UptoAll(M, a[..], x);
  }

  /** fib.c:44-50: A and T become the companion matrix, ans the identity. */
  method Fill(M: nat, A: array<nat>, T: array<nat>, ans: array<nat>)
    requires A.Length == M * M && T.Length == M * M && ans.Length == M * M && A != T && A != ans && T != ans
    modifies A, T, ans
    ensures Holds(M, A[..], Companion(M)) && Holds(M, T[..], Companion(M)) && Holds(M, ans[..], Id())
  {
    hide Index, Upto, Holds;
    ghost var c := Companion(M);
    UptoStart(M, A[..], c);
    UptoStart(M, T[..], c);
    UptoStart(M, ans[..], Id());
    var i := 0;
    while i < M
      invariant i <= M && Upto(M, A[..], c, i, 0) && Upto(M, T[..], c, i, 0) && Upto(M, ans[..], Id(), i, 0)
    {
      var j := 0;
      while j < M
        invariant j <= M && Upto(M, A[..], c, i, j) && Upto(M, T[..], c, i, j) && Upto(M, ans[..], Id(), i, j)
      {
        var x := if i == M - 1 || j == i + 1 then 1 else 0;
        IndexInside(M, i, j);
        ghost var a0, t0, s0 := A[..], T[..], ans[..];
        A[Index(M, i, j)] := x;
        T[Index(M, i, j)] := x;
        ans[Index(M, i, j)] := if i == j then 1 else 0;
        WriteCell(M, a0, c, i, j, x, A[..]);
        WriteCell(M, t0, c, i, j, x, T[..]);
        WriteCell(M, s0, Id(), i, j, ans[Index(M, i, j)], ans[..]);
        j := j + 1;
      }
      UptoRow(M, A[..], c, i);
      UptoRow(M, T[..], c, i);
      UptoRow(M, ans[..], Id(), i);
      i := i + 1;
    }
    UptoAll(M, A[..], c);
    UptoAll(M, T[..], c);
    UptoAll(M, ans[..], Id());
  }

  /** fib.c:43-60: square and multiply. ans holds the N-th power of the companion matrix; its corner is f(N). */
  method Run(M: nat, N: nat, A: array<nat>, T: array<nat>, ans: array<nat>, tmp: array<nat>)
    requires M > 0 && A.Length == M * M && T.Length == M * M && ans.Length == M * M && tmp.Length == M * M
    requires A != T && A != ans && A != tmp && T != ans && T != tmp && ans != tmp
    modifies A, T, ans, tmp
    ensures Holds(M, ans[..], Pow(M, Companion(M), N))
    ensures Index(M, M - 1, M - 1) < ans.Length && ans[Index(M, M - 1, M - 1)] == Fib(M, N) % WORD
  {
    hide Index, Holds, Pow, Mul, Same, Companion;
    ghost var c := Companion(M);
    Fill(M, A, T, ans);
    PowFirst(M, c);
    HoldsSame(M, T[..], c, Pow(M, c, 1));
    var n := N;
    ghost var e, p: nat := 0, 1;
    while n > 0
      invariant Holds(M, ans[..], Pow(M, c, e)) && Holds(M, T[..], Pow(M, c, p)) && e + p * n == N
      decreases n
    {
      Halve(e, p, n);
      if n % 2 == 1 {
        Mult(M, tmp, ans, T, Pow(M, c, e), Pow(M, c, p));
        PowAdd(M, c, e, p);
        HoldsSame(M, tmp[..], Mul(M, Pow(M, c, e), Pow(M, c, p)), Pow(M, c, e + p));
        Assign(M, ans, tmp, Pow(M, c, e + p));
        e := e + p;
      }
      Mult(M, tmp, T, T, Pow(M, c, p), Pow(M, c, p));
      PowAdd(M, c, p, p);
      HoldsSame(M, tmp[..], Mul(M, Pow(M, c, p), Pow(M, c, p)), Pow(M, c, p + p));
      Assign(M, T, tmp, Pow(M, c, p + p));
      p := p + p;
      n := n / 2;
    }
    Corner(M, N);
    HoldsAt(M, ans[..], Pow(M, c, N), M - 1, M - 1);
  }

  lemma PowFirst(M: nat, c: Mat)
    ensures Pow(M, c, 0) == Id() && Same(M, c, Pow(M, c, 1))
  {
    forall i, j | 0 <= i < M && 0 <= j < M
      ensures c(i, j) == Pow(M, c, 1)(i, j)
    {
      DotIdLeft(c, i, j, M);
    }
  }

  lemma {:induction false} DotIdLeft(a: Mat, i: int, j: int, n: nat)
    requires 0 <= i
    ensures Dot(Id(), a, i, j, n) == if i < n then a(i, j) else 0
    decreases n
  {
    if n > 0 {
      DotIdLeft(a, i, j, n - 1);
      assert Id()(i, n - 1) * a(n - 1, j) == if n - 1 == i then a(n - 1, j) else 0;
    }
  }

  /** The exponent still to come: halving n and doubling p. */
  lemma Halve(e: nat, p: nat, n: nat)
    requires n > 0
    ensures (if n % 2 == 1 then e + p else e) + (p + p) * (n / 2) == e + p * n
  {
    var h := n / 2;
    assert (p + p) * h == p * (2 * h) by {
      assert (p + p) * h == p * h + p * h;
      assert p * (2 * h) == 2 * (p * h);
    }
    if n % 2 == 1 {
      assert p * n == p * (2 * h) + p;
    }
  }
}
