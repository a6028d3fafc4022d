/** Counting placements of non-attacking queens with three bit masks (queen.c). */
module Queens {
  import opened Bits
  import opened BitMask
  import opened Perm

  // ---------------------------------------------------------------- the board

  /** q[i] is the column of the queen in row i; no two share a column or a diagonal. */
  ghost predicate NonAttacking(n: nat, q: seq<int>) {
    && (forall i | 0 <= i < |q| :: 0 <= q[i] < n)
    && forall i, j | 0 <= i < j < |q| :: Apart(q[i], q[j], j - i)
  }

  predicate Apart(a: int, b: int, rows: int) {
    a != b && a + rows != b && a - rows != b
  }

  /** Column c of the next row is not attacked. */
  ghost predicate Free(p: seq<int>, c: int) {
    forall i | 0 <= i < |p| :: Apart(p[i], c, |p| - i)
  }

  /** All ways to complete a partial placement; those that put the next queen left of column c. */
  ghost function Completions(n: nat, p: seq<int>): seq<seq<int>>
    decreases n - |p|, n + 1
  {
    if |p| >= n then [p] else Left(n, p, n)
  }

  ghost function Left(n: nat, p: seq<int>, c: nat): seq<seq<int>>
    requires |p| < n
    decreases n - |p|, c
  {
    if c == 0 then [] else Left(n, p, c - 1) + if Free(p, c - 1) then Completions(n, p + [c - 1]) else []
  }

  /** q is a full placement that starts with p. */
  ghost predicate Completes(n: nat, p: seq<int>, q: seq<int>) {
    |q| == n && p <= q && NonAttacking(n, q)
  }

  lemma {:induction false} CompletionsExact(n: nat, p: seq<int>, q: seq<int>)
    requires |p| <= n && NonAttacking(n, p)
    ensures q in Completions(n, p) <==> Completes(n, p, q)
    decreases n - |p|, n + 1
  {
    if |p| < n {
      LeftExact(n, p, n, q);
    } else if Completes(n, p, q) {
      assert q == p;
    }
  }

  lemma {:induction false} LeftExact(n: nat, p: seq<int>, c: nat, q: seq<int>)
    requires |p| < n && c <= n && NonAttacking(n, p)
    ensures q in Left(n, p, c) <==> (Completes(n, p, q) && q[|p|] < c)
    decreases n - |p|, c
  {
    hide NonAttacking, Free;
    NextQueen(n, p, q);
    if c > 0 {
      LeftExact(n, p, c - 1, q);
      if Free(p, c - 1) {
        Extended(n, p, c - 1);
        CompletionsExact(n, p + [c - 1], q);
      }
      OneMore(n, p, c - 1, q);
    }
  }

  /** The next queen of a completion stands in a free column. */
  lemma NextQueen(n: nat, p: seq<int>, q: seq<int>)
    requires |p| < n
    ensures Completes(n, p, q) ==> 0 <= q[|p|] < n && Free(p, q[|p|])
  {
    if Completes(n, p, q) {
      forall i | 0 <= i < |p|
        ensures Apart(p[i], q[|p|], |p| - i)
      {
        assert Apart(q[i], q[|p|], |p| - i);
      }
    }
  }

  lemma OneMore(n: nat, p: seq<int>, c: int, q: seq<int>)
    requires |p| < n
    ensures Completes(n, p + [c], q) <==> Completes(n, p, q) && q[|p|] == c
  {
    hide NonAttacking;
    var p' := p + [c];
    if |q| == n && p <= q && q[|p|] == c {
      assert q[..|p'|] == p';
    }
  }

  lemma Extended(n: nat, p: seq<int>, c: int)
    requires NonAttacking(n, p) && Free(p, c) && 0 <= c < n
    ensures NonAttacking(n, p + [c])
  {
    var p' := p + [c];
    forall i, j | 0 <= i < j < |p'|
      ensures Apart(p'[i], p'[j], j - i)
    {
      if j == |p| {
        assert Apart(p[i], c, |p| - i);
      }
    }
  }

  /** No placement is counted twice. */
  lemma {:induction false} CompletionsDistinct(n: nat, p: seq<int>)
    requires |p| <= n && NonAttacking(n, p)
    ensures Distinct(Completions(n, p))
    decreases n - |p|, n + 1
  {
    if |p| < n {
      LeftDistinct(n, p, n);
    }
  }

  lemma {:induction false} LeftDistinct(n: nat, p: seq<int>, c: nat)
    requires |p| < n && c <= n && NonAttacking(n, p)
    ensures Distinct(Left(n, p, c))
    decreases n - |p|, c
  {
    if c > 0 {
      hide NonAttacking, Free, Distinct;
      LeftDistinct(n, p, c - 1);
      if Free(p, c - 1) {
        Extended(n, p, c - 1);
        CompletionsDistinct(n, p + [c - 1]);
        NotLeft(n, p, c - 1);
        DistinctAppend(Left(n, p, c - 1), Completions(n, p + [c - 1]));
      }
    }
  }

  lemma NotLeft(n: nat, p: seq<int>, c: nat)
    requires |p| < n && c < n && NonAttacking(n, p) && Free(p, c)
    ensures forall x | x in Left(n, p, c) :: x !in Completions(n, p + [c])
  {
    hide NonAttacking, Free, Distinct, Completions, Left, Completes;
    Extended(n, p, c);
    forall x | x in Left(n, p, c)
      ensures x !in Completions(n, p + [c])
    {
      LeftExact(n, p, c, x);
      CompletionsExact(n, p + [c], x);
      OneMore(n, p, c, x);
    }
  }

  lemma {:induction false} LeftSkips(n: nat, p: seq<int>, c: nat, k: nat)
    requires |p| < n && c <= k && forall x: nat | c <= x < k :: !Free(p, x)
    ensures Left(n, p, k) == Left(n, p, c)
    decreases k
  {
    if c < k {
      LeftSkips(n, p, c, k - 1);
    }
  }

  // ---------------------------------------------------------------- the masks

  /** Columns taken, and columns of the next row attacked along either diagonal. */
  ghost predicate Masks(n: nat, p: seq<int>, row: nat, ld: nat, rd: nat) {
    && row < Pow2(n) && ld < W && rd < Pow2(n)
    && (forall c: nat | c < n :: Bit(row, c) <==> Column(p, c))
    && (forall c: nat | c < n :: Bit(ld, c) <==> Diagonal(p, c, 1))
    && forall c: nat | c < n :: Bit(rd, c) <==> Diagonal(p, c, -1)
  }

  ghost predicate Column(p: seq<int>, c: int) {
    exists i :: 0 <= i < |p| && p[i] == c
  }

  ghost predicate Diagonal(p: seq<int>, c: int, step: int) {
    exists i :: 0 <= i < |p| && p[i] + (if step == 1 then |p| - i else i - |p|) == c
  }

  lemma FreeColumns(p: seq<int>, c: int)
    ensures Free(p, c) <==> !Column(p, c) && !Diagonal(p, c, 1) && !Diagonal(p, c, -1)
  {
    if Free(p, c) {
      forall i | 0 <= i < |p|
        ensures p[i] != c && p[i] + (|p| - i) != c && p[i] + (i - |p|) != c
      {
        assert Apart(p[i], c, |p| - i);
      }
    }
  }

  lemma ColumnNext(p: seq<int>, x: int, c: int)
    ensures Column(p + [x], c) <==> Column(p, c) || c == x
  {
    var p' := p + [x];
    if Column(p, c) {
      var i :| 0 <= i < |p| && p[i] == c;
      assert p'[i] == c;
    }
    if c == x {
      assert p'[|p|] == c;
    }
  }

  /** Attacks move one column per row. */
  lemma DiagonalNext(p: seq<int>, x: int, c: int, step: int)
    requires step == 1 || step == -1
    ensures Diagonal(p + [x], c, step) <==> Diagonal(p, c - step, step) || c - step == x
  {
    var p' := p + [x];
    if Diagonal(p, c - step, step) {
      var i :| 0 <= i < |p| && p[i] + (if step == 1 then |p| - i else i - |p|) == c - step;
      assert p'[i] + (if step == 1 then |p'| - i else i - |p'|) == c;
    }
    if c - step == x {
      assert p'[|p|] + (if step == 1 then |p'| - |p| else |p| - |p'|) == c;
    }
    if Diagonal(p', c, step) {
      var i :| 0 <= i < |p'| && p'[i] + (if step == 1 then |p'| - i else i - |p'|) == c;
      if i < |p| {
        assert p[i] + (if step == 1 then |p| - i else i - |p|) == c - step;
      }
    }
  }

  /** The row mask is full exactly when a queen stands in every row. */
  lemma FullWhenDone(n: nat, p: seq<int>, row: nat, ld: nat, rd: nat)
    requires |p| <= n && NonAttacking(n, p) && Masks(n, p, row, ld, rd)
    ensures row == Pow2(n) - 1 <==> |p| == n
  {
    PlacedDistinct(n, p);
    if |p| == n {
      Pigeonhole(p, n);
      forall c | 0 <= c < n
        ensures Bit(row, c) == Bit(Pow2(n) - 1, c)
      {
        assert c in p;
        assert Column(p, c);
        OnesBits(n, c);
      }
      SameBits(row, Pow2(n) - 1, n);
    } else if row == Pow2(n) - 1 {
      forall c | 0 <= c < n
        ensures c in p
      {
        OnesBits(n, c);
        assert Column(p, c);
      }
      CoverLength(p, n);
    }
  }

  lemma PlacedDistinct(n: nat, p: seq<int>)
    requires NonAttacking(n, p)
    ensures Distinct(p) && Within(p, n)
  {
    forall i, j | 0 <= i < j < |p|
      ensures p[i] != p[j]
    {
      assert Apart(p[i], p[j], j - i);
    }
  }

  /** queen.c:9: the columns to try. */
  lemma OpenColumns(n: nat, p: seq<int>, row: nat, ld: nat, rd: nat, pos: nat)
    requires n <= 31 && Masks(n, p, row, ld, rd) && Or(Or(row, ld), rd) < W
    requires pos == And(Pow2(n) - 1, Not32(Or(Or(row, ld), rd)))
    ensures forall c: nat :: Bit(pos, c) <==> c < n && Free(p, c)
  {
    hide And, Or, Pow2;
    Pow2Values();
    forall c: nat
      ensures Bit(pos, c) <==> c < n && Free(p, c)
    {
      AndBits(Pow2(n) - 1, Not32(Or(Or(row, ld), rd)), c);
      OnesBits(n, c);
      if c < n {
        ComplementBits(Or(Or(row, ld), rd), 32, W, c);
        OrBits(Or(row, ld), rd, c);
        OrBits(row, ld, c);
        FreeColumns(p, c);
      }
    }
  }

  lemma {:induction false} OrBelow(a: nat, b: nat, k: nat, m: nat)
    requires m == Pow2(k) && a < m && b < m
    ensures Or(a, b) < m
    decreases k
  {
    if k > 0 {
      OrBelow(a / 2, b / 2, k - 1, Pow2(k - 1));
      OrHalves(a, b);
    }
  }

  lemma MasksBelow(n: nat, p: seq<int>, row: nat, ld: nat, rd: nat)
    requires n <= 31 && Masks(n, p, row, ld, rd)
    ensures Or(Or(row, ld), rd) < W
  {
    hide Or, Pow2;
    Pow2Values();
    Pow2Monotone(n, 32);
    OrBelow(row, ld, 32, W);
    OrBelow(Or(row, ld), rd, 32, W);
  }

  lemma UpBit(x: nat, c: nat)
    requires c < 32
    ensures Bit(Shl32(x, 1), c) <==> c > 0 && Bit(x, c - 1)
  {
    assert Pow2(1) == 2;
    Pow2Values();
    LowBits(2 * x, 32, W, c);
  }

  lemma DownBit(x: nat, c: nat)
    ensures Bit(Shr(x, 1), c) <==> Bit(x, c + 1)
  {
    assert Pow2(1) == 2;
  }

  /** Attacks leave the board at its edges. */
  lemma Edge(n: nat, p: seq<int>, c: int)
    requires NonAttacking(n, p)
    ensures c < 0 ==> !Diagonal(p, c, 1)
    ensures c >= n ==> !Diagonal(p, c, -1)
  {
  }

  lemma ShrBelow(x: nat, m: nat)
    requires x < m
    ensures 0 <= Shr(x, 1) < m
  {
    assert Pow2(1) == 2;
  }

  /** queen.c:13: the masks of the next row after a queen in column k. */
  lemma NextMasks(n: nat, p: seq<int>, row: nat, ld: nat, rd: nat, k: nat)
    requires n <= 31 && k < n && NonAttacking(n, p) && Masks(n, p, row, ld, rd)
    ensures Masks(n, p + [k], Or(row, Pow2(k)), Shl32(Or(ld, Pow2(k)), 1), Shr(Or(rd, Pow2(k)), 1))
  {
    hide Or, Pow2, Shl32, Shr, Column, Diagonal, NonAttacking;
    var p', bit := p + [k], Pow2(k);
    MaskRanges(n, k, row, ld, rd);
    forall c: nat | c < n
      ensures Bit(Or(row, bit), c) <==> Column(p', c)
    {
      OrBits(row, bit, c);
      PowerBits(k, c);
      ColumnNext(p, k, c);
    }
    forall c: nat | c < n
      ensures Bit(Shl32(Or(ld, bit), 1), c) <==> Diagonal(p', c, 1)
    {
      UpBit(Or(ld, bit), c);
      DiagonalNext(p, k, c, 1);
      Edge(n, p, c - 1);
      if c > 0 {
        OrBits(ld, bit, c - 1);
        PowerBits(k, c - 1);
      }
    }
    forall c: nat | c < n
      ensures Bit(Shr(Or(rd, bit), 1), c) <==> Diagonal(p', c, -1)
    {
      DownBit(Or(rd, bit), c);
      DiagonalNext(p, k, c, -1);
      Edge(n, p, c + 1);
      OrBits(rd, bit, c + 1);
      PowerBits(k, c + 1);
      if c + 1 == n {
        NoHighBits(rd, n, n);
      }
    }
  }

  lemma MaskRanges(n: nat, k: nat, row: nat, ld: nat, rd: nat)
    requires n <= 31 && k < n && row < Pow2(n) && ld < W && rd < Pow2(n)
    ensures Or(row, Pow2(k)) < Pow2(n) && Shl32(Or(ld, Pow2(k)), 1) < W && Shr(Or(rd, Pow2(k)), 1) < Pow2(n)
  {
    hide Or;
    hide Pow2, Shr;
    Pow2Values();
    PowerLess(k, n);
    OrBelow(row, Pow2(k), n, Pow2(n));
    OrBelow(rd, Pow2(k), n, Pow2(n));
    ShrBelow(Or(rd, Pow2(k)), Pow2(n));
  }

  lemma PowerLess(k: nat, n: nat)
    requires k < n
    ensures Pow2(k) < Pow2(n)
  {
    Pow2Monotone(k, n - 1);
  }

  lemma {:induction false} NoHighBits(x: nat, n: nat, i: nat)
    requires x < Pow2(n) && i >= n
    ensures !Bit(x, i)
    decreases n
  {
    if n == 0 {
      ZeroBits(i);
    } else {
      NoHighBits(x / 2, n - 1, i - 1);
    }
  }

  // ---------------------------------------------------------------- the search

  /** The columns from c0 on are still to be tried. */
  ghost predicate Remaining(n: nat, p: seq<int>, pos: nat, c0: nat) {
    && pos < Pow2(n) && c0 <= n
    && forall c: nat :: Bit(pos, c) <==> c0 <= c < n && Free(p, c)
  }

  /** The lowest bit is the next free column; taking it out leaves those to its right. */
  lemma NextColumn(n: nat, p: seq<int>, pos: nat, c0: nat) returns (k: nat)
    requires n <= 31 && |p| < n && Remaining(n, p, pos, c0) && pos > 0 && NonAttacking(n, p)
    ensures pos < W && c0 <= k < n && Free(p, k) && And(pos, (Not32(pos) + 1) % W) == Pow2(k) && Pow2(k) <= pos
    ensures Left(n, p, k) == Left(n, p, c0) && Remaining(n, p, pos - Pow2(k), k + 1) && NonAttacking(n, p + [k])
  {
    hide And, Free, Left, NonAttacking, Bit, Pow2;
    k := SomeBit(pos, n, Pow2(n));
    LowestIn32(pos, k, n);
    forall x: nat | c0 <= x < k
      ensures !Free(p, x)
    {
      assert !Bit(pos, x);
    }
    LeftSkips(n, p, c0, k);
    Extended(n, p, k);
    ColumnDone(n, p, pos, c0, k);
  }

  lemma ColumnDone(n: nat, p: seq<int>, pos: nat, c0: nat, k: nat)
    requires Remaining(n, p, pos, c0) && k < n && Bit(pos, k) && Pow2(k) <= pos && forall x: nat | x < k :: !Bit(pos, x)
    ensures Remaining(n, p, pos - Pow2(k), k + 1)
  {
    hide Free, Bit, Pow2;
    forall c: nat
      ensures Bit(pos - Pow2(k), c) <==> k + 1 <= c < n && Free(p, c)
    {
      ClearBit(pos, k, c);
      assert Bit(pos, c) <==> c0 <= c < n && Free(p, c);
      assert Bit(pos, k) <==> c0 <= k < n && Free(p, k);
    }
  }

  lemma LowestIn32(pos: nat, k: nat, n: nat)
    requires n <= 31 && 0 < pos < Pow2(n) && k < n && Bit(pos, k) && forall i | 0 <= i < k :: !Bit(pos, i)
    ensures pos < W && And(pos, (Not32(pos) + 1) % W) == Pow2(k)
  {
    hide And, Bit, Pow2;
    Pow2Values();
    Pow2Monotone(n, 32);
    LowestBit(pos, k, 32, W);
    NegateWord(pos);
  }

  lemma NegateWord(x: nat)
    requires 0 < x < W
    ensures (Not32(x) + 1) % W == W - x
  {
  }

  lemma AddModulo(x: nat, y: nat)
    ensures (x % W + y % W) % W == (x + y) % W
  {
    assert x == W * (x / W) + x % W && y == W * (y / W) + y % W;
    ShiftModulo(x % W + y % W, x / W + y / W);
  }

  lemma ShiftModulo(x: nat, k: nat)
    ensures (x + W * k) % W == x % W
  {
    MulDivMod(x + W * k, W, x / W + k, x % W);
  }

  /** queen.c:5-17, the number of completions of p, modulo 2^32. */
  method Dfs(n: nat, row: nat, ld: nat, rd: nat, ghost p: seq<int>) returns (ans: nat)
    requires n <= 31 && |p| <= n && NonAttacking(n, p) && Masks(n, p, row, ld, rd)
    ensures ans == |Completions(n, p)| % W
    decreases n - |p|
  {
    hide And, Or, Shl32, Shr, Masks, NonAttacking, Free, Bit, Pow2;
    FullWhenDone(n, p, row, ld, rd);
    MasksBelow(n, p, row, ld, rd);
    FullBelow(n);
    if row == Pow2(n) - 1 {
      return 1;
    }
    var pos := And(Pow2(n) - 1, Not32(Or(Or(row, ld), rd)));
    ans := 0;
    ghost var c0 := 0;
    StartColumns(n, p, row, ld, rd, pos);
    while pos != 0
      invariant Remaining(n, p, pos, c0) && ans == |Left(n, p, c0)| % W
      decreases pos
    {
      ghost var k := NextColumn(n, p, pos, c0);
      NextMasks(n, p, row, ld, rd, k);
      BelowWord(n, pos);
      var bit := And(pos, (Not32(pos) + 1) % W);
      pos := pos - bit;
      var more := Dfs(n, Or(row, bit), Shl32(Or(ld, bit), 1), Shr(Or(rd, bit), 1), p + [k]);
      AddModulo(|Left(n, p, k)|, |Completions(n, p + [k])|);
      ans := (ans + more) % W;
      c0 := k + 1;
    }
    NoneRemaining(n, p, c0);
  }

  lemma FullBelow(n: nat)
    requires n <= 31
    ensures 0 < Pow2(n) < W
  {
    Pow2Values();
    Pow2Monotone(n, 31);
  }

  lemma BelowWord(n: nat, pos: nat)
    requires n <= 31 && pos < Pow2(n)
    ensures pos < W
  {
    FullBelow(n);
  }

  lemma StartColumns(n: nat, p: seq<int>, row: nat, ld: nat, rd: nat, pos: nat)
    requires n <= 31 && Masks(n, p, row, ld, rd) && Or(Or(row, ld), rd) < W
    requires pos == And(Pow2(n) - 1, Not32(Or(Or(row, ld), rd)))
    ensures Remaining(n, p, pos, 0)
  {
    hide Or, Bit, Masks;
    OpenColumns(n, p, row, ld, rd, pos);
    AndBelow(Pow2(n) - 1, Not32(Or(Or(row, ld), rd)));
  }

  lemma {:induction false} AndBelow(a: nat, b: nat)
    ensures And(a, b) <= a
  {
    if a > 0 && b > 0 {
      AndBelow(a / 2, b / 2);
    }
  }

  lemma NoneRemaining(n: nat, p: seq<int>, c0: nat)
    requires |p| < n && Remaining(n, p, 0, c0)
    ensures Left(n, p, n) == Left(n, p, c0)
  {
    hide Bit, Free, Left;
    forall x: nat | c0 <= x < n
      ensures !Free(p, x)
    {
      ZeroBits(x);
    }
    LeftSkips(n, p, c0, n);
  }

  /** all lists the placements of n non-attacking queens, each once. */
  ghost predicate Lists(n: nat, all: seq<seq<int>>) {
    Distinct(all) && forall q :: q in all <==> |q| == n && NonAttacking(n, q)
  }

  /** There is such a list, and every such list has the same length. */
  lemma PlacementsListed(n: nat)
    ensures Lists(n, Completions(n, []))
    ensures forall all | Lists(n, all) :: |all| == |Completions(n, [])|
  {
    hide NonAttacking;
    var c := Completions(n, []);
    EmptyPlacement(n);
    CompletionsDistinct(n, []);
    forall q
      ensures q in c <==> |q| == n && NonAttacking(n, q)
    {
      CompletionsExact(n, [], q);
    }
    forall all | Lists(n, all)
      ensures |all| == |c|
    {
      DistinctCardinality(all);
      DistinctCardinality(c);
      assert (set q | q in all) == (set q | q in c);
    }
  }

  lemma EmptyPlacement(n: nat)
    ensures NonAttacking(n, [])
  {
  }

  /** queen.c:26-28: the answer is the number of placements of n non-attacking queens, modulo 2^32. */
  method Run(n: nat) returns (ans: nat)
    requires n <= 31
    ensures forall all | Lists(n, all) :: ans == |all| % W
  {
    EmptyMasks(n);
    ans := Dfs(n, 0, 0, 0, []);
    PlacementsListed(n);
  }

  lemma EmptyMasks(n: nat)
    ensures Masks(n, [], 0, 0, 0)
  {
    forall c: nat
      ensures !Bit(0, c)
    {
      ZeroBits(c);
    }
  }
}
