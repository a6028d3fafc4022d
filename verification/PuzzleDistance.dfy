/** Which boards have a Manhattan distance that fits the int8_t it is kept in (15pz/puzzle.h). */
module PuzzleDistance {
  import opened Bits
  import opened Perm
  import opened Puzzle

  /** How far line i is from a, lines being two apart or one. */
  function Off(a: int, two: bool, i: int): nat {
    Abs((if two then i + i else i) - a)
  }

  function Lines(a: int, two: bool, n: nat): nat {
    if n == 0 then 0 else Lines(a, two, n - 1) + Off(a, two, n - 1)
  }

  /** The same for rows and columns of cells 0 .. n - 1. */
  function GridSum(N: nat, a: int, two: bool, n: nat): nat
    requires N > 0
  {
    if n == 0 then 0 else GridSum(N, a, two, n - 1) + Off(a, two, (n - 1) / N) + Off(a, two, (n - 1) % N)
  }

  lemma GridCell(N: nat, a: int, two: bool, i: nat, j: nat)
    requires 0 <= j < N
    ensures N * i + j >= 0
    ensures GridSum(N, a, two, N * i + (j + 1)) == GridSum(N, a, two, N * i + j) + Off(a, two, i) + Off(a, two, j)
  {
    hide Off;
    MulDivMod(N * i + j, N, i, j);
  }

  /** i rows and j cells of the next. */
  lemma {:induction false} GridSumIs(N: nat, a: int, two: bool, i: nat, j: nat)
    requires N > 0 && j <= N
    ensures N * i + j >= 0
    ensures GridSum(N, a, two, N * i + j)
              == N * Lines(a, two, i) + i * Lines(a, two, N) + Off(a, two, i) * j + Lines(a, two, j)
    decreases i, j
  {
    hide Off, GridSum;
    if j > 0 {
      GridSumIs(N, a, two, i, j - 1);
      GridCell(N, a, two, i, j - 1);
      OneMore(Off(a, two, i), j);
    } else if i > 0 {
      GridSumIs(N, a, two, i - 1, N);
      OneMore(N, i);
      OneMoreRow(N, Lines(a, two, i - 1), Off(a, two, i - 1), i, Lines(a, two, N));
    } else {
      GridNone(N, a, two);
    }
  }

  lemma OneMore(x: int, j: int)
    ensures x * j == x * (j - 1) + x
  {
  }

  lemma OneMoreRow(N: int, x: int, o: int, i: int, y: int)
    ensures N * (x + o) + i * y == N * x + (i - 1) * y + o * N + y
  {
    OneMore(y, i);
    assert N * (x + o) == N * x + N * o;
  }

  /** How far cell x is from cell (2, 2). */
  function FromCentre(N: nat, x: int): nat
    requires N > 0
  {
    Off(2, false, x / N) + Off(2, false, x % N)
  }

  function CentreSum(N: nat, s: seq<int>): nat
    requires N > 0
  {
    if s == [] then 0 else CentreSum(N, s[..|s| - 1]) + FromCentre(N, s[|s| - 1])
  }

  lemma {:induction false} CentreSumSplit(N: nat, a: seq<int>, b: seq<int>)
    requires N > 0
    ensures CentreSum(N, a + b) == CentreSum(N, a) + CentreSum(N, b)
    decreases |b|
  {
    if b == [] {
      assert a + b == a;
    } else {
      assert (a + b)[..|a + b| - 1] == a + b[..|b| - 1];
      CentreSumSplit(N, a, b[..|b| - 1]);
    }
  }

  lemma GridNone(N: nat, a: int, two: bool)
    requires N > 0
    ensures GridSum(N, a, two, 0) == 0
  {
  }

  lemma GridStep(N: nat, n: nat)
    requires N > 0 && n > 0
    ensures GridSum(N, 2, false, n) == GridSum(N, 2, false, n - 1) + FromCentre(N, n - 1)
  {
    hide Off;
  }

  lemma WithoutLargest(s: seq<int>, j: nat)
    requires Distinct(s) && Within(s, |s|) && j < |s| && s[j] == |s| - 1
    ensures Distinct(s[..j] + s[j + 1..]) && Within(s[..j] + s[j + 1..], |s| - 1)
  {
    var rest := s[..j] + s[j + 1..];
    forall i, k | 0 <= i < k < |rest|
      ensures rest[i] != rest[k]
    {
      assert rest[i] == s[if i < j then i else i + 1] && rest[k] == s[if k < j then k else k + 1];
    }
    forall i | 0 <= i < |rest|
      ensures 0 <= rest[i] < |s| - 1
    {
      assert rest[i] == s[if i < j then i else i + 1];
    }
  }

  /** A permutation of the cells is as far from the centre as the cells. */
  lemma {:induction false} PermutedSum(N: nat, s: seq<int>)
    requires N > 0 && Distinct(s) && Within(s, |s|)
    ensures CentreSum(N, s) == GridSum(N, 2, false, |s|)
    decreases |s|
  {
    hide FromCentre, GridSum, Distinct, Within;
    GridNone(N, 2, false);
    if s != [] {
      var n := |s|;
      GridStep(N, n);
      Pigeonhole(s, n);
      assert n - 1 in s;
      var j :| 0 <= j < n && s[j] == n - 1;
      var front, back := s[..j], s[j + 1..];
      assert s == front + [n - 1] + back;
      CentreSumSplit(N, front + [n - 1], back);
      CentreSumSplit(N, front, [n - 1]);
      CentreSumSplit(N, front, back);
      WithoutLargest(s, j);
      PermutedSum(N, front + back);
      assert [n - 1][..0] == [];
    }
  }

  /** The home cells of the tiles, the blank's taken to be the last. */
  function Homes(N: nat, tiles: seq<int>): (r: seq<int>)
    ensures |r| == |tiles|
  {
    seq(|tiles|, k requires 0 <= k < |tiles| => if tiles[k] == 0 then N * N - 1 else tiles[k] - 1)
  }

  lemma HomesPermute(N: nat, tiles: seq<int>)
    requires |tiles| == N * N && Distinct(tiles) && Within(tiles, N * N)
    ensures Distinct(Homes(N, tiles)) && Within(Homes(N, tiles), N * N)
  {
  }

  /** From anywhere to home is no further than by way of the centre. */
  lemma Triangle(N: nat, t: int, k: nat)
    requires N > 0
    ensures Distance(N, t, k / N, k % N) <= FromCentre(N, k) + FromCentre(N, if t == 0 then N * N - 1 else t - 1)
  {
    if t != 0 {
      var i, j, u, v := k / N, k % N, (t - 1) / N, (t - 1) % N;
      assert Abs(u - i) <= Off(2, false, i) + Off(2, false, u);
      assert Abs(v - j) <= Off(2, false, j) + Off(2, false, v);
    }
  }

  lemma {:induction false} ByCentre(N: nat, tiles: seq<int>, k: nat)
    requires 0 < N && |tiles| == N * N && k <= |tiles|
    ensures DistanceSum(N, tiles, k) <= GridSum(N, 2, false, k) + CentreSum(N, Homes(N, tiles)[..k])
  {
    hide Distance, FromCentre, GridSum;
    if k == 0 {
      GridNone(N, 2, false);
    } else {
      ByCentre(N, tiles, k - 1);
      Triangle(N, tiles[k - 1], k - 1);
      GridStep(N, k);
      var h := Homes(N, tiles);
      assert h[..k][..k - 1] == h[..k - 1] && h[..k][k - 1] == h[k - 1];
    }
  }

  lemma CentreLines(N: nat)
    requires 0 < N <= 5
    ensures Lines(2, false, N) <= 6 && Lines(2, false, 0) == 0
  {
    assert Lines(2, false, 1) == 2 && Lines(2, false, 2) == 3 && Lines(2, false, 3) == 3 && Lines(2, false, 4) == 4
        && Lines(2, false, 5) == 6;
  }

  lemma SmallBoards(N: nat)
    requires 0 < N <= 5
    ensures GridSum(N, 2, false, N * N) <= 60
  {
    hide GridSum, Lines, Off;
    GridSumIs(N, 2, false, N, 0);
    CentreLines(N);
    MulMono(Lines(2, false, N), 6, N);
  }

  /** On boards up to 5 by 5 the stored distance is the real one. */
  lemma DistanceExact(N: nat, p: NPuzzle)
    requires Board(N, p)
    ensures N <= 5 ==> p.manhattan == Manhattan(N, p.tiles)
    ensures p.manhattan == Manhattan(N, p.tiles) <==> Manhattan(N, p.tiles) <= 127
  {
    Int8Below(Manhattan(N, p.tiles));
    if N <= 5 {
      var h := Homes(N, p.tiles);
      HomesPermute(N, p.tiles);
      ByCentre(N, p.tiles, N * N);
      PermutedSum(N, h);
      SmallBoards(N);
      assert h[..N * N] == h;
    }
  }

  lemma CellRange(N: nat, k: nat)
    requires 0 < N && k < N * N
    ensures 0 <= k / N < N && 0 <= k % N < N
  {
    QuotientBelow(k, N, N);
  }

  /** The blank first, then the tiles in descending order. */
  function Mirrored(N: nat): (r: seq<int>)
    ensures |r| == N * N
  {
    seq(N * N, k requires 0 <= k < N * N => if k == 0 then 0 else N * N - k)
  }

  /** Every tile is in the corner opposite to its home, so to speak. */
  lemma MirroredDistance(N: nat, k: nat)
    requires N > 0 && 0 < k < N * N
    ensures Distance(N, Mirrored(N)[k], k / N, k % N) == Off(N - 1, true, k / N) + Off(N - 1, true, k % N)
  {
    var i, j := k / N, k % N;
    CellRange(N, k);
    DivModBound(k, N);
    Opposite(N, i, j);
    MulDivMod(N * N - k - 1, N, N - 1 - i, N - 1 - j);
  }

  lemma Opposite(N: int, i: int, j: int)
    ensures N * N - (i * N + j) - 1 == (N - 1 - i) * N + (N - 1 - j)
  {
    assert (N - 1 - i) * N == N * N - N - i * N;
  }

  lemma {:induction false} MirroredSum(N: nat, k: nat)
    requires N > 0 && 0 < k <= N * N
    ensures DistanceSum(N, Mirrored(N), k) + 2 * (N - 1) == GridSum(N, N - 1, true, k)
    decreases k
  {
    hide Distance, Mirrored;
    MirroredBlank(N);
    if k == 1 {
      MulDivMod(0, N, 0, 0);
    } else {
      MirroredSum(N, k - 1);
      MirroredDistance(N, k - 1);
    }
  }

  lemma MirroredBlank(N: nat)
    requires N > 0
    ensures Mirrored(N)[0] == 0 && Distance(N, 0, 0, 0) == 0
  {
  }

  lemma FarLines(N: nat)
    requires 6 <= N <= 11
    ensures Lines(N - 1, true, N) >= 18
  {
    assert Lines(5, true, 6) == 18 && Lines(6, true, 7) == 24 && Lines(7, true, 8) == 32;
    assert Lines(8, true, 9) == 40 && Lines(9, true, 10) == 50 && Lines(10, true, 11) == 60;
  }

  /** From 6 by 6 on the mirrored board has a distance that does not fit. */
  lemma MirroredWraps(N: nat) returns (p: NPuzzle)
    requires 6 <= N <= 11
    ensures Board(N, p) && p.valid && p.manhattan != Manhattan(N, p.tiles)
  {
    hide DistanceSum, GridSum, Lines;
    var tiles := Mirrored(N);
    p := NPuzzle(true, 0, 0, Int8(Manhattan(N, tiles)), tiles);
    MulMono(6, N, N);
    MirroredSum(N, N * N);
    GridSumIs(N, N - 1, true, N, 0);
    NoLines(N - 1, true);
    FarLines(N);
    MulMono(18, Lines(N - 1, true, N), N);
    Int8Above(Manhattan(N, tiles));
  }

  lemma NoLines(a: int, two: bool)
    ensures Lines(a, two, 0) == 0
  {
  }

  lemma Int8Above(x: nat)
    ensures x > 127 ==> Int8(x) != x
  {
  }

  ghost predicate AllExact(N: nat) {
    forall p | Board(N, p) :: p.manhattan == Manhattan(N, p.tiles)
  }

  /** So the size of the board decides: every distance fits exactly up to 5 by 5 (boards have at most 128 cells). */
  lemma SizeDecides(N: nat)
    requires 0 < N && N * N <= 128
    ensures AllExact(N) <==> N <= 5
  {
    if N <= 5 {
      forall p | Board(N, p)
        ensures p.manhattan == Manhattan(N, p.tiles)
      {
        DistanceExact(N, p);
      }
    } else {
      if N >= 12 {
        MulMono(12, N, 12);
        MulMono(12, N, N);
        assert false;
      }
      var p := MirroredWraps(N);
    }
  }
}
