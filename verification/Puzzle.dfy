/** The sliding-tile puzzle (15pz/puzzle.h): moves, solvability, and the Manhattan lower bound. */
module Puzzle {
  import opened Bits
  import opened Perm
  import opened Inversions

  /** tiles holds puzzle[i][j] at N*i + j; zi, zj is where the blank is; manhattan is an int8_t. */
  datatype NPuzzle = NPuzzle(valid: bool, zi: int, zj: int, manhattan: int, tiles: seq<int>)

  datatype Direction = Up | Down | Left | Right

  /** The value an int8_t keeps. */
  function Int8(x: int): int {
    (x + 128) % 256 - 128
  }

  lemma Int8Sum(x: int, y: int)
    ensures Int8(Int8(x) + y) == Int8(x + y)
  {
    var q := (x + 128) / 256;
    assert x + 128 == 256 * q + (x + 128) % 256;
    assert x + y + 128 == 256 * q + (Int8(x) + y + 128);
  }

  function Abs(x: int): nat {
    if x < 0 then -x else x
  }

  /** How far tile t is from home when it stands in row i, column j; the blank does not count. */
  function Distance(N: nat, t: int, i: int, j: int): nat
    requires N > 0
  {
    if t == 0 then 0 else Abs((t - 1) / N - i) + Abs((t - 1) % N - j)
  }

  /** The sum over the first k cells. */
  function DistanceSum(N: nat, tiles: seq<int>, k: nat): nat
    requires N > 0 && k <= |tiles|
  {
    if k == 0 then 0 else DistanceSum(N, tiles, k - 1) + Distance(N, tiles[k - 1], (k - 1) / N, (k - 1) % N)
  }

  function Manhattan(N: nat, tiles: seq<int>): nat
    requires N > 0
  {
    DistanceSum(N, tiles, |tiles|)
  }

  /** A valid puzzle: a permutation of 0 .. N*N - 1 with the blank where it is said to be. */
  ghost predicate Board(N: nat, p: NPuzzle) {
    && N > 0 && |p.tiles| == N * N && Distinct(p.tiles) && Within(p.tiles, N * N)
    && 0 <= p.zi < N && 0 <= p.zj < N && Cell(N, p.zi, p.zj) < N * N && p.tiles[Cell(N, p.zi, p.zj)] == 0
    && p.manhattan == Int8(Manhattan(N, p.tiles))
  }

  ghost predicate Proper(N: nat, p: NPuzzle) {
    p.valid ==> Board(N, p)
  }

  function Cell(N: nat, i: nat, j: nat): nat {
    N * i + j
  }

  lemma CellBounds(N: nat, i: nat, j: nat)
    requires i < N && j < N
    ensures Cell(N, i, j) < N * N && Cell(N, i, j) / N == i && Cell(N, i, j) % N == j
  {
    MulMono(i + 1, N, N);
    CellOf(N, i, j);
  }

  lemma CellOf(N: nat, i: nat, j: nat)
    requires j < N
    ensures (N * i + j) / N == i && (N * i + j) % N == j
  {
    MulDivMod(N * i + j, N, i, j);
  }

  // ---------------------------------------------------------------- moves

  /** Where the blank goes: a tile moving up changes places with the blank above it. */
  function BlankRow(d: Direction, i: int): int {
    match d case Up => i + 1 case Down => i - 1 case _ => i
  }

  function BlankColumn(d: Direction, j: int): int {
    match d case Left => j + 1 case Right => j - 1 case _ => j
  }

  /** puzzle.h:168-201 */
  predicate Possible(N: nat, p: NPuzzle, d: Direction) {
    p.valid && match d
               case Up => p.zi != N - 1
               case Down => p.zi != 0
               case Left => p.zj != N - 1
               case Right => p.zj != 0
  }

  /** puzzle.h:203-305; the moved tile's distance changes in one coordinate only. */
  function Move(N: nat, p: NPuzzle, d: Direction): NPuzzle
    requires N > 0 && (p.valid ==> |p.tiles| == N * N && 0 <= p.zi < N && 0 <= p.zj < N)
  {
    if !p.valid then p
    else if !Possible(N, p, d) then p.(valid := false)
    else
      var i, j := BlankRow(d, p.zi), BlankColumn(d, p.zj);
      CellBounds(N, p.zi, p.zj);
      CellBounds(N, i, j);
      var t := p.tiles[Cell(N, i, j)];
      var change :=
        if d.Up? || d.Down? then Abs((t - 1) / N - p.zi) - Abs((t - 1) / N - i)
        else Abs((t - 1) % N - p.zj) - Abs((t - 1) % N - j);
      NPuzzle(true, i, j, Int8(p.manhattan + change), p.tiles[Cell(N, p.zi, p.zj) := t][Cell(N, i, j) := 0])
  }

  lemma {:induction false} SumUpdate(N: nat, tiles: seq<int>, a: nat, v: int, k: nat)
    requires N > 0 && a < |tiles| && k <= |tiles|
    ensures DistanceSum(N, tiles[a := v], k)
         == DistanceSum(N, tiles, k) + if a < k then Distance(N, v, a / N, a % N) - Distance(N, tiles[a], a / N, a % N)
             else 0
    decreases k
  {
    hide Distance;
    if k > 0 {
      SumUpdate(N, tiles, a, v, k - 1);
    }
  }

  /**
   * A move is an exchange of the blank with a neighbouring tile, which comes one step nearer home or goes one further.
   */
  lemma MoveExchanges(N: nat, p: NPuzzle, d: Direction)
    requires Board(N, p) && Possible(N, p, d)
    ensures Board(N, Move(N, p, d)) && Move(N, p, d).valid
    ensures Abs(Manhattan(N, Move(N, p, d).tiles) - Manhattan(N, p.tiles)) == 1
    ensures (var a, b := Cell(N, p.zi, p.zj), Cell(N, Move(N, p, d).zi, Move(N, p, d).zj);
             a != b && a < N * N && b < N * N && Move(N, p, d).tiles == Swap(p.tiles, a, b))
  {
    hide Distance, Int8, Manhattan;
    var r := Move(N, p, d);
    var i, j := BlankRow(d, p.zi), BlankColumn(d, p.zj);
    CellBounds(N, p.zi, p.zj);
    CellBounds(N, i, j);
    var a, b := Cell(N, p.zi, p.zj), Cell(N, i, j);
    var t := p.tiles[b];
    assert a != b;
    assert t != 0;
    MovedSum(N, p.tiles, a, b);
    OneStep(N, t, p.zi, p.zj, i, j);
    Int8Sum(Manhattan(N, p.tiles), Distance(N, t, p.zi, p.zj) - Distance(N, t, i, j));
    SwapDistinct(p.tiles, a, b);
    assert r.tiles == Swap(p.tiles, a, b);
    ChangeIs(N, p, d, i, j, t);
  }

  lemma MovedSum(N: nat, tiles: seq<int>, a: nat, b: nat)
    requires N > 0 && a < |tiles| && b < |tiles| && a != b && tiles[a] == 0
    ensures Manhattan(N, tiles[a := tiles[b]][b := 0])
         == Manhattan(N, tiles) + Distance(N, tiles[b], a / N, a % N) - Distance(N, tiles[b], b / N, b % N)
  {
    SumUpdate(N, tiles, a, tiles[b], |tiles|);
    SumUpdate(N, tiles[a := tiles[b]], b, 0, |tiles|);
  }

  lemma OneStep(N: nat, t: int, i: int, j: int, i': int, j': int)
    requires N > 0 && t != 0 && Abs(i - i') + Abs(j - j') == 1
    ensures Abs(Distance(N, t, i, j) - Distance(N, t, i', j')) == 1
  {
    var x, y := (t - 1) / N, (t - 1) % N;
    assert Distance(N, t, i, j) == Abs(x - i) + Abs(y - j);
    assert Distance(N, t, i', j') == Abs(x - i') + Abs(y - j');
  }

  lemma ChangeIs(N: nat, p: NPuzzle, d: Direction, i: nat, j: nat, t: int)
    requires Board(N, p) && Possible(N, p, d) && i == BlankRow(d, p.zi) && j == BlankColumn(d, p.zj)
    requires Cell(N, i, j) < N * N && t == p.tiles[Cell(N, i, j)] && t != 0
    ensures Move(N, p, d).manhattan == Int8(p.manhattan + (Distance(N, t, p.zi, p.zj) - Distance(N, t, i, j)))
  {
    hide Int8, Manhattan;
  }

  // ---------------------------------------------------------------- solvability

  /** puzzle.h:322-332: the blank counts as the largest tile. */
  function Entries(N: nat, tiles: seq<int>): (r: seq<int>)
    ensures |r| == |tiles|
  {
    seq(|tiles|, k requires 0 <= k < |tiles| => if tiles[k] == 0 then N * N else tiles[k])
  }

  /** Inversions plus the blank's distance from the last cell. */
  function Parity(N: nat, p: NPuzzle): int {
    Disorder(Entries(N, p.tiles)) + 2 * N - 2 - p.zi - p.zj
  }

  predicate Solvable(N: nat, p: NPuzzle) {
    p.valid && Parity(N, p) % 2 == 0
  }

  lemma EntriesDistinct(N: nat, tiles: seq<int>)
    requires Distinct(tiles) && Within(tiles, N * N)
    ensures Distinct(Entries(N, tiles))
  {
    var e := Entries(N, tiles);
    forall i, j | 0 <= i < j < |e|
      ensures e[i] != e[j]
    {
      assert tiles[i] != tiles[j];
    }
  }

  lemma EntriesSwap(N: nat, tiles: seq<int>, a: nat, b: nat)
    requires a < |tiles| && b < |tiles|
    ensures Entries(N, Swap(tiles, a, b)) == Swap(Entries(N, tiles), a, b) == Swap(Entries(N, tiles), b, a)
  {
  }

  lemma BoardFacts(N: nat, p: NPuzzle)
    requires Board(N, p)
    ensures N > 0 && |p.tiles| == N * N && 0 <= p.zi < N && 0 <= p.zj < N && Distinct(p.tiles) && Within(p.tiles, N * N)
  {
  }

  lemma BlankMoves(N: nat, p: NPuzzle, d: Direction)
    requires Board(N, p) && Possible(N, p, d)
    ensures Abs((Move(N, p, d).zi + Move(N, p, d).zj) - (p.zi + p.zj)) == 1 && p.valid && Move(N, p, d).valid
  {
    hide Int8, Manhattan, Cell;
  }

  lemma MoveKeepsSolvable(N: nat, p: NPuzzle, d: Direction)
    requires Board(N, p) && Possible(N, p, d)
    ensures Solvable(N, Move(N, p, d)) == Solvable(N, p)
  {
    hide Disorder, Move, Entries, Swap, Cell, Possible;
    BoardFacts(N, p);
    var r := Move(N, p, d);
    MoveExchanges(N, p, d);
    BlankMoves(N, p, d);
    var a, b := Cell(N, p.zi, p.zj), Cell(N, r.zi, r.zj);
    var e := Entries(N, p.tiles);
    EntriesDistinct(N, p.tiles);
    EntriesSwap(N, p.tiles, a, b);
    if a < b {
      SwapFlips(e, a, b);
    } else {
      SwapFlips(e, b, a);
    }
    BothChange(Disorder(Entries(N, r.tiles)), Disorder(e), r.zi, r.zj, p.zi, p.zj, N);
  }

  /** The inversions and the blank's distance change parity together. */
  lemma BothChange(x: nat, y: nat, i: int, j: int, i': int, j': int, N: nat)
    requires x % 2 != y % 2 && Abs((i + j) - (i' + j')) == 1
    ensures (x + 2 * N - 2 - i - j) % 2 == (y + 2 * N - 2 - i' - j') % 2
  {
    Halves(x - y, (i + j) - (i' + j'), y + 2 * N - 2 - i' - j');
  }

  lemma Halves(a: int, b: int, c: int)
    requires a % 2 != 0 && (b == 1 || b == -1)
    ensures (c + a - b) % 2 == c % 2
  {
    var k := (a - b) / 2;
    assert a - b == 2 * k;
  }

  // ---------------------------------------------------------------- sequences of moves

  /** Every move of ds is possible when it is made. */
  ghost predicate Legal(N: nat, p: NPuzzle, ds: seq<Direction>)
    requires Board(N, p)
    decreases |ds|
  {
    ds != [] ==>
      Possible(N, p, ds[0]) && (MoveExchanges(N, p, ds[0]); Legal(N, Move(N, p, ds[0]), ds[1..]))
  }

  ghost function After(N: nat, p: NPuzzle, ds: seq<Direction>): (r: NPuzzle)
    requires Board(N, p) && Legal(N, p, ds)
    ensures Board(N, r) && (ds != [] || p.valid ==> r.valid)
    decreases |ds|
  {
    if ds == [] then p else MoveExchanges(N, p, ds[0]); After(N, Move(N, p, ds[0]), ds[1..])
  }

  /** Solvability never changes, and the distance changes by at most one per move. */
  lemma {:induction false} MovesKeep(N: nat, p: NPuzzle, ds: seq<Direction>)
    requires Board(N, p) && p.valid && Legal(N, p, ds)
    ensures Solvable(N, After(N, p, ds)) == Solvable(N, p)
    ensures Abs(Manhattan(N, After(N, p, ds).tiles) - Manhattan(N, p.tiles)) <= |ds|
    decreases |ds|
  {
    hide Solvable, Manhattan, Possible, Board;
    if ds != [] {
      FirstMove(N, p, ds);
      MoveExchanges(N, p, ds[0]);
      MoveKeepsSolvable(N, p, ds[0]);
      MovesKeep(N, Move(N, p, ds[0]), ds[1..]);
    }
  }

  lemma FirstMove(N: nat, p: NPuzzle, ds: seq<Direction>)
    requires Board(N, p) && Legal(N, p, ds) && ds != []
    ensures N > 0 && Possible(N, p, ds[0]) && (p.valid ==> |p.tiles| == N * N && 0 <= p.zi < N && 0 <= p.zj < N)
  {
  }

  /** The tiles in order, the blank last. */
  function Home(N: nat): (r: seq<int>)
    ensures |r| == N * N
  {
    seq(N * N, k requires 0 <= k < N * N => if k == N * N - 1 then 0 else k + 1)
  }

  /** puzzle.h:463-474 */
  predicate Solved(N: nat, p: NPuzzle) {
    p.valid && |p.tiles| == N * N && forall k | 0 <= k < N * N :: p.tiles[k] == if k == N * N - 1 then 0 else k + 1
  }

  /** puzzle.h:360-362 */
  function LowerBound(N: nat, p: NPuzzle): int {
    if p.valid then p.manhattan else N * N * N
  }

  lemma {:induction false} HomeSum(N: nat, p: NPuzzle, k: nat)
    requires N > 0 && Solved(N, p) && k <= N * N
    ensures DistanceSum(N, p.tiles, k) == 0
  {
    if k > 0 {
      HomeSum(N, p, k - 1);
    }
  }

  /** Wrapping can only lower the bound. */
  lemma Int8Below(x: nat)
    ensures Int8(x) <= x && (x <= 127 ==> Int8(x) == x)
  {
  }

  /** The lower bound never exceeds the length of a sequence of moves that solves the puzzle. */
  lemma Admissible(N: nat, p: NPuzzle, ds: seq<Direction>)
    requires Board(N, p) && p.valid && Legal(N, p, ds) && Solved(N, After(N, p, ds))
    ensures LowerBound(N, p) <= |ds|
  {
    hide Solvable, Possible, Int8;
    MovesKeep(N, p, ds);
    HomeSum(N, After(N, p, ds), N * N);
    Int8Below(Manhattan(N, p.tiles));
  }

  /** A solved puzzle is solvable. */
  lemma SolvedIsSolvable(N: nat, p: NPuzzle)
    requires Board(N, p) && Solved(N, p)
    ensures Solvable(N, p)
  {
    hide Disorder, Manhattan, Int8;
    var e := Entries(N, p.tiles);
    assert forall k | 0 <= k < |e| :: e[k] == k + 1;
    SortedHasNone(e);
    BlankLast(N, p);
  }

  lemma BlankLast(N: nat, p: NPuzzle)
    requires Board(N, p) && p.tiles[N * N - 1] == 0
    ensures p.zi == N - 1 && p.zj == N - 1
  {
    hide Manhattan, Int8;
    CellBounds(N, p.zi, p.zj);
    CellBounds(N, N - 1, N - 1);
    assert Cell(N, p.zi, p.zj) == N * N - 1;
    assert N * (N - 1) + (N - 1) == N * N - 1;
  }

  /** No sequence of moves solves a puzzle that solvable() rejects. */
  lemma UnsolvableStays(N: nat, p: NPuzzle, ds: seq<Direction>)
    requires Board(N, p) && p.valid && Legal(N, p, ds) && !Solvable(N, p)
    ensures !Solved(N, After(N, p, ds))
  {
    hide Solvable, Solved, Possible;
    MovesKeep(N, p, ds);
    if Solved(N, After(N, p, ds)) {
      SolvedIsSolvable(N, After(N, p, ds));
      assert false;
    }
  }

  // ---------------------------------------------------------------- building and testing boards

  /** What the constructor has seen after n cells: the last blank, the running distance, the entries marked. */
  ghost predicate Read(N: nat, cells: seq<int>, n: nat, tiles: seq<int>, zi: int, zj: int, dist: int,
                       check: seq<bool>) {
    && N > 0 && n <= |cells| && |cells| == N * N && tiles == cells[..n] && dist == Int8(DistanceSum(N, cells, n))
    && |check| == N * N && (forall v | 0 <= v < N * N :: check[v] <==> v in cells[..n])
    && (0 in cells[..n] ==> BlankAt(N, cells, n, zi, zj))
  }

  ghost predicate BlankAt(N: nat, cells: seq<int>, n: nat, zi: int, zj: int) {
    0 <= zi < N && 0 <= zj < N && Cell(N, zi, zj) < n <= |cells| && cells[Cell(N, zi, zj)] == 0
  }

  lemma ReadCell(N: nat, cells: seq<int>, i: nat, j: nat, tiles: seq<int>, zi: int, zj: int, dist: int,
                 check: seq<bool>)
    requires i < N && j < N && Within(cells, N * N) && Read(N, cells, Cell(N, i, j), tiles, zi, zj, dist, check)
    requires Cell(N, i, j) < N * N
    ensures (var v := cells[Cell(N, i, j)];
             Read(N, cells, Cell(N, i, j) + 1, tiles + [v], if v == 0 then i else zi, if v == 0 then j else zj,
                  if v == 0 then dist else Int8(Int8(dist + Abs((v - 1) / N - i)) + Abs((v - 1) % N - j)),
                      check[v := true]))
  {
    hide Int8, DistanceSum, Abs, Cell;
    var n, v := Cell(N, i, j), cells[Cell(N, i, j)];
    CellBounds(N, i, j);
    assert cells[..n + 1] == cells[..n] + [v];
    SumCell(N, cells, i, j);
    if v != 0 {
      var x, y := Abs((v - 1) / N - i), Abs((v - 1) % N - j);
      Int8Sum(DistanceSum(N, cells, n), x);
      Int8Sum(DistanceSum(N, cells, n) + x, y);
    }
    MarkOne(cells[..n], v, check, N * N);
  }

  lemma SumCell(N: nat, cells: seq<int>, i: nat, j: nat)
    requires i < N && j < N && Cell(N, i, j) < |cells|
    ensures (var v, n := cells[Cell(N, i, j)], Cell(N, i, j);
             DistanceSum(N, cells, n + 1) == DistanceSum(N, cells, n) + if v == 0 then 0
                 else Abs((v - 1) / N - i) + Abs((v - 1) % N - j))
  {
    CellBounds(N, i, j);
  }

  lemma MarkOne(s: seq<int>, v: int, check: seq<bool>, m: nat)
    requires |check| == m && 0 <= v < m && forall w | 0 <= w < m :: check[w] <==> w in s
    ensures forall w | 0 <= w < m :: check[v := true][w] <==> w in s + [v]
  {
  }

  /** puzzle.h:78-115: the board is valid exactly when the entries are a permutation. */
  method Make(N: nat, cells: seq<int>) returns (p: NPuzzle)
    requires N > 0 && |cells| == N * N <= 128 && Within(cells, N * N)
    ensures p.tiles == cells && Proper(N, p)
    ensures p.valid <==> Distinct(cells)
  {
    hide Read, DistanceSum, Board, Int8, Cell;
    var valid, dist, zi, zj := true, 0, 0, 0;
    var check := seq(N * N, _ => false);
    var tiles := [];
    var n, i := 0, 0;
    ReadStart(N, cells);
    while i < N
      invariant 0 <= i <= N && n == N * i && n <= N * N && Read(N, cells, n, tiles, zi, zj, dist, check)
    {
      var j := 0;
      while j < N
        invariant 0 <= j <= N && n == N * i + j && n <= N * N && Read(N, cells, n, tiles, zi, zj, dist, check)
      {
        CellIs(N, i, j);
        ReadCell(N, cells, i, j, tiles, zi, zj, dist, check);
        var v := cells[n];
        ReadLength(N, cells, n, tiles, zi, zj, dist, check);
        tiles := tiles + [v];
        check := check[v := true];
        if v == 0 {
          zi, zj := i, j;
        } else {
          dist := Int8(dist + Abs((v - 1) / N - i));
          dist := Int8(dist + Abs((v - 1) % N - j));
        }
        n := n + 1;
        j := j + 1;
      }
      NextRow(N, i);
      i := i + 1;
    }
    ReadLength(N, cells, n, tiles, zi, zj, dist, check);
    var k := 0;
    while k < N * N
      invariant 0 <= k <= N * N && |check| == N * N && forall v | 0 <= v < k :: check[v]
    {
      if !check[k] {
        MissingEntry(N, cells, n, tiles, zi, zj, dist, check, k);
        return NPuzzle(false, zi, zj, dist, tiles);
      }
      k := k + 1;
    }
    AllPresent(N, cells, tiles, zi, zj, dist, check);
    p := NPuzzle(true, zi, zj, dist, tiles);
  }

  lemma CellIs(N: nat, i: nat, j: nat)
    requires i < N && j < N
    ensures Cell(N, i, j) == N * i + j < N * N
  {
    CellBounds(N, i, j);
  }

  lemma NextRow(N: nat, i: nat)
    ensures N * i + N == N * (i + 1)
  {
  }

  lemma ReadStart(N: nat, cells: seq<int>)
    requires N > 0 && |cells| == N * N
    ensures Read(N, cells, 0, [], 0, 0, 0, seq(N * N, _ => false))
  {
  }

  lemma ReadLength(N: nat, cells: seq<int>, n: nat, tiles: seq<int>, zi: int, zj: int, dist: int, check: seq<bool>)
    requires Read(N, cells, n, tiles, zi, zj, dist, check)
    ensures |check| == N * N && |tiles| == n <= |cells|
  {
  }

  lemma MissingEntry(N: nat, cells: seq<int>, n: nat, tiles: seq<int>, zi: int, zj: int, dist: int, check: seq<bool>,
                     k: nat)
    requires Read(N, cells, n, tiles, zi, zj, dist, check) && n == N * N && k < N * N && |check| == N * N && !check[k]
    requires Within(cells, N * N)
    ensures tiles == cells && !Distinct(cells)
  {
    assert cells[..n] == cells;
    if Distinct(cells) {
      Pigeonhole(cells, N * N);
      assert false;
    }
  }

  lemma AllPresent(N: nat, cells: seq<int>, tiles: seq<int>, zi: int, zj: int, dist: int, check: seq<bool>)
    requires Read(N, cells, N * N, tiles, zi, zj, dist, check) && |check| == N * N
             && forall v | 0 <= v < N * N :: check[v]
    ensures tiles == cells && Distinct(cells) && Board(N, NPuzzle(true, zi, zj, dist, tiles))
  {
    hide Int8, DistanceSum;
    assert cells[..N * N] == cells;
    CoverExactly(cells, N * N);
    assert N * N > 0;
    assert 0 in cells;
  }

  /** puzzle.h:334-342: the double loop counts the inversions. */
  method CountInversions(e: seq<int>) returns (parity: nat)
    ensures parity == Disorder(e)
  {
    parity := 0;
    var i := 0;
    while i < |e|
      invariant 0 <= i <= |e| && parity + Disorder(e[i..]) == Disorder(e)
    {
      var j := i + 1;
      ghost var before := parity;
      assert e[i..][1..] == e[i + 1..];
      while j < |e|
        invariant i < j <= |e| && parity + Smaller(e[i], e[j..]) == before + Smaller(e[i], e[i + 1..])
      {
        assert e[j..][1..] == e[j + 1..];
        if e[i] > e[j] {
          parity := parity + 1;
        }
        j := j + 1;
      }
      i := i + 1;
    }
  }

  /** puzzle.h:316-347 */
  method IsSolvable(N: nat, p: NPuzzle) returns (r: bool)
    requires Proper(N, p)
    ensures r == Solvable(N, p)
  {
    if !p.valid {
      return false;
    }
    var entries := Entries(N, p.tiles);
    var parity := CountInversions(entries);
    r := (parity + 2 * N - 2 - p.zi - p.zj) % 2 == 0;
  }

  /** puzzle.h:463-474 */
  method Solution(N: nat) returns (p: NPuzzle)
    requires 0 < N && N * N <= 128
    ensures Board(N, p) && Solved(N, p) && Solvable(N, p) && Manhattan(N, p.tiles) == 0
  {
    hide DistanceSum, Int8, Cell, Solvable;
    var cells := Home(N);
    p := Make(N, cells);
    HomeSum(N, p, N * N);
    SolvedIsSolvable(N, p);
  }
}
