/** What lower_bound() returns: the distance of the tiles from home, tile by tile (15pz/puzzle.h). */
module PuzzleBound {
  import opened Bits
  import opened Perm
  import opened Puzzle
  import opened PuzzleDistance

  /** Rows and columns from cell k to cell h. */
  function Apart(N: nat, k: nat, h: nat): nat
    requires N > 0
  {
    Abs(k / N - h / N) + Abs(k % N - h % N)
  }

  /** The cell in which tile t lies. */
  ghost function Where(tiles: seq<int>, t: int): (k: nat)
    requires t in tiles
    ensures k < |tiles| && tiles[k] == t
  {
    var k :| 0 <= k < |tiles| && tiles[k] == t;
    k
  }

  /** How far tiles 1 .. m are from their homes, tile t's home being cell t - 1. */
  ghost function TileSum(N: nat, tiles: seq<int>, m: nat): nat
    requires N > 0 && forall t | 1 <= t <= m :: t in tiles
  {
    if m == 0 then 0 else TileSum(N, tiles, m - 1) + Apart(N, Where(tiles, m), m - 1)
  }

  /** The same for the tiles among these that lie in the first k cells. */
  ghost function CellSum(N: nat, tiles: seq<int>, k: nat, m: nat): nat
    requires N > 0 && k <= |tiles|
  {
    if k == 0 then 0
    else CellSum(N, tiles, k - 1, m) + if 1 <= tiles[k - 1] <= m then Apart(N, k - 1, tiles[k - 1] - 1) else 0
  }

  lemma {:induction false} OneTile(N: nat, tiles: seq<int>, k: nat, m: nat)
    requires N > 0 && k <= |tiles| && m > 0 && m in tiles && Distinct(tiles)
    ensures CellSum(N, tiles, k, m)
         == CellSum(N, tiles, k, m - 1) + if Where(tiles, m) < k then Apart(N, Where(tiles, m), m - 1) else 0
    decreases k
  {
    hide Apart;
    if k > 0 {
      OneTile(N, tiles, k - 1, m);
    }
  }

  lemma {:induction false} NoTiles(N: nat, tiles: seq<int>, k: nat)
    requires N > 0 && k <= |tiles|
    ensures CellSum(N, tiles, k, 0) == 0
    decreases k
  {
    if k > 0 {
      NoTiles(N, tiles, k - 1);
    }
  }

  lemma {:induction false} ByTile(N: nat, tiles: seq<int>, m: nat)
    requires N > 0 && Distinct(tiles) && forall t | 1 <= t <= m :: t in tiles
    ensures CellSum(N, tiles, |tiles|, m) == TileSum(N, tiles, m)
    decreases m
  {
    hide Apart;
    if m == 0 {
      NoTiles(N, tiles, |tiles|);
    } else {
      OneTile(N, tiles, |tiles|, m);
      ByTile(N, tiles, m - 1);
    }
  }

  lemma {:induction false} ByCell(N: nat, tiles: seq<int>, k: nat, m: nat)
    requires N > 0 && k <= |tiles| && forall i | 0 <= i < |tiles| :: 0 <= tiles[i] <= m
    ensures DistanceSum(N, tiles, k) == CellSum(N, tiles, k, m)
    decreases k
  {
    if k > 0 {
      ByCell(N, tiles, k - 1, m);
    }
  }

  /** Every tile is on a board. */
  lemma AllTiles(N: nat, p: NPuzzle)
    requires Board(N, p)
    ensures N * N > 0 && forall t | 0 <= t < N * N :: t in p.tiles
  {
    Pigeonhole(p.tiles, N * N);
    MulMono(1, N, N);
  }

  lemma ManhattanIs(N: nat, p: NPuzzle)
    requires Board(N, p)
    ensures N * N > 0 && (forall t | 1 <= t <= N * N - 1 :: t in p.tiles)
    ensures Manhattan(N, p.tiles) == TileSum(N, p.tiles, N * N - 1)
  {
    hide Int8, DistanceSum;
    AllTiles(N, p);
    ByCell(N, p.tiles, |p.tiles|, N * N - 1);
    ByTile(N, p.tiles, N * N - 1);
  }

  lemma {:induction false} NoneAway(N: nat, tiles: seq<int>, k: nat, i: nat)
    requires N > 0 && i < k <= |tiles| && DistanceSum(N, tiles, k) == 0
    ensures Distance(N, tiles[i], i / N, i % N) == 0
    decreases k
  {
    hide Distance;
    if i < k - 1 {
      NoneAway(N, tiles, k - 1, i);
    }
  }

  lemma AtHome(N: nat, t: int, k: nat)
    requires N > 0 && t > 0 && Distance(N, t, k / N, k % N) == 0
    ensures t == k + 1
  {
    DivModBound(k, N);
    DivModBound(t - 1, N);
  }

  /** The distance is 0 on the solved board only. */
  lemma NoDistance(N: nat, p: NPuzzle)
    requires Board(N, p) && p.valid
    ensures Manhattan(N, p.tiles) == 0 <==> Solved(N, p)
  {
    hide Distance, DistanceSum, Int8;
    if Manhattan(N, p.tiles) == 0 {
      AllTiles(N, p);
      forall k | 0 <= k < N * N && p.tiles[k] != 0
        ensures p.tiles[k] == k + 1
      {
        NoneAway(N, p.tiles, N * N, k);
        AtHome(N, p.tiles[k], k);
      }
      assert p.tiles[N * N - 1] == 0;
    }
    if Solved(N, p) {
      HomeSum(N, p, N * N);
    }
  }

  /**
   * puzzle.h:360-362: the tiles' distances from home, as an int8_t keeps them; exactly where they are at most 127,
   * which up to 5 by 5 is always so, and then 0 on the solved board only.
   */
  lemma BoundIs(N: nat, p: NPuzzle)
    requires Board(N, p) && p.valid
    ensures N * N > 0 && (forall t | 1 <= t <= N * N - 1 :: t in p.tiles)
    ensures LowerBound(N, p) == Int8(TileSum(N, p.tiles, N * N - 1))
    ensures LowerBound(N, p) == TileSum(N, p.tiles, N * N - 1) <==> TileSum(N, p.tiles, N * N - 1) <= 127
    ensures N <= 5 ==> TileSum(N, p.tiles, N * N - 1) <= 127
    ensures TileSum(N, p.tiles, N * N - 1) <= 127 ==> (LowerBound(N, p) == 0 <==> Solved(N, p))
  {
    hide DistanceSum, Int8, Solved, TileSum;
    ManhattanIs(N, p);
    DistanceExact(N, p);
    NoDistance(N, p);
  }

  lemma BoundOfInvalid(N: nat, p: NPuzzle)
    requires !p.valid
    ensures LowerBound(N, p) == N * N * N
  {
  }

  /**
   * Every move changes the bound by exactly 1, unless it takes the distance across 127, which up to 5 by 5 none does.
   */
  lemma MoveBound(N: nat, p: NPuzzle, d: Direction)
    requires Board(N, p) && Possible(N, p, d)
    ensures N <= 5 || (Manhattan(N, p.tiles) <= 127 && Manhattan(N, Move(N, p, d).tiles) <= 127) ==>
              Abs(LowerBound(N, Move(N, p, d)) - LowerBound(N, p)) == 1
  {
    hide Manhattan, Int8, Move;
    MoveExchanges(N, p, d);
    DistanceExact(N, p);
    DistanceExact(N, Move(N, p, d));
    assert p.valid;
  }
}
