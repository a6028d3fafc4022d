/** Every board that solvable() accepts can be solved (15pz/puzzle.h): three tiles are turned at a time. */
module PuzzleSolvable {
  import opened Bits
  import opened Perm
  import opened Inversions
  import opened Puzzle
  import opened ThreeCycles
  import opened PuzzleSnake

  // ---------------------------------------------------------------- turning three tiles

  /** Whatever the order of the tiles, those at x, y, z can be turned. */
  ghost predicate Can(N: nat, x: nat, y: nat, z: nat) {
    x < N * N - 1 && y < N * N - 1 && z < N * N - 1 && Apart(x, y, z)
    && forall w | |w| == N * N - 1 :: CanTurn(N, w, x, y, z)
  }

  ghost predicate CanTurn(N: nat, w: seq<int>, x: nat, y: nat, z: nat) {
    x < |w| && y < |w| && z < |w| && WordLeads(N, w, Turn(w, x, y, z))
  }

  /**
   * A jump at a turn of the snake and the one inside it back: the first and the last two of the tiles between are
   * turned.
   */
  lemma TurnCan(N: nat, i: nat, m: nat, c: nat)
    requires i + 1 < N && 1 <= m < N && c == N * (i + 1)
    ensures c - 1 - m >= 0 && Can(N, c - 1 - m, c + m - 2, c + m - 1)
  {
    hide WordLeads, Beside;
    BesideTurn(N, i, m, c);
    BesideTurn(N, i, m - 1, c);
    var a, b := c - 1 - m, c + m;
    forall w | |w| == N * N - 1
      ensures CanTurn(N, w, a, b - 2, b - 1)
    {
      var f := Forward(w, a, b);
      Jumps(N, w, a, b);
      Jumps(N, f, a + 1, b - 1);
      assert Backward(f, a + 1, b - 1) == Turn(w, a, b - 2, b - 1);
      WordTrans(N, w, f, Turn(w, a, b - 2, b - 1));
    }
  }

  lemma CanTurned(N: nat, x: nat, y: nat, z: nat)
    requires Can(N, x, y, z)
    ensures Can(N, y, z, x) && Can(N, x, z, y)
  {
    hide CanTurn, Turn;
    forall w | |w| == N * N - 1
      ensures CanTurn(N, w, y, z, x) && CanTurn(N, w, x, z, y)
    {
      TurnedAt(N, x, y, z, w);
    }
  }

  lemma TurnedAt(N: nat, x: nat, y: nat, z: nat, w: seq<int>)
    requires Can(N, x, y, z) && |w| == N * N - 1
    ensures CanTurn(N, w, y, z, x) && CanTurn(N, w, x, z, y)
  {
    hide Can, WordLeads, Turn;
    CanAt(N, x, y, z, w);
    var v := Turn(w, x, y, z);
    TurnBack(w, x, y, z);
    CanAt(N, x, y, z, v);
    WordTrans(N, w, v, Turn(v, x, y, z));
  }

  lemma CanAll(N: nat, x: nat, y: nat, z: nat)
    requires Can(N, x, y, z)
    ensures Can(N, x, z, y) && Can(N, y, x, z) && Can(N, y, z, x) && Can(N, z, x, y) && Can(N, z, y, x)
  {
    hide Can;
    CanTurned(N, x, y, z);
    CanTurned(N, y, z, x);
    CanTurned(N, z, x, y);
  }

  lemma CanAt(N: nat, x: nat, y: nat, z: nat, w: seq<int>)
    requires Can(N, x, y, z) && |w| == N * N - 1
    ensures x < |w| && y < |w| && z < |w| && Apart(x, y, z) && WordLeads(N, w, Turn(w, x, y, z))
  {
    hide WordLeads, Turn;
    assert CanTurn(N, w, x, y, z);
  }

  /** One turn after another, after a third. */
  lemma CanThree(N: nat, w: seq<int>, w1: seq<int>, w2: seq<int>, w3: seq<int>)
    requires WordLeads(N, w, w1) && WordLeads(N, w1, w2) && WordLeads(N, w2, w3)
    ensures WordLeads(N, w, w3)
  {
    hide WordLeads;
    WordTrans(N, w, w1, w2);
    WordTrans(N, w, w2, w3);
  }

  lemma TwoAt(N: nat, a: nat, b: nat, c: nat, d: nat, w: seq<int>)
    requires Can(N, a, b, c) && Can(N, a, b, d) && c != d && |w| == N * N - 1
    ensures CanTurn(N, w, b, c, d) && Apart(b, c, d) && b < |w| && c < |w| && d < |w|
  {
    hide Can, WordLeads, Turn;
    CanAll(N, a, b, c);
    CanAt(N, a, c, b, w);
    var w1 := Turn(w, a, c, b);
    CanAt(N, a, b, d, w1);
    var w2 := Turn(w1, a, b, d);
    CanAt(N, a, b, c, w2);
    ConjugateTwo(w, a, b, c, d);
    CanThree(N, w, w1, w2, Turn(w2, a, b, c));
  }

  /** Turns that share two places. */
  lemma CanTwo(N: nat, a: nat, b: nat, c: nat, d: nat)
    requires Can(N, a, b, c) && Can(N, a, b, d) && c != d
    ensures Can(N, b, c, d)
  {
    hide CanTurn, Turn;
    forall w | |w| == N * N - 1
      ensures CanTurn(N, w, b, c, d)
    {
      TwoAt(N, a, b, c, d, w);
    }
  }

  lemma OneAt(N: nat, p: nat, r: nat, q: nat, u: nat, v: nat, w: seq<int>)
    requires Can(N, p, r, q) && Can(N, r, u, v) && u != p && u != q && v != p && v != q && |w| == N * N - 1
    ensures CanTurn(N, w, p, u, q) && Apart(p, u, q) && p < |w| && u < |w| && q < |w|
  {
    hide Can, WordLeads, Turn;
    CanAll(N, r, u, v);
    CanAt(N, r, v, u, w);
    var w1 := Turn(w, r, v, u);
    CanAt(N, p, r, q, w1);
    var w2 := Turn(w1, p, r, q);
    CanAt(N, r, u, v, w2);
    ConjugateOne(w, p, r, q, u, v);
    CanThree(N, w, w1, w2, Turn(w2, r, u, v));
  }

  /** Turns that share one place. */
  lemma CanOne(N: nat, p: nat, r: nat, q: nat, u: nat, v: nat)
    requires Can(N, p, r, q) && Can(N, r, u, v) && u != p && u != q && v != p && v != q
    ensures Can(N, p, u, q)
  {
    hide CanTurn, Turn;
    forall w | |w| == N * N - 1
      ensures CanTurn(N, w, p, u, q)
    {
      OneAt(N, p, r, q, u, v, w);
    }
  }

  /** Any three places from lo on and before hi can be turned. */
  ghost predicate Full(N: nat, lo: nat, hi: nat) {
    forall x, y, z | lo <= x < hi && lo <= y < hi && lo <= z < hi && Apart(x, y, z) :: Can(N, x, y, z)
  }

  /** The turns that share two places s, t yield all turns. */
  lemma Star(N: nat, lo: nat, hi: nat, s: nat, t: nat)
    requires lo <= s < hi && lo <= t < hi && s != t
    requires forall u | lo <= u < hi && u != s && u != t :: Can(N, s, t, u)
    ensures Full(N, lo, hi)
  {
    hide Can;
    forall u, v | lo <= u < hi && lo <= v < hi && Apart(s, u, v)
      ensures Can(N, s, u, v)
    {
      if u == t {
      } else if v == t {
        CanAll(N, s, t, u);
      } else {
        CanAll(N, s, t, u);
        CanAll(N, s, t, v);
        CanTwo(N, t, s, u, v);
      }
    }
    forall x, y, z | lo <= x < hi && lo <= y < hi && lo <= z < hi && Apart(x, y, z)
      ensures Can(N, x, y, z)
    {
      if x == s {
      } else if y == s {
        CanAll(N, s, z, x);
      } else if z == s {
        CanAll(N, s, x, y);
      } else {
        CanTwo(N, s, x, y, z);
      }
    }
  }

  /** Around one turn of the snake, from the inside out. */
  lemma {:induction false} TurnFull(N: nat, i: nat, m: nat, c: nat)
    requires i + 1 < N && 1 <= m < N && c == N * (i + 1)
    ensures c - 1 - m >= 0 && Full(N, c - 1 - m, c + m)
    decreases m
  {
    hide Can;
    TurnCan(N, i, m, c);
    var p, r, q := c - 1 - m, c + m - 2, c + m - 1;
    CanAll(N, p, r, q);
    if m > 1 {
      TurnFull(N, i, m - 1, c);
    }
    forall u | p <= u < q + 1 && u != p && u != q
      ensures Can(N, p, q, u)
    {
      if u != r {
        var v := if u == c - 1 then c - 2 else c - 1;
        assert Apart(r, u, v);
        CanOne(N, p, r, q, u, v);
        CanAll(N, p, u, q);
      }
    }
    Star(N, p, q + 1, p, q);
  }

  /** Turn after turn, to the end of the board. */
  lemma {:induction false} RowsFull(N: nat, i: nat, c: nat)
    requires i + 1 < N && c == N * (i + 1)
    ensures Full(N, 0, c + N - 1)
    decreases i
  {
    hide Can;
    TurnFull(N, i, N - 1, c);
    if i > 0 {
      RowsFull(N, i - 1, c - N);
      Star(N, 0, c + N - 1, c - N, c - N + 1);
    }
  }

  lemma AllTurns(N: nat, x: nat, y: nat, z: nat)
    requires N >= 2 && x < N * N - 1 && y < N * N - 1 && z < N * N - 1 && Apart(x, y, z)
    ensures Can(N, x, y, z)
  {
    hide Can;
    RowsFull(N, N - 2, N * (N - 1));
  }

  // ---------------------------------------------------------------- putting the tiles in order

  /** w lists every tile once. */
  ghost predicate Word(N: nat, w: seq<int>) {
    |w| == N * N - 1 && Distinct(w) && forall k | 0 <= k < |w| :: 1 <= w[k] < N * N
  }

  lemma WordHolds(N: nat, w: seq<int>, v: int)
    requires Word(N, w) && 1 <= v < N * N
    ensures v in w
  {
    var s := [0] + w;
    assert forall k | 1 <= k < |s| :: s[k] == w[k - 1];
    Pigeonhole(s, N * N);
    assert v in s;
  }

  ghost predicate Agree(w: seq<int>, g: seq<int>, k: nat) {
    |w| == |g| && forall i | k <= i < |w| :: w[i] == g[i]
  }

  /** From the last place down, each tile is fetched by a turn that leaves the places behind it alone. */
  lemma {:induction false} Arrange(N: nat, w: seq<int>, g: seq<int>, k: nat) returns (v: seq<int>)
    requires N >= 2 && Word(N, w) && Word(N, g) && 2 <= k <= |w| && Agree(w, g, k)
    ensures WordLeads(N, w, v) && Word(N, v) && Agree(v, g, 2)
    decreases k
  {
    hide Can, WordLeads;
    if k == 2 {
      WordSame(N, w);
      return w;
    }
    var j := Fetch(N, w, g, k);
    if j == k - 1 {
      v := Arrange(N, w, g, k - 1);
    } else {
      var h := if j == 0 then 1 else 0;
      AllTurns(N, j, k - 1, h);
      CanAt(N, j, k - 1, h, w);
      var u := Turn(w, j, k - 1, h);
      TurnDistinct(w, j, k - 1, h);
      v := Arrange(N, u, g, k - 1);
      WordTrans(N, w, u, v);
    }
  }

  lemma WordSame(N: nat, w: seq<int>)
    requires |w| == N * N - 1
    ensures WordLeads(N, w, w)
  {
    hide SnakeLeads;
    SnakeSame(N, Insert(w, 0));
  }

  /** The tile wanted at place k - 1 is there or further in front. */
  lemma Fetch(N: nat, w: seq<int>, g: seq<int>, k: nat) returns (j: nat)
    requires Word(N, w) && Word(N, g) && 2 < k <= |w| && Agree(w, g, k)
    ensures j < k && w[j] == g[k - 1] && (j == k - 1 ==> Agree(w, g, k - 1))
  {
    WordHolds(N, w, g[k - 1]);
    j :| 0 <= j < |w| && w[j] == g[k - 1];
    if j >= k {
      assert false;
    }
  }

  /** Two orders that agree but for the first two tiles. */
  lemma FirstTwo(N: nat, v: seq<int>, g: seq<int>)
    requires N >= 2 && Word(N, v) && Word(N, g) && Agree(v, g, 2)
    ensures v == g || v == Swap(g, 0, 1)
  {
    assert |v| == |g| >= 3;
    forall i | 0 <= i < 2
      ensures v[i] == g[0] || v[i] == g[1]
    {
      WordHolds(N, g, v[i]);
      var j :| 0 <= j < |g| && g[j] == v[i];
      if j >= 2 {
        assert false;
      }
    }
    assert v[0] != v[1];
  }

  /** The order of the tiles of a board along the snake, and the blank's place. */
  lemma ReadSnake(N: nat, t: seq<int>, c: nat) returns (w: seq<int>, b: nat)
    requires |t| == N * N && Distinct(t) && Within(t, N * N) && c < N * N && t[c] == 0
    ensures b == Snake(N, c) < N * N && Word(N, w) && Lay(N, Insert(w, b)) == t
  {
    hide Snake, Insert, Word, Distinct;
    SnakeTwice(N, c);
    b := Snake(N, c);
    var L := Lay(N, t);
    LayTwice(N, t);
    LayDistinct(N, t);
    w := WithoutBlank(N, L, b);
  }

  lemma WithoutBlank(N: nat, L: seq<int>, b: nat) returns (w: seq<int>)
    requires |L| == N * N && Distinct(L) && Within(L, N * N) && b < N * N && L[b] == 0
    ensures Word(N, w) && Insert(w, b) == L
  {
    w := L[..b] + L[b + 1..];
    assert forall k | 0 <= k < |w| :: w[k] == L[if k < b then k else k + 1];
    assert forall k | 0 <= k < |L| && k != b :: L[k] != L[b];
  }

  lemma LayTwice(N: nat, t: seq<int>)
    requires |t| == N * N
    ensures Lay(N, Lay(N, t)) == t
  {
    hide Snake;
    forall c | 0 <= c < N * N
      ensures Lay(N, Lay(N, t))[c] == t[c]
    {
      SnakeTwice(N, c);
    }
  }

  lemma LayDistinct(N: nat, t: seq<int>)
    requires |t| == N * N && Distinct(t) && Within(t, N * N)
    ensures Distinct(Lay(N, t)) && Within(Lay(N, t), N * N)
  {
    hide Snake;
    var L := Lay(N, t);
    forall i, j | 0 <= i < j < |L|
      ensures L[i] != L[j]
    {
      SnakeTwice(N, i);
      SnakeTwice(N, j);
    }
  }

  // ---------------------------------------------------------------- solvable boards are solved

  /** The solved board with two tiles exchanged is rejected. */
  lemma OddBoard(N: nat, q: NPuzzle, x: nat, y: nat)
    requires Board(N, q) && x < y < N * N - 1 && q.tiles == Swap(Home(N), x, y)
    ensures !Solvable(N, q)
  {
    hide Disorder, Manhattan, Int8, Cell;
    var e := Entries(N, Home(N));
    assert forall k | 0 <= k < |e| :: e[k] == k + 1;
    SortedHasNone(e);
    EntriesSwap(N, Home(N), x, y);
    SwapFlips(e, x, y);
    BlankLast(N, q);
  }

  /** Away from the blank's last row, exchanging the first two tiles exchanges two cells. */
  lemma FirstTwoCells(N: nat, g: seq<int>, b: nat) returns (x: nat, y: nat)
    requires N >= 2 && Word(N, g) && b == Snake(N, N * N - 1) < N * N && Lay(N, Insert(g, b)) == Home(N)
    ensures x < y < N * N - 1 && Lay(N, Insert(Swap(g, 0, 1), b)) == Swap(Home(N), x, y)
  {
    LastPlace(N);
    LaySwap(N, Insert(g, b), 0, 1);
    assert Insert(Swap(g, 0, 1), b) == Swap(Insert(g, b), 0, 1);
    x, y := 0, 1;
  }

  lemma LastPlace(N: nat)
    requires N >= 2
    ensures N * N >= 4 && Snake(N, 0) == 0 && Snake(N, 1) == 1 && 2 <= Snake(N, N * N - 1) < N * N
  {
    MulMono(2, N, N);
    CellOf(N, 0, 0);
    CellOf(N, 0, 1);
    assert Cell(N, N - 1, N - 1) == N * N - 1;
    SnakeCell(N, N - 1, N - 1);
    MulMono(1, N - 1, N);
  }

  /** The order of the tiles on the solved board. */
  lemma GoalWord(N: nat) returns (g: seq<int>, b: nat)
    requires N >= 2
    ensures b == Snake(N, N * N - 1) < N * N && Word(N, g) && Lay(N, Insert(g, b)) == Home(N)
  {
    hide Snake, Lay, Insert;
    g, b := ReadSnake(N, Home(N), N * N - 1);
  }

  /** Some reachable board shows the solved one, but perhaps for the first two tiles. */
  lemma Ordered(N: nat, p: NPuzzle, g: seq<int>, b: nat) returns (q: NPuzzle, v: seq<int>)
    requires N >= 2 && Board(N, p) && p.valid && Word(N, g) && b < N * N
    ensures Reach(N, p, q) && Board(N, q) && q.valid && Word(N, v) && Agree(v, g, 2)
    ensures q.tiles == Lay(N, Insert(v, b))
  {
    hide Snake, Lay, Insert, Reach, Board, Cell, Leads;
    BlankIs(N, p);
    var w, a := ReadSnake(N, p.tiles, Cell(N, p.zi, p.zj));
    v := Arrange(N, w, g, |w|);
    Slide(N, w, a, 0);
    Slide(N, v, 0, b);
    SnakeTrans(N, Insert(w, a), Insert(w, 0), Insert(v, 0));
    SnakeTrans(N, Insert(w, a), Insert(v, 0), Insert(v, b));
    q := LedTo(N, p, Lay(N, Insert(v, b)));
  }

  lemma BlankIs(N: nat, p: NPuzzle)
    requires Board(N, p)
    ensures N > 0 && |p.tiles| == N * N && Distinct(p.tiles) && Within(p.tiles, N * N) && 0 <= p.zi && 0 <= p.zj
    ensures Cell(N, p.zi, p.zj) < N * N && p.tiles[Cell(N, p.zi, p.zj)] == 0
  {
  }

  lemma LedTo(N: nat, p: NPuzzle, t: seq<int>) returns (q: NPuzzle)
    requires Board(N, p) && p.valid && Leads(N, p.tiles, t)
    ensures Reach(N, p, q) && Board(N, q) && q.valid && q.tiles == t
  {
    assert LeadsFrom(N, p, t);
    q :| Reach(N, p, q) && Board(N, q) && q.valid && q.tiles == t;
  }

  lemma KeepsSolvable(N: nat, p: NPuzzle, q: NPuzzle)
    requires Reach(N, p, q)
    ensures Solvable(N, q) == Solvable(N, p)
  {
    hide Board, Legal, After, Solvable;
    var ds :| Legal(N, p, ds) && After(N, p, ds) == q;
    MovesKeep(N, p, ds);
  }

  lemma HomeSolved(N: nat, q: NPuzzle)
    requires q.valid && q.tiles == Home(N)
    ensures Solved(N, q)
  {
  }

  /** A board that solvable() accepts is solved by some sequence of moves. */
  lemma SolvingMoves(N: nat, p: NPuzzle) returns (ds: seq<Direction>)
    requires Board(N, p) && p.valid && Solvable(N, p)
    ensures Legal(N, p, ds) && Solved(N, After(N, p, ds))
  {
    hide Snake, Lay, Insert, Legal, After, Board, Word, Solvable, Solved, Swap, Home;
    BoardFacts(N, p);
    if N == 1 {
      OneCell(N, p);
      return [];
    }
    var g, b := GoalWord(N);
    var q, v := Ordered(N, p, g, b);
    KeepsSolvable(N, p, q);
    FirstTwo(N, v, g);
    if v != g {
      var x, y := FirstTwoCells(N, g, b);
      OddBoard(N, q, x, y);
      assert false;
    }
    HomeSolved(N, q);
    ds :| Legal(N, p, ds) && After(N, p, ds) == q;
  }

  lemma OneCell(N: nat, p: NPuzzle)
    requires Board(N, p) && p.valid && N == 1
    ensures Legal(N, p, []) && Solved(N, After(N, p, []))
  {
    hide Manhattan, Int8;
  }

  /** solvable() accepts exactly the boards that some sequence of moves solves. */
  lemma SolvableExactly(N: nat, p: NPuzzle)
    requires Board(N, p) && p.valid
    ensures Solvable(N, p) <==> exists ds :: Legal(N, p, ds) && Solved(N, After(N, p, ds))
  {
    hide Legal, After, Solvable, Solved, Board;
    if Solvable(N, p) {
      var ds := SolvingMoves(N, p);
      assert Legal(N, p, ds) && Solved(N, After(N, p, ds));
    } else {
      forall ds | Legal(N, p, ds)
        ensures !Solved(N, After(N, p, ds))
      {
        UnsolvableStays(N, p, ds);
      }
    }
  }
}
