/**
 * Which boards of the sliding puzzle can be turned into which, seen along a snake through all cells (15pz/puzzle.h).
 */
module PuzzleSnake {
  import opened Bits
  import opened Inversions
  import opened Puzzle

  // ---------------------------------------------------------------- reachable boards

  /** Some sequence of moves turns p into q. */
  ghost predicate Reach(N: nat, p: NPuzzle, q: NPuzzle) {
    Board(N, p) && p.valid && exists ds :: Legal(N, p, ds) && After(N, p, ds) == q
  }

  lemma {:induction false} LegalAppend(N: nat, p: NPuzzle, ds: seq<Direction>, es: seq<Direction>)
    requires Board(N, p) && Legal(N, p, ds) && Legal(N, After(N, p, ds), es)
    ensures Legal(N, p, ds + es) && After(N, p, ds + es) == After(N, After(N, p, ds), es)
    decreases |ds|
  {
    hide Board, Possible, Manhattan, Move, Swap, Cell;
    if ds == [] {
      assert ds + es == es;
    } else {
      FirstMove(N, p, ds);
      MoveExchanges(N, p, ds[0]);
      LegalAppend(N, Move(N, p, ds[0]), ds[1..], es);
      assert (ds + es)[1..] == ds[1..] + es;
    }
  }

  lemma ReachTrans(N: nat, p: NPuzzle, q: NPuzzle, r: NPuzzle)
    requires Reach(N, p, q) && Reach(N, q, r)
    ensures Reach(N, p, r)
  {
    hide Board, Legal, After;
    var ds :| Legal(N, p, ds) && After(N, p, ds) == q;
    var es :| Legal(N, q, es) && After(N, q, es) == r;
    LegalAppend(N, p, ds, es);
  }

  lemma ReachMove(N: nat, p: NPuzzle, d: Direction)
    requires Board(N, p) && Possible(N, p, d)
    ensures Reach(N, p, Move(N, p, d))
  {
    hide Board, Manhattan, Move, Swap, Cell;
    BoardFacts(N, p);
    MoveExchanges(N, p, d);
    var ds := [d];
    assert ds[0] == d && ds[1..] == [];
    assert Legal(N, Move(N, p, d), []) && After(N, Move(N, p, d), []) == Move(N, p, d);
    assert Legal(N, p, ds) && After(N, p, ds) == Move(N, p, d);
  }

  /** A board that shows the tiles s can be turned into one that shows t. */
  ghost predicate Leads(N: nat, s: seq<int>, t: seq<int>) {
    forall p | Board(N, p) && p.valid && p.tiles == s :: LeadsFrom(N, p, t)
  }

  ghost predicate LeadsFrom(N: nat, p: NPuzzle, t: seq<int>) {
    exists q :: Reach(N, p, q) && Board(N, q) && q.valid && q.tiles == t
  }

  lemma LeadsSame(N: nat, s: seq<int>)
    ensures Leads(N, s, s)
  {
    forall p | Board(N, p) && p.valid && p.tiles == s
      ensures LeadsFrom(N, p, s)
    {
      assert Legal(N, p, []) && After(N, p, []) == p;
    }
  }

  lemma LeadsTrans(N: nat, s: seq<int>, t: seq<int>, u: seq<int>)
    requires Leads(N, s, t) && Leads(N, t, u)
    ensures Leads(N, s, u)
  {
    hide Board, Reach;
    forall p | Board(N, p) && p.valid && p.tiles == s
      ensures LeadsFrom(N, p, u)
    {
      assert LeadsFrom(N, p, t);
      var q :| Reach(N, p, q) && Board(N, q) && q.valid && q.tiles == t;
      assert LeadsFrom(N, q, u);
      var r :| Reach(N, q, r) && Board(N, r) && r.valid && r.tiles == u;
      ReachTrans(N, p, q, r);
    }
  }

  /** The blank changes places with a tile above, below or beside it. */
  lemma NeighbourSwap(N: nat, s: seq<int>, i: nat, j: nat, i': nat, j': nat)
    requires i < N && j < N && i' < N && j' < N && Abs(i - i') + Abs(j - j') == 1
    requires |s| == N * N && Cell(N, i, j) < N * N && Cell(N, i', j') < N * N && s[Cell(N, i, j)] == 0
    ensures Leads(N, s, Swap(s, Cell(N, i, j), Cell(N, i', j')))
  {
    hide Cell, Swap, Move, Reach, Manhattan, Int8;
    forall p | Board(N, p) && p.valid && p.tiles == s
      ensures LeadsFrom(N, p, Swap(s, Cell(N, i, j), Cell(N, i', j')))
    {
      CellBounds(N, i, j);
      CellBounds(N, p.zi, p.zj);
      assert Cell(N, p.zi, p.zj) == Cell(N, i, j);
      var d := if i' == i + 1 then Up else if i' == i - 1 then Down else if j' == j + 1 then Left else Right;
      MoveExchanges(N, p, d);
      ReachMove(N, p, d);
      BlankGoes(N, p, d);
    }
  }

  lemma BlankGoes(N: nat, p: NPuzzle, d: Direction)
    requires Board(N, p) && Possible(N, p, d)
    ensures Move(N, p, d).zi == BlankRow(d, p.zi) && Move(N, p, d).zj == BlankColumn(d, p.zj)
  {
    hide Manhattan, Int8;
  }

  // ---------------------------------------------------------------- the snake

  /** Along the snake even rows run to the right and odd rows to the left. */
  function Column(N: nat, i: nat, k: nat): nat
    requires k < N
  {
    if i % 2 == 0 then k else N - 1 - k
  }

  /** The k-th cell along the snake; the map is its own inverse. */
  function Snake(N: nat, c: nat): nat
    requires N > 0
  {
    Cell(N, c / N, Column(N, c / N, c % N))
  }

  lemma SnakeCell(N: nat, i: nat, k: nat)
    requires i < N && k < N
    ensures Cell(N, i, k) < N * N && Cell(N, i, Column(N, i, k)) < N * N
    ensures Snake(N, Cell(N, i, k)) == Cell(N, i, Column(N, i, k))
  {
    CellBounds(N, i, k);
    CellBounds(N, i, Column(N, i, k));
  }

  lemma RowOf(N: nat, c: nat)
    requires c < N * N
    ensures c / N < N && c % N < N && c == Cell(N, c / N, c % N)
  {
    if c / N >= N {
      MulMono(N, c / N, N);
      assert false;
    }
  }

  lemma SnakeTwice(N: nat, c: nat)
    requires c < N * N
    ensures Snake(N, c) < N * N && Snake(N, Snake(N, c)) == c
  {
    hide Cell;
    RowOf(N, c);
    var i, k := c / N, c % N;
    SnakeCell(N, i, k);
    SnakeCell(N, i, Column(N, i, k));
  }

  /** The board on which the tiles L lie along the snake, the blank written 0. */
  function Lay(N: nat, L: seq<int>): (r: seq<int>)
    requires |L| == N * N
    ensures |r| == N * N && forall c | 0 <= c < N * N :: Snake(N, c) < N * N && r[c] == L[Snake(N, c)]
  {
    assert forall c | 0 <= c < N * N :: Snake(N, c) < N * N by {
      forall c | 0 <= c < N * N
        ensures Snake(N, c) < N * N
      {
        SnakeTwice(N, c);
      }
    }
    seq(N * N, c requires 0 <= c < N * N => L[Snake(N, c)])
  }

  lemma LaySwap(N: nat, L: seq<int>, a: nat, b: nat)
    requires |L| == N * N && a < N * N && b < N * N
    ensures Snake(N, a) < N * N && Snake(N, b) < N * N
    ensures Lay(N, Swap(L, a, b)) == Swap(Lay(N, L), Snake(N, a), Snake(N, b))
  {
    hide Snake;
    SnakeTwice(N, a);
    SnakeTwice(N, b);
    var s, t := Lay(N, Swap(L, a, b)), Swap(Lay(N, L), Snake(N, a), Snake(N, b));
    forall c | 0 <= c < N * N
      ensures s[c] == t[c]
    {
      SnakeTwice(N, c);
    }
  }

  /** Places a and b on the snake are neighbours on the board. */
  ghost predicate Beside(N: nat, a: nat, b: nat) {
    exists i: nat, j: nat, i': nat, j': nat :: Touching(N, a, b, i, j, i', j')
  }

  ghost predicate Touching(N: nat, a: nat, b: nat, i: nat, j: nat, i': nat, j': nat) {
    && i < N && j < N && i' < N && j' < N && Abs(i - i') + Abs(j - j') == 1
    && Snake(N, a) == Cell(N, i, j) && Snake(N, b) == Cell(N, i', j')
  }

  lemma BesideBack(N: nat, a: nat, b: nat)
    requires Beside(N, a, b)
    ensures Beside(N, b, a)
  {
    hide Snake, Cell;
    var i: nat, j: nat, i': nat, j': nat :| Touching(N, a, b, i, j, i', j');
    assert Touching(N, b, a, i', j', i, j);
  }

  /** A place before the turn at N*(i + 1) lies above the place as far beyond it. */
  lemma BesideTurn(N: nat, i: nat, m: nat, c: nat)
    requires i + 1 < N && m < N && c == N * (i + 1)
    ensures 0 <= c - 1 - m < N * N && c + m < N * N && Beside(N, c - 1 - m, c + m)
  {
    hide Snake, Column;
    var k := N - 1 - m;
    TurnCells(N, i, m, c);
    SnakeCell(N, i, k);
    SnakeCell(N, i + 1, m);
    assert Touching(N, c - 1 - m, c + m, i, Column(N, i, k), i + 1, Column(N, i + 1, m));
  }

  lemma TurnCells(N: nat, i: nat, m: nat, c: nat)
    requires m < N && c == N * (i + 1)
    ensures c - 1 - m == Cell(N, i, N - 1 - m) && c + m == Cell(N, i + 1, m)
    ensures Column(N, i, N - 1 - m) == Column(N, i + 1, m) < N
  {
    assert N * (i + 1) == N * i + N;
  }

  lemma BesideNext(N: nat, a: nat)
    requires a + 1 < N * N
    ensures Beside(N, a, a + 1)
  {
    hide Beside, Snake, Column;
    RowOf(N, a);
    var i, k := a / N, a % N;
    if k + 1 < N {
      SameRow(N, i, k);
    } else {
      assert N * (i + 1) == a + 1;
      if i + 1 == N {
        assert false;
      }
      BesideTurn(N, i, 0, a + 1);
    }
  }

  lemma SameRow(N: nat, i: nat, k: nat)
    requires i < N && k + 1 < N
    ensures Beside(N, Cell(N, i, k), Cell(N, i, k) + 1)
  {
    hide Snake;
    SnakeCell(N, i, k);
    SnakeCell(N, i, k + 1);
    assert Touching(N, Cell(N, i, k), Cell(N, i, k + 1), i, Column(N, i, k), i, Column(N, i, k + 1));
  }

  // ---------------------------------------------------------------- words

  /** Laid along the snake, L can be turned into M. */
  ghost predicate SnakeLeads(N: nat, L: seq<int>, M: seq<int>) {
    |L| == |M| == N * N && Leads(N, Lay(N, L), Lay(N, M))
  }

  lemma SnakeTrans(N: nat, L: seq<int>, M: seq<int>, P: seq<int>)
    requires SnakeLeads(N, L, M) && SnakeLeads(N, M, P)
    ensures SnakeLeads(N, L, P)
  {
    hide Lay, Leads;
    LeadsTrans(N, Lay(N, L), Lay(N, M), Lay(N, P));
  }

  lemma SnakeSwap(N: nat, L: seq<int>, a: nat, b: nat)
    requires |L| == N * N && a < N * N && b < N * N && Beside(N, a, b) && L[a] == 0
    ensures SnakeLeads(N, L, Swap(L, a, b))
  {
    hide Leads, Snake, Cell, Swap;
    var i: nat, j: nat, i': nat, j': nat :| Touching(N, a, b, i, j, i', j');
    SnakeTwice(N, a);
    SnakeTwice(N, b);
    LaySwap(N, L, a, b);
    SwapLength(L, a, b);
    NeighbourSwap(N, Lay(N, L), i, j, i', j');
  }

  lemma SwapLength(s: seq<int>, a: nat, b: nat)
    requires a < |s| && b < |s|
    ensures |Swap(s, a, b)| == |s|
  {
  }

  /** The tiles of w along the snake, with the blank at place b. */
  function Insert(w: seq<int>, b: nat): (r: seq<int>)
    requires b <= |w|
    ensures |r| == |w| + 1 && r[b] == 0
  {
    w[..b] + [0] + w[b..]
  }

  /** The blank runs along the snake without changing the order of the tiles. */
  lemma {:induction false} Slide(N: nat, w: seq<int>, a: nat, b: nat)
    requires |w| == N * N - 1 && a < N * N && b < N * N
    ensures SnakeLeads(N, Insert(w, a), Insert(w, b))
    decreases if a < b then b - a else a - b
  {
    hide SnakeLeads, Lay, Beside;
    if a == b {
      SnakeSame(N, Insert(w, a));
    } else {
      var e := if a < b then b - 1 else b + 1;
      Slide(N, w, a, e);
      BesideNext(N, if a < b then e else b);
      if a > b {
        BesideBack(N, b, e);
      }
      SnakeSwap(N, Insert(w, e), e, b);
      assert Swap(Insert(w, e), e, b) == Insert(w, b);
      SnakeTrans(N, Insert(w, a), Insert(w, e), Insert(w, b));
    }
  }

  lemma SnakeSame(N: nat, L: seq<int>)
    requires |L| == N * N
    ensures SnakeLeads(N, L, L)
  {
    hide Lay, Leads;
    LeadsSame(N, Lay(N, L));
  }

  /** The order w of the tiles can be turned into the order v, wherever the blank may be. */
  ghost predicate WordLeads(N: nat, w: seq<int>, v: seq<int>) {
    |w| == |v| == N * N - 1 && SnakeLeads(N, Insert(w, 0), Insert(v, 0))
  }

  lemma WordTrans(N: nat, w: seq<int>, v: seq<int>, u: seq<int>)
    requires WordLeads(N, w, v) && WordLeads(N, v, u)
    ensures WordLeads(N, w, u)
  {
    hide SnakeLeads;
    SnakeTrans(N, Insert(w, 0), Insert(v, 0), Insert(u, 0));
  }

  lemma AnyBlank(N: nat, w: seq<int>, v: seq<int>, a: nat, b: nat)
    requires |w| == |v| == N * N - 1 && a < N * N && b < N * N && SnakeLeads(N, Insert(w, a), Insert(v, b))
    ensures WordLeads(N, w, v)
  {
    hide SnakeLeads, Insert;
    Slide(N, w, 0, a);
    Slide(N, v, b, 0);
    SnakeTrans(N, Insert(w, 0), Insert(w, a), Insert(v, b));
    SnakeTrans(N, Insert(w, 0), Insert(v, b), Insert(v, 0));
  }

  /** The blank jumps from a to b: tile b - 1 goes in front of the tiles from a on. */
  function Forward(w: seq<int>, a: nat, b: nat): seq<int>
    requires a < b <= |w|
  {
    w[..a] + [w[b - 1]] + w[a..b - 1] + w[b..]
  }

  /** It jumps from b to a: tile a goes behind the tiles before b. */
  function Backward(w: seq<int>, a: nat, b: nat): seq<int>
    requires a < b <= |w|
  {
    w[..a] + w[a + 1..b] + [w[a]] + w[b..]
  }

  lemma Jumps(N: nat, w: seq<int>, a: nat, b: nat)
    requires |w| == N * N - 1 && a < b < N * N && Beside(N, a, b)
    ensures WordLeads(N, w, Forward(w, a, b)) && WordLeads(N, w, Backward(w, a, b))
  {
    hide SnakeLeads, Beside, WordLeads;
    var f, g := Forward(w, a, b), Backward(w, a, b);
    SnakeSwap(N, Insert(w, a), a, b);
    assert Swap(Insert(w, a), a, b) == Insert(f, b);
    AnyBlank(N, w, f, a, b);
    BesideBack(N, a, b);
    SnakeSwap(N, Insert(w, b), b, a);
    assert Swap(Insert(w, b), b, a) == Insert(g, a);
    AnyBlank(N, w, g, b, a);
  }
}
