/** The simulation grid: cells with a state each, their 8-way adjacency,
    the grid constructor and the mapping from a mouse position to a cell. */
module Grid {

  /** The colour a spot shows: one state per colour a cell can be painted. */
  datatype CellState = Empty | Barrier | Start | End | Open | Closed | Path

  /** A (row, column) position; while neighbours are computed it may lie off the grid. */
  datatype Pos = Pos(row: int, col: int)

  function Abs(x: int): nat
  {
    if x < 0 then -x else x
  }

  /** King-move distance: the number of 8-way moves between two positions on an open board. */
  function Chebyshev(p: Pos, q: Pos): nat
  {
    var dr := Abs(p.row - q.row);
    var dc := Abs(p.col - q.col);
    if dr < dc then dc else dr
  }

  /** q is one of the eight cells around p. */
  predicate Adjacent(p: Pos, q: Pos)
  {
    p != q && Chebyshev(p, q) <= 1
  }

  predicate InBounds(p: Pos, n: int)
  {
    0 <= p.row < n && 0 <= p.col < n
  }

  function Shift(p: Pos, d: Pos): Pos
  {
    Pos(p.row + d.row, p.col + d.col)
  }

  /** The eight moves in the order the neighbour list is built:
      down, up, right, left, then the four diagonals. */
  const Directions: seq<Pos> :=
    [Pos(1, 0), Pos(-1, 0), Pos(0, 1), Pos(0, -1), Pos(-1, -1), Pos(-1, 1), Pos(1, 1), Pos(1, -1)]

  /** The move that takes p to q. */
  function Offset(p: Pos, q: Pos): Pos
  {
    Pos(q.row - p.row, q.col - p.col)
  }

  /** The cell one move along d from p, if it is on an n-by-n board and not blocked. */
  function Keep(p: Pos, d: Pos, n: int, blocked: set<Pos>): seq<Pos>
  {
    var q := Shift(p, d);
    if InBounds(q, n) && q !in blocked then [q] else []
  }

  /** The cells reached from p by the moves ds that are on the board and not blocked, in the order of ds. */
  function Reachable(p: Pos, ds: seq<Pos>, n: int, blocked: set<Pos>): (r: seq<Pos>)
    ensures |r| <= |ds|
  {
    if ds == [] then [] else Reachable(p, ds[..|ds| - 1], n, blocked) + Keep(p, ds[|ds| - 1], n, blocked)
  }

  /** Every listed cell is on the board, not blocked, and one move of ds away from p. */
  lemma {:induction false} ReachableSound(p: Pos, ds: seq<Pos>, n: int, blocked: set<Pos>, q: Pos)
    requires q in Reachable(p, ds, n, blocked)
    ensures InBounds(q, n) && q !in blocked && Offset(p, q) in ds
  {
    var init := ds[..|ds| - 1];
    if q !in Keep(p, ds[|ds| - 1], n, blocked) {
      ReachableSound(p, init, n, blocked, q);
      assert forall d :: d in init ==> d in ds;
    }
  }

  /** The neighbour positions of p on an n-by-n board whose barriers are `blocked`. */
  function NeighborPositions(p: Pos, n: int, blocked: set<Pos>): seq<Pos>
  {
    Reachable(p, Directions, n, blocked)
  }

  predicate Distinct<T(==)>(s: seq<T>)
  {
    forall i, j :: 0 <= i < j < |s| ==> s[i] != s[j]
  }

  /** The list follows the order of ds: a cell reached by an earlier move comes first. */
  lemma ReachableOrdered(p: Pos, ds: seq<Pos>, n: int, blocked: set<Pos>)
    requires Distinct(ds)
    ensures var r := Reachable(p, ds, n, blocked);
      forall a, b, i, j ::
        0 <= a < b < |r| && 0 <= i < |ds| && 0 <= j < |ds| && r[a] == Shift(p, ds[i]) && r[b] == Shift(p, ds[j])
        ==> i < j
  {
    var r := Reachable(p, ds, n, blocked);
    forall a, b, i, j | 0 <= a < b < |r| && 0 <= i < |ds| && 0 <= j < |ds| &&
        r[a] == Shift(p, ds[i]) && r[b] == Shift(p, ds[j])
      ensures i < j
    {
      ReachableOrderedAt(p, ds, n, blocked, a, b, i, j);
    }
  }

  /** ReachableOrdered for one pair of listed cells. */
  lemma {:induction false} ReachableOrderedAt(p: Pos, ds: seq<Pos>, n: int, blocked: set<Pos>, a: int, b: int, i: int, j: int)
    requires Distinct(ds)
    requires 0 <= a < b < |Reachable(p, ds, n, blocked)| && 0 <= i < |ds| && 0 <= j < |ds|
    requires Reachable(p, ds, n, blocked)[a] == Shift(p, ds[i]) && Reachable(p, ds, n, blocked)[b] == Shift(p, ds[j])
    ensures i < j
    decreases |ds|
  {
    var init := ds[..|ds| - 1];
    var last := ds[|ds| - 1];
    var rest := Reachable(p, init, n, blocked);
    var r := rest + Keep(p, last, n, blocked);
    assert r == Reachable(p, ds, n, blocked);
    assert a < |rest|;
    assert r[a] == rest[a];
    ReachableSound(p, init, n, blocked, rest[a]);
    var k :| 0 <= k < |init| && init[k] == Offset(p, rest[a]);
    assert ds[k] == ds[i];
    if b < |rest| {
      assert r[b] == rest[b];
      ReachableSound(p, init, n, blocked, rest[b]);
      var m :| 0 <= m < |init| && init[m] == Offset(p, rest[b]);
      assert ds[m] == ds[j];
      assert Distinct(init) by {
        forall x, y | 0 <= x < y < |init| ensures init[x] != init[y] {
          assert init[x] == ds[x] && init[y] == ds[y];
        }
      }
      ReachableOrderedAt(p, init, n, blocked, a, b, k, m);
    } else {
      assert ds[j] == last;
    }
  }

  /** Every admissible move of ds shows up in the list. */
  lemma {:induction false} ReachableComplete(p: Pos, ds: seq<Pos>, n: int, blocked: set<Pos>, d: Pos)
    requires d in ds && InBounds(Shift(p, d), n) && Shift(p, d) !in blocked
    ensures Shift(p, d) in Reachable(p, ds, n, blocked)
  {
    var init := ds[..|ds| - 1];
    if ds[|ds| - 1] != d {
      assert d in init by {
        var k :| 0 <= k < |ds| && ds[k] == d;
        assert init[k] == d;
      }
      ReachableComplete(p, init, n, blocked, d);
    }
  }

  /** Distinct moves give distinct cells, so no cell is listed twice. */
  lemma {:induction false} ReachableDistinct(p: Pos, ds: seq<Pos>, n: int, blocked: set<Pos>)
    requires Distinct(ds)
    ensures Distinct(Reachable(p, ds, n, blocked))
  {
    if ds != [] {
      var init := ds[..|ds| - 1];
      var last := ds[|ds| - 1];
      var rest := Reachable(p, init, n, blocked);
      var tail := Keep(p, last, n, blocked);
      ReachableDistinct(p, init, n, blocked);
      forall q | q in rest
        ensures q != Shift(p, last)
      {
        ReachableSound(p, init, n, blocked, q);
        var k :| 0 <= k < |init| && init[k] == Offset(p, q);
        assert ds[k] == init[k];
      }
      var r := rest + tail;
      forall i, j | 0 <= i < j < |r|
        ensures r[i] != r[j]
      {
        if j >= |rest| {
          assert r[i] == rest[i] && r[i] in rest;
        } else {
          assert r[i] == rest[i] && r[j] == rest[j];
        }
      }
    }
  }

  /** A position is listed as a neighbour of p exactly when it is on the board,
      not a barrier, and one of the eight cells around p. */
  lemma NeighborsExactly(p: Pos, n: int, blocked: set<Pos>, q: Pos)
    ensures q in NeighborPositions(p, n, blocked) <==> InBounds(q, n) && q !in blocked && Adjacent(p, q)
  {
    if q in NeighborPositions(p, n, blocked) {
      ReachableSound(p, Directions, n, blocked, q);
    }
    if InBounds(q, n) && q !in blocked && Adjacent(p, q) {
      var d := Offset(p, q);
      assert d in Directions;
      ReachableComplete(p, Directions, n, blocked, d);
    }
  }

  /** At most eight neighbours, none listed twice. */
  lemma NeighborsDistinct(p: Pos, n: int, blocked: set<Pos>)
    ensures |NeighborPositions(p, n, blocked)| <= 8
    ensures Distinct(NeighborPositions(p, n, blocked))
  {
    ReachableDistinct(p, Directions, n, blocked);
  }

  /** The neighbour list follows the order of Directions. */
  lemma NeighborsInOrder(p: Pos, n: int, blocked: set<Pos>)
    ensures var r := NeighborPositions(p, n, blocked);
      forall a, b, i, j ::
        0 <= a < b < |r| && 0 <= i < 8 && 0 <= j < 8 && r[a] == Shift(p, Directions[i]) && r[b] == Shift(p, Directions[j])
        ==> i < j
  {
    assert |Directions| == 8 && Distinct(Directions);
    var r := NeighborPositions(p, n, blocked);
    forall a, b, i, j |
        0 <= a < b < |r| && 0 <= i < 8 && 0 <= j < 8 && r[a] == Shift(p, Directions[i]) && r[b] == Shift(p, Directions[j])
      ensures i < j
    {
      ReachableOrderedAt(p, Directions, n, blocked, a, b, i, j);
    }
  }

  /** One cell of the grid: its place, its drawing square (origin x, y and side width,
      in pixels), its state and its list of walkable neighbours. */
  class Spot {
    const row: nat
    const col: nat
    const x: nat
    const y: nat
    const width: nat
    const totalRows: nat
    var state: CellState
    var neighbors: seq<Spot>

    constructor (row: nat, col: nat, width: nat, totalRows: nat)
      ensures this.row == row && this.col == col && this.width == width && this.totalRows == totalRows
      ensures x == row * width && y == col * width
      ensures state == Empty && neighbors == []
    {
      this.row := row;
      this.col := col;
      x := row * width;
      y := col * width;
      this.width := width;
      this.totalRows := totalRows;
      state := Empty;
      neighbors := [];
    }

    /** get_pos: the spot's row and column. */
    function Position(): (p: Pos)
      ensures p.row == row && p.col == col
    {
      Pos(row, col)
    }

    /** The make_* and reset operations: repaint the spot. */
    method Mark(s: CellState)
      modifies this`state
      ensures state == s
    {
      state := s;
    }

    /** One guarded branch of the neighbour scan: the spot one move along d, when the branch's
        bounds test `inside` holds and that spot is not a barrier; nothing otherwise. */
    function Candidate(grid: seq<seq<Spot>>, ghost b: set<Pos>, d: Pos, inside: bool): (r: seq<Spot>)
      requires Square(grid, totalRows) && (inside <==> InBounds(Shift(Position(), d), totalRows))
      reads if inside then {At(grid, Shift(Position(), d))} else {}
      requires inside ==> (At(grid, Shift(Position(), d)).state == Barrier <==> Shift(Position(), d) in b)
      ensures OnGrid(grid, Keep(Position(), d, totalRows, b))
      ensures r == SpotsOf(grid, Keep(Position(), d, totalRows, b))
    {
      OneSpot(grid, Keep(Position(), d, totalRows, b));
      var r, c := row + d.row, col + d.col;
      if inside && grid[r][c].state != Barrier then [grid[r][c]] else []
    }

    /** Rebuilds the neighbour list from the grid's current barriers, whose positions are b:
        the open cells among the eight around this one, in the order of Directions. */
    method UpdateNeighbors(grid: seq<seq<Spot>>, ghost b: set<Pos>)
      requires Square(grid, totalRows) && BarriersAt(grid, b) && row < totalRows && col < totalRows
      modifies this`neighbors
      ensures OnGrid(grid, NeighborPositions(Position(), totalRows, b))
      ensures neighbors == SpotsOf(grid, NeighborPositions(Position(), totalRows, b))
    {
      ScanGuards(grid, totalRows, b, Position());
      var ns: seq<Spot> := [];
      var down := Candidate(grid, b, Pos(1, 0), row < totalRows - 1);
      ns := ns + down;
      var up := Candidate(grid, b, Pos(-1, 0), row > 0);
      ns := ns + up;
      var right := Candidate(grid, b, Pos(0, 1), col < totalRows - 1);
      ns := ns + right;
      var left := Candidate(grid, b, Pos(0, -1), col > 0);
      ns := ns + left;
      var upLeft := Candidate(grid, b, Pos(-1, -1), row > 0 && col > 0);
      ns := ns + upLeft;
      var upRight := Candidate(grid, b, Pos(-1, 1), row > 0 && col < totalRows - 1);
      ns := ns + upRight;
      var downRight := Candidate(grid, b, Pos(1, 1), row < totalRows - 1 && col < totalRows - 1);
      ns := ns + downRight;
      var downLeft := Candidate(grid, b, Pos(1, -1), row < totalRows - 1 && col > 0);
      ns := ns + downLeft;
      NeighborSpots(grid, totalRows, b, Position(), down, up, right, left, upLeft, upRight, downRight, downLeft);
      neighbors := ns;
    }
  }

  /** Each bounds test of the neighbour scan says exactly that its target cell is on the board,
      and a target on the board is a barrier exactly when its position is in b. */
  lemma ScanGuards(grid: seq<seq<Spot>>, n: nat, b: set<Pos>, p: Pos)
    requires Square(grid, n) && BarriersAt(grid, b) && InBounds(p, n)
    ensures InBounds(Shift(p, Pos(1, 0)), n) <==> p.row < n - 1
    ensures InBounds(Shift(p, Pos(-1, 0)), n) <==> p.row > 0
    ensures InBounds(Shift(p, Pos(0, 1)), n) <==> p.col < n - 1
    ensures InBounds(Shift(p, Pos(0, -1)), n) <==> p.col > 0
    ensures InBounds(Shift(p, Pos(-1, -1)), n) <==> p.row > 0 && p.col > 0
    ensures InBounds(Shift(p, Pos(-1, 1)), n) <==> p.row > 0 && p.col < n - 1
    ensures InBounds(Shift(p, Pos(1, 1)), n) <==> p.row < n - 1 && p.col < n - 1
    ensures InBounds(Shift(p, Pos(1, -1)), n) <==> p.row < n - 1 && p.col > 0
    ensures InBounds(Shift(p, Pos(1, 0)), n) ==> (At(grid, Shift(p, Pos(1, 0))).state == Barrier <==> Shift(p, Pos(1, 0)) in b)
    ensures InBounds(Shift(p, Pos(-1, 0)), n) ==> (At(grid, Shift(p, Pos(-1, 0))).state == Barrier <==> Shift(p, Pos(-1, 0)) in b)
    ensures InBounds(Shift(p, Pos(0, 1)), n) ==> (At(grid, Shift(p, Pos(0, 1))).state == Barrier <==> Shift(p, Pos(0, 1)) in b)
    ensures InBounds(Shift(p, Pos(0, -1)), n) ==> (At(grid, Shift(p, Pos(0, -1))).state == Barrier <==> Shift(p, Pos(0, -1)) in b)
    ensures InBounds(Shift(p, Pos(-1, -1)), n) ==> (At(grid, Shift(p, Pos(-1, -1))).state == Barrier <==> Shift(p, Pos(-1, -1)) in b)
    ensures InBounds(Shift(p, Pos(-1, 1)), n) ==> (At(grid, Shift(p, Pos(-1, 1))).state == Barrier <==> Shift(p, Pos(-1, 1)) in b)
    ensures InBounds(Shift(p, Pos(1, 1)), n) ==> (At(grid, Shift(p, Pos(1, 1))).state == Barrier <==> Shift(p, Pos(1, 1)) in b)
    ensures InBounds(Shift(p, Pos(1, -1)), n) ==> (At(grid, Shift(p, Pos(1, -1))).state == Barrier <==> Shift(p, Pos(1, -1)) in b)
  {
    BarrierAt(grid, n, b, Shift(p, Pos(1, 0)));
    BarrierAt(grid, n, b, Shift(p, Pos(-1, 0)));
    BarrierAt(grid, n, b, Shift(p, Pos(0, 1)));
    BarrierAt(grid, n, b, Shift(p, Pos(0, -1)));
    BarrierAt(grid, n, b, Shift(p, Pos(-1, -1)));
    BarrierAt(grid, n, b, Shift(p, Pos(-1, 1)));
    BarrierAt(grid, n, b, Shift(p, Pos(1, 1)));
    BarrierAt(grid, n, b, Shift(p, Pos(1, -1)));
  }

  /** On the board, a spot is a barrier exactly when its position is in b. */
  lemma BarrierAt(grid: seq<seq<Spot>>, n: nat, b: set<Pos>, q: Pos)
    requires Square(grid, n) && BarriersAt(grid, b)
    ensures InBounds(q, n) ==> (At(grid, q).state == Barrier <==> q in b)
  {
    if InBounds(q, n) {
      assert grid[q.row][q.col].state == Barrier <==> Pos(q.row, q.col) in b;
    }
  }

  /** The spots of no position or of a single one. */
  lemma OneSpot(grid: seq<seq<Spot>>, ps: seq<Pos>)
    requires |ps| <= 1 && OnGrid(grid, ps)
    ensures SpotsOf(grid, ps) == if ps == [] then [] else [At(grid, ps[0])]
  {
    if ps != [] {
      assert ps[..0] == [];
    }
  }

  /** The spots of a concatenation of positions are the concatenation of their spots. */
  lemma {:induction false} SpotsOfAppend(grid: seq<seq<Spot>>, ps: seq<Pos>, qs: seq<Pos>)
    requires OnGrid(grid, ps) && OnGrid(grid, qs)
    ensures OnGrid(grid, ps + qs) && SpotsOf(grid, ps + qs) == SpotsOf(grid, ps) + SpotsOf(grid, qs)
    decreases |qs|
  {
    if qs != [] {
      var qs' := qs[..|qs| - 1];
      assert (ps + qs)[..|ps + qs| - 1] == ps + qs';
      SpotsOfAppend(grid, ps, qs');
    } else {
      assert ps + qs == ps;
    }
  }

  /** Appending, in the order of Directions, the spots each of the eight guarded moves lets
      through gives the spots of NeighborPositions. */
  lemma NeighborSpots(grid: seq<seq<Spot>>, n: nat, b: set<Pos>, p: Pos,
                      down: seq<Spot>, up: seq<Spot>, right: seq<Spot>, left: seq<Spot>, upLeft: seq<Spot>, upRight: seq<Spot>, downRight: seq<Spot>, downLeft: seq<Spot>)
    requires Square(grid, n)
    requires OnGrid(grid, Keep(p, Pos(1, 0), n, b)) && down == SpotsOf(grid, Keep(p, Pos(1, 0), n, b))
    requires OnGrid(grid, Keep(p, Pos(-1, 0), n, b)) && up == SpotsOf(grid, Keep(p, Pos(-1, 0), n, b))
    requires OnGrid(grid, Keep(p, Pos(0, 1), n, b)) && right == SpotsOf(grid, Keep(p, Pos(0, 1), n, b))
    requires OnGrid(grid, Keep(p, Pos(0, -1), n, b)) && left == SpotsOf(grid, Keep(p, Pos(0, -1), n, b))
    requires OnGrid(grid, Keep(p, Pos(-1, -1), n, b)) && upLeft == SpotsOf(grid, Keep(p, Pos(-1, -1), n, b))
    requires OnGrid(grid, Keep(p, Pos(-1, 1), n, b)) && upRight == SpotsOf(grid, Keep(p, Pos(-1, 1), n, b))
    requires OnGrid(grid, Keep(p, Pos(1, 1), n, b)) && downRight == SpotsOf(grid, Keep(p, Pos(1, 1), n, b))
    requires OnGrid(grid, Keep(p, Pos(1, -1), n, b)) && downLeft == SpotsOf(grid, Keep(p, Pos(1, -1), n, b))
    ensures OnGrid(grid, NeighborPositions(p, n, b))
    ensures [] + down + up + right + left + upLeft + upRight + downRight + downLeft == SpotsOf(grid, NeighborPositions(p, n, b))
  {
    NeighborPositionsUnrolled(p, n, b);
    var ps := Keep(p, Pos(1, 0), n, b);
    assert [] + down == SpotsOf(grid, ps);
    SpotsOfAppend(grid, ps, Keep(p, Pos(-1, 0), n, b));
    ps := ps + Keep(p, Pos(-1, 0), n, b);
    SpotsOfAppend(grid, ps, Keep(p, Pos(0, 1), n, b));
    ps := ps + Keep(p, Pos(0, 1), n, b);
    SpotsOfAppend(grid, ps, Keep(p, Pos(0, -1), n, b));
    ps := ps + Keep(p, Pos(0, -1), n, b);
    SpotsOfAppend(grid, ps, Keep(p, Pos(-1, -1), n, b));
    ps := ps + Keep(p, Pos(-1, -1), n, b);
    SpotsOfAppend(grid, ps, Keep(p, Pos(-1, 1), n, b));
    ps := ps + Keep(p, Pos(-1, 1), n, b);
    SpotsOfAppend(grid, ps, Keep(p, Pos(1, 1), n, b));
    ps := ps + Keep(p, Pos(1, 1), n, b);
    SpotsOfAppend(grid, ps, Keep(p, Pos(1, -1), n, b));
    ps := ps + Keep(p, Pos(1, -1), n, b);
  }

  /** NeighborPositions is the eight guarded moves of Directions, tried in order. */
  lemma NeighborPositionsUnrolled(p: Pos, n: int, blocked: set<Pos>)
    ensures Reachable(p, Directions, n, blocked) ==
      Keep(p, Pos(1, 0), n, blocked) + Keep(p, Pos(-1, 0), n, blocked) +
      Keep(p, Pos(0, 1), n, blocked) + Keep(p, Pos(0, -1), n, blocked) +
      Keep(p, Pos(-1, -1), n, blocked) + Keep(p, Pos(-1, 1), n, blocked) +
      Keep(p, Pos(1, 1), n, blocked) + Keep(p, Pos(1, -1), n, blocked)
  {
    var ds := Directions;
    assert ds[..1][..0] == [];
    assert Reachable(p, ds[..1], n, blocked) == Keep(p, ds[0], n, blocked);
    assert ds[..2][..1] == ds[..1];
    assert Reachable(p, ds[..2], n, blocked) == Reachable(p, ds[..1], n, blocked) + Keep(p, ds[1], n, blocked);
    assert ds[..3][..2] == ds[..2];
    assert Reachable(p, ds[..3], n, blocked) == Reachable(p, ds[..2], n, blocked) + Keep(p, ds[2], n, blocked);
    assert ds[..4][..3] == ds[..3];
    assert Reachable(p, ds[..4], n, blocked) == Reachable(p, ds[..3], n, blocked) + Keep(p, ds[3], n, blocked);
    assert ds[..5][..4] == ds[..4];
    assert Reachable(p, ds[..5], n, blocked) == Reachable(p, ds[..4], n, blocked) + Keep(p, ds[4], n, blocked);
    assert ds[..6][..5] == ds[..5];
    assert Reachable(p, ds[..6], n, blocked) == Reachable(p, ds[..5], n, blocked) + Keep(p, ds[5], n, blocked);
    assert ds[..7][..6] == ds[..6];
    assert Reachable(p, ds[..7], n, blocked) == Reachable(p, ds[..6], n, blocked) + Keep(p, ds[6], n, blocked);
    assert ds[..8][..7] == ds[..7];
    assert Reachable(p, ds[..8], n, blocked) == Reachable(p, ds[..7], n, blocked) + Keep(p, ds[7], n, blocked);
    assert ds[..8] == ds;
  }

  /** n rows of n spots each. */
  ghost predicate Square(grid: seq<seq<Spot>>, n: nat)
  {
    |grid| == n && forall i :: 0 <= i < n ==> |grid[i]| == n
  }

  /** A square grid whose spot at [i][j] knows it sits at row i, column j. */
  ghost predicate WellFormed(grid: seq<seq<Spot>>, n: nat)
  {
    Square(grid, n) &&
    forall i, j :: 0 <= i < n && 0 <= j < n ==>
      grid[i][j].row == i && grid[i][j].col == j && grid[i][j].totalRows == n
  }

  function At(grid: seq<seq<Spot>>, p: Pos): Spot
    requires 0 <= p.row < |grid| && 0 <= p.col < |grid[p.row]|
  {
    grid[p.row][p.col]
  }

  /** Every position of ps indexes a spot of the grid. */
  ghost predicate OnGrid(grid: seq<seq<Spot>>, ps: seq<Pos>)
  {
    forall q | q in ps :: 0 <= q.row < |grid| && 0 <= q.col < |grid[q.row]|
  }

  /** The grid's spots at the positions ps, in order. */
  function SpotsOf(grid: seq<seq<Spot>>, ps: seq<Pos>): (ns: seq<Spot>)
    requires OnGrid(grid, ps)
    ensures |ns| == |ps|
  {
    if ps == [] then [] else SpotsOf(grid, ps[..|ps| - 1]) + [At(grid, ps[|ps| - 1])]
  }

  /** Every spot of the grid. */
  function Cells(grid: seq<seq<Spot>>): set<Spot>
  {
    set i, j | 0 <= i < |grid| && 0 <= j < |grid[i]| :: grid[i][j]
  }

  /** On a well-formed grid a spot's position locates it: it is on the board and the grid
      holds the spot at that position. */
  lemma PositionLocates(grid: seq<seq<Spot>>, n: nat, s: Spot)
    requires WellFormed(grid, n) && s in Cells(grid)
    ensures InBounds(s.Position(), n) && At(grid, s.Position()) == s
  {
    var i, j :| 0 <= i < |grid| && 0 <= j < |grid[i]| && grid[i][j] == s;
  }

  /** b holds exactly the positions of the grid's barrier spots. */
  ghost predicate BarriersAt(grid: seq<seq<Spot>>, b: set<Pos>)
    reads Cells(grid)`state
  {
    forall i, j {:trigger grid[i][j].state} :: 0 <= i < |grid| && 0 <= j < |grid[i]| ==> (Pos(i, j) in b <==> grid[i][j].state == Barrier)
  }

  /** The positions of the grid's barrier spots. */
  ghost function Barriers(grid: seq<seq<Spot>>): (b: set<Pos>)
    reads Cells(grid)`state
    ensures BarriersAt(grid, b)
  {
    set i, j | 0 <= i < |grid| && 0 <= j < |grid[i]| && grid[i][j].state == Barrier :: Pos(i, j)
  }

  /** The k-th spot listed is the spot at the k-th position. */
  lemma {:induction false} SpotsOfIndex(grid: seq<seq<Spot>>, ps: seq<Pos>, k: nat)
    requires OnGrid(grid, ps) && k < |ps|
    ensures SpotsOf(grid, ps)[k] == At(grid, ps[k])
    decreases |ps|
  {
    if k < |ps| - 1 {
      SpotsOfIndex(grid, ps[..|ps| - 1], k);
    }
  }

  /** Spot s holds the neighbour list that UpdateNeighbors builds from the barriers b. */
  ghost predicate HasNeighbors(grid: seq<seq<Spot>>, n: nat, b: set<Pos>, s: Spot)
    reads s`neighbors
  {
    OnGrid(grid, NeighborPositions(s.Position(), n, b)) &&
    s.neighbors == SpotsOf(grid, NeighborPositions(s.Position(), n, b))
  }

  /** Every spot of the grid holds the neighbour list of the grid's current barriers. */
  ghost predicate Refreshed(grid: seq<seq<Spot>>, n: nat)
    reads Cells(grid)`state, Cells(grid)`neighbors
  {
    forall i, j :: 0 <= i < |grid| && 0 <= j < |grid[i]| ==> HasNeighbors(grid, n, Barriers(grid), grid[i][j])
  }

  /** Builds rows rows of rows new, empty spots; the spot at [i][j] sits at row i, column j
      and has side width / rows. */
  method MakeGrid(rows: nat, width: nat) returns (grid: seq<seq<Spot>>)
    requires rows > 0
    ensures WellFormed(grid, rows)
    ensures forall i, j :: 0 <= i < rows && 0 <= j < rows ==>
      fresh(grid[i][j]) && grid[i][j].state == Empty && grid[i][j].neighbors == [] && grid[i][j].width == width / rows
  {
    var gap := width / rows;
    grid := [];
    var i := 0;
    while i < rows
      invariant i <= rows && |grid| == i
      invariant forall a, c :: 0 <= a < i && 0 <= c < |grid[a]| ==> Blank(grid[a][c], a, c, gap, rows) && fresh(grid[a][c])
      invariant forall a :: 0 <= a < i ==> |grid[a]| == rows
    {
      var line: seq<Spot> := [];
      var j := 0;
      while j < rows
        invariant j <= rows && |line| == j
        invariant forall c :: 0 <= c < j ==> Blank(line[c], i, c, gap, rows) && fresh(line[c])
        invariant forall a, c :: 0 <= a < i && 0 <= c < |grid[a]| ==> Blank(grid[a][c], a, c, gap, rows) && fresh(grid[a][c])
      {
        var spot := new Spot(i, j, gap, rows);
        line := line + [spot];
        j := j + 1;
      }
      grid := grid + [line];
      i := i + 1;
    }
  }

  /** A spot just made for place (i, j) of a grid of n rows with the given side. */
  ghost predicate Blank(s: Spot, i: nat, j: nat, width: nat, n: nat)
    reads s
  {
    s.row == i && s.col == j && s.width == width && s.totalRows == n && s.state == Empty && s.neighbors == []
  }

  /** Recomputes every spot's neighbour list, row by row, before a search starts. */
  method RefreshNeighbors(grid: seq<seq<Spot>>, n: nat)
    requires WellFormed(grid, n)
    modifies Cells(grid)`neighbors
    ensures Refreshed(grid, n)
  {
    ghost var b := Barriers(grid);
    var i := 0;
    while i < n
      invariant i <= n && BarriersAt(grid, b)
      invariant forall a, c {:trigger HasNeighbors(grid, n, b, grid[a][c])} ::
        0 <= a < i && 0 <= c < n ==> HasNeighbors(grid, n, b, grid[a][c])
    {
      label Before:
      RefreshRow(grid, n, b, i);
      forall a, c | 0 <= a < i + 1 && 0 <= c < n
        ensures HasNeighbors(grid, n, b, grid[a][c])
      {
        if a < i {
          assert grid[a][c].row == a;
          assert old@Before(HasNeighbors(grid, n, b, grid[a][c]));
        }
      }
      i := i + 1;
    }
  }

  /** The inner loop of RefreshNeighbors: updates the neighbour lists of row i, and no others. */
  method RefreshRow(grid: seq<seq<Spot>>, n: nat, ghost b: set<Pos>, i: nat)
    requires WellFormed(grid, n) && BarriersAt(grid, b) && i < n
    modifies Cells(grid)`neighbors
    ensures BarriersAt(grid, b)
    ensures forall c {:trigger HasNeighbors(grid, n, b, grid[i][c])} :: 0 <= c < n ==> HasNeighbors(grid, n, b, grid[i][c])
    ensures forall s | s in Cells(grid) && s.row != i :: s.neighbors == old(s.neighbors)
  {
    var j := 0;
    while j < n
      invariant j <= n && BarriersAt(grid, b)
      invariant forall c {:trigger HasNeighbors(grid, n, b, grid[i][c])} :: 0 <= c < j ==> HasNeighbors(grid, n, b, grid[i][c])
      invariant forall s | s in Cells(grid) && s.row != i :: s.neighbors == old(s.neighbors)
    {
      label Before:
      grid[i][j].UpdateNeighbors(grid, b);
      assert HasNeighbors(grid, n, b, grid[i][j]);
      forall c | 0 <= c < j + 1
        ensures HasNeighbors(grid, n, b, grid[i][c])
      {
        if c < j {
          assert grid[i][c].col == c;
          assert old@Before(HasNeighbors(grid, n, b, grid[i][c]));
        }
      }
      j := j + 1;
    }
  }

  /** On a grid whose neighbour lists are fresh, m is in s's list exactly when m is a spot of
      the grid, is not a barrier and is one of the eight cells around s; in particular it is
      on the board and is not s itself. */
  lemma NeighborListExactly(grid: seq<seq<Spot>>, n: nat, s: Spot, m: Spot)
    requires WellFormed(grid, n) && Refreshed(grid, n) && s in Cells(grid)
    ensures m in s.neighbors <==> m in Cells(grid) && m.state != Barrier && Adjacent(s.Position(), m.Position())
    ensures m in s.neighbors ==> m != s && InBounds(m.Position(), n)
  {
    var i, j :| 0 <= i < |grid| && 0 <= j < |grid[i]| && grid[i][j] == s;
    var b := Barriers(grid);
    assert HasNeighbors(grid, n, b, grid[i][j]);
    if m in s.neighbors {
      var k :| 0 <= k < |s.neighbors| && s.neighbors[k] == m;
      ListedSpot(grid, n, b, s, k);
    }
    if m in Cells(grid) && m.state != Barrier && Adjacent(s.Position(), m.Position()) {
      OpenSpotListed(grid, n, b, s, m);
    }
  }

  /** The k-th listed neighbour is the grid's spot at the k-th neighbour position: on the
      board, not a barrier, and next to s. */
  lemma ListedSpot(grid: seq<seq<Spot>>, n: nat, b: set<Pos>, s: Spot, k: nat)
    requires WellFormed(grid, n) && BarriersAt(grid, b) && HasNeighbors(grid, n, b, s) && k < |s.neighbors|
    ensures s.neighbors[k].Position() == NeighborPositions(s.Position(), n, b)[k]
    ensures s.neighbors[k] in Cells(grid) && s.neighbors[k].state != Barrier
    ensures Adjacent(s.Position(), s.neighbors[k].Position()) && InBounds(s.neighbors[k].Position(), n)
  {
    var ps := NeighborPositions(s.Position(), n, b);
    SpotsOfIndex(grid, ps, k);
    NeighborsExactly(s.Position(), n, b, ps[k]);
    assert s.neighbors[k] == grid[ps[k].row][ps[k].col];
  }

  /** A spot of the grid next to s that is not a barrier is in s's list. */
  lemma OpenSpotListed(grid: seq<seq<Spot>>, n: nat, b: set<Pos>, s: Spot, m: Spot)
    requires WellFormed(grid, n) && BarriersAt(grid, b) && HasNeighbors(grid, n, b, s)
    requires m in Cells(grid) && m.state != Barrier && Adjacent(s.Position(), m.Position())
    ensures m in s.neighbors
  {
    var ps := NeighborPositions(s.Position(), n, b);
    var a, c :| 0 <= a < |grid| && 0 <= c < |grid[a]| && grid[a][c] == m;
    assert m.Position() == Pos(a, c);
    NeighborsExactly(s.Position(), n, b, m.Position());
    var k :| 0 <= k < |ps| && ps[k] == m.Position();
    SpotsOfIndex(grid, ps, k);
  }

  /** On a grid whose neighbour lists are fresh, a spot has at most eight neighbours, none
      listed twice, and they come in the order of Directions. */
  lemma NeighborListShape(grid: seq<seq<Spot>>, n: nat, s: Spot)
    requires WellFormed(grid, n) && Refreshed(grid, n) && s in Cells(grid)
    ensures |s.neighbors| <= 8 && Distinct(s.neighbors)
    ensures var r := s.neighbors;
      forall a, b, i, j ::
        0 <= a < b < |r| && 0 <= i < 8 && 0 <= j < 8 &&
        r[a].Position() == Shift(s.Position(), Directions[i]) && r[b].Position() == Shift(s.Position(), Directions[j])
        ==> i < j
  {
    var i, j :| 0 <= i < |grid| && 0 <= j < |grid[i]| && grid[i][j] == s;
    var b := Barriers(grid);
    assert HasNeighbors(grid, n, b, grid[i][j]);
    ListShape(grid, n, b, s);
  }

  /** ListShape for the barrier positions b the lists were built from. */
  lemma ListShape(grid: seq<seq<Spot>>, n: nat, b: set<Pos>, s: Spot)
    requires WellFormed(grid, n) && BarriersAt(grid, b) && HasNeighbors(grid, n, b, s)
    ensures |s.neighbors| <= 8 && Distinct(s.neighbors)
    ensures var r := s.neighbors;
      forall a, c, i, j ::
        0 <= a < c < |r| && 0 <= i < 8 && 0 <= j < 8 &&
        r[a].Position() == Shift(s.Position(), Directions[i]) && r[c].Position() == Shift(s.Position(), Directions[j])
        ==> i < j
  {
    var ps := NeighborPositions(s.Position(), n, b);
    var r := s.neighbors;
    NeighborsDistinct(s.Position(), n, b);
    NeighborsInOrder(s.Position(), n, b);
    forall k | 0 <= k < |ps|
      ensures r[k].Position() == ps[k]
    {
      ListedSpot(grid, n, b, s, k);
    }
    forall a, c | 0 <= a < c < |r|
      ensures r[a] != r[c]
    {
      assert r[a].Position() == ps[a] && r[c].Position() == ps[c];
    }
    forall a, c, i, j |
        0 <= a < c < |r| && 0 <= i < 8 && 0 <= j < 8 &&
        r[a].Position() == Shift(s.Position(), Directions[i]) && r[c].Position() == Shift(s.Position(), Directions[j])
      ensures i < j
    {
      assert ps[a] == Shift(s.Position(), Directions[i]) && ps[c] == Shift(s.Position(), Directions[j]);
    }
  }

  /** The cell under a click at pixel (y, x) on a board of rows rows drawn width pixels wide:
      the pixel lies in that cell's square. */
  function ClickedPos(y: nat, x: nat, rows: nat, width: nat): (p: Pos)
    requires 0 < rows <= width
    ensures var gap := width / rows;
      p.row * gap <= y < p.row * gap + gap && p.col * gap <= x < p.col * gap + gap
  {
    var gap := width / rows;
    Pos(y / gap, x / gap)
  }

  /** A click inside the drawn cells selects a cell of the board. */
  lemma ClickedOnBoard(y: nat, x: nat, rows: nat, width: nat)
    requires 0 < rows <= width && y < rows * (width / rows) && x < rows * (width / rows)
    ensures InBounds(ClickedPos(y, x, rows, width), rows)
  {
    var p := ClickedPos(y, x, rows, width);
    StripIndex(p.row, width / rows, y, rows);
    StripIndex(p.col, width / rows, x, rows);
  }

  /** A click in the square of the cell at (i, j), which starts at the spot's origin
      (i * gap, j * gap), selects that cell. */
  lemma ClickedSquare(i: nat, j: nat, rows: nat, width: nat, y: nat, x: nat)
    requires 0 < rows <= width
    requires i * (width / rows) <= y < i * (width / rows) + width / rows
    requires j * (width / rows) <= x < j * (width / rows) + width / rows
    ensures ClickedPos(y, x, rows, width) == Pos(i, j)
  {
    var gap := width / rows;
    StripUnique(i, ClickedPos(y, x, rows, width).row, gap, y);
    StripUnique(j, ClickedPos(y, x, rows, width).col, gap, x);
  }

  /** Strips of side gap do not overlap: a pixel lies in only one. */
  lemma StripUnique(a: nat, b: nat, gap: nat, v: nat)
    requires 0 < gap && a * gap <= v < a * gap + gap && b * gap <= v < b * gap + gap
    ensures a == b
  {
    if a < b {
      MulMonotonic(b, a + 1, gap);
    } else if b < a {
      MulMonotonic(a, b + 1, gap);
    }
  }

  /** A pixel left of rows strips of side gap lies in a strip of index below rows. */
  lemma StripIndex(k: nat, gap: nat, v: nat, rows: nat)
    requires k * gap <= v < rows * gap
    ensures k < rows
  {
    if k >= rows {
      MulMonotonic(k, rows, gap);
    }
  }

  lemma MulMonotonic(a: nat, b: nat, c: nat)
    requires a >= b
    ensures a * c >= b * c
  {
    assert a * c == b * c + (a - b) * c;
  }
}
