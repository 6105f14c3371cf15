/** The search's distance estimate: the Manhattan distance between two board positions. */
module Heuristic {
  import opened Grid

  /** h: the sum of the row and column differences. It lies between the king-move distance
      and twice that distance, and is zero exactly for equal positions. */
  function H(p1: Pos, p2: Pos): (d: nat)
    ensures d == 0 <==> p1 == p2
    ensures Chebyshev(p1, p2) <= d <= 2 * Chebyshev(p1, p2)
  {
    Abs(p1.row - p2.row) + Abs(p1.col - p2.col)
  }

  lemma HSymmetric(p1: Pos, p2: Pos)
    ensures H(p1, p2) == H(p2, p1)
  {
  }

  /** Every move costs 1 in the search, so the remaining cost on an open board is the king-move
      distance; h overestimates it exactly when both coordinates differ. */
  lemma HOverestimates(p1: Pos, p2: Pos)
    ensures H(p1, p2) > Chebyshev(p1, p2) <==> p1.row != p2.row && p1.col != p2.col
  {
  }

  /** A single diagonal move, which the search prices at 1, is estimated at 2. */
  lemma HDiagonalStep(p: Pos, q: Pos)
    requires Adjacent(p, q) && p.row != q.row && p.col != q.col
    ensures H(p, q) == 2 && Chebyshev(p, q) == 1
  {
  }

  /** One move changes h by at most 2, and an orthogonal move by at most 1. */
  lemma HStep(p: Pos, q: Pos, goal: Pos)
    requires Adjacent(p, q)
    ensures H(p, goal) <= H(q, goal) + 2
    ensures p.row == q.row || p.col == q.col ==> H(p, goal) <= H(q, goal) + 1
  {
  }
}
