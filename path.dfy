/** The predecessor table the search builds and the walk back along it that marks the path. */
module Path {
  import opened Grid
  import opened Scores

  /** Every recorded predecessor has a finite score strictly below its successor's. */
  ghost predicate Descending(cameFrom: map<Spot, Spot>, g: map<Spot, Score>)
  {
    forall n | n in cameFrom ::
      n in g && cameFrom[n] in g && g[n].Finite? && g[cameFrom[n]].Finite? && g[cameFrom[n]].v < g[n].v
  }

  /** start has no predecessor, and every other cell with a finite score has one. */
  ghost predicate Rooted(cameFrom: map<Spot, Spot>, g: map<Spot, Score>, start: Spot)
  {
    start !in cameFrom && forall s {:trigger s in cameFrom} | s in g && g[s].Finite? :: s == start || s in cameFrom
  }

  /** Every cell is in its predecessor's neighbour list. */
  ghost predicate Linked(cameFrom: map<Spot, Spot>)
    reads cameFrom.Values`neighbors
  {
    forall n | n in cameFrom :: n in cameFrom[n].neighbors
  }

  /** The predecessors of s, nearest first: the cells reconstruct_path visits from s. */
  ghost function Chain(cameFrom: map<Spot, Spot>, g: map<Spot, Score>, s: Spot): seq<Spot>
    requires Descending(cameFrom, g)
    decreases if s in cameFrom then g[s].v + 1 else 0
  {
    if s in cameFrom then [cameFrom[s]] + Chain(cameFrom, g, cameFrom[s]) else []
  }

  /** Each chain element is the predecessor of the one before it, the scores along the chain
      strictly decrease (so no cell repeats and the chain is no longer than s's score), and
      the chain stops at a cell with no predecessor. */
  lemma {:induction false} ChainSteps(cameFrom: map<Spot, Spot>, g: map<Spot, Score>, s: Spot)
    requires Descending(cameFrom, g)
    ensures var c := Chain(cameFrom, g, s);
      (c == [] <==> s !in cameFrom) &&
      (c != [] ==> c[0] == cameFrom[s] && c[|c| - 1] !in cameFrom) &&
      (forall k | 0 <= k < |c| - 1 :: c[k] in cameFrom && c[k + 1] == cameFrom[c[k]]) &&
      (forall k | 0 <= k < |c| :: c[k] in g && g[c[k]].Finite? && g[c[k]].v < g[s].v) &&
      (forall i, j | 0 <= i < j < |c| :: g[c[j]].v < g[c[i]].v)
    decreases if s in cameFrom then g[s].v + 1 else 0
  {
    if s in cameFrom {
      var p := cameFrom[s];
      var rest := Chain(cameFrom, g, p);
      ChainSteps(cameFrom, g, p);
      var c := [p] + rest;
      assert c == Chain(cameFrom, g, s);
      forall k | 0 <= k < |c| - 1
        ensures c[k] in cameFrom && c[k + 1] == cameFrom[c[k]]
      {
        if k > 0 {
          assert c[k] == rest[k - 1] && c[k + 1] == rest[k];
        }
      }
      forall i, j | 0 <= i < j < |c|
        ensures g[c[j]].v < g[c[i]].v
      {
        assert c[j] == rest[j - 1];
        if i > 0 {
          assert c[i] == rest[i - 1];
        }
      }
      forall k | 0 <= k < |c|
        ensures c[k] in g && g[c[k]].Finite? && g[c[k]].v < g[s].v
      {
        if k > 0 {
          assert c[k] == rest[k - 1];
        }
      }
    }
  }

  /** The chain from a reached cell other than start is a walk that ends at start, visits no
      cell twice, has at most score-many cells, and moves from neighbour to neighbour. */
  lemma ChainReachesStart(cameFrom: map<Spot, Spot>, g: map<Spot, Score>, start: Spot, s: Spot)
    requires Descending(cameFrom, g) && Rooted(cameFrom, g, start)
    requires s in g && g[s].Finite? && s != start
    ensures var c := Chain(cameFrom, g, s);
      c != [] && c[|c| - 1] == start && Distinct(c) && |c| <= g[s].v
  {
    var c := Chain(cameFrom, g, s);
    ChainSteps(cameFrom, g, s);
    assert c[|c| - 1] in g;
    assert Distinct(c) by {
      forall i, j | 0 <= i < j < |c|
        ensures c[i] != c[j]
      {
        assert g[c[j]].v < g[c[i]].v;
      }
    }
    ScoresBound(c, g, g[s].v);
  }

  /** A sequence whose scores are strictly decreasing and below m has at most m cells. */
  lemma {:induction false} ScoresBound(c: seq<Spot>, g: map<Spot, Score>, m: nat)
    requires forall k | 0 <= k < |c| :: c[k] in g && g[c[k]].Finite? && g[c[k]].v < m
    requires forall i, j | 0 <= i < j < |c| :: g[c[j]].v < g[c[i]].v
    ensures |c| <= m
    decreases m
  {
    if c != [] {
      var rest := c[1..];
      forall k | 0 <= k < |rest|
        ensures rest[k] in g && g[rest[k]].Finite? && g[rest[k]].v < g[c[0]].v
      {
        assert rest[k] == c[k + 1];
      }
      forall i, j | 0 <= i < j < |rest|
        ensures g[rest[j]].v < g[rest[i]].v
      {
        assert rest[i] == c[i + 1] && rest[j] == c[j + 1];
      }
      ScoresBound(rest, g, g[c[0]].v);
    }
  }

  /** Along the chain every cell is in the neighbour list of the next one, and s is in the
      list of the first. */
  lemma ChainWalks(cameFrom: map<Spot, Spot>, g: map<Spot, Score>, s: Spot)
    requires Descending(cameFrom, g) && Linked(cameFrom)
    ensures var c := Chain(cameFrom, g, s);
      (c != [] ==> s in c[0].neighbors) && forall k | 0 <= k < |c| - 1 :: c[k] in c[k + 1].neighbors
  {
    ChainSteps(cameFrom, g, s);
  }

  /** One step of the walk: the chain of cur is its predecessor followed by the
      predecessor's own chain, which does not contain that predecessor again. */
  lemma ChainAdvance(cameFrom: map<Spot, Spot>, g: map<Spot, Score>, cur: Spot)
    requires Descending(cameFrom, g) && cur in cameFrom
    ensures |Chain(cameFrom, g, cur)| == 1 + |Chain(cameFrom, g, cameFrom[cur])|
    ensures cameFrom[cur] in Chain(cameFrom, g, cur) && cameFrom[cur] !in Chain(cameFrom, g, cameFrom[cur])
    ensures forall s | s in Chain(cameFrom, g, cameFrom[cur]) :: s in Chain(cameFrom, g, cur)
    ensures forall s | s in Chain(cameFrom, g, cur) && s != cameFrom[cur] :: s in Chain(cameFrom, g, cameFrom[cur])
  {
    var p := cameFrom[cur];
    assert Chain(cameFrom, g, cur) == [p] + Chain(cameFrom, g, p);
    ChainSteps(cameFrom, g, p);
  }

  /** The chain of s consists of recorded predecessors. */
  lemma ChainInTable(cameFrom: map<Spot, Spot>, g: map<Spot, Score>, s: Spot)
    requires Descending(cameFrom, g)
    ensures forall p | p in Chain(cameFrom, g, s) :: p in cameFrom.Values
  {
    var c := Chain(cameFrom, g, s);
    ChainSteps(cameFrom, g, s);
    forall p | p in c
      ensures p in cameFrom.Values
    {
      var k :| 0 <= k < |c| && c[k] == p;
      if k > 0 {
        assert c[k] == cameFrom[c[k - 1]];
      }
    }
  }

  /** reconstruct_path: walks back from current through the predecessor table, marking every
      predecessor as Path and drawing once per step. It marks exactly the chain of current,
      leaves every other cell as it was, and returns the number of draws. */
  method ReconstructPath(cameFrom: map<Spot, Spot>, current: Spot, ghost g: map<Spot, Score>) returns (draws: nat)
    requires Descending(cameFrom, g)
    modifies cameFrom.Values`state
    ensures forall s | s in Chain(cameFrom, g, current) :: s.state == Path
    ensures forall s | s in cameFrom.Values && s !in Chain(cameFrom, g, current) :: s.state == old(s.state)
    ensures draws == |Chain(cameFrom, g, current)|
  {
    var cur := current;
    draws := 0;
    ChainInTable(cameFrom, g, current);
    while cur in cameFrom
      invariant draws + |Chain(cameFrom, g, cur)| == |Chain(cameFrom, g, current)|
      invariant forall s | s in Chain(cameFrom, g, cur) :: s in Chain(cameFrom, g, current)
      invariant forall s | s in cameFrom.Values && s in Chain(cameFrom, g, current) && s !in Chain(cameFrom, g, cur) ::
        s.state == Path
      invariant forall s | s in cameFrom.Values && (s !in Chain(cameFrom, g, current) || s in Chain(cameFrom, g, cur)) ::
        s.state == old(s.state)
      decreases if cur in cameFrom then g[cur].v + 1 else 0
    {
      ChainAdvance(cameFrom, g, cur);
      cur := cameFrom[cur];
      cur.Mark(Path);
      draws := draws + 1;
    }
  }
}
