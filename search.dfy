/** The A* search of the simulation: the score tables, the open set and its membership set,
    the predecessor table, and the loop that expands the best open cell until the end cell is
    taken out of the open set or nothing is left in it. */
module Search {
  import opened Grid
  import opened Heuristic
  import opened Scores
  import opened OpenSet
  import opened Path

  /** The local variables of algorithm besides the cell being expanded: the insertion counter,
      the open set and its membership set, the predecessor table and the two score tables. */
  datatype Tables = Tables(count: nat, openSet: seq<Entry<Spot>>, openSetHash: set<Spot>,
                           cameFrom: map<Spot, Spot>, gScore: map<Spot, Score>, fScore: map<Spot, Score>)

  /** nb records the neighbour list of every cell of cells. The search never changes a list,
      so the invariants below are stated over this record. */
  ghost predicate Snapshot(cells: set<Spot>, nb: map<Spot, seq<Spot>>)
    reads cells`neighbors
  {
    nb.Keys == cells && forall s | s in cells :: s.neighbors == nb[s]
  }

  /** Every neighbour of a cell of cells is itself in cells, so the score tables, which cover
      the grid, have an entry for it. */
  ghost predicate Inside(cells: set<Spot>, nb: map<Spot, seq<Spot>>)
  {
    nb.Keys == cells && forall s, m {:trigger m in nb[s]} | s in cells && m in nb[s] :: m in cells
  }

  /** The score tables cover the grid and start costs 0. */
  ghost predicate ScoresOk(cells: set<Spot>, start: Spot, end: Spot, g: map<Spot, Score>, f: map<Spot, Score>)
  {
    g.Keys == cells && f.Keys == cells && start in cells && end in cells && g[start] == Finite(0)
  }

  /** The predecessor table stays inside the grid, scores fall along it, it leads back to
      start, and no score exceeds the number of cells that have a predecessor. */
  ghost predicate TreeOk(cells: set<Spot>, start: Spot, g: map<Spot, Score>, cameFrom: map<Spot, Spot>)
  {
    Descending(cameFrom, g) && Rooted(cameFrom, g, start) &&
    cameFrom.Keys <= cells && cameFrom.Values <= cells &&
    forall s | s in g && g[s].Finite? :: g[s].v <= |cameFrom.Keys|
  }

  /** Every cell is in the recorded neighbour list of its predecessor. */
  ghost predicate LinkedIn(cameFrom: map<Spot, Spot>, nb: map<Spot, seq<Spot>>)
  {
    forall n | n in cameFrom :: cameFrom[n] in nb && n in nb[cameFrom[n]]
  }

  /** The open set: counters ordered and at most count, no cell twice, the membership set equal
      to the queued cells, and every queued cell reached: start, or a cell with a predecessor. */
  ghost predicate QueueOk(q: seq<Entry<Spot>>, hash: set<Spot>, count: nat, g: map<Spot, Score>,
                          cameFrom: map<Spot, Spot>, start: Spot)
  {
    Ordered(q) && Unique(q) && Items(q) == hash &&
    forall k | 0 <= k < |q| ::
      q[k].count <= count && q[k].item in g && g[q[k].item].Finite? && (q[k].item == start || q[k].item in cameFrom)
  }

  /** Every neighbour of an expanded cell has been reached. */
  ghost predicate Reached(expanded: set<Spot>, nb: map<Spot, seq<Spot>>, g: map<Spot, Score>)
  {
    forall s, m {:trigger m in nb[s]} | s in expanded && s in nb && m in nb[s] :: m in g && g[m].Finite?
  }

  /** Every reached cell is queued or expanded. */
  ghost predicate Covered(g: map<Spot, Score>, hash: set<Spot>, expanded: set<Spot>)
  {
    forall s | s in g && g[s].Finite? :: s in hash || s in expanded
  }

  /** What holds of the tables at the top of the search loop, expanded being the cells whose
      neighbours have all been relaxed. */
  ghost predicate Inv(cells: set<Spot>, nb: map<Spot, seq<Spot>>, start: Spot, end: Spot, t: Tables, expanded: set<Spot>)
  {
    Inside(cells, nb) && ScoresOk(cells, start, end, t.gScore, t.fScore) &&
    TreeOk(cells, start, t.gScore, t.cameFrom) && LinkedIn(t.cameFrom, nb) &&
    QueueOk(t.openSet, t.openSetHash, t.count, t.gScore, t.cameFrom, start) &&
    expanded <= cells && end !in expanded && Reached(expanded, nb, t.gScore)
  }

  /** From t to r the predecessor table and the membership set only grew, every cell that
      joined the membership set has a predecessor, and no score went up. */
  ghost predicate Advances(t: Tables, r: Tables)
  {
    t.cameFrom.Keys <= r.cameFrom.Keys && t.openSetHash <= r.openSetHash &&
    (forall s | s in r.openSetHash && s !in t.openSetHash :: s in r.cameFrom) &&
    forall s | s in t.gScore :: s in r.gScore && AtMost(r.gScore[s], t.gScore[s])
  }

  /** A cell shows the state it had when the search started, or it has a predecessor and is
      marked Open or Closed. */
  ghost predicate MarkOk(s: Spot, initial: map<Spot, CellState>, cameFrom: map<Spot, Spot>)
    reads s`state
  {
    s in initial && (s.state == initial[s] || (s in cameFrom && (s.state == Open || s.state == Closed)))
  }

  ghost predicate Marked(cells: set<Spot>, initial: map<Spot, CellState>, cameFrom: map<Spot, Spot>)
    reads cells`state
  {
    forall s | s in cells :: MarkOk(s, initial, cameFrom)
  }

  /** s is in the neighbour list of some cell of cells. */
  ghost predicate Listed(cells: set<Spot>, s: Spot)
    reads cells`neighbors
  {
    exists c | c in cells :: s in c.neighbors
  }

  /** w, read from its last cell back to its first, is a walk along neighbour lists: each
      cell is in the list of the cell after it. */
  ghost predicate Route(w: seq<Spot>)
    reads (set k | 0 <= k < |w| :: w[k])`neighbors
  {
    forall k | 0 <= k < |w| - 1 :: w[k] in w[k + 1].neighbors
  }

  function Pot(a: Score, top: nat): nat
  {
    if a.Finite? then a.v else top
  }

  /** The termination measure of the search loop: the pairs (s, k) with k below s's score,
      infinity counting as the number of cells. */
  ghost function PotentialOf(cells: set<Spot>, g: map<Spot, Score>): set<(Spot, nat)>
    requires cells <= g.Keys
  {
    set s: Spot, k: nat | s in cells && k < Pot(g[s], |cells|) :: (s, k)
  }

  /** The tables algorithm starts from: start queued with priority 0 and counter 0, every g
      and f infinite except start's, whose g is 0 and whose f is h to the end cell. */
  function Setup(cells: set<Spot>, start: Spot, end: Spot): (r: Tables)
    ensures r.openSetHash == Items(r.openSet) == {start} && r.cameFrom == map[]
    ensures r.gScore.Keys == r.fScore.Keys == cells + {start}
    ensures forall s | s in r.gScore :: r.gScore[s].Finite? <==> s == start
    ensures r.gScore[start] == Finite(0) && r.fScore[start] == Finite(H(start.Position(), end.Position()))
  {
    Tables(0, [Entry(0, 0, start)], {start}, map[],
           (map s | s in cells :: Infinite)[start := Finite(0)],
           (map s | s in cells :: Infinite)[start := Finite(H(start.Position(), end.Position()))])
  }

  /** One pass of the neighbour loop: when going through current gives neighbor a strictly
      lower cost, record current as its predecessor, lower its g, set its f to the new g plus
      h to the end cell, and, unless it is already queued, queue it under the next counter. */
  function Relaxed(t: Tables, current: Spot, neighbor: Spot, end: Spot): (r: Tables)
    requires current in t.gScore && t.gScore[current].Finite? && neighbor in t.gScore && neighbor in t.fScore
    ensures r.gScore.Keys == t.gScore.Keys && r.fScore.Keys == t.fScore.Keys
    ensures r.gScore[current] == t.gScore[current]
    ensures t.openSetHash <= r.openSetHash <= t.openSetHash + {neighbor}
    ensures neighbor == current ==> r == t
  {
    var temp := t.gScore[current].v + 1;
    if Less(Finite(temp), t.gScore[neighbor]) then
      var f := temp + H(neighbor.Position(), end.Position());
      var lowered := t.(cameFrom := t.cameFrom[neighbor := current], gScore := t.gScore[neighbor := Finite(temp)],
                        fScore := t.fScore[neighbor := Finite(f)]);
      if neighbor in t.openSetHash then lowered
      else lowered.(count := t.count + 1, openSet := t.openSet + [Entry(f, t.count + 1, neighbor)],
                    openSetHash := t.openSetHash + {neighbor})
    else
      t
  }

  /** Relaxing touches neighbor's entries only, and only when going through current makes
      its cost strictly lower: its g becomes the lower cost, its predecessor current, and its f
      that cost plus h to the end cell. Otherwise nothing changes. */
  lemma RelaxedChanges(t: Tables, current: Spot, neighbor: Spot, end: Spot)
    requires current in t.gScore && t.gScore[current].Finite? && neighbor in t.gScore && neighbor in t.fScore
    ensures var r := Relaxed(t, current, neighbor, end);
      var lower := Less(Plus(t.gScore[current], 1), t.gScore[neighbor]);
      (forall s | s in t.gScore && s != neighbor :: r.gScore[s] == t.gScore[s]) &&
      (forall s | s in t.fScore && s != neighbor :: r.fScore[s] == t.fScore[s]) &&
      (forall s | s != neighbor :: (s in r.cameFrom <==> s in t.cameFrom) && (s in t.cameFrom ==> r.cameFrom[s] == t.cameFrom[s])) &&
      (lower <==> r.gScore[neighbor] != t.gScore[neighbor]) &&
      (lower ==> r.gScore[neighbor] == Plus(t.gScore[current], 1) && neighbor in r.cameFrom && r.cameFrom[neighbor] == current &&
                 r.fScore[neighbor] == Plus(r.gScore[neighbor], H(neighbor.Position(), end.Position()))) &&
      (!lower ==> r == t)
  {
  }

  /** The neighbour loop over the cells ns, in order. */
  function RelaxAll(t: Tables, current: Spot, ns: seq<Spot>, end: Spot): (r: Tables)
    requires current in t.gScore && t.gScore[current].Finite?
    requires forall m | m in ns :: m in t.gScore && m in t.fScore
    ensures r.gScore.Keys == t.gScore.Keys && r.fScore.Keys == t.fScore.Keys
    ensures r.gScore[current] == t.gScore[current]
    ensures t.openSetHash <= r.openSetHash
    ensures current in r.openSetHash ==> current in t.openSetHash
  {
    if ns == [] then t
    else Relaxed(RelaxAll(t, current, ns[..|ns| - 1], end), current, ns[|ns| - 1], end)
  }

  /** One more pass of the neighbour loop relaxes the next neighbour. */
  lemma RelaxAllNext(t: Tables, current: Spot, ns: seq<Spot>, k: nat, end: Spot)
    requires current in t.gScore && t.gScore[current].Finite?
    requires forall m | m in ns :: m in t.gScore && m in t.fScore
    requires k < |ns|
    ensures RelaxAll(t, current, ns[..k + 1], end) == Relaxed(RelaxAll(t, current, ns[..k], end), current, ns[k], end)
  {
    assert ns[..k + 1][..k] == ns[..k];
  }

  /** The body of the neighbour loop of algorithm: Relaxed, marking neighbor Open when it
      joins the open set. */
  method Relax(current: Spot, neighbor: Spot, end: Spot, t: Tables) returns (r: Tables)
    requires current in t.gScore && t.gScore[current].Finite? && neighbor in t.gScore && neighbor in t.fScore
    modifies neighbor`state
    ensures r == Relaxed(t, current, neighbor, end)
    ensures neighbor.state == if neighbor in r.openSetHash && neighbor !in t.openSetHash then Open else old(neighbor.state)
  {
    r := t;
    var temp := r.gScore[current].v + 1;
    if Less(Finite(temp), r.gScore[neighbor]) {
      var f := temp + H(neighbor.Position(), end.Position());
      r := r.(cameFrom := r.cameFrom[neighbor := current], gScore := r.gScore[neighbor := Finite(temp)],
              fScore := r.fScore[neighbor := Finite(f)]);
      if neighbor !in r.openSetHash {
        r := r.(count := r.count + 1);
        r := r.(openSet := r.openSet + [Entry(f, r.count, neighbor)], openSetHash := r.openSetHash + {neighbor});
        neighbor.Mark(Open);
      }
    }
  }

  /** The neighbour loop of algorithm: relaxes every neighbour of current in list order,
      marking Open each cell it adds to the open set and leaving every other cell as it was. */
  method Expand(current: Spot, end: Spot, t: Tables, ghost cells: set<Spot>) returns (r: Tables)
    requires current in t.gScore && t.gScore[current].Finite?
    requires forall m | m in current.neighbors :: m in cells && m in t.gScore && m in t.fScore
    modifies cells`state
    ensures r == RelaxAll(t, current, old(current.neighbors), end)
    ensures forall s | s in cells :: s.state == if s in r.openSetHash && s !in t.openSetHash then Open else old(s.state)
  {
    var ns := current.neighbors;
    r := t;
    for k := 0 to |ns|
      invariant r == RelaxAll(t, current, ns[..k], end)
      invariant t.openSetHash <= r.openSetHash
      invariant forall s | s in cells :: s.state == if s in r.openSetHash && s !in t.openSetHash then Open else old(s.state)
    {
      var neighbor := ns[k];
      var p := r;
      RelaxAllNext(t, current, ns, k, end);
      r := Relax(current, neighbor, end, r);
      assert p.openSetHash <= r.openSetHash <= p.openSetHash + {neighbor};
    }
    assert ns[..|ns|] == ns;
  }

  /** The tables algorithm starts from satisfy the search's invariants, with nothing expanded. */
  lemma SetupOk(cells: set<Spot>, nb: map<Spot, seq<Spot>>, start: Spot, end: Spot)
    requires start in cells && end in cells && Inside(cells, nb)
    ensures Inv(cells, nb, start, end, Setup(cells, start, end), {})
    ensures Covered(Setup(cells, start, end).gScore, {start}, {})
  {
    var t := Setup(cells, start, end);
    var none: map<Spot, Spot> := map[];
    forall s {:trigger s in none} | s in t.gScore && t.gScore[s].Finite?
      ensures s == start
    {
    }
    assert Items(t.openSet) == {start} by {
      assert t.openSet[0] in t.openSet;
    }
  }

  /** One relaxation keeps the invariants and the coverage of the reached cells, only adds
      to the tables, leaves neighbor reached, and either changes nothing or strictly shrinks
      the termination measure. */
  lemma RelaxedKeeps(cells: set<Spot>, nb: map<Spot, seq<Spot>>, start: Spot, end: Spot, t: Tables,
                     expanded: set<Spot>, done: set<Spot>, current: Spot, neighbor: Spot)
    requires Inv(cells, nb, start, end, t, expanded) && Covered(t.gScore, t.openSetHash, done)
    requires current in cells && neighbor in nb[current] && t.gScore[current].Finite?
    ensures var r := Relaxed(t, current, neighbor, end);
      Inv(cells, nb, start, end, r, expanded) && Covered(r.gScore, r.openSetHash, done) && Advances(t, r) &&
      r.gScore[neighbor].Finite? && (r == t || PotentialOf(cells, r.gScore) < PotentialOf(cells, t.gScore))
  {
    TreeAfterRelaxed(cells, start, end, t, current, neighbor);
    PotentialAfterRelaxed(cells, start, end, t, current, neighbor);
    QueueAfterRelaxed(cells, start, end, t, current, neighbor);
    LinksAfterRelaxed(nb, end, t, current, neighbor);
    ReachAfterRelaxed(nb, end, t, expanded, done, current, neighbor);
  }

  /** A relaxation keeps the score tables' shape and the predecessor table in order. */
  lemma TreeAfterRelaxed(cells: set<Spot>, start: Spot, end: Spot, t: Tables, current: Spot, neighbor: Spot)
    requires ScoresOk(cells, start, end, t.gScore, t.fScore) && TreeOk(cells, start, t.gScore, t.cameFrom)
    requires current in cells && neighbor in cells && t.gScore[current].Finite?
    ensures var r := Relaxed(t, current, neighbor, end);
      ScoresOk(cells, start, end, r.gScore, r.fScore) && TreeOk(cells, start, r.gScore, r.cameFrom)
  {
    var temp := t.gScore[current].v + 1;
    if Less(Finite(temp), t.gScore[neighbor]) {
      var r := Relaxed(t, current, neighbor, end);
      assert r.gScore == t.gScore[neighbor := Finite(temp)] && r.cameFrom == t.cameFrom[neighbor := current];
      TreeAfterRelax(cells, start, t.gScore, t.cameFrom, current, neighbor, temp);
    }
  }

  /** A relaxation either changes nothing or shrinks the termination measure. */
  lemma PotentialAfterRelaxed(cells: set<Spot>, start: Spot, end: Spot, t: Tables, current: Spot, neighbor: Spot)
    requires ScoresOk(cells, start, end, t.gScore, t.fScore) && TreeOk(cells, start, t.gScore, t.cameFrom)
    requires current in cells && neighbor in cells && t.gScore[current].Finite?
    ensures var r := Relaxed(t, current, neighbor, end);
      r == t || PotentialOf(cells, r.gScore) < PotentialOf(cells, t.gScore)
  {
    var temp := t.gScore[current].v + 1;
    if Less(Finite(temp), t.gScore[neighbor]) {
      var r := Relaxed(t, current, neighbor, end);
      assert r.gScore == t.gScore[neighbor := Finite(temp)];
      TreeAfterRelax(cells, start, t.gScore, t.cameFrom, current, neighbor, temp);
      PotentialDrops(cells, t.gScore, neighbor, temp);
    }
  }

  /** A relaxation keeps the open set in order. */
  lemma QueueAfterRelaxed(cells: set<Spot>, start: Spot, end: Spot, t: Tables, current: Spot, neighbor: Spot)
    requires ScoresOk(cells, start, end, t.gScore, t.fScore)
    requires QueueOk(t.openSet, t.openSetHash, t.count, t.gScore, t.cameFrom, start)
    requires current in cells && neighbor in cells && t.gScore[current].Finite?
    ensures var r := Relaxed(t, current, neighbor, end);
      QueueOk(r.openSet, r.openSetHash, r.count, r.gScore, r.cameFrom, start)
  {
    var temp := t.gScore[current].v + 1;
    if Less(Finite(temp), t.gScore[neighbor]) {
      var g := t.gScore[neighbor := Finite(temp)];
      var from := t.cameFrom[neighbor := current];
      QueueAfterRelax(t.openSet, t.openSetHash, t.count, t.gScore, t.cameFrom, start, neighbor, current, temp);
      if neighbor !in t.openSetHash {
        var f := temp + H(neighbor.Position(), end.Position());
        QueueAfterPush(t.openSet, t.openSetHash, t.count, g, from, start, neighbor, f);
      }
    }
  }

  /** A relaxation records current as the predecessor of one of its own neighbours only. */
  lemma LinksAfterRelaxed(nb: map<Spot, seq<Spot>>, end: Spot, t: Tables, current: Spot, neighbor: Spot)
    requires LinkedIn(t.cameFrom, nb) && current in nb && neighbor in nb[current]
    requires current in t.gScore && t.gScore[current].Finite? && neighbor in t.gScore && neighbor in t.fScore
    ensures LinkedIn(Relaxed(t, current, neighbor, end).cameFrom, nb)
  {
  }

  /** A relaxation only lowers scores and only adds to the tables, so what was reached stays
      reached and covered; and it leaves neighbor reached. */
  lemma ReachAfterRelaxed(nb: map<Spot, seq<Spot>>, end: Spot, t: Tables, expanded: set<Spot>, done: set<Spot>,
                          current: Spot, neighbor: Spot)
    requires Reached(expanded, nb, t.gScore) && Covered(t.gScore, t.openSetHash, done)
    requires current in t.gScore && t.gScore[current].Finite? && neighbor in t.gScore && neighbor in t.fScore
    ensures var r := Relaxed(t, current, neighbor, end);
      Reached(expanded, nb, r.gScore) && Covered(r.gScore, r.openSetHash, done) && Advances(t, r) &&
      r.gScore[neighbor].Finite?
  {
  }

  /** The whole neighbour loop over ns keeps what one relaxation keeps, and leaves every
      cell of ns reached. */
  lemma {:induction false} RelaxAllKeeps(cells: set<Spot>, nb: map<Spot, seq<Spot>>, start: Spot, end: Spot, t: Tables,
                                         expanded: set<Spot>, done: set<Spot>, current: Spot, ns: seq<Spot>)
    requires Inv(cells, nb, start, end, t, expanded) && Covered(t.gScore, t.openSetHash, done)
    requires current in cells && t.gScore[current].Finite? && forall m | m in ns :: m in nb[current]
    ensures var r := RelaxAll(t, current, ns, end);
      Inv(cells, nb, start, end, r, expanded) && Covered(r.gScore, r.openSetHash, done) && Advances(t, r) &&
      (forall m | m in ns :: r.gScore[m].Finite?) &&
      (r == t || PotentialOf(cells, r.gScore) < PotentialOf(cells, t.gScore))
    decreases |ns|
  {
    if ns != [] {
      var init := ns[..|ns| - 1];
      var last := ns[|ns| - 1];
      RelaxAllKeeps(cells, nb, start, end, t, expanded, done, current, init);
      var p := RelaxAll(t, current, init, end);
      RelaxedKeeps(cells, nb, start, end, p, expanded, done, current, last);
      var r := Relaxed(p, current, last, end);
      assert r == RelaxAll(t, current, ns, end);
      AdvancesTrans(t, p, r);
      forall m | m in ns
        ensures r.gScore[m].Finite?
      {
        if m != last {
          assert m in init;
          assert AtMost(r.gScore[m], p.gScore[m]);
        }
      }
    }
  }

  lemma AdvancesTrans(a: Tables, b: Tables, c: Tables)
    requires Advances(a, b) && Advances(b, c)
    ensures Advances(a, c)
  {
    forall s | s in c.openSetHash && s !in a.openSetHash
      ensures s in c.cameFrom
    {
      if s in b.openSetHash {
        assert s in b.cameFrom;
      }
    }
  }

  lemma {:induction false} SubsetSize<T>(a: set<T>, b: set<T>)
    requires a <= b
    ensures |a| <= |b|
    decreases |a|
  {
    if a != {} {
      var x :| x in a;
      SubsetSize(a - {x}, b - {x});
    }
  }

  /** Lowering neighbor's score to temp through current keeps the predecessor table in shape;
      neighbor is neither start nor current, and temp is below the number of cells. */
  lemma TreeAfterRelax(cells: set<Spot>, start: Spot, g: map<Spot, Score>, cameFrom: map<Spot, Spot>,
                       current: Spot, neighbor: Spot, temp: nat)
    requires TreeOk(cells, start, g, cameFrom) && g.Keys == cells && start in cells && g[start] == Finite(0)
    requires current in cells && neighbor in cells && g[current].Finite? && temp == g[current].v + 1
    requires Less(Finite(temp), g[neighbor])
    ensures neighbor != start && neighbor != current && temp < |cells|
    ensures TreeOk(cells, start, g[neighbor := Finite(temp)], cameFrom[neighbor := current])
  {
    DescendingAfterRelax(g, cameFrom, current, neighbor, temp);
    RootedAfterRelax(g, cameFrom, start, current, neighbor, temp);
    assert neighbor in cameFrom ==> g[neighbor].Finite?;
    BoundAfterRelax(cells, start, g, cameFrom, current, neighbor, temp);
  }

  lemma DescendingAfterRelax(g: map<Spot, Score>, cameFrom: map<Spot, Spot>, current: Spot, neighbor: Spot, temp: nat)
    requires Descending(cameFrom, g) && current in g && neighbor in g && g[current].Finite? && temp == g[current].v + 1
    requires Less(Finite(temp), g[neighbor])
    ensures Descending(cameFrom[neighbor := current], g[neighbor := Finite(temp)])
  {
    var g' := g[neighbor := Finite(temp)];
    var from := cameFrom[neighbor := current];
    forall n | n in from
      ensures n in g' && from[n] in g' && g'[n].Finite? && g'[from[n]].Finite? && g'[from[n]].v < g'[n].v
    {
      if n != neighbor {
        assert n in cameFrom && from[n] == cameFrom[n];
      }
    }
  }

  lemma RootedAfterRelax(g: map<Spot, Score>, cameFrom: map<Spot, Spot>, start: Spot, current: Spot, neighbor: Spot, temp: nat)
    requires Rooted(cameFrom, g, start) && start in g && g[start] == Finite(0) && neighbor in g
    ensures neighbor != start ==> Rooted(cameFrom[neighbor := current], g[neighbor := Finite(temp)], start)
  {
    var g' := g[neighbor := Finite(temp)];
    var from := cameFrom[neighbor := current];
    forall s {:trigger s in from} | s in g' && g'[s].Finite?
      ensures s == start || s in from
    {
      if s != neighbor {
        assert g[s] == g'[s];
        assert s in cameFrom || s == start;
      }
    }
  }

  lemma BoundAfterRelax(cells: set<Spot>, start: Spot, g: map<Spot, Score>, cameFrom: map<Spot, Spot>,
                        current: Spot, neighbor: Spot, temp: nat)
    requires forall s | s in g && g[s].Finite? :: g[s].v <= |cameFrom.Keys|
    requires cameFrom.Keys <= cells && start in cells && start !in cameFrom && neighbor != start
    requires current in g && neighbor in g && neighbor in cells && g[current].Finite? && temp == g[current].v + 1
    requires Less(Finite(temp), g[neighbor]) && (neighbor in cameFrom ==> g[neighbor].Finite?)
    ensures temp < |cells|
    ensures forall s | s in g && s != neighbor && g[s].Finite? :: g[s].v <= |cameFrom[neighbor := current].Keys|
    ensures temp <= |cameFrom[neighbor := current].Keys|
  {
    var keys := cameFrom[neighbor := current].Keys;
    assert keys == cameFrom.Keys + {neighbor};
    if neighbor in cameFrom {
      assert keys == cameFrom.Keys;
      assert temp < g[neighbor].v <= |cameFrom.Keys|;
    } else {
      assert |keys| == |cameFrom.Keys| + 1;
      assert g[current].v <= |cameFrom.Keys|;
    }
    assert keys <= cells - {start};
    SubsetSize(keys, cells - {start});
    assert |cells - {start}| == |cells| - 1;
  }

  lemma QueueAfterRelax(q: seq<Entry<Spot>>, hash: set<Spot>, count: nat, g: map<Spot, Score>,
                        cameFrom: map<Spot, Spot>, start: Spot, neighbor: Spot, current: Spot, temp: nat)
    requires QueueOk(q, hash, count, g, cameFrom, start)
    ensures QueueOk(q, hash, count, g[neighbor := Finite(temp)], cameFrom[neighbor := current], start)
  {
  }

  lemma QueueAfterPush(q: seq<Entry<Spot>>, hash: set<Spot>, count: nat, g: map<Spot, Score>,
                       cameFrom: map<Spot, Spot>, start: Spot, neighbor: Spot, f: nat)
    requires QueueOk(q, hash, count, g, cameFrom, start)
    requires neighbor !in hash && neighbor in g && g[neighbor].Finite? && neighbor in cameFrom
    ensures QueueOk(q + [Entry(f, count + 1, neighbor)], hash + {neighbor}, count + 1, g, cameFrom, start)
  {
    AppendKeeps(q, Entry(f, count + 1, neighbor));
    var r := q + [Entry(f, count + 1, neighbor)];
    forall k | 0 <= k < |r|
      ensures r[k].count <= count + 1 && r[k].item in g && g[r[k].item].Finite? &&
              (r[k].item == start || r[k].item in cameFrom)
    {
      if k < |q| {
        assert r[k] == q[k];
      }
    }
  }

  lemma QueueAfterPop(q: seq<Entry<Spot>>, hash: set<Spot>, count: nat, g: map<Spot, Score>,
                      cameFrom: map<Spot, Spot>, start: Spot, i: nat)
    requires QueueOk(q, hash, count, g, cameFrom, start) && i < |q|
    ensures QueueOk(RemoveAt(q, i), hash - {q[i].item}, count, g, cameFrom, start)
  {
    RemoveAtKeeps(q, i);
    var r := RemoveAt(q, i);
    forall k | 0 <= k < |r|
      ensures r[k].count <= count && r[k].item in g && g[r[k].item].Finite? &&
              (r[k].item == start || r[k].item in cameFrom)
    {
      assert r[k] == if k < i then q[k] else q[k + 1];
    }
  }

  /** A strictly lower score for cell n, below its old measure, removes the pair (n, t) from
      the measure and adds none. */
  lemma PotentialDrops(cells: set<Spot>, g: map<Spot, Score>, n: Spot, t: nat)
    requires cells <= g.Keys && n in cells && t < Pot(g[n], |cells|)
    ensures PotentialOf(cells, g[n := Finite(t)]) < PotentialOf(cells, g)
  {
    var g' := g[n := Finite(t)];
    assert (n, t) in PotentialOf(cells, g);
    assert (n, t) !in PotentialOf(cells, g');
  }

  /** Every neighbour of a cell of cells is itself in cells: the score tables, built over the
      grid, have an entry for every cell the search can reach. */
  ghost predicate ListsInside(cells: set<Spot>)
    reads cells`neighbors
  {
    forall s, m {:trigger m in s.neighbors} | s in cells && m in s.neighbors :: m in cells
  }

  /** On a grid whose neighbour lists are fresh, every listed neighbour is a cell of the grid. */
  lemma RefreshedInside(grid: seq<seq<Spot>>, n: nat)
    requires WellFormed(grid, n) && Refreshed(grid, n)
    ensures ListsInside(Cells(grid))
  {
    forall s, m | s in Cells(grid) && m in s.neighbors
      ensures m in Cells(grid)
    {
      NeighborListExactly(grid, n, s, m);
    }
  }

  /** On a grid whose neighbour lists are fresh, a cell on some cell's list is not a barrier:
      the search, which only opens or closes listed cells, never repaints a barrier. */
  lemma ListedNotBarrier(grid: seq<seq<Spot>>, n: nat, s: Spot)
    requires WellFormed(grid, n) && Refreshed(grid, n) && Listed(Cells(grid), s)
    ensures s.state != Barrier && s in Cells(grid)
  {
    var c :| c in Cells(grid) && s in c.neighbors;
    NeighborListExactly(grid, n, c, s);
  }

  /** A cell whose state differs from the one it started with has a predecessor, so it is in
      the neighbour list of a cell of the grid, and it is marked Open or Closed. */
  lemma MarksListed(cells: set<Spot>, nb: map<Spot, seq<Spot>>, initial: map<Spot, CellState>,
                    cameFrom: map<Spot, Spot>, s: Spot)
    requires Snapshot(cells, nb) && LinkedIn(cameFrom, nb) && cameFrom.Values <= cells
    requires MarkOk(s, initial, cameFrom) && s.state != initial[s]
    ensures (s.state == Open || s.state == Closed) && Listed(cells, s)
  {
    var c := cameFrom[s];
    assert c in cells && s in c.neighbors;
  }

  /** Once the open set is empty, every cell on a walk from start along neighbour lists has
      been expanded. */
  lemma {:induction false} WalkExpanded(cells: set<Spot>, nb: map<Spot, seq<Spot>>, g: map<Spot, Score>,
                                        expanded: set<Spot>, w: seq<Spot>, k: nat)
    requires Snapshot(cells, nb) && expanded <= cells && Reached(expanded, nb, g) && Covered(g, {}, expanded)
    requires Route(w) && k < |w| && w[|w| - 1] in expanded
    ensures w[k] in expanded
    decreases |w| - k
  {
    if k < |w| - 1 {
      WalkExpanded(cells, nb, g, expanded, w, k + 1);
      assert w[k] in nb[w[k + 1]];
    }
  }

  /** When the open set runs empty without the end cell having been taken out of it, no walk
      along neighbour lists leads from start to the end cell. */
  lemma NoRoute(cells: set<Spot>, nb: map<Spot, seq<Spot>>, start: Spot, end: Spot, t: Tables,
                expanded: set<Spot>, w: seq<Spot>)
    requires Snapshot(cells, nb) && Inv(cells, nb, start, end, t, expanded)
    requires Covered(t.gScore, t.openSetHash, expanded) && t.openSetHash == {}
    requires Route(w) && w != [] && w[|w| - 1] == start
    ensures w[0] != end
  {
    assert start in expanded;
    WalkExpanded(cells, nb, t.gScore, expanded, w, 0);
  }

  /** The recorded lists are the cells' lists, so a predecessor table linked along the
      recorded lists is linked along the cells' lists. */
  lemma LinkedFromSnapshot(cells: set<Spot>, nb: map<Spot, seq<Spot>>, cameFrom: map<Spot, Spot>)
    requires Snapshot(cells, nb) && LinkedIn(cameFrom, nb) && cameFrom.Values <= cells
    ensures Linked(cameFrom)
  {
    forall n | n in cameFrom
      ensures n in cameFrom[n].neighbors
    {
      assert n in nb[cameFrom[n]];
    }
  }

  /** w, read from its last cell back to its first, is a walk along the recorded lists. */
  ghost predicate RouteIn(w: seq<Spot>, nb: map<Spot, seq<Spot>>)
  {
    forall k | 0 <= k < |w| - 1 :: Hop(w[k], w[k + 1], nb)
  }

  /** a is on the recorded list of b. */
  ghost predicate Hop(a: Spot, b: Spot, nb: map<Spot, seq<Spot>>)
  {
    b in nb && a in nb[b]
  }

  /** A walk along the recorded lists is a walk along the cells' lists. */
  lemma RouteFromSnapshot(cells: set<Spot>, nb: map<Spot, seq<Spot>>, w: seq<Spot>)
    requires Snapshot(cells, nb) && RouteIn(w, nb)
    ensures Route(w)
  {
    forall k | 0 <= k < |w| - 1
      ensures w[k] in w[k + 1].neighbors
    {
      assert Hop(w[k], w[k + 1], nb);
    }
  }

  /** The end cell followed by its chain of predecessors is a walk back to start along the
      recorded lists that visits no cell twice. */
  lemma EndRoute(cameFrom: map<Spot, Spot>, g: map<Spot, Score>, nb: map<Spot, seq<Spot>>, start: Spot, end: Spot)
    requires Descending(cameFrom, g) && Rooted(cameFrom, g, start) && LinkedIn(cameFrom, nb)
    requires end in g && g[end].Finite?
    ensures var route := [end] + Chain(cameFrom, g, end);
      route[|route| - 1] == start && Distinct(route) && RouteIn(route, nb)
  {
    var chain := Chain(cameFrom, g, end);
    var route := [end] + chain;
    ChainSteps(cameFrom, g, end);
    if end != start {
      ChainReachesStart(cameFrom, g, start, end);
    }
    forall i, j | 0 <= i < j < |route|
      ensures route[i] != route[j]
    {
      assert route[j] == chain[j - 1];
      if i > 0 {
        assert route[i] == chain[i - 1];
      }
    }
    forall k | 0 <= k < |route| - 1
      ensures Hop(route[k], route[k + 1], nb)
    {
      assert route[k + 1] == chain[k];
      if k > 0 {
        assert route[k] == chain[k - 1];
      }
    }
  }

  /** The success branch of algorithm, the end cell taken out of the open set: reconstruct_path marks the chain
      of predecessors of the end cell Path, then the end cell is marked End. route, the end
      cell followed by that chain, is a walk back to start along neighbour lists that visits
      no cell twice; a cell off the route whose state changed is marked Open or Closed and is
      some cell's neighbour. */
  method Finish(ghost cells: set<Spot>, ghost nb: map<Spot, seq<Spot>>, ghost initial: map<Spot, CellState>,
                start: Spot, end: Spot, cameFrom: map<Spot, Spot>, ghost g: map<Spot, Score>) returns (ghost route: seq<Spot>)
    requires Snapshot(cells, nb) && TreeOk(cells, start, g, cameFrom) && LinkedIn(cameFrom, nb)
    requires Marked(cells, initial, cameFrom) && end in cells && end in g && g[end].Finite?
    modifies cells`state
    ensures route == [end] + Chain(cameFrom, g, end)
    ensures route[|route| - 1] == start && Distinct(route) && Route(route)
    ensures end.state == End && forall s | s in route && s != end :: s.state == Path
    ensures forall s | s in cells && s !in route && s.state != initial[s] ::
      (s.state == Open || s.state == Closed) && Listed(cells, s)
  {
    ghost var chain := Chain(cameFrom, g, end);
    ChainInside(cells, cameFrom, g, end);
    EndRoute(cameFrom, g, nb, start, end);
    route := [end] + chain;
    var draws := ReconstructPath(cameFrom, end, g);
    end.Mark(End);
    forall s | s in route && s != end
      ensures s.state == Path
    {
      assert s in chain && s in cells;
    }
    forall s | s in cells && s !in route && s.state != initial[s]
      ensures (s.state == Open || s.state == Closed) && Listed(cells, s)
    {
      if s in cameFrom.Values {
        assert s !in chain;
      }
      MarksListed(cells, nb, initial, cameFrom, s);
    }
    RouteFromSnapshot(cells, nb, route);
  }

  /** The chain of predecessors of s stays inside the grid. */
  lemma ChainInside(cells: set<Spot>, cameFrom: map<Spot, Spot>, g: map<Spot, Score>, s: Spot)
    requires Descending(cameFrom, g) && cameFrom.Values <= cells
    ensures forall c | c in Chain(cameFrom, g, s) :: c in cells
  {
    var chain := Chain(cameFrom, g, s);
    ChainSteps(cameFrom, g, s);
    forall k | 0 <= k < |chain|
      ensures chain[k] in cells
    {
      if k == 0 {
        assert chain[0] == cameFrom[s];
      } else {
        assert chain[k] == cameFrom[chain[k - 1]];
      }
    }
  }

  /** Relaxing all neighbours of current, just taken out of the open set, makes it an
      expanded cell: the invariants hold with current added to the expanded cells. */
  lemma ExpandKeeps(cells: set<Spot>, nb: map<Spot, seq<Spot>>, start: Spot, end: Spot, t: Tables,
                    expanded: set<Spot>, current: Spot)
    requires Inv(cells, nb, start, end, t, expanded) && Covered(t.gScore, t.openSetHash, expanded + {current})
    requires current in cells && current != end && t.gScore[current].Finite?
    ensures var r := RelaxAll(t, current, nb[current], end);
      Inv(cells, nb, start, end, r, expanded + {current}) && Covered(r.gScore, r.openSetHash, expanded + {current}) &&
      Advances(t, r) && (r == t || PotentialOf(cells, r.gScore) < PotentialOf(cells, t.gScore))
  {
    RelaxAllKeeps(cells, nb, start, end, t, expanded, expanded + {current}, current, nb[current]);
    InvGrows(cells, nb, start, end, RelaxAll(t, current, nb[current], end), expanded, current);
  }

  /** A cell other than the end cell whose listed neighbours all have a finite score may join
      the expanded cells. */
  lemma InvGrows(cells: set<Spot>, nb: map<Spot, seq<Spot>>, start: Spot, end: Spot, r: Tables,
                 expanded: set<Spot>, current: Spot)
    requires Inv(cells, nb, start, end, r, expanded) && current in cells && current != end
    requires forall m | m in nb[current] :: r.gScore[m].Finite?
    ensures Inv(cells, nb, start, end, r, expanded + {current})
  {
  }

  /** The rest of a round of algorithm for a cell current other than the end cell, just taken out of the open
      set: relax its neighbours, then mark it Closed unless it is start. Afterwards current
      counts as expanded, and the invariants, the coverage of the reached cells and the marks
      all hold again. */
  method Visit(ghost cells: set<Spot>, ghost nb: map<Spot, seq<Spot>>, ghost initial: map<Spot, CellState>,
               start: Spot, end: Spot, current: Spot, t: Tables, ghost expanded: set<Spot>) returns (r: Tables)
    requires Snapshot(cells, nb) && Inv(cells, nb, start, end, t, expanded)
    requires Covered(t.gScore, t.openSetHash, expanded + {current}) && Marked(cells, initial, t.cameFrom)
    requires current in cells && current != end && t.gScore[current].Finite? && (current == start || current in t.cameFrom)
    modifies cells`state
    ensures r == RelaxAll(t, current, nb[current], end)
    ensures Inv(cells, nb, start, end, r, expanded + {current}) && Covered(r.gScore, r.openSetHash, expanded + {current})
    ensures Marked(cells, initial, r.cameFrom)
    ensures r == t || PotentialOf(cells, r.gScore) < PotentialOf(cells, t.gScore)
    ensures current != start ==> current.state == Closed
    ensures current == start ==> current.state == old(current.state)
    ensures forall s | s in cells && s != current ::
      s.state == if s in r.openSetHash && s !in t.openSetHash then Open else old(s.state)
  {
    ExpandKeeps(cells, nb, start, end, t, expanded, current);
    r := Expand(current, end, t, cells);
    forall s | s in cells
      ensures MarkOk(s, initial, r.cameFrom)
    {
    }
    if current != start {
      current.Mark(Closed);
    }
  }

  /** One round of the search loop of algorithm: take the first cell out of the open set;
      if it is the end cell, finish as Finish does, and otherwise visit it. */
  method Step(ghost cells: set<Spot>, ghost nb: map<Spot, seq<Spot>>, ghost initial: map<Spot, CellState>,
              start: Spot, end: Spot, t: Tables, ghost expanded: set<Spot>)
    returns (found: bool, ghost route: seq<Spot>, r: Tables, ghost expanded': set<Spot>)
    requires Snapshot(cells, nb) && Inv(cells, nb, start, end, t, expanded)
    requires Covered(t.gScore, t.openSetHash, expanded) && Marked(cells, initial, t.cameFrom) && t.openSet != []
    modifies cells`state
    ensures found ==> route != [] && route[0] == end && route[|route| - 1] == start && Distinct(route) && Route(route)
    ensures found ==> end.state == End && forall s | s in route && s != end :: s.state == Path
    ensures found ==> forall s | s in cells && s !in route && s.state != initial[s] ::
      (s.state == Open || s.state == Closed) && Listed(cells, s)
    ensures !found ==> Inv(cells, nb, start, end, r, expanded') && Covered(r.gScore, r.openSetHash, expanded')
    ensures !found ==> Marked(cells, initial, r.cameFrom)
    ensures !found ==> (PotentialOf(cells, r.gScore) < PotentialOf(cells, t.gScore) ||
      (PotentialOf(cells, r.gScore) == PotentialOf(cells, t.gScore) && |r.openSet| < |t.openSet|))
  {
    var i := MinIndex(t.openSet);
    var current := t.openSet[i].item;
    QueueAfterPop(t.openSet, t.openSetHash, t.count, t.gScore, t.cameFrom, start, i);
    r := t.(openSet := RemoveAt(t.openSet, i), openSetHash := t.openSetHash - {current});
    expanded' := expanded;
    if current == end {
      route := Finish(cells, nb, initial, start, end, r.cameFrom, r.gScore);
      found := true;
      return;
    }
    r := Visit(cells, nb, initial, start, end, current, r, expanded);
    expanded' := expanded + {current};
    found, route := false, [];
  }

  /** algorithm. The search takes cells out of the open set, smallest f
      first and oldest first among equal f, until it takes out the end cell or the open set
      runs empty. If it takes out the end cell it answers true and route is the end cell
      followed by the chain reconstruct_path marks: a walk back to start along neighbour
      lists with no cell twice, the end cell marked End and the rest of it Path. If it
      answers false, no walk along neighbour lists leads from start to the end cell. Either
      way, a cell off the route whose state changed is marked Open or Closed and is some
      cell's neighbour; in particular start, which is on the route or unchanged, is never
      marked Closed. */
  method Algorithm(grid: seq<seq<Spot>>, start: Spot, end: Spot) returns (found: bool, ghost route: seq<Spot>)
    requires start in Cells(grid) && end in Cells(grid) && ListsInside(Cells(grid))
    modifies Cells(grid)`state
    ensures found ==> route != [] && route[0] == end && route[|route| - 1] == start && Distinct(route) && Route(route)
    ensures found ==> end.state == End && forall s | s in route && s != end :: s.state == Path
    ensures !found ==> route == [] && start.state == old(start.state)
    ensures !found ==> forall w | Route(w) && w != [] && w[|w| - 1] == start :: w[0] != end
    ensures forall s | s in Cells(grid) && s !in route && s.state != old(s.state) ::
      (s.state == Open || s.state == Closed) && Listed(Cells(grid), s)
    ensures forall s | s in route :: s in Cells(grid)
  {
    var cells := Cells(grid);
    ghost var nb := map s: Spot | s in cells :: s.neighbors;
    ghost var initial := map s: Spot | s in cells :: s.state;
    var t := Setup(cells, start, end);
    SetupOk(cells, nb, start, end);
    found, route := Run(cells, nb, initial, start, end, t, {});
    if found {
      RouteInside(cells, route);
    }
  }

  /** A walk along neighbour lists that ends at a cell of cells stays inside cells when every
      listed neighbour is itself a cell of cells. */
  lemma {:induction false} RouteInside(cells: set<Spot>, w: seq<Spot>)
    requires ListsInside(cells) && Route(w) && w != [] && w[|w| - 1] in cells
    ensures forall s | s in w :: s in cells
    decreases |w|
  {
    if |w| > 1 {
      var rest := w[1..];
      forall k | 0 <= k < |rest| - 1
        ensures rest[k] in rest[k + 1].neighbors
      {
        assert w[k + 1] in w[k + 2].neighbors;
      }
      RouteInside(cells, rest);
      assert w[0] in w[1].neighbors && w[1] in rest;
      assert w == [w[0]] + rest;
    }
  }

  /** The space key of the program's main loop: refresh every cell's neighbour list from the
      barriers on the board, then search. A barrier other than start and the end cell is
      still a barrier afterwards: the search repaints only cells on some neighbour list, and
      a fresh list never holds a barrier. */
  method RefreshAndSearch(grid: seq<seq<Spot>>, n: nat, start: Spot, end: Spot) returns (found: bool, ghost route: seq<Spot>)
    requires WellFormed(grid, n) && start in Cells(grid) && end in Cells(grid)
    modifies Cells(grid)`state, Cells(grid)`neighbors
    ensures found ==> route != [] && route[0] == end && route[|route| - 1] == start && Route(route)
    ensures !found ==> forall w | Route(w) && w != [] && w[|w| - 1] == start :: w[0] != end
    ensures forall s | s in Cells(grid) && s != start && s != end && old(s.state) == Barrier :: s.state == Barrier
  {
    RefreshLists(grid, n);
    ghost var cells := Cells(grid);
    ghost var nb := map c: Spot | c in cells :: c.neighbors;
    ghost var before := map c: Spot | c in cells :: c.state;
    found, route := Algorithm(grid, start, end);
    forall k | 0 <= k < |route| - 1
      ensures route[k] in cells && before[route[k]] != Barrier
    {
      assert route[k + 1] in route;
      assert route[k] in nb[route[k + 1]];
    }
    forall s | s in cells && s != start && s != end && old(s.state) == Barrier
      ensures s.state == Barrier
    {
      assert before[s] == Barrier;
      forall k | 0 <= k < |route|
        ensures route[k] != s
      {
        if k == |route| - 1 {
          assert route[k] == start;
        }
      }
      assert !Listed(cells, s);
    }
  }

  /** main's refresh before a search: every cell gets the neighbour list of the barriers on
      the board, so every listed cell is a cell of the grid and not a barrier. */
  method RefreshLists(grid: seq<seq<Spot>>, n: nat)
    requires WellFormed(grid, n)
    modifies Cells(grid)`neighbors
    ensures ListsInside(Cells(grid))
    ensures forall c, m | c in Cells(grid) && m in c.neighbors :: m.state != Barrier
  {
    RefreshNeighbors(grid, n);
    RefreshedInside(grid, n);
    forall c, m | c in Cells(grid) && m in c.neighbors
      ensures m.state != Barrier
    {
      NeighborListExactly(grid, n, c, m);
    }
  }


  /** The search loop of algorithm: run Step until it takes the end cell out of the open
      set or the open set is empty. */
  method Run(cells: set<Spot>, ghost nb: map<Spot, seq<Spot>>, ghost initial: map<Spot, CellState>,
             start: Spot, end: Spot, t0: Tables, ghost expanded0: set<Spot>) returns (found: bool, ghost route: seq<Spot>)
    requires Snapshot(cells, nb) && Inv(cells, nb, start, end, t0, expanded0)
    requires Covered(t0.gScore, t0.openSetHash, expanded0) && Marked(cells, initial, t0.cameFrom)
    modifies cells`state
    ensures found ==> route != [] && route[0] == end && route[|route| - 1] == start && Distinct(route) && Route(route)
    ensures found ==> end.state == End && forall s | s in route && s != end :: s.state == Path
    ensures !found ==> route == [] && start.state == initial[start]
    ensures !found ==> forall w | Route(w) && w != [] && w[|w| - 1] == start :: w[0] != end
    ensures forall s | s in cells && s !in route && s.state != initial[s] ::
      (s.state == Open || s.state == Closed) && Listed(cells, s)
  {
    var t := t0;
    ghost var expanded := expanded0;
    while t.openSet != []
      invariant Snapshot(cells, nb) && Inv(cells, nb, start, end, t, expanded)
      invariant Covered(t.gScore, t.openSetHash, expanded) && Marked(cells, initial, t.cameFrom)
      decreases PotentialOf(cells, t.gScore), |t.openSet|
    {
      found, route, t, expanded := Step(cells, nb, initial, start, end, t, expanded);
      if found {
        return;
      }
    }
    Exhausted(cells, nb, initial, start, end, t, expanded);
    found, route := false, [];
  }

  /** The open set has run empty: no walk along neighbour lists leads from start to the end
      cell, and a cell whose state changed is marked Open or Closed and is some cell's
      neighbour. */
  lemma Exhausted(cells: set<Spot>, nb: map<Spot, seq<Spot>>, initial: map<Spot, CellState>,
                  start: Spot, end: Spot, t: Tables, expanded: set<Spot>)
    requires Snapshot(cells, nb) && Inv(cells, nb, start, end, t, expanded) && t.openSet == []
    requires Covered(t.gScore, t.openSetHash, expanded) && Marked(cells, initial, t.cameFrom)
    ensures forall w | Route(w) && w != [] && w[|w| - 1] == start :: w[0] != end
    ensures forall s | s in cells && s.state != initial[s] :: (s.state == Open || s.state == Closed) && Listed(cells, s)
    ensures start.state == initial[start]
  {
    assert t.openSetHash == {};
    forall w | Route(w) && w != [] && w[|w| - 1] == start
      ensures w[0] != end
    {
      NoRoute(cells, nb, start, end, t, expanded, w);
    }
    forall s | s in cells && s.state != initial[s]
      ensures (s.state == Open || s.state == Closed) && Listed(cells, s)
    {
      MarksListed(cells, nb, initial, t.cameFrom, s);
    }
  }
}
