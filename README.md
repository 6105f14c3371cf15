# A* grid search, modelled in Dafny

This project models the search part of `A_Star_Simple_Simulation.py`, a pygame program.
The program shows an N×N board of cells. The user places a start cell, an end cell and barriers,
and the program then runs A* from start to end and paints the result. The model covers:

- **the cell** (`Spot`): a class with its fixed place and side, a mutable state (one state per colour
  a cell can be painted) and a mutable neighbour list. `update_neighbors` rebuilds that list from the eight
  surrounding cells, in the program's order, skipping cells off the board and barriers;
- **the board**: `make_grid` builds `rows` rows of fresh empty cells. The neighbour refresh runs
  before a search. `get_clicked_pos` maps a mouse pixel to a cell;
- **the heuristic** `h`: the Manhattan distance;
- **the search** `algorithm`. The open set is a sequence of `(f, count, cell)` entries, popped at
  the smallest `(f, count)`, next to its membership set. `came_from` is a map from cell to cell, and
  `g_score` and `f_score` are maps to a score that is either a whole number or infinite. The local
  variables form one value (`Tables`). The loop is split into one round (`Step`), the expansion of
  a cell other than the end cell (`Visit`, `Expand`, `Relax`) and the success path (`Finish`).
  Cell states change in place on the `Spot` objects;
- **`reconstruct_path`**: a loop that walks `came_from` back from the end cell, marking each
  predecessor Path and counting one draw per step.

What is proved:
- The neighbour list of a cell holds exactly the in-bounds, non-barrier cells among the eight
  around it. It lists each at most once, at most eight in all, in the fixed direction order.
- `h` is symmetric and zero only on equal positions. It lies between the king-move distance and
  twice that distance, so it overestimates every diagonal step.
- The search keeps these invariants:
  - the tables cover the grid and `g[start] = 0`;
  - predecessors strictly lower g and lead back to start, and start never gets one;
  - every recorded predecessor lists its successor as a neighbour;
  - the open set has increasing counters, no cell twice, and matches its membership set;
  - every neighbour of an expanded cell has a finite score.
- A relaxation changes a neighbour's tables only when the new cost is strictly lower.
- The loop terminates. Each round strictly shrinks a finite measure built from the g-scores, or
  shortens the queue.
- When the search answers true, the end cell followed by its predecessor chain is a walk back to
  start along neighbour lists, with no cell twice. The end cell ends up End and the rest of that
  walk Path.
- When it answers false, no walk along neighbour lists leads from start to the end cell, and start
  keeps its state.
- Either way, every other cell whose state changed is Open or Closed and is on some cell's
  neighbour list. When the search follows the refresh of every neighbour list, as the
  program's space key does, every barrier other than start and the end cell is still a barrier
  when it ends. Start itself is repainted Path if it was a barrier and a route is found.

## Model

| member | source | states |
|---|---|---|
| Grid.Spot.constructor | A_Star_Simple_Simulation.py:25-33 | a new cell has the given row, column, side and row count, origin (row·width, col·width), state Empty and no neighbours |
| Grid.Spot.Position | A_Star_Simple_Simulation.py:35-36 | get_pos gives the spot's row and column |
| Grid.PositionLocates | A_Star_Simple_Simulation.py:35-36 | on a grid built by make_grid, a spot's position is on the board and the grid holds that spot there |
| Grid.Spot.Mark | A_Star_Simple_Simulation.py:53-72 | repainting sets the state to the given value and changes nothing else |
| Grid.Spot.Candidate | A_Star_Simple_Simulation.py:80-102 | one guarded branch of the scan yields the grid's cell one move away exactly when the branch's bounds test holds and that cell is not a barrier |
| Grid.Spot.UpdateNeighbors | A_Star_Simple_Simulation.py:77-102 | the new list is the grid's cells at `NeighborPositions`: the in-bounds, non-barrier moves of the eight directions, in the order down, up, right, left, then the four diagonals |
| Grid.NeighborsExactly | A_Star_Simple_Simulation.py:77-102 | a position is a neighbour position iff it is on the board, not a barrier, and one of the eight cells around the cell (both directions) |
| Grid.NeighborsDistinct | A_Star_Simple_Simulation.py:77-102 | at most eight neighbour positions, none twice |
| Grid.NeighborsInOrder | A_Star_Simple_Simulation.py:79-102 | of two listed positions, the one reached by the earlier direction comes first |
| Grid.ReachableSound | A_Star_Simple_Simulation.py:80-102 | every position a guarded scan lists is on the board, not blocked, and one of the scanned moves away |
| Grid.ReachableComplete | A_Star_Simple_Simulation.py:80-102 | every scanned move that lands on the board off the barriers is listed |
| Grid.ReachableDistinct | A_Star_Simple_Simulation.py:80-102 | distinct moves list distinct positions |
| Grid.ReachableOrdered | A_Star_Simple_Simulation.py:80-102 | the scan lists positions in the order of its moves |
| Grid.NeighborListExactly | A_Star_Simple_Simulation.py:77-102 | on a refreshed grid, m is in s's list iff m is a grid cell, not a barrier, and adjacent to s; a listed cell is on the board and is not s |
| Grid.NeighborListShape | A_Star_Simple_Simulation.py:77-102 | on a refreshed grid, a list has at most eight cells, none twice, in direction order |
| Grid.MakeGrid | A_Star_Simple_Simulation.py:173-182 | `rows` rows of `rows` fresh cells; the cell at [i][j] has row i, column j, row count `rows`, side `width / rows`, state Empty and no neighbours |
| Grid.RefreshNeighbors | A_Star_Simple_Simulation.py:361-363 | afterwards every cell holds the neighbour list of the grid's current barriers |
| Grid.RefreshRow | A_Star_Simple_Simulation.py:362-363 | the cells of one row get fresh lists; the lists of every other row are untouched |
| Grid.ClickedPos | A_Star_Simple_Simulation.py:204-209 | the clicked pixel lies inside the square of the returned cell |
| Grid.ClickedOnBoard | A_Star_Simple_Simulation.py:204-209 | a click inside the drawn cells selects a cell on the board |
| Grid.ClickedSquare | A_Star_Simple_Simulation.py:204-209 | a click anywhere in the square of the cell at (i, j) selects (i, j), so the square of each cell and the click mapping are inverse |
| Scores.LessOrder | A_Star_Simple_Simulation.py:150 | the `<` between scores, with infinity for an unreached cell, is a strict total order with infinity above every number |
| Heuristic.H | A_Star_Simple_Simulation.py:109-112 | h is 0 exactly on equal positions and lies between the king-move distance and twice it |
| Heuristic.HSymmetric | A_Star_Simple_Simulation.py:109-112 | h(p, q) = h(q, p) |
| Heuristic.HOverestimates | A_Star_Simple_Simulation.py:109-112 | h exceeds the king-move distance, which is the true cost on an open board, exactly when both coordinates differ |
| Heuristic.HDiagonalStep | A_Star_Simple_Simulation.py:109-112 | one diagonal step, priced 1 by the search, is estimated at 2 |
| Heuristic.HStep | A_Star_Simple_Simulation.py:109-112 | one move changes h by at most 2, and an orthogonal move by at most 1 |
| OpenSet.MinIndex | A_Star_Simple_Simulation.py:139 | the entry handed out has no entry before it in `(f, count)` order |
| OpenSet.MinIsStrict | A_Star_Simple_Simulation.py:104-105 | with distinct counters the entry handed out is strictly first, so the cells themselves are never compared |
| OpenSet.FirstInFirstOut | A_Star_Simple_Simulation.py:155-156 | among entries with equal f, the one queued first comes out first |
| OpenSet.RemoveAt | A_Star_Simple_Simulation.py:139-140 | taking an entry out leaves the other entries, one fewer |
| OpenSet.RemoveAtKeeps | A_Star_Simple_Simulation.py:139-140 | popping keeps the counters ordered and the cells unique, and removes exactly the popped cell from the queued cells |
| OpenSet.AppendKeeps | A_Star_Simple_Simulation.py:155-157 | pushing a new cell under a larger counter keeps the queue ordered and unique and adds that cell |
| Path.ChainSteps | A_Star_Simple_Simulation.py:115-117 | each chain cell is the predecessor of the one before, scores strictly fall along the chain, and it stops at a cell with no predecessor |
| Path.ChainReachesStart | A_Star_Simple_Simulation.py:115-117 | from a reached cell other than start, the chain ends at start, repeats no cell and is no longer than the cell's score |
| Path.ScoresBound | A_Star_Simple_Simulation.py:115-117 | a sequence with strictly falling scores below m has at most m cells, which bounds the walk |
| Path.ChainWalks | A_Star_Simple_Simulation.py:115-117 | along the chain each cell is on the neighbour list of the next |
| Path.ChainAdvance | A_Star_Simple_Simulation.py:116-117 | one step of the walk moves to the predecessor, which does not recur later in the chain |
| Path.ChainInTable | A_Star_Simple_Simulation.py:116-117 | every cell the walk visits is a recorded predecessor |
| Path.ReconstructPath | A_Star_Simple_Simulation.py:115-119 | exactly the chain of predecessors of the given cell is marked Path, start included; every other recorded cell keeps its state; one draw per step |
| Search.Setup | A_Star_Simple_Simulation.py:123-132 | the initial tables: start alone queued and in the membership set, no predecessors, g and f defined on every cell, start the only cell with a finite g, g(start) = 0 and f(start) = h(start, end) |
| Search.SetupOk | A_Star_Simple_Simulation.py:123-132 | the initial tables satisfy every search invariant with nothing expanded. In them start alone is queued, with priority 0 and counter 0, and start is the only cell with a finite g |
| Search.Relaxed | A_Star_Simple_Simulation.py:148-158 | a relaxation keeps the tables' keys and current's score, the membership set can only gain the neighbour, and relaxing current itself changes nothing |
| Search.RelaxedChanges | A_Star_Simple_Simulation.py:148-158 | only the neighbour's entries can change, and they change iff g(current)+1 is strictly lower than its g. Its g becomes that value, its predecessor current, its f that value plus h to the end cell; otherwise nothing changes |
| Search.Relax | A_Star_Simple_Simulation.py:148-158 | the method computes `Relaxed` and marks the neighbour Open exactly when it joins the open set |
| Search.RelaxAll | A_Star_Simple_Simulation.py:147-158 | the neighbour loop keeps the keys and current's score, only grows the membership set, and never adds current to it |
| Search.RelaxAllNext | A_Star_Simple_Simulation.py:147-158 | the loop over the first k+1 neighbours is the loop over the first k followed by one relaxation of the next |
| Search.Expand | A_Star_Simple_Simulation.py:147-158 | the loop computes `RelaxAll` over current's list; exactly the cells that joined the open set are repainted Open |
| Search.RelaxedKeeps | A_Star_Simple_Simulation.py:148-158 | one relaxation keeps every invariant and only adds to the tables. Scores never rise, and each newly queued cell has a predecessor. The neighbour ends reached, and the termination measure shrinks unless nothing changed |
| Search.TreeAfterRelaxed | A_Star_Simple_Simulation.py:150-152 | a relaxation keeps g(start) = 0 and the predecessor table descending and rooted at start |
| Search.PotentialAfterRelaxed | A_Star_Simple_Simulation.py:150-152 | a relaxation leaves the tables alone or strictly shrinks the termination measure |
| Search.QueueAfterRelaxed | A_Star_Simple_Simulation.py:150-157 | a relaxation keeps the open set ordered, unique, consistent with its membership set, and made of reached cells |
| Search.LinksAfterRelaxed | A_Star_Simple_Simulation.py:147-151 | a new predecessor lists its successor as a neighbour |
| Search.ReachAfterRelaxed | A_Star_Simple_Simulation.py:148-158 | reached cells stay reached and covered, scores only fall, and the neighbour ends reached |
| Search.RelaxAllKeeps | A_Star_Simple_Simulation.py:147-158 | the whole neighbour loop keeps every invariant and leaves every listed neighbour reached |
| Search.TreeAfterRelax | A_Star_Simple_Simulation.py:150-152 | a strictly lowered neighbour is neither start nor current; its new score is below the number of cells; the predecessor table stays in shape |
| Search.DescendingAfterRelax | A_Star_Simple_Simulation.py:151-152 | recording current as predecessor with the lower score keeps scores strictly falling along predecessors |
| Search.RootedAfterRelax | A_Star_Simple_Simulation.py:151-152 | start still has no predecessor and every other reached cell has one |
| Search.BoundAfterRelax | A_Star_Simple_Simulation.py:151-152 | no score exceeds the number of cells with a predecessor, so scores stay below the number of cells |
| Search.QueueAfterRelax | A_Star_Simple_Simulation.py:150-153 | lowering a score keeps the queue consistent |
| Search.QueueAfterPush | A_Star_Simple_Simulation.py:154-157 | pushing a reached cell with a fresh counter keeps the queue consistent with the grown membership set |
| Search.QueueAfterPop | A_Star_Simple_Simulation.py:139-140 | popping keeps the queue consistent with the shrunk membership set |
| Search.PotentialDrops | A_Star_Simple_Simulation.py:150-152 | a strictly lower score strictly shrinks the termination measure |
| Search.ExpandKeeps | A_Star_Simple_Simulation.py:147-158 | after all neighbours of the popped cell are relaxed it counts as expanded and every invariant holds again |
| Search.InvGrows | A_Star_Simple_Simulation.py:147-158 | a cell whose neighbours all have finite scores may join the expanded cells |
| Search.Visit | A_Star_Simple_Simulation.py:147-163 | relaxes the popped cell's neighbours. It marks that cell Closed unless it is start, which keeps its state. Every other cell turns Open exactly when it joined the open set and otherwise keeps its state. The invariants and the marks hold again, and the termination measure does not grow |
| Search.Finish | A_Star_Simple_Simulation.py:142-145 | the route is the end cell followed by its chain; it ends at start, repeats no cell and follows neighbour lists. End is marked End and the rest Path; other changed cells are Open or Closed and listed |
| Search.EndRoute | A_Star_Simple_Simulation.py:142-145 | the end cell and its chain form a walk back to start along neighbour lists with no cell twice |
| Search.ChainInside | A_Star_Simple_Simulation.py:115-117 | the chain stays inside the grid |
| Search.Step | A_Star_Simple_Simulation.py:139-163 | one round either finds the end cell, with the route facts of `Finish`, or keeps the invariants and the marks. In that case the measure shrinks, or stays equal while the queue shortens |
| Search.Run | A_Star_Simple_Simulation.py:134-165 | the loop ends. On true the route facts hold. On false no walk leads from start to the end cell, and start keeps its state. Changed cells off the route are Open or Closed and listed |
| Search.Algorithm | A_Star_Simple_Simulation.py:122-165 | same as `Run`, for the whole search over a grid whose lists stay inside it, with states compared to those before the call; the route's cells are grid cells |
| Search.Exhausted | A_Star_Simple_Simulation.py:134-165 | when the open set runs empty, no walk leads from start to the end cell, changed cells are Open or Closed and listed, and start is unchanged |
| Search.NoRoute | A_Star_Simple_Simulation.py:134-165 | with the open set empty, a walk from start never ends at the end cell |
| Search.WalkExpanded | A_Star_Simple_Simulation.py:134-165 | with the open set empty, every cell on a walk from an expanded cell is expanded |
| Search.MarksListed | A_Star_Simple_Simulation.py:158-163 | a cell whose state changed has a predecessor, so it is Open or Closed and on some cell's list |
| Search.RouteInside | A_Star_Simple_Simulation.py:147-151 | when every listed neighbour is a grid cell, a walk along neighbour lists that ends in the grid stays in the grid |
| Search.RefreshLists | A_Star_Simple_Simulation.py:361-363 | after the refresh every listed neighbour is a grid cell and not a barrier |
| Search.RefreshAndSearch | A_Star_Simple_Simulation.py:360-365 | the space key: refresh then search. On true the route runs from the end cell back to start along neighbour lists; on false no such walk exists. Every barrier other than start and the end cell is still a barrier afterwards |
| Search.ListedNotBarrier | A_Star_Simple_Simulation.py:77-102 | on a refreshed grid, a cell on some cell's list is a grid cell and not a barrier |
| Search.RefreshedInside | A_Star_Simple_Simulation.py:361-365 | after the refresh every listed neighbour is a grid cell, which the search requires |
| Search.LinkedFromSnapshot | A_Star_Simple_Simulation.py:147-151 | predecessors linked along the recorded lists are linked along the cells' lists |
| Search.RouteFromSnapshot | A_Star_Simple_Simulation.py:147-151 | a walk along the recorded lists is a walk along the cells' lists |
| Search.AdvancesTrans | A_Star_Simple_Simulation.py:148-158 | growing tables and falling scores compose over several relaxations |

## Left out

- pygame: drawing (`Spot.draw`, `draw_grid`, `draw`), colours, the window, the event pump inside
  the search loop, and the interactive `main` loop apart from the space key's refresh and search
  (`Search.RefreshAndSearch`). They are I/O. The `draw` callback is modelled
  only inside `reconstruct_path`, as a counter of draws. The per-round `draw()` call is a no-op.
- The random circle obstacles of `main` and the random start and end placement. They are random
  and UI.
- `PriorityQueue` internals and its locking: the queue is a sequence popped at its `(f, count)`
  minimum. `Spot.__lt__` is not modelled, because `OpenSet.MinIsStrict` shows it is never
  consulted.
- Search.Algorithm: requires every listed neighbour to be a grid cell (`ListsInside`). Without that
  the source's score lookup raises KeyError. `Search.RefreshedInside` shows that the neighbour
  refresh before the search establishes it.
- Search.Algorithm: does not claim a shortest route. With diagonal moves costing 1, h overestimates
  (`Heuristic.HOverestimates`), so the route found can be longer than necessary.
- Search.Algorithm: route is a ghost output. The source returns only the boolean and leaves the
  route painted on the cells.
- Search.Relaxed: models the open set as the code does. A queued cell whose score drops again keeps
  its old, stale entry. There is no decrease-key and no second push.
- The invariant f = g + h is not carried across the loop. f is stated per update, by
  `Search.RelaxedChanges` and by the initial tables, and the search never reads f except as a priority.
- Grid.MakeGrid: requires `rows > 0`, because the source divides by `rows`.
- Grid.ClickedPos: requires `0 < rows <= width`, because the source divides by `width // rows`.
- Grid.ClickedOnBoard: covers only clicks inside the drawn cells. When `width` is not a multiple
  of `rows`, a click in the right or bottom margin gives a row or column of `rows` or more, and the
  source's indexing would fail there.
- Integer widths: Python integers are unbounded, so scores, counters and pixel arithmetic are
  unbounded here too.

Where the program and its written description differ, the model follows the program:
- `reconstruct_path` marks start itself Path, since start is the last predecessor reached.
- start is queued with priority 0, not with its f-score.
