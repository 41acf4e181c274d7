# pypaths A* search, modelled in Dafny

`pypaths` finds paths in a graph with the A* algorithm. `pathfinder(neighbors, distance, cost)` binds three callbacks and returns a search function `func(start, end, max_cost=None)`:

- `neighbors(node)` lists the adjacent nodes;
- `distance(a, b)` is the heuristic estimate of the remaining cost;
- `cost(node)` is what it costs to traverse a node.

The search answers `(g_score[end], path)` when it reaches the goal, or `(None, [])`. The module also ships three helpers to describe a graph: `grid_neighbors`, `fixed_cost` and `manhattan_distance`.

The model has two modules:

- `AStar` (astar.dfy) holds the search. The five working structures of one call are the fields of the value type `Search`: open set, closed set, `came_from`, `g_score` and `f_score`. `FindPath` is `func`. It runs `SearchLoop`, the `while` loop, and then builds the answer. The loop has these steps:
  - `SelectMin` is `min(open_set, key=f_score)`.
  - `Expand` moves the chosen node to the closed set and runs the inner `for` loop (`ExpandNeighbors`).
  - Each pass of that loop is `RelaxNeighbor`, specified by the function `Relax`.
  - `ReconstructPath` is `reconstruct_path`.
- `Helpers` (helpers.dfy) holds the grid, cost and heuristic helpers. It also has `GridFindPath`, a pathfinder configured the way the module docstring configures one.

Costs and heuristic values are non-negative integers, and `max_cost` is an optional integer. The callbacks are Dafny functions, so they are deterministic and have no side effects.

Two behaviours of the code are kept as written:

- A neighbour that is not closed is overwritten even with a worse score.
- A closed node that is strictly improved goes back into the open set but stays in the closed set, so the open and closed sets can overlap.

Because of the first behaviour, `came_from` is updated not only on strict improvements.

The search loop is guaranteed to end when the nodes reachable from the start are finite and costs are non-negative integers. It can also end on an infinite graph, by reaching the goal or exceeding `max_cost`, but nothing guarantees that. `FindPath` therefore takes a ghost `universe`: a finite set that holds the start and is closed under `neighbors`. It is used only in the termination argument. The loop's measure is the number of universe nodes not yet closed, then `2 * (sum of closed g-scores) + |open ∩ closed|`. A closed node is reopened only when its g-score strictly drops.

`reconstruct_path` ends because following a backlink strictly descends in (g-score, time the backlink was written). This holds for zero costs too. The time is ghost bookkeeping.

The returned cost is exactly the cost of the returned path. This needs an argument, because `came_from` can point to a parent whose g-score has dropped since the link was written. Call such a link stale.
- The parent of a stale link is open again, and its f-score is below the f-score it had when it was last expanded.
- Every open node below a stale link has an f-score at least that old value.
- So the goal, popped as an open node of least f-score, lies below no stale link.
- Along links that are not stale, each g-score is the parent's g-score plus the parent's cost.

The old f-scores are a ghost map, `fx`. The predicates `Consistent` and `ConsistentDuring` hold these facts.

## Model

| member | source | states |
|---|---|---|
| `AStar.FindPath` | pypaths/astar.py:114-157 | A found cost comes with a non-empty path. The path starts at `start`, ends at `end`, and each step goes to a listed neighbour. The path's traversal cost equals the returned cost, and the returned cost is at most `max_cost` when one is given. Without `max_cost`, a path is found exactly when `end` is reachable from `start`. Not found is `(None, [])`. `start == end` gives `(0, [start])` unless `max_cost` is negative. |
| `AStar.SearchLoop` | pypaths/astar.py:126-155 | The loop ends in one of two ways. Either it pops the goal as an open node of least f-score, with a g-score within `max_cost`. Or the open set is empty, or the popped node, one of least f-score, has a g-score above `max_cost`. Either way the search invariant, the frontier property and `Consistent` hold. |
| `AStar.Init` | pypaths/astar.py:126-131 | The search starts with only `start` open, nothing closed and no backlinks. `start` is the only scored node, with g-score 0 and f-score `cost(start)`. |
| `AStar.InitConsistent` | pypaths/astar.py:126-131 | The initial state satisfies the search invariant, the frontier property and `Consistent`. |
| `AStar.SelectMin` | pypaths/astar.py:134 | The chosen node is in the open set, and no open node has a smaller f-score. |
| `AStar.MinExists` | pypaths/astar.py:134 | A non-empty open set whose members all have f-scores has a member of least f-score. |
| `AStar.Expand` | pypaths/astar.py:142-155 | Closing the chosen node and relaxing its neighbours gives `RelaxAll` of the popped state. The search invariant, the frontier property and `Consistent` hold afterwards, and the loop measure falls. |
| `AStar.ExpandProgress` | pypaths/astar.py:142-155 | Popping a node and then relaxing without raising the measure either closes a new node or lowers the measure. |
| `AStar.ExpandNeighbors` | pypaths/astar.py:144-155 | The `for` loop over `neighbors(current)` computes `RelaxAll`. It keeps the invariant and `Consistent`, and leaves the closed set unchanged. Afterwards every neighbour of every closed node is open or closed. |
| `AStar.RelaxNeighbor` | pypaths/astar.py:146-155 | The loop body (compute the tentative score; skip; write) produces exactly `Relax`. |
| `AStar.Relax` | pypaths/astar.py:146-155 | The tentative score is `g[current] + cost(current)`. When the neighbour is not closed, or is closed and strictly improved, the relaxation sets `came_from`, `g`, `f = tentative + distance(neighbor, end)` and adds the neighbour to the open set. Otherwise nothing changes. The closed set never changes. |
| `AStar.RelaxAll` | pypaths/astar.py:144-155 | Relaxing a list of neighbours never changes the closed set, and the expanded node keeps its g-score entry. |
| `AStar.RelaxOverwritesUnclosed` | pypaths/astar.py:151-154 | A neighbour that is not closed and already holds a better g-score gets the worse one, with `current` as its backlink. |
| `AStar.RelaxReopensClosed` | pypaths/astar.py:148-155 | A strictly improved closed neighbour ends up in the open set and the closed set at once. |
| `AStar.RelaxPreservesInv` | pypaths/astar.py:146-155 | Relaxing a neighbour of a closed node keeps the search invariant, leaves the neighbour open or closed, and does not raise the loop measure. |
| `AStar.RelaxKeepsRooted` | pypaths/astar.py:130 | Once the start is closed, relaxation keeps its g-score at 0 and gives it no backlink. Every other scored node keeps a backlink. |
| `AStar.RelaxKeepsLinked` | pypaths/astar.py:151-153 | After a relaxation, each backlink still points at a closed node that lists the linked node as a neighbour. Each g-score still covers its predecessor's g-score plus the predecessor's cost. |
| `AStar.RelaxKeepsStamped` | pypaths/astar.py:151-153 | After a relaxation, backlinks still strictly descend in (g-score, write time), so `came_from` stays acyclic. |
| `AStar.RelaxMeasure` | pypaths/astar.py:148-155 | Relaxation never raises `2 * (sum of closed g-scores) + |open ∩ closed|`. |
| `AStar.Pop` | pypaths/astar.py:142-143 | The node leaves the open set and joins the closed set. `came_from`, `g_score` and `f_score` are unchanged. |
| `AStar.PopPreservesInv` | pypaths/astar.py:142-143 | Moving an open node other than the goal from the open set to the closed set keeps the invariant. |
| `AStar.PopFrontier` | pypaths/astar.py:142-143 | After the move, only the moved node's neighbours can lie outside the open and closed sets. |
| `AStar.PopMeasure` | pypaths/astar.py:142-143 | The move either closes a new node or strictly lowers the measure. |
| `AStar.PopConsistent` | pypaths/astar.py:134-143 | Closing an open node of least f-score, and recording that f-score in `fx`, gives `ConsistentDuring` for its expansion. Every stale child of that node is still in its neighbour list. |
| `AStar.OpenNotBelowStale` | pypaths/astar.py:134 | An open node of least f-score has no stale link on its backlink chain. |
| `AStar.RelaxStale` | pypaths/astar.py:151-153 | When a relaxation writes `n`, `n` is not stale. The children of an improved closed `n` become stale. Every other node keeps its state. |
| `AStar.RelaxKeepsOpenParentsStale` | pypaths/astar.py:151-154 | After a relaxation, every child of an open node is still stale. |
| `AStar.RelaxStaleParentsOpen` | pypaths/astar.py:151-154 | After a relaxation, the parent of every stale link, other than the node being expanded, is open with an f-score below its recorded value. |
| `AStar.RelaxBelowStale` | pypaths/astar.py:151-154 | After a relaxation, open nodes below a stale link still rank no lower than the link's parent did. The node being expanded still lies below no stale link except its own children. |
| `AStar.RelaxSettled` | pypaths/astar.py:151-154 | Closed nodes that are not reopened keep their ranking against the open set. |
| `AStar.RelaxPending` | pypaths/astar.py:144-155 | The stale children of the node being expanded that remain are all among the neighbours still to be relaxed. |
| `AStar.RelaxConsistent` | pypaths/astar.py:144-155 | Relaxing the next neighbour keeps `ConsistentDuring` for the rest of the list. |
| `AStar.DoneConsistent` | pypaths/astar.py:144-155 | Once the neighbour list is used up, `Consistent` holds again. |
| `AStar.ReconstructPath` | pypaths/astar.py:105-112 | The path ends at the given node and starts at a node with no backlink. Each node after the first has the node before it as its backlink. |
| `AStar.ReconstructPathCost` | pypaths/astar.py:105-112 | Take a reconstructed path where each g-score covers its predecessor's plus the predecessor's cost. Its traversal cost plus the root's g-score is at most the end node's g-score. |
| `AStar.TightPathCost` | pypaths/astar.py:105-112 | If no link on a node's backlink chain is stale, then the reconstructed path's traversal cost plus the root's g-score equals the node's g-score. |
| `AStar.FoundPathIsWalk` | pypaths/astar.py:139-140 | Under the invariant, the path rebuilt from the goal starts at `start`, ends at the goal, and follows neighbours. Its cost is at most the goal's g-score. |
| `AStar.FoundAnswer` | pypaths/astar.py:139-140 | Pop the goal as an open node of least f-score. The path rebuilt from it starts at `start`, ends at the goal and follows neighbours, and its traversal cost equals the goal's g-score. So the goal is reachable. When `start == end`, the answer is g-score 0 with the path `[start]`. |
| `AStar.NotFoundAnswer` | pypaths/astar.py:136-137 | Suppose the loop stopped because the open set ran empty or a popped g-score exceeded `max_cost`. Without a bound, the goal is unreachable. With `start == end`, only a negative bound stops the search. |
| `AStar.UnreachableOutside` | pypaths/astar.py:157 | A set that holds `a`, is closed under neighbours and lacks `b` shows that `b` is unreachable from `a`. |
| `AStar.WalkStaysInside` | pypaths/astar.py:144 | A walk that starts inside a set closed under neighbours stays inside it. |
| `Helpers.GridNeighborsOf` | pypaths/astar.py:74-83 | The result holds exactly the cells orthogonally adjacent to `c` that lie inside the grid and differ from `c`. They come in the order +y, -y, +x, -x. |
| `Helpers.GridNeighbors` | pypaths/astar.py:58-85 | `grid_neighbors(h, w)` is the callback that applies the filtered moves to every cell. |
| `Helpers.GridNeighborsCorner` | pypaths/astar.py:67-69 | `grid_neighbors(10, 10)((0, 0))` is `[(0, 1), (1, 0)]`. |
| `Helpers.GridNeighborsInterior` | pypaths/astar.py:70-71 | `grid_neighbors(10, 10)((1, 1))` is `[(1, 2), (1, 0), (2, 1), (0, 1)]`. |
| `Helpers.FixedCost` | pypaths/astar.py:45-56 | `fixed_cost(k)` returns `k` for every node. |
| `Helpers.FixedCostExamples` | pypaths/astar.py:48-52 | `fixed_cost(20)` gives 20 at `(1, 2)` and at `(3, 4)`. |
| `Helpers.FixedCostPathCost` | pypaths/astar.py:54-55 | Under `fixed_cost(k)`, a path of n nodes costs `k * (n - 1)`. |
| `Helpers.Manhattan` | pypaths/astar.py:29-35 | As written, the result is the true Manhattan distance from `start` to `end` mirrored in the x-axis, since the y-coordinates are added. |
| `Helpers.ManhattanExample` | pypaths/astar.py:32-33 | `manhattan_distance((0, 0), (5, 5))` is 10. |
| `Helpers.ManhattanNonZeroAtGoal` | pypaths/astar.py:35 | The as-written estimate from `(0, 1)` to itself is 2, more than the zero steps needed. |
| `Helpers.ManhattanCorrected` | pypaths/astar.py:29-31 | The corrected distance is 0 exactly when the two cells are equal. |
| `Helpers.WalkCoversManhattan` | pypaths/astar.py:29-31 | The corrected distance between the ends of a grid walk is at most the walk's number of steps. |
| `Helpers.GridFindPath` | pypaths/astar.py:14-18 | Configure a pathfinder with `grid_neighbors(h, w)`, `fixed_cost(k)` and any heuristic. A path it finds moves between adjacent in-grid cells. Its cost is exactly `k` per step, so at least `k` times the Manhattan distance. It respects `max_cost`. Without a bound, it finds a path exactly when the goal is reachable. |
| `Helpers.BoundedSearchExample` | pypaths/astar.py:20-24 | On a 10 by 10 grid with `fixed_cost(2)`, searching from `(0, 0)` to `(2, 2)` with `max_cost = 7` returns `(None, [])`. This holds for any heuristic. |

## Left out

- `absolute_distance` (pypaths/astar.py:37-43) computes a floating-point square root and is not modelled. Heuristics are any `nat`-valued function.
- The default `pathfinder()` configuration is `grid_neighbors(100, 100)`, `absolute_distance` and `fixed_cost(1)`. It is not modelled because of its floating-point heuristic.
- The exact paths and costs of the first two doctests (pypaths/astar.py:7-9, 14-18) are not derived. They depend on floating-point f-scores and on set iteration order. `GridFindPath` states only what holds under any heuristic: the cost is `k` per step of the returned path.
- Ties among open nodes of equal f-score are broken by Python set iteration order. `SelectMin` takes any minimum, so every tie-break is covered.
- FindPath: requires a finite `universe` that holds the start and is closed under `neighbors`. This only bounds the loop. On an infinite graph the source may run forever, and that case is not modelled.
- Optimality of the returned cost is not proved. It depends on the heuristic being admissible, which the code never checks.
- Costs and heuristic values are non-negative integers, and `max_cost` is an integer. Python would also accept floats and negative values. With a negative cost, `g_score[start]` need not stay 0 and the loop need not end.
- Recursion depth: `reconstruct_path` recurses once per path node, and Python's recursion limit is not modelled.
- `__main__` doctest runner (pypaths/astar.py:161-163) and setup.py are packaging.

The model follows these behaviours of the code:

- The open and closed sets are not kept disjoint: a reopened node stays in the closed set (pypaths/astar.py:148-155).
- `came_from` is also written for a neighbour that is not closed, even when the new route is worse (pypaths/astar.py:151-154).
- The start's initial f-score is `cost(start)`, not a heuristic estimate (pypaths/astar.py:131).

## Findings

| source | as written | input that shows it | evidently intended | confidence | as-written member | corrected member |
|---|---|---|---|---|---|---|
| pypaths/astar.py:35 | `abs(start[1] + end[1])` adds the y-coordinates | `manhattan_distance((0, 1), (0, 1))` is 2 although the points coincide | `abs(start[1] - end[1])`, which gives 0 at the goal and never exceeds the steps of a grid walk | high; not executed | `Helpers.ManhattanNonZeroAtGoal` | `Helpers.WalkCoversManhattan` |
