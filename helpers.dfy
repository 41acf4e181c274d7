/** The graph-description helpers of pypaths/astar.py: a bounded
    four-directional grid, a constant traversal cost and the integer
    "manhattan" heuristic, with a pathfinder configured from them. */
module Helpers {
  import opened AStar

  /** A grid cell as an (x, y) pair. */
  type Coord = (int, int)

  function Abs(x: int): nat {
    if x < 0 then -x else x
  }

  // ---------------------------------------------------------------------------
  // grid_neighbors

  predicate InGrid(height: int, width: int, c: Coord) {
    0 <= c.0 < width && 0 <= c.1 < height
  }

  /** `d` is one orthogonal step away from `c`. */
  predicate Adjacent(c: Coord, d: Coord) {
    Abs(c.0 - d.0) + Abs(c.1 - d.1) == 1
  }

  /** The place of the step from `c` to `d` in the order the source lists
      candidate moves: +y, -y, +x, -x. */
  function Direction(c: Coord, d: Coord): nat {
    if d == (c.0, c.1 + 1) then 0
    else if d == (c.0, c.1 - 1) then 1
    else if d == (c.0 + 1, c.1) then 2
    else 3
  }

  /** The inner `func` of `grid_neighbors(height, width)`: the candidate
      moves from `c` that differ from `c` and lie inside the grid. */
  function GridNeighborsOf(height: int, width: int, c: Coord): (r: seq<Coord>)
    ensures forall d :: d in r <==> d != c && Adjacent(c, d) && InGrid(height, width, d)
    ensures forall i, j :: 0 <= i < j < |r| ==> Direction(c, r[i]) < Direction(c, r[j])
  {
    var up, down, right, left := (c.0, c.1 + 1), (c.0, c.1 - 1), (c.0 + 1, c.1), (c.0 - 1, c.1);
    (if up != c && InGrid(height, width, up) then [up] else [])
    + (if down != c && InGrid(height, width, down) then [down] else [])
    + (if right != c && InGrid(height, width, right) then [right] else [])
    + (if left != c && InGrid(height, width, left) then [left] else [])
  }

  /** `grid_neighbors(height, width)`: the neighbour callback of a grid. */
  function GridNeighbors(height: int, width: int): (f: Coord -> seq<Coord>)
    ensures forall c :: f(c) == GridNeighborsOf(height, width, c)
  {
    c => GridNeighborsOf(height, width, c)
  }

  lemma GridNeighborsCorner()
    ensures GridNeighbors(10, 10)((0, 0)) == [(0, 1), (1, 0)]
  {
    assert GridNeighborsOf(10, 10, (0, 0)) == [(0, 1)] + [] + [(1, 0)] + [];
  }

  lemma GridNeighborsInterior()
    ensures GridNeighbors(10, 10)((1, 1)) == [(1, 2), (1, 0), (2, 1), (0, 1)]
  {
    assert GridNeighborsOf(10, 10, (1, 1)) == [(1, 2)] + [(1, 0)] + [(2, 1)] + [(0, 1)];
  }

  // ---------------------------------------------------------------------------
  // fixed_cost

  /** `fixed_cost(cost)`: the same traversal cost for every node. */
  function FixedCost<N(!new)>(cost: nat): (f: N -> nat)
    ensures forall n :: f(n) == cost
  {
    n => cost
  }

  lemma FixedCostExamples()
    ensures FixedCost(20)((1, 2)) == 20 && FixedCost(20)((3, 4)) == 20
  {
  }

  /** Under a fixed cost, a path costs that cost once per step. */
  lemma {:induction false} FixedCostPathCost<N(!new)>(k: nat, path: seq<N>)
    requires |path| > 0
    ensures PathCost(FixedCost(k), path) == k * (|path| - 1)
  {
    if |path| > 1 {
      FixedCostPathCost(k, path[..|path| - 1]);
    }
  }

  // ---------------------------------------------------------------------------
  // manhattan_distance

  /** `manhattan_distance` as written: the x-coordinates are subtracted but
      the y-coordinates are added, so the result is the Manhattan distance to
      the goal mirrored in the x-axis. */
  function Manhattan(start: Coord, end: Coord): (d: nat)
    ensures d == ManhattanCorrected(start, (end.0, -end.1))
  {
    Abs(start.0 - end.0) + Abs(start.1 + end.1)
  }

  lemma ManhattanExample()
    ensures Manhattan((0, 0), (5, 5)) == 10
  {
  }

  /** As written, the estimate from a cell to itself is twice its
      y-coordinate rather than 0: at the goal (0, 1) it reports 2 although
      the walk [(0, 1)] of no steps already arrives. */
  lemma ManhattanNonZeroAtGoal()
    ensures Manhattan((0, 1), (0, 1)) == 2
  {
  }

  /** The Manhattan distance the helper is named after. */
  function ManhattanCorrected(start: Coord, end: Coord): (d: nat)
    ensures d == 0 <==> start == end
  {
    Abs(start.0 - end.0) + Abs(start.1 - end.1)
  }

  /** One grid step changes the corrected distance to a fixed goal by at
      most one. */
  lemma StepChangesManhattanByOne(c: Coord, d: Coord, goal: Coord)
    requires Adjacent(c, d)
    ensures ManhattanCorrected(c, goal) <= ManhattanCorrected(d, goal) + 1
  {
  }

  /** The corrected distance never exceeds the number of steps of a grid
      walk: it is an admissible estimate under unit cost. */
  lemma {:induction false} WalkCoversManhattan(height: int, width: int, w: seq<Coord>)
    requires |w| > 0 && IsWalk(GridNeighbors(height, width), w)
    ensures ManhattanCorrected(w[0], w[|w| - 1]) <= |w| - 1
  {
    if |w| > 1 {
      var prefix := w[..|w| - 1];
      assert IsWalk(GridNeighbors(height, width), prefix) by {
        forall i | 0 < i < |prefix| ensures prefix[i] in GridNeighbors(height, width)(prefix[i - 1]) {
          assert prefix[i] == w[i] && prefix[i - 1] == w[i - 1];
        }
      }
      WalkCoversManhattan(height, width, prefix);
      var last := w[|w| - 1];
      assert last in GridNeighborsOf(height, width, w[|w| - 2]);
      StepChangesManhattanByOne(last, w[|w| - 2], w[0]);
    }
  }

  // ---------------------------------------------------------------------------
  // A pathfinder over a grid

  /** Every cell of the grid, and the start. */
  function GridUniverse(height: int, width: int, start: Coord): (u: set<Coord>)
    ensures start in u
    ensures forall c :: InGrid(height, width, c) ==> c in u
  {
    var cells := set x, y | 0 <= x < width && 0 <= y < height :: (x, y);
    assert forall c :: InGrid(height, width, c) ==> (c.0, c.1) in cells;
    cells + {start}
  }

  /** `pathfinder(neighbors=grid_neighbors(height, width), distance=distance,
      cost=fixed_cost(k))` called with `(start, end, max_cost)`. Any path found
      steps between adjacent cells inside the grid, costs exactly `k` per
      step, and so at least `k` per Manhattan step between start and end. */
  method GridFindPath(height: int, width: int, k: nat, distance: (Coord, Coord) -> nat,
                      start: Coord, end: Coord, maxCost: Option<int>)
    returns (cost: Option<nat>, path: seq<Coord>)
    ensures cost.None? ==> path == []
    ensures cost.Some? ==>
      && |path| > 0 && path[0] == start && path[|path| - 1] == end
      && (forall i :: 0 < i < |path| ==> InGrid(height, width, path[i]) && Adjacent(path[i - 1], path[i]))
      && cost.value == k * (|path| - 1)
      && k * ManhattanCorrected(start, end) <= cost.value
    ensures cost.Some? && maxCost.Some? ==> cost.value <= maxCost.value
    ensures maxCost.None? ==> (cost.Some? <==> Reachable(GridNeighbors(height, width), start, end))
  {
    var fd := Finder(GridNeighbors(height, width), distance, FixedCost(k));
    ghost var universe := GridUniverse(height, width, start);
    cost, path := FindPath(fd, start, end, maxCost, universe);
    if cost.Some? {
      FixedCostPathCost(k, path);
      WalkCoversManhattan(height, width, path);
      assert k * ManhattanCorrected(start, end) <= k * (|path| - 1) by {
        MulMonotone(k, ManhattanCorrected(start, end), |path| - 1);
      }
      forall i | 0 < i < |path| ensures InGrid(height, width, path[i]) && Adjacent(path[i - 1], path[i]) {
        assert path[i] in GridNeighborsOf(height, width, path[i - 1]);
      }
    }
  }

  lemma MulMonotone(k: nat, a: nat, b: nat)
    requires a <= b
    ensures k * a <= k * b
  {
  }

  /** The cost-bounded doctest: on a 10 by 10 grid with cost 2 per cell, no
      path from (0, 0) to (2, 2) fits within 7, whatever the heuristic. */
  method BoundedSearchExample(distance: (Coord, Coord) -> nat) returns (cost: Option<nat>, path: seq<Coord>)
    ensures cost == None && path == []
  {
    cost, path := GridFindPath(10, 10, 2, distance, (0, 0), (2, 2), Some(7));
  }
}
