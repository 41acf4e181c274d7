/** A* search over an abstract graph, as built by `pathfinder` in pypaths/astar.py.

    A pathfinder is bound to three callbacks (neighbour enumeration, heuristic
    distance, per-node traversal cost); each call of the resulting search runs
    a fresh best-first loop over five working structures and answers either
    the cost and the node sequence of a path, or "not found". */
module AStar {

  datatype Option<T> = None | Some(value: T)

  /** The callbacks a pathfinder is configured with. Costs and heuristic
      estimates are non-negative integers. */
  datatype Finder<!N> = Finder(neighbors: N -> seq<N>, distance: (N, N) -> nat, cost: N -> nat)

  /** The working structures of one search: open set, closed set, backlinks,
      g-scores (cost from start) and f-scores (rank in the open set). */
  datatype Search<N> = Search(
    open: set<N>,
    closed: set<N>,
    cameFrom: map<N, N>,
    gScore: map<N, nat>,
    fScore: map<N, nat>)

  /** The structures as a search starts. The start's f-score is its own
      traversal cost, not a heuristic estimate. */
  function Init<N>(fd: Finder<N>, start: N): (r: Search<N>)
    ensures r.open == {start} && r.closed == {} && r.cameFrom == map[]
    ensures r.gScore.Keys == r.fScore.Keys == {start}
    ensures r.gScore[start] == 0 && r.fScore[start] == fd.cost(start)
  {
    Search({start}, {}, map[], map[start := 0], map[start := fd.cost(start)])
  }

  // ---------------------------------------------------------------------------
  // Walks and their cost

  /** Each node of `w` after the first is a neighbour of the node before it. */
  ghost predicate IsWalk<N>(neighbors: N -> seq<N>, w: seq<N>) {
    forall i :: 0 < i < |w| ==> w[i] in neighbors(w[i - 1])
  }

  ghost predicate Reachable<N(!new)>(neighbors: N -> seq<N>, a: N, b: N) {
    exists w :: IsWalk(neighbors, w) && |w| > 0 && w[0] == a && w[|w| - 1] == b
  }

  /** No neighbour of a member of `u` lies outside `u`. */
  ghost predicate ClosedUnder<N>(neighbors: N -> seq<N>, u: set<N>) {
    forall n, m :: n in u && m in neighbors(n) ==> m in u
  }

  /** The cost of walking `path`: every node but the last is traversed once. */
  function PathCost<N>(cost: N -> nat, path: seq<N>): nat {
    if |path| <= 1 then 0 else PathCost(cost, path[..|path| - 1]) + cost(path[|path| - 2])
  }

  lemma {:induction false} WalkStaysInside<N>(neighbors: N -> seq<N>, u: set<N>, w: seq<N>, i: nat)
    requires ClosedUnder(neighbors, u) && IsWalk(neighbors, w)
    requires |w| > 0 && w[0] in u && i < |w|
    ensures w[i] in u
  {
    if i > 0 {
      WalkStaysInside(neighbors, u, w, i - 1);
      assert w[i] in neighbors(w[i - 1]);
    }
  }

  /** A set that holds `a`, is closed under neighbours and misses `b`
      shows that `b` cannot be reached from `a`. */
  lemma UnreachableOutside<N(!new)>(neighbors: N -> seq<N>, u: set<N>, a: N, b: N)
    requires ClosedUnder(neighbors, u) && a in u && b !in u
    ensures !Reachable(neighbors, a, b)
  {
    if Reachable(neighbors, a, b) {
      var w :| IsWalk(neighbors, w) && |w| > 0 && w[0] == a && w[|w| - 1] == b;
      WalkStaysInside(neighbors, u, w, |w| - 1);
    }
  }

  // ---------------------------------------------------------------------------
  // Selecting the next node

  predicate IsMinimal<N>(open: set<N>, f: map<N, nat>, m: N)
    requires open <= f.Keys
  {
    m in open && forall o :: o in open ==> f[m] <= f[o]
  }

  lemma {:induction false} MinExists<N>(open: set<N>, f: map<N, nat>)
    requires open != {} && open <= f.Keys
    ensures exists m :: IsMinimal(open, f, m)
    decreases open
  {
    var x :| x in open;
    if open == {x} {
      assert IsMinimal(open, f, x);
    } else {
      MinExists(open - {x}, f);
      var m :| IsMinimal(open - {x}, f, m);
      if f[x] <= f[m] {
        assert IsMinimal(open, f, x);
      } else {
        assert IsMinimal(open, f, m);
      }
    }
  }

  /** `min(open_set, key=f_score)`: some open node of least f-score. Which of
      several equal candidates is taken is left open. */
  method SelectMin<N>(open: set<N>, f: map<N, nat>) returns (current: N)
    requires open != {} && open <= f.Keys
    ensures current in open
    ensures forall o :: o in open ==> f[current] <= f[o]
  {
    MinExists(open, f);
    current :| IsMinimal(open, f, current);
  }

  // ---------------------------------------------------------------------------
  // Path reconstruction

  /** The rank that breaks ties between backlinked nodes of equal g-score:
      the time a node's backlink was last written, 0 for a node without one. */
  ghost function Rank<N>(cameFrom: map<N, N>, stamp: map<N, nat>, n: N): nat {
    if n in cameFrom && n in stamp then stamp[n] else 0
  }

  /** Following a backlink strictly descends in (g-score, rank), so the
      backlinks form no cycle. */
  ghost predicate Descends<N>(cameFrom: map<N, N>, g: map<N, nat>, stamp: map<N, nat>) {
    forall n :: n in cameFrom ==>
      && n in g && cameFrom[n] in g
      && (|| g[cameFrom[n]] < g[n]
          || (g[cameFrom[n]] == g[n] && Rank(cameFrom, stamp, cameFrom[n]) < Rank(cameFrom, stamp, n)))
  }

  /** `reconstruct_path`: follow backlinks from `node` to a node that has
      none, and list the nodes visited from that root up to `node`. The
      ghost g-scores and stamps only witness that the backlinks end. */
  function ReconstructPath<N>(cameFrom: map<N, N>, node: N, ghost g: map<N, nat>, ghost stamp: map<N, nat>)
    : (path: seq<N>)
    requires Descends(cameFrom, g, stamp) && node in g
    ensures |path| > 0 && path[|path| - 1] == node
    ensures path[0] !in cameFrom && path[0] in g
    ensures forall i :: 0 < i < |path| ==> path[i] in cameFrom && cameFrom[path[i]] == path[i - 1]
    decreases g[node], Rank(cameFrom, stamp, node)
  {
    if node in cameFrom then
      ReconstructPath(cameFrom, cameFrom[node], g, stamp) + [node]
    else
      [node]
  }

  /** Along a reconstructed path, the cost of the walk is covered by the
      g-score difference of its ends, when each g-score is at least its
      predecessor's plus the predecessor's traversal cost. */
  lemma {:induction false} ReconstructPathCost<N>(
    cost: N -> nat, cameFrom: map<N, N>, node: N, g: map<N, nat>, stamp: map<N, nat>)
    requires Descends(cameFrom, g, stamp) && node in g
    requires forall n :: n in cameFrom ==> n in g && cameFrom[n] in g && g[n] >= g[cameFrom[n]] + cost(cameFrom[n])
    ensures var path := ReconstructPath(cameFrom, node, g, stamp);
            PathCost(cost, path) + g[path[0]] <= g[node]
    decreases g[node], Rank(cameFrom, stamp, node)
  {
    if node in cameFrom {
      var p := cameFrom[node];
      ReconstructPathCost(cost, cameFrom, p, g, stamp);
      var prefix := ReconstructPath(cameFrom, p, g, stamp);
      var path := prefix + [node];
      assert path == ReconstructPath(cameFrom, node, g, stamp);
      assert path[..|path| - 1] == prefix;
      assert path[|path| - 2] == p;
    }
  }

  // ---------------------------------------------------------------------------
  // Relaxing one neighbour

  /** Whether relaxing `neighbor` from `current` writes its scores: it is not
      closed, or it is closed and the route through `current` is strictly
      cheaper. */
  predicate Updates<N>(fd: Finder<N>, s: Search<N>, current: N, neighbor: N)
    requires current in s.gScore
  {
    var tentative := s.gScore[current] + fd.cost(current);
    neighbor !in s.closed || (neighbor in s.gScore && tentative < s.gScore[neighbor])
  }

  /** One pass of the inner loop body for `neighbor`. The tentative score is
      charged with the cost of `current`, the node being expanded. */
  function Relax<N>(fd: Finder<N>, s: Search<N>, current: N, end: N, neighbor: N): (r: Search<N>)
    requires current in s.gScore
    ensures r.closed == s.closed && s.open <= r.open && s.gScore.Keys <= r.gScore.Keys
    ensures !Updates(fd, s, current, neighbor) ==> r == s
    ensures Updates(fd, s, current, neighbor) ==>
      var tentative := s.gScore[current] + fd.cost(current);
      && r.open == s.open + {neighbor}
      && r.cameFrom == s.cameFrom[neighbor := current]
      && r.gScore == s.gScore[neighbor := tentative]
      && r.fScore == s.fScore[neighbor := tentative + fd.distance(neighbor, end)]
  {
    var tentative := s.gScore[current] + fd.cost(current);
    if neighbor in s.closed && (neighbor in s.gScore && tentative >= s.gScore[neighbor]) then
      s
    else if neighbor !in s.closed || (neighbor in s.gScore && tentative < s.gScore[neighbor]) then
      s.(cameFrom := s.cameFrom[neighbor := current],
         gScore := s.gScore[neighbor := tentative],
         fScore := s.fScore[neighbor := tentative + fd.distance(neighbor, end)],
         open := s.open + {neighbor})
    else
      s
  }

  /** A neighbour that is not closed is overwritten even when it already
      holds a better g-score. */
  lemma RelaxOverwritesUnclosed<N>(fd: Finder<N>, s: Search<N>, current: N, end: N, neighbor: N)
    requires current in s.gScore && neighbor !in s.closed
    requires neighbor in s.gScore && s.gScore[neighbor] < s.gScore[current] + fd.cost(current)
    ensures var r := Relax(fd, s, current, end, neighbor);
            neighbor in r.gScore && r.gScore[neighbor] > s.gScore[neighbor] && r.cameFrom[neighbor] == current
  {
  }

  /** A closed neighbour that is strictly improved is put back into the open
      set and stays in the closed set. */
  lemma RelaxReopensClosed<N>(fd: Finder<N>, s: Search<N>, current: N, end: N, neighbor: N)
    requires current in s.gScore && neighbor in s.closed
    requires neighbor in s.gScore && s.gScore[current] + fd.cost(current) < s.gScore[neighbor]
    ensures var r := Relax(fd, s, current, end, neighbor);
            neighbor in r.open && neighbor in r.closed
  {
  }

  /** The inner `for` loop: relax every node of `ns`, first to last. */
  function RelaxAll<N>(fd: Finder<N>, s: Search<N>, current: N, end: N, ns: seq<N>): (r: Search<N>)
    requires current in s.gScore
    ensures current in r.gScore && r.closed == s.closed
  {
    if ns == [] then s
    else Relax(fd, RelaxAll(fd, s, current, end, ns[..|ns| - 1]), current, end, ns[|ns| - 1])
  }

  // ---------------------------------------------------------------------------
  // The search invariant

  /** Every open node and every closed node has a g-score; every open node
      has an f-score. */
  ghost predicate Scored<N>(s: Search<N>) {
    s.open <= s.gScore.Keys && s.open <= s.fScore.Keys && s.closed <= s.gScore.Keys
  }

  /** The start has g-score 0 and no backlink; every other scored node has a
      backlink. */
  ghost predicate Rooted<N>(start: N, s: Search<N>) {
    && start in s.gScore && s.gScore[start] == 0 && start !in s.cameFrom
    && (forall n :: n in s.gScore ==> n == start || n in s.cameFrom)
  }

  /** Every backlink points at a closed node that lists the linked node as a
      neighbour, and the linked node's g-score covers its predecessor's plus
      the predecessor's traversal cost. */
  ghost predicate Linked<N>(fd: Finder<N>, s: Search<N>) {
    forall n :: n in s.cameFrom ==>
      && n in s.gScore && s.cameFrom[n] in s.gScore
      && s.cameFrom[n] in s.closed
      && n in fd.neighbors(s.cameFrom[n])
      && s.gScore[n] >= s.gScore[s.cameFrom[n]] + fd.cost(s.cameFrom[n])
  }

  /** The backlinks descend, every backlinked node has a stamp, and every
      stamp is older than `clock`. */
  ghost predicate Stamped<N>(s: Search<N>, stamp: map<N, nat>, clock: nat) {
    && Descends(s.cameFrom, s.gScore, stamp)
    && s.cameFrom.Keys <= stamp.Keys
    && 0 < clock
    && (forall n :: n in stamp ==> stamp[n] < clock)
  }

  /** What the search loop keeps. `stamp` and `clock` are ghost bookkeeping
      of when each backlink was written. */
  ghost predicate Inv<N>(fd: Finder<N>, start: N, end: N, universe: set<N>, s: Search<N>,
                         stamp: map<N, nat>, clock: nat)
  {
    && Scored(s)
    && Rooted(start, s)
    && Linked(fd, s)
    && Stamped(s, stamp, clock)
    && s.open <= universe && s.closed <= universe
    && (start in s.closed || (s.closed == {} && s.open == {start}))
    && end !in s.closed
  }

  /** Every neighbour of a closed node outside `except` is open or closed. */
  ghost predicate FrontierExcept<N>(neighbors: N -> seq<N>, s: Search<N>, except: set<N>) {
    forall n, m :: n in s.closed && n !in except && m in neighbors(n) ==> m in s.open || m in s.closed
  }

  // ---------------------------------------------------------------------------
  // The termination measure

  ghost function SumG<N>(s: set<N>, g: map<N, nat>): nat
    requires s <= g.Keys
  {
    if s == {} then 0 else var x :| x in s; g[x] + SumG(s - {x}, g)
  }

  lemma {:induction false} SumGRemove<N>(s: set<N>, g: map<N, nat>, y: N)
    requires s <= g.Keys && y in s
    ensures SumG(s, g) == g[y] + SumG(s - {y}, g)
    decreases s
  {
    var x :| x in s && SumG(s, g) == g[x] + SumG(s - {x}, g);
    if x != y {
      SumGRemove(s - {x}, g, y);
      SumGRemove(s - {y}, g, x);
      assert s - {x} - {y} == s - {y} - {x};
    }
  }

  lemma {:induction false} SumGAgree<N>(s: set<N>, g1: map<N, nat>, g2: map<N, nat>)
    requires s <= g1.Keys && s <= g2.Keys
    requires forall x :: x in s ==> g1[x] == g2[x]
    ensures SumG(s, g1) == SumG(s, g2)
    decreases s
  {
    if s != {} {
      var x :| x in s;
      SumGRemove(s, g1, x);
      SumGRemove(s, g2, x);
      SumGAgree(s - {x}, g1, g2);
    }
  }

  /** Changing the g-score of a member of `s` changes the sum by as much;
      changing that of a non-member leaves it. */
  lemma SumGUpdate<N>(s: set<N>, g: map<N, nat>, y: N, v: nat)
    requires s <= g.Keys
    ensures y in s ==> SumG(s, g[y := v]) + g[y] == SumG(s, g) + v
    ensures y !in s ==> SumG(s, g[y := v]) == SumG(s, g)
  {
    var g' := g[y := v];
    if y in s {
      SumGRemove(s, g, y);
      SumGRemove(s, g', y);
      SumGAgree(s - {y}, g, g');
    } else {
      SumGAgree(s, g, g');
    }
  }

  /** Falls each time a closed node is expanded again: reopening a closed
      node needs a strict drop of its g-score. */
  ghost function Measure<N>(s: Search<N>): nat
    requires s.closed <= s.gScore.Keys
  {
    2 * SumG(s.closed, s.gScore) + |s.open * s.closed|
  }

  lemma SubsetCard<N>(a: set<N>, b: set<N>)
    requires a <= b
    ensures |a| <= |b|
  {
    assert b == a + (b - a);
  }

  // ---------------------------------------------------------------------------
  // Relaxation keeps the invariant

  /** The stamps after relaxing `neighbor`: a written backlink gets the
      current clock. */
  ghost function Restamp<N>(fd: Finder<N>, s: Search<N>, current: N, neighbor: N, stamp: map<N, nat>, clock: nat)
    : map<N, nat>
    requires current in s.gScore
  {
    if Updates(fd, s, current, neighbor) then stamp[neighbor := clock] else stamp
  }

  lemma RelaxKeepsRooted<N>(fd: Finder<N>, start: N, s: Search<N>, current: N, end: N, neighbor: N)
    requires Rooted(start, s) && current in s.gScore && start in s.closed
    ensures Rooted(start, Relax(fd, s, current, end, neighbor))
  {
  }

  lemma RelaxKeepsLinked<N>(fd: Finder<N>, s: Search<N>, current: N, end: N, neighbor: N)
    requires Linked(fd, s) && s.closed <= s.gScore.Keys
    requires current in s.closed && neighbor in fd.neighbors(current)
    ensures Linked(fd, Relax(fd, s, current, end, neighbor))
  {
    var r := Relax(fd, s, current, end, neighbor);
    if Updates(fd, s, current, neighbor) {
      assert neighbor != current;
      forall n | n in r.cameFrom
        ensures && n in r.gScore && r.cameFrom[n] in r.gScore
                && r.cameFrom[n] in r.closed
                && n in fd.neighbors(r.cameFrom[n])
                && r.gScore[n] >= r.gScore[r.cameFrom[n]] + fd.cost(r.cameFrom[n])
      {
        if n != neighbor && s.cameFrom[n] == neighbor {
          assert neighbor in s.closed;
        }
      }
    }
  }

  lemma RelaxKeepsStamped<N>(fd: Finder<N>, s: Search<N>, stamp: map<N, nat>, clock: nat,
                             current: N, end: N, neighbor: N)
    requires Stamped(s, stamp, clock) && Linked(fd, s) && s.closed <= s.gScore.Keys
    requires current in s.closed
    ensures Stamped(Relax(fd, s, current, end, neighbor), Restamp(fd, s, current, neighbor, stamp, clock), clock + 1)
  {
    var r := Relax(fd, s, current, end, neighbor);
    var stamp' := Restamp(fd, s, current, neighbor, stamp, clock);
    if Updates(fd, s, current, neighbor) {
      assert neighbor != current;
      forall n | n in r.cameFrom
        ensures && n in r.gScore && r.cameFrom[n] in r.gScore
                && (|| r.gScore[r.cameFrom[n]] < r.gScore[n]
                    || (r.gScore[r.cameFrom[n]] == r.gScore[n]
                        && Rank(r.cameFrom, stamp', r.cameFrom[n]) < Rank(r.cameFrom, stamp', n)))
      {
        if n != neighbor && s.cameFrom[n] == neighbor {
          assert neighbor in s.closed;
        }
      }
    }
  }

  lemma RelaxMeasure<N>(fd: Finder<N>, s: Search<N>, current: N, end: N, neighbor: N)
    requires s.closed <= s.gScore.Keys && current in s.closed
    ensures Measure(Relax(fd, s, current, end, neighbor)) <= Measure(s)
  {
    var r := Relax(fd, s, current, end, neighbor);
    if Updates(fd, s, current, neighbor) {
      var tentative := s.gScore[current] + fd.cost(current);
      SumGUpdate(s.closed, s.gScore, neighbor, tentative);
      if neighbor in s.closed {
        assert r.open * r.closed <= (s.open * s.closed) + {neighbor};
        SubsetCard(r.open * r.closed, (s.open * s.closed) + {neighbor});
      } else {
        assert r.open * r.closed == s.open * s.closed;
      }
    }
  }

  lemma RelaxPreservesInv<N>(fd: Finder<N>, start: N, end: N, universe: set<N>, s: Search<N>,
                             stamp: map<N, nat>, clock: nat, current: N, neighbor: N)
    requires Inv(fd, start, end, universe, s, stamp, clock)
    requires ClosedUnder(fd.neighbors, universe)
    requires current in s.closed && neighbor in fd.neighbors(current)
    ensures var r := Relax(fd, s, current, end, neighbor);
            && Inv(fd, start, end, universe, r, Restamp(fd, s, current, neighbor, stamp, clock), clock + 1)
            && (neighbor in r.open || neighbor in r.closed)
            && Measure(r) <= Measure(s)
  {
    assert current in universe;
    RelaxKeepsRooted(fd, start, s, current, end, neighbor);
    RelaxKeepsLinked(fd, s, current, end, neighbor);
    RelaxKeepsStamped(fd, s, stamp, clock, current, end, neighbor);
    RelaxMeasure(fd, s, current, end, neighbor);
  }

  /** The body of the inner loop for one neighbour: the imperative
      rendering of `Relax`. */
  method RelaxNeighbor<N>(fd: Finder<N>, s: Search<N>, current: N, end: N, neighbor: N) returns (r: Search<N>)
    requires current in s.gScore
    ensures r == Relax(fd, s, current, end, neighbor)
  {
    r := s;
    var tentative := r.gScore[current] + fd.cost(current);
    if neighbor in r.closed && (neighbor in r.gScore && tentative >= r.gScore[neighbor]) {
      return;
    }
    if neighbor !in r.closed || (neighbor in r.gScore && tentative < r.gScore[neighbor]) {
      r := r.(cameFrom := r.cameFrom[neighbor := current],
              gScore := r.gScore[neighbor := tentative],
              fScore := r.fScore[neighbor := tentative + fd.distance(neighbor, end)],
              open := r.open + {neighbor});
    }
  }

  /** Moving `current` from the open set to the closed set. */
  function Pop<N>(s: Search<N>, current: N): (r: Search<N>)
    ensures r.open == s.open - {current} && r.closed == s.closed + {current}
    ensures r.cameFrom == s.cameFrom && r.gScore == s.gScore && r.fScore == s.fScore
  {
    s.(open := s.open - {current}, closed := s.closed + {current})
  }

  /** Closing the selected node keeps the invariant. */
  lemma PopPreservesInv<N>(fd: Finder<N>, start: N, end: N, universe: set<N>, s: Search<N>,
                           stamp: map<N, nat>, clock: nat, current: N)
    requires Inv(fd, start, end, universe, s, stamp, clock)
    requires current in s.open && current != end
    ensures Inv(fd, start, end, universe, Pop(s, current), stamp, clock)
  {
    var s' := Pop(s, current);
    assert Linked(fd, s') by {
      forall n | n in s'.cameFrom ensures s'.cameFrom[n] in s'.closed {
        assert s.cameFrom[n] in s.closed;
      }
    }
    assert Rooted(start, s');
    assert Stamped(s', stamp, clock);
  }

  /** Closing the selected node leaves only its own neighbours unaccounted for. */
  lemma PopFrontier<N>(neighbors: N -> seq<N>, s: Search<N>, current: N)
    requires FrontierExcept(neighbors, s, {}) && current in s.open
    ensures FrontierExcept(neighbors, Pop(s, current), {current})
  {
  }

  /** Closing the selected node either closes a node for the first time or
      lowers the measure. */
  lemma PopMeasure<N>(universe: set<N>, s: Search<N>, current: N)
    requires s.closed <= s.gScore.Keys && current in s.open && current in s.gScore
    ensures current in s.closed ==> Measure(Pop(s, current)) < Measure(s)
    ensures current !in s.closed && current in universe ==>
      |universe - Pop(s, current).closed| < |universe - s.closed|
  {
    var s' := Pop(s, current);
    if current in s.closed {
      assert s'.closed == s.closed;
      assert s'.open * s'.closed == (s.open * s.closed) - {current};
    } else {
      assert universe - s'.closed == (universe - s.closed) - {current};
    }
  }

  // ---------------------------------------------------------------------------
  // Why the goal's g-score is the cost of its path

  /** The node reached from `y` by following at most `k` backlinks. */
  ghost function Anc<N>(cameFrom: map<N, N>, y: N, k: nat): N {
    if k == 0 || y !in cameFrom then y else Anc(cameFrom, cameFrom[y], k - 1)
  }

  lemma {:induction false} AncStep<N>(cameFrom: map<N, N>, y: N, k: nat)
    ensures var a := Anc(cameFrom, y, k);
            Anc(cameFrom, y, k + 1) == if a in cameFrom then cameFrom[a] else a
  {
    if k > 0 && y in cameFrom {
      AncStep(cameFrom, cameFrom[y], k - 1);
    }
  }

  /** Following backlinks never raises the g-score. */
  lemma {:induction false} AncScore<N>(fd: Finder<N>, s: Search<N>, y: N, k: nat)
    requires Linked(fd, s) && y in s.gScore
    ensures Anc(s.cameFrom, y, k) in s.gScore && s.gScore[Anc(s.cameFrom, y, k)] <= s.gScore[y]
  {
    if k > 0 && y in s.cameFrom {
      AncScore(fd, s, s.cameFrom[y], k - 1);
    }
  }

  /** Once `n`'s backlink points at `w`, following backlinks from `y`
      either retraces the old backlinks (without leaving `n` by its new one)
      or ends at a node that was an ancestor of `w` before. */
  lemma {:induction false} AncRedirect<N>(cameFrom: map<N, N>, n: N, w: N, y: N, k: nat)
    ensures || (Anc(cameFrom[n := w], y, k) == Anc(cameFrom, y, k) && (y != n || k == 0))
            || (exists j :: Anc(cameFrom[n := w], y, k) == Anc(cameFrom, w, j))
  {
    var cf' := cameFrom[n := w];
    if k > 0 && y in cf' {
      AncRedirect(cameFrom, n, w, cf'[y], k - 1);
      if y == n && Anc(cf', w, k - 1) == Anc(cameFrom, w, k - 1) {
        assert Anc(cf', y, k) == Anc(cameFrom, w, k - 1);
      }
    }
  }

  /** `c`'s g-score exceeds what its predecessor's g-score and cost give:
      the predecessor was improved after `c` was written. */
  ghost predicate Stale<N>(fd: Finder<N>, s: Search<N>, c: N) {
    && c in s.cameFrom && c in s.gScore && s.cameFrom[c] in s.gScore
    && s.gScore[c] > s.gScore[s.cameFrom[c]] + fd.cost(s.cameFrom[c])
  }

  /** Every open node but the start ranks by its g-score plus the estimate
      to the goal. */
  ghost predicate Ranked<N>(fd: Finder<N>, start: N, end: N, s: Search<N>) {
    forall n :: n in s.open && n != start ==>
      n in s.gScore && n in s.fScore && s.fScore[n] == s.gScore[n] + fd.distance(n, end)
  }

  /** `fx` holds each closed node's f-score at its last expansion; for a
      closed node not reopened since, that is its g-score plus the estimate. */
  ghost predicate Recorded<N>(fd: Finder<N>, start: N, end: N, s: Search<N>, fx: map<N, nat>) {
    && s.closed <= fx.Keys
    && forall q :: q in s.closed && q !in s.open && q != start ==>
         q in s.gScore && fx[q] == s.gScore[q] + fd.distance(q, end)
  }

  /** An open node's backlinked children are all stale: an open closed node
      has been improved since its last expansion. */
  ghost predicate OpenParentsStale<N>(fd: Finder<N>, s: Search<N>) {
    forall c :: c in s.cameFrom && s.cameFrom[c] in s.open ==> Stale(fd, s, c)
  }

  /** The predecessor of a stale node (outside `except`) is open, ranked
      below its rank at its last expansion. */
  ghost predicate StaleParentsOpen<N>(fd: Finder<N>, s: Search<N>, fx: map<N, nat>, except: set<N>) {
    forall c :: c in s.cameFrom && Stale(fd, s, c) && s.cameFrom[c] !in except ==> Reopened(s, fx, s.cameFrom[c])
  }

  /** `p` is open again with an f-score below the one of its last expansion. */
  ghost predicate Reopened<N>(s: Search<N>, fx: map<N, nat>, p: N) {
    p in s.open && p in s.fScore && p in fx && s.fScore[p] < fx[p]
  }

  /** An open node below a stale node (whose predecessor is outside
      `except`) ranks no lower than that predecessor did at its last
      expansion. */
  ghost predicate BelowStaleRanked<N>(fd: Finder<N>, s: Search<N>, fx: map<N, nat>, except: set<N>) {
    forall y, k :: y in s.open && Stale(fd, s, Anc(s.cameFrom, y, k)) && s.cameFrom[Anc(s.cameFrom, y, k)] !in except ==>
      && s.cameFrom[Anc(s.cameFrom, y, k)] in fx && y in s.fScore
      && fx[s.cameFrom[Anc(s.cameFrom, y, k)]] <= s.fScore[y]
  }

  /** Every open node of lower g-score than `q` ranks no lower than `q` did
      at its last expansion. */
  ghost predicate LowRanked<N>(s: Search<N>, fx: map<N, nat>, q: N) {
    && q in s.gScore && q in fx
    && forall x :: x in s.open && x in s.gScore && s.gScore[x] < s.gScore[q] ==>
         x in s.fScore && fx[q] <= s.fScore[x]
  }

  /** Every open descendant of `q` ranks no lower than `q` did at its last
      expansion. */
  ghost predicate BelowRanked<N>(s: Search<N>, fx: map<N, nat>, q: N) {
    && q in fx
    && forall y, k :: y in s.open && Anc(s.cameFrom, y, k) == q ==> y in s.fScore && fx[q] <= s.fScore[y]
  }

  /** For a closed node that is not open, one of the two node groups that
      could improve it or lie below it still ranks at or above its old rank. */
  ghost predicate Settled<N>(s: Search<N>, fx: map<N, nat>) {
    forall q :: q in s.closed && q !in s.open ==> LowRanked(s, fx, q) || BelowRanked(s, fx, q)
  }

  /** While `w` is being expanded: for a closed node that is not open, if
      `w` has lower g-score its descendants keep their rank, and if `w`
      descends from it the lower nodes keep theirs. */
  ghost predicate SettledAround<N>(s: Search<N>, fx: map<N, nat>, w: N) {
    forall q :: q in s.closed && q !in s.open ==>
      && (w in s.gScore && q in s.gScore && s.gScore[w] < s.gScore[q] ==> BelowRanked(s, fx, q))
      && ((exists k :: Anc(s.cameFrom, w, k) == q) ==> LowRanked(s, fx, q))
  }

  /** No stale node whose predecessor is not `w` lies on `w`'s backlinks. */
  ghost predicate NotBelowStale<N>(fd: Finder<N>, s: Search<N>, w: N) {
    forall k :: Stale(fd, s, Anc(s.cameFrom, w, k)) ==> s.cameFrom[Anc(s.cameFrom, w, k)] == w
  }

  /** Every stale child of `w` is still to be relaxed. */
  ghost predicate PendingStale<N>(fd: Finder<N>, s: Search<N>, w: N, rest: seq<N>) {
    forall c :: c in s.cameFrom && Stale(fd, s, c) && s.cameFrom[c] == w ==> c in rest
  }

  /** The ranking invariant between iterations of the search loop. */
  ghost predicate Consistent<N>(fd: Finder<N>, start: N, end: N, s: Search<N>, fx: map<N, nat>) {
    && Ranked(fd, start, end, s) && Recorded(fd, start, end, s, fx)
    && OpenParentsStale(fd, s)
    && StaleParentsOpen(fd, s, fx, {}) && BelowStaleRanked(fd, s, fx, {})
    && Settled(s, fx)
  }

  /** The ranking invariant while `w` is expanded, `rest` being the
      neighbours still to relax. */
  ghost predicate ConsistentDuring<N>(fd: Finder<N>, start: N, end: N, s: Search<N>, fx: map<N, nat>,
                                      w: N, rest: seq<N>)
  {
    && w in s.closed && w !in s.open
    && Ranked(fd, start, end, s) && Recorded(fd, start, end, s, fx)
    && OpenParentsStale(fd, s)
    && StaleParentsOpen(fd, s, fx, {w}) && BelowStaleRanked(fd, s, fx, {w})
    && Settled(s, fx) && SettledAround(s, fx, w)
    && NotBelowStale(fd, s, w)
    && PendingStale(fd, s, w, rest)
  }

  lemma InitConsistent<N>(fd: Finder<N>, start: N, end: N, universe: set<N>)
    requires start in universe
    ensures Inv(fd, start, end, universe, Init(fd, start), map[], 1)
    ensures FrontierExcept(fd.neighbors, Init(fd, start), {})
    ensures Consistent(fd, start, end, Init(fd, start), map[])
  {
  }

  /** Closing an f-minimal open node starts its expansion with the ranking
      invariant in its during-expansion form, the node's rank recorded. */
  lemma PopConsistent<N>(fd: Finder<N>, start: N, end: N, universe: set<N>, s: Search<N>,
                         stamp: map<N, nat>, clock: nat, fx: map<N, nat>, w: N)
    requires Inv(fd, start, end, universe, s, stamp, clock) && Consistent(fd, start, end, s, fx)
    requires w in s.open && forall o :: o in s.open ==> s.fScore[w] <= s.fScore[o]
    ensures ConsistentDuring(fd, start, end, Pop(s, w), fx[w := s.fScore[w]], w, fd.neighbors(w))
  {
    PopRanked(fd, start, end, s, fx, w);
    PopStale(fd, s, fx, w);
    PopSettled(s, fx, w);
  }

  lemma PopRanked<N>(fd: Finder<N>, start: N, end: N, s: Search<N>, fx: map<N, nat>, w: N)
    requires Ranked(fd, start, end, s) && Recorded(fd, start, end, s, fx) && OpenParentsStale(fd, s)
    requires w in s.open && w in s.fScore
    ensures var s', fx' := Pop(s, w), fx[w := s.fScore[w]];
            Ranked(fd, start, end, s') && Recorded(fd, start, end, s', fx') && OpenParentsStale(fd, s')
  {
  }

  lemma PopStale<N>(fd: Finder<N>, s: Search<N>, fx: map<N, nat>, w: N)
    requires Scored(s) && Linked(fd, s)
    requires StaleParentsOpen(fd, s, fx, {}) && BelowStaleRanked(fd, s, fx, {})
    requires w in s.open && forall o :: o in s.open ==> s.fScore[w] <= s.fScore[o]
    ensures var s', fx' := Pop(s, w), fx[w := s.fScore[w]];
            && StaleParentsOpen(fd, s', fx', {w}) && BelowStaleRanked(fd, s', fx', {w})
            && NotBelowStale(fd, s', w) && PendingStale(fd, s', w, fd.neighbors(w))
  {
    forall k: nat ensures !Stale(fd, s, Anc(s.cameFrom, w, k)) {
      OpenNotBelowStale(fd, s, fx, w, k);
    }
  }

  /** An open node of least f-score lies below no stale node: the stale
      node's predecessor would be open and rank below it. */
  lemma OpenNotBelowStale<N>(fd: Finder<N>, s: Search<N>, fx: map<N, nat>, w: N, k: nat)
    requires Scored(s) && StaleParentsOpen(fd, s, fx, {}) && BelowStaleRanked(fd, s, fx, {})
    requires w in s.open && forall o :: o in s.open ==> s.fScore[w] <= s.fScore[o]
    ensures !Stale(fd, s, Anc(s.cameFrom, w, k))
  {
  }

  lemma PopSettled<N>(s: Search<N>, fx: map<N, nat>, w: N)
    requires Scored(s) && Settled(s, fx)
    requires w in s.open && forall o :: o in s.open ==> s.fScore[w] <= s.fScore[o]
    ensures Settled(Pop(s, w), fx[w := s.fScore[w]]) && SettledAround(Pop(s, w), fx[w := s.fScore[w]], w)
  {
    var s', fx' := Pop(s, w), fx[w := s.fScore[w]];
    forall q | q in s'.closed && q !in s'.open
      ensures && (LowRanked(s', fx', q) || BelowRanked(s', fx', q))
              && (w in s'.gScore && q in s'.gScore && s'.gScore[w] < s'.gScore[q] ==> BelowRanked(s', fx', q))
              && ((exists k :: Anc(s'.cameFrom, w, k) == q) ==> LowRanked(s', fx', q))
    {
      if q == w {
        assert LowRanked(s', fx', q);
      } else if LowRanked(s, fx, q) {
        assert LowRanked(s', fx', q);
        if s.gScore[w] < s.gScore[q] {
          assert BelowRanked(s', fx', q);
        }
      } else {
        assert BelowRanked(s', fx', q);
        if exists k :: Anc(s.cameFrom, w, k) == q {
          var k :| Anc(s.cameFrom, w, k) == q;
          assert fx[q] <= s.fScore[w];
          assert LowRanked(s', fx', q);
        }
      }
    }
  }

  /** What a relaxation that writes `n` does to staleness: `n` itself is
      not stale, the children of an improved closed `n` become stale, and
      every other node keeps its state. The first two facts are
      `RelaxStaleLink`; the third needs `Linked`. */
  lemma RelaxStale<N>(fd: Finder<N>, s: Search<N>, w: N, end: N, n: N, c: N)
    requires Scored(s) && Linked(fd, s) && w in s.closed && Updates(fd, s, w, n)
    ensures var r := Relax(fd, s, w, end, n);
            && (Stale(fd, r, c) ==> c != n && c in s.cameFrom && r.cameFrom[c] == s.cameFrom[c])
            && (c != n && c in s.cameFrom && s.cameFrom[c] != n ==> (Stale(fd, r, c) <==> Stale(fd, s, c)))
            && (c != n && c in s.cameFrom && s.cameFrom[c] == n ==>
                  && Stale(fd, r, c) && n in s.closed && s.gScore[w] + fd.cost(w) < s.gScore[n])
  {
    RelaxStaleLink(fd, s, w, end, n, c);
  }

  /** The part of `RelaxStale` that needs no fact about the other backlinks. */
  lemma RelaxStaleLink<N>(fd: Finder<N>, s: Search<N>, w: N, end: N, n: N, c: N)
    requires w in s.closed && w in s.gScore && Updates(fd, s, w, n)
    ensures var r := Relax(fd, s, w, end, n);
            && (Stale(fd, r, c) ==> c != n && c in s.cameFrom && r.cameFrom[c] == s.cameFrom[c])
            && (c != n && c in s.cameFrom && s.cameFrom[c] != n ==> (Stale(fd, r, c) <==> Stale(fd, s, c)))
  {
    assert n != w;
  }

  /** An ancestor of the node being expanded is never a stale node whose
      predecessor is improved by this relaxation, nor any other stale node
      not hanging from `w`. */
  lemma RelaxAboveWriter<N>(fd: Finder<N>, s: Search<N>, w: N, end: N, n: N, j: nat)
    requires Scored(s) && Linked(fd, s) && w in s.closed && Updates(fd, s, w, n)
    requires NotBelowStale(fd, s, w)
    ensures var a := Anc(s.cameFrom, w, j);
            Stale(fd, Relax(fd, s, w, end, n), a) ==> s.cameFrom[a] == w
  {
    var a := Anc(s.cameFrom, w, j);
    RelaxStale(fd, s, w, end, n, a);
    if Stale(fd, Relax(fd, s, w, end, n), a) && s.cameFrom[a] == n {
      AncStep(s.cameFrom, w, j);
      AncScore(fd, s, w, j + 1);
      assert false;
    }
  }

  lemma RelaxKeepsOpenParentsStale<N>(fd: Finder<N>, s: Search<N>, w: N, end: N, n: N)
    requires Scored(s) && Linked(fd, s)
    requires w in s.closed && w !in s.open && Updates(fd, s, w, n)
    requires OpenParentsStale(fd, s)
    ensures OpenParentsStale(fd, Relax(fd, s, w, end, n))
  {
    var r := Relax(fd, s, w, end, n);
    forall c | c in r.cameFrom && r.cameFrom[c] in r.open
      ensures Stale(fd, r, c)
    {
      RelaxStale(fd, s, w, end, n, c);
    }
  }

  lemma RelaxStaleParentsOpen<N>(fd: Finder<N>, start: N, end: N, s: Search<N>, fx: map<N, nat>, w: N, n: N)
    requires Scored(s) && Linked(fd, s) && start in s.gScore && s.gScore[start] == 0
    requires w in s.closed && w !in s.open && Updates(fd, s, w, n)
    requires Ranked(fd, start, end, s) && Recorded(fd, start, end, s, fx)
    requires OpenParentsStale(fd, s) && StaleParentsOpen(fd, s, fx, {w})
    ensures StaleParentsOpen(fd, Relax(fd, s, w, end, n), fx, {w})
  {
    var r := Relax(fd, s, w, end, n);
    forall c | c in r.cameFrom && Stale(fd, r, c) && r.cameFrom[c] !in {w}
      ensures Reopened(r, fx, r.cameFrom[c])
    {
      RelaxStaleLink(fd, s, w, end, n, c);
      if s.cameFrom[c] == n {
        assert n != start;
        if n in s.open {
          assert Stale(fd, s, c);
        }
      }
    }
  }

  lemma RelaxBelowStale<N>(fd: Finder<N>, s: Search<N>, fx: map<N, nat>, w: N, end: N, n: N)
    requires Scored(s) && Linked(fd, s)
    requires w in s.closed && w !in s.open && Updates(fd, s, w, n)
    requires OpenParentsStale(fd, s) && BelowStaleRanked(fd, s, fx, {w})
    requires SettledAround(s, fx, w) && NotBelowStale(fd, s, w)
    ensures var r := Relax(fd, s, w, end, n);
            BelowStaleRanked(fd, r, fx, {w}) && NotBelowStale(fd, r, w)
  {
    var r := Relax(fd, s, w, end, n);
    forall y, k | y in r.open && Stale(fd, r, Anc(r.cameFrom, y, k)) && r.cameFrom[Anc(r.cameFrom, y, k)] !in {w}
      ensures && r.cameFrom[Anc(r.cameFrom, y, k)] in fx && y in r.fScore
              && fx[r.cameFrom[Anc(r.cameFrom, y, k)]] <= r.fScore[y]
    {
      var a := Anc(r.cameFrom, y, k);
      RelaxStale(fd, s, w, end, n, a);
      AncRedirect(s.cameFrom, n, w, y, k);
      if a == Anc(s.cameFrom, y, k) && (y != n || k == 0) {
        if s.cameFrom[a] == n && n !in s.open {
          assert BelowRanked(s, fx, n);
          AncStep(s.cameFrom, y, k);
        } else {
          assert Stale(fd, s, a);
        }
      } else {
        var j :| a == Anc(s.cameFrom, w, j);
        RelaxAboveWriter(fd, s, w, end, n, j);
      }
    }
    forall k | Stale(fd, r, Anc(r.cameFrom, w, k))
      ensures r.cameFrom[Anc(r.cameFrom, w, k)] == w
    {
      AncRedirect(s.cameFrom, n, w, w, k);
      if Anc(r.cameFrom, w, k) == Anc(s.cameFrom, w, k) {
        RelaxAboveWriter(fd, s, w, end, n, k);
      } else {
        var j :| Anc(r.cameFrom, w, k) == Anc(s.cameFrom, w, j);
        RelaxAboveWriter(fd, s, w, end, n, j);
      }
    }
  }

  /** Every stale child of `w` is written when its turn comes, and nothing
      else becomes a stale child of `w`. */
  lemma RelaxPending<N>(fd: Finder<N>, s: Search<N>, w: N, end: N, rest: seq<N>)
    requires Scored(s) && Linked(fd, s) && w in s.closed
    requires |rest| > 0 && PendingStale(fd, s, w, rest)
    ensures PendingStale(fd, Relax(fd, s, w, end, rest[0]), w, rest[1..])
  {
    var r := Relax(fd, s, w, end, rest[0]);
    forall c | c in r.cameFrom && Stale(fd, r, c) && r.cameFrom[c] == w
      ensures c in rest[1..]
    {
      if Updates(fd, s, w, rest[0]) {
        RelaxStale(fd, s, w, end, rest[0], c);
      }
      assert c in rest && c != rest[0];
      var i :| 0 <= i < |rest| && rest[i] == c;
      assert rest[1..][i - 1] == c;
    }
  }

  lemma LowKept<N>(fd: Finder<N>, s: Search<N>, fx: map<N, nat>, w: N, end: N, n: N, q: N)
    requires w in s.gScore && Updates(fd, s, w, n)
    requires LowRanked(s, fx, q) && q != n && s.gScore[q] <= s.gScore[w]
    ensures LowRanked(Relax(fd, s, w, end, n), fx, q)
  {
  }

  lemma BelowKept<N>(fd: Finder<N>, s: Search<N>, fx: map<N, nat>, w: N, end: N, n: N, q: N)
    requires w in s.gScore && Updates(fd, s, w, n)
    requires BelowRanked(s, fx, q) && q != n && forall k :: Anc(s.cameFrom, w, k) != q
    ensures BelowRanked(Relax(fd, s, w, end, n), fx, q)
  {
    var r := Relax(fd, s, w, end, n);
    forall y, k | y in r.open && Anc(r.cameFrom, y, k) == q
      ensures y in r.fScore && fx[q] <= r.fScore[y]
    {
      AncRedirect(s.cameFrom, n, w, y, k);
    }
  }

  lemma RelaxSettled<N>(fd: Finder<N>, s: Search<N>, fx: map<N, nat>, w: N, end: N, n: N)
    requires Scored(s) && Linked(fd, s)
    requires w in s.closed && w !in s.open && Updates(fd, s, w, n)
    requires Settled(s, fx) && SettledAround(s, fx, w)
    ensures var r := Relax(fd, s, w, end, n);
            Settled(r, fx) && SettledAround(r, fx, w)
  {
    var r := Relax(fd, s, w, end, n);
    forall q | q in r.closed && q !in r.open
      ensures && (LowRanked(r, fx, q) || BelowRanked(r, fx, q))
              && (w in r.gScore && q in r.gScore && r.gScore[w] < r.gScore[q] ==> BelowRanked(r, fx, q))
              && ((exists k :: Anc(r.cameFrom, w, k) == q) ==> LowRanked(r, fx, q))
    {
      assert q != n && n != w;
      if exists k :: Anc(s.cameFrom, w, k) == q {
        var k :| Anc(s.cameFrom, w, k) == q;
        AncScore(fd, s, w, k);
        LowKept(fd, s, fx, w, end, n, q);
      } else {
        if s.gScore[w] < s.gScore[q] || BelowRanked(s, fx, q) {
          BelowKept(fd, s, fx, w, end, n, q);
        } else {
          LowKept(fd, s, fx, w, end, n, q);
        }
      }
      if exists k :: Anc(r.cameFrom, w, k) == q {
        var k :| Anc(r.cameFrom, w, k) == q;
        AncRedirect(s.cameFrom, n, w, w, k);
      }
    }
  }

  /** Relaxing the next neighbour keeps the during-expansion invariant. */
  lemma RelaxConsistent<N>(fd: Finder<N>, start: N, end: N, universe: set<N>, s: Search<N>,
                           stamp: map<N, nat>, clock: nat, fx: map<N, nat>, w: N, rest: seq<N>)
    requires Inv(fd, start, end, universe, s, stamp, clock)
    requires ConsistentDuring(fd, start, end, s, fx, w, rest) && |rest| > 0
    ensures ConsistentDuring(fd, start, end, Relax(fd, s, w, end, rest[0]), fx, w, rest[1..])
  {
    var n := rest[0];
    RelaxPending(fd, s, w, end, rest);
    RelaxRanked(fd, start, end, s, fx, w, n);
    if Updates(fd, s, w, n) {
      assert n != w;
      RelaxKeepsOpenParentsStale(fd, s, w, end, n);
      RelaxStaleParentsOpen(fd, start, end, s, fx, w, n);
      RelaxBelowStale(fd, s, fx, w, end, n);
      RelaxSettled(fd, s, fx, w, end, n);
    }
  }

  lemma RelaxRanked<N>(fd: Finder<N>, start: N, end: N, s: Search<N>, fx: map<N, nat>, w: N, n: N)
    requires Ranked(fd, start, end, s) && Recorded(fd, start, end, s, fx) && w in s.gScore
    ensures var r := Relax(fd, s, w, end, n);
            Ranked(fd, start, end, r) && Recorded(fd, start, end, r, fx)
  {
  }

  /** With every neighbour relaxed, no stale child of `w` remains. */
  lemma DoneConsistent<N>(fd: Finder<N>, start: N, end: N, s: Search<N>, fx: map<N, nat>, w: N)
    requires ConsistentDuring(fd, start, end, s, fx, w, [])
    ensures Consistent(fd, start, end, s, fx)
  {
  }


  /** Along backlinks none of which is stale, the cost of the reconstructed
      path is exactly the g-score difference of its ends. */
  lemma {:induction false} TightPathCost<N>(fd: Finder<N>, s: Search<N>, node: N, stamp: map<N, nat>)
    requires Linked(fd, s) && Descends(s.cameFrom, s.gScore, stamp) && node in s.gScore
    requires forall k :: !Stale(fd, s, Anc(s.cameFrom, node, k))
    ensures var path := ReconstructPath(s.cameFrom, node, s.gScore, stamp);
            PathCost(fd.cost, path) + s.gScore[path[0]] == s.gScore[node]
    decreases s.gScore[node], Rank(s.cameFrom, stamp, node)
  {
    if node in s.cameFrom {
      var p := s.cameFrom[node];
      forall k: nat ensures !Stale(fd, s, Anc(s.cameFrom, p, k)) {
        assert Anc(s.cameFrom, node, k + 1) == Anc(s.cameFrom, p, k);
      }
      assert !Stale(fd, s, Anc(s.cameFrom, node, 0));
      TightPathCost(fd, s, p, stamp);
      var prefix := ReconstructPath(s.cameFrom, p, s.gScore, stamp);
      var path := prefix + [node];
      assert path == ReconstructPath(s.cameFrom, node, s.gScore, stamp);
      assert path[..|path| - 1] == prefix;
      assert path[|path| - 2] == p;
    }
  }

  lemma SliceStep<N>(ns: seq<N>, i: nat)
    requires i < |ns|
    ensures ns[..i + 1][..i] == ns[..i] && ns[..i + 1] == ns[..i] + [ns[i]]
    ensures |ns[i..]| > 0 && ns[i..][0] == ns[i] && ns[i..][1..] == ns[i + 1..]
  {
  }

  lemma SliceAll<N>(ns: seq<N>)
    ensures ns[..|ns|] == ns && ns[|ns|..] == []
  {
  }

  /** The inner loop of the search: relax each neighbour of `current`. */
  method ExpandNeighbors<N>(fd: Finder<N>, s: Search<N>, current: N, end: N,
                            ghost start: N, ghost universe: set<N>, ghost stamp: map<N, nat>, ghost clock: nat,
                            ghost fx: map<N, nat>)
    returns (r: Search<N>, ghost stamp': map<N, nat>, ghost clock': nat)
    requires Inv(fd, start, end, universe, s, stamp, clock)
    requires ClosedUnder(fd.neighbors, universe)
    requires current in s.closed && FrontierExcept(fd.neighbors, s, {current})
    requires ConsistentDuring(fd, start, end, s, fx, current, fd.neighbors(current))
    ensures r == RelaxAll(fd, s, current, end, fd.neighbors(current))
    ensures Inv(fd, start, end, universe, r, stamp', clock')
    ensures Consistent(fd, start, end, r, fx)
    ensures FrontierExcept(fd.neighbors, r, {})
    ensures r.closed == s.closed
    ensures Measure(r) <= Measure(s)
  {
    var ns := fd.neighbors(current);
    r, stamp', clock' := s, stamp, clock;
    for i := 0 to |ns|
      invariant r == RelaxAll(fd, s, current, end, ns[..i])
      invariant Inv(fd, start, end, universe, r, stamp', clock')
      invariant r.closed == s.closed && s.open <= r.open
      invariant forall n :: n in ns[..i] ==> n in r.open || n in r.closed
      invariant Measure(r) <= Measure(s)
      invariant ConsistentDuring(fd, start, end, r, fx, current, ns[i..])
    {
      var neighbor := ns[i];
      SliceStep(ns, i);
      RelaxConsistent(fd, start, end, universe, r, stamp', clock', fx, current, ns[i..]);
      RelaxPreservesInv(fd, start, end, universe, r, stamp', clock', current, neighbor);
      stamp', clock' := Restamp(fd, r, current, neighbor, stamp', clock'), clock' + 1;
      r := RelaxNeighbor(fd, r, current, end, neighbor);
    }
    SliceAll(ns);
    DoneConsistent(fd, start, end, r, fx, current);
  }

  /** Either a node is closed for the first time, or the closed set stays
      and the measure falls. */
  ghost predicate Progress<N>(universe: set<N>, s: Search<N>, r: Search<N>)
    requires s.closed <= s.gScore.Keys && r.closed <= r.gScore.Keys
  {
    || |universe - r.closed| < |universe - s.closed|
    || (r.closed == s.closed && Measure(r) < Measure(s))
  }

  /** One iteration past the checks: close `current` and relax each of its
      neighbours. */
  method Expand<N>(fd: Finder<N>, s: Search<N>, current: N, end: N,
                   ghost start: N, ghost universe: set<N>, ghost stamp: map<N, nat>, ghost clock: nat,
                   ghost fx: map<N, nat>)
    returns (r: Search<N>, ghost stamp': map<N, nat>, ghost clock': nat, ghost fx': map<N, nat>)
    requires Inv(fd, start, end, universe, s, stamp, clock) && FrontierExcept(fd.neighbors, s, {})
    requires Consistent(fd, start, end, s, fx)
    requires ClosedUnder(fd.neighbors, universe)
    requires current in s.open && current != end
    requires forall o :: o in s.open ==> s.fScore[current] <= s.fScore[o]
    ensures r == RelaxAll(fd, Pop(s, current), current, end, fd.neighbors(current))
    ensures Inv(fd, start, end, universe, r, stamp', clock') && FrontierExcept(fd.neighbors, r, {})
    ensures Consistent(fd, start, end, r, fx')
    ensures Progress(universe, s, r)
  {
    PopPreservesInv(fd, start, end, universe, s, stamp, clock, current);
    PopFrontier(fd.neighbors, s, current);
    PopConsistent(fd, start, end, universe, s, stamp, clock, fx, current);
    var popped := Pop(s, current);
    fx' := fx[current := s.fScore[current]];
    r, stamp', clock' := ExpandNeighbors(fd, popped, current, end, start, universe, stamp, clock, fx');
    ExpandProgress(universe, s, current, r);
  }

  lemma ExpandProgress<N>(universe: set<N>, s: Search<N>, current: N, r: Search<N>)
    requires s.closed <= s.gScore.Keys && current in s.open && current in s.gScore && current in universe
    requires r.closed <= r.gScore.Keys
    requires r.closed == Pop(s, current).closed && Measure(r) <= Measure(Pop(s, current))
    ensures Progress(universe, s, r)
  {
    PopMeasure(universe, s, current);
  }

  // ---------------------------------------------------------------------------
  // The search

  /** The path handed back on reaching the goal is a walk from the start to
      the goal whose cost the goal's g-score covers. */
  lemma FoundPathIsWalk<N>(fd: Finder<N>, start: N, end: N, universe: set<N>, s: Search<N>,
                           stamp: map<N, nat>, clock: nat)
    requires Inv(fd, start, end, universe, s, stamp, clock) && end in s.gScore
    ensures var path := ReconstructPath(s.cameFrom, end, s.gScore, stamp);
            && path[0] == start && path[|path| - 1] == end
            && IsWalk(fd.neighbors, path)
            && PathCost(fd.cost, path) <= s.gScore[end]
  {
    var path := ReconstructPath(s.cameFrom, end, s.gScore, stamp);
    ReconstructPathCost(fd.cost, s.cameFrom, end, s.gScore, stamp);
    forall i | 0 < i < |path| ensures path[i] in fd.neighbors(path[i - 1]) {
      assert path[i] in s.cameFrom;
    }
  }

  /** What reaching the goal hands back when it is taken as an f-minimum:
      its g-score, which is exactly the cost of the path of backlinks to it. */
  lemma FoundAnswer<N(!new)>(fd: Finder<N>, start: N, end: N, universe: set<N>,
                             s: Search<N>, stamp: map<N, nat>, clock: nat, fx: map<N, nat>)
    requires Inv(fd, start, end, universe, s, stamp, clock) && Consistent(fd, start, end, s, fx)
    requires end in s.open && forall o :: o in s.open ==> s.fScore[end] <= s.fScore[o]
    ensures var path := ReconstructPath(s.cameFrom, end, s.gScore, stamp);
            && |path| > 0 && path[0] == start && path[|path| - 1] == end
            && IsWalk(fd.neighbors, path)
            && PathCost(fd.cost, path) == s.gScore[end]
            && Reachable(fd.neighbors, start, end)
            && (start == end ==> s.gScore[end] == 0 && path == [start])
  {
    FoundPathIsWalk(fd, start, end, universe, s, stamp, clock);
    forall k: nat ensures !Stale(fd, s, Anc(s.cameFrom, end, k)) {
      OpenNotBelowStale(fd, s, fx, end, k);
    }
    TightPathCost(fd, s, end, stamp);
  }

  /** What leaving the loop without reaching the goal means: without a cost
      bound the open set ran empty, so the goal is unreachable; with the
      start as goal, only a negative bound stops the search. */
  lemma NotFoundAnswer<N(!new)>(fd: Finder<N>, start: N, end: N, maxCost: Option<int>, universe: set<N>,
                                s: Search<N>, stamp: map<N, nat>, clock: nat, current: N, exhausted: bool)
    requires Inv(fd, start, end, universe, s, stamp, clock) && FrontierExcept(fd.neighbors, s, {})
    requires exhausted ==> s.open == {}
    requires !exhausted ==> current in s.open && maxCost.Some? && s.gScore[current] > maxCost.value
    ensures maxCost.None? ==> !Reachable(fd.neighbors, start, end)
    ensures start == end ==> maxCost.Some? && maxCost.value < 0
  {
    if exhausted {
      UnreachableOutside(fd.neighbors, s.closed, start, end);
    }
  }

  /** The `while` loop of `func(start, end, max_cost)`, up to the point where
      it pops the goal (`found`) or stops: the open set ran empty, or the
      popped node `stopped` exceeds `maxCost`. */
  method SearchLoop<N(==, !new)>(fd: Finder<N>, start: N, end: N, maxCost: Option<int>, ghost universe: set<N>)
    returns (found: bool, s: Search<N>, ghost stopped: N, ghost stamp: map<N, nat>, ghost clock: nat, ghost fx: map<N, nat>)
    requires start in universe && ClosedUnder(fd.neighbors, universe)
    ensures Inv(fd, start, end, universe, s, stamp, clock) && FrontierExcept(fd.neighbors, s, {})
    ensures Consistent(fd, start, end, s, fx)
    ensures found ==> end in s.open && (forall o :: o in s.open ==> s.fScore[end] <= s.fScore[o])
                      && (maxCost.Some? ==> s.gScore[end] <= maxCost.value)
    ensures !found ==>
      || s.open == {}
      || (&& stopped in s.open && (forall o :: o in s.open ==> s.fScore[stopped] <= s.fScore[o])
          && maxCost.Some? && s.gScore[stopped] > maxCost.value)
  {
    s := Init(fd, start);
    stamp, clock, fx, stopped := map[], 1, map[], start;
    InitConsistent(fd, start, end, universe);
    while s.open != {}
      invariant Inv(fd, start, end, universe, s, stamp, clock)
      invariant FrontierExcept(fd.neighbors, s, {})
      invariant Consistent(fd, start, end, s, fx)
      decreases |universe - s.closed|, Measure(s)
    {
      var current := SelectMin(s.open, s.fScore);
      if maxCost.Some? && s.gScore[current] > maxCost.value {
        return false, s, current, stamp, clock, fx;
      }
      if current == end {
        return true, s, end, stamp, clock, fx;
      }
      s, stamp, clock, fx := Expand(fd, s, current, end, start, universe, stamp, clock, fx);
    }
    found := false;
  }

  /** `func(start, end, max_cost)`: the search of a pathfinder bound to
      `fd`. `universe` is a finite set of nodes that contains the start and
      is closed under `fd.neighbors`; it only bounds the loop. */
  method FindPath<N(==, !new)>(fd: Finder<N>, start: N, end: N, maxCost: Option<int>, ghost universe: set<N>)
    returns (cost: Option<nat>, path: seq<N>)
    requires start in universe && ClosedUnder(fd.neighbors, universe)
    ensures cost.None? ==> path == []
    ensures cost.Some? ==>
      && |path| > 0 && path[0] == start && path[|path| - 1] == end
      && IsWalk(fd.neighbors, path)
      && PathCost(fd.cost, path) == cost.value
    ensures cost.Some? && maxCost.Some? ==> cost.value <= maxCost.value
    ensures maxCost.None? ==> (cost.Some? <==> Reachable(fd.neighbors, start, end))
    ensures start == end && (maxCost.None? || 0 <= maxCost.value) ==> cost == Some(0) && path == [start]
  {
    var found, s, stopped, stamp, clock, fx := SearchLoop(fd, start, end, maxCost, universe);
    if found {
      FoundAnswer(fd, start, end, universe, s, stamp, clock, fx);
      cost, path := Some(s.gScore[end]), ReconstructPath(s.cameFrom, end, s.gScore, stamp);
    } else {
      NotFoundAnswer(fd, start, end, maxCost, universe, s, stamp, clock, stopped, s.open == {});
      cost, path := None, [];
    }
  }
}
