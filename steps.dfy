/**
  One search's state as a value, and what each step of the engine does to it:
  checkAdjacentNode, the four guarded checks made when a node is expanded, popping a
  node, moving to the next level, and the share of one calculate iteration a request gets.
*/
module Steps {
  import opened Wrappers
  import opened Grid
  import opened Nodes
  import opened Arena

  /** The offsets of the four orthogonal neighbours, in the order the search tries them: up, right, down, left. */
  const Around: seq<Point> := [Point(0, -1), Point(1, 0), Point(0, 1), Point(-1, 0)]

  /** The four orthogonal neighbours of p, in the order of Around. */
  function Neighbours(p: Point): (r: seq<Point>)
    ensures |r| == 4 && forall k :: 0 <= k < 4 ==> r[k] == Point(p.x + Around[k].x, p.y + Around[k].y)
    ensures forall k :: 0 <= k < 4 ==> Adjacent(p, r[k])
    ensures NoDup(r) && p !in r
  {
    [Point(p.x, p.y - 1), Point(p.x + 1, p.y), Point(p.x, p.y + 1), Point(p.x - 1, p.y)]
  }

  /** The edge test made before each of the four checks: whether the k-th neighbour of a cell of the grid is in the grid too. */
  function Inward(g: TileGrid, p: Point, k: nat): (b: bool)
    requires Rectangular(g) && InBounds(g, p) && k < 4
    ensures b <==> InBounds(g, Neighbours(p)[k])
  {
    if k == 0 then p.y > 0 else if k == 1 then p.x < Width(g) - 1 else if k == 2 then p.y < Height(g) - 1 else p.x > 0
  }

  /** Once the four checks around p have cached every admissible one of them, every admissible orthogonal neighbour of p is cached. */
  lemma CoveredNeighbours(hash: map<Point, nat>, g: TileGrid, tiles: seq<int>, avoid: set<Point>, p: Point)
    requires Covered(hash, g, tiles, avoid, Neighbours(p), 4)
    ensures forall q :: Adjacent(p, q) && Admissible(g, tiles, avoid, q) ==> q in hash
  {
    forall q | Adjacent(p, q) && Admissible(g, tiles, avoid, q) ensures q in hash {
      AdjacentCases(p, q);
      assert q in Neighbours(p);
    }
  }

  /** The fields of an instance the search updates: arena, cell-to-index table, current level, next level, trace. */
  datatype Snapshot = Snapshot(nodes: seq<Node>, hash: map<Point, nat>, open: seq<nat>, next: seq<nat>,
                               trace: seq<seq<Point>>)

  /** Both levels hold arena indices. */
  predicate Indexed(s: Snapshot) {
    && (forall k :: 0 <= k < |s.open| ==> s.open[k] < |s.nodes|)
    && (forall k :: 0 <= k < |s.next| ==> s.next[k] < |s.nodes|)
  }

  /** Every cached cell maps to a node on that cell. */
  predicate Consistent(s: Snapshot) {
    forall q :: q in s.hash ==> s.hash[q] < |s.nodes| && s.nodes[s.hash[q]].Pos() == q
  }

  /** A cached node reached from node `from` at total cost c: re-parented only when c is strictly cheaper. */
  function Relax(n: Node, c: int, from: nat): Node {
    if c < n.costSoFar then n.(costSoFar := c, parent := Some(from)) else n
  }

  /**
    checkAdjacentNode on an admissible cell q reached from node `from` at total cost c:
    an uncached q gets a new open node, pushed onto the next level and appended to the
    last trace level; a cached q is relaxed.
  */
  function AfterVisit(s: Snapshot, q: Point, from: nat, c: int, traced: bool): Snapshot {
    if q !in s.hash then
      s.(nodes := s.nodes + [Node(Some(from), q.x, q.y, c, Open)], hash := s.hash[q := |s.nodes|],
         next := s.next + [|s.nodes|], trace := if traced && |s.trace| >= 1 then PushLast(s.trace, [q]) else s.trace)
    else if s.hash[q] < |s.nodes| then
      s.(nodes := s.nodes[s.hash[q] := Relax(s.nodes[s.hash[q]], c, from)])
    else s
  }

  /** checkAdjacentNode: an avoided or unwalkable cell changes nothing. */
  function AfterCheck(s: Snapshot, q: Point, from: nat, c: int, traced: bool, admissible: bool): Snapshot {
    if admissible then AfterVisit(s, q, from, c, traced) else s
  }

  /**
    The k-th of the four checks made when node `from` (on cell p, at cost c0) is
    expanded: made only when the neighbour lies in the grid, entering it at the cost of its tile.
  */
  function AfterDirection(s: Snapshot, p: Point, from: nat, c0: int, k: nat,
                          g: TileGrid, tiles: seq<int>, costs: map<int, int>, avoid: set<Point>, traced: bool): Snapshot
    requires k < 4 && Rectangular(g) && CoversGrid(costs, g) && NonNegative(costs)
  {
    var q := Neighbours(p)[k];
    if InBounds(g, q) then AfterCheck(s, q, from, c0 + TileCost(costs, g, q), traced, q !in avoid && Walkable(g, tiles, q))
    else s
  }

  /** The first k of the four checks, in order. */
  function AfterDirections(s: Snapshot, p: Point, from: nat, c0: int, k: nat,
                           g: TileGrid, tiles: seq<int>, costs: map<int, int>, avoid: set<Point>, traced: bool): Snapshot
    requires k <= 4 && Rectangular(g) && CoversGrid(costs, g) && NonNegative(costs)
  {
    if k == 0 then s
    else AfterDirection(AfterDirections(s, p, from, c0, k - 1, g, tiles, costs, avoid, traced),
                        p, from, c0, k - 1, g, tiles, costs, avoid, traced)
  }

  /** Node `from` tagged CLOSED. */
  function Close(s: Snapshot, from: nat): Snapshot
    requires from < |s.nodes|
  {
    s.(nodes := s.nodes[from := s.nodes[from].(list := Closed)])
  }

  /** Closing node `from` and making the four checks around it. */
  function AfterExpand(s: Snapshot, from: nat, g: TileGrid, tiles: seq<int>, costs: map<int, int>,
                       avoid: set<Point>, traced: bool): Snapshot
    requires from < |s.nodes| && Rectangular(g) && CoversGrid(costs, g) && NonNegative(costs)
  {
    AfterDirections(Close(s, from), s.nodes[from].Pos(), from, s.nodes[from].costSoFar, 4, g, tiles, costs, avoid, traced)
  }

  /** The level the next node is popped from. */
  function Frontier(s: Snapshot): seq<nat> {
    if s.open == [] then s.next else s.open
  }

  /** A used-up current level is replaced by the next one; the typed engine opens an empty trace level. */
  function AfterPromote(s: Snapshot, traced: bool): Snapshot {
    if s.open == [] then s.(open := s.next, next := [], trace := if traced then s.trace + [[]] else s.trace)
    else s
  }

  /** Popping the last node of the current level: on the goal the search stops, otherwise the node is expanded. */
  function AfterAdvance(s: Snapshot, goal: Point, g: TileGrid, tiles: seq<int>, costs: map<int, int>,
                        avoid: set<Point>, traced: bool): Snapshot
    requires s.open != [] && s.open[|s.open| - 1] < |s.nodes|
    requires Rectangular(g) && CoversGrid(costs, g) && NonNegative(costs)
  {
    var t := s.open[|s.open| - 1];
    var s1 := s.(open := s.open[..|s.open| - 1]);
    if s.nodes[t].Pos() == goal then s1 else AfterExpand(s1, t, g, tiles, costs, avoid, traced)
  }

  /** A request's share of one calculate iteration: promote, then pop unless both levels are empty. */
  function AfterServe(s: Snapshot, goal: Point, g: TileGrid, tiles: seq<int>, costs: map<int, int>,
                      avoid: set<Point>, traced: bool): Snapshot
    requires Indexed(s) && Rectangular(g) && CoversGrid(costs, g) && NonNegative(costs)
  {
    var p := AfterPromote(s, traced);
    if p.open == [] then p else AfterAdvance(p, goal, g, tiles, costs, avoid, traced)
  }

  /** The iteration ends the request: both levels are empty, or the node it pops is on the goal. */
  predicate Finishes(s: Snapshot, goal: Point) {
    var f := Frontier(s);
    f == [] || (f[|f| - 1] < |s.nodes| && s.nodes[f[|f| - 1]].Pos() == goal)
  }

  /** The admissible cells among the first k neighbours of p that are not cached in `hash`, in the order they are checked. */
  ghost function Unseen(hash: map<Point, nat>, p: Point, k: nat, g: TileGrid, tiles: seq<int>, avoid: set<Point>): seq<Point>
    requires k <= 4
  {
    if k == 0 then []
    else
      var q := Neighbours(p)[k - 1];
      Unseen(hash, p, k - 1, g, tiles, avoid) + (if Admissible(g, tiles, avoid, q) && q !in hash then [q] else [])
  }

  /** The node opened for cell q, reached from node `from` on cell p at cost c0. */
  function Opened(q: Point, from: nat, c0: int, costs: map<int, int>, g: TileGrid): Node
    requires Rectangular(g) && InBounds(g, q) && CoversGrid(costs, g) && NonNegative(costs)
  {
    Node(Some(from), q.x, q.y, c0 + TileCost(costs, g, q), Open)
  }

  /** The nodes of cells u were appended after the first |s.nodes| ones, in order, each as Opened. */
  ghost predicate AppendedOf(s: Snapshot, r: Snapshot, u: seq<Point>, from: nat, c0: int, costs: map<int, int>, g: TileGrid)
    requires Rectangular(g) && CoversGrid(costs, g) && NonNegative(costs)
  {
    && |r.nodes| == |s.nodes| + |u|
    && (forall i :: 0 <= i < |u| ==> InBounds(g, u[i]) && r.nodes[|s.nodes| + i] == Opened(u[i], from, c0, costs, g))
    && r.open == s.open && r.next == s.next + Range(|s.nodes|, |r.nodes|)
  }

  /** The table gained exactly the cells u, mapped to their new nodes. */
  ghost predicate HashedOf(s: Snapshot, r: Snapshot, u: seq<Point>) {
    && (forall q :: q in r.hash <==> q in s.hash || q in u)
    && (forall q :: q in s.hash && q in r.hash ==> r.hash[q] == s.hash[q])
    && (forall i :: 0 <= i < |u| && u[i] in r.hash ==> r.hash[u[i]] == |s.nodes| + i)
  }

  /** The old nodes not on an admissible cell of `cells` are untouched; those on one are relaxed through node `from`. */
  ghost predicate RelaxedOf(s: Snapshot, r: Snapshot, cells: seq<Point>, from: nat, c0: int,
                            g: TileGrid, tiles: seq<int>, costs: map<int, int>, avoid: set<Point>)
    requires Rectangular(g) && CoversGrid(costs, g) && NonNegative(costs) && Consistent(s) && |r.nodes| >= |s.nodes|
  {
    && (forall i :: 0 <= i < |s.nodes| && (s.nodes[i].Pos() !in cells || !Admissible(g, tiles, avoid, s.nodes[i].Pos())) ==>
          r.nodes[i] == s.nodes[i])
    && (forall j :: 0 <= j < |cells| && Admissible(g, tiles, avoid, cells[j]) && cells[j] in s.hash ==>
          r.nodes[s.hash[cells[j]]] == Relax(s.nodes[s.hash[cells[j]]], c0 + TileCost(costs, g, cells[j]), from))
  }

  /** What the first k checks around cell p have done to snapshot s, yielding r. */
  ghost predicate DirectionsDone(s: Snapshot, r: Snapshot, p: Point, from: nat, c0: int, k: nat,
                                 g: TileGrid, tiles: seq<int>, costs: map<int, int>, avoid: set<Point>, traced: bool)
    requires k <= 4 && Rectangular(g) && CoversGrid(costs, g) && NonNegative(costs)
  {
    var u := Unseen(s.hash, p, k, g, tiles, avoid);
    && Consistent(s)
    && AppendedOf(s, r, u, from, c0, costs, g)
    && HashedOf(s, r, u)
    && r.trace == (if traced && |s.trace| >= 1 then PushLast(s.trace, u) else s.trace)
    && RelaxedOf(s, r, Neighbours(p)[..k], from, c0, g, tiles, costs, avoid)
  }

  /** The checks, one at a time: each opens, relaxes or leaves alone exactly the node of its own cell. */
  lemma {:induction false} DirectionsFacts(s: Snapshot, p: Point, from: nat, c0: int, k: nat,
                                           g: TileGrid, tiles: seq<int>, costs: map<int, int>, avoid: set<Point>, traced: bool)
    requires k <= 4 && Rectangular(g) && CoversGrid(costs, g) && NonNegative(costs) && Consistent(s)
    ensures DirectionsDone(s, AfterDirections(s, p, from, c0, k, g, tiles, costs, avoid, traced),
                           p, from, c0, k, g, tiles, costs, avoid, traced)
  {
    if k == 0 {
      assert Range(|s.nodes|, |s.nodes|) == [];
      if traced && |s.trace| >= 1 {
        PushLastNothing(s.trace);
      }
    } else {
      DirectionsFacts(s, p, from, c0, k - 1, g, tiles, costs, avoid, traced);
      DirectionStep(s, AfterDirections(s, p, from, c0, k - 1, g, tiles, costs, avoid, traced),
                    p, from, c0, k - 1, g, tiles, costs, avoid, traced);
    }
  }

  /** One more check keeps DirectionsDone. */
  lemma DirectionStep(s: Snapshot, r: Snapshot, p: Point, from: nat, c0: int, k: nat,
                      g: TileGrid, tiles: seq<int>, costs: map<int, int>, avoid: set<Point>, traced: bool)
    requires k < 4 && Rectangular(g) && CoversGrid(costs, g) && NonNegative(costs)
    requires DirectionsDone(s, r, p, from, c0, k, g, tiles, costs, avoid, traced)
    ensures DirectionsDone(s, AfterDirection(r, p, from, c0, k, g, tiles, costs, avoid, traced),
                           p, from, c0, k + 1, g, tiles, costs, avoid, traced)
  {
    var q := Neighbours(p)[k];
    var u := Unseen(s.hash, p, k, g, tiles, avoid);
    assert Neighbours(p)[..k + 1] == Neighbours(p)[..k] + [q];
    assert q !in Neighbours(p)[..k];
    assert forall i :: 0 <= i < |u| ==> u[i] in Neighbours(p)[..k] by {
      UnseenAmong(s.hash, p, k, g, tiles, avoid);
    }
    if !Admissible(g, tiles, avoid, q) {
      DirectionSkip(s, r, p, from, c0, k, g, tiles, costs, avoid, traced);
    } else if q !in s.hash {
      DirectionOpen(s, r, p, from, c0, k, g, tiles, costs, avoid, traced);
    } else {
      DirectionRelax(s, r, p, from, c0, k, g, tiles, costs, avoid, traced);
    }
  }

  /** A check on an inadmissible cell changes nothing. */
  lemma DirectionSkip(s: Snapshot, r: Snapshot, p: Point, from: nat, c0: int, k: nat,
                      g: TileGrid, tiles: seq<int>, costs: map<int, int>, avoid: set<Point>, traced: bool)
    requires k < 4 && Rectangular(g) && CoversGrid(costs, g) && NonNegative(costs)
    requires DirectionsDone(s, r, p, from, c0, k, g, tiles, costs, avoid, traced)
    requires Neighbours(p)[..k + 1] == Neighbours(p)[..k] + [Neighbours(p)[k]]
    requires !Admissible(g, tiles, avoid, Neighbours(p)[k])
    ensures DirectionsDone(s, AfterDirection(r, p, from, c0, k, g, tiles, costs, avoid, traced),
                           p, from, c0, k + 1, g, tiles, costs, avoid, traced)
  {
    assert Unseen(s.hash, p, k + 1, g, tiles, avoid) == Unseen(s.hash, p, k, g, tiles, avoid);
    assert AfterDirection(r, p, from, c0, k, g, tiles, costs, avoid, traced) == r;
  }

  /** A check on an admissible uncached cell appends its node to the arena, the next level and the trace. */
  lemma DirectionOpen(s: Snapshot, r: Snapshot, p: Point, from: nat, c0: int, k: nat,
                      g: TileGrid, tiles: seq<int>, costs: map<int, int>, avoid: set<Point>, traced: bool)
    requires k < 4 && Rectangular(g) && CoversGrid(costs, g) && NonNegative(costs)
    requires DirectionsDone(s, r, p, from, c0, k, g, tiles, costs, avoid, traced)
    requires Neighbours(p)[..k + 1] == Neighbours(p)[..k] + [Neighbours(p)[k]]
    requires Admissible(g, tiles, avoid, Neighbours(p)[k]) && Neighbours(p)[k] !in s.hash
    requires Neighbours(p)[k] !in Unseen(s.hash, p, k, g, tiles, avoid)
    ensures DirectionsDone(s, AfterDirection(r, p, from, c0, k, g, tiles, costs, avoid, traced),
                           p, from, c0, k + 1, g, tiles, costs, avoid, traced)
  {
    var q := Neighbours(p)[k];
    var u := Unseen(s.hash, p, k, g, tiles, avoid);
    var u' := u + [q];
    assert Unseen(s.hash, p, k + 1, g, tiles, avoid) == u';
    assert q !in r.hash;
    var r' := AfterDirection(r, p, from, c0, k, g, tiles, costs, avoid, traced);
    assert r' == AfterVisit(r, q, from, c0 + TileCost(costs, g, q), traced);
    assert r'.nodes == r.nodes + [Opened(q, from, c0, costs, g)];
    assert AppendedOf(s, r', u', from, c0, costs, g) by {
      assert Range(|s.nodes|, |r.nodes|) + [|r.nodes|] == Range(|s.nodes|, |r'.nodes|);
    }
    assert HashedOf(s, r', u');
    if traced && |s.trace| >= 1 {
      PushLastTwice(s.trace, u, [q]);
    }
    var cells := Neighbours(p)[..k];
    assert RelaxedOf(s, r', cells + [q], from, c0, g, tiles, costs, avoid) by {
      forall j | 0 <= j < k + 1 && Admissible(g, tiles, avoid, (cells + [q])[j]) && (cells + [q])[j] in s.hash
        ensures r'.nodes[s.hash[(cells + [q])[j]]] == Relax(s.nodes[s.hash[(cells + [q])[j]]], c0 + TileCost(costs, g, (cells + [q])[j]), from)
      {
        assert (cells + [q])[j] == cells[j];
      }
    }
  }

  /** A check on an admissible cached cell relaxes that cell's node and nothing else. */
  lemma DirectionRelax(s: Snapshot, r: Snapshot, p: Point, from: nat, c0: int, k: nat,
                       g: TileGrid, tiles: seq<int>, costs: map<int, int>, avoid: set<Point>, traced: bool)
    requires k < 4 && Rectangular(g) && CoversGrid(costs, g) && NonNegative(costs)
    requires DirectionsDone(s, r, p, from, c0, k, g, tiles, costs, avoid, traced)
    requires Neighbours(p)[..k + 1] == Neighbours(p)[..k] + [Neighbours(p)[k]]
    requires Admissible(g, tiles, avoid, Neighbours(p)[k]) && Neighbours(p)[k] in s.hash
    requires Neighbours(p)[k] !in Neighbours(p)[..k]
    ensures DirectionsDone(s, AfterDirection(r, p, from, c0, k, g, tiles, costs, avoid, traced),
                           p, from, c0, k + 1, g, tiles, costs, avoid, traced)
  {
    var q := Neighbours(p)[k];
    var u := Unseen(s.hash, p, k, g, tiles, avoid);
    assert Unseen(s.hash, p, k + 1, g, tiles, avoid) == u;
    var i := s.hash[q];
    assert r.hash[q] == i && s.nodes[i].Pos() == q;
    var cells := Neighbours(p)[..k];
    assert r.nodes[i] == s.nodes[i];
    var c := c0 + TileCost(costs, g, q);
    var r' := AfterDirection(r, p, from, c0, k, g, tiles, costs, avoid, traced);
    assert r' == AfterVisit(r, q, from, c, traced);
    assert r' == r.(nodes := r.nodes[i := Relax(s.nodes[i], c, from)]);
    assert AppendedOf(s, r', u, from, c0, costs, g);
    assert HashedOf(s, r', u);
    assert RelaxedOf(s, r', cells + [q], from, c0, g, tiles, costs, avoid) by {
      forall j | 0 <= j < k + 1 && Admissible(g, tiles, avoid, (cells + [q])[j]) && (cells + [q])[j] in s.hash
        ensures r'.nodes[s.hash[(cells + [q])[j]]] == Relax(s.nodes[s.hash[(cells + [q])[j]]], c0 + TileCost(costs, g, (cells + [q])[j]), from)
      {
        if j < k {
          assert (cells + [q])[j] == cells[j] != q;
          assert s.nodes[s.hash[cells[j]]].Pos() == cells[j];
        }
      }
    }
  }

  /** The cells Unseen lists are among the neighbours it looked at. */
  lemma UnseenAmong(hash: map<Point, nat>, p: Point, k: nat, g: TileGrid, tiles: seq<int>, avoid: set<Point>)
    requires k <= 4
    ensures forall i :: 0 <= i < |Unseen(hash, p, k, g, tiles, avoid)| ==>
      Unseen(hash, p, k, g, tiles, avoid)[i] in Neighbours(p)[..k]
  {
    if k > 0 {
      UnseenAmong(hash, p, k - 1, g, tiles, avoid);
      assert Neighbours(p)[..k] == Neighbours(p)[..k - 1] + [Neighbours(p)[k - 1]];
    }
  }

  /** Closing a node keeps every cell's node on that cell. */
  lemma CloseConsistent(s: Snapshot, from: nat)
    requires from < |s.nodes| && Consistent(s)
    ensures Consistent(Close(s, from))
  {
    var c := Close(s, from);
    forall q | q in c.hash ensures c.nodes[c.hash[q]].Pos() == q {
      assert s.nodes[s.hash[q]].Pos() == q;
    }
  }

  /**
    Expanding node `from` on cell p at cost c0 opens exactly the admissible uncached
    neighbours, in the order up, right, down, left, each as an open node whose parent is
    `from` and whose cost is c0 plus the cost of its tile; they are appended to the arena
    and to the next level in that order, and to the last trace level.
  */
  lemma ExpandOpens(s: Snapshot, from: nat, g: TileGrid, tiles: seq<int>, costs: map<int, int>,
                    avoid: set<Point>, traced: bool)
    requires from < |s.nodes| && Rectangular(g) && CoversGrid(costs, g) && NonNegative(costs) && Consistent(s)
    ensures var r := AfterExpand(s, from, g, tiles, costs, avoid, traced);
      var p, c0 := s.nodes[from].Pos(), s.nodes[from].costSoFar;
      var u := Unseen(s.hash, p, 4, g, tiles, avoid);
      && |r.nodes| == |s.nodes| + |u|
      && (forall i :: 0 <= i < |u| ==> InBounds(g, u[i]) && r.nodes[|s.nodes| + i] == Opened(u[i], from, c0, costs, g))
      && r.next == s.next + Range(|s.nodes|, |r.nodes|) && r.open == s.open
      && r.trace == (if traced && |s.trace| >= 1 then PushLast(s.trace, u) else s.trace)
      && (forall q :: q in r.hash <==> q in s.hash || q in u)
  {
    CloseConsistent(s, from);
    DirectionsFacts(Close(s, from), s.nodes[from].Pos(), from, s.nodes[from].costSoFar, 4, g, tiles, costs, avoid, traced);
  }

  /**
    Expanding node `from` closes it; a cached admissible neighbour takes `from` as
    parent and the cost through it exactly when that cost is strictly lower; every other
    cached node keeps its state.
  */
  lemma ExpandRelaxes(s: Snapshot, from: nat, g: TileGrid, tiles: seq<int>, costs: map<int, int>,
                      avoid: set<Point>, traced: bool)
    requires from < |s.nodes| && Rectangular(g) && CoversGrid(costs, g) && NonNegative(costs) && Consistent(s)
    ensures var r := AfterExpand(s, from, g, tiles, costs, avoid, traced);
      var p, c0 := s.nodes[from].Pos(), s.nodes[from].costSoFar;
      var cells := Neighbours(p);
      && |r.nodes| >= |s.nodes| && (forall q :: q in s.hash ==> q in r.hash && r.hash[q] == s.hash[q])
      && r.nodes[from] == s.nodes[from].(list := Closed)
      && (forall j :: 0 <= j < 4 && Admissible(g, tiles, avoid, cells[j]) && cells[j] in s.hash ==>
            r.nodes[s.hash[cells[j]]] == Relax(s.nodes[s.hash[cells[j]]], c0 + TileCost(costs, g, cells[j]), from))
      && (forall i :: 0 <= i < |s.nodes| && i != from && !(s.nodes[i].Pos() in cells && Admissible(g, tiles, avoid, s.nodes[i].Pos())) ==>
            r.nodes[i] == s.nodes[i])
  {
    var p := s.nodes[from].Pos();
    CloseConsistent(s, from);
    DirectionsFacts(Close(s, from), p, from, s.nodes[from].costSoFar, 4, g, tiles, costs, avoid, traced);
    assert Neighbours(p)[..4] == Neighbours(p);
    RelaxesAround(s, AfterExpand(s, from, g, tiles, costs, avoid, traced), from, g, tiles, costs, avoid);
  }

  /** The relaxations of the four checks, moved from the closed snapshot back to the one before closing. */
  lemma RelaxesAround(s: Snapshot, r: Snapshot, from: nat, g: TileGrid, tiles: seq<int>, costs: map<int, int>, avoid: set<Point>)
    requires from < |s.nodes| && Rectangular(g) && CoversGrid(costs, g) && NonNegative(costs) && Consistent(s)
    requires Consistent(Close(s, from)) && |r.nodes| >= |s.nodes|
    requires RelaxedOf(Close(s, from), r, Neighbours(s.nodes[from].Pos()), from, s.nodes[from].costSoFar, g, tiles, costs, avoid)
    ensures var p, c0 := s.nodes[from].Pos(), s.nodes[from].costSoFar;
      var cells := Neighbours(p);
      && r.nodes[from] == s.nodes[from].(list := Closed)
      && (forall j :: 0 <= j < 4 && Admissible(g, tiles, avoid, cells[j]) && cells[j] in s.hash ==>
            r.nodes[s.hash[cells[j]]] == Relax(s.nodes[s.hash[cells[j]]], c0 + TileCost(costs, g, cells[j]), from))
  {
    var p := s.nodes[from].Pos();
    forall j | 0 <= j < 4 && Admissible(g, tiles, avoid, Neighbours(p)[j]) && Neighbours(p)[j] in s.hash
      ensures r.nodes[s.hash[Neighbours(p)[j]]] == Relax(s.nodes[s.hash[Neighbours(p)[j]]], s.nodes[from].costSoFar + TileCost(costs, g, Neighbours(p)[j]), from)
    {
      var i := s.hash[Neighbours(p)[j]];
      assert s.nodes[i].Pos() == Neighbours(p)[j] != p;
      assert Close(s, from).nodes[i] == s.nodes[i];
    }
  }

  /** A neighbour check inside the grid, stated on the separate fields as checkAdjacentNode's effect, is AfterDirection. */
  lemma CheckedDirection(n0: seq<Node>, h0: map<Point, nat>, nl0: seq<nat>, cl0: seq<seq<Point>>,
                         n1: seq<Node>, h1: map<Point, nat>, nl1: seq<nat>, cl1: seq<seq<Point>>, ol: seq<nat>,
                         p: Point, from: nat, c0: int, k: nat,
                         g: TileGrid, tiles: seq<int>, costs: map<int, int>, avoid: set<Point>, traced: bool)
    requires k < 4 && Rectangular(g) && CoversGrid(costs, g) && NonNegative(costs) && InBounds(g, Neighbours(p)[k])
    requires var q := Neighbours(p)[k];
      Checked(n0, h0, nl0, cl0, n1, h1, nl1, cl1, q, from, c0 + TileCost(costs, g, q), traced, q !in avoid && Walkable(g, tiles, q))
    ensures Snapshot(n1, h1, ol, nl1, cl1) ==
      AfterDirection(Snapshot(n0, h0, ol, nl0, cl0), p, from, c0, k, g, tiles, costs, avoid, traced)
  {
  }
}
