/**
  One in-flight path request: its node cache (an arena of nodes plus a cell-to-index
  table), the current and next BFS frontier, the level-by-level trace, and the
  per-request operations of the engine that touch only this request's state.
*/
module Search {
  import opened Wrappers
  import opened Grid
  import opened Nodes
  import opened Arena
  import opened Steps

  class Instance {
    /** True for the typed engine, which records the trace; the older engine leaves `checkedLevels` unset. */
    const traced: bool
    /** Never filled in by either engine: no operation adds a point to avoid. */
    const pointsToAvoid: set<Point>
    const start: Point
    const goal: Point
    /** Set to false when the request is created and never read. */
    const isDoneCalculating: bool
    var nodeHash: map<Point, nat>
    var nodes: seq<Node>
    var openList: seq<nat>
    var nextLevel: seq<nat>
    var checkedLevels: seq<seq<Point>>
    /** When each node last got its parent, used only to rank nodes of equal cost. */
    ghost var stamps: seq<nat>
    ghost var clock: nat

    /** The fields the search updates, as one value. */
    ghost function Snap(): Snapshot
      reads this
    {
      Snapshot(nodes, nodeHash, openList, nextLevel, checkedLevels)
    }

    ghost predicate Cache()
      reads this
    {
      CacheOf(nodes, stamps, clock, nodeHash)
    }

    /** The cache, the frontiers and the trace agree, and the start node is node 0. */
    ghost predicate Shape()
      reads this
    {
      && Cache()
      && |nodes| >= 1 && nodes[0].Pos() == start && start != goal
      && FrontierOf(openList, nextLevel, |nodes|)
      && TraceOf(traced, checkedLevels, nodes, start)
    }

    ghost predicate Inside(w: int, h: int)
      reads this
    {
      InsideOf(nodes, w, h)
    }

    /** Only the start node is ever untagged, and only while it is the whole frontier. */
    ghost predicate StartPending()
      reads this
    {
      forall i :: 0 <= i < |nodes| && nodes[i].list == Unvisited ==> i == 0 && openList == [0] && nextLevel == []
    }

    ghost predicate AllTagged()
      reads this
    {
      TaggedOf(nodes)
    }

    ghost predicate Valid(w: int, h: int)
      reads this
    {
      Shape() && Inside(w, h) && StartPending()
    }

    /** Every cached cell other than the start is in the grid, walkable and not avoided under the given configuration. */
    ghost predicate OnWalkable(g: TileGrid, tiles: seq<int>)
      reads this
    {
      AdmittedOf(nodes, 1, g, tiles, pointsToAvoid)
    }

    /** The state findPath leaves a new request from s to e in. */
    ghost predicate Initial(s: Point, e: Point)
      reads this
    {
      && start == s && goal == e && pointsToAvoid == {} && !isDoneCalculating
      && nodes == [NewNode(None, s.x, s.y, 0)] && nodeHash == map[s := 0]
      && openList == [0] && nextLevel == []
      && checkedLevels == (if traced then [[s], []] else [])
    }

    /**
      A new request from s to e, set up as findPath does: nothing avoided, not done, empty
      frontiers, in the typed engine a trace holding the start cell and one empty level,
      and the start node, cached with no parent at cost 0, as the whole current frontier.
    */
    constructor(traced: bool, s: Point, e: Point, ghost w: int, ghost h: int)
      requires s != e && Within(s, w, h)
      ensures Valid(w, h) && this.traced == traced && Initial(s, e)
    {
      this.traced := traced;
      pointsToAvoid := {};
      start, goal := s, e;
      isDoneCalculating := false;
      openList, nextLevel := [], [];
      checkedLevels := if traced then [[s], []] else [];
      nodeHash, nodes := map[], [];
      stamps, clock := [], 0;
      new;
      var idx := CoordinateToNode(s, None, 0);
      openList := openList + [idx];
      assert FrontierOf(openList, nextLevel, |nodes|) by {
        assert openList + nextLevel == [0];
      }
      assert TraceOf(traced, checkedLevels, nodes, start) by {
        if traced {
          assert Flatten([[s], []]) == Flatten([[s]]) + [];
          assert Flatten([[s]]) == Flatten([]) + [s];
          assert Positions(nodes) == [s];
        }
      }
    }

    /**
      coordinateToNode: the cached node of cell p, or a new node for p, cached and
      costing the parent's cost plus `cost` (0 when there is no parent).
    */
    method CoordinateToNode(p: Point, parent: Option<nat>, cost: int) returns (idx: nat)
      requires Cache()
      requires parent.None? ==> nodes == []
      requires parent.Some? ==> parent.value < |nodes| && Adjacent(nodes[parent.value].Pos(), p) && cost >= 0
      modifies this`nodes, this`nodeHash, this`stamps, this`clock
      ensures Cache()
      ensures idx < |nodes| && nodes[idx].Pos() == p
      ensures p in old(nodeHash) ==>
        idx == old(nodeHash[p]) && nodes == old(nodes) && nodeHash == old(nodeHash)
        && stamps == old(stamps) && clock == old(clock)
      ensures p !in old(nodeHash) ==>
        && idx == |old(nodes)|
        && nodes == old(nodes) + [NewNode(parent, p.x, p.y, if parent.None? then 0 else old(nodes[parent.value].costSoFar) + cost)]
        && nodeHash == old(nodeHash)[p := idx]
    {
      if p in nodeHash {
        return nodeHash[p];
      }
      var costSoFar := 0;
      if parent.Some? {
        costSoFar := nodes[parent.value].costSoFar + cost;
      }
      idx := |nodes|;
      CacheAppend(nodes, stamps, clock, nodeHash, NewNode(parent, p.x, p.y, costSoFar));
      nodes := nodes + [NewNode(parent, p.x, p.y, costSoFar)];
      nodeHash := nodeHash[p := idx];
      stamps := stamps + [clock];
      clock := clock + 1;
    }

    /**
      checkAdjacentNode for the neighbour of node `from` at offset (dx, dy): an avoided or
      unwalkable cell changes nothing; an uncached cell gets a new OPEN node, pushed once onto
      the next frontier and recorded in the last trace level; a cached cell only gets the lower
      cost and `from` as parent when going through `from` is strictly cheaper.
    */
    method CheckAdjacentNode(g: TileGrid, tiles: seq<int>, from: nat, dx: int, dy: int, cost: int)
      requires Rectangular(g) && Shape() && Inside(Width(g), Height(g)) && AllTagged()
      requires from < |nodes| && Adjacent(nodes[from].Pos(), Point(nodes[from].x + dx, nodes[from].y + dy))
      requires InBounds(g, Point(nodes[from].x + dx, nodes[from].y + dy))
      requires cost >= 0
      modifies this`nodes, this`nodeHash, this`stamps, this`clock, this`nextLevel, this`checkedLevels
      ensures Shape() && Inside(Width(g), Height(g)) && AllTagged()
      ensures var q := Point(old(nodes[from].x) + dx, old(nodes[from].y) + dy);
        Checked(old(nodes), old(nodeHash), old(nextLevel), old(checkedLevels), nodes, nodeHash, nextLevel, checkedLevels,
                q, from, old(nodes[from].costSoFar) + cost, traced, q !in pointsToAvoid && Walkable(g, tiles, q))
    {
      ghost var n0, h0, nl0, cl0 := nodes, nodeHash, nextLevel, checkedLevels;
      ghost var c := nodes[from].costSoFar + cost;
      var q := Point(nodes[from].x + dx, nodes[from].y + dy);
      var admissible := false;
      if q !in pointsToAvoid {
        admissible := IsTileWalkable(g, tiles, q);
      }
      assert admissible == (q !in pointsToAvoid && Walkable(g, tiles, q));
      if admissible {
        Visit(q, from, cost, Width(g), Height(g));
        assert Checked(n0, h0, nl0, cl0, nodes, nodeHash, nextLevel, checkedLevels, q, from, c, traced, true);
      } else {
        GrewRefl(n0, nl0, cl0, from, traced);
        assert Checked(n0, h0, nl0, cl0, nodes, nodeHash, nextLevel, checkedLevels, q, from, c, traced, false);
      }
    }

    /**
      The admissible case of checkAdjacentNode: q's node is fetched from the cache or made;
      a new node is opened, a cached one takes `from` as parent when that is strictly cheaper.
    */
    method Visit(q: Point, from: nat, cost: int, ghost w: int, ghost h: int)
      requires Shape() && Inside(w, h) && AllTagged()
      requires from < |nodes| && Adjacent(nodes[from].Pos(), q) && Within(q, w, h) && cost >= 0
      modifies this`nodes, this`nodeHash, this`stamps, this`clock, this`nextLevel, this`checkedLevels
      ensures Shape() && Inside(w, h) && AllTagged()
      ensures Grew(old(nodes), old(nextLevel), old(checkedLevels), nodes, nextLevel, checkedLevels, from, traced)
      ensures Visited(old(nodes), old(nodeHash), old(nextLevel), old(checkedLevels),
                      nodes, nodeHash, nextLevel, checkedLevels, q, from, old(nodes[from].costSoFar) + cost, traced)
    {
      ghost var n0, nl0, cl0 := nodes, nextLevel, checkedLevels;
      var idx := CoordinateToNode(q, Some(from), cost);
      if nodes[idx].list == Unvisited {
        OpenNode(idx, q, from, n0, w, h);
      } else if nodes[from].costSoFar + cost < nodes[idx].costSoFar {
        Reparent(idx, from, nodes[from].costSoFar + cost, w, h);
      } else {
        GrewRefl(n0, nl0, cl0, from, traced);
      }
    }

    /** The first branch of checkAdjacentNode: the node just cached for q is tagged OPEN, pushed and traced. */
    method OpenNode(idx: nat, q: Point, from: nat, ghost n0: seq<Node>, ghost w: int, ghost h: int)
      requires Cache() && idx == |n0| && from < idx && |nodes| == idx + 1
      requires nodes == n0 + [Node(Some(from), q.x, q.y, nodes[idx].costSoFar, Unvisited)]
      requires Adjacent(n0[from].Pos(), q) && Within(q, w, h)
      requires |n0| >= 1 && n0[0].Pos() == start && start != goal
      requires FrontierOf(openList, nextLevel, idx) && TraceOf(traced, checkedLevels, n0, start)
      requires InsideOf(n0, w, h) && TaggedOf(n0)
      modifies this`nodes, this`nextLevel, this`checkedLevels
      ensures Shape() && Inside(w, h) && AllTagged()
      ensures nodes == n0 + [old(nodes[idx]).(list := Open)]
      ensures nextLevel == old(nextLevel) + [idx]
      ensures checkedLevels == if traced then PushLast(old(checkedLevels), [q]) else old(checkedLevels)
      ensures Grew(n0, old(nextLevel), old(checkedLevels), nodes, nextLevel, checkedLevels, from, traced)
    {
      var n := nodes[idx].(list := Open);
      CacheTag(nodes, stamps, clock, nodeHash, idx, Open);
      FrontierPush(openList, nextLevel, idx);
      TracePush(traced, checkedLevels, n0, start, n);
      InsideAppend(n0, w, h, n);
      GrewOpen(n0, nextLevel, checkedLevels, from, traced, n);
      assert nodes[idx := n] == n0 + [n];
      nodes := nodes[idx := n];
      nextLevel := nextLevel + [idx];
      if traced {
        checkedLevels := PushLast(checkedLevels, [q]);
      }
    }

    /** The second branch of checkAdjacentNode: cached node idx gets cost c and parent `from`. */
    method Reparent(idx: nat, from: nat, c: int, ghost w: int, ghost h: int)
      requires Shape() && Inside(w, h) && AllTagged()
      requires idx < |nodes| && from < |nodes| && Adjacent(nodes[from].Pos(), nodes[idx].Pos())
      requires nodes[from].costSoFar <= c < nodes[idx].costSoFar
      modifies this`nodes, this`stamps, this`clock
      ensures Shape() && Inside(w, h) && AllTagged()
      ensures nodes == old(nodes)[idx := old(nodes[idx]).(costSoFar := c, parent := Some(from))]
      ensures Grew(old(nodes), nextLevel, checkedLevels, nodes, nextLevel, checkedLevels, from, traced)
    {
      var n1 := nodes[idx := nodes[idx].(costSoFar := c, parent := Some(from))];
      CacheRelax(nodes, stamps, clock, nodeHash, idx, from, c);
      SamePositions(nodes, n1, w, h, traced, checkedLevels, start);
      GrewRelax(nodes, nextLevel, checkedLevels, from, traced, idx, c);
      assert TaggedOf(n1) by {
        assert forall i :: 0 <= i < |n1| ==> n1[i].list == nodes[i].list;
      }
      nodes := n1;
      stamps := stamps[idx := clock];
      clock := clock + 1;
    }

    /**
      Moving to the next BFS level once the current frontier is used up; the typed engine
      also opens a new, empty trace level.
    */
    method Promote(ghost w: int, ghost h: int)
      requires Valid(w, h)
      modifies this`openList, this`nextLevel, this`checkedLevels
      ensures Valid(w, h)
      ensures Snap() == AfterPromote(old(Snap()), traced)
    {
      if openList == [] {
        assert [] + nextLevel == nextLevel + [];
        openList := nextLevel;
        nextLevel := [];
        if traced {
          TraceNewLevel(traced, checkedLevels, nodes, start);
          checkedLevels := checkedLevels + [[]];
        }
      }
    }

    /**
      Closing node `from` and examining its four orthogonal neighbours in the order of
      `Around` (up, right, down, left), each only when it lies inside the grid, entering it
      at the cost of its tile. The four guarded calls are written as one loop over `Around`.
      Afterwards every admissible neighbour of `from` is cached.
    */
    method Expand(g: TileGrid, tiles: seq<int>, costs: map<int, int>, from: nat)
      requires Rectangular(g) && CoversGrid(costs, g) && NonNegative(costs)
      requires Shape() && Inside(Width(g), Height(g)) && from < |nodes|
      requires TaggedOf(nodes[from := nodes[from].(list := Closed)])
      modifies this`nodes, this`nodeHash, this`stamps, this`clock, this`nextLevel, this`checkedLevels
      ensures Shape() && Inside(Width(g), Height(g)) && AllTagged()
      ensures Snap() == AfterExpand(old(Snap()), from, g, tiles, costs, pointsToAvoid, traced)
      ensures Grew(old(nodes)[from := old(nodes[from]).(list := Closed)], old(nextLevel), old(checkedLevels),
                   nodes, nextLevel, checkedLevels, from, traced)
      ensures AdmittedOf(nodes, |old(nodes)|, g, tiles, pointsToAvoid)
      ensures forall q :: Adjacent(nodes[from].Pos(), q) && Admissible(g, tiles, pointsToAvoid, q) ==> q in nodeHash
    {
      var closed := nodes[from := nodes[from].(list := Closed)];
      CacheTag(nodes, stamps, clock, nodeHash, from, Closed);
      SamePositions(nodes, closed, Width(g), Height(g), traced, checkedLevels, start);
      nodes := closed;
      ghost var n0, nl0, cl0 := nodes, nextLevel, checkedLevels;
      ghost var s0 := Snap();
      GrewRefl(n0, nl0, cl0, from, traced);
      var p := nodes[from].Pos();
      ghost var c0 := nodes[from].costSoFar;
      assert InBounds(g, p);
      for k := 0 to 4
        invariant Shape() && Inside(Width(g), Height(g)) && AllTagged()
        invariant Grew(n0, nl0, cl0, nodes, nextLevel, checkedLevels, from, traced)
        invariant AdmittedOf(nodes, |n0|, g, tiles, pointsToAvoid)
        invariant nodes[from] == n0[from]
        invariant Covered(nodeHash, g, tiles, pointsToAvoid, Neighbours(p), k)
        invariant Snap() == AfterDirections(s0, p, from, c0, k, g, tiles, costs, pointsToAvoid, traced)
      {
        ghost var before := Snap();
        TryDirection(g, tiles, costs, from, k, Inward(g, p, k), n0, nl0, cl0, p, c0);
        assert Snap() == AfterDirection(before, p, from, c0, k, g, tiles, costs, pointsToAvoid, traced);
      }
      CoveredNeighbours(nodeHash, g, tiles, pointsToAvoid, p);
    }

    /**
      The k-th of Expand's four neighbour checks, made only when `inside` (the neighbour
      lies in the grid) and entering the neighbour at the cost of its tile; the growth since
      the node was closed (arena n0) accumulates, and the neighbours checked so far stay cached.
    */
    method TryDirection(g: TileGrid, tiles: seq<int>, costs: map<int, int>, from: nat, k: nat, inside: bool,
                        ghost n0: seq<Node>, ghost nl0: seq<nat>, ghost cl0: seq<seq<Point>>, ghost p: Point, ghost c0: int)
      requires Rectangular(g) && CoversGrid(costs, g) && NonNegative(costs) && k < 4
      requires Shape() && Inside(Width(g), Height(g)) && AllTagged()
      requires Grew(n0, nl0, cl0, nodes, nextLevel, checkedLevels, from, traced)
      requires AdmittedOf(nodes, |n0|, g, tiles, pointsToAvoid)
      requires from < |nodes| && nodes[from].Pos() == p && nodes[from].costSoFar == c0
      requires inside <==> InBounds(g, Neighbours(p)[k])
      requires Covered(nodeHash, g, tiles, pointsToAvoid, Neighbours(p), k)
      modifies this`nodes, this`nodeHash, this`stamps, this`clock, this`nextLevel, this`checkedLevels
      ensures Shape() && Inside(Width(g), Height(g)) && AllTagged()
      ensures Grew(n0, nl0, cl0, nodes, nextLevel, checkedLevels, from, traced)
      ensures AdmittedOf(nodes, |n0|, g, tiles, pointsToAvoid)
      ensures nodes[from] == old(nodes[from])
      ensures Covered(nodeHash, g, tiles, pointsToAvoid, Neighbours(p), k + 1)
      ensures Snap() == AfterDirection(old(Snap()), p, from, c0, k, g, tiles, costs, pointsToAvoid, traced)
    {
      ghost var n1, h1, nl1, cl1 := nodes, nodeHash, nextLevel, checkedLevels;
      ghost var q := Neighbours(p)[k];
      if inside {
        var c := TileCost(costs, g, Point(nodes[from].x + Around[k].x, nodes[from].y + Around[k].y));
        assert c == TileCost(costs, g, q);
        CheckAdjacentNode(g, tiles, from, Around[k].x, Around[k].y, c);
        CheckedStep(n0, nl0, cl0, n1, h1, nl1, cl1, nodes, nodeHash, nextLevel, checkedLevels,
                    q, from, c0 + c, traced, g, tiles, pointsToAvoid);
        CheckedDirection(n1, h1, nl1, cl1, nodes, nodeHash, nextLevel, checkedLevels, openList,
                         p, from, c0, k, g, tiles, costs, pointsToAvoid, traced);
      }
      CoveredMore(old(nodeHash), nodeHash, g, tiles, pointsToAvoid, Neighbours(p), k);
    }

    /**
      One step of calculate for this request, once its frontier is not used up: pops the
      last node of the current frontier; when that node is on the goal cell, the path from
      the start to it (the search is then over), otherwise the node is closed and its
      neighbours examined.
    */
    method Advance(g: TileGrid, tiles: seq<int>, costs: map<int, int>) returns (found: Option<seq<Point>>)
      requires Rectangular(g) && CoversGrid(costs, g) && NonNegative(costs)
      requires Valid(Width(g), Height(g)) && openList != []
      modifies this`nodes, this`nodeHash, this`stamps, this`clock, this`openList, this`nextLevel, this`checkedLevels
      ensures Valid(Width(g), Height(g))
      ensures Snap() == AfterAdvance(old(Snap()), goal, g, tiles, costs, pointsToAvoid, traced)
      ensures found.Some? <==> old(nodes[openList[|openList| - 1]].Pos()) == goal
      ensures found.Some? ==>
        && nodes == old(nodes) && nodeHash == old(nodeHash) && nextLevel == old(nextLevel)
        && checkedLevels == old(checkedLevels)
        && found.value == PathTo(nodes, stamps, old(openList[|openList| - 1]))
      ensures found.Some? ==>
        && Route(found.value, start, goal) && |found.value| - 1 >= Distance(start, goal)
        && (OnWalkable(g, tiles) ==> Entered(found.value, g, tiles, pointsToAvoid))
      ensures found.None? ==> var t := old(openList[|openList| - 1]);
        && Grew(old(nodes)[t := old(nodes[t]).(list := Closed)], old(nextLevel), old(checkedLevels),
                nodes, nextLevel, checkedLevels, t, traced)
        && (forall q :: Adjacent(nodes[t].Pos(), q) && Admissible(g, tiles, pointsToAvoid, q) ==> q in nodeHash)
      ensures old(OnWalkable(g, tiles)) ==> OnWalkable(g, tiles)
    {
      var t := openList[|openList| - 1];
      FrontierPop(openList, nextLevel, |nodes|);
      openList := openList[..|openList| - 1];
      if nodes[t].Pos() == goal {
        var path := GoalPath(t, g, tiles);
        found := Some(path);
        assert t != 0;
        return;
      }
      ghost var closed := nodes[t := nodes[t].(list := Closed)];
      ghost var admitted := OnWalkable(g, tiles);
      if admitted {
        AdmittedTag(nodes, 1, t, Closed, g, tiles, pointsToAvoid);
      }
      Expand(g, tiles, costs, t);
      if admitted {
        AdmittedGrew(closed, nodes, 1, t, g, tiles, pointsToAvoid);
      }
      found := None;
    }

    /**
      The path reported on reaching the goal at node t: it runs from the start to the goal
      through orthogonal steps, never repeats a cell (so it is no shorter than the Manhattan
      distance), and enters only admissible cells when every cached cell but the start is.
    */
    method GoalPath(t: nat, ghost g: TileGrid, ghost tiles: seq<int>) returns (path: seq<Point>)
      requires Shape() && t < |nodes| && nodes[t].Pos() == goal
      ensures path == PathTo(nodes, stamps, t)
      ensures Route(path, start, goal) && |path| - 1 >= Distance(start, goal)
      ensures OnWalkable(g, tiles) ==> Entered(path, g, tiles, pointsToAvoid)
    {
      path := TracePath(t);
      PathFacts(nodes, stamps, clock, nodeHash, t);
      if OnWalkable(g, tiles) {
        PathAdmitted(nodes, stamps, t, g, tiles, pointsToAvoid);
      }
    }

    /**
      The path to node t: its cell, then its ancestors' cells up to the root, reversed;
      PathFacts and PathAdmitted say what that path is.
    */
    method TracePath(t: nat) returns (path: seq<Point>)
      requires Cache() && t < |nodes|
      ensures path == PathTo(nodes, stamps, t)
    {
      ghost var a := Ancestry(nodes, stamps, t);
      ghost var m := |a|;
      var cur: nat := t;
      var rev := [nodes[t].Pos()];
      while nodes[cur].parent.Some?
        invariant cur < |nodes| && 1 <= m <= |a| && Ancestry(nodes, stamps, cur) == a[..m]
        invariant |rev| == |a| - m + 1
        invariant forall k :: 0 <= k < |rev| ==> rev[k] == nodes[a[|a| - 1 - k]].Pos()
        decreases nodes[cur].costSoFar, stamps[cur]
      {
        var j := nodes[cur].parent.value;
        assert j < |nodes| && 2 <= m && Ancestry(nodes, stamps, j) == a[..m - 1] && a[m - 1] == cur
          && Precedes(nodes, stamps, j, cur) by {
          assert LinkOk(nodes, stamps, cur);
          assert Ancestry(nodes, stamps, cur) == Ancestry(nodes, stamps, j) + [cur];
          assert a[..m - 1] == a[..m][..m - 1];
        }
        cur, m := j, m - 1;
        rev := rev + [nodes[cur].Pos()];
      }
      path := Reversed(rev);
    }
  }
}
