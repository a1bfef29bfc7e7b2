/**
  What both engines check of a path request before they accept it, and what
  they promise of a path they report.
*/
module Requests {
  import opened Wrappers
  import opened Grid
  import opened Arena
  import opened Search
  import opened Steps

  /** The errors findPath throws, in the order it checks for them. */
  datatype RequestError =
    | TilesNotSet   // setAcceptableTiles was never called
    | GridNotSet    // setGrid was never called
    | OutOfScope    // a coordinate lies outside [0, width-1] x [0, height-1]
    | NoRows        // the grid has no row 0 to read the width from

  /**
    findPath's checks: walkable tiles set, grid set, then the four coordinates. The
    negative-coordinate tests come first in the source's condition, so they are decided
    before it reads the width from row 0, which an empty grid does not have.
  */
  function CheckRequest(grid: Option<TileGrid>, tiles: Option<seq<int>>, s: Point, e: Point): (r: Option<RequestError>)
    ensures r.None? <==> tiles.Some? && grid.Some? && InBounds(grid.value, s) && InBounds(grid.value, e)
    ensures r == Some(TilesNotSet) <==> tiles.None?
    ensures r == Some(GridNotSet) <==> tiles.Some? && grid.None?
    ensures r == Some(NoRows) <==>
      tiles.Some? && grid.Some? && |grid.value| == 0 && s.x >= 0 && s.y >= 0 && e.x >= 0 && e.y >= 0
    ensures r == Some(OutOfScope) <==>
      && tiles.Some? && grid.Some? && !(InBounds(grid.value, s) && InBounds(grid.value, e))
      && !(|grid.value| == 0 && s.x >= 0 && s.y >= 0 && e.x >= 0 && e.y >= 0)
  {
    if tiles.None? then Some(TilesNotSet)
    else if grid.None? then Some(GridNotSet)
    else if s.x < 0 || s.y < 0 || e.x < 0 || e.y < 0 then Some(OutOfScope)
    else if |grid.value| == 0 then Some(NoRows)
    else if s.x > |grid.value[0]| - 1 || s.y > |grid.value| - 1
         || e.x > |grid.value[0]| - 1 || e.y > |grid.value| - 1 then Some(OutOfScope)
    else None
  }

  /** What findPath did with a request. */
  datatype Admission =
    | Rejected(error: RequestError)  // thrown; nothing changed
    | Answered                       // the callback got its answer at once; no id
    | Queued(id: nat)                // a new instance under this id, queued last

  // ----- the engine's bookkeeping, shared by both engines -----

  /** Costs are never negative, and once there is a grid every tile type in it has a cost. */
  ghost predicate ConfigOf(costMap: map<int, int>, grid: Option<TileGrid>) {
    && NonNegative(costMap)
    && (grid.Some? ==> Rectangular(grid.value) && CoversGrid(costMap, grid.value))
  }

  /** One callback invocation: the request's id (None when answered before an instance was made) and the answer (None stands for null). */
  datatype Delivery<A> = Delivery(id: Option<nat>, answer: Option<A>)

  /**
    Ids are handed out from 1 upwards and never reused: every issued id (a key of
    `requests`, which keeps each request's start and goal) is below `nextId`; the queue
    holds issued ids, each once, and every live id is queued.
  */
  ghost predicate IdsOf(nextId: nat, requests: map<nat, (Point, Point)>, live: set<nat>, stable: set<nat>, queue: seq<nat>) {
    && nextId >= 1
    && (forall id :: id in requests ==> 1 <= id < nextId)
    && live <= requests.Keys
    && stable <= live
    && (forall k :: 0 <= k < |queue| ==> queue[k] in requests)
    && NoDup(queue)
    && (forall id :: id in live ==> id in queue)
  }

  /**
    Every delivery carrying an id belongs to an issued request that is neither live nor
    queued any more, and no request is answered twice.
  */
  ghost predicate SettledOf<A>(delivered: seq<Delivery<A>>, requests: map<nat, (Point, Point)>, live: set<nat>, queue: seq<nat>) {
    && (forall k :: 0 <= k < |delivered| && delivered[k].id.Some? ==>
          delivered[k].id.value in requests && delivered[k].id.value !in live && delivered[k].id.value !in queue)
    && (forall i, j :: 0 <= i < j < |delivered| && delivered[i].id.Some? ==> delivered[i].id != delivered[j].id)
  }

  /** Registering the next id keeps the ids well kept. */
  lemma IdsRegister(nextId: nat, requests: map<nat, (Point, Point)>, live: set<nat>, stable: set<nat>, queue: seq<nat>,
                    se: (Point, Point))
    requires IdsOf(nextId, requests, live, stable, queue)
    ensures nextId !in requests && nextId !in live && nextId !in queue
    ensures IdsOf(nextId + 1, requests[nextId := se], live + {nextId}, stable + {nextId}, queue + [nextId])
  {
    var q := queue + [nextId];
    assert nextId !in queue by {
      forall k | 0 <= k < |queue| ensures queue[k] != nextId {
        assert queue[k] in requests;
      }
    }
    forall i, j | 0 <= i < j < |q| ensures q[i] != q[j] {
      if j == |queue| {
        assert q[i] == queue[i];
      }
    }
    forall id | id in live + {nextId} ensures id in q {
      if id in live {
        var k :| 0 <= k < |queue| && queue[k] == id;
        assert q[k] == id;
      } else {
        assert q[|queue|] == id;
      }
    }
  }

  lemma SettledRegister<A>(delivered: seq<Delivery<A>>, requests: map<nat, (Point, Point)>, live: set<nat>, queue: seq<nat>,
                           id: nat, se: (Point, Point))
    requires SettledOf(delivered, requests, live, queue) && id !in requests
    ensures SettledOf(delivered, requests[id := se], live + {id}, queue + [id])
  {
  }

  /** Taking the head off the queue (and out of the live set, if it is there) keeps the ids well kept. */
  lemma IdsShift(nextId: nat, requests: map<nat, (Point, Point)>, live: set<nat>, stable: set<nat>, queue: seq<nat>)
    requires IdsOf(nextId, requests, live, stable, queue) && queue != []
    ensures IdsOf(nextId, requests, live - {queue[0]}, stable - {queue[0]}, queue[1..])
    ensures queue[0] !in queue[1..]
  {
    var q := queue[1..];
    forall i, j | 0 <= i < j < |q| ensures q[i] != q[j] {
      assert q[i] == queue[i + 1] && q[j] == queue[j + 1];
    }
    forall id | id in live - {queue[0]} ensures id in q {
      var k :| 0 <= k < |queue| && queue[k] == id;
      assert k != 0 && q[k - 1] == id;
    }
    assert queue[0] !in q by {
      forall k | 0 <= k < |q| ensures q[k] != queue[0] {
        assert q[k] == queue[k + 1];
      }
    }
  }

  /** Dropping a queue head that is not live keeps the log settled. */
  lemma SettledDrop<A>(delivered: seq<Delivery<A>>, requests: map<nat, (Point, Point)>, live: set<nat>, queue: seq<nat>)
    requires SettledOf(delivered, requests, live, queue) && queue != [] && queue[0] !in live
    ensures SettledOf(delivered, requests, live, queue[1..])
  {
  }

  /** Answering the live queue head, then taking it out of the live set and the queue, keeps the log settled. */
  lemma SettledAnswer<A>(delivered: seq<Delivery<A>>, requests: map<nat, (Point, Point)>, live: set<nat>, queue: seq<nat>,
                         answer: Option<A>)
    requires SettledOf(delivered, requests, live, queue) && queue != [] && queue[0] in live && live <= requests.Keys
    requires queue[0] !in queue[1..]
    ensures SettledOf(delivered + [Delivery(Some(queue[0]), answer)], requests, live - {queue[0]}, queue[1..])
  {
    var d := delivered + [Delivery(Some(queue[0]), answer)];
    forall i, j | 0 <= i < j < |d| && d[i].id.Some? ensures d[i].id != d[j].id {
      if j == |delivered| {
        assert d[i] == delivered[i];
      }
    }
  }

  /** The engine's records: ids well kept, answered requests settled, every delivered path a route. */
  ghost predicate BooksOf<A>(nextId: nat, requests: map<nat, (Point, Point)>, live: set<nat>, stable: set<nat>,
                             queue: seq<nat>, delivered: seq<Delivery<A>>, pathOf: A -> seq<Point>) {
    && IdsOf(nextId, requests, live, stable, queue)
    && SettledOf(delivered, requests, live, queue)
    && RoutesOf(delivered, requests, pathOf)
  }

  /** A request registered under the next id, live, stable and queued last. */
  lemma BooksRegister<A>(nextId: nat, requests: map<nat, (Point, Point)>, live: set<nat>, stable: set<nat>,
                         queue: seq<nat>, delivered: seq<Delivery<A>>, pathOf: A -> seq<Point>, se: (Point, Point))
    requires BooksOf(nextId, requests, live, stable, queue, delivered, pathOf)
    ensures nextId !in requests && nextId !in live
    ensures BooksOf(nextId + 1, requests[nextId := se], live + {nextId}, stable + {nextId}, queue + [nextId], delivered, pathOf)
  {
    IdsRegister(nextId, requests, live, stable, queue, se);
    SettledRegister(delivered, requests, live, queue, nextId, se);
    RoutesRegister(delivered, requests, pathOf, nextId, se);
  }

  /** The head of the queue, no longer live, leaves it. */
  lemma BooksDrop<A>(nextId: nat, requests: map<nat, (Point, Point)>, live: set<nat>, stable: set<nat>,
                     queue: seq<nat>, delivered: seq<Delivery<A>>, pathOf: A -> seq<Point>)
    requires BooksOf(nextId, requests, live, stable, queue, delivered, pathOf) && queue != [] && queue[0] !in live
    ensures BooksOf(nextId, requests, live, stable, queue[1..], delivered, pathOf)
  {
    IdsShift(nextId, requests, live, stable, queue);
    SettledDrop(delivered, requests, live, queue);
    assert live - {queue[0]} == live && stable - {queue[0]} == stable;
  }

  /** The head of the queue gets its answer, a route from its start to its goal if any, and leaves. */
  lemma BooksAnswer<A>(nextId: nat, requests: map<nat, (Point, Point)>, live: set<nat>, stable: set<nat>,
                       queue: seq<nat>, delivered: seq<Delivery<A>>, pathOf: A -> seq<Point>, answer: Option<A>)
    requires BooksOf(nextId, requests, live, stable, queue, delivered, pathOf) && queue != [] && queue[0] in live
    requires answer.Some? ==> Route(pathOf(answer.value), requests[queue[0]].0, requests[queue[0]].1)
    ensures BooksOf(nextId, requests, live - {queue[0]}, stable - {queue[0]}, queue[1..],
                    delivered + [Delivery(Some(queue[0]), answer)], pathOf)
  {
    IdsShift(nextId, requests, live, stable, queue);
    SettledAnswer(delivered, requests, live, queue, answer);
    RoutesAnswer(delivered, requests, pathOf, Delivery(Some(queue[0]), answer));
  }

  /** An answer given before any instance was made concerns no request. */
  lemma BooksDeliver<A>(nextId: nat, requests: map<nat, (Point, Point)>, live: set<nat>, stable: set<nat>,
                        queue: seq<nat>, delivered: seq<Delivery<A>>, pathOf: A -> seq<Point>, answer: Option<A>)
    requires BooksOf(nextId, requests, live, stable, queue, delivered, pathOf)
    ensures BooksOf(nextId, requests, live, stable, queue, delivered + [Delivery(None, answer)], pathOf)
  {
    RoutesAnswer(delivered, requests, pathOf, Delivery(None, answer));
    var d := delivered + [Delivery(None, answer)];
    forall k | 0 <= k < |d| && d[k].id.Some?
      ensures d[k].id.value in requests && d[k].id.value !in live && d[k].id.value !in queue
    {
      assert d[k] == delivered[k];
    }
    forall i, j | 0 <= i < j < |d| && d[i].id.Some?
      ensures d[i].id != d[j].id
    {
      assert d[i] == delivered[i];
      if j < |delivered| {
        assert d[j] == delivered[j];
      }
    }
  }

  /** What is left of queue q0 once some heads have been taken off it. */
  ghost predicate ShortenedOf(q0: seq<nat>, q: seq<nat>) {
    |q| <= |q0| && q == q0[|q0| - |q|..]
  }

  /** Keeping the queue or taking its head off leaves a suffix a suffix. */
  lemma ShortenedStep(q0: seq<nat>, q: seq<nat>, q': seq<nat>)
    requires ShortenedOf(q0, q) && (q' == q || (q != [] && q' == q[1..]))
    ensures ShortenedOf(q0, q')
  {
    if q' != q {
      assert q0[|q0| - |q'|..] == q0[|q0| - |q|..][1..];
    }
  }

  /**
    Log d extends log d0, and every entry added answers a request that was live (in live0)
    and is live no more (not in live).
  */
  ghost predicate ExtendedOf<A>(d0: seq<Delivery<A>>, d: seq<Delivery<A>>, live0: set<nat>, live: set<nat>) {
    && |d0| <= |d| && d[..|d0|] == d0
    && forall k :: |d0| <= k < |d| ==> d[k].id.Some? && d[k].id.value in live0 && d[k].id.value !in live
  }

  /** One more step that leaves the log alone, or answers a request of live0 it retires, keeps the log extended. */
  lemma ExtendedStep<A>(d0: seq<Delivery<A>>, d: seq<Delivery<A>>, d': seq<Delivery<A>>,
                        live0: set<nat>, live: set<nat>, live': set<nat>, id: nat)
    requires ExtendedOf(d0, d, live0, live) && live' <= live
    requires d' == d || (|d'| == |d| + 1 && d'[..|d|] == d && d'[|d|].id == Some(id) && id in live0 && id !in live')
    ensures ExtendedOf(d0, d', live0, live')
  {
    if d' != d {
      assert d'[..|d0|] == d[..|d0|];
      forall k | |d0| <= k < |d'| ensures d'[k].id.Some? && d'[k].id.value in live0 && d'[k].id.value !in live' {
        if k < |d| {
          assert d'[k] == d[k];
        }
      }
    }
  }

  /**
    A live request is a well-formed search over grid g, traced as its engine traces, from
    and to the points it was registered with, avoiding nothing; a stable one only caches
    admissible cells.
  */
  ghost predicate Healthy(inst: Instance, traced: bool, g: TileGrid, tiles: seq<int>, se: (Point, Point), stable: bool)
    reads inst
  {
    && inst.traced == traced && inst.pointsToAvoid == {} && (inst.start, inst.goal) == se
    && inst.Valid(Width(g), Height(g))
    && (stable ==> inst.OnWalkable(g, tiles))
  }

  /** What LiveOf says of one id: if it is live, the configuration is complete and its instance healthy. */
  ghost predicate LiveAt(instances: map<nat, Instance>, traced: bool, grid: Option<TileGrid>, tiles: Option<seq<int>>,
                         requests: map<nat, (Point, Point)>, stable: set<nat>, id: nat)
    reads instances.Values
  {
    id in instances ==>
      && grid.Some? && tiles.Some? && id in requests
      && Healthy(instances[id], traced, grid.value, tiles.value, requests[id], id in stable)
  }

  /** Live requests are distinct objects, each healthy under the current configuration. */
  ghost predicate LiveOf(instances: map<nat, Instance>, traced: bool, grid: Option<TileGrid>, tiles: Option<seq<int>>,
                         requests: map<nat, (Point, Point)>, stable: set<nat>)
    reads instances.Values
  {
    && (forall i, j :: i in instances && j in instances && i != j ==> instances[i] != instances[j])
    && forall id :: LiveAt(instances, traced, grid, tiles, requests, stable, id)
  }

  /** A new request, live on its own under a fresh id, joins the live table. */
  lemma LiveRegister(instances: map<nat, Instance>, traced: bool, grid: Option<TileGrid>, tiles: Option<seq<int>>,
                     requests: map<nat, (Point, Point)>, stable: set<nat>, id: nat, inst: Instance, se: (Point, Point))
    requires LiveOf(instances, traced, grid, tiles, requests, stable)
    requires id !in instances && id !in requests && inst !in instances.Values
    requires LiveOf(map[id := inst], traced, grid, tiles, map[id := se], {id})
    ensures LiveOf(instances[id := inst], traced, grid, tiles, requests[id := se], stable + {id})
  {
    var ins, req, st := instances[id := inst], requests[id := se], stable + {id};
    assert LiveAt(map[id := inst], traced, grid, tiles, map[id := se], {id}, id);
    forall i
      ensures LiveAt(ins, traced, grid, tiles, req, st, i)
    {
      if i in ins && i != id {
        assert LiveAt(instances, traced, grid, tiles, requests, stable, i);
        assert ins[i] == instances[i];
        assert (i in st) == (i in stable);
      }
    }
  }

  lemma LiveRetire(instances: map<nat, Instance>, traced: bool, grid: Option<TileGrid>, tiles: Option<seq<int>>,
                   requests: map<nat, (Point, Point)>, stable: set<nat>, id: nat)
    requires LiveOf(instances, traced, grid, tiles, requests, stable)
    ensures LiveOf(instances - {id}, traced, grid, tiles, requests, stable - {id})
  {
    forall i
      ensures LiveAt(instances - {id}, traced, grid, tiles, requests, stable - {id}, i)
    {
      if i in instances - {id} {
        assert LiveAt(instances, traced, grid, tiles, requests, stable, i);
        assert (i in stable - {id}) == (i in stable);
      }
    }
  }

  /** A new configuration keeps live requests healthy, none of them stable any more, when their cells lie inside the new grid. */
  lemma LiveReconfigure(instances: map<nat, Instance>, traced: bool, grid: Option<TileGrid>, tiles: Option<seq<int>>,
                        requests: map<nat, (Point, Point)>, stable: set<nat>, grid': Option<TileGrid>, tiles': Option<seq<int>>)
    requires LiveOf(instances, traced, grid, tiles, requests, stable)
    requires (grid.Some? ==> grid'.Some?) && (tiles.Some? ==> tiles'.Some?)
    requires grid' == grid || (grid'.Some? && forall id :: id in instances ==> instances[id].Inside(Width(grid'.value), Height(grid'.value)))
    ensures LiveOf(instances, traced, grid', tiles', requests, {})
  {
    forall i
      ensures LiveAt(instances, traced, grid', tiles', requests, {}, i)
    {
      assert LiveAt(instances, traced, grid, tiles, requests, stable, i);
    }
  }

  /** What RoutesOf says of entry k of the log: a path delivered for a request runs from its start to its goal. */
  ghost predicate RoutedAt<A>(delivered: seq<Delivery<A>>, requests: map<nat, (Point, Point)>, pathOf: A -> seq<Point>, k: int) {
    0 <= k < |delivered| && delivered[k].id.Some? && delivered[k].answer.Some? ==>
      && delivered[k].id.value in requests
      && Route(pathOf(delivered[k].answer.value), requests[delivered[k].id.value].0, requests[delivered[k].id.value].1)
  }

  /** Every delivered path of a request runs from that request's start to its goal. */
  ghost predicate RoutesOf<A>(delivered: seq<Delivery<A>>, requests: map<nat, (Point, Point)>, pathOf: A -> seq<Point>) {
    forall k :: RoutedAt(delivered, requests, pathOf, k)
  }

  lemma RoutesRegister<A>(delivered: seq<Delivery<A>>, requests: map<nat, (Point, Point)>, pathOf: A -> seq<Point>,
                          id: nat, se: (Point, Point))
    requires RoutesOf(delivered, requests, pathOf) && id !in requests
    ensures RoutesOf(delivered, requests[id := se], pathOf)
  {
    var req := requests[id := se];
    forall k
      ensures RoutedAt(delivered, req, pathOf, k)
    {
      assert RoutedAt(delivered, requests, pathOf, k);
    }
  }

  lemma RoutesAnswer<A>(delivered: seq<Delivery<A>>, requests: map<nat, (Point, Point)>, pathOf: A -> seq<Point>, d: Delivery<A>)
    requires RoutesOf(delivered, requests, pathOf)
    requires d.id.Some? && d.answer.Some? ==> d.id.value in requests && Route(pathOf(d.answer.value), requests[d.id.value].0, requests[d.id.value].1)
    ensures RoutesOf(delivered + [d], requests, pathOf)
  {
    var ds := delivered + [d];
    forall k
      ensures RoutedAt(ds, requests, pathOf, k)
    {
      if 0 <= k < |delivered| {
        assert RoutedAt(delivered, requests, pathOf, k);
        assert ds[k] == delivered[k];
      }
    }
  }

  /** Taking one live request out of the table leaves the others live, and its instance is none of theirs. */
  lemma LiveSplit(instances: map<nat, Instance>, traced: bool, grid: Option<TileGrid>, tiles: Option<seq<int>>,
                  requests: map<nat, (Point, Point)>, stable: set<nat>, id: nat)
    requires LiveOf(instances, traced, grid, tiles, requests, stable) && id in instances
    ensures LiveOf(instances - {id}, traced, grid, tiles, requests, stable)
    ensures instances[id] !in (instances - {id}).Values
    ensures grid.Some? && tiles.Some? && id in requests
    ensures Healthy(instances[id], traced, grid.value, tiles.value, requests[id], id in stable)
  {
    var rest := instances - {id};
    assert LiveAt(instances, traced, grid, tiles, requests, stable, id);
    forall i
      ensures LiveAt(rest, traced, grid, tiles, requests, stable, i)
    {
      assert LiveAt(instances, traced, grid, tiles, requests, stable, i);
    }
    forall j | j in rest
      ensures rest[j] != instances[id]
    {
      assert j in instances && j != id;
    }
  }

  /** A healthy instance put back under its id makes the table live again. */
  lemma LiveJoin(rest: map<nat, Instance>, traced: bool, grid: Option<TileGrid>, tiles: Option<seq<int>>,
                 requests: map<nat, (Point, Point)>, stable: set<nat>, id: nat, inst: Instance)
    requires LiveOf(rest, traced, grid, tiles, requests, stable)
    requires id !in rest && inst !in rest.Values && id in requests && grid.Some? && tiles.Some?
    requires Healthy(inst, traced, grid.value, tiles.value, requests[id], id in stable)
    ensures LiveOf(rest[id := inst], traced, grid, tiles, requests, stable)
  {
    var all := rest[id := inst];
    forall i, j | i in all && j in all && i != j
      ensures all[i] != all[j]
    {
      if i != id && j != id {
        assert all[i] == rest[i] && all[j] == rest[j];
      } else if i == id {
        assert all[j] == rest[j] && rest[j] in rest.Values;
      } else {
        assert all[i] == rest[i] && rest[i] in rest.Values;
      }
    }
    forall i
      ensures LiveAt(all, traced, grid, tiles, requests, stable, i)
    {
      assert LiveAt(rest, traced, grid, tiles, requests, stable, i);
    }
  }

  // ----- the part of calculate's loop that works on one instance -----

  /**
    A new search from s to e over grid g, set up as findPath does; it has cached no cell
    but the start, so on its own under any id it is a live, stable table.
  */
  method Launch(traced: bool, s: Point, e: Point, ghost g: TileGrid, ghost tiles: seq<int>, ghost id: nat)
    returns (inst: Instance)
    requires Rectangular(g) && InBounds(g, s) && s != e
    ensures fresh(inst) && inst.traced == traced && inst.Initial(s, e)
    ensures LiveOf(map[id := inst], traced, Some(g), Some(tiles), map[id := (s, e)], {id})
  {
    inst := new Instance(traced, s, e, Width(g), Height(g));
    assert Healthy(inst, traced, g, tiles, (s, e), true);
    assert LiveAt(map[id := inst], traced, Some(g), Some(tiles), map[id := (s, e)], {id}, id);
  }

  /**
    One iteration on a request whose state was s0 and is now s (time stamps ss): s is s0
    promoted and advanced; the iteration ends the request exactly when both levels were
    empty or the popped node is on the goal, and in the latter case the path handed back
    is the parent chain of that node.
  */
  ghost predicate Served(s0: Snapshot, s: Snapshot, ss: seq<nat>, goal: Point, traced: bool, g: TileGrid,
                         tiles: seq<int>, costs: map<int, int>, done: bool, path: Option<seq<Point>>)
  {
    && Indexed(s0) && Rectangular(g) && CoversGrid(costs, g) && NonNegative(costs)
    && s == AfterServe(s0, goal, g, tiles, costs, {}, traced)
    && done == Finishes(s0, goal)
    && (path.Some? <==> done && Frontier(s0) != [])
    && (path.Some? ==> var f := Frontier(s0);
          && f[|f| - 1] < |s.nodes| && Rooted(s.nodes, ss)
          && path.value == PathTo(s.nodes, ss, f[|f| - 1]))
  }

  /** Promoting s0 to a non-empty s1 and advancing that to s2 is one iteration. */
  lemma ServedByAdvance(s0: Snapshot, s1: Snapshot, s2: Snapshot, ss: seq<nat>, goal: Point, traced: bool,
                        g: TileGrid, tiles: seq<int>, costs: map<int, int>, path: Option<seq<Point>>)
    requires Indexed(s0) && Rectangular(g) && CoversGrid(costs, g) && NonNegative(costs)
    requires s1 == AfterPromote(s0, traced) && s1.open != [] && s1.open[|s1.open| - 1] < |s1.nodes|
    requires s2 == AfterAdvance(s1, goal, g, tiles, costs, {}, traced)
    requires path.Some? <==> s1.nodes[s1.open[|s1.open| - 1]].Pos() == goal
    requires path.Some? ==> var t := s1.open[|s1.open| - 1];
      t < |s2.nodes| && Rooted(s2.nodes, ss) && path.value == PathTo(s2.nodes, ss, t)
    ensures Served(s0, s2, ss, goal, traced, g, tiles, costs, path.Some?, path)
  {
    assert Frontier(s0) == s1.open;
  }

  /**
    The head instance's share of one iteration of calculate: the next level is swapped in
    when the current one is used up; with both empty the search is over without a path;
    otherwise one node is popped, and when it is on the goal the search is over with the
    path from the start to it.
  */
  method Serve(inst: Instance, g: TileGrid, tiles: seq<int>, costs: map<int, int>, ghost stable: bool)
    returns (done: bool, path: Option<seq<Point>>)
    requires Rectangular(g) && CoversGrid(costs, g) && NonNegative(costs)
    requires inst.pointsToAvoid == {} && inst.Valid(Width(g), Height(g))
    requires stable ==> inst.OnWalkable(g, tiles)
    modifies inst`nodes, inst`nodeHash, inst`stamps, inst`clock, inst`openList, inst`nextLevel, inst`checkedLevels
    ensures inst.Valid(Width(g), Height(g)) && (stable ==> inst.OnWalkable(g, tiles))
    ensures Served(old(inst.Snap()), inst.Snap(), inst.stamps, inst.goal, inst.traced, g, tiles, costs, done, path)
    ensures path.Some? ==> Route(path.value, inst.start, inst.goal) && (stable ==> Entered(path.value, g, tiles, {}))
  {
    ghost var s0 := inst.Snap();
    assert Indexed(s0);
    inst.Promote(Width(g), Height(g));
    ghost var s1 := inst.Snap();
    assert Frontier(s0) == s1.open;
    if inst.openList == [] {
      return true, None;
    }
    path := inst.Advance(g, tiles, costs);
    done := path.Some?;
    ServedByAdvance(s0, s1, inst.Snap(), inst.stamps, inst.goal, inst.traced, g, tiles, costs, path);
  }

  // ----- calculate's loop as a whole, on values -----

  /** A live request as calculate sees it: its search state, the time stamps of its nodes, its clock and its goal. */
  datatype Req = Req(s: Snapshot, ss: seq<nat>, clock: nat, goal: Point)

  /** An engine as calculate sees it: the queue, the live requests by id and the callback log. */
  datatype Eng<A> = Eng(queue: seq<nat>, live: map<nat, Req>, delivered: seq<Delivery<A>>)

  ghost function Reqs(m: map<nat, Instance>): (r: map<nat, Req>)
    reads m.Values
    ensures r.Keys == m.Keys
  {
    map id | id in m :: Req(m[id].Snap(), m[id].stamps, m[id].clock, m[id].goal)
  }

  /** The path an answer carries, if any. */
  function FoundOf<A>(answer: Option<A>, pathOf: A -> seq<Point>): Option<seq<Point>> {
    if answer.Some? then Some(pathOf(answer.value)) else None
  }

  /**
    Request r, served one last time into state s (time stamps ss), finishes with `answer`:
    the path it carries is the parent chain of the popped goal node, and in the typed
    engine the trace it carries is the request's own.
  */
  ghost predicate Concluded<A>(r: Req, s: Snapshot, ss: seq<nat>, traced: bool, g: TileGrid, tiles: seq<int>,
                              costs: map<int, int>, answer: Option<A>, pathOf: A -> seq<Point>,
                              traceOf: A -> seq<seq<Point>>)
  {
    && Served(r.s, s, ss, r.goal, traced, g, tiles, costs, true, FoundOf(answer, pathOf))
    && (traced && answer.Some? ==> traceOf(answer.value) == s.trace)
  }

  /**
    One iteration of calculate's loop takes engine a to engine b: a head that is no longer
    live leaves the queue; a live head is served, and when the iteration finishes it the
    request leaves the table and the queue and its answer is logged, otherwise only its
    state moves on.
  */
  ghost predicate Stepped<A>(a: Eng<A>, b: Eng<A>, traced: bool, g: TileGrid, tiles: seq<int>, costs: map<int, int>,
                             pathOf: A -> seq<Point>, traceOf: A -> seq<seq<Point>>)
  {
    && a.queue != []
    && var id := a.queue[0];
       if id !in a.live then b == a.(queue := a.queue[1..])
       else
         var r := a.live[id];
         if Finishes(r.s, r.goal) then
           && b.queue == a.queue[1..] && b.live == a.live - {id}
           && |b.delivered| == |a.delivered| + 1 && b.delivered[..|a.delivered|] == a.delivered
           && b.delivered[|a.delivered|].id == Some(id)
           && exists s, ss :: Concluded(r, s, ss, traced, g, tiles, costs, b.delivered[|a.delivered|].answer, pathOf, traceOf)
         else
           && b.queue == a.queue && b.delivered == a.delivered
           && id in b.live && b.live == a.live[id := b.live[id]] && b.live[id].goal == r.goal
           && Served(r.s, b.live[id].s, b.live[id].ss, r.goal, traced, g, tiles, costs, false, None)
  }

  /** Engines related by Stepped, in order: calculate's iterations one after the other. */
  ghost predicate Iterations<A>(t: seq<Eng<A>>, traced: bool, g: TileGrid, tiles: seq<int>, costs: map<int, int>,
                           pathOf: A -> seq<Point>, traceOf: A -> seq<seq<Point>>)
  {
    forall i {:trigger Stepped(t[i], t[i + 1], traced, g, tiles, costs, pathOf, traceOf)} ::
      0 <= i < |t| - 1 ==> Stepped(t[i], t[i + 1], traced, g, tiles, costs, pathOf, traceOf)
  }

  /** A trail followed by one more Stepped step is a trail. */
  lemma IterationsStep<A>(t: seq<Eng<A>>, b: Eng<A>, traced: bool, g: TileGrid, tiles: seq<int>, costs: map<int, int>,
                          pathOf: A -> seq<Point>, traceOf: A -> seq<seq<Point>>)
    requires t != [] && Iterations(t, traced, g, tiles, costs, pathOf, traceOf)
    requires Stepped(t[|t| - 1], b, traced, g, tiles, costs, pathOf, traceOf)
    ensures Iterations(t + [b], traced, g, tiles, costs, pathOf, traceOf)
  {
    var t' := t + [b];
    forall i | 0 <= i < |t'| - 1
      ensures Stepped(t'[i], t'[i + 1], traced, g, tiles, costs, pathOf, traceOf)
    {
      if i < |t| - 1 {
        assert t'[i] == t[i] && t'[i + 1] == t[i + 1];
        assert Stepped(t[i], t[i + 1], traced, g, tiles, costs, pathOf, traceOf);
      }
    }
  }

  /**
    Along a trail of iterations from an engine whose queue holds each id once, the queue
    only loses heads, and a live request queued behind the head at the end was live with
    the same state at the start: no iteration touched it.
  */
  lemma {:induction false} IterationsKeepBehind<A>(t: seq<Eng<A>>, traced: bool, g: TileGrid, tiles: seq<int>,
                                                   costs: map<int, int>, pathOf: A -> seq<Point>,
                                                   traceOf: A -> seq<seq<Point>>)
    requires t != [] && Iterations(t, traced, g, tiles, costs, pathOf, traceOf) && NoDup(t[0].queue)
    ensures var a, b := t[0], t[|t| - 1];
      && |b.queue| <= |a.queue| && b.queue == a.queue[|a.queue| - |b.queue|..]
      && forall k :: 1 <= k < |b.queue| && b.queue[k] in a.live ==> b.queue[k] in b.live && b.live[b.queue[k]] == a.live[b.queue[k]]
  {
    if |t| > 1 {
      var n := |t| - 1;
      var t' := t[..n];
      forall i | 0 <= i < |t'| - 1
        ensures Stepped(t'[i], t'[i + 1], traced, g, tiles, costs, pathOf, traceOf)
      {
        assert t'[i] == t[i] && t'[i + 1] == t[i + 1];
        assert Stepped(t[i], t[i + 1], traced, g, tiles, costs, pathOf, traceOf);
      }
      IterationsKeepBehind(t', traced, g, tiles, costs, pathOf, traceOf);
      var j := n - 1;
      var a, c, b := t[0], t[j], t[j + 1];
      assert t'[0] == a && t'[|t'| - 1] == c;
      assert Stepped(t[j], t[j + 1], traced, g, tiles, costs, pathOf, traceOf);
      assert b.queue == c.queue || b.queue == c.queue[1..];
      forall k | 1 <= k < |b.queue| && b.queue[k] in a.live
        ensures b.queue[k] in b.live && b.live[b.queue[k]] == a.live[b.queue[k]]
      {
        var m := if b.queue == c.queue then k else k + 1;
        var d := |a.queue| - |c.queue|;
        assert b.queue[k] == c.queue[m] == a.queue[d + m] && c.queue[0] == a.queue[d];
      }
    }
  }

  /** The table's view of m is its view without id, with id's own entry put back. */
  lemma ReqsSplit(m: map<nat, Instance>, id: nat)
    requires id in m
    ensures Reqs(m) == Reqs(m - {id})[id := Req(m[id].Snap(), m[id].stamps, m[id].clock, m[id].goal)]
  {
    assert Reqs(m).Keys == (m - {id}).Keys + {id};
  }

  /**
    An iteration on a live head id that serves it from a.live[id] into r: with the other
    live requests (rest) left as they were, a finished request leaves the queue and the
    table and gets its answer logged, an unfinished one stays with state r; either way
    the engine has taken one Stepped step.
  */
  lemma SteppedLive<A>(a: Eng<A>, b: Eng<A>, rest: map<nat, Req>, r: Req, done: bool, answer: Option<A>,
                       traced: bool, g: TileGrid, tiles: seq<int>, costs: map<int, int>,
                       pathOf: A -> seq<Point>, traceOf: A -> seq<seq<Point>>)
    requires a.queue != [] && a.queue[0] in a.live && a.queue[0] !in rest
    requires a.live == rest[a.queue[0] := a.live[a.queue[0]]] && r.goal == a.live[a.queue[0]].goal
    requires Served(a.live[a.queue[0]].s, r.s, r.ss, r.goal, traced, g, tiles, costs, done, FoundOf(answer, pathOf))
    requires traced && answer.Some? ==> traceOf(answer.value) == r.s.trace
    requires done ==> b == Eng(a.queue[1..], rest, a.delivered + [Delivery(Some(a.queue[0]), answer)])
    requires !done ==> b == Eng(a.queue, rest[a.queue[0] := r], a.delivered)
    ensures Stepped(a, b, traced, g, tiles, costs, pathOf, traceOf)
  {
    var id := a.queue[0];
    if done {
      assert rest == a.live - {id};
      assert Concluded(a.live[id], r.s, r.ss, traced, g, tiles, costs, answer, pathOf, traceOf);
    } else {
      assert b.live == a.live[id := r];
    }
  }
}
