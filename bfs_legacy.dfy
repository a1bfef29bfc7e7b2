/**
  The older engine: the same configuration, request table, queue and id counter as the
  typed engine, without the level-by-level trace. Its callback receives the bare path,
  and calculate keeps its iteration counter in a field. A callback invocation is
  recorded as an entry appended to the `delivered` log.
*/
module BfsLegacy {
  import opened Wrappers
  import opened Grid
  import opened Nodes
  import opened Arena
  import opened Search
  import opened Requests
  import opened Steps

  /** The callback receives the path itself. */
  function PathOf(path: seq<Point>): seq<Point> {
    path
  }

  /** This engine's answers carry no trace. */
  function NoTrace(path: seq<Point>): seq<seq<Point>> {
    []
  }

  /** The argument of setAcceptableTiles: an array, a finite number, or anything else. */
  datatype Tiles = Many(list: seq<int>) | One(tile: int) | Other

  class Engine {
    var grid: Option<TileGrid>
    var costMap: map<int, int>
    var acceptable: Option<seq<int>>
    var instances: map<nat, Instance>
    var queue: seq<nat>
    var nextId: nat
    /** Set to true by the constructor; no operation changes it. */
    var isAcceptable: bool
    var delivered: seq<Delivery<seq<Point>>>
    /** The loop counter of the last calculate that got past its guard; None before that. */
    var iterationsSoFar: Option<nat>
    /** Live requests made since the grid and the walkable tiles were last set. */
    ghost var stable: set<nat>
    /** The start and goal of every request ever queued. */
    ghost var requests: map<nat, (Point, Point)>

    ghost predicate Valid()
      reads this`grid, this`costMap, this`acceptable, this`instances, this`queue, this`nextId, this`delivered
      reads this`stable, this`requests, instances.Values
    {
      && ConfigOf(costMap, grid)
      && BooksOf(nextId, requests, instances.Keys, stable, queue, delivered, PathOf)
      && LiveOf(instances, false, grid, acceptable, requests, stable)
    }

    /** The queue, the live requests and the log, as values. */
    ghost function Abs(): Eng<seq<Point>>
      reads this`queue, this`instances, this`delivered, instances.Values
    {
      Eng(queue, Reqs(instances), delivered)
    }

    constructor()
      ensures Valid()
      ensures grid == None && costMap == map[] && acceptable == None
      ensures instances == map[] && queue == [] && nextId == 1 && isAcceptable && delivered == []
      ensures iterationsSoFar == None
    {
      grid, costMap, acceptable := None, map[], None;
      instances, queue, nextId := map[], [], 1;
      isAcceptable := true;
      delivered := [];
      iterationsSoFar := None;
      stable, requests := {}, map[];
    }

    /**
      setGrid: installs the grid and gives every tile type in it without a cost, or with
      cost 0, the cost 1; other entries are kept. Live requests must lie inside the new grid.
    */
    method SetGrid(g: TileGrid)
      requires Valid() && Rectangular(g)
      requires forall id :: id in instances ==> instances[id].Inside(Width(g), Height(g))
      modifies this`grid, this`costMap, this`stable
      ensures Valid()
      ensures grid == Some(g)
      ensures costMap.Keys == old(costMap).Keys + TilesOf(g)
      ensures forall t :: t in costMap ==> costMap[t] == SeededCost(old(costMap), TilesOf(g), t)
      ensures forall t :: t in TilesOf(g) ==> costMap[t] >= 1
    {
      var r := SeedCosts(costMap, g);
      SeededCoversGrid(costMap, g, r);
      LiveReconfigure(instances, false, grid, acceptable, requests, stable, Some(g), acceptable);
      grid, costMap := Some(g), r;
      stable := {};
    }

    /**
      setAcceptableTiles: an array is stored as given, a finite number as a one-element
      list; any other argument leaves the walkable tiles as they were.
    */
    method SetAcceptableTiles(t: Tiles)
      requires Valid()
      modifies this`acceptable, this`stable
      ensures Valid()
      ensures t.Many? ==> acceptable == Some(t.list)
      ensures t.One? ==> acceptable == Some([t.tile])
      ensures t.Other? ==> acceptable == old(acceptable) && stable == old(stable)
    {
      if t.Other? {
        return;
      }
      var tiles := if t.Many? then t.list else [t.tile];
      LiveReconfigure(instances, false, grid, acceptable, requests, stable, grid, Some(tiles));
      acceptable := Some(tiles);
      stable := {};
    }

    /** setTileCost: the cost of one tile type; no other entry changes. */
    method SetTileCost(tileType: int, cost: int)
      requires Valid() && cost >= 0
      modifies this`costMap
      ensures Valid()
      ensures costMap == old(costMap)[tileType := cost]
    {
      costMap := costMap[tileType := cost];
    }

    /**
      findPath: rejects a request when the walkable tiles or the grid are unset or a point
      lies outside the grid; answers at once with an empty path when start and end
      coincide, and with null when requests are not acceptable; otherwise registers a new
      search under the next id and queues it last.
    */
    method FindPath(s: Point, e: Point) returns (a: Admission)
      requires Valid()
      modifies this`instances, this`queue, this`nextId, this`delivered, this`requests, this`stable
      ensures Valid()
      ensures a.Rejected? <==> CheckRequest(grid, acceptable, s, e).Some?
      ensures a.Rejected? ==> a.error == CheckRequest(grid, acceptable, s, e).value
      ensures a.Answered? <==> CheckRequest(grid, acceptable, s, e).None? && (s == e || !isAcceptable)
      ensures !a.Queued? ==> instances == old(instances) && queue == old(queue) && nextId == old(nextId)
      ensures a.Rejected? ==> delivered == old(delivered)
      ensures a.Answered? ==> delivered == old(delivered) + [Delivery(None, if s == e then Some([]) else None)]
      ensures a.Queued? ==>
        && a.id == old(nextId) && a.id >= 1 && a.id !in old(instances) && nextId == a.id + 1
        && queue == old(queue) + [a.id] && delivered == old(delivered)
        && a.id in instances && fresh(instances[a.id]) && instances == old(instances)[a.id := instances[a.id]]
        && !instances[a.id].traced && instances[a.id].Initial(s, e)
    {
      var err := CheckRequest(grid, acceptable, s, e);
      if err.Some? {
        return Rejected(err.value);
      }
      if s == e || !isAcceptable {
        Deliver(if s == e then Some([]) else None);
        return Answered;
      }
      var inst := Launch(false, s, e, grid.value, acceptable.value, nextId);
      var id := Register(inst, (s, e));
      a := Queued(id);
    }

    /** A callback invoked outside any request: the log grows by one entry. */
    method Deliver(answer: Option<seq<Point>>)
      requires Valid()
      modifies this`delivered
      ensures Valid()
      ensures delivered == old(delivered) + [Delivery(None, answer)]
    {
      BooksDeliver(nextId, requests, instances.Keys, stable, queue, delivered, PathOf, answer);
      delivered := delivered + [Delivery(None, answer)];
    }

    /** A new healthy search under the next id, queued last. */
    method Register(inst: Instance, ghost se: (Point, Point)) returns (id: nat)
      requires Valid() && grid.Some? && acceptable.Some? && inst !in instances.Values
      requires LiveOf(map[nextId := inst], false, grid, acceptable, map[nextId := se], {nextId})
      modifies this`instances, this`queue, this`nextId, this`requests, this`stable
      ensures Valid()
      ensures id == old(nextId) && id !in old(instances) && nextId == id + 1
      ensures queue == old(queue) + [id] && instances == old(instances)[id := inst]
    {
      id := nextId;
      BooksRegister(nextId, requests, instances.Keys, stable, queue, delivered, PathOf, se);
      LiveRegister(instances, false, grid, acceptable, requests, stable, id, inst, se);
      nextId, instances, queue := nextId + 1, instances[id := inst], queue + [id];
      requests, stable := requests[id := se], stable + {id};
    }

    /**
      The engine after one iteration on its live head request id, whose instance inst was in
      state s0 when the queue, the table and the log were q0, i0 and d0: the instance has
      been served; a finished request has been answered and taken off the table and the
      queue, and an unfinished one leaves them as they were.
    */
    ghost predicate Ticked(id: nat, inst: Instance, s0: Snapshot, q0: seq<nat>, i0: map<nat, Instance>,
                           d0: seq<Delivery<seq<Point>>>, done: bool, answer: Option<seq<Point>>)
      reads this, inst
    {
      && grid.Some? && acceptable.Some? && q0 != [] && q0[0] == id
      && Served(s0, inst.Snap(), inst.stamps, inst.goal, false, grid.value, acceptable.value, costMap, done, answer)
      && (done ==> queue == q0[1..] && instances == i0 - {id} && delivered == d0 + [Delivery(Some(id), answer)])
      && (!done ==> queue == q0 && instances == i0 && delivered == d0)
    }

    /**
      The search share of an iteration: live request id is served. The table, the queue and
      the log are left to Tick.
    */
    method Step(id: nat) returns (done: bool, answer: Option<seq<Point>>)
      requires Valid() && id in instances && grid.Some? && acceptable.Some?
      modifies instances[id]
      ensures Valid()
      ensures Served(old(instances[id].Snap()), instances[id].Snap(), instances[id].stamps, instances[id].goal, false,
                     grid.value, acceptable.value, costMap, done, answer)
      ensures answer.Some? ==>
        && Route(answer.value, instances[id].start, instances[id].goal)
        && (id in stable ==> Entered(answer.value, grid.value, acceptable.value, {}))
    {
      var inst := instances[id];
      ghost var rest := instances - {id};
      LiveSplit(instances, false, grid, acceptable, requests, stable, id);
      assert instances == rest[id := inst];
      done, answer := Serve(inst, grid.value, acceptable.value, costMap, id in stable);
      LiveJoin(rest, false, grid, acceptable, requests, stable, id, inst);
    }

    /**
      One iteration of calculate for a live head request, once the grid and the walkable
      tiles are set (see Ticked); no other request is touched.
    */
    method Tick(id: nat) returns (done: bool, answer: Option<seq<Point>>)
      requires Valid() && queue != [] && queue[0] == id && id in instances && grid.Some? && acceptable.Some?
      modifies this`instances, this`queue, this`delivered, this`stable, instances[id]
      ensures Valid()
      ensures Ticked(id, old(instances[id]), old(instances[id].Snap()), old(queue), old(instances), old(delivered), done, answer)
      ensures answer.Some? ==>
        && Route(answer.value, old(instances[id].start), old(instances[id].goal))
        && (id in old(stable) ==> Entered(answer.value, grid.value, acceptable.value, {}))
      ensures forall j :: j in old(instances) && j != id ==> unchanged(old(instances[j]))
    {
      LiveSplit(instances, false, grid, acceptable, requests, stable, id);
      assert forall j :: j in instances && j != id ==> instances[j] != instances[id];
      done, answer := Step(id);
      if done {
        Retire(id, answer);
      }
    }

    /** Tick, which leaves the table's view of every other live request as it was. */
    method Turn(id: nat) returns (done: bool, answer: Option<seq<Point>>)
      requires Valid() && queue != [] && queue[0] == id && id in instances && grid.Some? && acceptable.Some?
      modifies this`instances, this`queue, this`delivered, this`stable, instances[id]
      ensures Valid()
      ensures Ticked(id, old(instances[id]), old(instances[id].Snap()), old(queue), old(instances), old(delivered), done, answer)
      ensures forall j :: j in old(instances) && j != id ==> unchanged(old(instances[j]))
      ensures Reqs(old(instances) - {id}) == old(Reqs(instances - {id}))
    {
      ghost var m: map<nat, Instance> := instances;
      ghost var rest := Reqs(m - {id});
      done, answer := Tick(id);
      forall j | j in m && j != id
        ensures m[j].Snap() == old(m[j].Snap()) && m[j].stamps == old(m[j].stamps)
      {
        assert unchanged(m[j]);
      }
      forall j | j in rest
        ensures Reqs(m - {id})[j] == rest[j]
      {
      }
      assert Reqs(m - {id}) == rest;
    }

    /** A queued id whose request is no longer live leaves the queue without a callback. */
    method Drop()
      requires Valid() && queue != [] && queue[0] !in instances
      modifies this`queue
      ensures Valid() && queue == old(queue[1..])
    {
      BooksDrop(nextId, requests, instances.Keys, stable, queue, delivered, PathOf);
      queue := queue[1..];
    }

    /** The head request gets its answer and leaves the table and the queue. */
    method Retire(id: nat, answer: Option<seq<Point>>)
      requires Valid() && queue != [] && id == queue[0] && id in instances
      requires answer.Some? ==> Route(answer.value, instances[id].start, instances[id].goal)
      modifies this`instances, this`queue, this`delivered, this`stable
      ensures Valid()
      ensures queue == old(queue[1..]) && instances == old(instances) - {id} && stable == old(stable) - {id}
      ensures delivered == old(delivered) + [Delivery(Some(id), answer)]
    {
      assert LiveAt(instances, false, grid, acceptable, requests, stable, id);
      BooksAnswer(nextId, requests, instances.Keys, stable, queue, delivered, PathOf, answer);
      LiveRetire(instances, false, grid, acceptable, requests, stable, id);
      assert (instances - {id}).Keys == instances.Keys - {id};
      delivered, instances := delivered + [Delivery(Some(id), answer)], instances - {id};
      stable, queue := stable - {id}, queue[1..];
    }

    /**
      One iteration of calculate's loop, on a non-empty queue: a head that is no longer live
      is dropped; a live head is ticked, and the log grows exactly when the tick finishes
      it. No other request is touched.
    */
    method Iterate()
      requires Valid() && queue != [] && grid.Some? && acceptable.Some?
      modifies this`instances, this`queue, this`delivered, this`stable, instances.Values
      ensures Valid()
      ensures old(queue[0]) !in old(instances) ==>
        queue == old(queue[1..]) && instances == old(instances) && delivered == old(delivered)
      ensures old(queue[0]) in old(instances) ==>
        var done := |delivered| > |old(delivered)|;
        Ticked(old(queue[0]), old(instances[queue[0]]), old(instances[queue[0]].Snap()), old(queue), old(instances),
               old(delivered), done, if done then delivered[|delivered| - 1].answer else None)
      ensures forall j :: j in old(instances) && j != old(queue[0]) ==> unchanged(old(instances[j]))
      ensures queue == old(queue) || queue == old(queue[1..])
      ensures forall j :: j in instances ==> j in old(instances) && instances[j] == old(instances[j])
      ensures delivered == old(delivered) ||
        (&& |delivered| == |old(delivered)| + 1 && delivered[..|old(delivered)|] == old(delivered)
         && delivered[|old(delivered)|].id == Some(old(queue[0]))
         && old(queue[0]) in old(instances) && old(queue[0]) !in instances)
      ensures Stepped(old(Abs()), Abs(), false, grid.value, acceptable.value, costMap, PathOf, NoTrace)
    {
      ghost var a := Abs();
      if queue[0] !in instances {
        Drop();
        assert Abs() == a.(queue := a.queue[1..]);
      } else {
        ghost var m: map<nat, Instance> := instances;
        ghost var id := queue[0];
        ReqsSplit(m, id);
        var done, answer := Turn(queue[0]);
        ReqsSplit(m, id);
        assert FoundOf(answer, PathOf) == answer;
        SteppedLive(a, Abs(), Reqs(m - {id}), Req(m[id].Snap(), m[id].stamps, m[id].clock, m[id].goal), done, answer,
                    false, grid.value, acceptable.value, costMap, PathOf, NoTrace);
      }
    }

    /** Iterate, reduced to what calculate's loop keeps track of. */
    method Pass(ghost t: seq<Eng<seq<Point>>>) returns (ghost t': seq<Eng<seq<Point>>>)
      requires Valid() && queue != [] && grid.Some? && acceptable.Some?
      requires t != [] && t[|t| - 1] == Abs() && Iterations(t, false, grid.value, acceptable.value, costMap, PathOf, NoTrace)
      modifies this`instances, this`queue, this`delivered, this`stable, instances.Values
      ensures Valid()
      ensures queue == old(queue) || queue == old(queue[1..])
      ensures forall j :: j in instances ==> j in old(instances) && instances[j] == old(instances[j])
      ensures instances == old(instances) || instances == old(instances) - {old(queue[0])}
      ensures delivered == old(delivered) ||
        (&& |delivered| == |old(delivered)| + 1 && delivered[..|old(delivered)|] == old(delivered)
         && delivered[|old(delivered)|].id == Some(old(queue[0]))
         && old(queue[0]) in old(instances) && old(queue[0]) !in instances)
      ensures t' == t + [Abs()] && Iterations(t', false, grid.value, acceptable.value, costMap, PathOf, NoTrace)
    {
      Iterate();
      IterationsStep(t, Abs(), false, grid.value, acceptable.value, costMap, PathOf, NoTrace);
      t' := t + [Abs()];
    }

    /**
      calculate with a budget of iterations: nothing happens without a queued request, a
      grid and walkable tiles; otherwise the counter starts at 0 and each iteration drops
      a head that is no longer live or gives the live head a Tick, until the budget is
      spent or the queue is empty. The queue only ever loses its head, answers are only
      ever appended, each to a request that was live and is not any more, no request is
      added, and the requests queued behind the final head keep their state. `trail` holds
      the engine's value before and after each iteration, consecutive values one iteration
      apart.
    */
    method Calculate(budget: nat) returns (ghost trail: seq<Eng<seq<Point>>>)
      requires Valid()
      modifies this`instances, this`queue, this`delivered, this`stable, this`iterationsSoFar, instances.Values
      ensures Valid()
      ensures old(queue) == [] || grid.None? || acceptable.None? ==>
        trail == [old(Abs())] && queue == old(queue) && instances == old(instances) && delivered == old(delivered)
        && iterationsSoFar == old(iterationsSoFar)
      ensures old(queue) != [] && grid.Some? && acceptable.Some? ==>
        && iterationsSoFar.Some? && iterationsSoFar.value <= budget && (iterationsSoFar.value < budget ==> queue == [])
        && |trail| == iterationsSoFar.value + 1 && trail[0] == old(Abs()) && trail[|trail| - 1] == Abs()
        && Iterations(trail, false, grid.value, acceptable.value, costMap, PathOf, NoTrace)
      ensures ShortenedOf(old(queue), queue)
      ensures ExtendedOf(old(delivered), delivered, old(instances).Keys, instances.Keys)
      ensures forall j :: j in instances ==> j in old(instances) && instances[j] == old(instances[j])
      ensures forall k :: 1 <= k < |queue| && queue[k] in old(instances) ==>
        queue[k] in instances && Abs().live[queue[k]] == old(Abs()).live[queue[k]]
    {
      trail := [Abs()];
      if queue == [] || grid.None? || acceptable.None? {
        return;
      }
      var spent;
      spent, trail := Run(budget);
      Count(spent);
    }

    /** The iteration counter is set to n; nothing else changes. */
    method Count(n: nat)
      requires Valid()
      modifies this`iterationsSoFar
      ensures Valid() && iterationsSoFar == Some(n) && Abs() == old(Abs())
      ensures instances == old(instances) && queue == old(queue) && delivered == old(delivered)
    {
      iterationsSoFar := Some(n);
    }

    /**
      calculate's loop: up to `budget` iterations, fewer only when the queue runs empty;
      `spent` counts them and `trail` holds the engine before and after each.
    */
    method Run(budget: nat) returns (spent: nat, ghost trail: seq<Eng<seq<Point>>>)
      requires Valid() && grid.Some? && acceptable.Some?
      modifies this`instances, this`queue, this`delivered, this`stable, instances.Values
      ensures Valid()
      ensures spent <= budget && (spent < budget ==> queue == [])
      ensures |trail| == spent + 1 && trail[0] == old(Abs()) && trail[spent] == Abs()
      ensures Iterations(trail, false, grid.value, acceptable.value, costMap, PathOf, NoTrace)
      ensures ShortenedOf(old(queue), queue)
      ensures ExtendedOf(old(delivered), delivered, old(instances).Keys, instances.Keys)
      ensures forall j :: j in instances ==> j in old(instances) && instances[j] == old(instances[j])
      ensures forall k :: 1 <= k < |queue| && queue[k] in old(instances) ==>
        queue[k] in instances && Abs().live[queue[k]] == old(Abs()).live[queue[k]]
    {
      spent, trail := 0, [Abs()];
      assert NoDup(queue);
      while spent < budget && queue != []
        invariant Valid() && spent <= budget
        invariant |trail| == spent + 1 && trail[0] == old(Abs()) && trail[spent] == Abs()
        invariant Iterations(trail, false, grid.value, acceptable.value, costMap, PathOf, NoTrace)
        invariant ExtendedOf(old(delivered), delivered, old(instances).Keys, instances.Keys)
        invariant forall j :: j in instances ==> j in old(instances) && instances[j] == old(instances[j])
      {
        ghost var q, d, ins := queue, delivered, instances;
        trail := Pass(trail);
        ExtendedStep(old(delivered), d, delivered, old(instances).Keys, ins.Keys, instances.Keys, q[0]);
        spent := spent + 1;
      }
      IterationsKeepBehind(trail, false, grid.value, acceptable.value, costMap, PathOf, NoTrace);
    }
  }
}
