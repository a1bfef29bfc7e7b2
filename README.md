# pathFinder BFS engine, modelled in Dafny

This project models the incremental, multi-request grid path search engine of pathFinder:
- the typed engine in `src/algorithms/bfs.ts`, with its `Node` and `Instance` records;
- the older untyped copy in `src/algorithms/bfs.js`, with its own `Node` and `Instance`.

**The engine.** It keeps the following state:
- a collision grid of tile-type codes;
- a tile-type to cost table;
- the list of walkable tile types;
- a table of live search instances;
- a FIFO queue of instance ids;
- an id counter that starts at 1.

`findPath` checks a request. It then either:
- throws;
- answers at once (start equals end, or requests are not acceptable);
- or registers a new search instance under the next id.

Each iteration of `calculate` serves only the head of the queue, in one of these ways:
- it drops an id with no live instance;
- it swaps in the next BFS level when the current one is used up;
- it reports `null` when both levels are empty;
- it pops one node, then either reports the path to the goal or closes the node and examines its four orthogonal neighbours.

Examining a neighbour opens an uncached cell, or re-parents a cached one when going through the current node is strictly cheaper. The typed engine also records, level by level, every cell it opens, and hands that trace to the callback with the path.

**How the model is built.**

| module (file) | models |
|---|---|
| `Grid` (grid.dfy) | The grid, walkability, tile costs, the cost seeding of `setGrid`, `getDistance` and `calculateDirection`. |
| `Nodes` (node.dfy) | The `Node` record and its membership tag. |
| `Arena` (arena.dfy) | The invariants of one search's node cache, stated on values, and the lemmas that each step keeps them. |
| `Steps` (steps.dfy) | One search's state as a value (`Snapshot`), and what each step does to it: a neighbour check, the four checks of an expansion, a pop, a level swap, one iteration. |
| `Search` (instance.dfy) | The class `Instance`, holding the per-request state and the per-request steps of the engine. |
| `Requests` (requests.dfy) | The request checks and the engine's books, which are shared by both engines. |
| `Bfs` (bfs.dfy) | The typed engine, as a class. |
| `BfsLegacy` (bfs_legacy.dfy) | The older engine, as a class. |

In the `Search` class:
- nodes live in an arena (`seq<Node>`);
- `nodeHash` maps a cell to its arena index;
- a parent link is an arena index;
- `openList`, `nextLevel` and `checkedLevels` are fields the methods reassign.

Each engine is a class with the source's fields.
- Callbacks are recorded as entries appended to a `delivered` log.
- Two ghost fields support the proofs:
  - `requests` remembers every request's start and goal;
  - `stable` holds the ids created since the grid and the walkable tiles were last set.
- Parent links form no cycle. Each node carries a ghost time stamp of when it last got its parent. A parent always has a lower cost, or an equal cost and an earlier stamp. So walking up parents ends at the start node, even with tile costs of 0.

**Three details of the code that the model keeps:**
- `findPath` with start equal to end:
  - the typed engine delivers `{path: [], checked: []}`, an empty trace (bfs.ts:196-199);
  - the older engine delivers `[]`.
- `setGrid` gives cost 1 to every tile type whose entry is missing *or 0* (bfs.ts:80).
- One `calculate` iteration pops one node. It does not process a whole level.

## Model

| member | source | states |
|---|---|---|
| Grid.IsTileWalkable | src/algorithms/bfs.ts:36-43 | The scan answers true exactly when the tile type under the cell is in the walkable list. |
| Grid.TileCost | src/algorithms/bfs.ts:121-123 | getTileCost is the table entry of the tile type under the cell. It is never negative because the table covers the grid and, by the NonNegative requires, holds no negative entry. |
| Grid.SeedCosts | src/algorithms/bfs.ts:78-84 | After the nested loop, the table's keys are the old keys plus every tile type in the grid. A type in the grid whose entry was missing or 0 costs 1. Every other entry keeps its old value. |
| Grid.SeededCoversGrid | src/algorithms/bfs.ts:78-84 | After seeding, every tile type in the grid has an entry of at least 1, and no entry is negative when none was. |
| Grid.DistanceMetric | src/algorithms/bfs.js:23-27 | getDistance is symmetric, zero exactly for equal points, and obeys the triangle inequality. |
| Grid.AdjacentIsUnitDistance | src/algorithms/bfs.js:23-27 | Two cells are orthogonal neighbours exactly when their Manhattan distance is 1. |
| Grid.AdjacentCases | src/algorithms/bfs.ts:303-318 | The orthogonal neighbours of a cell are exactly the four cells above, right of, below and left of it, the four the engine tries. |
| Grid.ChainAtLeastDistance | src/algorithms/bfs.js:23-27 | A chain of orthogonal steps has at least as many steps as the Manhattan distance between its ends. |
| Grid.CalculateDirection | src/algorithms/bfs.js:64-74 | A direction is returned exactly for the eight offsets with both components in {-1,0,1} other than (0,0). Every other pair, (0,0) included, is the thrown error. |
| Grid.DirectionRoundTrip | src/algorithms/bfs.js:59-74 | Each of the eight directions is returned for the offset that the comment table draws for it. |
| Grid.DirectionInverse | src/algorithms/bfs.js:64-74 | A returned direction's offset is the input pair. |
| Grid.DirectionInjective | src/algorithms/bfs.js:64-74 | Distinct valid offsets get distinct directions. |
| Nodes.Membership.Code | src/algorithms/node.ts:13 | The stored `list` value is undefined only for an unvisited node, and is otherwise 0 (closed) or 1 (open). |
| Nodes.CodeInjective | src/algorithms/bfs.ts:9-10 | The three membership states are told apart by the stored value. |
| Nodes.NewNode | src/algorithms/node.ts:14-19 | The constructor stores parent, x, y and costSoFar as passed and sets no membership tag; the constructor in `node.js` does the same. |
| Arena.GrewOpen | src/algorithms/bfs.ts:143-146 | Opening a new neighbour is growth: the node is open, its parent is the current node, it is pushed once onto the next level and appended to the last trace level. |
| Arena.GrewRelax | src/algorithms/bfs.ts:147-151 | Lowering a cached node's cost and re-parenting it to the current node is growth: no cell, tag, level or trace entry changes. |
| Arena.GrewTrans | src/algorithms/bfs.ts:303-318 | Growth over the four neighbour checks composes. Costs only fall, and the next level and the trace gain exactly the newly opened nodes, in order. |
| Arena.GrewRefl | src/algorithms/bfs.ts:138-140 | A check that changes nothing is growth. |
| Arena.RelaxedTrans | src/algorithms/bfs.ts:147-151 | Two successive cost reductions through the same node are one reduction. |
| Arena.FreshTrans | src/algorithms/bfs.ts:143-146 | Nodes opened in successive checks are all open neighbours discovered through the current node, and their cells line up in opening order. |
| Arena.AppendKeepsLinks | src/algorithms/bfs.ts:27-31 | A new node whose parent is an adjacent cached node of no greater cost keeps every parent link sound. |
| Arena.TagKeepsLinks | src/algorithms/bfs.ts:301 | Retagging a node keeps the parent links sound. |
| Arena.RelaxKeepsLinks | src/algorithms/bfs.ts:147-151 | Re-parenting to a neighbour at a strictly lower cost keeps every parent ahead of its children, so the links stay acyclic. |
| Arena.CacheAppend | src/algorithms/bfs.ts:30-31 | Caching a new node under its cell keeps nodeHash and the node list in one-to-one agreement. |
| Arena.CacheTag | src/algorithms/bfs.ts:301 | Closing a node keeps the cache consistent. |
| Arena.CacheRelax | src/algorithms/bfs.ts:149-150 | Relaxing a node keeps the cache consistent. |
| Arena.FrontierPop | src/algorithms/bfs.ts:273 | Popping the last index of the current level keeps both levels free of duplicates, and the popped index is in neither any more. |
| Arena.FrontierPush | src/algorithms/bfs.ts:145 | Pushing a newly cached node onto the next level keeps both levels free of duplicates. |
| Arena.TracePush | src/algorithms/bfs.ts:146 | Appending an opened cell to the last trace level keeps the trace equal to the cached cells in caching order. |
| Arena.TraceNewLevel | src/algorithms/bfs.ts:263 | Pushing an empty trace level keeps that agreement. |
| Arena.CacheDistinct | src/algorithms/bfs.ts:18-21 | No cell is cached twice. |
| Arena.TraceDistinct | src/algorithms/bfs.ts:143-146 | No cell is recorded twice in the trace, so no cell is ever pushed onto the next level twice. |
| Arena.SamePositions | src/algorithms/bfs.ts:301 | An update that keeps every node's cell keeps the arena inside the grid and in agreement with the trace. |
| Arena.Ancestry | src/algorithms/bfs.ts:288-292 | Walking parents from a node ends at the start node after finitely many steps, each step following a parent link. |
| Arena.AncestryPrecedes | src/algorithms/bfs.ts:288-292 | Every proper ancestor of a node comes before it in cost-then-time order. |
| Arena.AncestryDistinct | src/algorithms/bfs.ts:288-292 | The parent walk never revisits a node. |
| Arena.PathFacts | src/algorithms/bfs.ts:286-293 | The reported path starts at the start cell, ends at the popped cell, moves in orthogonal unit steps, repeats no cell, uses only cached cells, and is no shorter than the Manhattan distance. |
| Arena.PathAdmitted | src/algorithms/bfs.ts:138-141 | When every cached cell but the start is walkable, in bounds and not avoided, so is every cell of the path after the start. |
| Arena.AdmittedTag | src/algorithms/bfs.ts:301 | Closing a node keeps every cached cell admissible. |
| Arena.AdmittedGrew | src/algorithms/bfs.ts:138-141 | Growth keeps cached cells admissible when the newly opened ones are. |
| Arena.CheckedStep | src/algorithms/bfs.ts:134-154 | After one neighbour check: growth accumulates, new nodes are admissible, no cell leaves the cache, and an admissible neighbour is cached. |
| Arena.CoveredMore | src/algorithms/bfs.ts:303-318 | Once a neighbour is checked, every admissible neighbour checked so far is cached. |
| Arena.RouteLength | src/algorithms/bfs.js:23-27 | A reported route has distinct ends and at least getDistance steps. |
| Steps.Neighbours | src/algorithms/bfs.ts:303-318 | The four cells the engine tries, in the order up, right, down, left: each is an orthogonal neighbour, they are distinct, and none is the cell itself. |
| Steps.Inward | src/algorithms/bfs.ts:303-317 | The edge test before each of the four checks holds exactly when that neighbour lies in the grid. |
| Steps.CoveredNeighbours | src/algorithms/bfs.ts:303-318 | Once the four checks have cached every admissible one of the four cells, every admissible orthogonal neighbour is cached. |
| Steps.CheckedDirection | src/algorithms/bfs.ts:134-154 | The effect of one in-bounds checkAdjacentNode call, stated field by field, is AfterDirection: an avoided or unwalkable cell changes nothing, an uncached cell gets a new open node at the parent's cost plus the tile cost, pushed onto the next level and the last trace level, and a cached one is relaxed. |
| Steps.DirectionsFacts | src/algorithms/bfs.ts:303-318 | After the first k checks, the arena has gained exactly the admissible uncached cells among the first k neighbours, in order, each opened from the current node; the cell table and the trace gained the same cells; every cached admissible neighbour checked was relaxed and no other node changed. |
| Steps.DirectionStep | src/algorithms/bfs.ts:303-318 | One more check keeps that account. |
| Steps.DirectionSkip | src/algorithms/bfs.ts:138-140 | A check on an avoided or unwalkable cell changes nothing. |
| Steps.DirectionOpen | src/algorithms/bfs.ts:141-146 | A check on an admissible uncached cell appends its node to the arena, the next level and the last trace level. |
| Steps.DirectionRelax | src/algorithms/bfs.ts:147-151 | A check on an admissible cached cell relaxes that cell's node and no other. |
| Steps.CloseConsistent | src/algorithms/bfs.ts:301 | Closing a node keeps every cached cell mapped to a node on that cell. |
| Steps.ExpandOpens | src/algorithms/bfs.ts:301-318 | Expanding a node opens exactly its admissible uncached neighbours, in the order up, right, down, left. Each gets the node as parent and the node's cost plus its own tile cost, and is appended in that order to the arena, the next level and the last trace level. The cell table gains exactly those cells and the current level is unchanged. |
| Steps.ExpandRelaxes | src/algorithms/bfs.ts:301-318 | Expanding a node closes it. A cached admissible neighbour takes the node as parent, with the cost through it, exactly when that cost is strictly lower. Every other node keeps its state. |
| Search.Instance.constructor | src/algorithms/instance.ts:19-31 | A new request (made only when start and end differ) avoids no cell and is not done. It caches only the start node (no parent, cost 0), which is the whole current level. The next level is empty. The trace is `[[start], []]` in the typed engine and unset in the older one (`instance.js`). The instance is consistent. |
| Search.Instance.CoordinateToNode | src/algorithms/bfs.ts:16-33 | A cached cell's node is returned and nothing changes. Otherwise a new node is cached and returned, costing the parent's cost plus the step cost, or 0 with no parent. |
| Search.Instance.CheckAdjacentNode | src/algorithms/bfs.ts:134-154 | An avoided or unwalkable neighbour changes nothing. An admissible one is visited. Either way the cache, the levels and the trace stay consistent, and the change is growth. |
| Search.Instance.Visit | src/algorithms/bfs.ts:141-152 | Uncached cell: a new open node, pushed once onto the next level and traced. Cached cell: only cost and parent change, and only when strictly cheaper. |
| Search.Instance.OpenNode | src/algorithms/bfs.ts:143-146 | The new node is tagged open, pushed onto the next level and appended to the last trace level, and every invariant is kept. |
| Search.Instance.Reparent | src/algorithms/bfs.ts:147-151 | The cached node gets the lower cost and the current node as parent, and every invariant is kept. |
| Search.Instance.Promote | src/algorithms/bfs.ts:259-264 | The new state is AfterPromote of the old: a used-up current level is replaced by the next level, which becomes empty, and the typed engine opens an empty trace level. Otherwise nothing changes. |
| Search.Instance.Expand | src/algorithms/bfs.ts:301-318 | The new state is AfterExpand of the old: the node is closed and its four neighbours are checked in order, each only when inside the grid, at the node's cost plus the neighbour's tile cost (so ExpandOpens and ExpandRelaxes apply). Afterwards every admissible neighbour is cached and the invariants hold. |
| Search.Instance.TryDirection | src/algorithms/bfs.ts:303-318 | One guarded neighbour check: the new state is AfterDirection of the old for that neighbour, the invariants hold, and the checked neighbours known to be cached grow by one. |
| Search.Instance.Advance | src/algorithms/bfs.ts:273-318 | The new state is AfterAdvance of the old: the last node of the current level is popped; on the goal nothing else changes and the path is that node's parent chain, a route from start to goal through admissible cells; otherwise the node is closed and expanded. |
| Search.Instance.GoalPath | src/algorithms/bfs.ts:282-296 | The reported path is the parent chain from the start to the goal: a route no shorter than the Manhattan distance, entering only admissible cells. |
| Search.Instance.TracePath | src/algorithms/bfs.ts:286-293 | The loop that follows parents, then reverses, computes exactly the parent chain from the start node. |
| Requests.CheckRequest | src/algorithms/bfs.ts:180-193 | findPath accepts exactly when tiles and grid are set and both points lie inside the grid. The unset-tiles error comes first, then the unset-grid error. A negative coordinate is out of scope whatever the grid; only with all four coordinates non-negative does an empty grid give the no-rows error; every other rejection is out of scope. |
| Requests.IdsRegister | src/algorithms/bfs.ts:224-226 | The next id is new: unused, not live, not queued. Issuing it keeps ids unique and queued once each. |
| Requests.IdsShift | src/algorithms/bfs.ts:268-269 | Removing the queue head keeps the queue duplicate-free, and the head is queued no more. |
| Requests.SettledRegister | src/algorithms/bfs.ts:224-226 | Registering a new id keeps every answered request answered once. |
| Requests.SettledDrop | src/algorithms/bfs.ts:252-256 | Dropping a dead head keeps the answer log settled. |
| Requests.SettledAnswer | src/algorithms/bfs.ts:296-298 | Answering the live head and removing it keeps every request answered at most once. |
| Requests.BooksRegister | src/algorithms/bfs.ts:224-226 | Registering under the next id keeps the books: ids are never reused and every live id is queued. |
| Requests.BooksDrop | src/algorithms/bfs.ts:252-256 | Dropping a head with no live instance keeps the books. |
| Requests.BooksAnswer | src/algorithms/bfs.ts:296-298 | Answering the head with a route, or null, and removing it from table and queue keeps the books. |
| Requests.BooksDeliver | src/algorithms/bfs.ts:196-204 | An immediate answer concerns no request and keeps the books. |
| Requests.LiveRegister | src/algorithms/bfs.ts:224-226 | A new healthy instance under a fresh id joins the live table. |
| Requests.LiveRetire | src/algorithms/bfs.ts:268-269 | Deleting an instance keeps the remaining ones live. |
| Requests.LiveReconfigure | src/algorithms/bfs.ts:75-103 | A new grid or tile list keeps every live instance healthy when its cells lie inside the new grid. |
| Requests.RoutesRegister | src/algorithms/bfs.ts:224-226 | Registering keeps every delivered path a route of its own request. |
| Requests.RoutesAnswer | src/algorithms/bfs.ts:296 | Appending a route of the head's request keeps every delivered path a route. |
| Requests.LiveSplit | src/algorithms/bfs.ts:250-251 | The head's instance is healthy and distinct from every other live instance, which stays live. |
| Requests.LiveJoin | src/algorithms/bfs.ts:250-251 | A healthy instance put back under its id makes the table live again. |
| Requests.Launch | src/algorithms/bfs.ts:207-221 | A new request is in its initial state and, on its own under any id, is a live table. |
| Requests.Served | src/algorithms/bfs.ts:259-318 | What one iteration does to a request: the new state is AfterServe of the old; the request finishes exactly when both levels were empty or the popped node is on the goal; a path is reported exactly when it finishes with a non-empty frontier, and is the popped node's parent chain. |
| Requests.ServedByAdvance | src/algorithms/bfs.ts:259-318 | Swapping in a non-empty level if needed, then popping and advancing, is one iteration as Served states it. |
| Requests.Serve | src/algorithms/bfs.ts:259-318 | The instance is Served: its new state, whether it finished and the path it reports are those of one iteration. A reported path is a route from start to goal, and enters only admissible cells when the instance predates no reconfiguration. |
| Requests.ShortenedStep | src/algorithms/bfs.ts:252-256 | Keeping the queue or shifting its head leaves it a suffix of the queue calculate started with. |
| Requests.ExtendedStep | src/algorithms/bfs.ts:266-298 | An iteration that answers nothing, or answers one request it retires, keeps the log an extension of the old one whose new entries answer requests that were live and are not any more. |
| Requests.Reqs | src/algorithms/bfs.ts:250-251 | The table of live instances seen as values, one entry per live id: its search state, stamps, clock and goal. |
| Requests.ReqsSplit | src/algorithms/bfs.ts:250-251 | That view is the view of the other live requests with the head's entry put back. |
| Requests.Stepped | src/algorithms/bfs.ts:240-319 | One iteration on the engine as a value: a dead head is shifted off and nothing else changes; a live head is served (Served); when it finishes it leaves the queue and the table and gets exactly one log entry, null or its path (with its trace in the typed engine); otherwise the queue and log stay and only the head's entry changes. |
| Requests.Iterations | src/algorithms/bfs.ts:240-319 | Every two consecutive engine values in a trail are one iteration apart (Stepped). |
| Requests.IterationsStep | src/algorithms/bfs.ts:240-319 | One more iteration extends a trail of iterations. |
| Requests.SteppedLive | src/algorithms/bfs.ts:259-298 | Serving the live head, and then retiring it with its answer when it finishes or storing its new state when it does not, is one iteration as Stepped states it. |
| Requests.IterationsKeepBehind | src/algorithms/bfs.ts:240-319 | Over any number of iterations from a queue without duplicates, the queue only loses heads, and every request queued behind the current head that was live at the start is still live with exactly its starting state. |
| Bfs.Engine.constructor | src/algorithms/bfs.ts:57-67 | No grid or tiles, empty cost table, table and queue; the first id is 1; requests are acceptable. |
| Bfs.Engine.SetGrid | src/algorithms/bfs.ts:75-85 | Installs the grid. The new table covers every tile type in the grid with a cost of at least 1, resets missing or 0 entries to 1, and keeps the rest. |
| Bfs.Engine.SetAcceptableTiles | src/algorithms/bfs.ts:94-103 | An array is stored as given, a single tile type as a one-element list. |
| Bfs.Engine.SetTileCost | src/algorithms/bfs.ts:111-113 | Only the given tile type's entry changes. |
| Bfs.Engine.FindPath | src/algorithms/bfs.ts:168-228 | Rejects exactly the requests CheckRequest rejects, changing nothing. Start equal to end delivers an empty path and trace, and no instance is made. Otherwise a fresh instance in its initial state goes under the old next id, at least 1, and is queued last. |
| Bfs.Engine.Deliver | src/algorithms/bfs.ts:196-204 | An immediate callback appends one entry with no id to the log. |
| Bfs.Engine.Register | src/algorithms/bfs.ts:224-227 | The returned id is the old counter, not in use, and the counter moves past it. The instance is stored under it and the id queued last. |
| Bfs.Engine.Step | src/algorithms/bfs.ts:259-318 | The live request is Served. Its answer carries the reported path and the instance's trace, which starts with the start cell, lists every cached cell in caching order and repeats none. Table, queue and log are unchanged. |
| Bfs.Engine.Tick | src/algorithms/bfs.ts:250-318 | Ticked: the head is Served. When it finishes, it leaves table and queue and gets exactly one log entry: null when both levels were empty, else its path with the trace. Otherwise table, queue and log are unchanged. No other instance changes. |
| Bfs.Engine.Turn | src/algorithms/bfs.ts:250-318 | Tick, and the value view (Reqs) of every other live request is what it was. |
| Bfs.Engine.Drop | src/algorithms/bfs.ts:252-256 | A head with no live instance leaves the queue without a callback. |
| Bfs.Engine.Retire | src/algorithms/bfs.ts:296-298 | The head gets its answer and is removed from both the table and the queue. |
| Bfs.Engine.Iterate | src/algorithms/bfs.ts:240-319 | A dead head is shifted off and nothing else changes. A live head is Ticked, finishing exactly when the log grows, with the new entry as its answer. No other instance changes. The engine before and after, as values, are one iteration apart (Stepped). |
| Bfs.Engine.Pass | src/algorithms/bfs.ts:240-319 | Iterate, extending a trail of iterations by the engine's new value. |
| Bfs.Engine.Calculate | src/algorithms/bfs.ts:234-320 | Does nothing without a queued request, a grid and walkable tiles. Otherwise it runs `spent` iterations, at most the budget and fewer only when the queue runs empty, and `trail` lists the engine's value before and after each: consecutive values are one iteration apart (Stepped), so each iteration serves the head as Served states. The queue only loses heads. The log only grows, each new entry answering a request that was live and is no more. No request is added, and every request queued behind the final head keeps its starting state. |
| BfsLegacy.Engine.constructor | src/algorithms/bfs.js:110-120 | Same initial state as the typed engine; the iteration counter is unset. |
| BfsLegacy.Engine.SetGrid | src/algorithms/bfs.js:128-139 | Same cost seeding as the typed engine. |
| BfsLegacy.Engine.SetAcceptableTiles | src/algorithms/bfs.js:148-156 | An array is stored, a number wrapped in a list. Any other argument leaves the tiles unchanged. |
| BfsLegacy.Engine.SetTileCost | src/algorithms/bfs.js:164-166 | Only the given tile type's entry changes. |
| BfsLegacy.Engine.FindPath | src/algorithms/bfs.js:216-275 | Same checks and registration as the typed engine, with no trace. Start equal to end delivers the bare empty path. |
| BfsLegacy.Engine.Deliver | src/algorithms/bfs.js:243-252 | An immediate callback appends one entry with no id to the log. |
| BfsLegacy.Engine.Register | src/algorithms/bfs.js:270-274 | The old counter becomes the new, unused id; the instance is stored under it and queued last. |
| BfsLegacy.Engine.Step | src/algorithms/bfs.js:308-355 | The live request is Served (with no trace); table, queue and log are unchanged. |
| BfsLegacy.Engine.Tick | src/algorithms/bfs.js:299-355 | Ticked, as in the typed engine, delivering the bare path. No other instance changes. |
| BfsLegacy.Engine.Turn | src/algorithms/bfs.js:299-355 | Tick, and the value view (Reqs) of every other live request is what it was. |
| BfsLegacy.Engine.Drop | src/algorithms/bfs.js:301-305 | A head with no live instance leaves the queue without a callback. |
| BfsLegacy.Engine.Retire | src/algorithms/bfs.js:334-336 | The head gets its answer and is removed from the table and the queue. |
| BfsLegacy.Engine.Iterate | src/algorithms/bfs.js:289-356 | A dead head is shifted off and nothing else changes; a live head is Ticked, finishing exactly when the log grows. No other instance changes. The engine before and after, as values, are one iteration apart (Stepped, with no trace). |
| BfsLegacy.Engine.Pass | src/algorithms/bfs.js:289-356 | Iterate, extending a trail of iterations by the engine's new value. |
| BfsLegacy.Engine.Count | src/algorithms/bfs.js:289 | Setting the iteration counter field changes nothing else. |
| BfsLegacy.Engine.Calculate | src/algorithms/bfs.js:283-357 | Does nothing (the counter field included) without a queued request, grid and tiles. Otherwise the counter field ends at the number of iterations run, at most the budget and below it only when the queue is empty, and `trail` lists the engine's value before and after each, consecutive values one iteration apart (Stepped); queue, log, table and the requests behind the head as in the typed engine. |
| BfsLegacy.Engine.Run | src/algorithms/bfs.js:289-357 | The loop of calculate: `spent` iterations, at most the budget and fewer only on an empty queue, each one iteration as Stepped states, with the same guarantees on queue, log, table and the requests behind the head. |

## Left out

- Callback delivery through `setTimeout` and the `syncEnabled` flag: every callback is an entry appended to the `delivered` log, in call order. No operation sets `syncEnabled`, so the sync-mode counter reset in `calculate` never runs and is not modelled.
- BfsLegacy.Engine.FindPath: the older engine's callback wrapper is a plain `function` that reads `this.syncEnabled`. findPath's immediate answers call it bare (bfs.js:245, bfs.js:250), so in a module `this` is undefined there and the wrapper throws a TypeError instead of calling back. The model delivers those answers as the typed engine does. In calculate the wrapper is called as the instance's method (bfs.js:314, bfs.js:334), so `this` is the instance and the callback is delivered, as the model's Tick does.
- Bfs.Engine.Calculate, BfsLegacy.Engine.Calculate: `iterationsPerCalculation` is `Number.MAX_VALUE` and no operation changes it. The model takes the iteration budget as a `nat` parameter.
- Bfs.Engine.Calculate, BfsLegacy.Engine.Calculate: that the requests queued behind the final head are untouched is stated on their values (search state, stamps, clock and goal, which are every field an iteration can change), not as object identity.
- BfsLegacy.Engine.Calculate: the older engine keeps its counter in a field. The model counts in `Run` and writes the field once the loop ends; nothing reads the field while the loop runs.
- Floating point: `STRAIGHT_COST` is 1.0 and costs are integers, so the multiplication is left out. Non-integer coordinates and fractional costs are not modelled.
- Bfs.Engine.SetTileCost, BfsLegacy.Engine.SetTileCost: require the cost to be non-negative. The source accepts any number. A negative cost can make a parent link point at a node's own descendant, and the path walk then never ends.
- Bfs.Engine.SetGrid, BfsLegacy.Engine.SetGrid: require every live request's cached cells to lie inside the new grid. In the source, a grid with fewer rows makes a later expansion read a row that is not there, which throws a TypeError. A grid with fewer columns is survived: getTileCost returns undefined there, isTileWalkable answers false, and the search goes on (bfs.ts:36-43, bfs.ts:303-317). The model does not cover either case.
- Requests.CheckRequest: the source has no explicit check for a grid with no rows. Its width test reads `grid[0].length` and fails with a type error. The model gives that case its own error, `NoRows`.
- Ragged grids: every grid is rectangular, a precondition, because the engine reads the width from row 0.
- `pointsToAvoid`: no operation ever adds a cell, so it is a constant empty set. The avoid test of `checkAdjacentNode` is modelled all the same.
- `isDoneCalculating`: set when a request is made and never read. The older `Instance` constructor leaves it unset and the older `findPath` sets it; the model sets it in the constructor in both engines.
- The object graph of nodes: nodes are arena entries and parent links are indices, not shared object references.
- The unreachable `!searchNode` guard and the `console.log` calls are not modelled. The `directionMap` constants are modelled only as the `Direction` datatype.
- `setAcceptableTiles` in the older engine also accepts numeric strings, which it stores as strings. The model's single tile is an integer.
- Search.Instance.Expand: the four guarded `checkAdjacentNode` calls are written as one loop over the offsets up, right, down, left, in the source's order.
- Optimality: the model proves no optimality result. Under varying tile costs the level-order search is not cost-optimal, and under uniform costs the model proves that a path is never shorter than the Manhattan distance but not that it equals it.
- Termination of a whole search across calls is not proved. Each `calculate` is bounded by its budget, and walking parents to rebuild a path is proved to end.
- `src/game.ts`, `src/game.js` and `src/index.js`: rendering, scene setup and input handling are not part of this model.
