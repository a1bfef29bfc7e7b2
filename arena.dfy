/**
  The node arena of one search, as values: the invariants that tie the node list,
  the cell-to-node table, the frontiers and the trace together, and the lemmas that
  each step of the search keeps them. The class in instance.dfy applies these to its fields.
*/
module Arena {
  import opened Wrappers
  import opened Grid
  import opened Nodes

  predicate NoDup<T(==)>(s: seq<T>) {
    forall i, j :: 0 <= i < j < |s| ==> s[i] != s[j]
  }

  function Positions(nodes: seq<Node>): (ps: seq<Point>)
    ensures |ps| == |nodes|
    ensures forall i :: 0 <= i < |nodes| ==> ps[i] == nodes[i].Pos()
  {
    seq(|nodes|, i requires 0 <= i < |nodes| => nodes[i].Pos())
  }

  /** The trace levels laid end to end. */
  function Flatten(levels: seq<seq<Point>>): seq<Point> {
    if levels == [] then [] else Flatten(levels[..|levels| - 1]) + levels[|levels| - 1]
  }

  /** The indices lo, lo+1, ..., hi-1. */
  function Range(lo: nat, hi: nat): (r: seq<nat>)
    requires lo <= hi
    ensures |r| == hi - lo && forall k :: 0 <= k < |r| ==> r[k] == lo + k
  {
    seq(hi - lo, k requires 0 <= k < hi - lo => lo + k)
  }

  function Reversed<T>(s: seq<T>): (r: seq<T>)
    ensures |r| == |s|
    ensures forall k :: 0 <= k < |s| ==> r[k] == s[|s| - 1 - k]
  {
    if s == [] then [] else [s[|s| - 1]] + Reversed(s[..|s| - 1])
  }

  lemma ReversedChain(s: seq<Point>)
    requires Chained(s) && NoDup(s)
    ensures Chained(Reversed(s)) && NoDup(Reversed(s))
  {
    var r := Reversed(s);
    forall k | 0 <= k < |r| - 1 ensures Adjacent(r[k], r[k + 1]) {
      assert r[k] == s[|s| - 1 - k] && r[k + 1] == s[|s| - 2 - k];
      assert Adjacent(s[|s| - 2 - k], s[|s| - 1 - k]);
    }
  }

  /** Appends ps to the last trace level. */
  function PushLast(levels: seq<seq<Point>>, ps: seq<Point>): (r: seq<seq<Point>>)
    requires |levels| >= 1
    ensures |r| == |levels| && r[..|r| - 1] == levels[..|levels| - 1] && r[|r| - 1] == levels[|levels| - 1] + ps
  {
    levels[..|levels| - 1] + [levels[|levels| - 1] + ps]
  }

  lemma PushLastTwice(levels: seq<seq<Point>>, a: seq<Point>, b: seq<Point>)
    requires |levels| >= 1
    ensures PushLast(PushLast(levels, a), b) == PushLast(levels, a + b)
  {
    var n := |levels|;
    assert levels[n - 1] + a + b == levels[n - 1] + (a + b);
  }

  lemma PushLastNothing(levels: seq<seq<Point>>)
    requires |levels| >= 1
    ensures PushLast(levels, []) == levels
  {
    var n := |levels|;
    assert levels[n - 1] + [] == levels[n - 1];
    assert levels[..n - 1] + [levels[n - 1]] == levels;
  }

  lemma FlattenPushLast(levels: seq<seq<Point>>, ps: seq<Point>)
    requires |levels| >= 1
    ensures Flatten(PushLast(levels, ps)) == Flatten(levels) + ps
  {
    var n := |levels|;
    var l2 := PushLast(levels, ps);
    assert l2[..n - 1] == levels[..n - 1];
  }

  lemma FlattenPushEmpty(levels: seq<seq<Point>>)
    ensures Flatten(levels + [[]]) == Flatten(levels)
  {
    assert (levels + [[]])[..|levels|] == levels;
  }

  lemma PositionsAppend(nodes: seq<Node>, more: seq<Node>)
    ensures Positions(nodes + more) == Positions(nodes) + Positions(more)
  {
  }

  /** b is a, or a with a strictly lower cost reached through node `from`. */
  ghost predicate Relaxed(a: Node, b: Node, from: nat) {
    b == a || (b == a.(costSoFar := b.costSoFar, parent := Some(from)) && b.costSoFar < a.costSoFar)
  }

  /** Newly cached nodes: open neighbours of `from`, discovered through it. */
  ghost predicate Fresh(origin: Point, added: seq<Node>, from: nat) {
    forall i :: 0 <= i < |added| ==>
      added[i].parent == Some(from) && added[i].list == Open && Adjacent(origin, added[i].Pos())
  }

  /**
    The effect of examining neighbours of node `from` (arena n0, next frontier nl0,
    trace cl0) yielding n1, nl1, cl1: old nodes keep their cell and tag and at most
    lose cost by being re-parented to `from`; new nodes are open neighbours of `from`,
    pushed onto the next frontier once each and recorded at the end of the last trace level.
  */
  ghost predicate Grew(n0: seq<Node>, nl0: seq<nat>, cl0: seq<seq<Point>>,
                       n1: seq<Node>, nl1: seq<nat>, cl1: seq<seq<Point>>, from: nat, traced: bool)
  {
    && from < |n0| <= |n1| && n1[from] == n0[from]
    && (forall i :: 0 <= i < |n0| ==> Relaxed(n0[i], n1[i], from))
    && Fresh(n0[from].Pos(), n1[|n0|..], from)
    && nl1 == nl0 + Range(|n0|, |n1|)
    && (traced ==> |cl0| >= 1 && cl1 == PushLast(cl0, Positions(n1[|n0|..])))
    && (!traced ==> cl1 == cl0)
  }

  /**
    The effect of looking at an admissible neighbour q of node `from`, reached at total
    cost c: an uncached q gets a new open node, pushed onto the next frontier and traced;
    a cached q keeps its node, which takes `from` as parent only when c is strictly cheaper.
  */
  ghost predicate Visited(n0: seq<Node>, h0: map<Point, nat>, nl0: seq<nat>, cl0: seq<seq<Point>>,
                          n1: seq<Node>, h1: map<Point, nat>, nl1: seq<nat>, cl1: seq<seq<Point>>,
                          q: Point, from: nat, c: int, traced: bool)
  {
    if q !in h0 then
      && n1 == n0 + [Node(Some(from), q.x, q.y, c, Open)]
      && nl1 == nl0 + [|n0|]
      && (traced ==> |cl0| >= 1 && cl1 == PushLast(cl0, [q]))
      && (!traced ==> cl1 == cl0)
      && h1 == h0[q := |n0|]
    else
      && nl1 == nl0 && cl1 == cl0 && h1 == h0 && h0[q] < |n0|
      && n1 == if c < n0[h0[q]].costSoFar
               then n0[h0[q] := n0[h0[q]].(costSoFar := c, parent := Some(from))]
               else n0
  }

  /**
    The effect of checkAdjacentNode on neighbour q of node `from`: growth, which is a visit
    of q at total cost c when q is admissible and no change at all otherwise.
  */
  ghost predicate Checked(n0: seq<Node>, h0: map<Point, nat>, nl0: seq<nat>, cl0: seq<seq<Point>>,
                          n1: seq<Node>, h1: map<Point, nat>, nl1: seq<nat>, cl1: seq<seq<Point>>,
                          q: Point, from: nat, c: int, traced: bool, admissible: bool)
  {
    && Grew(n0, nl0, cl0, n1, nl1, cl1, from, traced)
    && if admissible then Visited(n0, h0, nl0, cl0, n1, h1, nl1, cl1, q, from, c, traced)
       else n1 == n0 && nl1 == nl0 && cl1 == cl0 && h1 == h0
  }

  lemma GrewRefl(n0: seq<Node>, nl0: seq<nat>, cl0: seq<seq<Point>>, from: nat, traced: bool)
    requires from < |n0| && (traced ==> |cl0| >= 1)
    ensures Grew(n0, nl0, cl0, n0, nl0, cl0, from, traced)
  {
    assert nl0 + Range(|n0|, |n0|) == nl0;
    if traced {
      assert Positions(n0[|n0|..]) == [];
      PushLastNothing(cl0);
    }
  }

  lemma RelaxedTrans(a: Node, b: Node, c: Node, from: nat)
    requires Relaxed(a, b, from) && Relaxed(b, c, from)
    ensures Relaxed(a, c, from)
  {
  }

  lemma FreshTrans(n1: seq<Node>, n2: seq<Node>, n0len: nat, origin: Point, from: nat)
    requires n0len <= |n1| <= |n2|
    requires Fresh(origin, n1[n0len..], from) && Fresh(origin, n2[|n1|..], from)
    requires forall i :: 0 <= i < |n1| ==> Relaxed(n1[i], n2[i], from)
    ensures Fresh(origin, n2[n0len..], from)
    ensures Positions(n2[n0len..]) == Positions(n1[n0len..]) + Positions(n2[|n1|..])
  {
    forall i | n0len <= i < |n2|
      ensures n2[i].parent == Some(from) && n2[i].list == Open && Adjacent(origin, n2[i].Pos())
    {
      if i < |n1| {
        assert n1[n0len..][i - n0len] == n1[i];
        assert Relaxed(n1[i], n2[i], from);
      } else {
        assert n2[|n1|..][i - |n1|] == n2[i];
      }
    }
    assert n2[n0len..] == n2[n0len..|n1|] + n2[|n1|..];
    PositionsAppend(n2[n0len..|n1|], n2[|n1|..]);
    forall k | 0 <= k < |n1| - n0len ensures n2[n0len..|n1|][k].Pos() == n1[n0len..][k].Pos() {
      assert Relaxed(n1[n0len + k], n2[n0len + k], from);
    }
  }

  lemma GrewTrans(n0: seq<Node>, nl0: seq<nat>, cl0: seq<seq<Point>>,
                  n1: seq<Node>, nl1: seq<nat>, cl1: seq<seq<Point>>,
                  n2: seq<Node>, nl2: seq<nat>, cl2: seq<seq<Point>>, from: nat, traced: bool)
    requires Grew(n0, nl0, cl0, n1, nl1, cl1, from, traced)
    requires Grew(n1, nl1, cl1, n2, nl2, cl2, from, traced)
    ensures Grew(n0, nl0, cl0, n2, nl2, cl2, from, traced)
  {
    assert Range(|n0|, |n1|) + Range(|n1|, |n2|) == Range(|n0|, |n2|);
    forall i | 0 <= i < |n0| ensures Relaxed(n0[i], n2[i], from) {
      RelaxedTrans(n0[i], n1[i], n2[i], from);
    }
    FreshTrans(n1, n2, |n0|, n0[from].Pos(), from);
    if traced {
      PushLastTwice(cl0, Positions(n1[|n0|..]), Positions(n2[|n1|..]));
    }
  }

  /**
    Node j precedes node i: a lower cost, or an equal cost and an earlier parent
    assignment (ss holds the time each node last got its parent).
  */
  ghost predicate Precedes(ns: seq<Node>, ss: seq<nat>, j: nat, i: nat)
    requires j < |ns| && i < |ns| && |ss| == |ns|
  {
    ns[j].costSoFar < ns[i].costSoFar || (ns[j].costSoFar == ns[i].costSoFar && ss[j] < ss[i])
  }

  /** Only the first node is a root; every other node's parent is an adjacent node that precedes it. */
  ghost predicate LinkOk(ns: seq<Node>, ss: seq<nat>, i: nat)
    requires i < |ns| && |ss| == |ns|
  {
    match ns[i].parent
    case None => i == 0
    case Some(j) => j < |ns| && Adjacent(ns[j].Pos(), ns[i].Pos()) && Precedes(ns, ss, j, i)
  }

  ghost predicate Linked(ns: seq<Node>, ss: seq<nat>)
    requires |ss| == |ns|
  {
    forall i :: 0 <= i < |ns| ==> LinkOk(ns, ss, i)
  }

  /** Appending a node whose parent is an existing adjacent node, at no lower cost and a later time, keeps the links. */
  lemma AppendKeepsLinks(ns: seq<Node>, ss: seq<nat>, n: Node, t: nat)
    requires |ss| == |ns| && Linked(ns, ss) && forall k :: 0 <= k < |ss| ==> ss[k] < t
    requires n.parent.None? ==> ns == []
    requires n.parent.Some? ==> (n.parent.value < |ns| && Adjacent(ns[n.parent.value].Pos(), n.Pos())
                               && ns[n.parent.value].costSoFar <= n.costSoFar)
    ensures Linked(ns + [n], ss + [t])
  {
    var ns', ss' := ns + [n], ss + [t];
    forall i | 0 <= i < |ns'| ensures LinkOk(ns', ss', i) {
      if i < |ns| {
        assert LinkOk(ns, ss, i);
        assert ns'[i] == ns[i];
        match ns[i].parent
        case None =>
        case Some(j) => assert ns'[j] == ns[j] && ss'[j] == ss[j] && ss'[i] == ss[i];
      }
    }
  }

  /** Changing only membership tags keeps the links. */
  lemma TagKeepsLinks(ns: seq<Node>, ss: seq<nat>, idx: nat, m: Membership)
    requires |ss| == |ns| && Linked(ns, ss) && idx < |ns|
    ensures Linked(ns[idx := ns[idx].(list := m)], ss)
  {
    var ns' := ns[idx := ns[idx].(list := m)];
    forall i | 0 <= i < |ns'| ensures LinkOk(ns', ss, i) {
      assert LinkOk(ns, ss, i);
    }
  }

  /**
    The acyclicity step: re-parenting node idx to its neighbour `from` at a strictly
    lower cost c (no lower than from's own) and a fresh time t keeps every parent
    preceding its child, including the former children of idx, whose parent only got cheaper.
  */
  lemma RelaxKeepsLinks(ns: seq<Node>, ss: seq<nat>, idx: nat, from: nat, c: int, t: nat)
    requires |ss| == |ns| && Linked(ns, ss) && forall k :: 0 <= k < |ss| ==> ss[k] < t
    requires idx < |ns| && from < |ns| && Adjacent(ns[from].Pos(), ns[idx].Pos())
    requires ns[from].costSoFar <= c < ns[idx].costSoFar
    ensures Linked(ns[idx := ns[idx].(costSoFar := c, parent := Some(from))], ss[idx := t])
  {
    var ns', ss' := ns[idx := ns[idx].(costSoFar := c, parent := Some(from))], ss[idx := t];
    assert from != idx;
    forall i | 0 <= i < |ns'| ensures LinkOk(ns', ss', i) {
      assert LinkOk(ns, ss, i);
      if i != idx {
        match ns[i].parent
        case None =>
        case Some(j) =>
          assert Precedes(ns, ss, j, i);
      }
    }
  }

  /** Costs are non-negative and every parent link is sound, so following parents always ends at node 0. */
  ghost predicate Rooted(ns: seq<Node>, ss: seq<nat>) {
    && |ss| == |ns|
    && (forall i :: 0 <= i < |ns| ==> ns[i].costSoFar >= 0)
    && Linked(ns, ss)
  }

  /** nodeHash and the arena agree, one node per cached cell, every time stamp is in the past and links are sound. */
  ghost predicate CacheOf(ns: seq<Node>, ss: seq<nat>, clock: nat, hash: map<Point, nat>) {
    && |ss| == |ns|
    && (forall p :: p in hash ==> hash[p] < |ns| && ns[hash[p]].Pos() == p)
    && (forall i :: 0 <= i < |ns| ==> ns[i].Pos() in hash && hash[ns[i].Pos()] == i)
    && (forall i :: 0 <= i < |ns| ==> ss[i] < clock)
    && Rooted(ns, ss)
  }

  /** Both frontiers hold arena indices, and no index is in them twice. */
  ghost predicate FrontierOf(ol: seq<nat>, nl: seq<nat>, n: nat) {
    && (forall k :: 0 <= k < |ol| ==> ol[k] < n)
    && (forall k :: 0 <= k < |nl| ==> nl[k] < n)
    && NoDup(ol + nl)
  }

  /** Popping the last index of the current frontier keeps the frontiers well formed. */
  lemma FrontierPop(ol: seq<nat>, nl: seq<nat>, n: nat)
    requires FrontierOf(ol, nl, n) && ol != []
    ensures FrontierOf(ol[..|ol| - 1], nl, n)
    ensures ol[|ol| - 1] !in ol[..|ol| - 1] + nl
  {
    var m := |ol| - 1;
    assert ol + nl == ol[..m] + [ol[m]] + nl;
    forall i, j | 0 <= i < j < |ol[..m] + nl| ensures (ol[..m] + nl)[i] != (ol[..m] + nl)[j] {
      var i', j' := if i < m then i else i + 1, if j < m then j else j + 1;
      assert (ol[..m] + nl)[i] == (ol + nl)[i'] && (ol[..m] + nl)[j] == (ol + nl)[j'];
    }
    forall k | 0 <= k < |ol[..m] + nl| ensures (ol[..m] + nl)[k] != ol[m] {
      var k' := if k < m then k else k + 1;
      assert (ol[..m] + nl)[k] == (ol + nl)[k'] && ol[m] == (ol + nl)[m];
    }
  }

  /** The trace starts with the start cell alone and, laid end to end, lists the cached cells in caching order. */
  ghost predicate TraceOf(traced: bool, cl: seq<seq<Point>>, ns: seq<Node>, start: Point) {
    && (traced ==> |cl| >= 2 && cl[0] == [start] && Flatten(cl) == Positions(ns))
    && (!traced ==> cl == [])
  }

  ghost predicate InsideOf(ns: seq<Node>, w: int, h: int) {
    forall i :: 0 <= i < |ns| ==> Within(ns[i].Pos(), w, h)
  }

  ghost predicate TaggedOf(ns: seq<Node>) {
    forall i :: 0 <= i < |ns| ==> ns[i].list != Unvisited
  }

  lemma CacheAppend(ns: seq<Node>, ss: seq<nat>, clock: nat, hash: map<Point, nat>, n: Node)
    requires CacheOf(ns, ss, clock, hash) && n.Pos() !in hash && n.costSoFar >= 0
    requires n.parent.None? ==> ns == []
    requires n.parent.Some? ==> (n.parent.value < |ns| && Adjacent(ns[n.parent.value].Pos(), n.Pos())
                               && ns[n.parent.value].costSoFar <= n.costSoFar)
    ensures CacheOf(ns + [n], ss + [clock], clock + 1, hash[n.Pos() := |ns|])
  {
    AppendKeepsLinks(ns, ss, n, clock);
    var ns' := ns + [n];
    forall i | 0 <= i < |ns'| ensures ns'[i].Pos() in hash[n.Pos() := |ns|] && hash[n.Pos() := |ns|][ns'[i].Pos()] == i {
      if i < |ns| {
        assert ns'[i] == ns[i];
      }
    }
  }

  lemma CacheTag(ns: seq<Node>, ss: seq<nat>, clock: nat, hash: map<Point, nat>, idx: nat, m: Membership)
    requires CacheOf(ns, ss, clock, hash) && idx < |ns|
    ensures CacheOf(ns[idx := ns[idx].(list := m)], ss, clock, hash)
  {
    TagKeepsLinks(ns, ss, idx, m);
  }

  lemma CacheRelax(ns: seq<Node>, ss: seq<nat>, clock: nat, hash: map<Point, nat>, idx: nat, from: nat, c: int)
    requires CacheOf(ns, ss, clock, hash)
    requires idx < |ns| && from < |ns| && Adjacent(ns[from].Pos(), ns[idx].Pos())
    requires ns[from].costSoFar <= c < ns[idx].costSoFar
    ensures CacheOf(ns[idx := ns[idx].(costSoFar := c, parent := Some(from))], ss[idx := clock], clock + 1, hash)
  {
    RelaxKeepsLinks(ns, ss, idx, from, c, clock);
  }

  lemma FrontierPush(ol: seq<nat>, nl: seq<nat>, n: nat)
    requires FrontierOf(ol, nl, n)
    ensures FrontierOf(ol, nl + [n], n + 1)
  {
    assert ol + (nl + [n]) == (ol + nl) + [n];
  }

  lemma TracePush(traced: bool, cl: seq<seq<Point>>, ns: seq<Node>, start: Point, n: Node)
    requires TraceOf(traced, cl, ns, start)
    ensures TraceOf(traced, if traced then PushLast(cl, [n.Pos()]) else cl, ns + [n], start)
  {
    if traced {
      FlattenPushLast(cl, [n.Pos()]);
      PositionsAppend(ns, [n]);
    }
  }

  lemma TraceNewLevel(traced: bool, cl: seq<seq<Point>>, ns: seq<Node>, start: Point)
    requires TraceOf(traced, cl, ns, start) && traced
    ensures TraceOf(traced, cl + [[]], ns, start)
  {
    FlattenPushEmpty(cl);
  }

  /** Distinct arena indices hold distinct cells. */
  lemma CacheDistinct(ns: seq<Node>, ss: seq<nat>, clock: nat, hash: map<Point, nat>)
    requires CacheOf(ns, ss, clock, hash)
    ensures NoDup(Positions(ns))
  {
    var ps := Positions(ns);
    forall i, j | 0 <= i < j < |ps| ensures ps[i] != ps[j] {
      assert hash[ns[i].Pos()] == i && hash[ns[j].Pos()] == j;
    }
  }

  /** The trace never lists a cell twice: each cell is pushed onto a frontier at most once. */
  lemma TraceDistinct(traced: bool, cl: seq<seq<Point>>, ns: seq<Node>, start: Point,
                      ss: seq<nat>, clock: nat, hash: map<Point, nat>)
    requires TraceOf(traced, cl, ns, start) && CacheOf(ns, ss, clock, hash)
    ensures NoDup(Flatten(cl))
  {
    CacheDistinct(ns, ss, clock, hash);
  }

  /** Caching a new open neighbour of `from`, pushed onto the next frontier and traced, is growth. */
  lemma GrewOpen(n0: seq<Node>, nl0: seq<nat>, cl0: seq<seq<Point>>, from: nat, traced: bool, n: Node)
    requires from < |n0| && n.parent == Some(from) && n.list == Open && Adjacent(n0[from].Pos(), n.Pos())
    requires traced ==> |cl0| >= 1
    ensures Grew(n0, nl0, cl0, n0 + [n], nl0 + [|n0|], if traced then PushLast(cl0, [n.Pos()]) else cl0, from, traced)
  {
    var n1 := n0 + [n];
    assert n1[|n0|..] == [n];
    assert Positions(n1[|n0|..]) == [n.Pos()];
    assert Range(|n0|, |n0| + 1) == [|n0|];
    forall i | 0 <= i < |n0| ensures Relaxed(n0[i], n1[i], from) {
      assert n1[i] == n0[i];
    }
  }

  /** Giving cached node idx the strictly lower cost c through `from` is growth. */
  lemma GrewRelax(n0: seq<Node>, nl0: seq<nat>, cl0: seq<seq<Point>>, from: nat, traced: bool, idx: nat, c: int)
    requires from < |n0| && idx < |n0| && idx != from && c < n0[idx].costSoFar
    requires traced ==> |cl0| >= 1
    ensures Grew(n0, nl0, cl0, n0[idx := n0[idx].(costSoFar := c, parent := Some(from))], nl0, cl0, from, traced)
  {
    var n1 := n0[idx := n0[idx].(costSoFar := c, parent := Some(from))];
    assert n1[|n0|..] == [];
    assert Range(|n0|, |n0|) == [];
    assert nl0 + [] == nl0;
    if traced {
      PushLastNothing(cl0);
    }
  }

  lemma InsideAppend(ns: seq<Node>, w: int, h: int, n: Node)
    requires InsideOf(ns, w, h) && Within(n.Pos(), w, h)
    ensures InsideOf(ns + [n], w, h)
  {
    assert forall i :: 0 <= i < |ns| ==> (ns + [n])[i] == ns[i];
  }

  /** An update that keeps every node's cell keeps the arena inside the grid and the trace. */
  lemma SamePositions(ns: seq<Node>, ns': seq<Node>, w: int, h: int, traced: bool, cl: seq<seq<Point>>, start: Point)
    requires |ns'| == |ns| && forall i :: 0 <= i < |ns| ==> ns'[i].Pos() == ns[i].Pos()
    ensures InsideOf(ns, w, h) ==> InsideOf(ns', w, h)
    ensures TraceOf(traced, cl, ns, start) ==> TraceOf(traced, cl, ns', start)
  {
    assert Positions(ns') == Positions(ns);
  }

  /** Node indices from the root to t, following parent links. */
  ghost function Ancestry(ns: seq<Node>, ss: seq<nat>, t: nat): (a: seq<nat>)
    requires Rooted(ns, ss) && t < |ns|
    ensures |a| >= 1 && a[0] == 0 && a[|a| - 1] == t
    ensures forall k :: 0 <= k < |a| ==> a[k] < |ns|
    ensures forall k :: 0 <= k < |a| - 1 ==> ns[a[k + 1]].parent == Some(a[k])
    decreases ns[t].costSoFar, ss[t]
  {
    assert LinkOk(ns, ss, t);
    match ns[t].parent
    case None => [t]
    case Some(j) => Ancestry(ns, ss, j) + [t]
  }

  /** Every proper ancestor of t precedes t. */
  lemma {:induction false} AncestryPrecedes(ns: seq<Node>, ss: seq<nat>, t: nat)
    requires Rooted(ns, ss) && t < |ns|
    ensures forall k :: 0 <= k < |Ancestry(ns, ss, t)| - 1 ==> Precedes(ns, ss, Ancestry(ns, ss, t)[k], t)
    decreases ns[t].costSoFar, ss[t]
  {
    assert LinkOk(ns, ss, t);
    match ns[t].parent
    case None =>
    case Some(j) =>
      AncestryPrecedes(ns, ss, j);
      var aj := Ancestry(ns, ss, j);
      assert Ancestry(ns, ss, t) == aj + [t];
      forall k | 0 <= k < |aj| ensures Precedes(ns, ss, aj[k], t) {
        if k < |aj| - 1 {
          assert Precedes(ns, ss, aj[k], j);
        }
      }
  }

  /** Following parents never revisits a node. */
  lemma {:induction false} AncestryDistinct(ns: seq<Node>, ss: seq<nat>, t: nat)
    requires Rooted(ns, ss) && t < |ns|
    ensures NoDup(Ancestry(ns, ss, t))
    decreases ns[t].costSoFar, ss[t]
  {
    assert LinkOk(ns, ss, t);
    match ns[t].parent
    case None =>
    case Some(j) =>
      AncestryDistinct(ns, ss, j);
      AncestryPrecedes(ns, ss, t);
      assert Ancestry(ns, ss, t) == Ancestry(ns, ss, j) + [t];
  }

  /** The cells of the given arena indices, in order. */
  function Trail(ns: seq<Node>, a: seq<nat>): (p: seq<Point>)
    requires forall k :: 0 <= k < |a| ==> a[k] < |ns|
    ensures |p| == |a| && forall k :: 0 <= k < |a| ==> p[k] == ns[a[k]].Pos()
  {
    seq(|a|, k requires 0 <= k < |a| => ns[a[k]].Pos())
  }

  /** The path the search reports for node t: the cells from the root to t along parent links. */
  ghost function PathTo(ns: seq<Node>, ss: seq<nat>, t: nat): seq<Point>
    requires Rooted(ns, ss) && t < |ns|
  {
    Trail(ns, Ancestry(ns, ss, t))
  }

  /**
    The reported path runs from the start cell to t's cell in orthogonal unit steps,
    never visits a cell twice, consists of cached cells and is never shorter than the
    Manhattan distance between its ends.
  */
  lemma PathFacts(ns: seq<Node>, ss: seq<nat>, clock: nat, hash: map<Point, nat>, t: nat)
    requires CacheOf(ns, ss, clock, hash) && t < |ns|
    ensures var p := PathTo(ns, ss, t);
      && |p| >= 1 && p[0] == ns[0].Pos() && p[|p| - 1] == ns[t].Pos()
      && Chained(p) && NoDup(p)
      && (forall k :: 0 <= k < |p| ==> p[k] in hash && hash[p[k]] < |ns|)
      && |p| - 1 >= Distance(p[0], p[|p| - 1])
  {
    var a := Ancestry(ns, ss, t);
    var p := PathTo(ns, ss, t);
    forall k | 0 <= k < |p| - 1 ensures Adjacent(p[k], p[k + 1]) {
      assert LinkOk(ns, ss, a[k + 1]);
    }
    AncestryDistinct(ns, ss, t);
    forall i, j | 0 <= i < j < |p| ensures p[i] != p[j] {
      assert hash[ns[a[i]].Pos()] == a[i] && hash[ns[a[j]].Pos()] == a[j];
    }
    ChainAtLeastDistance(p);
  }

  /** A cell the search may enter: inside the grid, walkable and not avoided. */
  ghost predicate Admissible(g: TileGrid, tiles: seq<int>, avoid: set<Point>, p: Point) {
    Rectangular(g) && InBounds(g, p) && Walkable(g, tiles, p) && p !in avoid
  }

  ghost predicate AdmittedOf(ns: seq<Node>, lo: nat, g: TileGrid, tiles: seq<int>, avoid: set<Point>) {
    forall i :: lo <= i < |ns| ==> Admissible(g, tiles, avoid, ns[i].Pos())
  }

  /** Retagging a node keeps admitted cells admitted. */
  lemma AdmittedTag(ns: seq<Node>, lo: nat, i: nat, l: Membership, g: TileGrid, tiles: seq<int>, avoid: set<Point>)
    requires i < |ns| && AdmittedOf(ns, lo, g, tiles, avoid)
    ensures AdmittedOf(ns[i := ns[i].(list := l)], lo, g, tiles, avoid)
  {
    var ns' := ns[i := ns[i].(list := l)];
    forall j | lo <= j < |ns'| ensures Admissible(g, tiles, avoid, ns'[j].Pos()) {
      assert ns'[j].Pos() == ns[j].Pos();
    }
  }

  /** Growth keeps admitted cells admitted when the new nodes are admissible too. */
  lemma AdmittedGrew(n0: seq<Node>, n1: seq<Node>, lo: nat, from: nat, g: TileGrid, tiles: seq<int>, avoid: set<Point>)
    requires |n0| <= |n1| && forall i :: 0 <= i < |n0| ==> Relaxed(n0[i], n1[i], from)
    requires AdmittedOf(n0, lo, g, tiles, avoid) && AdmittedOf(n1, |n0|, g, tiles, avoid)
    ensures AdmittedOf(n1, lo, g, tiles, avoid)
  {
    forall i | lo <= i < |n1| ensures Admissible(g, tiles, avoid, n1[i].Pos()) {
      if i < |n0| {
        assert Relaxed(n0[i], n1[i], from);
      }
    }
  }

  /**
    One neighbour check on top of earlier growth since node `from` was closed (arena n0):
    the growth accumulates, every new node stays admissible, no cell leaves the cache and
    an admissible q is cached afterwards.
  */
  lemma CheckedStep(n0: seq<Node>, nl0: seq<nat>, cl0: seq<seq<Point>>,
                    n1: seq<Node>, h1: map<Point, nat>, nl1: seq<nat>, cl1: seq<seq<Point>>,
                    n2: seq<Node>, h2: map<Point, nat>, nl2: seq<nat>, cl2: seq<seq<Point>>,
                    q: Point, from: nat, c: int, traced: bool, g: TileGrid, tiles: seq<int>, avoid: set<Point>)
    requires Rectangular(g) && InBounds(g, q)
    requires Grew(n0, nl0, cl0, n1, nl1, cl1, from, traced) && AdmittedOf(n1, |n0|, g, tiles, avoid)
    requires Checked(n1, h1, nl1, cl1, n2, h2, nl2, cl2, q, from, c, traced, q !in avoid && Walkable(g, tiles, q))
    ensures Grew(n0, nl0, cl0, n2, nl2, cl2, from, traced)
    ensures AdmittedOf(n2, |n0|, g, tiles, avoid)
    ensures h1.Keys <= h2.Keys && (Admissible(g, tiles, avoid, q) ==> q in h2)
  {
    GrewTrans(n0, nl0, cl0, n1, nl1, cl1, n2, nl2, cl2, from, traced);
    if Admissible(g, tiles, avoid, q) && q !in h1 {
      assert n2[|n1|].Pos() == q;
      assert AdmittedOf(n2, |n1|, g, tiles, avoid);
    }
    AdmittedGrew(n1, n2, |n0|, from, g, tiles, avoid);
  }

  /** Every admissible cell among the first n of `cells` is cached. */
  ghost predicate Covered(hash: map<Point, nat>, g: TileGrid, tiles: seq<int>, avoid: set<Point>, cells: seq<Point>, n: nat)
    requires n <= |cells|
  {
    forall k :: 0 <= k < n ==> Admissible(g, tiles, avoid, cells[k]) ==> cells[k] in hash
  }

  /** Coverage survives caching more cells and extends to the next cell once that one is covered. */
  lemma CoveredMore(hash: map<Point, nat>, hash': map<Point, nat>, g: TileGrid, tiles: seq<int>, avoid: set<Point>,
                    cells: seq<Point>, n: nat)
    requires n < |cells| && Covered(hash, g, tiles, avoid, cells, n) && hash.Keys <= hash'.Keys
    requires Admissible(g, tiles, avoid, cells[n]) ==> cells[n] in hash'
    ensures Covered(hash', g, tiles, avoid, cells, n + 1)
  {
  }

  /** Every cell of a reported path after the start is admissible when every cached cell but the start is. */
  lemma PathAdmitted(ns: seq<Node>, ss: seq<nat>, t: nat, g: TileGrid, tiles: seq<int>, avoid: set<Point>)
    requires Rooted(ns, ss) && t < |ns| && AdmittedOf(ns, 1, g, tiles, avoid)
    ensures var p := PathTo(ns, ss, t);
      forall k :: 0 < k < |p| ==> Admissible(g, tiles, avoid, p[k])
  {
    var a := Ancestry(ns, ss, t);
    AncestryDistinct(ns, ss, t);
    forall k | 0 < k < |a| ensures a[k] >= 1 {
      assert a[k] != a[0];
    }
  }

  /** A reported path: from s to e through orthogonal steps, no cell twice. */
  predicate Route(path: seq<Point>, s: Point, e: Point) {
    |path| >= 2 && path[0] == s && path[|path| - 1] == e && Chained(path) && NoDup(path)
  }

  /** No route is shorter than the Manhattan distance between its ends. */
  lemma RouteLength(path: seq<Point>, s: Point, e: Point)
    requires Route(path, s, e)
    ensures |path| - 1 >= Distance(s, e) && s != e
  {
    ChainAtLeastDistance(path);
  }

  /** Every cell of a route after the first is in the grid, walkable and not avoided. */
  ghost predicate Entered(path: seq<Point>, g: TileGrid, tiles: seq<int>, avoid: set<Point>) {
    forall k :: 0 < k < |path| ==> Admissible(g, tiles, avoid, path[k])
  }
}
