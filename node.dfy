/**
  A search-tree vertex: a grid cell, the back-link to the node that discovered it,
  the cost of reaching it so far and its open/closed membership tag.
*/
module Nodes {
  import opened Wrappers
  import opened Grid

  /** The `list` field: unassigned until the node is opened, then OPEN_LIST (1), then CLOSED_LIST (0). */
  datatype Membership = Unvisited | Open | Closed {
    /** The value the source stores in `list`; None stands for undefined. */
    function Code(): (c: Option<int>)
      ensures c.None? <==> this == Unvisited
      ensures c.Some? ==> c.value == 0 || c.value == 1
    {
      match this
      case Unvisited => None
      case Open => Some(1)
      case Closed => Some(0)
    }
  }

  lemma CodeInjective(a: Membership, b: Membership)
    requires a.Code() == b.Code()
    ensures a == b
  {
  }

  /**
    A node of one search. `parent` is the index of the discovering node in the
    same search's node arena (None for the start node).
  */
  datatype Node = Node(parent: Option<nat>, x: int, y: int, costSoFar: int, list: Membership) {
    function Pos(): Point {
      Point(x, y)
    }
  }

  /** The Node constructor: the four arguments are stored as given and no membership tag is set. */
  function NewNode(parent: Option<nat>, x: int, y: int, costSoFar: int): (n: Node)
    ensures n.parent == parent && n.Pos() == Point(x, y) && n.costSoFar == costSoFar
    ensures n.list == Unvisited && n.list.Code().None?
  {
    Node(parent, x, y, costSoFar, Unvisited)
  }
}
