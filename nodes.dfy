/**
 * Nodes of the dialogue graph and their outgoing connection slots.
 * A connection's `dest` and its destination's `receivers` are two views of
 * one relation, and `Connection.SetNode` is the one operation that changes
 * either; `Wired` states that the two views agree.
 */
module Nodes {
  import opened Wrappers
  import opened Geometry

  /** The node behind a nullable reference, as a (possibly empty) set. */
  function Only(n: Node?): (s: set<Node>) {
    if n == null then {} else {n}
  }

  /** The elements of a sequence, as a set. */
  function Members<T>(s: seq<T>): (m: set<T>) {
    set x | x in s
  }

  predicate Distinct<T(==)>(s: seq<T>) {
    forall i, j :: 0 <= i < j < |s| ==> s[i] != s[j]
  }

  /** An outgoing slot of `source`, at index `sourceSlot`, wired to at most one node. */
  class Connection {
    const source: Node
    const sourceSlot: nat
    const name: string
    var dest: Node?
    /** The cable last computed for this slot, in the source node's coordinates. */
    var path: Path

    constructor (source: Node, sourceSlot: nat, name: string)
      ensures this.source == source && this.sourceSlot == sourceSlot && this.name == name
      ensures dest == null && path == Empty
    {
      this.source := source;
      this.sourceSlot := sourceSlot;
      this.name := name;
      dest := null;
      path := Empty;
    }

    function Destination(): (n: Node?)
      reads this`dest
    {
      dest
    }

    /** The cable this slot should show for the current node positions. */
    function CurrentPath(): (p: Path)
      reads this`dest, source`pos, Only(dest)`pos
    {
      ConnectionPath(source.pos, sourceSlot, if dest == null then None else Some(dest.pos))
    }

    method CalculatePath()
      modifies this`path
      ensures path == CurrentPath()
    {
      if dest == null {
        path := Empty;
      } else {
        var start := StartPoint(BodyWidth, BodyHeight, sourceSlot);
        var end := dest.pos.Plus(EndPoint(BodyHeight)).Minus(source.pos);
        path := CablePath(start, end);
      }
    }

    /**
     * Rewires this slot to `newNode` (null disconnects it): leaves the old
     * destination's receivers, joins the new one's, and refreshes the cable.
     * Nothing else in the graph changes.
     */
    method SetNode(newNode: Node?, ghost graph: set<Node>)
      requires Wired(graph) && this in Conns(graph)
      requires newNode != null ==> newNode in graph
      modifies this`dest, this`path, (Only(dest) + Only(newNode))`receivers
      ensures dest == newNode && path == CurrentPath()
      ensures newNode != null ==> newNode.receivers == old(newNode.receivers) + {this}
      ensures old(dest) != null && old(dest) != newNode ==>
        old(dest).receivers == old(dest.receivers) - {this}
      ensures Wired(graph)
    {
      ghost var conns := Conns(graph);
      ghost var before := dest;
      if dest != null {
        dest.receivers := dest.receivers - {this};
      }
      dest := newNode;
      CalculatePath();
      if dest != null {
        dest.receivers := dest.receivers + {this};
      }
      assert Conns(graph) == conns;
      forall n, c | n in graph && c in conns
        ensures c.dest == n <==> c in n.receivers
      {
        if n != before && n != newNode {
          assert n.receivers == old(n.receivers);
        }
        if c != this {
          assert c.dest == old(c.dest);
        }
      }
    }
  }

  /** A dialogue step: a movable box with outgoing slots and a back-index of incoming connections. */
  class Node {
    var pos: Point
    /** Position captured when a move gesture starts. */
    var oldPos: Point
    /** Whether this kind of node may be dragged at all. */
    var canMove: bool
    /** Whether a drag is currently allowed to move it (the toolkit's movable flag). */
    var isMovable: bool
    var connections: seq<Connection>
    /** The connections whose destination is this node. */
    var receivers: set<Connection>

    /** A bare node: not movable, no slots, nothing wired to it. */
    constructor ()
      ensures pos == Origin && oldPos == Origin
      ensures !canMove && !isMovable
      ensures connections == [] && receivers == {}
    {
      pos, oldPos := Origin, Origin;
      canMove, isMovable := false, false;
      connections, receivers := [], {};
    }

    /** A text node: movable, with the two unconnected slots "Next" and "Nextorino". */
    constructor TextNode()
      ensures pos == Origin && canMove && !isMovable && receivers == {}
      ensures |connections| == 2 && Owned({this})
      ensures connections[0].name == "Next" && connections[1].name == "Nextorino"
      ensures forall c :: c in connections ==> fresh(c) && c.dest == null
    {
      pos, oldPos := Origin, Origin;
      canMove, isMovable := false, false;
      connections, receivers := [], {};
      new;
      SetMoveable(true);
      var next := AddConnection("Next");
      var other := AddConnection("Nextorino");
    }

    method SetMoveable(moveable: bool)
      modifies this`canMove
      ensures Movable() == moveable
    {
      canMove := moveable;
    }

    function Movable(): (b: bool)
      reads this`canMove
    {
      canMove
    }

    /** Appends a new unconnected slot and returns its index. */
    method AddConnection(name: string) returns (slot: nat)
      modifies this`connections
      ensures slot == |old(connections)|
      ensures |connections| == slot + 1 && connections[..slot] == old(connections)
      ensures fresh(connections[slot]) && connections[slot].dest == null
      ensures connections[slot].source == this && connections[slot].sourceSlot == slot
      ensures connections[slot].name == name
    {
      slot := |connections|;
      var c := new Connection(this, slot, name);
      connections := connections + [c];
    }

    /** The node slot `slot` leads to, if any. */
    function ConnectedTo(slot: nat): (n: Node?)
      requires slot < |connections|
      reads this`connections, {connections[slot]}`dest
    {
      connections[slot].Destination()
    }

    method SetConnection(slot: nat, node: Node?, ghost graph: set<Node>)
      requires slot < |connections| && this in graph
      requires Wired(graph) && (node != null ==> node in graph)
      modifies {connections[slot]}`dest, {connections[slot]}`path
      modifies (Only(connections[slot].dest) + Only(node))`receivers
      ensures ConnectedTo(slot) == node && Wired(graph)
      ensures connections[slot].path == connections[slot].CurrentPath()
      ensures node != null ==> node.receivers == old(node.receivers) + {connections[slot]}
      ensures old(ConnectedTo(slot)) != null && old(ConnectedTo(slot)) != node ==>
        old(ConnectedTo(slot)).receivers == old(ConnectedTo(slot).receivers) - {connections[slot]}
    {
      assert connections[slot] in connections;
      connections[slot].SetNode(node, graph);
    }

    /**
     * Reaction to a change of this node's scene position: refreshes the
     * cables of its own slots and of every connection arriving at it.
     */
    method ItemChange(positionChanged: bool)
      modifies Members(connections)`path, receivers`path
      ensures positionChanged ==> forall c :: c in connections ==> c.path == c.CurrentPath()
      ensures positionChanged ==> forall c :: c in receivers ==> c.path == c.CurrentPath()
      ensures !positionChanged ==>
        forall c :: c in connections || c in receivers ==> c.path == old(c.path)
    {
      if positionChanged {
        for i := 0 to |connections|
          invariant forall j :: 0 <= j < i ==> connections[j].path == connections[j].CurrentPath()
        {
          connections[i].CalculatePath();
        }
        var rest := receivers;
        while rest != {}
          invariant rest <= receivers
          invariant forall c :: c in connections ==> c.path == c.CurrentPath()
          invariant forall c :: c in receivers - rest ==> c.path == c.CurrentPath()
          decreases |rest|
        {
          var c :| c in rest;
          c.CalculatePath();
          rest := rest - {c};
        }
      }
    }
  }

  /** The connections owned by the nodes of `graph`. */
  ghost function Conns(graph: set<Node>): (cs: set<Connection>)
    reads graph`connections
  {
    set n, c | n in graph && c in n.connections :: c
  }

  /** Each node's slots name it as their source, at their own index. */
  ghost predicate Owned(graph: set<Node>)
    reads graph`connections
  {
    forall n, i :: n in graph && 0 <= i < |n.connections| ==>
      n.connections[i].source == n && n.connections[i].sourceSlot == i
  }

  /**
   * The wiring invariant of a graph of nodes: every destination is in the
   * graph, receiver sets hold only the graph's connections, and a connection
   * targets a node exactly when it is in that node's receiver set.
   */
  ghost predicate Wired(graph: set<Node>)
    reads graph`connections, graph`receivers, Conns(graph)`dest
  {
    && (forall c :: c in Conns(graph) && c.dest != null ==> c.dest in graph)
    && (forall n :: n in graph ==> n.receivers <= Conns(graph))
    && (forall n, c :: n in graph && c in Conns(graph) ==> (c.dest == n <==> c in n.receivers))
  }

  /** A node wired to nothing, in either direction, can join a wired graph. */
  lemma Join(graph: set<Node>, n: Node)
    requires Wired(graph) && n.receivers == {}
    requires forall c :: c in n.connections ==> c.dest == null
    ensures Wired(graph + {n})
  {
    var g := graph + {n};
    assert Conns(g) == Conns(graph) + Members(n.connections);
  }

  /** In a wired graph, a slot's getter and the back-index agree, in both directions. */
  lemma DestinationReceived(graph: set<Node>, c: Connection, n: Node)
    requires Wired(graph) && c in Conns(graph) && n in graph
    ensures c.Destination() == n <==> c in n.receivers
  {
  }

  /** In a wired graph, a node's per-slot getter and the destination's back-index agree. */
  lemma ConnectedToReceived(graph: set<Node>, node: Node, slot: nat, n: Node)
    requires Wired(graph) && node in graph && slot < |node.connections| && n in graph
    ensures node.ConnectedTo(slot) == n <==> node.connections[slot] in n.receivers
  {
    assert node.connections[slot] in node.connections;
  }
}
