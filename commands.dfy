/**
 * Undoable edits: a batched move of nodes, and the rewiring of one slot.
 * Both are immutable once built and replay their effect on the graph.
 */
module Commands {
  import opened Geometry
  import opened Nodes

  /** One node's displacement: where its drag started and where it ended. */
  datatype Movement = Movement(node: Node, oldPos: Point, newPos: Point)

  /** `ms` records, in order, each of `nodes` with its pre-drag and its current position. */
  ghost predicate Records(ms: seq<Movement>, nodes: seq<Node>)
    reads Members(nodes)`oldPos, Members(nodes)`pos
  {
    && |ms| == |nodes|
    && forall i :: 0 <= i < |nodes| ==> ms[i] == Movement(nodes[i], nodes[i].oldPos, nodes[i].pos)
  }

  /** Moves a set of nodes between their pre-drag and post-drag positions. */
  class MoveCommand {
    const movements: seq<Movement>

    /** No node is recorded twice. */
    ghost predicate Valid() {
      forall i, j :: 0 <= i < j < |movements| ==> movements[i].node != movements[j].node
    }

    /** The recorded nodes. */
    function Moved(): (s: set<Node>) {
      set m | m in movements :: m.node
    }

    constructor (nodes: seq<Node>)
      requires Distinct(nodes)
      ensures Valid() && Records(movements, nodes)
    {
      var ms: seq<Movement> := [];
      for i := 0 to |nodes|
        invariant Records(ms, nodes[..i])
      {
        ms := ms + [Movement(nodes[i], nodes[i].oldPos, nodes[i].pos)];
      }
      movements := ms;
    }

    /** Puts every recorded node back where its drag started; nothing else moves. */
    method Undo()
      requires Valid()
      modifies Moved()`pos
      ensures forall m :: m in movements ==> m.node.pos == m.oldPos
    {
      for i := 0 to |movements|
        invariant forall j :: 0 <= j < i ==> movements[j].node.pos == movements[j].oldPos
      {
        movements[i].node.pos := movements[i].oldPos;
      }
    }

    /** Puts every recorded node where its drag ended; nothing else moves. */
    method Redo()
      requires Valid()
      modifies Moved()`pos
      ensures forall m :: m in movements ==> m.node.pos == m.newPos
    {
      for i := 0 to |movements|
        invariant forall j :: 0 <= j < i ==> movements[j].node.pos == movements[j].newPos
      {
        movements[i].node.pos := movements[i].newPos;
      }
    }
  }

  /** Switches one slot between its previous and its new destination. */
  class ConnectCommand {
    const connection: Connection
    const oldNode: Node?
    const newNode: Node?

    /** Records `oldNode` as the destination to restore and the slot's current destination as the one to apply. */
    constructor (connection: Connection, oldNode: Node?)
      ensures this.connection == connection && this.oldNode == oldNode
      ensures newNode == connection.dest
    {
      this.connection := connection;
      this.oldNode := oldNode;
      newNode := connection.dest;
    }

    /** Everything the command refers to belongs to `graph`. */
    ghost predicate Within(graph: set<Node>)
      reads graph`connections
    {
      && connection in Conns(graph)
      && (oldNode != null ==> oldNode in graph)
      && (newNode != null ==> newNode in graph)
    }

    /** Rewires the slot back to `oldNode`, through the receiver-maintaining setter. */
    method Undo(ghost graph: set<Node>)
      requires Wired(graph) && Within(graph)
      modifies {connection}`dest, {connection}`path
      modifies (Only(connection.dest) + Only(oldNode))`receivers
      ensures connection.dest == oldNode && Wired(graph)
      ensures connection.path == connection.CurrentPath()
      ensures oldNode != null ==> oldNode.receivers == old(oldNode.receivers) + {connection}
      ensures old(connection.dest) != null && old(connection.dest) != oldNode ==>
        old(connection.dest).receivers == old(connection.dest.receivers) - {connection}
    {
      connection.SetNode(oldNode, graph);
    }

    /** Rewires the slot to `newNode`, through the receiver-maintaining setter. */
    method Redo(ghost graph: set<Node>)
      requires Wired(graph) && Within(graph)
      modifies {connection}`dest, {connection}`path
      modifies (Only(connection.dest) + Only(newNode))`receivers
      ensures connection.dest == newNode && Wired(graph)
      ensures connection.path == connection.CurrentPath()
      ensures newNode != null ==> newNode.receivers == old(newNode.receivers) + {connection}
      ensures old(connection.dest) != null && old(connection.dest) != newNode ==>
        old(connection.dest).receivers == old(connection.dest.receivers) - {connection}
    {
      connection.SetNode(newNode, graph);
    }
  }
}
