/**
 * Clients of the model: the editor's built-in sample graph, and the replay
 * properties of the commands, derived from the contracts alone.
 */
module Scenarios {
  import opened Geometry
  import opened Nodes
  import opened Commands

  /** A new text node at (`x`, `y`), joined to `graph`. */
  method Place(x: real, y: real, ghost graph: set<Node>) returns (n: Node, ghost grown: set<Node>)
    requires Wired(graph)
    ensures fresh(n) && graph <= grown && n in grown && Wired(grown)
    ensures n.pos == Point(x, y) && n.receivers == {} && |n.connections| == 2
    ensures forall c :: c in n.connections ==> fresh(c) && c.dest == null
  {
    n := new Node.TextNode();
    n.pos := Point(x, y);
    Join(graph, n);
    grown := graph + {n};
  }

  /** The sample graph the editor opens with: 0 -> 1 -> 2 <- 3, each through slot 0. */
  method SampleWiring() returns (n0: Node, n1: Node, n2: Node, n3: Node, ghost graph: set<Node>)
    ensures Wired(graph) && n0 in graph && n1 in graph && n2 in graph && n3 in graph
    ensures |n0.connections| == |n1.connections| == |n3.connections| == 2
    ensures n0.ConnectedTo(0) == n1 && n1.ConnectedTo(0) == n2 && n3.ConnectedTo(0) == n2
    ensures n2.receivers == {n1.connections[0], n3.connections[0]}
    ensures n1.receivers == {n0.connections[0]} && n0.receivers == {} && n3.receivers == {}
  {
    graph := {};
    n0, graph := Place(50.0, 60.0, graph);
    assert n0.connections[0] in n0.connections;
    n1, graph := Place(300.0, 60.0, graph);
    assert n1.connections[0] in n1.connections;
    n2, graph := Place(500.0, 60.0, graph);
    n3, graph := Place(300.0, 200.0, graph);
    assert n3.connections[0] in n3.connections;
    WireSample(n0, n1, n2, n3, graph);
  }

  /** Wires slot 0 of nodes 0, 1 and 3 as in the sample graph; node 2 ends with two receivers. */
  method WireSample(n0: Node, n1: Node, n2: Node, n3: Node, ghost graph: set<Node>)
    requires Wired(graph) && n0 in graph && n1 in graph && n2 in graph && n3 in graph
    requires n0 != n1 && n0 != n2 && n0 != n3 && n1 != n2 && n1 != n3 && n2 != n3
    requires |n0.connections| == |n1.connections| == |n3.connections| == 2
    requires n0.connections[0] != n1.connections[0] && n1.connections[0] != n3.connections[0]
    requires n3.connections[0] != n0.connections[0]
    requires n0.connections[0].dest == null && n1.connections[0].dest == null && n3.connections[0].dest == null
    requires n0.receivers == {} && n1.receivers == {} && n2.receivers == {} && n3.receivers == {}
    modifies {n0.connections[0], n1.connections[0], n3.connections[0]}`dest
    modifies {n0.connections[0], n1.connections[0], n3.connections[0]}`path
    modifies {n1, n2}`receivers
    ensures Wired(graph)
    ensures n0.ConnectedTo(0) == n1 && n1.ConnectedTo(0) == n2 && n3.ConnectedTo(0) == n2
    ensures n2.receivers == {n1.connections[0], n3.connections[0]}
    ensures n1.receivers == {n0.connections[0]} && n0.receivers == {} && n3.receivers == {}
  {
    var c0, c1, c3 := n0.connections[0], n1.connections[0], n3.connections[0];
    assert c0 in n0.connections && c1 in n1.connections && c3 in n3.connections;
    n0.SetConnection(0, n1, graph);
    ghost var r1 := n1.receivers;
    assert r1 == {c0};
    n1.SetConnection(0, n2, graph);
    ghost var r2 := n2.receivers;
    assert r2 == {c1};
    n3.SetConnection(0, n2, graph);
  }

  /** Setting a slot's destination twice has the effect of setting it once. */
  method SetNodeTwice(c: Connection, n: Node?, ghost graph: set<Node>)
    requires Wired(graph) && c in Conns(graph) && (n != null ==> n in graph)
    modifies {c}`dest, {c}`path, (Only(c.dest) + Only(n))`receivers
    ensures c.dest == n && c.path == c.CurrentPath() && Wired(graph)
    ensures n != null ==> n.receivers == old(n.receivers) + {c}
    ensures old(c.dest) != null && old(c.dest) != n ==> old(c.dest).receivers == old(c.dest.receivers) - {c}
  {
    c.SetNode(n, graph);
    c.SetNode(n, graph);
  }

  /** Clearing a slot leaves it unconnected and in no node's receiver set. */
  method Disconnect(c: Connection, ghost graph: set<Node>)
    requires Wired(graph) && c in Conns(graph)
    modifies {c}`dest, {c}`path, Only(c.dest)`receivers
    ensures c.dest == null && c.path == Empty && Wired(graph)
    ensures forall n :: n in graph ==> c !in n.receivers
  {
    c.SetNode(null, graph);
  }

  /** Redo then undo of a connect command restores the slot and both receiver sets. */
  method ConnectRedoUndo(cmd: ConnectCommand, ghost graph: set<Node>)
    requires Wired(graph) && cmd.Within(graph) && cmd.connection.dest == cmd.oldNode
    modifies {cmd.connection}`dest, {cmd.connection}`path
    modifies (Only(cmd.oldNode) + Only(cmd.newNode))`receivers
    ensures Wired(graph) && cmd.connection.dest == cmd.oldNode
    ensures cmd.connection.path == cmd.connection.CurrentPath()
    ensures forall n :: n in Only(cmd.oldNode) + Only(cmd.newNode) ==> n.receivers == old(n.receivers)
  {
    cmd.Redo(graph);
    cmd.Undo(graph);
  }

  /** Undo then redo of a connect command restores the slot and both receiver sets. */
  method ConnectUndoRedo(cmd: ConnectCommand, ghost graph: set<Node>)
    requires Wired(graph) && cmd.Within(graph) && cmd.connection.dest == cmd.newNode
    modifies {cmd.connection}`dest, {cmd.connection}`path
    modifies (Only(cmd.oldNode) + Only(cmd.newNode))`receivers
    ensures Wired(graph) && cmd.connection.dest == cmd.newNode
    ensures cmd.connection.path == cmd.connection.CurrentPath()
    ensures forall n :: n in Only(cmd.oldNode) + Only(cmd.newNode) ==> n.receivers == old(n.receivers)
  {
    cmd.Undo(graph);
    cmd.Redo(graph);
  }

  /** Redo then undo of a move restores the pre-drag positions and leaves the wiring alone. */
  method MoveRedoUndo(cmd: MoveCommand, ghost graph: set<Node>)
    requires cmd.Valid() && Wired(graph)
    modifies cmd.Moved()`pos
    ensures forall m :: m in cmd.movements ==> m.node.pos == m.oldPos
    ensures Wired(graph)
  {
    cmd.Redo();
    cmd.Undo();
  }

  /** Undoing a move twice leaves every recorded node where one undo puts it. */
  method MoveUndoTwice(cmd: MoveCommand)
    requires cmd.Valid()
    modifies cmd.Moved()`pos
    ensures forall m :: m in cmd.movements ==> m.node.pos == m.oldPos
  {
    cmd.Undo();
    cmd.Undo();
  }

  /** Redoing a move twice leaves every recorded node where one redo puts it. */
  method MoveRedoTwice(cmd: MoveCommand)
    requires cmd.Valid()
    modifies cmd.Moved()`pos
    ensures forall m :: m in cmd.movements ==> m.node.pos == m.newPos
  {
    cmd.Redo();
    cmd.Redo();
  }

  /** Undo then redo of a move restores the post-drag positions and leaves the wiring alone. */
  method MoveUndoRedo(cmd: MoveCommand, ghost graph: set<Node>)
    requires cmd.Valid() && Wired(graph)
    modifies cmd.Moved()`pos
    ensures forall m :: m in cmd.movements ==> m.node.pos == m.newPos
    ensures Wired(graph)
  {
    cmd.Undo();
    cmd.Redo();
  }
}
