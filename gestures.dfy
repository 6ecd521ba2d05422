/**
 * A node's pointer and drag-and-drop handlers. A press on the handle
 * prepares the selected movable nodes for a move; the release turns the
 * finished move into at most one MoveCommand; a press on a slot row runs a
 * connection drag and rewires that slot; a drop on the node the drag
 * started from is refused.
 *
 * The toolkit's selection list, the drag session's result and the mime
 * formats of a drag are inputs here.
 */
module Gestures {
  import opened Geometry
  import opened Nodes
  import opened Commands

  /** The mime format that marks a drag as carrying a connection. */
  const ConnectionFormat: string := "application/dialoguenode-connection"

  /** `n` was made ready for a move: flagged movable and its position captured, if it can move at all. */
  twostate predicate Captured(n: Node)
    reads n
  {
    && n.isMovable == (old(n.isMovable) || n.canMove)
    && n.oldPos == (if n.canMove then n.pos else old(n.oldPos))
  }

  twostate predicate Untouched(n: Node)
    reads n
  {
    n.isMovable == old(n.isMovable) && n.oldPos == old(n.oldPos)
  }

  /**
   * A left-button press on `node`'s handle or body: if `node` is not selected
   * only `node` is prepared, otherwise every selected node is.
   */
  method PressHandle(node: Node, selection: seq<Node>)
    modifies ({node} + Members(selection))`isMovable, ({node} + Members(selection))`oldPos
    ensures node !in selection ==> Captured(node) && forall n :: n in selection ==> Untouched(n)
    ensures node in selection ==> forall n :: n in selection ==> Captured(n)
  {
    if node !in selection {
      if node.canMove {
        node.isMovable := true;
        node.oldPos := node.pos;
      }
    } else {
      for i := 0 to |selection|
        invariant forall n :: n in selection[..i] ==> Captured(n)
        invariant forall n :: n in selection && n !in selection[..i] ==> Untouched(n)
      {
        var item := selection[i];
        if item.canMove {
          item.isMovable := true;
          item.oldPos := item.pos;
        }
        assert selection[..i + 1] == selection[..i] + [item];
      }
      assert selection[..|selection|] == selection;
    }
  }

  /** The selected nodes a move gesture displaced: movable, and away from their pre-drag position, in selection order. */
  function Displaced(selection: seq<Node>): (r: seq<Node>)
    reads Members(selection)`canMove, Members(selection)`pos, Members(selection)`oldPos
    ensures forall n :: n in r ==> n in selection && n.canMove && n.pos != n.oldPos
    ensures forall n :: n in selection && n.canMove && n.pos != n.oldPos ==> n in r
    ensures Distinct(selection) ==> Distinct(r)
  {
    if selection == [] then []
    else
      var rest := Displaced(selection[..|selection| - 1]);
      var last := selection[|selection| - 1];
      if last.canMove && last.pos != last.oldPos then rest + [last] else rest
  }

  /**
   * Release after a press on `node`: if `node` was made movable, every
   * selected movable node loses the movable flag and one MoveCommand is
   * issued for the displaced ones, if there are any.
   */
  method Release(node: Node, selection: seq<Node>) returns (cmd: MoveCommand?)
    requires Distinct(selection)
    modifies Members(selection)`isMovable
    ensures !old(node.isMovable) ==>
      cmd == null && forall n :: n in selection ==> n.isMovable == old(n.isMovable)
    ensures old(node.isMovable) ==>
      forall n :: n in selection ==> n.isMovable == (old(n.isMovable) && !n.canMove)
    ensures old(node.isMovable) ==>
      (cmd != null <==> exists n :: n in selection && n.canMove && n.pos != n.oldPos)
    ensures cmd != null ==> fresh(cmd) && cmd.Valid() && Records(cmd.movements, Displaced(selection))
  {
    cmd := null;
    if node.isMovable {
      var moved := Settle(selection);
      NothingDisplaced(selection);
      if moved != [] {
        cmd := new MoveCommand(moved);
      }
    }
  }

  /**
   * The release loop over the selection: every movable node loses the
   * movable flag, and the displaced ones are collected in selection order.
   */
  method Settle(selection: seq<Node>) returns (moved: seq<Node>)
    requires Distinct(selection)
    modifies Members(selection)`isMovable
    ensures moved == Displaced(selection)
    ensures forall n :: n in selection ==> n.isMovable == (old(n.isMovable) && !n.canMove)
  {
    moved := [];
    for i := 0 to |selection|
      invariant moved == Displaced(selection[..i])
      invariant forall j :: 0 <= j < i ==>
        selection[j].isMovable == (old(selection[j].isMovable) && !selection[j].canMove)
      invariant forall j :: i <= j < |selection| ==> selection[j].isMovable == old(selection[j].isMovable)
    {
      var item := selection[i];
      DisplacedStep(selection, i);
      if item.canMove {
        item.isMovable := false;
        if item.pos != item.oldPos {
          moved := moved + [item];
        }
      }
    }
    assert selection[..|selection|] == selection;
  }

  /** Extending the selection by one node extends the displaced list by that node, if it moved. */
  lemma DisplacedStep(selection: seq<Node>, i: nat)
    requires i < |selection|
    ensures Displaced(selection[..i + 1]) ==
      Displaced(selection[..i])
      + (if selection[i].canMove && selection[i].pos != selection[i].oldPos then [selection[i]] else [])
  {
    assert selection[..i + 1][..i] == selection[..i];
  }

  /** `r` is `s` with some elements left out and the others kept in their order. */
  predicate Subsequence<T(==)>(r: seq<T>, s: seq<T>)
    decreases |s|
  {
    if r == [] then true
    else if s == [] then false
    else
      || (r[|r| - 1] == s[|s| - 1] && Subsequence(r[..|r| - 1], s[..|s| - 1]))
      || Subsequence(r, s[..|s| - 1])
  }

  /** The displaced nodes appear in the order the selection lists them. */
  lemma {:induction false} DisplacedInOrder(selection: seq<Node>)
    ensures Subsequence(Displaced(selection), selection)
  {
    if selection != [] {
      var init := selection[..|selection| - 1];
      var last := selection[|selection| - 1];
      DisplacedInOrder(init);
      var r := Displaced(selection);
      if last.canMove && last.pos != last.oldPos {
        assert r[..|r| - 1] == Displaced(init);
      }
    }
  }

  /** No MoveCommand for a gesture that left every selected movable node where it started. */
  lemma NothingDisplaced(selection: seq<Node>)
    ensures Displaced(selection) == [] <==> forall n :: n in selection && n.canMove ==> n.pos == n.oldPos
  {
    var r := Displaced(selection);
    if r != [] {
      assert r[0] in r;
    }
  }

  /**
   * A left-button press on slot row `slot` of `node`, with `dragged` the
   * destination the connection drag ended on (null: none). When it differs
   * from the slot's destination, the drag's result is applied to the slot
   * and a ConnectCommand remembering the previous destination is issued.
   */
  method PressSlot(node: Node, slot: nat, dragged: Node?, ghost graph: set<Node>) returns (cmd: ConnectCommand?)
    requires slot < |node.connections| && node in graph
    requires Wired(graph) && (dragged != null ==> dragged in graph)
    modifies {node.connections[slot]}`dest, {node.connections[slot]}`path
    modifies (Only(node.connections[slot].dest) + Only(dragged))`receivers
    ensures Wired(graph) && node.ConnectedTo(slot) == dragged
    ensures cmd != null <==> old(node.ConnectedTo(slot)) != dragged
    ensures cmd == null ==> unchanged({node.connections[slot]}) && unchanged(Only(dragged))
    ensures cmd != null ==>
      && fresh(cmd) && cmd.connection == node.connections[slot]
      && cmd.oldNode == old(node.ConnectedTo(slot)) && cmd.newNode == dragged
      && cmd.Within(graph)
      && node.connections[slot].path == node.connections[slot].CurrentPath()
    ensures cmd != null && dragged != null ==>
      dragged.receivers == old(dragged.receivers) + {node.connections[slot]}
    ensures cmd != null && old(node.ConnectedTo(slot)) != null ==>
      old(node.ConnectedTo(slot)).receivers == old(node.ConnectedTo(slot).receivers) - {node.connections[slot]}
  {
    var connection := node.connections[slot];
    assert connection in node.connections;
    cmd := null;
    if connection.Destination() != dragged {
      var previous := connection.Destination();
      connection.SetNode(dragged, graph);
      cmd := new ConnectCommand(connection, previous);
    }
  }

  /** The nodes `node`'s slots currently lead to. */
  function Targets(node: Node): (s: set<Node>)
    reads node`connections, Members(node.connections)`dest
  {
    set c | c in node.connections && c.dest != null :: c.dest
  }

  /**
   * A press on `node` at local point `at`. Other buttons are left to the
   * toolkit; a left press on the handle or body prepares a move; a left press
   * on a slot row rewires that slot from the connection drag's result.
   */
  method MousePress(node: Node, leftButton: bool, at: Point, selection: seq<Node>, dragged: Node?,
                    ghost graph: set<Node>)
    returns (cmd: ConnectCommand?)
    requires leftButton ==> at.y < ShapeHeight(BodyHeight, |node.connections|)
    requires node in graph && Wired(graph) && (dragged != null ==> dragged in graph)
    modifies ({node} + Members(selection))`isMovable, ({node} + Members(selection))`oldPos
    modifies Members(node.connections)`dest, Members(node.connections)`path
    modifies (Targets(node) + Only(dragged))`receivers
    ensures Wired(graph)
    ensures !leftButton ==> cmd == null && Untouched(node) && forall n :: n in selection ==> Untouched(n)
    ensures leftButton && Classify(at, BodyHeight, |node.connections|).Handle? ==>
      && cmd == null
      && (node !in selection ==> Captured(node))
      && (node in selection ==> forall n :: n in selection ==> Captured(n))
    ensures !leftButton || Classify(at, BodyHeight, |node.connections|).Handle? ==>
      && unchanged(Members(node.connections))
      && forall n :: n in Targets(node) + Only(dragged) ==> n.receivers == old(n.receivers)
    ensures leftButton && Classify(at, BodyHeight, |node.connections|).SlotRow? ==>
      var k := Classify(at, BodyHeight, |node.connections|).slot;
      && node.ConnectedTo(k) == dragged
      && (cmd != null <==> old(node.ConnectedTo(k)) != dragged)
      && Untouched(node) && (forall n :: n in selection ==> Untouched(n))
      && (forall c :: c in node.connections && c != node.connections[k] ==> unchanged(c))
      && (cmd == null ==> unchanged(node.connections[k]) && unchanged(Only(dragged)))
      && (cmd != null ==>
            && fresh(cmd) && cmd.connection == node.connections[k]
            && cmd.oldNode == old(node.ConnectedTo(k)) && cmd.newNode == dragged
            && node.connections[k].path == node.connections[k].CurrentPath())
  {
    cmd := null;
    if leftButton {
      var target := Classify(at, BodyHeight, |node.connections|);
      if target.Handle? {
        PressHandle(node, selection);
      } else {
        assert node.connections[target.slot] in node.connections;
        cmd := PressSlot(node, target.slot, dragged, graph);
      }
    }
  }

  /** How a node answers a drag entering it or a drop on it. */
  datatype DropReply = Accepted | Ignored | Unhandled

  /** A drag entering `node`: connection drags are accepted unless they started at `node`. */
  method DragEnter(node: Node, formats: set<string>, connectFrom: Node?) returns (reply: DropReply)
    ensures reply == Unhandled <==> ConnectionFormat !in formats
    ensures reply == Accepted <==> ConnectionFormat in formats && connectFrom != node
  {
    if ConnectionFormat in formats {
      if connectFrom != node {
        reply := Accepted;
      } else {
        reply := Ignored;
      }
    } else {
      reply := Unhandled;
    }
  }

  /**
   * A drop on `node`: a connection drag from another node makes `node` the
   * drag's result (`connectTo`); one from `node` itself is refused, so a
   * slot never receives its own node from a drop.
   */
  method Drop(node: Node, formats: set<string>, connectFrom: Node?) returns (reply: DropReply, connectTo: Node?)
    ensures reply == Unhandled <==> ConnectionFormat !in formats
    ensures reply == Accepted <==> ConnectionFormat in formats && connectFrom != node
    ensures connectTo != null <==> reply == Accepted
    ensures connectTo != null ==> connectTo == node && connectTo != connectFrom
  {
    connectTo := null;
    if ConnectionFormat in formats {
      if connectFrom != node {
        connectTo := node;
        reply := Accepted;
      } else {
        reply := Ignored;
      }
    } else {
      reply := Unhandled;
    }
  }
}
