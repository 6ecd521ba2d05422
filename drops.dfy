/**
 * The two halves of a connection drag put together: the drop handler on the
 * node the drag ends over, and the press on the slot it started from.
 */
module Drops {
  import opened Nodes
  import opened Commands
  import opened Gestures

  /**
   * A connection drag from `node`'s slot dropped on `target`, with the drop's
   * result handed back to the press on the slot: the slot is wired to
   * `target` when the drop is accepted and cleared otherwise, and never to
   * `node` itself.
   */
  method ConnectByDrop(node: Node, slot: nat, target: Node, formats: set<string>, ghost graph: set<Node>)
    returns (cmd: ConnectCommand?)
    requires slot < |node.connections| && node in graph && target in graph && Wired(graph)
    modifies {node.connections[slot]}`dest, {node.connections[slot]}`path
    modifies (Only(node.connections[slot].dest) + {target})`receivers
    ensures Wired(graph)
    ensures node.ConnectedTo(slot) == if ConnectionFormat in formats && target != node then target else null
    ensures node.ConnectedTo(slot) != node
    ensures cmd != null ==> cmd.newNode == node.ConnectedTo(slot) && cmd.newNode != node
  {
    var reply, connectTo := Drop(target, formats, node);
    cmd := PressSlot(node, slot, connectTo, graph);
  }
}
