# DialogueNode graph-editing engine, in Dafny

DialogueNode is a Qt editor for dialogue trees. The editor draws each dialogue
step as a node box. A node has outgoing slots (for a text node, "Next" and
"Nextorino"), and each slot is wired by a cable to at most one destination node.
This project models the engine under the editor's canvas:

- **Wiring** (`nodes.dfy`, module `Nodes`).
  - `Connection` is a slot. Its `dest` is nullable and its `path` is the cached cable.
  - `Node` owns a sequence of slots and keeps `receivers`, the set of connections
    that arrive at it.
  - `Connection.SetNode` is the one operation that rewires a slot. It keeps the two
    views of the wiring in agreement. The ghost predicate `Wired(graph)` states
    that agreement over a set of nodes: every destination lies in the graph,
    receiver sets hold only the graph's connections, and `c.dest == n` exactly
    when `c` is in `n.receivers`.
- **Geometry** (`geometry.dfy`, module `Geometry`).
  - Slot anchors, the arrival anchor and the points of a cable.
  - Classification of a press into the grab handle or a slot row.
  - Coordinates are `real`.
- **Gestures** (`gestures.dfy`, module `Gestures`).
  - A press on the handle or body prepares the selected movable nodes for a move.
  - A release turns a finished move into at most one `MoveCommand`.
  - A press on a slot row rewires that slot from the connection drag's result.
  - Drag-enter and drop refuse a connection drag that started at the node itself.
- **Undoable commands** (`commands.dfy`, module `Commands`).
  - `MoveCommand` moves recorded nodes between their pre-drag and post-drag positions.
  - `ConnectCommand` switches a slot between its previous and its new destination.
- **Connection drags** (`drops.dfy`, module `Drops`).
  - The drop handler's result fed back to the press on the slot the drag started
    from, on the assumption that the drag session returns what the drop handed it.
- **Clients** (`scenarios.dfy`, module `Scenarios`).
  - The sample graph the main window builds at start-up.
  - Undo/redo round trips and idempotence, derived only from the commands' contracts.

Several definitions in the repository do not match each other. The model reads them as follows:

- commands.cpp:43-51 calls `connection->connect(...)` on a `Node::Connection`, but
  nodes.hpp declares neither. The model reads both as `NodeConnection::setNode`.
- commands.cpp:35-41 builds a `ConnectCommand` from `(connection, oldNode)` and
  takes `newNode` from the connection's current destination. nodes.cpp:192 passes
  the drag result as that second argument. The model follows the command's own
  definition. The connect gesture (`Gestures.PressSlot`) applies the drag result
  to the slot first, then builds the command with the previous destination as
  `oldNode`. The command's `newNode` is then the drag result, and its undo restores
  the previous wiring.
- nodes.cpp:216 builds `Movement{node, oldPos, pos}` aggregates, while
  commands.cpp:3-10 and 28-33 build a `MoveCommand` from a list of nodes, reading
  each node's `oldPos` and `pos`. Both readings record the same triple at the same
  moment. The model builds the command from the list of displaced nodes.
- The connect gesture applies a null drag result (no node hit) like any other
  result: a wired slot becomes unconnected. It does not treat that case as a
  cancelled drag.

## Model

| member | source | states |
|---|---|---|
| Geometry.StartPoint | nodes.cpp:90-93 | The anchor of slot k is at x = width + 15, strictly inside slot row k (between height + 20k and height + 20(k+1)) |
| Geometry.StartPointsDescend | nodes.cpp:90-93 | Slot anchors move strictly downwards as the slot index grows |
| Geometry.EndPoint | nodes.cpp:85-88 | The arrival anchor is on the left edge, at the same distance from the body's top and bottom, and inside the body |
| Geometry.CablePath | nodes.cpp:45-50 | The cable runs from start to end. A horizontal lead of length 5 leaves rightwards and another arrives from the left. Each control point is level with its lead and lies beyond it, so the curve joins the leads smoothly |
| Geometry.ConnectionPath | nodes.cpp:38-52 | The path is empty exactly when there is no destination. Otherwise it starts at the slot's anchor and ends at the destination's arrival anchor, expressed in the source node's coordinates |
| Geometry.ConnectionPathTranslates | nodes.cpp:44 | Moving both nodes by the same offset leaves the cable unchanged |
| Geometry.Classify | nodes.cpp:161-187 | A press is a handle press exactly when x < 15 or y < body height. Otherwise the slot index is below the slot count and its row contains y, for any press inside the node's shape |
| Geometry.ClassifyStartPoint | nodes.cpp:92 | A press exactly on slot k's anchor lies inside the shape and selects slot k |
| Nodes.Connection.constructor | nodes.cpp:10-16 | A new slot records its source node, index and name, and starts unconnected with an empty path |
| Nodes.Connection.CalculatePath | nodes.cpp:38-52 | The cached path becomes the cable for the current positions of the source and the destination |
| Nodes.Connection.SetNode | nodes.cpp:18-31 | The slot's destination becomes the new node and its path is recomputed. The slot joins the new node's receivers and leaves those of a different previous destination. Only those three objects change, and `Wired` is preserved |
| Nodes.Node.constructor | nodes.cpp:54-63 | A base node is at the origin, not movable, with no slots and no receivers |
| Nodes.Node.TextNode | nodes.cpp:322-328 | A text node is movable and has exactly the two fresh, unconnected slots "Next" and "Nextorino", each owned by it at its own index |
| Nodes.Node.SetMoveable | nodes.cpp:75-83 | Afterwards the `Movable` getter reports the value set; nothing else changes |
| Nodes.Node.AddConnection | nodes.cpp:125-130 | Returns the previous slot count and appends exactly one fresh, unconnected slot that names this node and the returned index. Earlier slots are kept |
| Nodes.Node.SetConnection | nodes.cpp:65-68 | Slot `slot` leads to the given node afterwards, as its `ConnectedTo` getter reports. Its cable is recomputed for the current positions, the receiver sets of the previous and new destinations are updated, and `Wired` is preserved |
| Nodes.DestinationReceived | nodes.cpp:33-36 | In a wired graph, the `Destination` getter names a node exactly when the slot is in that node's receiver set |
| Nodes.ConnectedToReceived | nodes.cpp:70-73 | In a wired graph, the per-slot `ConnectedTo` getter names a node exactly when that slot is in the node's receiver set |
| Nodes.Node.ItemChange | nodes.cpp:142-155 | After a position change, every own slot and every arriving connection shows the cable for the current positions. Any other notification leaves all of those paths unchanged |
| Nodes.Join | nodes.cpp:322-328 | A node wired to nothing, in either direction, can be added to a wired graph and the result is still wired |
| Commands.MoveCommand.constructor | commands.cpp:3-10 | Records one movement per given node, in order: the node, its captured pre-drag position and its current position. No node is recorded twice |
| Commands.MoveCommand.Undo | commands.cpp:12-18 | Every recorded node is back at its pre-drag position. Only recorded nodes' positions may change |
| Commands.MoveCommand.Redo | commands.cpp:20-26 | Every recorded node is at its post-drag position. Only recorded nodes' positions may change |
| Commands.ConnectCommand.constructor | commands.cpp:35-41 | The command keeps the supplied node as the destination to restore, and the slot's current destination as the one to apply |
| Commands.ConnectCommand.Undo | commands.cpp:43-46 | The slot leads to `oldNode` again and shows the cable for that destination. Both receiver sets are updated through the setter, and `Wired` is preserved |
| Commands.ConnectCommand.Redo | commands.cpp:48-51 | The slot leads to `newNode` and shows the cable for that destination. Both receiver sets are updated through the setter, and `Wired` is preserved |
| Gestures.PressHandle | nodes.cpp:163-182 | Pressing an unselected node prepares only that node. Pressing a selected node prepares every selected node. Preparing flags a node as movable and captures its position, but only if it can move |
| Gestures.Displaced | nodes.cpp:208-219 | The list holds exactly the selected nodes that can move and are away from their captured position, without repeats when the selection has none |
| Gestures.DisplacedInOrder | nodes.cpp:208-219 | The displaced nodes are a subsequence of the selection: the movements are recorded in selection order |
| Gestures.NothingDisplaced | nodes.cpp:220 | The displaced list is empty exactly when every selected movable node is still at its captured position |
| Gestures.Settle | nodes.cpp:208-219 | The release loop clears the movable flag of exactly the selected nodes that can move, and collects exactly the displaced nodes, in selection order |
| Gestures.Release | nodes.cpp:202-225 | If the pressed node was not made movable, nothing changes and no command is issued. Otherwise every selected movable node loses the movable flag, and one MoveCommand is issued exactly when some selected movable node moved. That command records the displaced nodes with their captured and current positions |
| Gestures.PressSlot | nodes.cpp:187-193 | The slot ends at the drag's result, with `Wired` preserved. A ConnectCommand (previous destination to drag result) is issued exactly when the result differs from the slot's destination. In that case the cable is recomputed, the slot joins the result's receivers and leaves the previous destination's. Otherwise nothing changes |
| Gestures.MousePress | nodes.cpp:157-200 | A press with another button changes no move flag, no slot and no receiver set. A left press on the handle or body prepares a move and leaves all wiring unchanged. A left press on a slot row changes no move flag and no other slot. It rewires the classified slot and issues a command, with the previous destination and the drag result, exactly when the destination changes |
| Gestures.DragEnter | nodes.cpp:227-241 | A connection drag is accepted exactly when it did not start at this node; other drags are left unhandled |
| Gestures.Drop | nodes.cpp:243-258 | A connection drop from another node makes this node the drag's result. A drop from the node itself is refused, so a drop never yields a self-connection |
| Drops.ConnectByDrop | nodes.cpp:187-193 | A slot press whose drag ends in a drop on a target wires the slot to the target when the drop is accepted and clears it otherwise. The slot never ends wired to its own node, no command names its own node as the new destination, and `Wired` is preserved |
| Scenarios.Place | mainwindow.cpp:82-84 | A new text node placed at a position joins the graph with two fresh, unconnected slots and no receivers, and the graph stays wired |
| Scenarios.WireSample | mainwindow.cpp:86-99 | Wiring slot 0 of nodes 0, 1 and 3 gives 0 -> 1 -> 2 <- 3. Node 2 then has exactly two receivers, node 1 has one, and nodes 0 and 3 have none |
| Scenarios.SampleWiring | mainwindow.cpp:82-99 | The start-up graph is wired and has the stated destinations and receiver sets |
| Scenarios.SetNodeTwice | nodes.cpp:18-31 | Setting a slot to the same node twice has the same effect as setting it once, including when the node is already the destination: the same destination, the cable for it, and the same receiver sets |
| Scenarios.Disconnect | nodes.cpp:18-31 | Clearing a slot leaves it unconnected, with an empty path, and in no node's receiver set |
| Scenarios.ConnectRedoUndo | commands.cpp:43-51 | Redo then undo restores the slot's destination and the receiver sets of both nodes involved, and the slot shows the cable for that destination |
| Scenarios.ConnectUndoRedo | commands.cpp:43-51 | Undo then redo restores the slot's destination and the receiver sets of both nodes involved, and the slot shows the cable for that destination |
| Scenarios.MoveRedoUndo | commands.cpp:12-26 | Redo then undo puts every recorded node back at its pre-drag position and leaves the wiring invariant intact |
| Scenarios.MoveUndoRedo | commands.cpp:12-26 | Undo then redo puts every recorded node back at its post-drag position and leaves the wiring invariant intact |
| Scenarios.MoveUndoTwice | commands.cpp:12-18 | Undoing twice leaves each recorded node where one undo puts it |
| Scenarios.MoveRedoTwice | commands.cpp:20-26 | Redoing twice leaves each recorded node where one redo puts it |

## Left out

- Painting (`Node::paint`, `TextNode::paint`): pure rendering.
- The repaint requests (`update()`): also rendering only.
- `boundingRect`, `shape` margins and `oldBounds`: repaint bookkeeping over the toolkit's path type. Only the shape height (body plus one row per slot) is modelled, as the bound on where presses arrive.
- The cubic curve drawn through the control points: it is the toolkit's geometry. Only the cable's end, lead and control points are modelled.
- Rounding: positions and sizes are the toolkit's double-precision reals, and the handle width, row height and cable offsets are single-precision constants. The model computes all of them exactly with `real`.
- Gestures.Displaced: the "has moved" test uses exact inequality of points. The toolkit's point comparison is fuzzy, so a drag shorter than its rounding tolerance issues a MoveCommand in the model but none in the editor.
- The toolkit's selection list: it is an input (a sequence of distinct nodes). The model assumes every scene item is a node, so the cast to `Node` never fails.
- `DialogueView::dragConnection`, `connectFrom` and `connectTo`: they have no body in the repository. The drag result and the drag's source node are inputs. `Drops.ConnectByDrop` assumes the drag returns the node that the drop handed to `connectTo`.
- The `ItemIsMovable` drag behaviour and the base-class press and release handlers: they belong to the toolkit.
- Qt setting a position does not trigger `itemChange` in the model. `Node.ItemChange` is a separate operation that the host invokes.
- `QUndoStack` and the view's `nodeMoveEvent` / `nodeConnectEvent`: they are the toolkit's. Gestures return the command they would push.
- Parent view and scene accessors (`scene()`, `view()`), hover and drop flags set in the constructor: toolkit wiring only.
- `TextNode::setText` / `text`: a plain string field with no logic.
- Deleting nodes: the repository only has an empty stub for it.
- The window, menus, docks, actions and file slots: UI and I/O.
