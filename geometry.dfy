/**
 * Geometry of a dialogue node, in the node's local coordinates: where an
 * outgoing slot's cable leaves, where an incoming cable arrives, the points
 * of a connection's cable, and which part of the node a press lands on.
 * Coordinates are reals: the editor's double-precision positions and its
 * single-precision constants are modelled exactly, without rounding.
 */
module Geometry {
  import opened Wrappers

  datatype Point = Point(x: real, y: real) {

    function Plus(other: Point): (p: Point) {
      Point(x + other.x, y + other.y)
    }

    function Minus(other: Point): (p: Point) {
      Point(x - other.x, y - other.y)
    }
  }

  const Origin: Point := Point(0.0, 0.0)

  /** Width of the grab handle on a node's left edge. */
  const HandleWidth: real := 15.0
  /** Height of one outgoing slot row below the body. */
  const ConnectionHeight: real := 20.0
  /** Every node's body rectangle is BodyWidth by BodyHeight. */
  const BodyWidth: real := 120.0
  const BodyHeight: real := 50.0

  /** Horizontal reach of a cable's curve control points. */
  const CurveReach: Point := Point(50.0, 0.0)
  /** The straight lead segment at each end of a cable. */
  const Lead: Point := Point(5.0, 0.0)

  /** Height of a node's clickable shape: the body plus one row per slot. */
  function ShapeHeight(height: real, slots: nat): (h: real) {
    height + ConnectionHeight * slots as real
  }

  /** Anchor of outgoing slot `k`: on the right edge, strictly inside slot row `k`. */
  function StartPoint(width: real, height: real, k: int): (p: Point)
    ensures p.x == width + HandleWidth
    ensures height + ConnectionHeight * k as real < p.y < height + ConnectionHeight * (k + 1) as real
  {
    Point(width + HandleWidth, height + 0.5 * ConnectionHeight * (k * 2 + 1) as real)
  }

  /** Slot anchors go strictly downwards as the slot index grows. */
  lemma StartPointsDescend(width: real, height: real, j: int, k: int)
    requires j < k
    ensures StartPoint(width, height, j).y < StartPoint(width, height, k).y
  {
  }

  /** Anchor where incoming cables arrive: on the left edge, as far from the top as from the bottom of the body. */
  function EndPoint(height: real): (p: Point)
    ensures p.x == 0.0
    ensures p.y == height - p.y
    ensures height > 0.0 ==> 0.0 < p.y < height
  {
    Point(0.0, 0.5 * height)
  }

  /**
   * A connection's visual cable. `Cable` is the path
   * start -> leadIn (line), leadIn -> leadOut (cubic through control1, control2),
   * leadOut -> end (line).
   */
  datatype Path =
    | Empty
    | Cable(start: Point, leadIn: Point, control1: Point, control2: Point, leadOut: Point, end: Point)

  /**
   * The cable from `start` to `end`: straight horizontal leads of length Lead.x
   * leaving rightwards and arriving from the left, joined by a curve whose
   * control points are level with the leads, so the joins are smooth.
   */
  function CablePath(start: Point, end: Point): (p: Path)
    ensures p.Cable? && p.start == start && p.end == end
    ensures p.leadIn.y == start.y && p.leadIn.x == start.x + Lead.x
    ensures p.leadOut.y == end.y && p.leadOut.x == end.x - Lead.x
    ensures p.control1.y == p.leadIn.y && p.control1.x > p.leadIn.x
    ensures p.control2.y == p.leadOut.y && p.control2.x < p.leadOut.x
  {
    Cable(start, start.Plus(Lead), start.Plus(CurveReach).Plus(Lead),
          end.Minus(CurveReach).Minus(Lead), end.Minus(Lead), end)
  }

  /**
   * The cable of slot `slot` of a node at `sourcePos`, in that node's local
   * coordinates, towards a destination node at `destPos` (if any).
   */
  function ConnectionPath(sourcePos: Point, slot: int, destPos: Option<Point>): (p: Path)
    ensures p.Empty? <==> destPos.None?
    ensures destPos.Some? ==> p.start == StartPoint(BodyWidth, BodyHeight, slot)
    ensures destPos.Some? ==> p.end.Plus(sourcePos) == destPos.value.Plus(EndPoint(BodyHeight))
  {
    match destPos
    case None => Empty
    case Some(d) => CablePath(StartPoint(BodyWidth, BodyHeight, slot), d.Plus(EndPoint(BodyHeight)).Minus(sourcePos))
  }

  /** A cable depends only on where the destination is relative to the source. */
  lemma ConnectionPathTranslates(sourcePos: Point, destPos: Point, slot: int, shift: Point)
    ensures ConnectionPath(sourcePos.Plus(shift), slot, Some(destPos.Plus(shift)))
         == ConnectionPath(sourcePos, slot, Some(destPos))
  {
    var a := destPos.Plus(shift).Plus(EndPoint(BodyHeight)).Minus(sourcePos.Plus(shift));
    var b := destPos.Plus(EndPoint(BodyHeight)).Minus(sourcePos);
    assert a == b;
  }

  /** What a left-button press on a node hits. */
  datatype PressTarget = Handle | SlotRow(slot: nat)

  /**
   * Classifies a left-button press at local point `p` on a node whose body is
   * `height` tall and which has `slots` outgoing slots. The host delivers only
   * presses inside the node's shape, hence the bound on `p.y`.
   */
  function Classify(p: Point, height: real, slots: nat): (t: PressTarget)
    requires p.y < ShapeHeight(height, slots)
    ensures t.Handle? <==> p.x < HandleWidth || p.y < height
    ensures t.SlotRow? ==> t.slot < slots
    ensures t.SlotRow? ==>
      height + ConnectionHeight * t.slot as real <= p.y < height + ConnectionHeight * (t.slot + 1) as real
  {
    if p.x < HandleWidth || p.y < height then Handle
    else
      var k := ((p.y - height) / ConnectionHeight).Floor;
      SlotRow(k)
  }

  /** Pressing a slot's own anchor selects that slot. */
  lemma ClassifyStartPoint(width: real, height: real, slots: nat, k: nat)
    requires width >= 0.0 && k < slots
    ensures StartPoint(width, height, k).y < ShapeHeight(height, slots)
    ensures Classify(StartPoint(width, height, k), height, slots) == SlotRow(k)
  {
    var p := StartPoint(width, height, k);
    assert (k + 1) as real <= slots as real;
    var t := Classify(p, height, slots);
    assert t.SlotRow?;
    assert ConnectionHeight * t.slot as real < ConnectionHeight * (k + 1) as real;
    assert ConnectionHeight * k as real < ConnectionHeight * (t.slot + 1) as real;
  }
}
