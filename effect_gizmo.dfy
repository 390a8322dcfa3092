// EffectGizmo: a handle an effect draws over the viewer.  A gizmo holds one
// point, or four for a polygon, both in world and in screen coordinates,
// and remembers which of its points the cursor is on (-1 for none).

module Gizmo {

  /** GizmoType: a single dot, a four-cornered polygon or a target. */
  datatype GizmoType = Dot | Poly | Target

  /** A QPointF; a resized QVector fills new entries with (0, 0). */
  datatype Point = Point(x: real, y: real)

  /** The colour the gizmo is drawn in; new gizmos are white. */
  datatype Color = Color(red: int, green: int, blue: int)

  const White: Color := Color(255, 255, 255)

  /** The number of points a gizmo of type `t` is built with. */
  function PointCount(t: GizmoType): (n: nat)
    ensures n >= 1
    ensures n > 1 <==> t == Poly
    ensures t == Poly ==> n == 4
  {
    if t == Poly then 4 else 1
  }

  /** `n` points at the origin, as QVector::resize leaves an empty vector. */
  function Origins(n: nat): (r: seq<Point>)
    ensures |r| == n && forall i :: 0 <= i < n ==> r[i] == Point(0.0, 0.0)
  {
    if n == 0 then [] else Origins(n - 1) + [Point(0.0, 0.0)]
  }

  class EffectGizmo {
    const gizmoType: GizmoType
    var cursor: int
    var worldPos: seq<Point>
    var screenPos: seq<Point>
    var color: Color

    /** The point lists agree in length with each other and with the type. */
    ghost predicate Valid()
      reads this
    {
      |worldPos| == |screenPos| == PointCount(gizmoType)
    }

    /** EffectGizmo::EffectGizmo(type) */
    constructor (t: GizmoType)
      ensures gizmoType == t && cursor == -1 && color == White
      ensures worldPos == Origins(PointCount(t)) && screenPos == Origins(PointCount(t))
      ensures Valid()
    {
      gizmoType := t;
      cursor := -1;
      var pointCount := if t == Poly then 4 else 1;
      worldPos := Origins(pointCount);
      screenPos := Origins(pointCount);
      color := White;
    }

    /** EffectGizmo::get_point_count: the length of the world point list,
        which is the count the type calls for. */
    method GetPointCount() returns (n: int)
      requires Valid()
      ensures n == |worldPos| == |screenPos|
      ensures n == PointCount(gizmoType)
    {
      n := |worldPos|;
    }

    /** EffectGizmo::get_type */
    method GetType() returns (t: GizmoType)
      ensures t == gizmoType
    {
      t := gizmoType;
    }

    /** EffectGizmo::get_cursor */
    method GetCursor() returns (c: int)
      ensures c == cursor
    {
      c := cursor;
    }

    /** EffectGizmo::set_cursor: only the cursor changes. */
    method SetCursor(value: int)
      modifies this
      ensures cursor == value
      ensures worldPos == old(worldPos) && screenPos == old(screenPos) && color == old(color)
      ensures old(Valid()) ==> Valid()
    {
      cursor := value;
    }
  }

  /** A new gizmo reports the type it was built with, the point count that
      type calls for, and no point under the cursor. */
  method NewGizmoReports(t: GizmoType) returns (ty: GizmoType, n: int, c: int)
    ensures ty == t && n == PointCount(t) && c == -1
    ensures n == 4 <==> t == Poly
  {
    var g := new EffectGizmo(t);
    ty := g.GetType();
    n := g.GetPointCount();
    c := g.GetCursor();
  }

  /** set_cursor followed by get_cursor hands back the value set, and the
      point count stays what it was. */
  method SetThenGetCursor(g: EffectGizmo, value: int) returns (c: int, n: int)
    requires g.Valid()
    modifies g
    ensures c == value && n == PointCount(g.gizmoType)
    ensures g.Valid()
  {
    g.SetCursor(value);
    c := g.GetCursor();
    n := g.GetPointCount();
  }
}
