/** Plane vectors in pixel space (pygame's Vector2) and the distance tests the
    game makes on them. Every `distance < r` of the source, with r >= 0, is the
    same test as `DistSq < r * r`, which needs no square root. */
module Geometry {

  datatype Vec = Vec(x: real, y: real) {
    function Plus(o: Vec): Vec { Vec(x + o.x, y + o.y) }
    function Minus(o: Vec): Vec { Vec(x - o.x, y - o.y) }
    function Scale(k: real): Vec { Vec(k * x, k * y) }
    function Neg(): Vec { Vec(-x, -y) }
    /** Squared length. */
    function LenSq(): real { x * x + y * y }
  }

  const Zero: Vec := Vec(0.0, 0.0)

  /** Squared Euclidean distance between two points. */
  function DistSq(a: Vec, b: Vec): real
  {
    (a.x - b.x) * (a.x - b.x) + (a.y - b.y) * (a.y - b.y)
  }

  /** `u` is what pygame's `(to - from).normalize()` returns, with the zero
      vector when the two points coincide (the guarded normalisations of the
      source): a unit vector pointing from `from` to `to`. */
  ghost predicate IsDirection(u: Vec, from: Vec, to: Vec)
  {
    var d := to.Minus(from);
    if d == Zero then u == Zero
    else u.LenSq() == 1.0 && u.x * d.y == u.y * d.x && u.x * d.x + u.y * d.y > 0.0
  }

  /** A direction is the zero vector exactly when the two points coincide,
      and a unit vector otherwise. */
  lemma DirectionShape(u: Vec, from: Vec, to: Vec)
    requires IsDirection(u, from, to)
    ensures u == Zero <==> from == to
    ensures from != to ==> u.LenSq() == 1.0
  {
    assert to.Minus(from) == Zero <==> from == to;
  }
}
