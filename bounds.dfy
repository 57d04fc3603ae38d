/**
 * The axis-aligned bounding box that Mesh.RecalculateBounds gives the
 * generated collider mesh, over exact reals.
 */
module Bounds {
  import opened Vectors

  datatype Axis = X | Y | Z

  function Coord(v: Vec3, a: Axis): real
  {
    match a
    case X => v.x
    case Y => v.y
    case Z => v.z
  }

  /** The least coordinate along `a`, attained by some vertex. */
  function Lowest(vs: seq<Vec3>, a: Axis): (lo: real)
    requires |vs| > 0
    ensures forall k :: 0 <= k < |vs| ==> lo <= Coord(vs[k], a)
    ensures exists k :: 0 <= k < |vs| && Coord(vs[k], a) == lo
    decreases |vs|
  {
    if |vs| == 1 then Coord(vs[0], a)
    else
      var rest := Lowest(vs[..|vs| - 1], a);
      var last := Coord(vs[|vs| - 1], a);
      if last < rest then last else rest
  }

  /** The greatest coordinate along `a`, attained by some vertex. */
  function Highest(vs: seq<Vec3>, a: Axis): (hi: real)
    requires |vs| > 0
    ensures forall k :: 0 <= k < |vs| ==> Coord(vs[k], a) <= hi
    ensures exists k :: 0 <= k < |vs| && Coord(vs[k], a) == hi
    decreases |vs|
  {
    if |vs| == 1 then Coord(vs[0], a)
    else
      var rest := Highest(vs[..|vs| - 1], a);
      var last := Coord(vs[|vs| - 1], a);
      if last > rest then last else rest
  }

  datatype Aabb = Aabb(min: Vec3, max: Vec3)

  lemma BoxCoords(vs: seq<Vec3>, b: Aabb)
    requires |vs| > 0
    requires b == Aabb(Vec3(Lowest(vs, X), Lowest(vs, Y), Lowest(vs, Z)),
                       Vec3(Highest(vs, X), Highest(vs, Y), Highest(vs, Z)))
    ensures forall a: Axis :: Coord(b.min, a) == Lowest(vs, a) && Coord(b.max, a) == Highest(vs, a)
  {
    forall a: Axis ensures Coord(b.min, a) == Lowest(vs, a) && Coord(b.max, a) == Highest(vs, a) {
      match a
      case X =>
      case Y =>
      case Z =>
    }
  }

  predicate Encloses(b: Aabb, p: Vec3)
  {
    b.min.x <= p.x <= b.max.x && b.min.y <= p.y <= b.max.y && b.min.z <= p.z <= b.max.z
  }

  /** The tightest box around the vertices: it holds every vertex and each face touches one. */
  function BoundsOf(vs: seq<Vec3>): (b: Aabb)
    requires |vs| > 0
    ensures forall k :: 0 <= k < |vs| ==> Encloses(b, vs[k])
    ensures forall a: Axis :: exists k :: 0 <= k < |vs| && Coord(vs[k], a) == Coord(b.min, a)
    ensures forall a: Axis :: exists k :: 0 <= k < |vs| && Coord(vs[k], a) == Coord(b.max, a)
  {
    var b := Aabb(Vec3(Lowest(vs, X), Lowest(vs, Y), Lowest(vs, Z)),
                  Vec3(Highest(vs, X), Highest(vs, Y), Highest(vs, Z)));
    assert forall k :: 0 <= k < |vs| ==> Encloses(b, vs[k]) by {
      forall k | 0 <= k < |vs| ensures Encloses(b, vs[k]) {
        assert Lowest(vs, X) <= Coord(vs[k], X) && Coord(vs[k], X) <= Highest(vs, X);
        assert Lowest(vs, Y) <= Coord(vs[k], Y) && Coord(vs[k], Y) <= Highest(vs, Y);
        assert Lowest(vs, Z) <= Coord(vs[k], Z) && Coord(vs[k], Z) <= Highest(vs, Z);
      }
    }
    BoxCoords(vs, b);
    b
  }

  lemma EnclosesAlongEveryAxis(b: Aabb, p: Vec3)
    ensures Encloses(b, p) <==> forall a: Axis :: Coord(b.min, a) <= Coord(p, a) <= Coord(b.max, a)
  {
    if Encloses(b, p) {
      forall a: Axis ensures Coord(b.min, a) <= Coord(p, a) <= Coord(b.max, a) {
        match a
        case X =>
        case Y =>
        case Z =>
      }
    } else {
      assert !(Coord(b.min, X) <= Coord(p, X) <= Coord(b.max, X)) ||
             !(Coord(b.min, Y) <= Coord(p, Y) <= Coord(b.max, Y)) ||
             !(Coord(b.min, Z) <= Coord(p, Z) <= Coord(b.max, Z));
    }
  }

  /**
   * BoundsOf is the only box that encloses every vertex and has each of its
   * faces touched by some vertex.
   */
  lemma TightBoxIsBoundsOf(vs: seq<Vec3>, b: Aabb)
    requires |vs| > 0
    requires forall k :: 0 <= k < |vs| ==> Encloses(b, vs[k])
    requires forall a: Axis :: exists k :: 0 <= k < |vs| && Coord(vs[k], a) == Coord(b.min, a)
    requires forall a: Axis :: exists k :: 0 <= k < |vs| && Coord(vs[k], a) == Coord(b.max, a)
    ensures BoundsOf(vs) == b
  {
    var c := BoundsOf(vs);
    forall a: Axis ensures Coord(c.min, a) == Coord(b.min, a) && Coord(c.max, a) == Coord(b.max, a) {
      var kb :| 0 <= kb < |vs| && Coord(vs[kb], a) == Coord(b.min, a);
      var kc :| 0 <= kc < |vs| && Coord(vs[kc], a) == Coord(c.min, a);
      var hb :| 0 <= hb < |vs| && Coord(vs[hb], a) == Coord(b.max, a);
      var hc :| 0 <= hc < |vs| && Coord(vs[hc], a) == Coord(c.max, a);
      EnclosesAlongEveryAxis(b, vs[kc]);
      EnclosesAlongEveryAxis(c, vs[kb]);
      EnclosesAlongEveryAxis(b, vs[hc]);
      EnclosesAlongEveryAxis(c, vs[hb]);
    }
    assert c.min == Vec3(Coord(c.min, X), Coord(c.min, Y), Coord(c.min, Z));
    assert c.max == Vec3(Coord(c.max, X), Coord(c.max, Y), Coord(c.max, Z));
  }
}
