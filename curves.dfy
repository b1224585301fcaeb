/** Linear interpolation of numbers and of vectors. */
module Curves {
  import opened Timeline

  function Min(a: real, b: real): real { if a <= b then a else b }
  function Max(a: real, b: real): real { if a <= b then b else a }

  /** `v` lies, coordinate by coordinate, between `a` and `b`. */
  predicate WithinBox(a: Vec3, b: Vec3, v: Vec3) {
    Min(a.x, b.x) <= v.x <= Max(a.x, b.x) &&
    Min(a.y, b.y) <= v.y <= Max(a.y, b.y) &&
    Min(a.z, b.z) <= v.z <= Max(a.z, b.z)
  }

  /** The point a fraction `t` of the way from `a` to `b`. */
  function Lerp(a: real, b: real, t: real): (r: real)
    ensures t == 0.0 ==> r == a
    ensures t == 1.0 ==> r == b
    ensures a == b ==> r == a
  {
    a + (b - a) * t
  }

  /** For a fraction in [0, 1], `Lerp` stays between its two end points. */
  lemma LerpBetween(a: real, b: real, t: real)
    requires 0.0 <= t <= 1.0
    ensures Min(a, b) <= Lerp(a, b, t) <= Max(a, b)
  {
    var d := b - a;
    assert Lerp(a, b, t) == a + d * t;
    if d >= 0.0 {
      assert 0.0 <= d * t <= d;
    } else {
      assert d <= d * t <= 0.0;
    }
  }

  /** `Lerp` on each coordinate, all with the same fraction `t`. */
  function LerpVec3(a: Vec3, b: Vec3, t: real): (r: Vec3)
    ensures r.x == Lerp(a.x, b.x, t) && r.y == Lerp(a.y, b.y, t) && r.z == Lerp(a.z, b.z, t)
    ensures t == 0.0 ==> r == a
    ensures t == 1.0 ==> r == b
    ensures a == b ==> r == a
  {
    Vec3(Lerp(a.x, b.x, t), Lerp(a.y, b.y, t), Lerp(a.z, b.z, t))
  }

  /** For a fraction in [0, 1], `LerpVec3` stays inside the box spanned by its end points. */
  lemma LerpVec3Between(a: Vec3, b: Vec3, t: real)
    requires 0.0 <= t <= 1.0
    ensures WithinBox(a, b, LerpVec3(a, b, t))
  {
    LerpBetween(a.x, b.x, t);
    LerpBetween(a.y, b.y, t);
    LerpBetween(a.z, b.z, t);
  }
}
