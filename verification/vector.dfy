/** `Vector2` of Vector.h, over the reals instead of `double`. */
module Vectors {
  import opened Machine

  datatype Vector2 = Vector2(x: real, y: real)

  /** `Vector2()`: the additive identity. */
  function Zero(): (z: Vector2)
    ensures forall v: Vector2 :: Add(v, z) == v && Add(z, v) == v
  {
    Vector2(0.0, 0.0)
  }

  /** `explicit Vector2(double v)`: both components set to `v`. */
  function Splat(v: real): (r: Vector2)
    ensures r.x == v && r.y == v
  {
    Vector2(v, v)
  }

  /** `operator+`. */
  function Add(a: Vector2, b: Vector2): Vector2 {
    Vector2(a.x + b.x, a.y + b.y)
  }

  /** `operator-` (binary): undoes `operator+`. */
  function Sub(a: Vector2, b: Vector2): (r: Vector2)
    ensures Add(r, b) == a
    ensures r == Zero() <==> a == b
  {
    Vector2(a.x - b.x, a.y - b.y)
  }

  /** Unary `operator-`: the additive inverse. */
  function Neg(v: Vector2): (r: Vector2)
    ensures Add(v, r) == Zero()
    ensures Sub(Zero(), v) == r
  {
    Vector2(-v.x, -v.y)
  }

  /** `operator*(double)`. */
  function Scale(v: Vector2, s: real): Vector2 {
    Vector2(v.x * s, v.y * s)
  }

  /** `operator/(double)`: the inverse of scaling by the same non-zero factor. */
  function Div(v: Vector2, s: real): (r: Vector2)
    requires s != 0.0
    ensures Scale(r, s) == v
  {
    Vector2(v.x / s, v.y / s)
  }

  /** `operator+=`: the in-place update leaves the vector equal to `a + b`. */
  function AddAssign(a: Vector2, b: Vector2): (r: Vector2)
    ensures r == Add(a, b)
  {
    var x := a.x + b.x;
    var y := a.y + b.y;
    Vector2(x, y)
  }

  /** `operator-=`: the in-place update leaves the vector equal to `a - b`. */
  function SubAssign(a: Vector2, b: Vector2): (r: Vector2)
    ensures r == Sub(a, b)
  {
    var x := a.x - b.x;
    var y := a.y - b.y;
    Vector2(x, y)
  }

  /** `length()`: `sqrt(x*x + y*y)`. Under the square-root law it is the
      Euclidean norm. */
  function Length(v: Vector2, m: Libm): (l: real)
    ensures SqrtLaw(m) ==> 0.0 <= l && l * l == v.x * v.x + v.y * v.y
  {
    m.sqrt(v.x * v.x + v.y * v.y)
  }

  /** `normalize()`: divides by the length; defined only when the length is
      not zero (the source produces NaN/Inf there). */
  function Normalize(v: Vector2, m: Libm): (r: Vector2)
    requires Length(v, m) != 0.0
    ensures Scale(r, Length(v, m)) == v
  {
    var l := Length(v, m);
    Vector2(v.x / l, v.y / l)
  }

  /** `Vertex::operator==` compares positions with `==`, which Vector.h does not
      define; the model takes it to be componentwise equality. */
  function SamePosition(a: Vector2, b: Vector2): (r: bool)
    ensures r <==> a == b
  {
    a.x == b.x && a.y == b.y
  }

  /** `a + (-a)` is the zero vector, and negation commutes with scaling:
      `(-v) * s == -(v * s)`, which is how the second planet's impulse is formed. */
  lemma NegScale(v: Vector2, s: real)
    ensures Scale(Neg(v), s) == Neg(Scale(v, s))
    ensures Add(Scale(v, s), Scale(Neg(v), s)) == Zero()
  {
  }

  /** `operator+` is commutative and associative, so the order in which
      impulses are added to a velocity or summed over planets does not matter. */
  lemma AddLaws(a: Vector2, b: Vector2, c: Vector2)
    ensures Add(a, b) == Add(b, a)
    ensures Add(Add(a, b), c) == Add(a, Add(b, c))
  {
  }

  /** `operator*` distributes over `operator+` on either side, scaling by 1
      changes nothing, and two scalings compose into one. */
  lemma ScaleLaws(a: Vector2, b: Vector2, s: real, t: real)
    ensures Scale(Add(a, b), s) == Add(Scale(a, s), Scale(b, s))
    ensures Scale(a, s + t) == Add(Scale(a, s), Scale(a, t))
    ensures Scale(a, 1.0) == a
    ensures Scale(Scale(a, s), t) == Scale(a, s * t)
  {
  }

  /** `(v * s) / s == v` for every non-zero `s`. */
  lemma ScaleThenDiv(v: Vector2, s: real)
    requires s != 0.0
    ensures Div(Scale(v, s), s) == v
  {
  }
}
