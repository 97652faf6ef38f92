/**
 The `vec3` type of Vector3.cpp: three double components, modelled as reals.
 The value of a vector is the datatype Vec3; the operators that return a new
 vector are functions on it. The compound assignments and the mutable
 `operator[]`, which change a vector in place, are methods of the class
 MutableVec3, whose `elements` array holds the three components.
 */
module Vector3 {

  /** elements[0], elements[1], elements[2] of a vec3, also read as x(), y(), z(). */
  datatype Vec3 = Vec3(x: real, y: real, z: real)

  /** The const `operator[]`: component i, for an index the caller keeps in 0..2. */
  function At(v: Vec3, i: int): real
    requires 0 <= i < 3
  {
    if i == 0 then v.x else if i == 1 then v.y else v.z
  }

  /** The library square root, which the model cannot see: any function that
      gives the non-negative root of every non-negative argument. */
  ghost predicate IsSqrt(sqrt: real -> real) {
    forall a: real :: a >= 0.0 ==> sqrt(a) >= 0.0 && sqrt(a) * sqrt(a) == a
  }

  /** Squaring is strictly increasing on the non-negative reals. */
  lemma SquareMonotone(x: real, y: real)
    requires 0.0 <= x < y
    ensures x * x < y * y
  {
    calc {
      x * x;
    <=
      x * y;
    <
      y * y;
    }
  }

  /** A non-negative square root of a*a, for a non-negative a, is a itself. */
  lemma RootUnique(s: real, a: real)
    requires s >= 0.0 && a >= 0.0 && s * s == a * a
    ensures s == a
  {
    if s < a {
      SquareMonotone(s, a);
      assert false;
    } else if s > a {
      SquareMonotone(a, s);
      assert false;
    }
  }

  /** Unary `-`. */
  function Neg(v: Vec3): (r: Vec3)
    ensures forall i | 0 <= i < 3 :: At(r, i) == -At(v, i)
  {
    Vec3(-v.x, -v.y, -v.z)
  }

  /** Binary `+`. */
  function Add(u: Vec3, v: Vec3): (r: Vec3)
    ensures forall i | 0 <= i < 3 :: At(r, i) == At(u, i) + At(v, i)
  {
    Vec3(u.x + v.x, u.y + v.y, u.z + v.z)
  }

  /** Binary `-`. */
  function Sub(u: Vec3, v: Vec3): (r: Vec3)
    ensures forall i | 0 <= i < 3 :: At(r, i) == At(u, i) - At(v, i)
  {
    Vec3(u.x - v.x, u.y - v.y, u.z - v.z)
  }

  /** Component-wise `u * v`. */
  function Mul(u: Vec3, v: Vec3): (r: Vec3)
    ensures forall i | 0 <= i < 3 :: At(r, i) == At(u, i) * At(v, i)
  {
    Vec3(u.x * v.x, u.y * v.y, u.z * v.z)
  }

  /** `t * v`, which the source computes as each component times t. */
  function ScaleLeft(t: real, v: Vec3): (r: Vec3)
    ensures forall i | 0 <= i < 3 :: At(r, i) == At(v, i) * t
  {
    Vec3(v.x * t, v.y * t, v.z * t)
  }

  /** `v * t`. */
  function ScaleRight(v: Vec3, t: real): (r: Vec3)
    ensures forall i | 0 <= i < 3 :: At(r, i) == At(v, i) * t
  {
    Vec3(v.x * t, v.y * t, v.z * t)
  }

  /** `v / t`; dividing by zero is undefined in the source and excluded here. */
  function Div(v: Vec3, t: real): (r: Vec3)
    requires t != 0.0
    ensures ScaleRight(r, t) == v
  {
    Vec3(v.x / t, v.y / t, v.z / t)
  }

  /** `length_squared()`: a sum of squares, so never negative. */
  function LengthSquared(v: Vec3): (r: real)
    ensures r >= 0.0
  {
    SumOfSquaresNonNegative(v.x, v.y, v.z);
    v.x * v.x + v.y * v.y + v.z * v.z
  }

  lemma SquarePositive(a: real)
    requires a != 0.0
    ensures a * a > 0.0
  {
    if a < 0.0 {
      var b := -a;
      assert b * b > 0.0;
      assert a * a == b * b;
    }
  }

  lemma SquareNonNegative(a: real)
    ensures a * a >= 0.0
  {
    if a != 0.0 {
      SquarePositive(a);
    }
  }

  lemma SumOfSquaresNonNegative(a: real, b: real, c: real)
    ensures a * a + b * b + c * c >= 0.0
  {
    SquareNonNegative(a);
    SquareNonNegative(b);
    SquareNonNegative(c);
  }

  /** `length()`: the non-negative root of the squared length. */
  function Length(v: Vec3, sqrt: real -> real): (r: real)
    requires IsSqrt(sqrt)
    ensures r >= 0.0 && r * r == LengthSquared(v)
  {
    sqrt(v.x * v.x + v.y * v.y + v.z * v.z)
  }

  /** `dot(u, v)`. */
  function Dot(u: Vec3, v: Vec3): real {
    u.x * v.x + u.y * v.y + u.z * v.z
  }

  /** `cross(u, v)`, right-handed. */
  function Cross(u: Vec3, v: Vec3): Vec3 {
    Vec3(u.y * v.z - u.z * v.y,
         u.z * v.x - u.x * v.z,
         u.x * v.y - u.y * v.x)
  }

  /** `unit_vector(v)`: v divided by its length. The result has length 1 and
      points the way v does (scaling it by the length gives v back). */
  function UnitVector(v: Vec3, sqrt: real -> real): (r: Vec3)
    requires IsSqrt(sqrt) && LengthSquared(v) > 0.0
    ensures LengthSquared(r) == 1.0
    ensures ScaleRight(r, Length(v, sqrt)) == v
  {
    var len := Length(v, sqrt);
    UnitLength(v, len);
    Div(v, len)
  }

  lemma UnitLength(v: Vec3, len: real)
    requires len > 0.0 && len * len == LengthSquared(v)
    ensures LengthSquared(Div(v, len)) == 1.0
  {
    var k := 1.0 / len;
    assert len * k == 1.0;
    var d := Div(v, len);
    assert d == Vec3(v.x * k, v.y * k, v.z * k);
    calc {
      LengthSquared(d);
      (v.x * k) * (v.x * k) + (v.y * k) * (v.y * k) + (v.z * k) * (v.z * k);
      { SumOfScaledSquares(v.x, v.y, v.z, k); }
      (v.x * v.x + v.y * v.y + v.z * v.z) * (k * k);
      (len * len) * (k * k);
      { SquareOfProduct(len, k); }
      (len * k) * (len * k);
      1.0;
    }
  }

  lemma SumOfScaledSquares(a: real, b: real, c: real, k: real)
    ensures (a * k) * (a * k) + (b * k) * (b * k) + (c * k) * (c * k)
         == (a * a + b * b + c * c) * (k * k)
  {
  }

  lemma SquareOfProduct(a: real, k: real)
    ensures (a * a) * (k * k) == (a * k) * (a * k)
  {
  }

  /** `+` is commutative. */
  lemma AddCommutative(u: Vec3, v: Vec3)
    ensures Add(u, v) == Add(v, u)
  {
  }

  /** Subtracting v undoes adding it, and `u - v` is `u + (-v)`. */
  lemma SubInvertsAdd(u: Vec3, v: Vec3)
    ensures Sub(Add(u, v), v) == u
    ensures Sub(u, v) == Add(u, Neg(v))
  {
  }

  /** Negating twice gives the operand back. */
  lemma NegInvolutive(v: Vec3)
    ensures Neg(Neg(v)) == v
  {
  }

  /** `t * v == v * t`. */
  lemma ScaleSidesAgree(t: real, v: Vec3)
    ensures ScaleLeft(t, v) == ScaleRight(v, t)
  {
  }

  /** Scaling by s * t is scaling by t and then by s. */
  lemma ScaleCompatible(s: real, t: real, v: Vec3)
    ensures ScaleLeft(s * t, v) == ScaleLeft(s, ScaleLeft(t, v))
  {
  }

  /** `v / t` is `v * (1 / t)`. */
  lemma DivIsScaleByInverse(v: Vec3, t: real)
    requires t != 0.0
    ensures Div(v, t) == ScaleRight(v, 1.0 / t)
  {
  }

  /** Component-wise `*` is commutative. */
  lemma MulCommutative(u: Vec3, v: Vec3)
    ensures Mul(u, v) == Mul(v, u)
  {
  }

  /** `dot` is the sum of the component products over the indices, and symmetric. */
  lemma DotProperties(u: Vec3, v: Vec3)
    ensures Dot(u, v) == At(u, 0) * At(v, 0) + At(u, 1) * At(v, 1) + At(u, 2) * At(v, 2)
    ensures Dot(u, v) == Dot(v, u)
  {
  }

  /** A vector dotted with itself is its squared length. */
  lemma DotSelfIsLengthSquared(v: Vec3)
    ensures Dot(v, v) == LengthSquared(v) >= 0.0
  {
  }

  /** `cross` is anti-commutative and orthogonal to both its operands. */
  lemma CrossProperties(u: Vec3, v: Vec3)
    ensures Cross(u, v) == Neg(Cross(v, u))
    ensures Dot(u, Cross(u, v)) == 0.0
    ensures Dot(v, Cross(u, v)) == 0.0
  {
  }

  /** Every component of a unit vector lies in [-1, 1]. */
  lemma UnitComponentsBounded(v: Vec3, sqrt: real -> real)
    requires IsSqrt(sqrt) && LengthSquared(v) > 0.0
    ensures forall i | 0 <= i < 3 :: -1.0 <= At(UnitVector(v, sqrt), i) <= 1.0
  {
    var u := UnitVector(v, sqrt);
    SquareAtMostOne(u.x, u.y * u.y + u.z * u.z);
    SquareAtMostOne(u.y, u.x * u.x + u.z * u.z);
    SquareAtMostOne(u.z, u.x * u.x + u.y * u.y);
  }

  lemma SquareAtMostOne(a: real, rest: real)
    requires rest >= 0.0 && a * a + rest == 1.0
    ensures -1.0 <= a <= 1.0
  {
  }

  /** The scenarios of the source's test section: `dot({1,2,3},{5,5,5})` is 30,
      `{18,18,18} / 3` is `{6,6,6}`. */
  lemma ValueScenarios()
    ensures Dot(Vec3(1.0, 2.0, 3.0), Vec3(5.0, 5.0, 5.0)) == 30.0
    ensures Div(Vec3(18.0, 18.0, 18.0), 3.0) == Vec3(6.0, 6.0, 6.0)
  {
  }

  /** A vec3 object, whose components live in a three-element array that the
      compound assignments update in place. */
  class MutableVec3 {
    const elements: array<real>

    ghost predicate Valid()
      reads this
    {
      elements.Length == 3
    }

    /** The vector the object currently holds. */
    function Value(): Vec3
      reads this, elements
      requires Valid()
    {
      Vec3(elements[0], elements[1], elements[2])
    }

    /** `vec3(x, y, z)` stores the three values verbatim. */
    constructor (x: real, y: real, z: real)
      ensures Valid() && fresh(elements)
      ensures X() == x && Y() == y && Z() == z
      ensures Get(0) == x && Get(1) == y && Get(2) == z
    {
      elements := new real[3];
      new;
      elements[0] := x;
      elements[1] := y;
      elements[2] := z;
    }

    function X(): (r: real)
      reads this, elements
      requires Valid()
      ensures r == Value().x
    {
      elements[0]
    }

    function Y(): (r: real)
      reads this, elements
      requires Valid()
      ensures r == Value().y
    {
      elements[1]
    }

    function Z(): (r: real)
      reads this, elements
      requires Valid()
      ensures r == Value().z
    {
      elements[2]
    }

    /** The const `operator[]`. */
    function Get(i: int): (r: real)
      reads this, elements
      requires Valid() && 0 <= i < 3
      ensures r == At(Value(), i)
    {
      elements[i]
    }

    /** An assignment `v[i] = t` through the mutable `operator[]`: component i
        becomes t and the other two are unchanged. */
    method SetAt(i: int, t: real)
      requires Valid() && 0 <= i < 3
      modifies elements
      ensures Valid()
      ensures Get(i) == t
      ensures forall k | 0 <= k < 3 && k != i :: Get(k) == old(Get(k))
    {
      elements[i] := t;
    }

    /** `this += v`: the receiver becomes the sum and is returned. The operand
        may be the receiver itself, as in `u += u`; any other operand is a
        distinct object, which the `const` reference leaves unchanged. */
    method AddAssign(v: MutableVec3) returns (self: MutableVec3)
      requires Valid() && v.Valid()
      requires v == this || v.elements != elements
      modifies elements
      ensures self == this && Valid()
      ensures Value() == Add(old(Value()), old(v.Value()))
      ensures v != this ==> v.Value() == old(v.Value())
    {
      elements[0] := elements[0] + v.elements[0];
      elements[1] := elements[1] + v.elements[1];
      elements[2] := elements[2] + v.elements[2];
      self := this;
    }

    /** `this *= t`. */
    method MulAssign(t: real) returns (self: MutableVec3)
      requires Valid()
      modifies elements
      ensures self == this && Valid()
      ensures Value() == ScaleRight(old(Value()), t)
    {
      elements[0] := elements[0] * t;
      elements[1] := elements[1] * t;
      elements[2] := elements[2] * t;
      self := this;
    }

    /** `this /= t`, for a non-zero t. */
    method DivAssign(t: real) returns (self: MutableVec3)
      requires Valid() && t != 0.0
      modifies elements
      ensures self == this && Valid()
      ensures Value() == Div(old(Value()), t)
    {
      elements[0] := elements[0] / t;
      elements[1] := elements[1] / t;
      elements[2] := elements[2] / t;
      self := this;
    }
  }

  /** `vec3{1,2,3} += vec3{5,5,5}` gives `{6,7,8}`. */
  method AddAssignScenario() returns (r: Vec3)
    ensures r == Vec3(6.0, 7.0, 8.0)
  {
    var u := new MutableVec3(1.0, 2.0, 3.0);
    var v := new MutableVec3(5.0, 5.0, 5.0);
    var self := u.AddAssign(v);
    r := self.Value();
  }

  /** `u += u` doubles u: each component is read before it is written. */
  method SelfAddAssignScenario() returns (r: Vec3)
    ensures r == Vec3(2.0, 4.0, 6.0)
  {
    var u := new MutableVec3(1.0, 2.0, 3.0);
    var self := u.AddAssign(u);
    r := self.Value();
  }

  /** `*=` and `/=` agree with `*` and `/`: scaling {18,18,18} by 2 and then
      dividing by 3 gives {12,12,12}. */
  method ScaleAssignScenario() returns (r: Vec3)
    ensures r == Vec3(12.0, 12.0, 12.0)
  {
    var u := new MutableVec3(18.0, 18.0, 18.0);
    var self := u.MulAssign(2.0);
    self := self.DivAssign(3.0);
    r := self.Value();
  }
}
