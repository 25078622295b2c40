/**
 * The two-dimensional `Vector` of utils/misc.py, over exact reals.
 *
 * Binary operators accept another vector or a number, which is broadcast to
 * both axes; the reflected operators (`s - v`, `s / v`, ...) are aliases of
 * the forward ones; equality is approximate with tolerance `E`. The in-place
 * operators update the receiving object and are modelled by `MutableVector`.
 */
module Vectors {
  import opened Common

  /** Tolerance of approximate equality. */
  const E: real := 0.0001

  datatype Vector = Vector(x: real, y: real)

  /** Right-hand operand of a binary operator: a vector, or a number broadcast to both axes. */
  datatype Operand = Vec(v: Vector) | Scalar(s: real)

  /** `Vector(v)`: a number becomes the vector with that value on both axes, a vector is copied. */
  function Of(o: Operand): Vector {
    match o
    case Vec(v) => v
    case Scalar(s) => Vector(s, s)
  }

  /** `Vector(0.0)`. */
  const Zero: Vector := Vector(0.0, 0.0)

  function Abs(r: real): real {
    if r < 0.0 then -r else r
  }

  // ---------------------------------------------------------------- products and distances

  function Dot(u: Vector, v: Vector): real {
    u.x * v.x + u.y * v.y
  }

  /** Squared Euclidean length, the argument of the square root in `norm()`. */
  function Norm2(v: Vector): real {
    v.x * v.x + v.y * v.y
  }

  function Distance2(u: Vector, v: Vector): real {
    var d := Sub(u, Vec(v));
    d.x * d.x + d.y * d.y
  }

  function Manhattan(u: Vector, v: Vector): real {
    Abs(u.x - v.x) + Abs(u.y - v.y)
  }

  /** Rotation by a quarter turn. */
  function Perpendicular(v: Vector): Vector {
    Vector(-v.y, v.x)
  }

  function Neg(v: Vector): Vector {
    Vector(-v.x, -v.y)
  }

  /** `u == v`: both coordinates differ by strictly less than `E`. */
  predicate Eq(u: Vector, v: Vector) {
    -E < u.x - v.x < E && -E < u.y - v.y < E
  }

  // ---------------------------------------------------------------- arithmetic operators

  function Add(u: Vector, o: Operand): Vector {
    var w := Of(o);
    Vector(u.x + w.x, u.y + w.y)
  }

  function Sub(u: Vector, o: Operand): Vector {
    var w := Of(o);
    Vector(u.x - w.x, u.y - w.y)
  }

  /** Componentwise product. */
  function Mul(u: Vector, o: Operand): Vector {
    var w := Of(o);
    Vector(u.x * w.x, u.y * w.y)
  }

  predicate NonZeroAxes(w: Vector) {
    w.x != 0.0 && w.y != 0.0
  }

  /**
   * Componentwise division; `None` where `/` raises. A zero divisor axis
   * raises inside the `try`, and the handler's retry fails the same way, so
   * the call recurses until a `RecursionError`.
   */
  function Div(u: Vector, o: Operand): (r: Option<Vector>)
    ensures r.Some? <==> NonZeroAxes(Of(o))
    ensures r.Some? ==> Mul(r.value, o) == u
  {
    var w := Of(o);
    if NonZeroAxes(w) then Some(Vector(u.x / w.x, u.y / w.y)) else None
  }

  /** Python's float `//`, the floor of the exact quotient, as a real. */
  function FloorQuotient(a: real, b: real): real
    requires b != 0.0
  {
    (a / b).Floor as real
  }

  /**
   * Componentwise floor division; `None` where `//` raises: as for `/`, the
   * handler's retry recurses until a `RecursionError`.
   */
  function FloorDiv(u: Vector, o: Operand): (r: Option<Vector>)
    ensures r.Some? <==> NonZeroAxes(Of(o))
    ensures r.Some? ==> r.value.x == r.value.x.Floor as real && r.value.y == r.value.y.Floor as real
    ensures r.Some? ==> r.value.x <= u.x / Of(o).x < r.value.x + 1.0
    ensures r.Some? ==> r.value.y <= u.y / Of(o).y < r.value.y + 1.0
  {
    var w := Of(o);
    if NonZeroAxes(w) then Some(Vector(FloorQuotient(u.x, w.x), FloorQuotient(u.y, w.y))) else None
  }

  // ---------------------------------------------------------------- reflected operators

  /** `s + v`: `__radd__` is `__add__`, so this is `v + s`. */
  function RAdd(s: real, v: Vector): Vector {
    Add(v, Scalar(s))
  }

  /** `s - v`: `__rsub__` is `__sub__`, so this is `v - s`. */
  function RSub(s: real, v: Vector): Vector {
    Sub(v, Scalar(s))
  }

  /** `s * v`: `__rmul__` is `__mul__`, so this is `v * s`. */
  function RMul(s: real, v: Vector): Vector {
    Mul(v, Scalar(s))
  }

  /** `s / v`: `__rtruediv__` is `__truediv__`, so this is `v / s`. */
  function RTrueDiv(s: real, v: Vector): Option<Vector> {
    Div(v, Scalar(s))
  }

  /** `s // v`: `__rfloordiv__` is `__floordiv__`, so this is `v // s`. */
  function RFloorDiv(s: real, v: Vector): Option<Vector> {
    FloorDiv(v, Scalar(s))
  }

  // ---------------------------------------------------------------- norm and unit

  /** `n` is what `norm()` returns for `v`: the non-negative square root of its squared length. */
  predicate IsNorm(v: Vector, n: real) {
    n >= 0.0 && n * n == Norm2(v)
  }

  /**
   * `unit()`. The square root computed by `norm()` is a foreign call; its result
   * is the parameter `n`. A vector equal to `Vector(0.0)` under the tolerance
   * gives exactly the zero vector; any other is divided by its norm.
   */
  function Unit(v: Vector, n: real): (r: Vector)
    requires IsNorm(v, n)
    ensures Eq(v, Zero) ==> r == Zero
    ensures !Eq(v, Zero) ==> n > 0.0 && Mul(r, Scalar(n)) == v && Norm2(r) == 1.0
  {
    if !Eq(v, Zero) then
      NormPositive(v, n);
      var r := Div(v, Scalar(n)).value;
      UnitLength(v, n, r);
      r
    else
      Zero
  }

  // ---------------------------------------------------------------- lemmas

  /** A vector that is not approximately zero has a strictly positive norm. */
  lemma NormPositive(v: Vector, n: real)
    requires IsNorm(v, n) && !Eq(v, Zero)
    ensures Norm2(v) >= E * E && n > 0.0
  {
    Norm2Positive(v);
    assert n * n > 0.0;
  }

  /** A vector that is not approximately zero has squared length at least `E * E`. */
  lemma Norm2Positive(v: Vector)
    requires !Eq(v, Zero)
    ensures Norm2(v) >= E * E > 0.0
  {
    if Abs(v.x) >= E {
      assert v.x * v.x >= E * E by { SquareAtLeast(v.x, E); }
    } else {
      assert Abs(v.y) >= E;
      assert v.y * v.y >= E * E by { SquareAtLeast(v.y, E); }
    }
  }

  /** Dividing a vector by its positive norm gives squared length one. */
  lemma UnitLength(v: Vector, n: real, r: Vector)
    requires IsNorm(v, n) && Norm2(v) > 0.0 && Mul(r, Scalar(n)) == v
    ensures Norm2(r) == 1.0
  {
    var c := n * n;
    assert r.x * n == v.x && r.y * n == v.y;
    calc {
      Norm2(r) * c;
      r.x * r.x * (n * n) + r.y * r.y * (n * n);
      (r.x * n) * (r.x * n) + (r.y * n) * (r.y * n);
      Norm2(v);
      c;
    }
    assert (Norm2(r) - 1.0) * c == 0.0;
  }

  lemma SquareAtLeast(a: real, b: real)
    requires b >= 0.0 && Abs(a) >= b
    ensures a * a >= b * b
  {
    var c := Abs(a);
    assert a * a == c * c;
    assert c * c >= b * c >= b * b;
  }

  /** The norm is unique: `norm()` is a function of the vector. */
  lemma NormUnique(v: Vector, n: real, m: real)
    requires IsNorm(v, n) && IsNorm(v, m)
    ensures n == m
  {
    RootUnique(n, m, Norm2(v));
  }

  lemma RootUnique(n: real, m: real, n2: real)
    requires n >= 0.0 && m >= 0.0 && n * n == n2 && m * m == n2
    ensures n == m
  {
    assert (n - m) * (n + m) == n * n - m * m;
    if n > m {
      PositiveProduct(n - m, n + m);
    } else if m > n {
      PositiveProduct(m - n, m + n);
    }
  }

  lemma PositiveProduct(x: real, y: real)
    requires x > 0.0 && y > 0.0
    ensures x * y > 0.0
  {
  }

  lemma NonNegativeProduct(x: real, y: real)
    requires x >= 0.0 && y >= 0.0
    ensures x * y >= 0.0
  {
  }

  /** A product with a non-zero factor determines the other factor. */
  lemma Cancel(x: real, y: real, s: real)
    requires s != 0.0 && x * s == y * s
    ensures x == y
  {
    assert (x - y) * s == 0.0;
  }

  lemma QuotientTimes(a: real, b: real)
    requires b != 0.0
    ensures (a / b) * b == a
  {
  }

  /** For a non-negative `dist` with `dist * dist == n2`: `dist <= m` exactly when `m >= 0` and `n2 <= m * m`. */
  lemma SquareCompare(m: real, dist: real, n2: real)
    requires dist >= 0.0 && dist * dist == n2
    ensures dist <= m <==> m >= 0.0 && n2 <= m * m
  {
    assert (m - dist) * (m + dist) == m * m - n2;
    if dist <= m {
      NonNegativeProduct(m - dist, m + dist);
    } else if m >= 0.0 {
      PositiveProduct(dist - m, dist + m);
    }
  }

  /** Every operator given a number behaves as if given `Vector(s)`, which is `(s, s)`. */
  lemma ScalarBroadcast(u: Vector, s: real)
    ensures Of(Scalar(s)) == Vector(s, s)
    ensures Add(u, Scalar(s)) == Add(u, Vec(Vector(s, s)))
    ensures Sub(u, Scalar(s)) == Sub(u, Vec(Vector(s, s)))
    ensures Mul(u, Scalar(s)) == Mul(u, Vec(Vector(s, s)))
    ensures Div(u, Scalar(s)) == Div(u, Vec(Vector(s, s)))
    ensures FloorDiv(u, Scalar(s)) == FloorDiv(u, Vec(Vector(s, s)))
  {
  }

  /** Addition and subtraction of the same operand undo each other. */
  lemma AddSubInverse(u: Vector, o: Operand)
    ensures Sub(Add(u, o), o) == u && Add(Sub(u, o), o) == u
  {
  }

  /** Division undoes multiplication by an operand with no zero axis. */
  lemma MulDivInverse(u: Vector, o: Operand)
    requires NonZeroAxes(Of(o))
    ensures Div(Mul(u, o), o) == Some(u)
  {
    var w, m := Of(o), Mul(u, o);
    QuotientTimes(m.x, w.x);
    QuotientTimes(m.y, w.y);
    Cancel(m.x / w.x, u.x, w.x);
    Cancel(m.y / w.y, u.y, w.y);
  }

  /** `s + v` and `s * v` agree with the intended results because both operations commute. */
  lemma ReflectedCommutative(s: real, v: Vector)
    ensures RAdd(s, v) == Add(Of(Scalar(s)), Vec(v))
    ensures RMul(s, v) == Mul(Of(Scalar(s)), Vec(v))
  {
  }

  /** `s - v` computes `v - s`: the negation of the intended difference. */
  lemma ReflectedSubtractionReversed(s: real, v: Vector)
    ensures RSub(s, v) == Neg(Sub(Of(Scalar(s)), Vec(v)))
    ensures RSub(s, v) == Sub(v, Scalar(s))
  {
  }

  /** `s / v` computes `v / s`: the reciprocal of the intended quotient. */
  lemma ReflectedDivisionReciprocal(s: real, v: Vector)
    requires s != 0.0 && NonZeroAxes(v)
    ensures RTrueDiv(s, v).Some? && Div(Of(Scalar(s)), Vec(v)).Some?
    ensures Mul(RTrueDiv(s, v).value, Vec(Div(Of(Scalar(s)), Vec(v)).value)) == Vector(1.0, 1.0)
  {
    var r := RTrueDiv(s, v).value;
    var q := Div(Of(Scalar(s)), Vec(v)).value;
    assert r == Vector(v.x / s, v.y / s);
    assert q == Vector(s / v.x, s / v.y);
    assert (v.x / s) * (s / v.x) == 1.0;
    assert (v.y / s) * (s / v.y) == 1.0;
  }

  /** `1 // (2, 2)` yields `(2, 2)`, where the intended quotient is `(0, 0)`. */
  lemma ReflectedFloorDivisionExample()
    ensures RFloorDiv(1.0, Vector(2.0, 2.0)) == Some(Vector(2.0, 2.0))
    ensures FloorDiv(Of(Scalar(1.0)), Vec(Vector(2.0, 2.0))) == Some(Vector(0.0, 0.0))
  {
  }

  /** Approximate equality is reflexive and symmetric. */
  lemma EqReflexiveSymmetric(u: Vector, v: Vector)
    ensures Eq(u, u)
    ensures Eq(u, v) <==> Eq(v, u)
  {
  }

  /** Approximate equality is not transitive. */
  lemma EqNotTransitive()
    ensures Eq(Vector(0.0, 0.0), Vector(0.00006, 0.0))
    ensures Eq(Vector(0.00006, 0.0), Vector(0.00012, 0.0))
    ensures !Eq(Vector(0.0, 0.0), Vector(0.00012, 0.0))
  {
  }

  /** `perpendicular` is orthogonal to its argument and two quarter turns negate. */
  lemma PerpendicularProperties(v: Vector)
    ensures Dot(v, Perpendicular(v)) == 0.0
    ensures Perpendicular(Perpendicular(v)) == Neg(v)
    ensures Norm2(Perpendicular(v)) == Norm2(v)
  {
  }

  /** `dot` is symmetric and `distance2` is the squared length of the difference. */
  lemma DotAndDistances(u: Vector, v: Vector)
    ensures Dot(u, v) == Dot(v, u)
    ensures Distance2(u, v) == Dot(Sub(u, Vec(v)), Sub(u, Vec(v)))
    ensures Distance2(u, v) == Distance2(v, u)
  {
  }

  /** The Manhattan distance is symmetric, non-negative and zero exactly between equal vectors. */
  lemma ManhattanProperties(u: Vector, v: Vector)
    ensures Manhattan(u, v) == Manhattan(v, u) >= 0.0
    ensures Manhattan(u, v) == 0.0 <==> u == v
  {
  }

  /** `unit()` of a vector that is approximately zero is exactly the zero vector. */
  lemma UnitOfNearZero(v: Vector, n: real)
    requires IsNorm(v, n) && Eq(v, Zero)
    ensures Unit(v, n) == Zero
  {
  }

  // ---------------------------------------------------------------- in-place operators

  datatype ArithmeticError = ZeroDivision

  /**
   * A vector object updated in place by `+=`, `-=`, `*=`, `/=` and `//=`. Each
   * operator returns the receiving object itself.
   */
  class MutableVector {
    var x: real
    var y: real

    function Value(): Vector
      reads this
    {
      Vector(x, y)
    }

    constructor(v: Vector)
      ensures Value() == v
    {
      x, y := v.x, v.y;
    }

    method AddInPlace(o: Operand) returns (self: MutableVector)
      modifies this
      ensures self == this
      ensures Value() == Add(old(Value()), o)
    {
      var w := Of(o);
      x := x + w.x;
      y := y + w.y;
      self := this;
    }

    method SubInPlace(o: Operand) returns (self: MutableVector)
      modifies this
      ensures self == this
      ensures Value() == Sub(old(Value()), o)
    {
      var w := Of(o);
      x := x - w.x;
      y := y - w.y;
      self := this;
    }

    method MulInPlace(o: Operand) returns (self: MutableVector)
      modifies this
      ensures self == this
      ensures Value() == Mul(old(Value()), o)
    {
      var w := Of(o);
      x := x * w.x;
      y := y * w.y;
      self := this;
    }

    /**
     * `/=`. With a divisor vector whose x is non-zero and whose y is zero, the
     * source divides x, fails on y, retries from its handler with a copy of
     * the divisor, divides x a second time and fails again on y.
     */
    method DivInPlace(o: Operand) returns (r: Result<MutableVector, ArithmeticError>)
      modifies this
      ensures r.Ok? <==> NonZeroAxes(Of(o))
      ensures r.Ok? ==> r.value == this && Value() == Div(old(Value()), o).value
      ensures r.Err? ==> y == old(y)
      ensures r.Err? ==> x == if o.Vec? && o.v.x != 0.0 then old(x) / o.v.x / o.v.x else old(x)
    {
      var w := Of(o);
      if w.x == 0.0 {
        return Err(ZeroDivision);
      }
      x := x / w.x;
      if w.y == 0.0 {
        if o.Vec? {
          x := x / w.x;
        }
        return Err(ZeroDivision);
      }
      y := y / w.y;
      r := Ok(this);
    }

    /** `//=`, with the same retry as `DivInPlace` when only the y divisor is zero. */
    method FloorDivInPlace(o: Operand) returns (r: Result<MutableVector, ArithmeticError>)
      modifies this
      ensures r.Ok? <==> NonZeroAxes(Of(o))
      ensures r.Ok? ==> r.value == this && Value() == FloorDiv(old(Value()), o).value
      ensures r.Err? ==> y == old(y)
      ensures r.Err? ==> x == if o.Vec? && o.v.x != 0.0
                              then FloorQuotient(FloorQuotient(old(x), o.v.x), o.v.x)
                              else old(x)
    {
      var w := Of(o);
      if w.x == 0.0 {
        return Err(ZeroDivision);
      }
      x := FloorQuotient(x, w.x);
      if w.y == 0.0 {
        if o.Vec? {
          x := FloorQuotient(x, w.x);
        }
        return Err(ZeroDivision);
      }
      y := FloorQuotient(y, w.y);
      r := Ok(this);
    }
  }
}
