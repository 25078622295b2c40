/**
 * The physics system of physics.py: bodies of three kinds on a tile level,
 * integrated once per fixed tick, followed by a pairwise elastic-collision
 * pass over every unordered pair of bodies.
 *
 * Norms and unit vectors are square roots; the collision pass is computed
 * here from squared lengths and the raw difference vector, and
 * `BounceIsUnitNormalFormula`, `TouchingIsDistanceTest` and
 * `ApproachingIsUnitTest` show that it agrees with the source's formulation
 * through `norm()` and `unit()` whenever the square roots are supplied.
 */
module Physics {
  import opened Common
  import opened Vectors
  import opened Tiles

  /** `DRAG_COEF = -Vector(10)`. */
  const DragCoef: Vector := Neg(Of(Scalar(10.0)))

  /** The drag coefficient is `-10` on both axes: `Vector(10)` broadcasts, then `-` negates. */
  lemma DragCoefValue()
    ensures DragCoef == Vector(-10.0, -10.0)
  {
  }

  /** The body classes; a plain `Body` updates like `Fixed`. */
  datatype Kind = Fixed | Dynamic | Kinetic

  /** A body's mass: `Body.__init__` admits positive masses only. */
  type Mass = m: real | m > 0.0 witness 1.0

  /** What one body holds: its kind and its kinematic attributes. */
  datatype BodyState = BodyState(kind: Kind, position: Vector, velocity: Vector, force: Vector,
                                 radius: real, mass: Mass)

  /** The `ValueError`s of `Body.__init__`. */
  datatype BodyError = InvalidPosition | InvalidRadius | InvalidMass

  /** A looked-up tile exists and is not solid. */
  predicate Walkable(t: Option<Tile>) {
    t.Some? && !t.value.Solid()
  }

  // ================================================================ per-kind update

  /**
   * One `update(vdelta)` of a body. Fixed and kinetic bodies do nothing. A
   * dynamic body applies drag and its force to its velocity and, unless the
   * new velocity is approximately zero, moves each axis separately: x to the
   * candidate x if the tile at (candidate x, old y) is walkable, y to the
   * candidate y if the tile at (old x, candidate y) is walkable.
   */
  function Advance(level: Level, b: BodyState, vdelta: Vector): (r: BodyState)
    requires level.Valid()
    ensures r == b.(velocity := r.velocity, position := r.position)
  {
    match b.kind
    case Fixed => b
    case Kinetic => b
    case Dynamic =>
      var forces := Add(Mul(DragCoef, Vec(b.velocity)), Vec(b.force));
      var acceleration := Div(forces, Scalar(b.mass)).value;
      var velocity := Add(b.velocity, Vec(Mul(acceleration, Vec(vdelta))));
      if Eq(velocity, Zero) then
        b.(velocity := velocity)
      else
        var next := Add(b.position, Vec(Mul(velocity, Vec(vdelta))));
        var hTile := level.Lookup(next.x, b.position.y);
        var vTile := level.Lookup(b.position.x, next.y);
        var x := if Walkable(hTile) then next.x else b.position.x;
        var y := if Walkable(vTile) then next.y else b.position.y;
        b.(velocity := velocity, position := Vector(x, y))
  }

  /** Fixed and kinetic bodies keep their whole state. */
  lemma NonDynamicUnchanged(level: Level, b: BodyState, vdelta: Vector)
    requires level.Valid() && b.kind != Dynamic
    ensures Advance(level, b, vdelta) == b
  {
  }

  /**
   * A dynamic body's velocity becomes `v + ((-10) v + force) / mass * dt`
   * on each axis; its force, radius, mass and kind are untouched.
   */
  lemma DynamicVelocity(level: Level, b: BodyState, vdelta: Vector)
    requires level.Valid() && b.kind == Dynamic
    ensures var r := Advance(level, b, vdelta);
      r.velocity.x == b.velocity.x + (-10.0 * b.velocity.x + b.force.x) / b.mass * vdelta.x &&
      r.velocity.y == b.velocity.y + (-10.0 * b.velocity.y + b.force.y) / b.mass * vdelta.y &&
      r.force == b.force && r.radius == b.radius && r.mass == b.mass && r.kind == b.kind
  {
  }

  /**
   * Axis-separated movement: the position never changes when the new
   * velocity is approximately zero; otherwise each coordinate is either the
   * old one or the candidate one, and it is the candidate exactly when the
   * tile tested for that axis is walkable.
   */
  lemma AxisSeparatedMove(level: Level, b: BodyState, vdelta: Vector)
    requires level.Valid()
    ensures var r := Advance(level, b, vdelta);
      var next := Add(b.position, Vec(Mul(r.velocity, Vec(vdelta))));
      (b.kind != Dynamic || Eq(r.velocity, Zero) ==> r.position == b.position) &&
      (b.kind == Dynamic && !Eq(r.velocity, Zero) ==>
        r.position.x == (if Walkable(level.Lookup(next.x, b.position.y)) then next.x else b.position.x) &&
        r.position.y == (if Walkable(level.Lookup(b.position.x, next.y)) then next.y else b.position.y))
  {
  }

  /** A body that lies over a tile of the level still does after its update. */
  lemma AdvanceStaysInLevel(level: Level, b: BodyState, vdelta: Vector)
    requires level.Valid()
    requires level.Lookup(b.position.x, b.position.y).Some?
    ensures level.Lookup(Advance(level, b, vdelta).position.x, Advance(level, b, vdelta).position.y).Some?
  {
    var r := Advance(level, b, vdelta);
    if b.kind == Dynamic && !Eq(r.velocity, Zero) {
      var next := Add(b.position, Vec(Mul(r.velocity, Vec(vdelta))));
      var hTile := level.Lookup(next.x, b.position.y);
      var vTile := level.Lookup(b.position.x, next.y);
      assert 0 <= RoundHalfEven(r.position.x) < level.width by {
        if Walkable(hTile) { assert r.position.x == next.x; }
      }
      assert 0 <= RoundHalfEven(r.position.y) < level.height by {
        if Walkable(vTile) { assert r.position.y == next.y; }
      }
    }
  }

  // ================================================================ one collision

  function Difference(a: BodyState, b: BodyState): Vector {
    Sub(a.position, Vec(b.position))
  }

  function RelativeVelocity(a: BodyState, b: BodyState): Vector {
    Sub(a.velocity, Vec(b.velocity))
  }

  /** `distance <= maximum`, with `maximum = (ra + rb) / 2`, compared on squared lengths. */
  predicate Touching(a: BodyState, b: BodyState) {
    var maximum := (a.radius + b.radius) / 2.0;
    maximum >= 0.0 && Norm2(Difference(a, b)) <= maximum * maximum
  }

  /**
   * `dot(normal, unit(a.v - b.v)) < 0`: both unit vectors are non-zero and
   * the difference and the relative velocity point in opposing directions.
   */
  predicate Approaching(a: BodyState, b: BodyState) {
    var d := Difference(a, b);
    var rel := RelativeVelocity(a, b);
    !Eq(d, Zero) && !Eq(rel, Zero) && Dot(d, rel) < 0.0
  }

  /** The elastic-collision formula `(a (ma - mb) + 2 mb b) / (ma + mb)` on components along one axis. */
  function Elastic(a: real, b: real, ma: real, mb: real): real
    requires ma + mb != 0.0
  {
    (a * (ma - mb) + 2.0 * mb * b) / (ma + mb)
  }

  /** `d * p + perpendicular(d) * q`. */
  function Combination(d: Vector, p: real, q: real): Vector {
    Add(Mul(d, Scalar(p)), Vec(Mul(Perpendicular(d), Scalar(q))))
  }

  /** `normal * av_p + collision * av_c` with `normal = unit(d)` expanded over `d`. */
  function Bounce(va: Vector, vb: Vector, ma: real, mb: real, d: Vector): Vector
    requires Norm2(d) > 0.0 && ma + mb != 0.0
  {
    var n2 := Norm2(d);
    Combination(d, Elastic(Dot(va, d), Dot(vb, d), ma, mb) / n2, Dot(va, Perpendicular(d)) / n2)
  }

  /** One pair of the collision pass: the new states of `a` and `b`. */
  function Collide(a: BodyState, b: BodyState): (r: (BodyState, BodyState))
    ensures r.0 == a.(velocity := r.0.velocity) && r.1 == b.(velocity := r.1.velocity)
    ensures !(Touching(a, b) && Approaching(a, b)) ==> r == (a, b)
  {
    if Touching(a, b) && Approaching(a, b) then
      var d := Difference(a, b);
      Norm2Positive(d);
      (a.(velocity := Bounce(a.velocity, b.velocity, a.mass, b.mass, d)),
       b.(velocity := Bounce(b.velocity, a.velocity, b.mass, a.mass, d)))
    else
      (a, b)
  }

  /** The source's distance test through `norm()` is `Touching`. */
  lemma TouchingIsDistanceTest(a: BodyState, b: BodyState, distance: real)
    requires IsNorm(Difference(a, b), distance)
    ensures Touching(a, b) <==> distance <= (a.radius + b.radius) / 2.0
  {
    SquareCompare((a.radius + b.radius) / 2.0, distance, Norm2(Difference(a, b)));
  }

  /** The source's approach test through `unit()` is `Approaching`. */
  lemma ApproachingIsUnitTest(a: BodyState, b: BodyState, n: real, nr: real)
    requires IsNorm(Difference(a, b), n) && IsNorm(RelativeVelocity(a, b), nr)
    ensures Approaching(a, b) <==> Dot(Unit(Difference(a, b), n), Unit(RelativeVelocity(a, b), nr)) < 0.0
  {
    var d, rel := Difference(a, b), RelativeVelocity(a, b);
    if !Eq(d, Zero) && !Eq(rel, Zero) {
      DotOfUnits(d, rel, n, nr);
      PositiveProduct(n, nr);
      NegativeIffScaledNegative(Dot(Unit(d, n), Unit(rel, nr)), n * nr);
    }
  }

  /** The dot product of two vectors is that of their directions times both norms. */
  lemma DotOfUnits(d: Vector, e: Vector, n: real, m: real)
    requires IsNorm(d, n) && IsNorm(e, m) && !Eq(d, Zero) && !Eq(e, Zero)
    ensures Dot(d, e) == Dot(Unit(d, n), Unit(e, m)) * (n * m)
  {
    var u, w := Unit(d, n), Unit(e, m);
    assert u.x * n == d.x && u.y * n == d.y;
    assert w.x * m == e.x && w.y * m == e.y;
    calc {
      Dot(d, e);
      (u.x * n) * (w.x * m) + (u.y * n) * (w.y * m);
      (u.x * w.x + u.y * w.y) * (n * m);
    }
  }

  /** Scaling by a positive factor keeps the sign. */
  lemma NegativeIffScaledNegative(x: real, p: real)
    requires p > 0.0
    ensures x < 0.0 <==> x * p < 0.0
  {
    if x < 0.0 {
      PositiveProduct(-x, p);
    } else {
      NonNegativeProduct(x, p);
    }
  }

  lemma QuotientScaled(x: real, k: real, s: real)
    requires s != 0.0
    ensures (x * k) / s == (x / s) * k
  {
  }

  lemma DotScaled(v: Vector, d: Vector, k: real)
    ensures Dot(v, Vector(d.x * k, d.y * k)) == Dot(v, d) * k
  {
  }

  /**
   * `Bounce` is the source's formula: with `normal = unit(d)` and
   * `collision = perpendicular(normal)`, the new velocity is
   * `normal * av_p + collision * av_c`.
   */
  lemma BounceIsUnitNormalFormula(va: Vector, vb: Vector, ma: real, mb: real, d: Vector, n: real,
                                  normal: Vector, collision: Vector, avp: real, avc: real)
    requires IsNorm(d, n) && !Eq(d, Zero) && ma + mb != 0.0
    requires normal == Unit(d, n) && collision == Perpendicular(normal)
    requires avp == Elastic(Dot(va, normal), Dot(vb, normal), ma, mb)
    requires avc == Dot(va, collision)
    ensures Norm2(d) > 0.0
    ensures Bounce(va, vb, ma, mb, d) == Add(Mul(normal, Scalar(avp)), Vec(Mul(collision, Scalar(avc))))
  {
    var k := UnitIsScaled(d, n);
    BounceScaledFormula(va, vb, ma, mb, d, k, normal, collision, avp, avc);
  }

  /** `BounceIsUnitNormalFormula` with the unit normal written as `d` scaled by `k`, `k * k == 1 / |d|^2`. */
  lemma BounceScaledFormula(va: Vector, vb: Vector, ma: real, mb: real, d: Vector, k: real,
                            normal: Vector, collision: Vector, avp: real, avc: real)
    requires Norm2(d) > 0.0 && ma + mb != 0.0 && k * k == 1.0 / Norm2(d)
    requires normal == Vector(d.x * k, d.y * k) && collision == Perpendicular(normal)
    requires avp == Elastic(Dot(va, normal), Dot(vb, normal), ma, mb)
    requires avc == Dot(va, collision)
    ensures Bounce(va, vb, ma, mb, d) == Add(Mul(normal, Scalar(avp)), Vec(Mul(collision, Scalar(avc))))
  {
    var t := Perpendicular(d);
    assert collision == Vector(t.x * k, t.y * k);
    DotScaled(va, d, k);
    DotScaled(vb, d, k);
    DotScaled(va, t, k);
    var pn := Elastic(Dot(va, d), Dot(vb, d), ma, mb);
    ElasticScaled(Dot(va, d), Dot(vb, d), k, ma, mb);
    CombinationScaled(d, normal, collision, pn, Dot(va, t), avp, avc, k, Norm2(d));
  }

  /** Scaling both axes and both coefficients by `k`, with `k * k == 1 / n2`, divides the combination by `n2`. */
  lemma CombinationScaled(d: Vector, u: Vector, w: Vector, p: real, q: real, p': real, q': real,
                          k: real, n2: real)
    requires n2 != 0.0 && k * k == 1.0 / n2
    requires u == Vector(d.x * k, d.y * k) && w == Vector(-d.y * k, d.x * k) && p' == p * k && q' == q * k
    ensures Add(Mul(u, Scalar(p')), Vec(Mul(w, Scalar(q')))) == Combination(d, p / n2, q / n2)
  {
    ScaledProduct(d.x, p, k, n2, u.x, p');
    ScaledProduct(d.y, p, k, n2, u.y, p');
    ScaledProduct(-d.y, q, k, n2, w.x, q');
    ScaledProduct(d.x, q, k, n2, w.y, q');
  }

  lemma InverseSquare(n: real, n2: real)
    requires n > 0.0 && n2 > 0.0 && n * n == n2
    ensures (1.0 / n) * (1.0 / n) == 1.0 / n2
  {
  }

  /** The unit vector is `d` scaled by `k == 1 / n`, and `k * k == 1 / |d|^2`. */
  lemma UnitIsScaled(d: Vector, n: real) returns (k: real)
    requires IsNorm(d, n) && !Eq(d, Zero)
    ensures k == 1.0 / n && Unit(d, n) == Vector(d.x * k, d.y * k)
    ensures Norm2(d) > 0.0 && k * k == 1.0 / Norm2(d)
  {
    NormPositive(d, n);
    InverseSquare(n, Norm2(d));
    var r := Unit(d, n);
    assert n > 0.0 && r.x * n == d.x && r.y * n == d.y;
    Unscale(r.x, d.x, n);
    Unscale(r.y, d.y, n);
    k := 1.0 / n;
  }

  lemma Unscale(a: real, b: real, n: real)
    requires n != 0.0 && a * n == b
    ensures a == b * (1.0 / n)
  {
  }

  /** Scaling both components by `k` scales the elastic formula by `k`. */
  lemma ElasticScaled(A: real, B: real, k: real, ma: real, mb: real)
    requires ma + mb != 0.0
    ensures Elastic(A * k, B * k, ma, mb) == Elastic(A, B, ma, mb) * k
  {
    var x := A * (ma - mb) + 2.0 * mb * B;
    assert (A * k) * (ma - mb) + 2.0 * mb * (B * k) == x * k;
    QuotientScaled(x, k, ma + mb);
  }

  lemma ScaledProduct(c: real, p: real, k: real, n2: real, c': real, p': real)
    requires n2 != 0.0 && k * k == 1.0 / n2 && c' == c * k && p' == p * k
    ensures c' * p' == c * (p / n2)
  {
    calc {
      c' * p';
      (c * k) * (p * k);
      c * p * (k * k);
      c * p * (1.0 / n2);
    }
  }

  /** The vector `d * p + perpendicular(d) * q` has components `p * |d|^2` and `q * |d|^2`. */
  lemma CombinationComponents(d: Vector, p: real, q: real)
    ensures Dot(Combination(d, p, q), d) == p * Norm2(d)
    ensures Dot(Combination(d, p, q), Perpendicular(d)) == q * Norm2(d)
  {
    var r := Combination(d, p, q);
    assert r == Vector(d.x * p - d.y * q, d.y * p + d.x * q);
    calc {
      Dot(r, d);
      (d.x * p - d.y * q) * d.x + (d.y * p + d.x * q) * d.y;
      p * (d.x * d.x + d.y * d.y);
    }
    calc {
      Dot(r, Perpendicular(d));
      (d.x * p - d.y * q) * (-d.y) + (d.y * p + d.x * q) * d.x;
      q * (d.x * d.x + d.y * d.y);
    }
  }

  /**
   * After a bounce the velocity's component along `d` is the elastic
   * formula's and its component along `perpendicular(d)` is unchanged.
   */
  lemma BounceComponents(va: Vector, vb: Vector, ma: real, mb: real, d: Vector)
    requires Norm2(d) > 0.0 && ma + mb != 0.0
    ensures Dot(Bounce(va, vb, ma, mb, d), d) == (Dot(va, d) * (ma - mb) + 2.0 * mb * Dot(vb, d)) / (ma + mb)
    ensures Dot(Bounce(va, vb, ma, mb, d), Perpendicular(d)) == Dot(va, Perpendicular(d))
  {
    var n2 := Norm2(d);
    var pn := Elastic(Dot(va, d), Dot(vb, d), ma, mb);
    var qn := Dot(va, Perpendicular(d));
    var r := Bounce(va, vb, ma, mb, d);
    assert r == Combination(d, pn / n2, qn / n2);
    CombinationComponents(d, pn / n2, qn / n2);
    QuotientTimes(pn, n2);
    QuotientTimes(qn, n2);
    assert Dot(r, d) == pn;
    assert Dot(r, Perpendicular(d)) == qn;
  }

  /** Every vector is determined by its components along `d` and `perpendicular(d)`. */
  lemma SameComponentsSameVector(u: Vector, w: Vector, d: Vector)
    requires Norm2(d) > 0.0
    requires Dot(u, d) == Dot(w, d) && Dot(u, Perpendicular(d)) == Dot(w, Perpendicular(d))
    ensures u == w
  {
    var e := Sub(u, Vec(w));
    var t := Perpendicular(d);
    assert Dot(e, d) == 0.0 && Dot(e, t) == 0.0;
    assert e.x * d.x + e.y * d.y == 0.0;
    assert -e.x * d.y + e.y * d.x == 0.0;
    assert e.x * Norm2(d) == 0.0 by {
      calc {
        e.x * Norm2(d);
        e.x * d.x * d.x + e.x * d.y * d.y;
        d.x * (e.x * d.x + e.y * d.y) - d.y * (-e.x * d.y + e.y * d.x);
        0.0;
      }
    }
    assert e.y * Norm2(d) == 0.0 by {
      calc {
        e.y * Norm2(d);
        e.y * d.x * d.x + e.y * d.y * d.y;
        d.y * (e.x * d.x + e.y * d.y) + d.x * (-e.x * d.y + e.y * d.x);
        0.0;
      }
    }
  }

  /** Momentum of a body: `mass * velocity`. */
  function Momentum(b: BodyState): Vector {
    Mul(b.velocity, Scalar(b.mass))
  }

  /** Two pairs of velocities with the same weighted components along `w` have the same momentum along `w`. */
  lemma MomentumMatch(va: Vector, vb: Vector, va': Vector, vb': Vector, ma: real, mb: real, w: Vector,
                      A: real, B: real, A': real, B': real)
    requires A == Dot(va, w) && B == Dot(vb, w) && A' == Dot(va', w) && B' == Dot(vb', w)
    requires ma * A' + mb * B' == ma * A + mb * B
    ensures Dot(Add(Mul(va', Scalar(ma)), Vec(Mul(vb', Scalar(mb)))), w) ==
            Dot(Add(Mul(va, Scalar(ma)), Vec(Mul(vb, Scalar(mb)))), w)
  {
    MomentumComponents(va, ma, vb, mb, w);
    MomentumComponents(va', ma, vb', mb, w);
  }

  lemma MomentumComponents(va: Vector, ma: real, vb: Vector, mb: real, w: Vector)
    ensures Dot(Add(Mul(va, Scalar(ma)), Vec(Mul(vb, Scalar(mb)))), w) == ma * Dot(va, w) + mb * Dot(vb, w)
  {
  }

  /**
   * The elastic-collision formula for the normal components, stated with
   * the divisions multiplied out: the momentum along the normal is
   * conserved, and with equal masses the components are exchanged.
   */
  lemma ElasticExchange(ma: real, mb: real, A: real, B: real, A': real, B': real)
    requires ma > 0.0 && mb > 0.0
    requires A' == (A * (ma - mb) + 2.0 * mb * B) / (ma + mb)
    requires B' == (B * (mb - ma) + 2.0 * ma * A) / (mb + ma)
    ensures ma * A' + mb * B' == ma * A + mb * B
    ensures ma == mb ==> A' == B && B' == A
  {
    var s := ma + mb;
    var X, Y := A * (ma - mb) + 2.0 * mb * B, B * (mb - ma) + 2.0 * ma * A;
    assert A' * s == X;
    assert B' * s == Y;
    assert (ma * A' + mb * B') * s == ma * (A' * s) + mb * (B' * s);
    assert ma * X + mb * Y == (ma * A + mb * B) * s;
    Cancel(ma * A' + mb * B', ma * A + mb * B, s);
    if ma == mb {
      assert A' * s == B * s;
      Cancel(A', B, s);
      assert B' * s == A * s;
      Cancel(B', A, s);
    }
  }

  /**
   * Two bounces along the same `d` conserve momentum along `d`; with equal
   * masses the components along `d` are exchanged.
   */
  lemma PairBounceNormal(va: Vector, vb: Vector, ma: real, mb: real, d: Vector)
    requires Norm2(d) > 0.0 && ma > 0.0 && mb > 0.0
    ensures ma * Dot(Bounce(va, vb, ma, mb, d), d) + mb * Dot(Bounce(vb, va, mb, ma, d), d) ==
            ma * Dot(va, d) + mb * Dot(vb, d)
    ensures ma == mb ==> Dot(Bounce(va, vb, ma, mb, d), d) == Dot(vb, d) && Dot(Bounce(vb, va, mb, ma, d), d) == Dot(va, d)
  {
    BounceComponents(va, vb, ma, mb, d);
    BounceComponents(vb, va, mb, ma, d);
    ElasticExchange(ma, mb, Dot(va, d), Dot(vb, d), Dot(Bounce(va, vb, ma, mb, d), d), Dot(Bounce(vb, va, mb, ma, d), d));
  }

  /** Two bounces along the same `d` conserve the pair's total momentum. */
  lemma PairBounceMomentum(va: Vector, vb: Vector, ma: real, mb: real, d: Vector)
    requires Norm2(d) > 0.0 && ma > 0.0 && mb > 0.0
    ensures Add(Mul(Bounce(va, vb, ma, mb, d), Scalar(ma)), Vec(Mul(Bounce(vb, va, mb, ma, d), Scalar(mb)))) ==
            Add(Mul(va, Scalar(ma)), Vec(Mul(vb, Scalar(mb))))
  {
    var va', vb' := Bounce(va, vb, ma, mb, d), Bounce(vb, va, mb, ma, d);
    var t := Perpendicular(d);
    PairBounceNormal(va, vb, ma, mb, d);
    BounceComponents(va, vb, ma, mb, d);
    BounceComponents(vb, va, mb, ma, d);
    MomentumMatch(va, vb, va', vb', ma, mb, d, Dot(va, d), Dot(vb, d), Dot(va', d), Dot(vb', d));
    MomentumMatch(va, vb, va', vb', ma, mb, t, Dot(va, t), Dot(vb, t), Dot(va', t), Dot(vb', t));
    SameComponentsSameVector(Add(Mul(va', Scalar(ma)), Vec(Mul(vb', Scalar(mb)))), Add(Mul(va, Scalar(ma)), Vec(Mul(vb, Scalar(mb)))), d);
  }

  /**
   * One collision changes velocities only; it conserves momentum along the
   * contact normal and the pair's total momentum, and with equal masses it
   * exchanges the normal components.
   */
  lemma CollideConservesMomentum(a: BodyState, b: BodyState)
    ensures var (a', b') := Collide(a, b);
      var d := Difference(a, b);
      a.mass * Dot(a'.velocity, d) + b.mass * Dot(b'.velocity, d) ==
        a.mass * Dot(a.velocity, d) + b.mass * Dot(b.velocity, d) &&
      Add(Momentum(a'), Vec(Momentum(b'))) == Add(Momentum(a), Vec(Momentum(b))) &&
      (Touching(a, b) && Approaching(a, b) && a.mass == b.mass ==>
        Dot(a'.velocity, d) == Dot(b.velocity, d) && Dot(b'.velocity, d) == Dot(a.velocity, d))
  {
    if Touching(a, b) && Approaching(a, b) {
      var d := Difference(a, b);
      Norm2Positive(d);
      PairBounceNormal(a.velocity, b.velocity, a.mass, b.mass, d);
      PairBounceMomentum(a.velocity, b.velocity, a.mass, b.mass, d);
    }
  }

  // ================================================================ the collision pass

  /** The pairs `(i, lo), ..., (i, hi - 1)`, visited by the inner loop for row `i`. */
  function Row(i: nat, lo: nat, hi: nat): seq<(nat, nat)>
    decreases hi
  {
    if hi <= lo then [] else Row(i, lo, hi - 1) + [(i, hi - 1)]
  }

  /** The pairs of the first `i` rows of the pass over `n` bodies. */
  function Rows(n: nat, i: nat): seq<(nat, nat)> {
    if i == 0 then [] else Rows(n, i - 1) + Row(i - 1, i, n)
  }

  /** Every pair visited by the collision pass over `n` bodies, in visiting order. */
  function AllPairs(n: nat): seq<(nat, nat)> {
    Rows(n, n)
  }

  predicate PairBefore(p: (nat, nat), q: (nat, nat)) {
    p.0 < q.0 || (p.0 == q.0 && p.1 < q.1)
  }

  /** The pairs are visited in strictly increasing order. */
  ghost predicate StrictlyOrdered(ps: seq<(nat, nat)>) {
    forall k, l :: 0 <= k < l < |ps| ==> PairBefore(ps[k], ps[l])
  }

  /** Row `i` holds the pairs `(i, b)` with `lo <= b < hi`, in increasing order. */
  lemma {:induction false} RowMembers(i: nat, lo: nat, hi: nat)
    ensures forall p :: p in Row(i, lo, hi) <==> p.0 == i && lo <= p.1 < hi
    ensures StrictlyOrdered(Row(i, lo, hi))
    decreases hi
  {
    if hi > lo {
      RowMembers(i, lo, hi - 1);
      OrderedConcat(Row(i, lo, hi - 1), [(i, hi - 1)]);
    }
  }

  lemma OrderedConcat(xs: seq<(nat, nat)>, ys: seq<(nat, nat)>)
    requires StrictlyOrdered(xs) && StrictlyOrdered(ys)
    requires forall p, q :: p in xs && q in ys ==> PairBefore(p, q)
    ensures StrictlyOrdered(xs + ys)
  {
    var zs := xs + ys;
    forall k, l | 0 <= k < l < |zs| ensures PairBefore(zs[k], zs[l]) {
      if k < |xs| && l >= |xs| {
        assert zs[k] in xs && zs[l] in ys;
      } else if k >= |xs| {
        assert zs[k] == ys[k - |xs|] && zs[l] == ys[l - |xs|];
      }
    }
  }

  /** The first `i` rows hold the pairs `a < b < n` with `a < i`, in increasing order. */
  lemma {:induction false} RowsMembers(n: nat, i: nat)
    ensures forall p :: p in Rows(n, i) <==> p.0 < i && p.0 < p.1 < n
    ensures StrictlyOrdered(Rows(n, i))
  {
    if i > 0 {
      RowsMembers(n, i - 1);
      RowMembers(i - 1, i, n);
      OrderedConcat(Rows(n, i - 1), Row(i - 1, i, n));
    }
  }

  /** The collision pass visits each pair `i < j` exactly once, in increasing order. */
  lemma AllPairsExactlyOnce(n: nat)
    ensures forall p :: p in AllPairs(n) <==> p.0 < p.1 < n
    ensures StrictlyOrdered(AllPairs(n))
    ensures forall k, l :: 0 <= k < l < |AllPairs(n)| ==> AllPairs(n)[k] != AllPairs(n)[l]
  {
    RowsMembers(n, n);
  }

  /** `t` holds the same bodies as `s`, of which only the velocities may differ. */
  ghost predicate SameButVelocity(s: seq<BodyState>, t: seq<BodyState>) {
    |s| == |t| && forall k :: 0 <= k < |s| ==> t[k] == s[k].(velocity := t[k].velocity)
  }

  /** Resolves the pair `(i, j)` of `s`: the two bodies take the states `Collide` gives them. */
  function Resolve(s: seq<BodyState>, i: nat, j: nat): (r: seq<BodyState>)
    requires i < |s| && j < |s|
    ensures |r| == |s|
  {
    var (a, b) := Collide(s[i], s[j]);
    s[i := a][j := b]
  }

  /** Resolving a pair changes the velocities of its two bodies only. */
  lemma ResolveKeeps(s: seq<BodyState>, i: nat, j: nat)
    requires i < |s| && j < |s|
    ensures SameButVelocity(s, Resolve(s, i, j))
    ensures forall k :: 0 <= k < |s| && k != i && k != j ==> Resolve(s, i, j)[k] == s[k]
  {
  }

  /**
   * Resolves the pairs `ps` in order, each on the states left by the previous
   * ones; a pair outside `s` (which the collision pass never visits) is skipped.
   */
  ghost function ApplyPairs(s: seq<BodyState>, ps: seq<(nat, nat)>): (r: seq<BodyState>)
    ensures |r| == |s|
  {
    if ps == [] then s
    else
      var r := ApplyPairs(s, ps[..|ps| - 1]);
      var (i, j) := ps[|ps| - 1];
      if i < |r| && j < |r| then Resolve(r, i, j) else r
  }

  /** The inner loop for row `i` up to `j`: the pairs `(i, i + 1), ..., (i, j - 1)`, in order. */
  ghost function RowPass(s: seq<BodyState>, i: nat, j: nat): (r: seq<BodyState>)
    requires i < |s| && j <= |s|
    ensures |r| == |s|
    decreases j
  {
    if j <= i + 1 then s else Resolve(RowPass(s, i, j - 1), i, j - 1)
  }

  /** One more step of the inner loop is one more `Resolve`. */
  lemma RowPassNext(s: seq<BodyState>, i: nat, j: nat)
    requires i < j < |s|
    ensures RowPass(s, i, j + 1) == Resolve(RowPass(s, i, j), i, j)
  {
  }

  /** The outer loop up to row `i`: the rows `0, ..., i - 1`, each on the states the previous left. */
  ghost function RowsPass(s: seq<BodyState>, i: nat): (r: seq<BodyState>)
    requires i <= |s|
    ensures |r| == |s|
  {
    if i == 0 then s else RowPass(RowsPass(s, i - 1), i - 1, |s|)
  }

  /** The collision pass of `Physics.update`: both loops over all `n` bodies. */
  ghost function CollisionPass(s: seq<BodyState>): (r: seq<BodyState>)
  {
    RowsPass(s, |s|)
  }

  /** Resolving `ps` and then `qs` is resolving `ps + qs`. */
  lemma {:induction false} ApplyPairsConcat(s: seq<BodyState>, ps: seq<(nat, nat)>, qs: seq<(nat, nat)>)
    ensures ApplyPairs(s, ps + qs) == ApplyPairs(ApplyPairs(s, ps), qs)
    decreases |qs|
  {
    if qs == [] {
      assert ps + qs == ps;
    } else {
      var qs' := qs[..|qs| - 1];
      ApplyPairsConcat(s, ps, qs');
      assert (ps + qs)[..|ps + qs| - 1] == ps + qs';
      assert (ps + qs)[|ps + qs| - 1] == qs[|qs| - 1];
    }
  }

  /** Resolving one more pair in range is one more `Resolve`. */
  lemma ApplyPairsSnoc(s: seq<BodyState>, ps: seq<(nat, nat)>, i: nat, j: nat)
    requires i < |s| && j < |s|
    ensures ApplyPairs(s, ps + [(i, j)]) == Resolve(ApplyPairs(s, ps), i, j)
  {
    assert (ps + [(i, j)])[..|ps|] == ps;
  }

  /** The inner loop for row `i` up to `j` resolves the pairs of `Row(i, lo, j)`, in order. */
  ghost predicate RowPassMatches(s: seq<BodyState>, i: nat, lo: nat, j: nat)
    requires i < |s| && j <= |s|
  {
    RowPass(s, i, j) == ApplyPairs(s, Row(i, lo, j))
  }

  /** One more step of the inner loop resolves one more pair of the row. */
  lemma RowPassStep(s: seq<BodyState>, i: nat, lo: nat, j: nat)
    requires lo == i + 1 && lo < j <= |s| && RowPassMatches(s, i, lo, j - 1)
    ensures RowPassMatches(s, i, lo, j)
  {
    ApplyPairsSnoc(s, Row(i, lo, j - 1), i, j - 1);
  }

  /** The inner loop resolves the pairs of `Row(i, i + 1, j)`, in order (`lo` names `i + 1`). */
  lemma RowPassIsApplyPairs(s: seq<BodyState>, i: nat, lo: nat, j: nat)
    requires i < |s| && j <= |s| && lo == i + 1
    ensures RowPass(s, i, j) == ApplyPairs(s, Row(i, lo, j))
  {
    var k := if j < lo then j else lo;
    assert Row(i, lo, k) == [];
    while k < j
      invariant k <= j && RowPassMatches(s, i, lo, k)
    {
      k := k + 1;
      RowPassStep(s, i, lo, k);
    }
  }

  /** Row `i - 1` of the outer loop is the inner loop's pairs resolved on the rows before it. */
  lemma RowsPassLastRow(s: seq<BodyState>, i: nat)
    requires 0 < i <= |s|
    ensures RowsPass(s, i) == ApplyPairs(RowsPass(s, i - 1), Row(i - 1, i, |s|))
  {
    RowPassIsApplyPairs(RowsPass(s, i - 1), i - 1, i, |s|);
  }

  /** Resolving row `i - 1` after the pairs of the rows before it resolves the pairs of `Rows(n, i)`. */
  lemma ApplyRowsStep(s: seq<BodyState>, i: nat)
    requires 0 < i <= |s|
    requires RowsPass(s, i - 1) == ApplyPairs(s, Rows(|s|, i - 1))
    ensures ApplyPairs(RowsPass(s, i - 1), Row(i - 1, i, |s|)) == ApplyPairs(s, Rows(|s|, i))
  {
    ApplyPairsConcat(s, Rows(|s|, i - 1), Row(i - 1, i, |s|));
  }

  /** The outer loop up to row `i` resolves the pairs of `Rows(n, i)`, in order. */
  ghost predicate RowsPassMatches(s: seq<BodyState>, i: nat)
    requires i <= |s|
  {
    RowsPass(s, i) == ApplyPairs(s, Rows(|s|, i))
  }

  /** One more row of the outer loop resolves one more row of pairs. */
  lemma RowsPassStep(s: seq<BodyState>, i: nat)
    requires 0 < i <= |s| && RowsPassMatches(s, i - 1)
    ensures RowsPassMatches(s, i)
  {
    RowsPassLastRow(s, i);
    ApplyRowsStep(s, i);
  }

  /** The outer loop resolves the pairs of `Rows(n, i)`, in order. */
  lemma RowsPassIsApplyPairs(s: seq<BodyState>, i: nat)
    requires i <= |s|
    ensures RowsPassMatches(s, i)
  {
    assert Rows(|s|, 0) == [];
    var k := 0;
    while k < i
      invariant k <= i && RowsPassMatches(s, k)
    {
      k := k + 1;
      RowsPassStep(s, k);
    }
  }

  /**
   * The collision pass resolves every pair `i < j` of the `n` bodies exactly
   * once, in increasing order, each on the states the previous pairs left.
   */
  lemma CollisionPassVisitsAllPairs(s: seq<BodyState>)
    ensures CollisionPass(s) == ApplyPairs(s, AllPairs(|s|))
    ensures forall p :: p in AllPairs(|s|) <==> p.0 < p.1 < |s|
    ensures StrictlyOrdered(AllPairs(|s|))
  {
    RowsPassIsApplyPairs(s, |s|);
    AllPairsExactlyOnce(|s|);
  }

  /** `t` differs from `s` in velocities only, which is transitive. */
  lemma SameButVelocityTrans(s: seq<BodyState>, t: seq<BodyState>, u: seq<BodyState>)
    requires SameButVelocity(s, t) && SameButVelocity(t, u)
    ensures SameButVelocity(s, u)
  {
  }

  /** Resolving pairs changes velocities only. */
  lemma {:induction false} ApplyPairsKeeps(s: seq<BodyState>, ps: seq<(nat, nat)>)
    ensures SameButVelocity(s, ApplyPairs(s, ps))
    decreases |ps|
  {
    if ps != [] {
      var r := ApplyPairs(s, ps[..|ps| - 1]);
      ApplyPairsKeeps(s, ps[..|ps| - 1]);
      var (i, j) := ps[|ps| - 1];
      if i < |r| && j < |r| {
        ResolveKeeps(r, i, j);
        SameButVelocityTrans(s, r, Resolve(r, i, j));
      }
    }
  }

  /** The collision pass changes velocities only: positions and everything else stay. */
  lemma CollisionPassKeepsPositions(s: seq<BodyState>)
    ensures |CollisionPass(s)| == |s|
    ensures forall k :: 0 <= k < |s| ==> CollisionPass(s)[k].position == s[k].position
    ensures forall k :: 0 <= k < |s| ==> CollisionPass(s)[k] == s[k].(velocity := CollisionPass(s)[k].velocity)
  {
    CollisionPassVisitsAllPairs(s);
    ApplyPairsKeeps(s, AllPairs(|s|));
  }

  // ================================================================ one tick

  /** The integration pass: every body's update, each on its own state. */
  ghost function IntegrateAll(level: Level, s: seq<BodyState>, vdelta: Vector): (r: seq<BodyState>)
    requires level.Valid()
    ensures |r| == |s| && forall k :: 0 <= k < |s| ==> r[k] == Advance(level, s[k], vdelta)
  {
    if s == [] then []
    else IntegrateAll(level, s[..|s| - 1], vdelta) + [Advance(level, s[|s| - 1], vdelta)]
  }

  /** One fixed tick of the physics system: integration, then collisions. */
  ghost function Tick(level: Level, s: seq<BodyState>, delta: real): (r: seq<BodyState>)
    requires level.Valid()
    ensures |r| == |s|
  {
    CollisionPass(IntegrateAll(level, s, Of(Scalar(delta))))
  }

  /**
   * Fixed and kinetic bodies never move during a tick, although the collision
   * pass may change their velocity.
   */
  lemma TickKeepsNonDynamicPositions(level: Level, s: seq<BodyState>, delta: real, k: nat)
    requires level.Valid() && k < |s| && s[k].kind != Dynamic
    ensures |Tick(level, s, delta)| == |s| && Tick(level, s, delta)[k].position == s[k].position
  {
    var integrated := IntegrateAll(level, s, Of(Scalar(delta)));
    assert integrated[k] == s[k];
    CollisionPassKeepsPositions(integrated);
  }

  // ================================================================ bodies and the system

  /** The states of a list of bodies, in list order. */
  ghost function StatesOf(bodies: seq<Body>): (r: seq<BodyState>)
    reads bodies
    ensures |r| == |bodies|
  {
    if bodies == [] then [] else StatesOf(bodies[..|bodies| - 1]) + [bodies[|bodies| - 1].State()]
  }

  /** Entry `k` of `StatesOf(bodies)` is the current state of `bodies[k]`. */
  lemma {:induction false} StatesOfIndex(bodies: seq<Body>)
    ensures forall k :: 0 <= k < |bodies| ==> StatesOf(bodies)[k] == bodies[k].State()
  {
    if bodies != [] {
      StatesOfIndex(bodies[..|bodies| - 1]);
    }
  }

  /** A body component: `FixedBody`, `DynamicBody` or `KineticBody`. */
  class Body {
    const system: Physics
    const kind: Kind
    /** Whether `Body.__init__` got past its checks. */
    var ready: bool
    var radius: real
    var mass: Mass
    var position: Vector
    var velocity: Vector
    var force: Vector

    function State(): BodyState
      reads this
    {
      BodyState(kind, position, velocity, force, radius, mass)
    }

    /** What `Component.__init__` leaves: a body bound to its system, attributes not yet set. */
    constructor Register(system: Physics, kind: Kind)
      ensures this.system == system && this.kind == kind && !ready
    {
      this.system := system;
      this.kind := kind;
      ready := false;
      radius, mass := 0.0, 1.0;
      position, velocity, force := Zero, Zero, Zero;
    }

    /**
     * The checks and assignments of `Body.__init__`: the position must have a
     * tile, then the radius and then the mass must be positive.
     */
    method Initialize(position: Vector, radius: real, mass: real) returns (r: Result<(), BodyError>)
      requires system.level.Valid()
      modifies this
      ensures system.level.Lookup(position.x, position.y).None? ==> r == Err(InvalidPosition)
      ensures system.level.Lookup(position.x, position.y).Some? && radius <= 0.0 ==> r == Err(InvalidRadius)
      ensures system.level.Lookup(position.x, position.y).Some? && radius > 0.0 && mass <= 0.0 ==> r == Err(InvalidMass)
      ensures r.Ok? <==> system.level.Lookup(position.x, position.y).Some? && radius > 0.0 && mass > 0.0
      ensures r.Ok? ==> ready && State() == BodyState(kind, position, Zero, Zero, radius, mass)
      ensures r.Err? ==> unchanged(this)
    {
      if system.level.Lookup(position.x, position.y).None? {
        return Err(InvalidPosition);
      }
      if radius <= 0.0 {
        return Err(InvalidRadius);
      }
      if mass <= 0.0 {
        return Err(InvalidMass);
      }
      this.radius := radius;
      this.mass := mass;
      this.position := position;
      velocity := Zero;
      force := Zero;
      ready := true;
      r := Ok(());
    }

    /** `update(vdelta)` of this body's kind. */
    method Update(vdelta: Vector)
      requires system.level.Valid()
      modifies this`position, this`velocity
      ensures State() == Advance(system.level, old(State()), vdelta)
    {
      match kind
      case Fixed =>
      case Kinetic =>
      case Dynamic =>
        var forces := Add(Mul(DragCoef, Vec(velocity)), Vec(force));
        var acceleration := Div(forces, Scalar(mass)).value;
        velocity := Add(velocity, Vec(Mul(acceleration, Vec(vdelta))));
        if !Eq(velocity, Zero) {
          var next := Add(position, Vec(Mul(velocity, Vec(vdelta))));
          var hTile := system.level.Lookup(next.x, position.y);
          var vTile := system.level.Lookup(position.x, next.y);
          if hTile.Some? && !hTile.value.Solid() {
            position := position.(x := next.x);
          }
          if vTile.Some? && !vTile.value.Solid() {
            position := position.(y := next.y);
          }
        }
    }
  }

  /** The physics system: one level and the bodies registered with it, in registration order. */
  class Physics {
    const level: Level
    var components: seq<Body>

    /**
     * The bodies are distinct, belong to this system, passed their checks,
     * and lie over a tile of the level. Velocities and forces play no part,
     * so the collision pass leaves it alone.
     */
    ghost predicate Valid()
      reads this, components`ready, components`radius, components`position
    {
      level.Valid() && Distinct() &&
      forall k :: 0 <= k < |components| ==> Placed(components[k])
    }

    /** No body is registered twice. */
    ghost predicate Distinct()
      reads this
    {
      forall i, j :: 0 <= i < j < |components| ==> components[i] != components[j]
    }

    /** A body of this system that passed its checks and lies over a tile of the level. */
    ghost predicate Placed(b: Body)
      reads b`ready, b`radius, b`position
    {
      level.Valid() && b.system == this && b.ready && b.radius > 0.0 &&
      level.Lookup(b.position.x, b.position.y).Some?
    }

    constructor(width: int, height: int, noise: (int, int) -> real)
      ensures Valid() && components == []
      ensures level.width == width && level.height == height && level.noise == noise
    {
      level := new Level(width, height, noise);
      components := [];
    }

    /**
     * `entity.attach(FixedBody | DynamicBody | KineticBody, position, radius, mass)`
     * as seen by this system: the new body is appended to `components` before
     * its checks run, so it stays registered (not ready) when they fail.
     */
    method NewBody(kind: Kind, position: Vector, radius: real, mass: real) returns (r: Result<Body, BodyError>)
      requires level.Valid()
      modifies this
      ensures |components| == |old(components)| + 1 && components[..|old(components)|] == old(components)
      ensures var b := components[|components| - 1];
        fresh(b) && b.system == this && b.kind == kind &&
        (level.Lookup(position.x, position.y).None? ==> r == Err(InvalidPosition)) &&
        (level.Lookup(position.x, position.y).Some? && radius <= 0.0 ==> r == Err(InvalidRadius)) &&
        (level.Lookup(position.x, position.y).Some? && radius > 0.0 && mass <= 0.0 ==> r == Err(InvalidMass)) &&
        (r.Ok? <==> level.Lookup(position.x, position.y).Some? && radius > 0.0 && mass > 0.0) &&
        (r.Ok? ==> r.value == b && b.ready && b.State() == BodyState(kind, position, Zero, Zero, radius, mass)) &&
        (r.Err? ==> !b.ready)
      ensures old(Valid()) && r.Ok? ==> Valid()
    {
      var b := new Body.Register(this, kind);
      components := components + [b];
      var checked := b.Initialize(position, radius, mass);
      match checked
      case Ok(_) => r := Ok(b);
      case Err(e) => r := Err(e);
    }

    /** One step of the integration loop: body `i` updates itself. */
    method IntegrateOne(i: nat, vdelta: Vector, ghost s0: seq<BodyState>)
      requires Valid() && i < |components| == |s0|
      requires forall k :: 0 <= k < i ==> components[k].State() == Advance(level, s0[k], vdelta)
      requires forall k :: i <= k < |components| ==> components[k].State() == s0[k]
      modifies {components[i]}`position, {components[i]}`velocity
      ensures Valid()
      ensures forall k :: 0 <= k <= i ==> components[k].State() == Advance(level, s0[k], vdelta)
      ensures forall k :: i < k < |components| ==> components[k].State() == s0[k]
    {
      AdvanceStaysInLevel(level, s0[i], vdelta);
      components[i].Update(vdelta);
    }

    /** The integration loop of `update`: every body's own update, in list order. */
    method Integrate(vdelta: Vector)
      requires Valid()
      modifies components`position, components`velocity
      ensures Valid()
      ensures StatesOf(components) == IntegrateAll(level, old(StatesOf(components)), vdelta)
    {
      ghost var s0 := StatesOf(components);
      StatesOfIndex(components);
      var i := 0;
      while i < |components|
        invariant 0 <= i <= |components|
        invariant Valid()
        invariant forall k :: 0 <= k < i ==> components[k].State() == Advance(level, s0[k], vdelta)
        invariant forall k :: i <= k < |components| ==> components[k].State() == s0[k]
      {
        IntegrateOne(i, vdelta, s0);
        i := i + 1;
      }
      StatesOfIndex(components);
    }

    /** One step of the collision loop: the pair `(i, j)` resolved on the current states. */
    method CollidePair(i: nat, j: nat)
      requires Distinct() && i < j < |components|
      modifies components`velocity
      ensures StatesOf(components) == Resolve(old(StatesOf(components)), i, j)
    {
      StatesOfIndex(components);
      var a, b := components[i], components[j];
      var (a', b') := Collide(a.State(), b.State());
      a.velocity := a'.velocity;
      b.velocity := b'.velocity;
      StatesOfIndex(components);
    }

    /** The inner collision loop of `update` for row `i`: the pairs `(i, j)`, `i < j`, in order. */
    method CollideRow(i: nat)
      requires Distinct() && i < |components|
      modifies components`velocity
      ensures StatesOf(components) == RowPass(old(StatesOf(components)), i, |components|)
    {
      ghost var s0 := StatesOf(components);
      var j := i + 1;
      while j < |components|
        invariant i + 1 <= j <= |components|
        invariant StatesOf(components) == RowPass(s0, i, j)
      {
        CollidePair(i, j);
        RowPassNext(s0, i, j);
        j := j + 1;
      }
      assert j == |components|;
    }

    /** Row `i` as the `i`-th step of the outer loop, started on states `s0`. */
    method CollideRowStep(i: nat, ghost s0: seq<BodyState>)
      requires Distinct() && i < |s0| == |components|
      requires StatesOf(components) == RowsPass(s0, i)
      modifies components`velocity
      ensures StatesOf(components) == RowsPass(s0, i + 1)
    {
      CollideRow(i);
    }

    /** The nested collision loops of `update`, over every pair `i < j` in order. */
    method Collisions()
      requires Valid()
      modifies components`velocity
      ensures Valid()
      ensures StatesOf(components) == CollisionPass(old(StatesOf(components)))
    {
      ghost var s0 := StatesOf(components);
      var i := 0;
      while i < |components|
        invariant 0 <= i <= |components|
        invariant StatesOf(components) == RowsPass(s0, i)
      {
        CollideRowStep(i, s0);
        i := i + 1;
      }
      assert i == |s0|;
    }

    /** `update(delta)`: every body's update in list order, then the collision pass. */
    method Update(delta: real)
      requires Valid()
      modifies components`position, components`velocity
      ensures Valid()
      ensures StatesOf(components) == Tick(level, old(StatesOf(components)), delta)
    {
      Integrate(Of(Scalar(delta)));
      Collisions();
    }
  }
}
