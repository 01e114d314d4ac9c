/** The collision physics shared by the data layer's ResolveCollision and the
    business layer's CalculateCollision: the centre distance, the unit normal
    from A to B, the one-dimensional elastic formula weighted by the two masses,
    and the resulting pair of velocities.

    The square root of the source is not computed: a distance `d` is an input
    that satisfies `IsDistance`, i.e. it is the non-negative number whose square
    is the squared centre distance. */
module Elastic {
  import opened Vectors

  /** The fixed ball diameter used by collision detection and correction. */
  const Diameter: real := 20.0

  /** dx * dx + dy * dy with dx, dy taken from p to q. */
  function SquaredDistance(p: Vector, q: Vector): real
  {
    (q.x - p.x) * (q.x - p.x) + (q.y - p.y) * (q.y - p.y)
  }

  predicate IsDistance(p: Vector, q: Vector, d: real)
  {
    d >= 0.0 && d * d == SquaredDistance(p, q)
  }

  /** The squared distance does not depend on the direction it is measured in. */
  lemma SquaredDistanceSymmetric(p: Vector, q: Vector)
    ensures SquaredDistance(p, q) == SquaredDistance(q, p)
    ensures SquaredDistance(p, q) >= 0.0
  {
  }

  /** The collision normal from the centre p to the centre q. */
  function Normal(p: Vector, q: Vector, d: real): Vector
    requires d != 0.0
  {
    Vector((q.x - p.x) / d, (q.y - p.y) / d)
  }

  lemma NormalIsUnit(p: Vector, q: Vector, d: real)
    requires IsDistance(p, q, d) && d > 0.0
    ensures IsUnit(Normal(p, q, d))
  {
    var n := Normal(p, q, d);
    SquareOfScaled(n.x, d, q.x - p.x);
    SquareOfScaled(n.y, d, q.y - p.y);
    PositiveProduct(d, d, d * d);
    ComponentsSumToOne(n.x * n.x, n.y * n.y, d * d, (q.x - p.x) * (q.x - p.x), (q.y - p.y) * (q.y - p.y));
  }

  lemma SquareOfScaled(k: real, d: real, c: real)
    requires k * d == c
    ensures c * c == (k * k) * (d * d)
  {
  }

  /** If a + b == e with a == s * e, b == t * e and e positive, then s + t == 1. */
  lemma ComponentsSumToOne(s: real, t: real, e: real, a: real, b: real)
    requires e > 0.0
    requires a == s * e
    requires b == t * e
    requires e == a + b
    ensures s + t == 1.0
  {
    calc {
      (s + t) * e;
      s * e + t * e;
      a + b;
      e;
    }
    CancelFactor(s + t, e);
  }

  lemma CancelFactor(x: real, e: real)
    requires e > 0.0 && x * e == e
    ensures x == 1.0
  {
  }

  lemma PositiveProduct(a: real, b: real, c: real)
    requires a > 0.0 && b > 0.0 && c == a * b
    ensures c > 0.0
  {
  }

  /** The centre of q seen from p lies d along the normal. */
  lemma NormalScaled(p: Vector, q: Vector, d: real)
    requires d > 0.0
    ensures Sub(q, p) == Scale(d, Normal(p, q, d))
  {
  }

  /** The normal from q to p is the opposite of the normal from p to q. */
  lemma NormalReversed(p: Vector, q: Vector, d: real)
    requires d != 0.0
    ensures Normal(q, p, d) == Scale(-1.0, Normal(p, q, d))
  {
  }

  function Sq(x: real): real
  {
    x * x
  }

  /** The one-dimensional elastic formula for the body with normal speed u and
      mass m1 meeting a body with normal speed w and mass m2. */
  function ElasticNormal(u: real, w: real, m1: real, m2: real): real
    requires m1 > 0.0 && m2 > 0.0
  {
    (u * (m1 - m2) + 2.0 * m2 * w) / (m1 + m2)
  }

  /** The formula conserves momentum along the normal. */
  lemma ElasticMomentum(u: real, w: real, m1: real, m2: real)
    requires m1 > 0.0 && m2 > 0.0
    ensures m1 * ElasticNormal(u, w, m1, m2) + m2 * ElasticNormal(w, u, m2, m1) == m1 * u + m2 * w
  {
    var u', w' := ElasticNormal(u, w, m1, m2), ElasticNormal(w, u, m2, m1);
    var m := m1 + m2;
    assert u' * m == u * (m1 - m2) + 2.0 * m2 * w;
    assert w' * m == w * (m2 - m1) + 2.0 * m1 * u;
    calc {
      (m1 * u' + m2 * w') * m;
      m1 * (u' * m) + m2 * (w' * m);
      m1 * (u * (m1 - m2) + 2.0 * m2 * w) + m2 * (w * (m2 - m1) + 2.0 * m1 * u);
      (m1 * u + m2 * w) * m;
    }
  }

  /** The relative normal velocity is reversed: the bodies separate as fast as they approached. */
  lemma ElasticRestitution(u: real, w: real, m1: real, m2: real)
    requires m1 > 0.0 && m2 > 0.0
    ensures ElasticNormal(w, u, m2, m1) - ElasticNormal(u, w, m1, m2) == u - w
  {
    var u', w' := ElasticNormal(u, w, m1, m2), ElasticNormal(w, u, m2, m1);
    var m := m1 + m2;
    assert u' * m == u * (m1 - m2) + 2.0 * m2 * w;
    assert w' * m == w * (m2 - m1) + 2.0 * m1 * u;
    assert (w' - u') * m == (u - w) * m;
  }

  /** The formula conserves kinetic energy along the normal. */
  lemma ElasticEnergy(u: real, w: real, m1: real, m2: real)
    requires m1 > 0.0 && m2 > 0.0
    ensures m1 * Sq(ElasticNormal(u, w, m1, m2)) + m2 * Sq(ElasticNormal(w, u, m2, m1))
         == m1 * Sq(u) + m2 * Sq(w)
  {
    var u', w' := ElasticNormal(u, w, m1, m2), ElasticNormal(w, u, m2, m1);
    ElasticMomentum(u, w, m1, m2);
    ElasticRestitution(u, w, m1, m2);
    assert m1 * (u' - u) == -(m2 * (w' - w));
    assert u' + u == w' + w;
    calc {
      m1 * u' * u' - m1 * u * u;
      (m1 * (u' - u)) * (u' + u);
      (-(m2 * (w' - w))) * (w' + w);
      m2 * w * w - m2 * w' * w';
    }
  }

  /** With equal masses the formula hands each body the other's normal speed. */
  lemma ElasticEqualMassesSwap(u: real, w: real, m: real)
    requires m > 0.0
    ensures ElasticNormal(u, w, m, m) == w
  {
    assert (u * (m - m) + 2.0 * m * w) == w * (m + m);
  }

  /** Reversing both normal speeds reverses the outcome. */
  lemma ElasticNegated(u: real, w: real, m1: real, m2: real)
    requires m1 > 0.0 && m2 > 0.0
    ensures ElasticNormal(-u, -w, m1, m2) == -ElasticNormal(u, w, m1, m2)
  {
    assert (-u) * (m1 - m2) + 2.0 * m2 * (-w) == -(u * (m1 - m2) + 2.0 * m2 * w);
  }

  /** The velocities of A (at pA, velocity vA, mass mA) and B after they collide,
      with d the distance between their centres: nothing changes when the
      centres coincide; otherwise each velocity keeps its tangential component
      and its normal component follows the one-dimensional elastic formula. */
  function CollisionVelocities(pA: Vector, vA: Vector, mA: real, pB: Vector, vB: Vector, mB: real, d: real): (r: (Vector, Vector))
    requires IsDistance(pA, pB, d)
    requires mA > 0.0 && mB > 0.0
    ensures d == 0.0 ==> r == (vA, vB)
    ensures d > 0.0 ==>
      var n := Normal(pA, pB, d);
      && Dot(r.0, Perp(n)) == Dot(vA, Perp(n))
      && Dot(r.1, Perp(n)) == Dot(vB, Perp(n))
      && Dot(r.0, n) == ElasticNormal(Dot(vA, n), Dot(vB, n), mA, mB)
      && Dot(r.1, n) == ElasticNormal(Dot(vB, n), Dot(vA, n), mB, mA)
  {
    if d == 0.0 then (vA, vB)
    else
      var n := Normal(pA, pB, d);
      var t := Perp(n);
      var vA_n, vA_t := Dot(vA, n), Dot(vA, t);
      var vB_n, vB_t := Dot(vB, n), Dot(vB, t);
      var vA_new_n := ElasticNormal(vA_n, vB_n, mA, mB);
      var vB_new_n := ElasticNormal(vB_n, vA_n, mB, mA);
      NormalIsUnit(pA, pB, d);
      RecomposeComponents(vA_new_n, vA_t, n);
      RecomposeComponents(vB_new_n, vB_t, n);
      (Recompose(vA_new_n, vA_t, n), Recompose(vB_new_n, vB_t, n))
  }

  /** A velocity is determined by its two components along the collision normal. */
  lemma CollisionResultDecomposed(pA: Vector, vA: Vector, mA: real, pB: Vector, vB: Vector, mB: real, d: real)
    requires IsDistance(pA, pB, d) && d > 0.0
    requires mA > 0.0 && mB > 0.0
    ensures var r, n := CollisionVelocities(pA, vA, mA, pB, vB, mB, d), Normal(pA, pB, d);
            && IsUnit(n)
            && r.0 == Recompose(ElasticNormal(Dot(vA, n), Dot(vB, n), mA, mB), Dot(vA, Perp(n)), n)
            && r.1 == Recompose(ElasticNormal(Dot(vB, n), Dot(vA, n), mB, mA), Dot(vB, Perp(n)), n)
  {
    NormalIsUnit(pA, pB, d);
  }

  /** The total momentum mA * vA + mB * vB is the same after the collision. */
  lemma CollisionConservesMomentum(pA: Vector, vA: Vector, mA: real, pB: Vector, vB: Vector, mB: real, d: real)
    requires IsDistance(pA, pB, d)
    requires mA > 0.0 && mB > 0.0
    ensures var r := CollisionVelocities(pA, vA, mA, pB, vB, mB, d);
            Add(Scale(mA, r.0), Scale(mB, r.1)) == Add(Scale(mA, vA), Scale(mB, vB))
  {
    if d > 0.0 {
      var r, n := CollisionVelocities(pA, vA, mA, pB, vB, mB, d), Normal(pA, pB, d);
      CollisionResultDecomposed(pA, vA, mA, pB, vB, mB, d);
      var a, b := Dot(vA, n), Dot(vB, n);
      var a', b' := ElasticNormal(a, b, mA, mB), ElasticNormal(b, a, mB, mA);
      var ta, tb := Dot(vA, Perp(n)), Dot(vB, Perp(n));
      ElasticMomentum(a, b, mA, mB);
      assert mA * a' + mB * b' == mA * a + mB * b;
      RecomposeLinear(mA, a', ta, mB, b', tb, n);
      RecomposeLinear(mA, a, ta, mB, b, tb, n);
      DecomposeRecompose(vA, n);
      DecomposeRecompose(vB, n);
      calc {
        Add(Scale(mA, r.0), Scale(mB, r.1));
        Add(Scale(mA, Recompose(a', ta, n)), Scale(mB, Recompose(b', tb, n)));
        Recompose(mA * a' + mB * b', mA * ta + mB * tb, n);
        Recompose(mA * a + mB * b, mA * ta + mB * tb, n);
        Add(Scale(mA, Recompose(a, ta, n)), Scale(mB, Recompose(b, tb, n)));
        Add(Scale(mA, vA), Scale(mB, vB));
      }
    }
  }

  /** Momentum along the normal in particular is conserved. */
  lemma CollisionConservesNormalMomentum(pA: Vector, vA: Vector, mA: real, pB: Vector, vB: Vector, mB: real, d: real)
    requires IsDistance(pA, pB, d) && d > 0.0
    requires mA > 0.0 && mB > 0.0
    ensures var r, n := CollisionVelocities(pA, vA, mA, pB, vB, mB, d), Normal(pA, pB, d);
            mA * Dot(r.0, n) + mB * Dot(r.1, n) == mA * Dot(vA, n) + mB * Dot(vB, n)
  {
    var n := Normal(pA, pB, d);
    ElasticMomentum(Dot(vA, n), Dot(vB, n), mA, mB);
  }

  /** The kinetic energy along the normal is the same after the collision. */
  lemma CollisionConservesNormalEnergy(pA: Vector, vA: Vector, mA: real, pB: Vector, vB: Vector, mB: real, d: real)
    requires IsDistance(pA, pB, d) && d > 0.0
    requires mA > 0.0 && mB > 0.0
    ensures var r, n := CollisionVelocities(pA, vA, mA, pB, vB, mB, d), Normal(pA, pB, d);
            mA * Sq(Dot(r.0, n)) + mB * Sq(Dot(r.1, n)) == mA * Sq(Dot(vA, n)) + mB * Sq(Dot(vB, n))
  {
    var n := Normal(pA, pB, d);
    ElasticEnergy(Dot(vA, n), Dot(vB, n), mA, mB);
  }

  /** The total kinetic energy mA * |vA|^2 + mB * |vB|^2 is the same after the collision. */
  lemma CollisionConservesEnergy(pA: Vector, vA: Vector, mA: real, pB: Vector, vB: Vector, mB: real, d: real)
    requires IsDistance(pA, pB, d)
    requires mA > 0.0 && mB > 0.0
    ensures var r := CollisionVelocities(pA, vA, mA, pB, vB, mB, d);
            mA * NormSq(r.0) + mB * NormSq(r.1) == mA * NormSq(vA) + mB * NormSq(vB)
  {
    if d > 0.0 {
      var r, n := CollisionVelocities(pA, vA, mA, pB, vB, mB, d), Normal(pA, pB, d);
      CollisionResultDecomposed(pA, vA, mA, pB, vB, mB, d);
      var a, b := Dot(vA, n), Dot(vB, n);
      var a', b' := ElasticNormal(a, b, mA, mB), ElasticNormal(b, a, mB, mA);
      var ta, tb := Dot(vA, Perp(n)), Dot(vB, Perp(n));
      ElasticEnergy(a, b, mA, mB);
      NormSqRecompose(a', ta, n);
      NormSqRecompose(b', tb, n);
      DecomposeRecompose(vA, n);
      DecomposeRecompose(vB, n);
      NormSqRecompose(a, ta, n);
      NormSqRecompose(b, tb, n);
      calc {
        mA * NormSq(r.0) + mB * NormSq(r.1);
        mA * (Sq(a') + Sq(ta)) + mB * (Sq(b') + Sq(tb));
        (mA * Sq(a') + mB * Sq(b')) + (mA * Sq(ta) + mB * Sq(tb));
        (mA * Sq(a) + mB * Sq(b)) + (mA * Sq(ta) + mB * Sq(tb));
        mA * (Sq(a) + Sq(ta)) + mB * (Sq(b) + Sq(tb));
        mA * NormSq(vA) + mB * NormSq(vB);
      }
    }
  }

  /** With equal masses the two bodies exchange their normal components. */
  lemma CollisionEqualMassesSwap(pA: Vector, vA: Vector, pB: Vector, vB: Vector, m: real, d: real)
    requires IsDistance(pA, pB, d) && d > 0.0
    requires m > 0.0
    ensures var r, n := CollisionVelocities(pA, vA, m, pB, vB, m, d), Normal(pA, pB, d);
            Dot(r.0, n) == Dot(vB, n) && Dot(r.1, n) == Dot(vA, n)
  {
    var n := Normal(pA, pB, d);
    ElasticEqualMassesSwap(Dot(vA, n), Dot(vB, n), m);
    ElasticEqualMassesSwap(Dot(vB, n), Dot(vA, n), m);
  }

  /** Exchanging the roles of A and B exchanges the two resulting velocities. */
  lemma CollisionSwapped(pA: Vector, vA: Vector, mA: real, pB: Vector, vB: Vector, mB: real, d: real)
    requires IsDistance(pA, pB, d)
    requires mA > 0.0 && mB > 0.0
    ensures IsDistance(pB, pA, d)
    ensures var r := CollisionVelocities(pA, vA, mA, pB, vB, mB, d);
            CollisionVelocities(pB, vB, mB, pA, vA, mA, d) == (r.1, r.0)
  {
    SquaredDistanceSymmetric(pA, pB);
    if d > 0.0 {
      var n := Normal(pA, pB, d);
      var m := Normal(pB, pA, d);
      NormalReversed(pA, pB, d);
      assert m == Scale(-1.0, n);
      assert Perp(m) == Scale(-1.0, Perp(n));
      var a, b := Dot(vA, n), Dot(vB, n);
      var ta, tb := Dot(vA, Perp(n)), Dot(vB, Perp(n));
      assert Dot(vA, m) == -a && Dot(vB, m) == -b;
      assert Dot(vA, Perp(m)) == -ta && Dot(vB, Perp(m)) == -tb;
      ElasticNegated(b, a, mB, mA);
      ElasticNegated(a, b, mA, mB);
      CollisionResultDecomposed(pA, vA, mA, pB, vB, mB, d);
      CollisionResultDecomposed(pB, vB, mB, pA, vA, mA, d);
      RecomposeOpposite(ElasticNormal(b, a, mB, mA), tb, n);
      RecomposeOpposite(ElasticNormal(a, b, mA, mB), ta, n);
    }
  }

  /** Negating both components and the normal gives the same vector. */
  lemma RecomposeOpposite(a: real, b: real, n: Vector)
    ensures Recompose(-a, -b, Scale(-1.0, n)) == Recompose(a, b, n)
  {
  }
}
