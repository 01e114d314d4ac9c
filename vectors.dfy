/** The immutable two-dimensional vector record of the data layer, with the
    dot-product decomposition the collision resolver uses: a velocity is split
    into its component along a unit normal `n` and along the tangent `Perp(n)`,
    and later rebuilt from the two scalars with `Recompose`. */
module Vectors {

  datatype Vector = Vector(x: real, y: real)

  function Add(u: Vector, v: Vector): Vector
  {
    Vector(u.x + v.x, u.y + v.y)
  }

  function Sub(u: Vector, v: Vector): Vector
  {
    Vector(u.x - v.x, u.y - v.y)
  }

  function Scale(k: real, v: Vector): Vector
  {
    Vector(k * v.x, k * v.y)
  }

  function Dot(u: Vector, v: Vector): real
  {
    u.x * v.x + u.y * v.y
  }

  function NormSq(v: Vector): real
  {
    Dot(v, v)
  }

  /** The tangent of the resolver: the normal turned a quarter turn, t = (-n.y, n.x). */
  function Perp(n: Vector): Vector
  {
    Vector(-n.y, n.x)
  }

  predicate IsUnit(n: Vector)
  {
    NormSq(n) == 1.0
  }

  /** The vector whose normal component is `a` and tangential component is `b`,
      written as the resolver writes it: a * n + b * t. */
  function Recompose(a: real, b: real, n: Vector): Vector
  {
    Vector(a * n.x + b * Perp(n).x, a * n.y + b * Perp(n).y)
  }

  /** Decomposing a recomposed vector gives back its two components. */
  lemma RecomposeComponents(a: real, b: real, n: Vector)
    requires IsUnit(n)
    ensures Dot(Recompose(a, b, n), n) == a
    ensures Dot(Recompose(a, b, n), Perp(n)) == b
  {
    var r := Recompose(a, b, n);
    calc {
      Dot(r, n);
      (a * n.x - b * n.y) * n.x + (a * n.y + b * n.x) * n.y;
      a * (n.x * n.x + n.y * n.y);
      a;
    }
    calc {
      Dot(r, Perp(n));
      -(a * n.x - b * n.y) * n.y + (a * n.y + b * n.x) * n.x;
      b * (n.x * n.x + n.y * n.y);
      b;
    }
  }

  /** Recomposing the two components of a vector gives back the vector. */
  lemma DecomposeRecompose(v: Vector, n: Vector)
    requires IsUnit(n)
    ensures Recompose(Dot(v, n), Dot(v, Perp(n)), n) == v
  {
    var r := Recompose(Dot(v, n), Dot(v, Perp(n)), n);
    calc {
      r.x;
      (v.x * n.x + v.y * n.y) * n.x + (-v.x * n.y + v.y * n.x) * -n.y;
      v.x * (n.x * n.x + n.y * n.y);
      v.x;
    }
    calc {
      r.y;
      (v.x * n.x + v.y * n.y) * n.y + (-v.x * n.y + v.y * n.x) * n.x;
      v.y * (n.x * n.x + n.y * n.y);
      v.y;
    }
  }

  /** Along an orthonormal pair the squared length is the sum of the squared components. */
  lemma NormSqRecompose(a: real, b: real, n: Vector)
    requires IsUnit(n)
    ensures NormSq(Recompose(a, b, n)) == a * a + b * b
  {
    var r := Recompose(a, b, n);
    calc {
      NormSq(r);
      (a * n.x - b * n.y) * (a * n.x - b * n.y) + (a * n.y + b * n.x) * (a * n.y + b * n.x);
      (a * a + b * b) * (n.x * n.x + n.y * n.y);
      a * a + b * b;
    }
  }

  /** Recomposition is linear in the two components. */
  lemma RecomposeLinear(k1: real, a1: real, b1: real, k2: real, a2: real, b2: real, n: Vector)
    ensures Add(Scale(k1, Recompose(a1, b1, n)), Scale(k2, Recompose(a2, b2, n)))
         == Recompose(k1 * a1 + k2 * a2, k1 * b1 + k2 * b2, n)
  {
  }
}
