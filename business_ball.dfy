/** The ball of the business layer and its pure collision calculation: the
    same elastic collision as the data layer's ResolveCollision, returned as a
    pair of new velocities instead of being written into the balls. */
module BusinessLogic {
  import opened Vectors
  import opened Elastic
  import opened Balls
  import opened DataImplementation

  /** What CalculateCollision reads of a ball: `Left` is its x coordinate and
      `Top` its y coordinate. The per-ball `Diameter` is carried but never read. */
  datatype BusinessBall = BusinessBall(Top: real, Left: real, Velocity: Vector, Mass: real, Diameter: real)

  function Centre(b: BusinessBall): Vector
  {
    Vector(b.Left, b.Top)
  }

  /** The velocities of `self` and `other` after they collide, `distance`
      being the distance between their centres. */
  function CalculateCollision(self: BusinessBall, other: BusinessBall, distance: real): (r: (Vector, Vector))
    requires IsDistance(Centre(self), Centre(other), distance)
    requires self.Mass > 0.0 && other.Mass > 0.0
    ensures distance == 0.0 ==> r == (self.Velocity, other.Velocity)
    ensures Add(Scale(self.Mass, r.0), Scale(other.Mass, r.1))
         == Add(Scale(self.Mass, self.Velocity), Scale(other.Mass, other.Velocity))
    ensures self.Mass * NormSq(r.0) + other.Mass * NormSq(r.1)
         == self.Mass * NormSq(self.Velocity) + other.Mass * NormSq(other.Velocity)
    ensures distance > 0.0 ==>
      var n := Normal(Centre(self), Centre(other), distance);
      && Dot(r.0, Perp(n)) == Dot(self.Velocity, Perp(n))
      && Dot(r.1, Perp(n)) == Dot(other.Velocity, Perp(n))
      && Dot(r.0, n) == ElasticNormal(Dot(self.Velocity, n), Dot(other.Velocity, n), self.Mass, other.Mass)
      && Dot(r.1, n) == ElasticNormal(Dot(other.Velocity, n), Dot(self.Velocity, n), other.Mass, self.Mass)
      && self.Mass * Dot(r.0, n) + other.Mass * Dot(r.1, n) == self.Mass * Dot(self.Velocity, n) + other.Mass * Dot(other.Velocity, n)
  {
    var r := CollisionVelocities(Centre(self), self.Velocity, self.Mass, Centre(other), other.Velocity, other.Mass, distance);
    CollisionConservesMomentum(Centre(self), self.Velocity, self.Mass, Centre(other), other.Velocity, other.Mass, distance);
    CollisionConservesEnergy(Centre(self), self.Velocity, self.Mass, Centre(other), other.Velocity, other.Mass, distance);
    if distance > 0.0 then
      CollisionConservesNormalMomentum(Centre(self), self.Velocity, self.Mass, Centre(other), other.Velocity, other.Mass, distance);
      r
    else
      r
  }

  /** With equal masses the two balls exchange their normal components. */
  lemma CalculateCollisionEqualMassesSwap(self: BusinessBall, other: BusinessBall, distance: real)
    requires IsDistance(Centre(self), Centre(other), distance) && distance > 0.0
    requires self.Mass > 0.0 && self.Mass == other.Mass
    ensures var r, n := CalculateCollision(self, other, distance), Normal(Centre(self), Centre(other), distance);
            Dot(r.0, n) == Dot(other.Velocity, n) && Dot(r.1, n) == Dot(self.Velocity, n)
  {
    CollisionEqualMassesSwap(Centre(self), self.Velocity, Centre(other), other.Velocity, self.Mass, distance);
  }

  /** Asking the other ball gives the same pair, in the other order. */
  lemma CalculateCollisionSwapped(self: BusinessBall, other: BusinessBall, distance: real)
    requires IsDistance(Centre(self), Centre(other), distance)
    requires self.Mass > 0.0 && other.Mass > 0.0
    ensures IsDistance(Centre(other), Centre(self), distance)
    ensures var r := CalculateCollision(self, other, distance);
            CalculateCollision(other, self, distance) == (r.1, r.0)
  {
    CollisionSwapped(Centre(self), self.Velocity, self.Mass, Centre(other), other.Velocity, other.Mass, distance);
  }

  /** The data layer's ResolveCollision gives two balls with the same centres,
      velocities and masses exactly the velocities CalculateCollision returns. */
  lemma CalculateCollisionMatchesResolved(self: BusinessBall, other: BusinessBall, distance: real)
    requires IsDistance(Centre(self), Centre(other), distance)
    requires self.Mass > 0.0 && other.Mass > 0.0
    ensures var a, b := BallState(Centre(self), self.Velocity, self.Mass), BallState(Centre(other), other.Velocity, other.Mass);
            var s, r := Resolved(a, b, distance), CalculateCollision(self, other, distance);
            s.0.Velocity == r.0 && s.1.Velocity == r.1
  {
  }
}
