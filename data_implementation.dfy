/** The collision handling of the data layer: detection between two balls,
    resolution of one colliding pair in place, and the sweep that checks one
    ball against every ball of the list.

    Each operation on `Ball` objects is proved against a function on
    `BallState` values: `Resolved` for one pair, `Step` for one turn of the
    sweep and `Sweep` for the first turns of it. The square root is a parameter
    `sqrt` that is exact on non-negative numbers (`IsSqrt`). */
module DataImplementation {
  import opened Vectors
  import opened Elastic
  import opened Balls

  /** `sqrt` returns the non-negative square root of every non-negative number. */
  ghost predicate IsSqrt(sqrt: real -> real)
  {
    forall s: real :: s >= 0.0 ==> sqrt(s) >= 0.0 && sqrt(s) * sqrt(s) == s
  }

  /** The distance between two centres, as the square root of dx * dx + dy * dy. */
  function DistanceOf(p: Vector, q: Vector, sqrt: real -> real): (d: real)
    requires IsSqrt(sqrt)
    ensures IsDistance(p, q, d)
  {
    SquaredDistanceSymmetric(p, q);
    sqrt(SquaredDistance(p, q))
  }

  /** Whether the balls centred at `a` and `b` touch: their squared centre
      distance is below the square of the diameter. */
  function CheckCollision(a: Vector, b: Vector): (r: bool)
    ensures r <==> SquaredDistance(a, b) < Diameter * Diameter
  {
    SquaredDistanceSymmetric(a, b);
    assert Diameter * Diameter == 20.0 * 20.0;
    (a.x - b.x) * (a.x - b.x) + (a.y - b.y) * (a.y - b.y) < 20.0 * 20.0
  }

  lemma CheckCollisionSymmetric(a: Vector, b: Vector)
    ensures CheckCollision(a, b) == CheckCollision(b, a)
  {
    SquaredDistanceSymmetric(a, b);
  }

  /** Two balls collide exactly when their centres are closer than the diameter. */
  lemma CheckCollisionCloserThanDiameter(a: Vector, b: Vector, d: real)
    requires IsDistance(a, b, d)
    ensures CheckCollision(a, b) <==> d < Diameter
  {
    assert SquaredDistance(a, b) == d * d;
    if d < Diameter {
      SquareLess(d, Diameter);
    } else {
      SquareLess(Diameter, d);
    }
  }

  /** Squaring is monotone on the non-negative reals. */
  lemma SquareLess(x: real, y: real)
    requires 0.0 <= x <= y
    ensures x * x <= y * y
    ensures x < y ==> x * x < y * y
  {
    if x < y {
      PositiveProduct(y - x, y + x, y * y - x * x);
    }
  }

  /** Only a centre is at distance zero from itself. */
  lemma DistanceToItself(p: Vector, d: real)
    requires IsDistance(p, p, d)
    ensures d == 0.0
  {
    if d > 0.0 {
      PositiveProduct(d, d, d * d);
    }
  }

  /** The positions after the correction that ends ResolveCollision: when the
      centres are closer than the diameter, each ball is pushed back along the
      normal by half the overlap. */
  function Separate(pA: Vector, pB: Vector, d: real): (r: (Vector, Vector))
    requires IsDistance(pA, pB, d) && d > 0.0
    ensures Add(r.0, r.1) == Add(pA, pB)
    ensures Diameter - d <= 0.0 ==> r == (pA, pB)
  {
    var n := Normal(pA, pB, d);
    var overlap := Diameter - d;
    if overlap > 0.0 then
      var adjust := overlap * 0.5;
      (Vector(pA.x - n.x * adjust, pA.y - n.y * adjust), Vector(pB.x + n.x * adjust, pB.y + n.y * adjust))
    else
      (pA, pB)
  }

  /** When the balls overlap, each is pushed by half the overlap along the normal. */
  lemma SeparatedPositions(pA: Vector, pB: Vector, d: real, n: Vector, adjust: real)
    requires IsDistance(pA, pB, d) && d > 0.0 && Diameter - d > 0.0
    requires n == Normal(pA, pB, d) && adjust == (Diameter - d) * 0.5
    ensures Separate(pA, pB, d).0 == Vector(pA.x - n.x * adjust, pA.y - n.y * adjust)
    ensures Separate(pA, pB, d).1 == Vector(pB.x + n.x * adjust, pB.y + n.y * adjust)
  {
  }

  /** When the balls overlap, the correction leaves B exactly a diameter from
      A along the normal. */
  lemma SeparatedByDiameter(pA: Vector, pB: Vector, d: real)
    requires IsDistance(pA, pB, d) && d > 0.0 && Diameter - d > 0.0
    ensures var r := Separate(pA, pB, d);
            Sub(r.1, r.0) == Scale(Diameter, Normal(pA, pB, d)) && IsDistance(r.0, r.1, Diameter)
  {
    SeparatedAlongNormal(pA, pB, d, (Diameter - d) * 0.5);
  }

  /** Pushing A back and B forward by `adjust` along the normal, with
      d + 2 * adjust equal to the diameter, leaves the centres a diameter apart. */
  lemma SeparatedAlongNormal(pA: Vector, pB: Vector, d: real, adjust: real)
    requires IsDistance(pA, pB, d) && d > 0.0
    requires adjust == (Diameter - d) * 0.5
    ensures var n := Normal(pA, pB, d);
            var qA, qB := Vector(pA.x - n.x * adjust, pA.y - n.y * adjust), Vector(pB.x + n.x * adjust, pB.y + n.y * adjust);
            Sub(qB, qA) == Scale(Diameter, n) && IsDistance(qA, qB, Diameter)
  {
    var n := Normal(pA, pB, d);
    var qA, qB := Vector(pA.x - n.x * adjust, pA.y - n.y * adjust), Vector(pB.x + n.x * adjust, pB.y + n.y * adjust);
    NormalScaled(pA, pB, d);
    NormalIsUnit(pA, pB, d);
    assert qB.x - qA.x == d * n.x + 2.0 * adjust * n.x == Diameter * n.x;
    assert qB.y - qA.y == d * n.y + 2.0 * adjust * n.y == Diameter * n.y;
    ScaledUnitSquare(Diameter, n);
  }

  lemma ScaledUnitSquare(k: real, n: Vector)
    requires IsUnit(n)
    ensures (k * n.x) * (k * n.x) + (k * n.y) * (k * n.y) == k * k
  {
    calc {
      (k * n.x) * (k * n.x) + (k * n.y) * (k * n.y);
      (k * k) * (n.x * n.x + n.y * n.y);
      k * k;
    }
  }

  /** The states of two balls after ResolveCollision, with `d` the distance
      between their centres: nothing changes when the centres coincide;
      otherwise both velocities follow the elastic collision and the
      positions are separated. */
  function Resolved(a: BallState, b: BallState, d: real): (r: (BallState, BallState))
    requires IsDistance(a.Position, b.Position, d)
    requires a.Mass > 0.0 && b.Mass > 0.0
    ensures r.0.Mass == a.Mass && r.1.Mass == b.Mass
    ensures d == 0.0 ==> r == (a, b)
  {
    if d == 0.0 then (a, b)
    else
      var v := CollisionVelocities(a.Position, a.Velocity, a.Mass, b.Position, b.Velocity, b.Mass, d);
      var p := Separate(a.Position, b.Position, d);
      (BallState(p.0, v.0, a.Mass), BallState(p.1, v.1, b.Mass))
  }

  function MomentumX(s: BallState): real { s.Mass * s.Velocity.x }
  function MomentumY(s: BallState): real { s.Mass * s.Velocity.y }
  function KineticEnergy(s: BallState): real { s.Mass * NormSq(s.Velocity) }
  function PositionX(s: BallState): real { s.Position.x }
  function PositionY(s: BallState): real { s.Position.y }

  /** The quantities a resolved pair keeps: momentum on both axes, kinetic
      energy (twice of it) and the sum of the two positions. */
  predicate PairConserves(a: BallState, b: BallState, a': BallState, b': BallState)
  {
    && MomentumX(a') + MomentumX(b') == MomentumX(a) + MomentumX(b)
    && MomentumY(a') + MomentumY(b') == MomentumY(a) + MomentumY(b)
    && KineticEnergy(a') + KineticEnergy(b') == KineticEnergy(a) + KineticEnergy(b)
    && PositionX(a') + PositionX(b') == PositionX(a) + PositionX(b)
    && PositionY(a') + PositionY(b') == PositionY(a) + PositionY(b)
  }

  lemma ResolvedConserves(a: BallState, b: BallState, d: real)
    requires IsDistance(a.Position, b.Position, d)
    requires a.Mass > 0.0 && b.Mass > 0.0
    ensures var r := Resolved(a, b, d); PairConserves(a, b, r.0, r.1)
  {
    if d > 0.0 {
      CollisionConservesMomentum(a.Position, a.Velocity, a.Mass, b.Position, b.Velocity, b.Mass, d);
      CollisionConservesEnergy(a.Position, a.Velocity, a.Mass, b.Position, b.Velocity, b.Mass, d);
    }
  }

  /** Colliding balls with distinct centres end exactly a diameter apart. */
  lemma ResolvedSeparatesOverlap(a: BallState, b: BallState, d: real)
    requires IsDistance(a.Position, b.Position, d) && d > 0.0
    requires a.Mass > 0.0 && b.Mass > 0.0
    requires CheckCollision(a.Position, b.Position)
    ensures var r := Resolved(a, b, d); IsDistance(r.0.Position, r.1.Position, Diameter)
  {
    CheckCollisionCloserThanDiameter(a.Position, b.Position, d);
    SeparatedByDiameter(a.Position, b.Position, d);
  }

  /** The sum of `f` over the states. */
  function Total(t: seq<BallState>, f: BallState -> real): real
  {
    if t == [] then 0.0 else Total(t[..|t| - 1], f) + f(t[|t| - 1])
  }

  lemma {:induction false} TotalUpdate(t: seq<BallState>, i: nat, x: BallState, f: BallState -> real)
    requires i < |t|
    ensures Total(t[i := x], f) == Total(t, f) - f(t[i]) + f(x)
  {
    var last := |t| - 1;
    if i == last {
      assert t[i := x][..last] == t[..last];
    } else {
      assert t[i := x][..last] == t[..last][i := x];
      TotalUpdate(t[..last], i, x, f);
    }
  }

  /** The totals a collision sweep keeps: the momentum of the system on both
      axes, its kinetic energy and the sum of the positions. */
  predicate Conserves(t: seq<BallState>, u: seq<BallState>)
  {
    && Total(u, MomentumX) == Total(t, MomentumX)
    && Total(u, MomentumY) == Total(t, MomentumY)
    && Total(u, KineticEnergy) == Total(t, KineticEnergy)
    && Total(u, PositionX) == Total(t, PositionX)
    && Total(u, PositionY) == Total(t, PositionY)
  }

  predicate PositiveMasses(t: seq<BallState>)
  {
    forall i :: 0 <= i < |t| ==> t[i].Mass > 0.0
  }

  /** One turn of the loop in CheckCollisions on the states: the ball at index
      `k` against the ball at index `j`. */
  function Step(t: seq<BallState>, k: nat, j: nat, sqrt: real -> real): (r: seq<BallState>)
    requires k < |t| && j < |t|
    requires PositiveMasses(t)
    requires IsSqrt(sqrt)
    ensures |r| == |t|
    ensures forall i :: 0 <= i < |t| ==> r[i].Mass == t[i].Mass
    ensures forall i :: 0 <= i < |t| && i != k && i != j ==> r[i] == t[i]
    ensures j == k || !CheckCollision(t[k].Position, t[j].Position) ==> r == t
  {
    if j != k && CheckCollision(t[k].Position, t[j].Position) then
      var p := Resolved(t[k], t[j], DistanceOf(t[k].Position, t[j].Position, sqrt));
      t[k := p.0][j := p.1]
    else
      t
  }

  lemma StepConserves(t: seq<BallState>, k: nat, j: nat, sqrt: real -> real)
    requires k < |t| && j < |t|
    requires PositiveMasses(t)
    requires IsSqrt(sqrt)
    ensures Conserves(t, Step(t, k, j, sqrt))
  {
    if j != k && CheckCollision(t[k].Position, t[j].Position) {
      var d := DistanceOf(t[k].Position, t[j].Position, sqrt);
      var p := Resolved(t[k], t[j], d);
      ResolvedConserves(t[k], t[j], d);
      var u := t[k := p.0];
      assert u[j] == t[j];
      TotalUpdate(t, k, p.0, MomentumX);
      TotalUpdate(u, j, p.1, MomentumX);
      TotalUpdate(t, k, p.0, MomentumY);
      TotalUpdate(u, j, p.1, MomentumY);
      TotalUpdate(t, k, p.0, KineticEnergy);
      TotalUpdate(u, j, p.1, KineticEnergy);
      TotalUpdate(t, k, p.0, PositionX);
      TotalUpdate(u, j, p.1, PositionX);
      TotalUpdate(t, k, p.0, PositionY);
      TotalUpdate(u, j, p.1, PositionY);
    }
  }

  /** The states after the first `n` turns of the loop in CheckCollisions for
      the ball at index `k`. */
  function Sweep(t: seq<BallState>, k: nat, n: nat, sqrt: real -> real): (r: seq<BallState>)
    requires k < |t| && n <= |t|
    requires PositiveMasses(t)
    requires IsSqrt(sqrt)
    ensures |r| == |t|
    ensures PositiveMasses(r)
    decreases n, 0
  {
    if n == 0 then t else Turn(t, k, n - 1, sqrt)
  }

  /** Turn `j` of the loop in CheckCollisions, taken on the states after the
      first `j` turns. */
  function Turn(t: seq<BallState>, k: nat, j: nat, sqrt: real -> real): (r: seq<BallState>)
    requires k < |t| && j < |t|
    requires PositiveMasses(t)
    requires IsSqrt(sqrt)
    ensures |r| == |t|
    ensures PositiveMasses(r)
    decreases j, 1
  {
    Step(Sweep(t, k, j, sqrt), k, j, sqrt)
  }

  /** The sweep changes no ball's mass. */
  lemma {:induction false} SweepKeepsMasses(t: seq<BallState>, k: nat, n: nat, sqrt: real -> real)
    requires k < |t| && n <= |t|
    requires PositiveMasses(t)
    requires IsSqrt(sqrt)
    ensures forall i :: 0 <= i < |t| ==> Sweep(t, k, n, sqrt)[i].Mass == t[i].Mass
  {
    if n > 0 {
      SweepKeepsMasses(t, k, n - 1, sqrt);
    }
  }

  lemma {:induction false} SweepConserves(t: seq<BallState>, k: nat, n: nat, sqrt: real -> real)
    requires k < |t| && n <= |t|
    requires PositiveMasses(t)
    requires IsSqrt(sqrt)
    ensures Conserves(t, Sweep(t, k, n, sqrt))
  {
    if n > 0 {
      SweepConserves(t, k, n - 1, sqrt);
      StepConserves(Sweep(t, k, n - 1, sqrt), k, n - 1, sqrt);
    }
  }

  /** Every other ball is looked at once, at its own turn: it is resolved
      against the ball at index `k` as that ball then is, if they collide at
      that moment, and is left alone otherwise. */
  lemma {:induction false} SweepOther(t: seq<BallState>, k: nat, n: nat, i: nat, sqrt: real -> real)
    requires k < |t| && n <= |t| && i < |t| && i != k
    requires PositiveMasses(t)
    requires IsSqrt(sqrt)
    ensures var before := Sweep(t, k, i, sqrt);
            Sweep(t, k, n, sqrt)[i]
            == if i < n && CheckCollision(before[k].Position, t[i].Position)
               then Resolved(before[k], t[i], DistanceOf(before[k].Position, t[i].Position, sqrt)).1
               else t[i]
  {
    if n > 0 {
      SweepOther(t, k, n - 1, i, sqrt);
      if n - 1 == i {
        SweepOther(t, k, i, i, sqrt);
      }
    }
  }

  function States(balls: seq<Ball>): (r: seq<BallState>)
    reads balls
    ensures |r| == |balls|
    ensures forall i :: 0 <= i < |balls| ==> r[i] == balls[i].State()
  {
    seq(|balls|, i reads balls requires 0 <= i < |balls| => balls[i].State())
  }

  predicate Distinct(balls: seq<Ball>)
  {
    forall i, j :: 0 <= i < j < |balls| ==> balls[i] != balls[j]
  }

  /** Resolves the collision of `a` and `b` in place. */
  method ResolveCollision(a: Ball, b: Ball, sqrt: real -> real)
    requires a.Mass > 0.0 && b.Mass > 0.0
    requires IsSqrt(sqrt)
    modifies a`Position, a`Velocity, b`Position, b`Velocity
    ensures var r := Resolved(old(a.State()), old(b.State()), DistanceOf(old(a.Position), old(b.Position), sqrt));
            a.State() == r.0 && b.State() == r.1
  {
    ghost var pA, pB := a.Position, b.Position;
    var dx := b.Position.x - a.Position.x;
    var dy := b.Position.y - a.Position.y;
    var distance := DistanceOf(a.Position, b.Position, sqrt);
    if a == b {
      DistanceToItself(a.Position, distance);
    }
    if distance == 0.0 {
      return;
    }
    var n := Vector(dx / distance, dy / distance);
    var velocities := CollisionVelocities(a.Position, a.Velocity, a.Mass, b.Position, b.Velocity, b.Mass, distance);
    a.Velocity := velocities.0;
    b.Velocity := velocities.1;
    var overlap := Diameter - distance;
    if overlap > 0.0 {
      var adjust := overlap * 0.5;
      a.Position := Vector(a.Position.x - n.x * adjust, a.Position.y - n.y * adjust);
      b.Position := Vector(b.Position.x + n.x * adjust, b.Position.y + n.y * adjust);
      SeparatedPositions(pA, pB, distance, n, adjust);
    }
  }

  /** `u` holds the states after the first `j` turns from `start`. */
  ghost predicate SweptTo(u: seq<BallState>, start: seq<BallState>, k: nat, j: nat, sqrt: real -> real)
    requires k < |start| && j <= |start| && PositiveMasses(start) && IsSqrt(sqrt)
  {
    u == Sweep(start, k, j, sqrt)
  }

  /** One turn of the loop in CheckCollisions: `ball`, at index `k`, against
      the ball at index `j`, resolving the collision when they overlap. After
      it the states are those of the first `j + 1` turns from `start`. */
  method CheckPair(ball: Ball, balls: seq<Ball>, ghost start: seq<BallState>, ghost k: nat, j: nat, sqrt: real -> real)
    requires k < |balls| && j < |balls| && balls[k] == ball && Distinct(balls)
    requires |start| == |balls| && PositiveMasses(start)
    requires IsSqrt(sqrt)
    requires SweptTo(States(balls), start, k, j, sqrt)
    modifies balls`Position, balls`Velocity
    ensures SweptTo(States(balls), start, k, j + 1, sqrt)
  {
    ghost var before := States(balls);
    var otherBall := balls[j];
    if ball != otherBall && CheckCollision(ball.Position, otherBall.Position) {
      ResolveCollision(ball, otherBall, sqrt);
      forall i | 0 <= i < |balls| && i != k && i != j
        ensures balls[i].State() == before[i]
      {
        assert balls[i] != ball && balls[i] != otherBall;
      }
      assert States(balls) == before[k := ball.State()][j := otherBall.State()];
    }
  }

  /** Checks `ball` against every ball of `balls` in order, skipping itself,
      and resolves each collision found. */
  method CheckCollisions(ball: Ball, balls: seq<Ball>, ghost k: nat, sqrt: real -> real)
    requires k < |balls| && balls[k] == ball && Distinct(balls)
    requires PositiveMasses(States(balls))
    requires IsSqrt(sqrt)
    modifies balls`Position, balls`Velocity
    ensures States(balls) == Sweep(old(States(balls)), k, |balls|, sqrt)
  {
    ghost var start := States(balls);
    for j := 0 to |balls|
      invariant SweptTo(States(balls), start, k, j, sqrt)
    {
      CheckPair(ball, balls, start, k, j, sqrt);
    }
  }

  /** One turn of the thread of `ball`, under the lock of the list: it moves
      by its own velocity and is then checked against every ball. The
      notification raised by the move carries the position before any
      collision correction. */
  method MoveAndCheckCollisions(ball: Ball, balls: seq<Ball>, sqrt: real -> real)
    requires ball in balls && Distinct(balls)
    requires PositiveMasses(States(balls))
    requires IsSqrt(sqrt)
    modifies balls`Position, balls`Velocity, ball`Notifications
    ensures forall k :: 0 <= k < |balls| && balls[k] == ball ==>
              States(balls) == Sweep(old(States(balls))[k := Moved(old(ball.State()), old(ball.Velocity))], k, |balls|, sqrt)
    ensures ball.Notifications == old(ball.Notifications) + [Moved(old(ball.State()), old(ball.Velocity)).Position]
  {
    ghost var k :| 0 <= k < |balls| && balls[k] == ball;
    ghost var start := States(balls);
    ball.Move(Vector(ball.Velocity.x, ball.Velocity.y));
    forall i | 0 <= i < |balls| && i != k
      ensures balls[i].State() == start[i]
    {
      assert balls[i] != ball;
    }
    assert States(balls) == start[k := ball.State()];
    CheckCollisions(ball, balls, k, sqrt);
    forall k' | 0 <= k' < |balls| && balls[k'] == ball
      ensures k' == k
    {
    }
  }
}
