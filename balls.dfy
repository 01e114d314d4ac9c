/** The ball of the data layer: a position and a velocity that `Move` updates
    in place, reflecting the step off the walls of the arena, and the stream
    of position notifications it raises, kept as a ghost log. */
module Balls {
  import opened Vectors

  /** The arena is [0, ArenaWidth] x [0, ArenaHeight]. */
  const ArenaWidth: real := 375.0
  const ArenaHeight: real := 395.0

  /** A snapshot of the state of one ball: what the collision code reads and writes. */
  datatype BallState = BallState(Position: Vector, Velocity: Vector, Mass: real)

  predicate InArena(p: Vector)
  {
    0.0 <= p.x <= ArenaWidth && 0.0 <= p.y <= ArenaHeight
  }

  /** A step no longer than half the arena's extent on either axis. */
  predicate ShortStep(delta: Vector)
  {
    -ArenaWidth / 2.0 <= delta.x <= ArenaWidth / 2.0 && -ArenaHeight / 2.0 <= delta.y <= ArenaHeight / 2.0
  }

  /** One axis of the wall reflection: the step along an axis of extent `extent`,
      taken from coordinate `p`, after it has been reflected off the wall. */
  function ReflectAxis(p: real, step: real, extent: real): (r: real)
    ensures r == step || r == -step
    ensures 0.0 <= p + step <= extent ==> r == step
    ensures p + step < 0.0 ==> r == -step
    ensures p + step > extent ==> r == -step
    ensures 0.0 <= p <= extent && -extent / 2.0 <= step <= extent / 2.0 ==> 0.0 <= p + r <= extent
  {
    if p + step < 0.0 || p + step > extent then -step else step
  }

  /** The velocity `Move` stores: `delta` with each axis reflected on its own,
      both candidate coordinates being taken from the position before the move. */
  function Reflect(p: Vector, delta: Vector): (r: Vector)
    ensures r.x == ReflectAxis(p.x, delta.x, ArenaWidth)
    ensures r.y == ReflectAxis(p.y, delta.y, ArenaHeight)
  {
    Vector(ReflectAxis(p.x, delta.x, ArenaWidth), ReflectAxis(p.y, delta.y, ArenaHeight))
  }

  /** Reflection changes the direction of a step, never its length. */
  lemma ReflectKeepsSpeed(p: Vector, delta: Vector)
    ensures NormSq(Reflect(p, delta)) == NormSq(delta)
  {
    var r := Reflect(p, delta);
    assert r.x * r.x == delta.x * delta.x;
    assert r.y * r.y == delta.y * delta.y;
  }

  /** A ball inside the arena that takes a short step stays inside. */
  lemma ReflectStaysInArena(p: Vector, delta: Vector)
    requires InArena(p) && ShortStep(delta)
    ensures InArena(Add(p, Reflect(p, delta)))
  {
  }

  /** A ball beyond either wall that heads back towards the arena, by less
      than it is beyond it, is sent away again: two moves later it is where it
      was, with the velocity it had, so it never comes back in. */
  lemma ReflectAxisOutsideOscillates(p: real, step: real, extent: real)
    requires (step < 0.0 && p + step > extent) || (step > 0.0 && p + step < 0.0)
    ensures ReflectAxis(p, step, extent) == -step
    ensures ReflectAxis(p - step, -step, extent) == step
    ensures p - step > extent || p - step < 0.0
  {
  }

  /** The state `Move` leaves behind: the reflected step becomes the velocity
      and is added to the position. The move keeps the speed and the mass, and
      a short step from inside the arena ends inside it. */
  function Moved(s: BallState, delta: Vector): (r: BallState)
    ensures r.Mass == s.Mass
    ensures NormSq(r.Velocity) == NormSq(delta)
    ensures InArena(s.Position) && ShortStep(delta) ==> InArena(r.Position)
  {
    var step := Reflect(s.Position, delta);
    ReflectKeepsSpeed(s.Position, delta);
    if InArena(s.Position) && ShortStep(delta) then
      ReflectStaysInArena(s.Position, delta);
      BallState(Add(s.Position, step), step, s.Mass)
    else
      BallState(Add(s.Position, step), step, s.Mass)
  }

  class Ball {
    var Position: Vector
    var Velocity: Vector
    const Mass: real
    /** Every position notification raised so far, oldest first. */
    ghost var Notifications: seq<Vector>

    constructor (initialPosition: Vector, initialVelocity: Vector, mass: real)
      ensures Position == initialPosition && Velocity == initialVelocity && Mass == mass
      ensures Notifications == []
    {
      Position := initialPosition;
      Velocity := initialVelocity;
      Mass := mass;
      Notifications := [];
    }

    function State(): BallState
      reads this
    {
      BallState(Position, Velocity, Mass)
    }

    /** Raises one notification that carries the current position. */
    method RaiseNewPositionChangeNotification()
      modifies this`Notifications
      ensures Notifications == old(Notifications) + [Position]
    {
      Notifications := Notifications + [Position];
    }

    /** Moves the ball by `delta`, reflected off the walls, stores the reflected
        step as the new velocity and raises one notification. */
    method Move(delta: Vector)
      modifies this`Position, this`Velocity, this`Notifications
      ensures Velocity.x == (if old(Position).x + delta.x < 0.0 || old(Position).x + delta.x > ArenaWidth then -delta.x else delta.x)
      ensures Velocity.y == (if old(Position).y + delta.y < 0.0 || old(Position).y + delta.y > ArenaHeight then -delta.y else delta.y)
      ensures Velocity == Reflect(old(Position), delta)
      ensures Position == Add(old(Position), Velocity)
      ensures InArena(old(Position)) && ShortStep(delta) ==> InArena(Position)
      ensures NormSq(Velocity) == NormSq(delta)
      ensures Notifications == old(Notifications) + [Position]
      ensures State() == Moved(old(State()), delta)
    {
      var newX := Position.x + delta.x;
      var newY := Position.y + delta.y;
      var step := delta;
      if newX < 0.0 || newX > ArenaWidth {
        step := step.(x := -step.x);
      }
      if newY < 0.0 || newY > ArenaHeight {
        step := step.(y := -step.y);
      }
      ReflectKeepsSpeed(Position, delta);
      if InArena(Position) && ShortStep(delta) {
        ReflectStaysInArena(Position, delta);
      }
      Position := Vector(Position.x + step.x, Position.y + step.y);
      Velocity := step;
      RaiseNewPositionChangeNotification();
    }
  }
}
