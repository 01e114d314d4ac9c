# Ball physics kernel of the concurrent-balls simulation

The simulation moves balls around a rectangular arena. Each ball has its own
thread. On every turn, holding the lock of the ball list, the thread moves its
ball by its velocity, reflecting it off the walls, and then checks the ball
against every other ball. Each pair found overlapping is resolved as an elastic
collision, and the two balls are pushed apart. The business layer holds a pure
copy of the collision formula that returns the new pair of velocities.

This project models that kernel on real numbers:

- `Vectors`: the vector record, the dot product, and the split of a velocity
  into its components along a unit normal `n` and its tangent `(-n.y, n.x)`,
  with the rebuilding of a velocity from the two components.
- `Elastic`: the parts shared by the data layer's `ResolveCollision` and the
  business layer's `CalculateCollision`:
  - the squared centre distance;
  - the unit normal from A to B;
  - the one-dimensional elastic formula `(u*(m1-m2) + 2*m2*w)/(m1+m2)`;
  - `CollisionVelocities`, the resulting pair of velocities.
  
  The lemmas prove that a collision conserves momentum (along the normal and
  as a vector) and kinetic energy (along the normal and in total). With equal
  masses the normal components are exchanged. Exchanging the two balls
  exchanges the results.
- `Balls`: the data-layer ball as a class.
  - `Position` and `Velocity` are updated in place by `Move`.
  - The `Mass` is fixed at construction.
  - The position notifications are a ghost log. `Move` appends exactly one
    entry, and that entry is the new position.
  - `Move` stores as velocity the step after wall reflection and adds it to
    the position. `ReflectAxis` describes that step on one axis, from the
    position before the move; `Moved` is the whole new state.
- `DataImplementation`: the collision handling of the data layer.
  - `CheckCollision` reports whether two balls overlap, i.e. whether their
    centres are closer than the diameter 20. Balls exactly 20 apart touch but
    are not reported.
  - `ResolveCollision` resolves one colliding pair in place.
  - `CheckCollisions` is the loop that checks one ball against every ball of
    the list.
  - `MoveAndCheckCollisions` is one turn of a ball's thread.

  Each method is proved against a function on `BallState` values:
  - `Resolved` for one pair;
  - `Step` for one turn of the loop;
  - `Sweep` for the first `n` turns.

  Lemmas show that every turn, and so the whole sweep, keeps four totals:
  - the total momentum on both axes;
  - the total kinetic energy;
  - the sum of the positions.

  `SweepOther` shows that every other ball is looked at exactly once, at its
  own turn, against the current state of the checked ball.
- `BusinessLogic`: the business-layer ball as a value and `CalculateCollision`
  as a function of it. A lemma proves that its velocities are those
  `ResolveCollision` writes.

`Math.Sqrt` is not computed. The pure functions take the centre distance `d`
as an input that satisfies `IsDistance`: `d >= 0` and `d*d == dx*dx + dy*dy`.
The methods take a function `sqrt` that is exact on non-negative numbers
(`IsSqrt`). When the centres differ, the normal `(dx/d, dy/d)` then has length
one (`NormalIsUnit`).

Two observations about the code as written:

- The wall test of `Move` (ETAP0/ReactiveInteractiveUserInterface/Data/Ball.cs:50-57)
  looks at the candidate coordinate, not at the direction of motion. A ball
  that is beyond either wall and heads back in, by less than it is beyond it, is
  reflected away again. Two moves later it is back where it started, with the
  same velocity, so it never re-enters the arena (`ReflectAxisOutsideOscillates`).
  A ball can get outside the arena through the positional correction of
  `ResolveCollision`, which ignores the walls.
- The notification raised by `Move` carries the position before the collision
  correction of the same turn (`MoveAndCheckCollisions`).

## Model

| member | source | states |
|---|---|---|
| Vectors.RecomposeComponents | ETAP1/ReactiveInteractiveUserInterface/Data/DataImplementation.cs:150-172 | a velocity rebuilt as `a*n + b*t` from a unit normal has normal component `a` and tangential component `b` |
| Vectors.DecomposeRecompose | ETAP1/ReactiveInteractiveUserInterface/Data/DataImplementation.cs:150-157 | rebuilding a velocity from its normal and tangential components gives the velocity back |
| Vectors.NormSqRecompose | ETAP1/ReactiveInteractiveUserInterface/Data/DataImplementation.cs:164-172 | the squared speed of `a*n + b*t` is `a*a + b*b` |
| Vectors.RecomposeLinear | ETAP1/ReactiveInteractiveUserInterface/Data/DataImplementation.cs:164-172 | rebuilding is linear in the two components |
| Elastic.SquaredDistanceSymmetric | ETAP1/ReactiveInteractiveUserInterface/Data/DataImplementation.cs:135-137 | `dx*dx + dy*dy` does not depend on which centre it is measured from, and is never negative |
| Elastic.NormalIsUnit | ETAP1/ReactiveInteractiveUserInterface/Data/DataImplementation.cs:143-149 | for distinct centres the collision normal `(dx/d, dy/d)` has length one |
| Elastic.NormalScaled | ETAP1/ReactiveInteractiveUserInterface/Data/DataImplementation.cs:143-149 | B's centre lies `d` along the normal from A's centre |
| Elastic.NormalReversed | ETAP1/ReactiveInteractiveUserInterface/Data/DataImplementation.cs:143-149 | the normal from B to A is the opposite of the normal from A to B |
| Elastic.ElasticMomentum | ETAP1/ReactiveInteractiveUserInterface/Data/DataImplementation.cs:160-161 | the two new normal speeds keep the mass-weighted momentum `m1*u + m2*w` |
| Elastic.ElasticRestitution | ETAP1/ReactiveInteractiveUserInterface/Data/DataImplementation.cs:160-161 | the relative normal speed is reversed: `w' - u' == u - w` |
| Elastic.ElasticEnergy | ETAP1/ReactiveInteractiveUserInterface/Data/DataImplementation.cs:160-161 | the two new normal speeds keep the energy `m1*u^2 + m2*w^2` |
| Elastic.ElasticEqualMassesSwap | ETAP1/ReactiveInteractiveUserInterface/Data/DataImplementation.cs:160-161 | with equal masses the new normal speed of A is B's old one |
| Elastic.ElasticNegated | ETAP1/ReactiveInteractiveUserInterface/Data/DataImplementation.cs:160-161 | negating both normal speeds negates the result |
| Elastic.CollisionVelocities | ETAP1/ReactiveInteractiveUserInterface/Data/DataImplementation.cs:143-172 | at distance zero both velocities are returned unchanged; otherwise each keeps its tangential component and its normal component is given by the elastic formula |
| Elastic.CollisionConservesMomentum | ETAP1/ReactiveInteractiveUserInterface/Data/DataImplementation.cs:153-172 | `mA*vA + mB*vB` is the same vector after the collision |
| Elastic.CollisionConservesNormalMomentum | ETAP1/ReactiveInteractiveUserInterface/Data/DataImplementation.cs:153-161 | the mass-weighted momentum along the normal is kept |
| Elastic.CollisionConservesNormalEnergy | ETAP1/ReactiveInteractiveUserInterface/Data/DataImplementation.cs:153-161 | the kinetic energy along the normal is kept |
| Elastic.CollisionConservesEnergy | ETAP1/ReactiveInteractiveUserInterface/Data/DataImplementation.cs:153-172 | the total kinetic energy `mA*|vA|^2 + mB*|vB|^2` is kept |
| Elastic.CollisionEqualMassesSwap | ETAP1/ReactiveInteractiveUserInterface/Data/DataImplementation.cs:160-161 | with equal masses the two balls exchange their normal components |
| Elastic.CollisionSwapped | ETAP1/ReactiveInteractiveUserInterface/Data/DataImplementation.cs:143-172 | exchanging the roles of A and B exchanges the two resulting velocities |
| Elastic.RecomposeOpposite | ETAP1/ReactiveInteractiveUserInterface/Data/DataImplementation.cs:149-150 | negating the normal and both components rebuilds the same velocity |
| Balls.ReflectAxis | ETAP0/ReactiveInteractiveUserInterface/Data/Ball.cs:46-57 | the step on one axis is negated exactly when the candidate coordinate leaves `[0, extent]`, and is kept otherwise; a step of at most half the extent from inside lands inside |
| Balls.ReflectKeepsSpeed | ETAP0/ReactiveInteractiveUserInterface/Data/Ball.cs:50-57 | reflection keeps the length of the step |
| Balls.ReflectStaysInArena | ETAP0/ReactiveInteractiveUserInterface/Data/Ball.cs:46-60 | a ball inside `[0,375]x[0,395]` taking a step of at most half the extent on each axis stays inside |
| Balls.ReflectAxisOutsideOscillates | ETAP0/ReactiveInteractiveUserInterface/Data/Ball.cs:50-60 | a ball beyond either wall (above `extent` or below 0) heading back in, by less than its excess, is sent away and stays outside, and two moves later it is back where it started with the same velocity |
| Balls.Moved | ETAP0/ReactiveInteractiveUserInterface/Data/Ball.cs:46-61 | a move keeps the mass and the speed of the step, and a ball inside the arena taking a step of at most half the extent on each axis ends inside it |
| Balls.Ball.constructor | ETAP0/ReactiveInteractiveUserInterface/Data/Ball.cs:18-22 | position and velocity are exactly the given vectors; no notification has been raised |
| Balls.Ball.RaiseNewPositionChangeNotification | ETAP0/ReactiveInteractiveUserInterface/Data/Ball.cs:38-41 | exactly one notification is appended, and it carries the current position |
| Balls.Ball.Move | ETAP0/ReactiveInteractiveUserInterface/Data/Ball.cs:44-63 | on each axis the velocity is `-delta` if the candidate coordinate is below 0 or above 375 (x) or 395 (y), `delta` otherwise; the new position is the old position plus the new velocity; the speed is kept; a short step from inside stays inside; one notification with the new position is raised |
| DataImplementation.DistanceOf | ETAP1/ReactiveInteractiveUserInterface/Data/DataImplementation.cs:143-145 | the square root of `dx*dx + dy*dy` is a distance: non-negative, and its square is the squared centre distance |
| DataImplementation.CheckCollision | ETAP1/ReactiveInteractiveUserInterface/Data/DataImplementation.cs:133-139 | two balls collide if and only if their squared centre distance is below `20*20` |
| DataImplementation.CheckCollisionSymmetric | ETAP1/ReactiveInteractiveUserInterface/Data/DataImplementation.cs:135-138 | `CheckCollision(a, b) == CheckCollision(b, a)` |
| DataImplementation.CheckCollisionCloserThanDiameter | ETAP1/ReactiveInteractiveUserInterface/Data/DataImplementation.cs:133-139 | two balls collide if and only if their centres are closer than the diameter 20 |
| DataImplementation.DistanceToItself | ETAP1/ReactiveInteractiveUserInterface/Data/DataImplementation.cs:143-146 | a ball is at distance zero from itself, so resolving a ball against itself returns at once |
| DataImplementation.Separate | ETAP1/ReactiveInteractiveUserInterface/Data/DataImplementation.cs:177-184 | the sum of the two positions is kept; nothing moves unless `20 - d > 0` |
| DataImplementation.SeparatedByDiameter | ETAP1/ReactiveInteractiveUserInterface/Data/DataImplementation.cs:177-184 | when `20 - d > 0`, B ends exactly `20*n` from A, i.e. the centres are a diameter apart along the normal |
| DataImplementation.SeparatedAlongNormal | ETAP1/ReactiveInteractiveUserInterface/Data/DataImplementation.cs:178-184 | pushing each ball by half the overlap along the normal leaves the centres exactly 20 apart |
| DataImplementation.Resolved | ETAP1/ReactiveInteractiveUserInterface/Data/DataImplementation.cs:141-185 | masses are unchanged, and at distance zero the two states are unchanged |
| DataImplementation.ResolvedConserves | ETAP1/ReactiveInteractiveUserInterface/Data/DataImplementation.cs:141-185 | a resolved pair keeps its momentum on both axes, its kinetic energy and the sum of its positions |
| DataImplementation.ResolvedSeparatesOverlap | ETAP1/ReactiveInteractiveUserInterface/Data/DataImplementation.cs:177-184 | colliding balls with distinct centres end exactly a diameter apart |
| DataImplementation.TotalUpdate | ETAP1/ReactiveInteractiveUserInterface/Data/DataImplementation.cs:124-130 | replacing one ball's state changes a total over the list by the difference of that ball's two contributions |
| DataImplementation.Step | ETAP1/ReactiveInteractiveUserInterface/Data/DataImplementation.cs:124-130 | one turn changes only the checked ball and the ball of this turn, keeps every mass, and changes nothing when the two are the same ball or do not collide |
| DataImplementation.StepConserves | ETAP1/ReactiveInteractiveUserInterface/Data/DataImplementation.cs:124-130 | one turn keeps the total momentum on both axes, the total kinetic energy and the sum of the positions |
| DataImplementation.Sweep | ETAP1/ReactiveInteractiveUserInterface/Data/DataImplementation.cs:122-131 | the turns keep the number of balls, and every mass stays positive |
| DataImplementation.SweepKeepsMasses | ETAP1/ReactiveInteractiveUserInterface/Data/DataImplementation.cs:122-131 | the turns change no ball's mass |
| DataImplementation.SweepConserves | ETAP1/ReactiveInteractiveUserInterface/Data/DataImplementation.cs:122-131 | the whole sweep keeps the total momentum, the total kinetic energy and the sum of the positions |
| DataImplementation.SweepOther | ETAP1/ReactiveInteractiveUserInterface/Data/DataImplementation.cs:122-131 | every other ball changes only at its own turn, and only if it collides at that moment with the checked ball as it then is; it then takes its half of the resolved pair; a ball not yet reached is unchanged |
| DataImplementation.ResolveCollision | ETAP1/ReactiveInteractiveUserInterface/Data/DataImplementation.cs:141-185 | the two balls end in the states `Resolved` gives for their old states and the square root of their squared centre distance |
| DataImplementation.CheckPair | ETAP1/ReactiveInteractiveUserInterface/Data/DataImplementation.cs:126-129 | one turn of the loop: if the states were those of the first `j` turns, they become those of the first `j + 1` turns |
| DataImplementation.CheckCollisions | ETAP1/ReactiveInteractiveUserInterface/Data/DataImplementation.cs:122-131 | with `ball` at index `k` of the list, the states of all balls end as `Sweep` over the whole list gives, starting from their old states |
| DataImplementation.MoveAndCheckCollisions | ETAP1/ReactiveInteractiveUserInterface/Data/DataImplementation.cs:100-107 | the ball moves by its own velocity and then the sweep runs from the moved state; exactly one notification is raised, and it carries the moved position |
| BusinessLogic.CalculateCollision | ETAP1/ReactiveInteractiveUserInterface/BusinessLogic/BusinessBall.cs:65-99 | at distance zero both current velocities are returned; otherwise each ball keeps its tangential component and its normal component follows the elastic formula, and the pair keeps the vector momentum, the total kinetic energy and the momentum along the normal |
| BusinessLogic.CalculateCollisionEqualMassesSwap | ETAP1/ReactiveInteractiveUserInterface/BusinessLogic/BusinessBall.cs:84-85 | with equal masses the returned velocities exchange their normal components |
| BusinessLogic.CalculateCollisionSwapped | ETAP1/ReactiveInteractiveUserInterface/BusinessLogic/BusinessBall.cs:67-98 | asking the other ball returns the same pair in the other order |
| BusinessLogic.CalculateCollisionMatchesResolved | ETAP1/ReactiveInteractiveUserInterface/BusinessLogic/BusinessBall.cs:84-96 | its velocities are the ones `ResolveCollision` writes for the same centres, velocities and masses |

## Left out

- Threads, `Thread.Sleep`, the per-ball run flags and the `lock` around the ball list (ETAP1/ReactiveInteractiveUserInterface/Data/DataImplementation.cs:54-120). They are concurrency. One locked turn of a thread is modelled sequentially as `MoveAndCheckCollisions`.
- `Start`'s random spawn positions and velocities, and its subscription callback. These are randomness and foreign calls. Every ball it creates has mass 1, which the model generalises to any positive mass.
- `LogBallsState`, the timer and all console tracing. These are file I/O, a clock and logging.
- `Clear` and `Dispose`. These are thread joins and resource teardown.
- `CheckBallsList`, `CheckNumberOfBalls` and `CheckObjectDisposed`. These are test callbacks.
- The whole presentation layer (MainWindowViewModel.cs). It is MVVM plumbing.
- `INotifyPropertyChanged`, the `Top`/`Left` setters and event forwarding in BusinessBall.cs. These are UI notification plumbing.
- The business ball's constructor. It only subscribes to events.
- The data-layer `Ball` with a mass, which `Start` constructs as `new(position, velocity, mass)`, is not part of this model. The class `Balls.Ball` adds a `Mass` constant to the ETAP0 ball that the collision code reads.
- IEEE-754 doubles and `Math.Sqrt`. Values are exact reals and the square root is an exact parameter, so the properties hold over the reals, not bit for bit.
- The per-ball `Diameter` property of the business ball. It is carried but never read: detection and correction use the constant 20, as the code does.
- The enumeration order of the `ConcurrentBag` is unspecified. The model takes it as the order of a sequence `balls`, and every result holds for whatever order is given.
- DataImplementation.CheckCollisions: requires the list to hold distinct balls, with `ball` at the ghost index `k`. `Start` adds each newly created ball once, and a thread only ever checks its own ball.
- DataImplementation.ResolveCollision: requires positive masses. The source divides by `a.Mass + b.Mass` without a check. Every ball is created with mass 1.
- Elastic.CollisionVelocities: requires positive masses, for the same reason.
- BusinessLogic.CalculateCollision: requires positive masses, for the same reason. Its mass defaults to 1.
