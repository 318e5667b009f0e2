/** Kinematics of one llama: the fixed constants, the launch velocity and the
    one-frame update with its ground clamp, bounce rule and two ways to rest.
    Numbers are exact reals; y grows downwards (screen convention), so the
    ground is the largest y a llama may reach. */
module Physics {

  // The fixed constants of the simulation.
  const Gravity: real := 0.6          // added to vy per nominal frame
  const InitialVy: real := -15.0      // vertical launch velocity (upwards)
  const BounceDampening: real := 0.6  // share of vertical speed kept by a bounce
  const Friction: real := 0.85        // share of horizontal speed kept by a bounce
  const MaxBounces: int := 4          // bounce budget of a llama that carries none
  const StopThreshold: real := 0.5    // speeds below this count as stopped
  const RotationSpeed: real := 2.0    // degrees of spin per unit of vx per frame
  const BaseSpeed: real := 8.0        // horizontal launch speed along the aim

  /** A field that a record may or may not carry. */
  datatype Option<T> = None | Some(value: T)

  /** The lifecycle tag of a llama. Only `Resting` is ever tested for;
      `Spawning` stands for any other tag a freshly created llama may carry. */
  datatype Phase = Resting | Flying | Spawning

  /** One llama. `bounces` may be absent, in which case the update reads it
      as `MaxBounces`; `extra` holds the fields the update never looks at
      (its id and whatever else the record carries). */
  datatype Llama<E> = Llama(
    x: real,
    y: real,
    vx: real,
    vy: real,
    rotation: real,
    bounces: Option<int>,
    phase: Phase,
    extra: E)

  /** A launch velocity. */
  datatype Velocity = Velocity(vx: real, vy: real)

  function Abs(a: real): (r: real)
    ensures r >= 0.0 && (r == a || r == -a)
  {
    if a < 0.0 then -a else a
  }

  /** The bounce budget the update works with: the record's own count, or
      `MaxBounces` when the record carries none. */
  function Budget<E>(l: Llama<E>): int
  {
    match l.bounces
    case Some(n) => n
    case None => MaxBounces
  }

  /** Neither velocity component is fast enough to keep a llama flying. */
  predicate Stopped(vx: real, vy: real)
  {
    Abs(vx) < StopThreshold && Abs(vy) < StopThreshold
  }

  /** The launch velocity aimed from the box at (boxX, boxY) towards the click
      at (clickX, clickY). `distance` is the square root of the squared
      distance between the two points; it must be positive, since
      `calculateInitialVelocity` divides by it without a guard. The vertical component is always the
      fixed upward launch; the horizontal one is the x part of the unit aim
      scaled by `BaseSpeed`. */
  function InitialVelocity(boxX: real, boxY: real, clickX: real, clickY: real, distance: real): (v: Velocity)
    requires distance > 0.0
    requires distance * distance == (clickX - boxX) * (clickX - boxX) + (clickY - boxY) * (clickY - boxY)
    ensures v.vy == InitialVy
    ensures v.vx * distance == (clickX - boxX) * BaseSpeed
    ensures -BaseSpeed <= v.vx <= BaseSpeed
    ensures v.vx > 0.0 <==> clickX > boxX
    ensures v.vx < 0.0 <==> clickX < boxX
    ensures v.vx == 0.0 <==> clickX == boxX
  {
    var dx := clickX - boxX;
    var dy := clickY - boxY;
    AimWithinDistance(dx, dy, distance);
    Velocity((dx / distance) * BaseSpeed, InitialVy)
  }

  /** A coordinate difference never exceeds the length of the vector it is
      part of. */
  lemma AimWithinDistance(dx: real, dy: real, d: real)
    requires d > 0.0 && d * d == dx * dx + dy * dy
    ensures -d <= dx <= d
    ensures -1.0 <= dx / d <= 1.0
  {
    if dx > d {
      PositiveProduct(dx - d, dx + d);
    }
    if dx < -d {
      PositiveProduct(-d - dx, d - dx);
    }
    var q := dx / d;
    assert q * d == dx;
    if q > 1.0 {
      PositiveProduct(q - 1.0, d);
    }
    if q < -1.0 {
      PositiveProduct(-1.0 - q, d);
    }
  }

  lemma PositiveProduct(a: real, b: real)
    requires a > 0.0 && b > 0.0
    ensures a * b > 0.0
  {
  }

  lemma NonzeroProduct(a: real, b: real)
    requires a != 0.0 && b != 0.0
    ensures a * b != 0.0
  {
  }

  /** A product with a positive square vanishes only when the other factor
      does. */
  lemma ZeroFactor(a: real, d: real)
    requires d > 0.0
    requires a * (d * d) == 0.0
    ensures a == 0.0
  {
    if a != 0.0 {
      NonzeroProduct(a, d);
      NonzeroProduct(a * d, d);
    }
  }

  /** The horizontal launch component is the x part of an aim vector whose
      length is exactly `BaseSpeed`: adding back the y part that
      `calculateInitialVelocity` drops gives speed 8 along the line from the box to the click. */
  lemma AimHasBaseSpeed(boxX: real, boxY: real, clickX: real, clickY: real, distance: real)
    requires distance > 0.0
    requires distance * distance == (clickX - boxX) * (clickX - boxX) + (clickY - boxY) * (clickY - boxY)
    ensures var v := InitialVelocity(boxX, boxY, clickX, clickY, distance);
            var wy := (clickY - boxY) / distance * BaseSpeed;
            v.vx * v.vx + wy * wy == BaseSpeed * BaseSpeed
  {
    var ux := (clickX - boxX) / distance;
    var uy := (clickY - boxY) / distance;
    UnitAim(clickX - boxX, clickY - boxY, distance);
    assert (ux * BaseSpeed) * (ux * BaseSpeed) + (uy * BaseSpeed) * (uy * BaseSpeed)
        == (ux * ux + uy * uy) * (BaseSpeed * BaseSpeed);
  }

  /** Dividing a vector by its length gives a unit vector. */
  lemma UnitAim(dx: real, dy: real, d: real)
    requires d > 0.0 && d * d == dx * dx + dy * dy
    ensures (dx / d) * (dx / d) + (dy / d) * (dy / d) == 1.0
  {
    var ux := dx / d;
    var uy := dy / d;
    assert ux * d == dx && uy * d == dy;
    assert (ux * ux) * (d * d) == dx * dx;
    assert (uy * uy) * (d * d) == dy * dy;
    assert (ux * ux + uy * uy - 1.0) * (d * d) == 0.0;
    ZeroFactor(ux * ux + uy * uy - 1.0, d);
  }

  /** A click straight above the box launches straight up. */
  lemma StraightUpLaunch()
    ensures InitialVelocity(500.0, 500.0, 500.0, 100.0, 400.0) == Velocity(0.0, InitialVy)
  {
  }

  /** A click at (3, 4) from a box at the origin is 5 away, so the horizontal
      launch is three fifths of the base speed. */
  lemma DiagonalLaunch()
    ensures InitialVelocity(0.0, 0.0, 3.0, 4.0, 5.0) == Velocity(4.8, InitialVy)
  {
  }

  /** The vertical velocity after gravity has acted for one step. */
  function FallVelocity(vy: real, dt: real): real
  {
    vy + Gravity * dt
  }

  /** The height reached by a step, before the ground clamp. */
  function FallHeight<E>(l: Llama<E>, dt: real): real
  {
    l.y + FallVelocity(l.vy, dt) * dt
  }

  /** Advances one llama by one frame of `dt` nominal frames, against the
      ground at `ground`. A resting llama comes back unchanged. Otherwise
      gravity acts on vy, then x, y and the rotation move (semi-implicit Euler,
      rotation driven by the pre-bounce vx). Reaching or passing the ground
      clamps y to it, and then either the llama comes to rest (too slow, or no
      bounce left) or it bounces: vertical speed damped and turned upwards,
      horizontal speed reduced by friction, one bounce spent. Finally a llama
      whose two speeds are both below the threshold comes to rest wherever it
      is. The resting outcomes keep the record's bounce count as it was; only
      a flying outcome writes the count it worked with. */
  function Step<E>(l: Llama<E>, ground: real, dt: real): (r: Llama<E>)
    // rest is absorbing
    ensures l.phase == Resting ==> r == l
    // a moving llama never ends below the ground
    ensures l.phase != Resting ==> r.y <= ground
    // the outcome of a step is one of the two known tags
    ensures l.phase != Resting ==> r.phase == Resting || r.phase == Flying
    // a llama that comes to rest in this step has no velocity left
    ensures l.phase != Resting && r.phase == Resting ==> r.vx == 0.0 && r.vy == 0.0
    // a flying outcome is still fast enough to fly
    ensures r.phase == Flying ==> !Stopped(r.vx, r.vy)
    // the bounce budget never grows, and does not go negative
    ensures Budget(r) <= Budget(l)
    ensures Budget(l) >= 0 ==> Budget(r) >= 0
    // a bounce is spent only by a landing that had one to spend
    ensures l.phase != Resting ==>
              Budget(r) == Budget(l) ||
              (Budget(r) == Budget(l) - 1 && Budget(l) > 0 && FallHeight(l, dt) >= ground)
    // the fields the update does not own pass through
    ensures r.extra == l.extra
  {
    if l.phase == Resting then l
    else
      var vy := FallVelocity(l.vy, dt);
      var x := l.x + l.vx * dt;
      var y := l.y + vy * dt;
      var rotation := l.rotation + l.vx * RotationSpeed * dt;
      var budget := Budget(l);
      var hit := y >= ground;
      if hit && (Abs(vy) < StopThreshold || budget <= 0) then
        l.(x := x, y := ground, vx := 0.0, vy := 0.0, rotation := rotation, phase := Resting)
      else
        var y' := if hit then ground else y;
        var vy' := if hit then -Abs(vy) * BounceDampening else vy;
        var vx' := if hit then l.vx * Friction else l.vx;
        var budget' := if hit then budget - 1 else budget;
        if Stopped(vx', vy') then
          l.(x := x, y := y', vx := 0.0, vy := 0.0, rotation := rotation, phase := Resting)
        else
          l.(x := x, y := y', vx := vx', vy := vy', rotation := rotation,
             bounces := Some(budget'), phase := Flying)
  }

  /** The record invariant a llama keeps from one frame to the next: at rest
      it has no velocity, flying it is fast enough to fly, and its bounce
      budget is not negative. */
  predicate Sound<E>(l: Llama<E>)
  {
    (l.phase == Resting ==> l.vx == 0.0 && l.vy == 0.0) &&
    (l.phase == Flying ==> !Stopped(l.vx, l.vy)) &&
    Budget(l) >= 0
  }

  /** Every step keeps the record invariant, whatever the ground and the
      frame length. */
  lemma StepKeepsSound<E>(l: Llama<E>, ground: real, dt: real)
    requires Sound(l)
    ensures Sound(Step(l, ground, dt))
  {
  }

  /** Where the integrated height reaches or passes the ground, the step
      leaves the llama exactly on the ground; where it stays above the ground,
      the step leaves it exactly at that height. x and the rotation move by
      the pre-step vx in both cases. */
  lemma GroundClamp<E>(l: Llama<E>, ground: real, dt: real)
    requires l.phase != Resting
    ensures var r := Step(l, ground, dt);
            (FallHeight(l, dt) >= ground ==> r.y == ground) &&
            (FallHeight(l, dt) < ground ==> r.y == FallHeight(l, dt)) &&
            r.x == l.x + l.vx * dt &&
            r.rotation == l.rotation + l.vx * RotationSpeed * dt
  {
  }

  /** A frame that neither reaches the ground nor slows the llama below the
      threshold is plain semi-implicit Euler: gravity acts on vy, x, y and the
      rotation move, vx is kept, and the bounce count it worked with is
      written back unspent. */
  lemma FreeFlight<E>(l: Llama<E>, ground: real, dt: real)
    requires l.phase != Resting
    requires FallHeight(l, dt) < ground
    requires !Stopped(l.vx, FallVelocity(l.vy, dt))
    ensures Step(l, ground, dt) ==
            l.(x := l.x + l.vx * dt, y := FallHeight(l, dt), vy := FallVelocity(l.vy, dt),
               rotation := l.rotation + l.vx * RotationSpeed * dt,
               bounces := Some(Budget(l)), phase := Flying)
  {
    var r := Step(l, ground, dt);
    assert r.extra == l.extra;
  }

  /** A frame that stays above the ground but leaves both speeds below the
      threshold rests the llama in mid-air, at the height it reached, with no
      velocity and the bounce count it came in with. */
  lemma AirborneStop<E>(l: Llama<E>, ground: real, dt: real)
    requires l.phase != Resting
    requires FallHeight(l, dt) < ground
    requires Stopped(l.vx, FallVelocity(l.vy, dt))
    ensures var r := Step(l, ground, dt);
            r.phase == Resting && r.y == FallHeight(l, dt) &&
            r.vx == 0.0 && r.vy == 0.0 && r.bounces == l.bounces &&
            r.x == l.x + l.vx * dt && r.rotation == l.rotation + l.vx * RotationSpeed * dt
  {
  }

  /** Landing too slowly, or with no bounce left, ends the flight on the
      ground with no velocity, whatever the landing speed. */
  lemma LandingRests<E>(l: Llama<E>, ground: real, dt: real)
    requires l.phase != Resting
    requires FallHeight(l, dt) >= ground
    requires Abs(FallVelocity(l.vy, dt)) < StopThreshold || Budget(l) <= 0
    ensures var r := Step(l, ground, dt);
            r.phase == Resting && r.y == ground && r.vx == 0.0 && r.vy == 0.0 &&
            r.bounces == l.bounces
  {
  }

  /** A landing fast enough to bounce, with budget left, that does not then
      trip the airborne stop: the vertical speed is damped and turned upwards,
      the horizontal speed loses to friction, one bounce is spent and the
      llama keeps flying from the ground. */
  lemma BounceOutcome<E>(l: Llama<E>, ground: real, dt: real)
    requires l.phase != Resting
    requires FallHeight(l, dt) >= ground
    requires Abs(FallVelocity(l.vy, dt)) >= StopThreshold && Budget(l) > 0
    requires !Stopped(l.vx * Friction, -Abs(FallVelocity(l.vy, dt)) * BounceDampening)
    ensures var r := Step(l, ground, dt);
            r.vy == -Abs(FallVelocity(l.vy, dt)) * BounceDampening && r.vy <= 0.0 &&
            Abs(r.vy) == Abs(FallVelocity(l.vy, dt)) * BounceDampening &&
            r.vx == l.vx * Friction &&
            Budget(r) == Budget(l) - 1 &&
            r.y == ground &&
            r.phase == Flying
  {
  }

  /** A bounce that leaves both speeds below the threshold ends in the
      airborne stop instead, and that branch keeps the bounce count the record
      came in with: the bounce just taken is not charged. */
  lemma BounceThenStopKeepsCount<E>(l: Llama<E>, ground: real, dt: real)
    requires l.phase != Resting
    requires FallHeight(l, dt) >= ground
    requires Abs(FallVelocity(l.vy, dt)) >= StopThreshold && Budget(l) > 0
    requires Stopped(l.vx * Friction, -Abs(FallVelocity(l.vy, dt)) * BounceDampening)
    ensures var r := Step(l, ground, dt);
            r.phase == Resting && r.y == ground && r.bounces == l.bounces &&
            r.vx == 0.0 && r.vy == 0.0
  {
  }

  /** The airborne stop can leave a resting llama above the ground: a llama
      at the top of its arc with no horizontal speed stops in mid-air. */
  lemma AirborneRestAboveGround()
    ensures var l := Llama(0.0, 0.0, 0.0, -0.6, 0.0, None, Flying, 7);
            var r := Step(l, 100.0, 1.0);
            r.phase == Resting && r.y == 0.0 && r.y < 100.0
  {
  }

  /** Spending the last bounce leaves a flying llama with budget 0, and a
      landing in the very next frame then rests it on the ground, however
      fast it comes down. Later landings are covered by
      `Settling.LastBounceThenRests`. */
  lemma SettleAfterLastBounce<E>(l: Llama<E>, ground: real, dt: real)
    requires l.phase != Resting && Budget(l) == 1
    requires FallHeight(l, dt) >= ground
    requires Abs(FallVelocity(l.vy, dt)) >= StopThreshold
    requires !Stopped(l.vx * Friction, -Abs(FallVelocity(l.vy, dt)) * BounceDampening)
    ensures var r := Step(l, ground, dt);
            r.phase == Flying && Budget(r) == 0 &&
            (forall ground', dt' :: FallHeight(r, dt') >= ground' ==>
               Step(r, ground', dt').phase == Resting && Step(r, ground', dt').y == ground')
  {
  }
}
