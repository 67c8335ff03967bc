// The turret's rules and constants as both revisions of the game loop use them
// (src/game_main.cpp:171-246, 311-339, 595-598; src/main.cpp:60-105, 161-190, 310-322).
module Turret {
  import opened Geometry
  import opened Entities

  const RotationSpeedDegPerSec: real := 140.0
  const TurretRadius: real := 18.0
  const BulletSpeed: real := 520.0
  const BulletRadius: real := 4.0
  const FireCooldown: real := 0.20
  const EchoThickness: real := 6.0
  const EchoSpeed: real := 520.0
  const EchoMaxCharge: real := 150.0
  const EchoChargeRate: real := 200.0
  const EchoShrinkRate: real := 100.0
  const TimeBetweenWaves: real := 1.0

  /** What the loop obtains from code outside this model: the turret direction for an angle in
      degrees (cos and sin of the angle in radians), the inverse of a beam rectangle's SFML
      transform, and the i-th random spawn direction and speed jitter of a spawnWave call. */
  datatype Env = Env(aimDir: real -> Vec, toLocal: LocalTransform, spawnDir: nat -> Vec, spawnJitter: nat -> real)

  /** How a frame ends: the loop goes on, or main returns 0. */
  datatype Outcome = Running | Exited

  /** The float-to-int conversion of `int count = <float expression>`: truncation toward zero. */
  function Trunc(x: real): (n: int)
    ensures 0.0 <= x ==> 0 <= n && n as real <= x < n as real + 1.0
    ensures x < 0.0 ==> n <= 0 && n as real - 1.0 < x <= n as real
  {
    if x >= 0.0 then x.Floor else -((-x).Floor)
  }

  // ----- rotation -----

  /** Degrees turned this frame: Left turns by -140*dt, Right by +140*dt, both cancel out. */
  function Turn(left: bool, right: bool, dt: real): (d: real)
    ensures d == 0.0 <==> left == right || dt == 0.0
    ensures dt >= 0.0 ==> -(RotationSpeedDegPerSec * dt) <= d <= RotationSpeedDegPerSec * dt
  {
    (if left then -(RotationSpeedDegPerSec * dt) else 0.0) + (if right then RotationSpeedDegPerSec * dt else 0.0)
  }

  /** The two wrap steps: above 360 subtract one turn, then below 0 add one turn. */
  function WrapAngle(a: real): (r: real)
    ensures r == a || r == a - 360.0 || r == a + 360.0
    ensures -360.0 <= a <= 720.0 ==> 0.0 <= r <= 360.0
    ensures 0.0 <= a <= 360.0 ==> r == a
  {
    var b := if a > 360.0 then a - 360.0 else a;
    if b < 0.0 then b + 360.0 else b
  }

  /** A frame that turns by more than a full turn is wrapped once only and leaves the range. */
  lemma WrapAngleOnceOnly()
    ensures WrapAngle(-400.0) == -40.0 && WrapAngle(800.0) == 440.0
  {
  }

  /** Turning from an angle in [0, 360] by less than a turn per frame stays in [0, 360]. */
  lemma TurnStaysInRange(angle: real, left: bool, right: bool, dt: real)
    requires 0.0 <= angle <= 360.0
    requires 0.0 <= dt && RotationSpeedDegPerSec * dt <= 360.0
    ensures 0.0 <= WrapAngle(angle + Turn(left, right, dt)) <= 360.0
  {
    var d := Turn(left, right, dt);
    assert -360.0 <= d <= 360.0;
  }

  // ----- spawned projectiles -----

  /** A fired bullet: at the centre, radius 4, moving at 520 along the turret direction. */
  function FiredBullet(dir: Vec): (b: Bullet)
    ensures b.position == Center && b.radius == BulletRadius && b.InArena()
    ensures IsUnit(dir) ==> Dist2(b.velocity, Vec(0.0, 0.0)) == BulletSpeed * BulletSpeed
  {
    var b := Bullet(Center, Scale(dir, BulletSpeed), BulletRadius);
    assert b.velocity.x * b.velocity.x == dir.x * dir.x * (BulletSpeed * BulletSpeed);
    assert b.velocity.y * b.velocity.y == dir.y * dir.y * (BulletSpeed * BulletSpeed);
    b
  }

  /** A released beam: centred on the turret, just spawned, flying along the turret direction
      and drawn across it (rotation = turret angle + 90 degrees). */
  function ReleasedBeam(length: real, angleDeg: real, dir: Vec): (e: Echo)
    ensures e.length == length && e.elapsedTime == 0.0 && e.position == Center
    ensures e.velocity == dir && e.rotationDeg - angleDeg == 90.0
  {
    Echo(length, 0.0, dir, Center, angleDeg + 90.0)
  }

  /** A released beam flies straight out from the turret: after n frames of dt it lies
      520*n*dt from the centre (for a unit turret direction), has shrunk by 100*n*dt, and is
      still drawn across the turret direction. */
  lemma ReleasedBeamFlight(length: real, angleDeg: real, dir: Vec, n: nat, dt: real)
    requires IsUnit(dir) && n > 0
    ensures var b := BeamAfter(ReleasedBeam(length, angleDeg, dir), n, dt, EchoShrinkRate, EchoSpeed, Center);
      && b.length == length - (n as real) * (dt * EchoShrinkRate)
      && Dist2(b.position, Center) == (EchoSpeed * ((n as real) * dt)) * (EchoSpeed * ((n as real) * dt))
      && b.rotationDeg - angleDeg == 90.0
  {
    var e := ReleasedBeam(length, angleDeg, dir);
    BeamAfterHeading(e, n, dt, EchoShrinkRate, EchoSpeed, Center);
    BeamAfterDistance(e, n, dt, EchoShrinkRate, EchoSpeed, Center);
    BeamAfterLength(e, n, dt, EchoShrinkRate, EchoSpeed, Center);
    BeamAfterAge(e, n, dt, EchoShrinkRate, EchoSpeed, Center);
  }

  /** Every fired bullet leaves the arena, and so is erased, once it has flown for 1.1 s:
      520 * 1.1 = 572 exceeds the arena's half-diagonal of about 570. */
  lemma FiredBulletLeavesArena(dir: Vec, n: nat, dt: real)
    requires IsUnit(dir) && (n as real) * dt >= 1.1
    ensures !BulletAfter(FiredBullet(dir), n, dt).InArena()
  {
    var b := FiredBullet(dir);
    var t := (n as real) * dt;
    BulletAfterFrames(b, n, dt);
    var c := BulletAfter(b, n, dt);
    assert Scale(Scale(dir, BulletSpeed), t) == Scale(dir, BulletSpeed * t);
    ScaledUnitDistance(Center, dir, BulletSpeed * t);
    SquareMonotone(572.0, BulletSpeed * t);
    assert Dist2(c.position, Center) >= 572.0 * 572.0 > ArenaReach2;
  }

  // ----- intensity decay -----

  /** One frame of decay: subtract the step, then clamp at 0. */
  function Decayed(intensity: real, step: real): (r: real)
    ensures r >= 0.0
    ensures step >= 0.0 && intensity >= 0.0 ==> r <= intensity
  {
    var t := intensity - step;
    if t < 0.0 then 0.0 else t
  }

  function DecayedAfter(intensity: real, step: real, n: nat): real
  {
    if n == 0 then intensity else Decayed(DecayedAfter(intensity, step, n - 1), step)
  }

  /** n frames of decay from a non-negative intensity equal max(0, intensity - n*step). */
  lemma {:induction false} DecayAfterFrames(intensity: real, step: real, n: nat)
    requires intensity >= 0.0 && step >= 0.0
    ensures DecayedAfter(intensity, step, n) == Max(0.0, intensity - (n as real) * step)
  {
    if n > 0 {
      DecayAfterFrames(intensity, step, n - 1);
      var a := intensity - ((n - 1) as real) * step;
      assert (n as real) * step == ((n - 1) as real) * step + step;
      assert DecayedAfter(intensity, step, n - 1) == Max(0.0, a);
      if a < 0.0 {
        assert a - step < 0.0;
      }
    }
  }

  // ----- enemies at the turret -----

  /** The centre test: the enemy's circle meets the turret base of radius 18. */
  predicate ReachedTurret(e: Enemy)
  {
    CirclesMeet(e.position, Center, TurretRadius, e.radius)
  }

  predicate ClearOfTurret(e: Enemy) { !ReachedTurret(e) }

  /** An enemy whose centre is on the turret base has reached the turret, whatever its size. */
  lemma CenterOnBaseReachesTurret(e: Enemy)
    requires e.radius >= 0.0 && Dist2(e.position, Center) <= TurretRadius * TurretRadius
    ensures ReachedTurret(e)
  {
    SquareMonotone(TurretRadius, TurretRadius + e.radius);
  }

  /** A newly spawned enemy is not yet at the turret. */
  lemma SpawnDistanceClearsTurret(e: Enemy)
    requires Dist2(e.position, Center) == 450.0 * 450.0 && e.radius == 14.0
    ensures ClearOfTurret(e)
  {
  }
}
