// The game's entities (src/game_main.cpp:13-130). Every one of them is held BY VALUE in a
// std::vector, and allEchos holds copies, so they are modelled as immutable records; an
// in-place update of a vector element is the element replaced by its updated record.
module Entities {
  import opened Geometry

  const WindowW: real := 800.0
  const WindowH: real := 600.0
  const Center: Vec := Vec(WindowW / 2.0, WindowH / 2.0)

  /** The squared half-diagonal of the bullets' arena ([-50, 850] x [-50, 650]) from the centre. */
  const ArenaReach2: real := 450.0 * 450.0 + 350.0 * 350.0

  /** A point of the bullets' arena lies within its half-diagonal of the centre. */
  lemma BoxWithinReach(p: Vec)
    requires -50.0 <= p.x <= WindowW + 50.0 && -50.0 <= p.y <= WindowH + 50.0
    ensures Dist2(p, Center) <= ArenaReach2
  {
    var dx := p.x - Center.x;
    var dy := p.y - Center.y;
    if dx < 0.0 { SquareMonotone(-dx, 450.0); assert dx * dx == (-dx) * (-dx); } else { SquareMonotone(dx, 450.0); }
    if dy < 0.0 { SquareMonotone(-dy, 350.0); assert dy * dy == (-dy) * (-dy); } else { SquareMonotone(dy, 350.0); }
  }

  /** Seconds an enemy stays visible after an echo touches it. */
  const RevealSeconds: real := 4.0

  /** An enemy: the shape's position and radius, its private velocity and visibility flag, and
      the public visibility timer. */
  datatype Enemy = Enemy(position: Vec, radius: real, velocity: Vec, visible: bool, visibilityTimer: real)
  {
    /** Enemy::set_visibility: only the flag changes (the fill colour is drawing). */
    function SetVisibility(v: bool): (e: Enemy)
      ensures e.visible == v
      ensures e.(visible := visible) == this
    {
      this.(visible := v)
    }

    /** Enemy::set_velocity: stores the velocity and returns what it stored. */
    function SetVelocity(vel: Vec): (r: (Vec, Enemy))
      ensures r.0 == vel && r.1.GetVelocity() == vel
      ensures r.1.(velocity := velocity) == this
    {
      (vel, this.(velocity := vel))
    }

    /** Enemy::get_velocity: setting the velocity it returns back changes nothing. */
    function GetVelocity(): (v: Vec)
      ensures this.(velocity := v) == this
    {
      velocity
    }

    /** shape.move(velocity * dt): the enemy is displaced by velocity * dt and nothing else changes. */
    function Moved(dt: real): (e: Enemy)
      ensures Sub(e.position, position) == Scale(velocity, dt)
      ensures e.(position := position) == this
    {
      this.(position := Add(position, Scale(GetVelocity(), dt)))
    }

    /** The visibility invariant: the timer is never negative and the enemy is visible exactly
        while time remains on it. */
    predicate Consistent()
    {
      visibilityTimer >= 0.0 && (visible <==> visibilityTimer > 0.0)
    }

    /** What an echo hit does: set_visibility(true) and a fresh 4 second timer. */
    function Revealed(): (e: Enemy)
      ensures e.visible && e.visibilityTimer == RevealSeconds && e.Consistent()
      ensures e.position == position && e.radius == radius && e.velocity == velocity
    {
      SetVisibility(true).(visibilityTimer := RevealSeconds)
    }

    /** One step of the visibility-timer pass. */
    function TickedVisibility(dt: real): (e: Enemy)
      ensures e.position == position && e.radius == radius && e.velocity == velocity
      ensures visibilityTimer >= 0.0 ==> e.visibilityTimer >= 0.0
      ensures Consistent() ==> e.Consistent()
      ensures Consistent() && dt >= 0.0 ==> (e.visible <==> visibilityTimer > dt)
    {
      if visibilityTimer > 0.0 then
        var t := visibilityTimer - dt;
        if t <= 0.0 then this.(visibilityTimer := 0.0).SetVisibility(false)
        else this.(visibilityTimer := t)
      else this
    }
  }

  /** A bullet: position, radius and velocity. */
  datatype Bullet = Bullet(position: Vec, velocity: Vec, radius: real)
  {
    /** b.shape.move(b.velocity * dt): displaced by velocity * dt, nothing else changes. */
    function Moved(dt: real): (b: Bullet)
      ensures Sub(b.position, position) == Scale(velocity, dt)
      ensures b.(position := position) == this
    {
      this.(position := Add(position, Scale(velocity, dt)))
    }

    /** The negation of the out-of-bounds test (50 units of margin on every side). A bullet
        kept by it lies within the arena's half-diagonal of 450 by 350 from the centre. */
    predicate InArena()
      ensures InArena() ==> Dist2(position, Center) <= ArenaReach2
    {
      var inside := !(position.x < -50.0 || position.x > WindowW + 50.0 || position.y < -50.0 || position.y > WindowH + 50.0);
      if inside then BoxWithinReach(position); true else false
    }

    /** The bullet-vs-enemy test: squared distance at most the squared radius sum. It is
        symmetric, and a bullet on top of an enemy always hits it. */
    predicate Hits(e: Enemy)
      ensures Hits(e) <==> CirclesMeet(e.position, position, e.radius, radius)
      ensures position == e.position ==> Hits(e)
    {
      Dist2Symmetric(position, e.position);
      NonNegSquare(radius + e.radius);
      CirclesMeet(position, e.position, radius, e.radius)
    }
  }

  /** The SFML inverse transform of a beam's rectangle, applied to a world point. SFML's
      handling of the rectangle's origin is not part of this model, so it stays abstract. */
  type LocalTransform = (Echo, Vec) -> Vec

  /** Echo, the beam: the rectangle's length (its width is the thickness passed in), the time
      since spawn, the unit direction, and the rectangle's position and rotation. */
  datatype Echo = Echo(length: real, elapsedTime: real, velocity: Vec, position: Vec, rotationDeg: real)
  {
    /** Echo::update: the beam ages by dt, never grows for a non-negative shrink, keeps its
        direction and rotation, and for a unit direction sits speed * elapsedTime from center. */
    function Updated(dt: real, shrinkRate: real, speed: real, center: Vec): (e: Echo)
      ensures e.elapsedTime == elapsedTime + dt && e.velocity == velocity && e.rotationDeg == rotationDeg
      ensures dt * shrinkRate >= 0.0 ==> e.length <= length
    {
      var t := elapsedTime + dt;
      this.(elapsedTime := t, length := length - dt * shrinkRate, position := Add(center, Scale(Scale(velocity, speed), t)))
    }

    /** Echo::hitsEnemy: closest point of the local box, then a point-in-circle test. */
    function HitsEnemy(enemy: Enemy, thickness: real, toLocal: LocalTransform): (hit: bool)
      ensures length <= 0.0 ==> !hit
    {
      length > 0.0 && BoxCircleHit(toLocal(this, enemy.position), length / 2.0, thickness / 2.0, enemy.radius)
    }
  }

  /** BigEcho, the ring: its radius, time since spawn and the circle's position. (The base
      class's velocity is never set for a ring and never read.) */
  datatype BigEcho = BigEcho(radius: real, elapsedTime: real, position: Vec)
  {
    /** BigEcho::update (speed and thickness are unused by the source): the ring ages by dt,
        is placed at center and never grows for a non-negative shrink. */
    function Updated(dt: real, shrinkRate: real, center: Vec): (r: BigEcho)
      ensures r.position == center && r.elapsedTime == elapsedTime + dt
      ensures dt * shrinkRate >= 0.0 ==> r.radius <= radius
    {
      BigEcho(radius - dt * shrinkRate, elapsedTime + dt, center)
    }

    /** BigEcho::hitsEnemy: the ring is tested as a disk thickened by the enemy's radius. */
    function HitsEnemy(enemy: Enemy): (hit: bool)
      ensures radius <= 0.0 ==> !hit
    {
      radius > 0.0 && CirclesMeet(enemy.position, position, radius, enemy.radius)
    }
  }

  /** EchoBase: the two effect kinds behind one hitsEnemy. */
  datatype EchoEffect = Beam(beam: Echo) | Ring(ring: BigEcho)
  {
    /** An effect that has shrunk to nothing hits no enemy, whichever its kind. */
    function HitsEnemy(enemy: Enemy, thickness: real, toLocal: LocalTransform): (hit: bool)
      ensures (Beam? && beam.length <= 0.0) || (Ring? && ring.radius <= 0.0) ==> !hit
    {
      match this
      case Beam(b) => b.HitsEnemy(enemy, thickness, toLocal)
      case Ring(r) => r.HitsEnemy(enemy)
    }
  }

  // ----- properties of the effects -----

  /** n calls of Echo::update with the same arguments. */
  function BeamAfter(e: Echo, n: nat, dt: real, shrinkRate: real, speed: real, center: Vec): Echo
  {
    if n == 0 then e else BeamAfter(e, n - 1, dt, shrinkRate, speed, center).Updated(dt, shrinkRate, speed, center)
  }

  lemma OneMoreStep(k: real, c: real)
    ensures (k + 1.0) * c == k * c + c
  {
  }

  /** After n updates the beam has shrunk by exactly n*dt*shrinkRate. */
  lemma {:induction false} BeamAfterLength(e: Echo, n: nat, dt: real, shrinkRate: real, speed: real, center: Vec)
    ensures BeamAfter(e, n, dt, shrinkRate, speed, center).length == e.length - (n as real) * (dt * shrinkRate)
  {
    if n > 0 {
      BeamAfterLength(e, n - 1, dt, shrinkRate, speed, center);
      OneMoreStep((n - 1) as real, dt * shrinkRate);
    }
  }

  /** After n updates the beam has aged by exactly n*dt. */
  lemma {:induction false} BeamAfterAge(e: Echo, n: nat, dt: real, shrinkRate: real, speed: real, center: Vec)
    ensures BeamAfter(e, n, dt, shrinkRate, speed, center).elapsedTime == e.elapsedTime + (n as real) * dt
  {
    if n > 0 {
      BeamAfterAge(e, n - 1, dt, shrinkRate, speed, center);
      OneMoreStep((n - 1) as real, dt);
    }
  }

  /** Updates keep the beam's direction and rotation, and place it at center plus the
      direction times speed times its age. */
  lemma {:induction false} BeamAfterShape(e: Echo, n: nat, dt: real, shrinkRate: real, speed: real, center: Vec)
    ensures var b := BeamAfter(e, n, dt, shrinkRate, speed, center);
      && b.velocity == e.velocity && b.rotationDeg == e.rotationDeg
      && (n > 0 ==> b.position == Add(center, Scale(Scale(e.velocity, speed), b.elapsedTime)))
  {
    if n > 0 {
      BeamAfterShape(e, n - 1, dt, shrinkRate, speed, center);
      var prev := BeamAfter(e, n - 1, dt, shrinkRate, speed, center);
      var b := prev.Updated(dt, shrinkRate, speed, center);
      assert BeamAfter(e, n, dt, shrinkRate, speed, center) == b;
      assert b.position == Add(center, Scale(Scale(prev.velocity, speed), b.elapsedTime));
    }
  }

  /** After n updates the beam has shrunk by exactly n*dt*shrinkRate, aged by n*dt, and sits at
      center + velocity*speed*elapsedTime, with its direction and rotation untouched. */
  /** A beam keeps its direction and its drawn rotation through every update. */
  lemma {:induction false} BeamAfterHeading(e: Echo, n: nat, dt: real, shrinkRate: real, speed: real, center: Vec)
    ensures var b := BeamAfter(e, n, dt, shrinkRate, speed, center);
      b.velocity == e.velocity && b.rotationDeg == e.rotationDeg
  {
    if n > 0 {
      BeamAfterHeading(e, n - 1, dt, shrinkRate, speed, center);
    }
  }

  /** A beam with a unit direction that has been updated at least once lies speed * age from
      the centre it flies out of. */
  lemma BeamAfterDistance(e: Echo, n: nat, dt: real, shrinkRate: real, speed: real, center: Vec)
    requires n > 0 && IsUnit(e.velocity)
    ensures var b := BeamAfter(e, n, dt, shrinkRate, speed, center);
      Dist2(b.position, center) == (speed * b.elapsedTime) * (speed * b.elapsedTime)
  {
    var b := BeamAfter(e, n, dt, shrinkRate, speed, center);
    BeamAfterShape(e, n, dt, shrinkRate, speed, center);
    var k := speed * b.elapsedTime;
    ScaleTwice(e.velocity, speed, b.elapsedTime);
    ScaledUnitDistance(center, e.velocity, k);
  }

  lemma BeamAfterFrames(e: Echo, n: nat, dt: real, shrinkRate: real, speed: real, center: Vec)
    ensures var b := BeamAfter(e, n, dt, shrinkRate, speed, center);
      && b.length == e.length - (n as real) * (dt * shrinkRate)
      && b.elapsedTime == e.elapsedTime + (n as real) * dt
      && b.velocity == e.velocity && b.rotationDeg == e.rotationDeg
      && (n > 0 ==> b.position == Add(center, Scale(Scale(e.velocity, speed), b.elapsedTime)))
  {
    BeamAfterLength(e, n, dt, shrinkRate, speed, center);
    BeamAfterAge(e, n, dt, shrinkRate, speed, center);
    BeamAfterShape(e, n, dt, shrinkRate, speed, center);
  }

  /** With a positive frame time and shrink rate every beam becomes inert (length <= 0). */
  lemma BeamEventuallyInert(e: Echo, dt: real, shrinkRate: real, speed: real, center: Vec)
    requires dt > 0.0 && shrinkRate > 0.0
    ensures exists n: nat :: BeamAfter(e, n, dt, shrinkRate, speed, center).length <= 0.0
  {
    var step := dt * shrinkRate;
    assert step > 0.0;
    var n: nat := if e.length <= 0.0 then 0 else (e.length / step).Floor + 1;
    BeamAfterFrames(e, n, dt, shrinkRate, speed, center);
    if e.length > 0.0 {
      PastQuotient(e.length, step, n as real);
    }
  }

  lemma PastQuotient(len: real, step: real, k: real)
    requires step > 0.0 && k > len / step
    ensures len - k * step < 0.0
  {
    var q := len / step;
    assert q * step == len;
    assert (k - q) * step > 0.0;
  }

  /** The doctest "Echo update moves and shrinks" (src/game_test.cpp:63-76). */
  lemma BeamUpdateExample()
    ensures Echo(20.0, 0.0, Vec(1.0, 0.0), Vec(0.0, 0.0), 90.0).Updated(1.0, 2.0, 10.0, Vec(0.0, 0.0))
      == Echo(18.0, 1.0, Vec(1.0, 0.0), Vec(10.0, 0.0), 90.0)
  {
  }

  /** n frames of the bullet update with the same dt. */
  function BulletAfter(b: Bullet, n: nat, dt: real): Bullet
  {
    if n == 0 then b else BulletAfter(b, n - 1, dt).Moved(dt)
  }

  /** After n frames a bullet has travelled velocity * n*dt in a straight line. */
  lemma {:induction false} BulletAfterFrames(b: Bullet, n: nat, dt: real)
    ensures var c := BulletAfter(b, n, dt);
      && c.velocity == b.velocity && c.radius == b.radius
      && c.position == Add(b.position, Scale(b.velocity, (n as real) * dt))
  {
    if n > 0 {
      BulletAfterFrames(b, n - 1, dt);
      OneMoreStep((n - 1) as real, dt);
      var k := ((n - 1) as real) * dt;
      assert b.velocity.x * k + b.velocity.x * dt == b.velocity.x * (k + dt);
      assert b.velocity.y * k + b.velocity.y * dt == b.velocity.y * (k + dt);
    }
  }

  /** n calls of BigEcho::update with the same arguments. */
  function RingAfter(r: BigEcho, n: nat, dt: real, shrinkRate: real, center: Vec): BigEcho
  {
    if n == 0 then r else RingAfter(r, n - 1, dt, shrinkRate, center).Updated(dt, shrinkRate, center)
  }

  /** After n updates the ring has shrunk by exactly n*dt*shrinkRate and stays at center. */
  lemma {:induction false} RingAfterFrames(r: BigEcho, n: nat, dt: real, shrinkRate: real, center: Vec)
    ensures var b := RingAfter(r, n, dt, shrinkRate, center);
      && b.radius == r.radius - (n as real) * (dt * shrinkRate)
      && b.elapsedTime == r.elapsedTime + (n as real) * dt
      && (n > 0 ==> b.position == center)
  {
    if n > 0 {
      RingAfterFrames(r, n - 1, dt, shrinkRate, center);
      assert (n as real) * (dt * shrinkRate) == ((n - 1) as real) * (dt * shrinkRate) + dt * shrinkRate;
      assert (n as real) * dt == ((n - 1) as real) * dt + dt;
    }
  }

  /** The doctest "BigEcho update shrinks" (src/game_test.cpp:78-90). */
  lemma RingUpdateExample()
    ensures var b := BigEcho(40.0, 0.0, Vec(7.0, 7.0)).Updated(1.0, 5.0, Vec(0.0, 0.0));
      b.radius == 35.0 && b.position == Vec(0.0, 0.0)
  {
  }

  /** A beam hits exactly when its length is positive and the local point lies within the
      enemy's radius of some point of the box [-length/2, length/2] x [-thickness/2, thickness/2]. */
  lemma BeamHitIffBoxMeetsDisk(b: Echo, enemy: Enemy, thickness: real, toLocal: LocalTransform)
    requires thickness >= 0.0
    ensures b.HitsEnemy(enemy, thickness, toLocal) <==>
      b.length > 0.0 && exists q :: InBox(q, b.length / 2.0, thickness / 2.0)
                                   && Dist2(toLocal(b, enemy.position), q) <= enemy.radius * enemy.radius
  {
    var p := toLocal(b, enemy.position);
    if b.HitsEnemy(enemy, thickness, toLocal) {
      BoxCircleHitHasWitness(p, b.length / 2.0, thickness / 2.0, enemy.radius);
    }
    if b.length > 0.0 && exists q :: InBox(q, b.length / 2.0, thickness / 2.0) && Dist2(p, q) <= enemy.radius * enemy.radius {
      var q :| InBox(q, b.length / 2.0, thickness / 2.0) && Dist2(p, q) <= enemy.radius * enemy.radius;
      assert Dist2(p, q) <= enemy.radius * enemy.radius;
      BoxCircleHitComplete(p, b.length / 2.0, thickness / 2.0, enemy.radius, q);
    }
  }

  /** A live beam hits every enemy whose local point falls inside its box. */
  lemma BeamHitsInsideBox(b: Echo, enemy: Enemy, thickness: real, toLocal: LocalTransform)
    requires b.length > 0.0
    requires InBox(toLocal(b, enemy.position), b.length / 2.0, thickness / 2.0)
    ensures b.HitsEnemy(enemy, thickness, toLocal)
  {
    InsideBoxHits(toLocal(b, enemy.position), b.length / 2.0, thickness / 2.0, enemy.radius);
  }

  /** The beam's clamped point, for a live beam and a non-negative thickness, lies in the box. */
  lemma BeamClampInBox(b: Echo, enemy: Enemy, thickness: real, toLocal: LocalTransform)
    requires b.length > 0.0 && thickness >= 0.0
    ensures InBox(ClosestOnBox(toLocal(b, enemy.position), b.length / 2.0, thickness / 2.0), b.length / 2.0, thickness / 2.0)
  {
  }

  /** The ring's test only gets more permissive as the radius grows, so a shrinking ring
      never starts hitting an enemy it did not hit before at the same position. */
  lemma RingHitMonotone(r: BigEcho, bigger: real, enemy: Enemy)
    requires r.HitsEnemy(enemy)
    requires bigger >= r.radius && enemy.radius >= 0.0
    ensures r.(radius := bigger).HitsEnemy(enemy)
  {
    SquareMonotone(r.radius + enemy.radius, bigger + enemy.radius);
  }

  /** A live ring hits every enemy whose centre lies inside its disk. */
  lemma RingHitsInsideDisk(r: BigEcho, enemy: Enemy)
    requires r.radius > 0.0 && enemy.radius >= 0.0
    requires Dist2(enemy.position, r.position) <= r.radius * r.radius
    ensures r.HitsEnemy(enemy)
  {
    SquareMonotone(r.radius, r.radius + enemy.radius);
  }

  /** The doctest "BigEcho hitsEnemy" (src/game_test.cpp:45-61). */
  lemma RingHitExample()
    ensures var r := BigEcho(50.0, 0.0, Vec(100.0, 100.0));
      && r.HitsEnemy(Enemy(Vec(100.0, 100.0), 5.0, Vec(0.0, 0.0), false, 0.0))
      && !r.HitsEnemy(Enemy(Vec(200.0, 200.0), 5.0, Vec(0.0, 0.0), false, 0.0))
  {
  }

  /** The doctest "Enemy velocity" (src/game_test.cpp:16-22). */
  lemma VelocityRoundTrip(e: Enemy, vel: Vec)
    ensures e.SetVelocity(vel).1.GetVelocity() == vel
    ensures e.SetVelocity(vel).1.SetVelocity(e.velocity).1 == e
  {
  }
}
