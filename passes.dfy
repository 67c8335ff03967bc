// Per-frame passes over the entity pools. Both revisions run these loops with the same code
// (src/game_main.cpp:281-300, 416-481; src/main.cpp:131-150, 230-322); each is a method over
// the pool's sequence, proved against a specification function.
module Passes {
  import opened Geometry
  import opened Pools
  import opened Entities

  // ----- echo pools: update, then erase while the size is not positive -----

  predicate BeamAlive(e: Echo) { e.length > 0.0 }

  predicate RingAlive(r: BigEcho) { r.radius > 0.0 }

  function UpdatedBeams(s: seq<Echo>, dt: real, shrinkRate: real, speed: real, center: Vec): seq<Echo>
  {
    seq(|s|, i requires 0 <= i < |s| => s[i].Updated(dt, shrinkRate, speed, center))
  }

  function UpdatedRings(s: seq<BigEcho>, dt: real, shrinkRate: real, center: Vec): seq<BigEcho>
  {
    seq(|s|, i requires 0 <= i < |s| => s[i].Updated(dt, shrinkRate, center))
  }

  /** The beam loop: every beam is updated, those whose length is no longer positive are
      erased, and the survivors keep their order. */
  method UpdateEchoPool(echos: seq<Echo>, dt: real, shrinkRate: real, speed: real, center: Vec) returns (r: seq<Echo>)
    ensures r == Filter(UpdatedBeams(echos, dt, shrinkRate, speed, center), BeamAlive)
    ensures forall i :: 0 <= i < |r| ==> r[i].length > 0.0
  {
    r := echos;
    var i := 0;
    ghost var j := 0;
    while i < |r|
      invariant 0 <= j <= |echos| && 0 <= i <= |r|
      invariant r[..i] == Filter(UpdatedBeams(echos[..j], dt, shrinkRate, speed, center), BeamAlive)
      invariant r[i..] == echos[j..]
      decreases |r| - i
    {
      BeamPoolStep(echos, j, dt, shrinkRate, speed, center);
      ghost var next := echos[j].Updated(dt, shrinkRate, speed, center);
      assert r[i] == echos[j];
      ghost var prev := r;
      r := r[i := r[i].Updated(dt, shrinkRate, speed, center)];
      assert r[i] == next;
      if r[i].length <= 0.0 {
        r := r[..i] + r[i + 1..];
        assert r[..i] == prev[..i];
        assert r[i..] == prev[i + 1..];
      } else {
        assert r[..i + 1] == prev[..i] + [next];
        assert r[i + 1..] == prev[i + 1..];
        i := i + 1;
      }
      j := j + 1;
    }
    assert echos[..j] == echos;
  }

  lemma BeamPoolStep(echos: seq<Echo>, j: nat, dt: real, shrinkRate: real, speed: real, center: Vec)
    requires j < |echos|
    ensures var next := echos[j].Updated(dt, shrinkRate, speed, center);
      Filter(UpdatedBeams(echos[..j + 1], dt, shrinkRate, speed, center), BeamAlive)
        == Filter(UpdatedBeams(echos[..j], dt, shrinkRate, speed, center), BeamAlive)
           + (if BeamAlive(next) then [next] else [])
  {
    ghost var done := UpdatedBeams(echos[..j], dt, shrinkRate, speed, center);
    ghost var next := echos[j].Updated(dt, shrinkRate, speed, center);
    assert UpdatedBeams(echos[..j + 1], dt, shrinkRate, speed, center) == done + [next];
    FilterAppend(done, next, BeamAlive);
  }

  /** The ring loop, with the same shape as the beam loop. */
  method UpdateRingPool(rings: seq<BigEcho>, dt: real, shrinkRate: real, center: Vec) returns (r: seq<BigEcho>)
    ensures r == Filter(UpdatedRings(rings, dt, shrinkRate, center), RingAlive)
    ensures forall i :: 0 <= i < |r| ==> r[i].radius > 0.0 && r[i].position == center
  {
    r := rings;
    var i := 0;
    ghost var j := 0;
    while i < |r|
      invariant 0 <= j <= |rings| && 0 <= i <= |r|
      invariant r[..i] == Filter(UpdatedRings(rings[..j], dt, shrinkRate, center), RingAlive)
      invariant r[i..] == rings[j..]
      decreases |r| - i
    {
      RingPoolStep(rings, j, dt, shrinkRate, center);
      ghost var next := rings[j].Updated(dt, shrinkRate, center);
      assert r[i] == rings[j];
      ghost var prev := r;
      r := r[i := r[i].Updated(dt, shrinkRate, center)];
      assert r[i] == next;
      if r[i].radius <= 0.0 {
        r := r[..i] + r[i + 1..];
        assert r[..i] == prev[..i];
        assert r[i..] == prev[i + 1..];
      } else {
        assert r[..i + 1] == prev[..i] + [next];
        assert r[i + 1..] == prev[i + 1..];
        i := i + 1;
      }
      j := j + 1;
    }
    assert rings[..j] == rings;
    FilterMembers(UpdatedRings(rings, dt, shrinkRate, center), RingAlive);
    forall k | 0 <= k < |r| ensures r[k].position == center {
      assert r[k] in UpdatedRings(rings, dt, shrinkRate, center);
    }
  }

  lemma RingPoolStep(rings: seq<BigEcho>, j: nat, dt: real, shrinkRate: real, center: Vec)
    requires j < |rings|
    ensures var next := rings[j].Updated(dt, shrinkRate, center);
      Filter(UpdatedRings(rings[..j + 1], dt, shrinkRate, center), RingAlive)
        == Filter(UpdatedRings(rings[..j], dt, shrinkRate, center), RingAlive)
           + (if RingAlive(next) then [next] else [])
  {
    ghost var done := UpdatedRings(rings[..j], dt, shrinkRate, center);
    ghost var next := rings[j].Updated(dt, shrinkRate, center);
    assert UpdatedRings(rings[..j + 1], dt, shrinkRate, center) == done + [next];
    FilterAppend(done, next, RingAlive);
  }

  // ----- bullets: move, then erase those that left the arena -----

  predicate BulletInArena(b: Bullet) { b.InArena() }

  function MovedBullets(s: seq<Bullet>, dt: real): seq<Bullet>
  {
    seq(|s|, i requires 0 <= i < |s| => s[i].Moved(dt))
  }

  method UpdateBullets(bullets: seq<Bullet>, dt: real) returns (r: seq<Bullet>)
    ensures r == Filter(MovedBullets(bullets, dt), BulletInArena)
    ensures forall i :: 0 <= i < |r| ==> r[i].InArena()
  {
    r := bullets;
    var i := 0;
    ghost var j := 0;
    while i < |r|
      invariant 0 <= j <= |bullets| && 0 <= i <= |r|
      invariant r[..i] == Filter(MovedBullets(bullets[..j], dt), BulletInArena)
      invariant r[i..] == bullets[j..]
      decreases |r| - i
    {
      BulletPoolStep(bullets, j, dt);
      ghost var next := bullets[j].Moved(dt);
      assert r[i] == bullets[j];
      ghost var prev := r;
      r := r[i := r[i].Moved(dt)];
      assert r[i] == next;
      var p := r[i].position;
      if p.x < -50.0 || p.x > WindowW + 50.0 || p.y < -50.0 || p.y > WindowH + 50.0 {
        r := r[..i] + r[i + 1..];
        assert r[..i] == prev[..i];
        assert r[i..] == prev[i + 1..];
      } else {
        assert r[..i + 1] == prev[..i] + [next];
        assert r[i + 1..] == prev[i + 1..];
        i := i + 1;
      }
      j := j + 1;
    }
    assert bullets[..j] == bullets;
  }

  lemma BulletPoolStep(bullets: seq<Bullet>, j: nat, dt: real)
    requires j < |bullets|
    ensures var next := bullets[j].Moved(dt);
      Filter(MovedBullets(bullets[..j + 1], dt), BulletInArena)
        == Filter(MovedBullets(bullets[..j], dt), BulletInArena) + (if BulletInArena(next) then [next] else [])
  {
    ghost var done := MovedBullets(bullets[..j], dt);
    ghost var next := bullets[j].Moved(dt);
    assert MovedBullets(bullets[..j + 1], dt) == done + [next];
    FilterAppend(done, next, BulletInArena);
  }

  // ----- enemies: movement, reveal and visibility timers -----

  method MoveEnemies(enemies: seq<Enemy>, dt: real) returns (r: seq<Enemy>)
    ensures |r| == |enemies|
    ensures forall i :: 0 <= i < |r| ==> r[i] == enemies[i].Moved(dt)
  {
    r := enemies;
    for i := 0 to |r|
      invariant |r| == |enemies|
      invariant forall k :: 0 <= k < i ==> r[k] == enemies[k].Moved(dt)
      invariant forall k :: i <= k < |r| ==> r[k] == enemies[k]
    {
      r := r[i := r[i].Moved(dt)];
    }
  }

  /** Some effect of the list hits the enemy. */
  predicate AnyHit(effects: seq<EchoEffect>, enemy: Enemy, thickness: real, toLocal: LocalTransform)
  {
    exists k :: 0 <= k < |effects| && effects[k].HitsEnemy(enemy, thickness, toLocal)
  }

  /** The reveal pass: an enemy some effect hits is revealed (visible, 4 second timer); the
      scan over the effects stops at the first hit; no enemy is added or removed. */
  method RevealPass(enemies: seq<Enemy>, effects: seq<EchoEffect>, thickness: real, toLocal: LocalTransform)
    returns (r: seq<Enemy>)
    ensures |r| == |enemies|
    ensures forall i :: 0 <= i < |r| ==>
      r[i] == if AnyHit(effects, enemies[i], thickness, toLocal) then enemies[i].Revealed() else enemies[i]
  {
    r := enemies;
    for ei := 0 to |r|
      invariant |r| == |enemies|
      invariant forall k :: 0 <= k < ei ==>
        r[k] == if AnyHit(effects, enemies[k], thickness, toLocal) then enemies[k].Revealed() else enemies[k]
      invariant forall k :: ei <= k < |r| ==> r[k] == enemies[k]
    {
      ghost var before := r;
      var k := 0;
      while k < |effects|
        invariant 0 <= k <= |effects|
        invariant r == before
        invariant forall j :: 0 <= j < k ==> !effects[j].HitsEnemy(enemies[ei], thickness, toLocal)
      {
        if effects[k].HitsEnemy(r[ei], thickness, toLocal) {
          r := r[ei := r[ei].Revealed()];
          break;
        }
        k := k + 1;
      }
    }
  }

  /** The visibility-timer pass, enemy by enemy. */
  method TickVisibility(enemies: seq<Enemy>, dt: real) returns (r: seq<Enemy>)
    ensures |r| == |enemies|
    ensures forall i :: 0 <= i < |r| ==> r[i] == enemies[i].TickedVisibility(dt)
  {
    r := enemies;
    for i := 0 to |r|
      invariant |r| == |enemies|
      invariant forall k :: 0 <= k < i ==> r[k] == enemies[k].TickedVisibility(dt)
      invariant forall k :: i <= k < |r| ==> r[k] == enemies[k]
    {
      r := r[i := r[i].TickedVisibility(dt)];
    }
  }

  /** After the reveal pass and the timer pass every enemy satisfies the visibility invariant,
      provided every enemy did before, whatever dt is; the timers stay at 0 or above. */
  lemma RevealThenTickConsistent(enemies: seq<Enemy>, effects: seq<EchoEffect>, thickness: real,
                                 toLocal: LocalTransform, revealed: seq<Enemy>, ticked: seq<Enemy>, dt: real)
    requires forall i :: 0 <= i < |enemies| ==> enemies[i].Consistent()
    requires |revealed| == |enemies|
    requires forall i :: 0 <= i < |revealed| ==>
      revealed[i] == if AnyHit(effects, enemies[i], thickness, toLocal) then enemies[i].Revealed() else enemies[i]
    requires |ticked| == |revealed|
    requires forall i :: 0 <= i < |ticked| ==> ticked[i] == revealed[i].TickedVisibility(dt)
    ensures forall i :: 0 <= i < |ticked| ==> ticked[i].Consistent() && ticked[i].visibilityTimer >= 0.0
  {
  }

  // ----- the spawn loop of spawnWave -----

  /** std::max(WINDOW_W, WINDOW_H) / 2 + 50 */
  const SpawnRadius: real := 450.0
  const EnemyRadius: real := 14.0

  /** 40 + 8 * waveNumber + jitter, the jitter drawn from [-10, 10). */
  function EnemySpeed(waveNumber: int, jitter: real): real
  {
    40.0 + 8.0 * (waveNumber as real) + jitter
  }

  /** One iteration of the spawn loop, for the random direction u = (cos a, sin a). The
      std::sqrt of the offset's squared length is the spawn radius (SpawnDistanceIsRoot). */
  function SpawnedEnemy(u: Vec, waveNumber: int, jitter: real): (e: Enemy)
    ensures e.Consistent() && !e.visible && e.visibilityTimer == 0.0 && e.radius == EnemyRadius
    ensures e.position == Add(Center, Scale(u, SpawnRadius))
  {
    var pos := Add(Center, Scale(u, SpawnRadius));
    var e := Enemy(pos, EnemyRadius, Vec(0.0, 0.0), false, 0.0).SetVisibility(false).(visibilityTimer := 0.0);
    var dir := Sub(Center, pos);
    var len := SpawnRadius;
    var unit := if len != 0.0 then Vec(dir.x / len, dir.y / len) else dir;
    e.SetVelocity(Scale(unit, EnemySpeed(waveNumber, jitter))).1
  }

  /** For a unit direction, the spawn radius is the non-negative square root of the squared
      length of the vector from the spawn point to the centre. */
  lemma SpawnDistanceIsRoot(u: Vec)
    requires IsUnit(u)
    ensures var dir := Sub(Center, Add(Center, Scale(u, SpawnRadius)));
      SpawnRadius >= 0.0 && SpawnRadius * SpawnRadius == dir.x * dir.x + dir.y * dir.y
  {
    var dir := Sub(Center, Add(Center, Scale(u, SpawnRadius)));
    assert dir.x == -(u.x * SpawnRadius) && dir.y == -(u.y * SpawnRadius);
    assert dir.x * dir.x + dir.y * dir.y == SpawnRadius * SpawnRadius * (u.x * u.x + u.y * u.y);
  }

  /** A spawned enemy is invisible with a zero timer, has radius 14, sits on the spawn circle
      and moves straight at the centre with speed 40 + 8*wave + jitter (at least 38 when the
      wave number is at least 1 and the jitter at least -10). */
  lemma SpawnedEnemyAimsAtCenter(u: Vec, waveNumber: int, jitter: real)
    requires IsUnit(u)
    ensures var e := SpawnedEnemy(u, waveNumber, jitter);
      && !e.visible && e.visibilityTimer == 0.0 && e.Consistent() && e.radius == EnemyRadius
      && Dist2(e.position, Center) == SpawnRadius * SpawnRadius
      && e.velocity == Scale(Sub(Center, e.position), EnemySpeed(waveNumber, jitter) / SpawnRadius)
      && (waveNumber >= 1 && jitter >= -10.0 ==> EnemySpeed(waveNumber, jitter) >= 38.0)
  {
    var e := SpawnedEnemy(u, waveNumber, jitter);
    SpawnDistanceIsRoot(u);
    Dist2Symmetric(e.position, Center);
    var dir := Sub(Center, e.position);
    var s := EnemySpeed(waveNumber, jitter);
    assert e.velocity.x == (dir.x / SpawnRadius) * s == dir.x * (s / SpawnRadius);
    assert e.velocity.y == (dir.y / SpawnRadius) * s == dir.y * (s / SpawnRadius);
  }

  /** A frame later a spawned enemy is still on the ray from the turret through its spawn
      point, speed * dt nearer to the turret. */
  lemma SpawnedEnemyClosesIn(u: Vec, waveNumber: int, jitter: real, dt: real)
    requires IsUnit(u)
    ensures SpawnedEnemy(u, waveNumber, jitter).Moved(dt).position
      == Add(Center, Scale(u, SpawnRadius - EnemySpeed(waveNumber, jitter) * dt))
  {
    var e := SpawnedEnemy(u, waveNumber, jitter);
    var s := EnemySpeed(waveNumber, jitter);
    assert e.velocity == Vec(-u.x * s, -u.y * s);
    assert u.x * SpawnRadius + -u.x * s * dt == u.x * (SpawnRadius - s * dt);
    assert u.y * SpawnRadius + -u.y * s * dt == u.y * (SpawnRadius - s * dt);
  }

  /** The spawn loop: count enemies (none when count is not positive), the i-th made from the
      i-th random direction and the i-th speed jitter. */
  method SpawnEnemies(count: int, waveNumber: int, spawnDir: nat -> Vec, jitter: nat -> real) returns (es: seq<Enemy>)
    ensures |es| == if count > 0 then count else 0
    ensures forall i :: 0 <= i < |es| ==> es[i] == SpawnedEnemy(spawnDir(i), waveNumber, jitter(i))
    ensures forall i :: 0 <= i < |es| ==> es[i].Consistent() && es[i].radius == EnemyRadius
  {
    es := [];
    var i := 0;
    while i < count
      invariant 0 <= i && |es| == i
      invariant if count > 0 then i <= count else i == 0
      invariant forall k :: 0 <= k < i ==> es[k] == SpawnedEnemy(spawnDir(k), waveNumber, jitter(k))
    {
      es := es + [SpawnedEnemy(spawnDir(i), waveNumber, jitter(i))];
      i := i + 1;
    }
  }

  // ----- bullet against enemy -----

  /** Index of the first enemy the bullet overlaps, or |es| when there is none. */
  function FirstHitIndex(b: Bullet, es: seq<Enemy>): (k: nat)
    ensures k <= |es|
    ensures forall j :: 0 <= j < k ==> !b.Hits(es[j])
    ensures k < |es| ==> b.Hits(es[k])
  {
    if es == [] then 0
    else if b.Hits(es[0]) then 0
    else 1 + FirstHitIndex(b, es[1..])
  }

  /** The enemies after one bullet's scan: the first enemy it overlaps is erased. */
  function RemoveFirstHit(b: Bullet, es: seq<Enemy>): (r: seq<Enemy>)
    ensures |r| == (if FirstHitIndex(b, es) < |es| then |es| - 1 else |es|)
    ensures forall x :: x in r ==> x in es
  {
    var k := FirstHitIndex(b, es);
    if k < |es| then es[..k] + es[k + 1..] else es
  }

  /** The inner scan of both collision loops, as a loop: returns the index of the first
      enemy the bullet overlaps, or |es|. */
  method ScanForHit(b: Bullet, es: seq<Enemy>) returns (k: nat)
    ensures k == FirstHitIndex(b, es)
  {
    k := 0;
    while k < |es|
      invariant k <= |es|
      invariant forall j :: 0 <= j < k ==> !b.Hits(es[j])
    {
      var ep := es[k].position;
      var dx := b.position.x - ep.x;
      var dy := b.position.y - ep.y;
      var dist2 := dx * dx + dy * dy;
      var rsum := b.radius + es[k].radius;
      if dist2 <= rsum * rsum {
        break;
      }
      k := k + 1;
    }
    FirstHitIsLeast(b, es, k);
  }

  /** FirstHitIndex is the least index of an enemy the bullet overlaps. */
  lemma {:induction false} FirstHitIsLeast(b: Bullet, es: seq<Enemy>, k: nat)
    requires k <= |es|
    requires forall j :: 0 <= j < k ==> !b.Hits(es[j])
    requires k < |es| ==> b.Hits(es[k])
    ensures k == FirstHitIndex(b, es)
    decreases k
  {
    if k > 0 {
      assert !b.Hits(es[0]);
      FirstHitIsLeast(b, es[1..], k - 1);
    }
  }
}
