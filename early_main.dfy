// The earlier revision of the game loop (src/main.cpp): one beam weapon, no pause, no hearts,
// no rings and no flash. The charge has no cap, a bullet dies with the enemy it hits, waves
// are intensity/4 enemies large, and the intensity decays by 10 per frame.
module EarlyMain {
  import opened Geometry
  import opened Pools
  import opened Entities
  import opened Passes
  import opened Turret

  const EarlyStartingLives: int := 9999
  const EarlyIntensityDecay: real := 10.0

  /** The keys this revision reads in one frame, and the frame time. */
  datatype EarlyInput = EarlyInput(dt: real, left: bool, right: bool, space: bool, up: bool)

  // ----- wave size -----

  /** 0 + intensity/4 converted to int: no minimum and no cap. */
  function EarlySpawnCount(intensity: real): (count: int)
    ensures intensity >= 0.0 ==> 0 <= count && (count as real) * 4.0 <= intensity < (count as real) * 4.0 + 4.0
    ensures 0.0 <= intensity < 4.0 ==> count == 0
  {
    Trunc(0.0 + intensity / 4.0)
  }

  /** Every wave size occurs: an intensity of 4n spawns exactly n enemies. */
  lemma EarlySpawnCountUncapped(n: nat)
    ensures EarlySpawnCount(4.0 * (n as real)) == n
  {
    var c := EarlySpawnCount(4.0 * (n as real));
    assert (c as real) <= n as real < (c as real) + 1.0;
  }

  // ----- the uncapped charge -----

  /** The charge after n held frames that each add step. */
  function HeldCharge(charge: real, step: real, n: nat): real
  {
    if n == 0 then charge else HeldCharge(charge, step, n - 1) + step
  }

  /** Holding the key adds the same increment every frame, with nothing to stop it. */
  lemma {:induction false} HeldChargeIsLinear(charge: real, step: real, n: nat)
    ensures HeldCharge(charge, step, n) == charge + (n as real) * step
  {
    if n > 0 {
      HeldChargeIsLinear(charge, step, n - 1);
      OneMoreStep((n - 1) as real, step);
    }
  }

  /** Whatever the frame increment, holding long enough passes the 150 the later revision stops at. */
  lemma HeldChargeUncapped(step: real)
    requires step > 0.0
    ensures exists n: nat :: HeldCharge(0.0, step, n) > EchoMaxCharge
  {
    var n: nat := (EchoMaxCharge / step).Floor + 1;
    HeldChargeIsLinear(0.0, step, n);
    PastQuotient(EchoMaxCharge, step, n as real);
    assert HeldCharge(0.0, step, n) > EchoMaxCharge;
  }

  // ----- bullet against enemy, both erased -----

  /** The bullet loop of this revision: a bullet that overlaps an enemy is erased together
      with the first enemy it overlaps, and the index stays; a bullet that overlaps none
      stays. The result is the pair (bullets left, enemies left). */
  function KillBoth(bs: seq<Bullet>, es: seq<Enemy>): (r: (seq<Bullet>, seq<Enemy>))
    ensures |r.0| <= |bs| && |r.1| <= |es|
    decreases |bs|
  {
    if bs == [] then ([], es)
    else if FirstHitIndex(bs[0], es) < |es| then KillBoth(bs[1..], RemoveFirstHit(bs[0], es))
    else
      var t := KillBoth(bs[1..], es);
      ([bs[0]] + t.0, t.1)
  }

  /** Kills equal spent bullets: the pass removes exactly as many bullets as enemies, and what
      is left of both pools was in them before. */
  lemma {:induction false} KillBothBalance(bs: seq<Bullet>, es: seq<Enemy>)
    ensures var t := KillBoth(bs, es);
      && |bs| - |t.0| == |es| - |t.1|
      && |t.0| <= |bs|
      && (forall x :: x in t.0 ==> x in bs)
      && (forall x :: x in t.1 ==> x in es)
    decreases |bs|
  {
    if bs != [] {
      if FirstHitIndex(bs[0], es) < |es| {
        KillBothBalance(bs[1..], RemoveFirstHit(bs[0], es));
      } else {
        KillBothBalance(bs[1..], es);
      }
    }
  }

  /** No bullet of bs overlaps an enemy of es. */
  predicate Apart(bs: seq<Bullet>, es: seq<Enemy>)
  {
    forall i, j :: 0 <= i < |bs| && 0 <= j < |es| ==> !bs[i].Hits(es[j])
  }

  /** After the pass no surviving bullet overlaps a surviving enemy. */
  lemma {:induction false} KillBothLeavesNoOverlap(bs: seq<Bullet>, es: seq<Enemy>)
    ensures Apart(KillBoth(bs, es).0, KillBoth(bs, es).1)
    decreases |bs|
  {
    if bs != [] {
      if FirstHitIndex(bs[0], es) < |es| {
        KillBothLeavesNoOverlap(bs[1..], RemoveFirstHit(bs[0], es));
      } else {
        KillBothLeavesNoOverlap(bs[1..], es);
        KillBothBalance(bs[1..], es);
        ApartCons(bs[0], es, KillBoth(bs[1..], es).0, KillBoth(bs[1..], es).1);
      }
    }
  }

  /** A bullet that misses every enemy of es can join bullets that are apart from a part of es. */
  lemma {:induction false} ApartCons(b: Bullet, es: seq<Enemy>, bs: seq<Bullet>, sub: seq<Enemy>)
    requires FirstHitIndex(b, es) == |es|
    requires forall x :: x in sub ==> x in es
    requires Apart(bs, sub)
    ensures Apart([b] + bs, sub)
  {
    var r := [b] + bs;
    forall i, j | 0 <= i < |r| && 0 <= j < |sub|
      ensures !r[i].Hits(sub[j])
    {
      if i == 0 {
        assert sub[j] in es;
      } else {
        assert r[i] == bs[i - 1];
      }
    }
  }

  /** One step of the pass, for the loop that runs it. */
  lemma {:induction false} KillBothStep(bs: seq<Bullet>, es: seq<Enemy>)
    requires bs != []
    ensures FirstHitIndex(bs[0], es) < |es| ==> KillBoth(bs, es) == KillBoth(bs[1..], RemoveFirstHit(bs[0], es))
    ensures FirstHitIndex(bs[0], es) == |es| ==>
      KillBoth(bs, es).0 == [bs[0]] + KillBoth(bs[1..], es).0 && KillBoth(bs, es).1 == KillBoth(bs[1..], es).1
  {
  }

  lemma ConcatAssoc<T>(a: seq<T>, b: seq<T>, c: seq<T>)
    ensures a + (b + c) == (a + b) + c
  {
  }

  /** Bullets that overlap no enemy kill nothing and all stay. */
  lemma {:induction false} KillBothMisses(bs: seq<Bullet>, es: seq<Enemy>)
    requires Apart(bs, es)
    ensures KillBoth(bs, es) == (bs, es)
    decreases |bs|
  {
    if bs != [] {
      assert FirstHitIndex(bs[0], es) == |es|;
      KillBothMisses(bs[1..], es);
      assert [bs[0]] + bs[1..] == bs;
    }
  }

  /** The loop state of Collide: the bullets before index bi are settled, the rest of the
      pass is still to run on the current enemies. */
  predicate CollideAt(bs: seq<Bullet>, es: seq<Enemy>, bi: nat, goal: (seq<Bullet>, seq<Enemy>))
  {
    bi <= |bs| && bs[..bi] + KillBoth(bs[bi..], es).0 == goal.0 && KillBoth(bs[bi..], es).1 == goal.1
  }

  /** A hit erases the bullet and its enemy and keeps the index. */
  lemma {:induction false} CollideHitStep(bs: seq<Bullet>, es: seq<Enemy>, bi: nat, goal: (seq<Bullet>, seq<Enemy>))
    requires bi < |bs| && FirstHitIndex(bs[bi], es) < |es| && CollideAt(bs, es, bi, goal)
    ensures CollideAt(bs[..bi] + bs[bi + 1..], RemoveFirstHit(bs[bi], es), bi, goal)
  {
    var bs' := bs[..bi] + bs[bi + 1..];
    assert bs[bi..][0] == bs[bi] && bs[bi..][1..] == bs[bi + 1..];
    KillBothStep(bs[bi..], es);
    assert bs'[..bi] == bs[..bi] && bs'[bi..] == bs[bi + 1..];
  }

  /** A miss settles the bullet and moves to the next index. */
  lemma {:induction false} CollideMissStep(bs: seq<Bullet>, es: seq<Enemy>, bi: nat, goal: (seq<Bullet>, seq<Enemy>))
    requires bi < |bs| && FirstHitIndex(bs[bi], es) == |es| && CollideAt(bs, es, bi, goal)
    ensures CollideAt(bs, es, bi + 1, goal)
  {
    assert bs[bi..][0] == bs[bi] && bs[bi..][1..] == bs[bi + 1..];
    KillBothStep(bs[bi..], es);
    var tail := KillBoth(bs[bi + 1..], es);
    assert bs[..bi + 1] == bs[..bi] + [bs[bi]];
    ConcatAssoc(bs[..bi], [bs[bi]], tail.0);
  }

  lemma {:induction false} CollideStart(bs: seq<Bullet>, es: seq<Enemy>)
    ensures CollideAt(bs, es, 0, KillBoth(bs, es))
  {
    assert bs[..0] == [] && bs[0..] == bs;
    assert [] + KillBoth(bs, es).0 == KillBoth(bs, es).0;
  }

  /** With every bullet settled the loop state is the result. */
  lemma {:induction false} CollideDone(bs: seq<Bullet>, es: seq<Enemy>, goal: (seq<Bullet>, seq<Enemy>))
    requires CollideAt(bs, es, |bs|, goal)
    ensures (bs, es) == goal
  {
    assert bs[..|bs|] == bs && bs[|bs|..] == [];
    assert KillBoth([], es) == ([], es);
    assert bs + [] == bs;
  }

  /** The bullet-vs-enemy loop: on a hit both the enemy and the bullet are erased and the
      bullet index stays; otherwise it advances. */
  method Collide(bullets0: seq<Bullet>, enemies0: seq<Enemy>) returns (bullets: seq<Bullet>, enemies: seq<Enemy>)
    ensures (bullets, enemies) == KillBoth(bullets0, enemies0)
  {
    ghost var goal := KillBoth(bullets0, enemies0);
    bullets, enemies := bullets0, enemies0;
    var bi := 0;
    CollideStart(bullets, enemies);
    while bi < |bullets|
      invariant 0 <= bi <= |bullets|
      invariant CollideAt(bullets, enemies, bi, goal)
      decreases |bullets| - bi
    {
      var bulletRemoved := false;
      var ei := ScanForHit(bullets[bi], enemies);
      if ei < |enemies| {
        CollideHitStep(bullets, enemies, bi, goal);
        enemies := enemies[..ei] + enemies[ei + 1..];
        bullets := bullets[..bi] + bullets[bi + 1..];
        bulletRemoved := true;
      }
      if !bulletRemoved {
        CollideMissStep(bullets, enemies, bi, goal);
        bi := bi + 1;
      }
    }
    CollideDone(bullets, enemies, goal);
  }

  // ----- enemies at the turret -----

  lemma {:induction false} CenterFilterStep(s: seq<Enemy>, j: nat)
    requires j < |s|
    ensures Filter(s[..j + 1], ClearOfTurret)
      == Filter(s[..j], ClearOfTurret) + (if ClearOfTurret(s[j]) then [s[j]] else [])
  {
    assert s[..j + 1] == s[..j] + [s[j]];
    FilterAppend(s[..j], s[j], ClearOfTurret);
  }

  /** Nothing stops the count at 0: with one life left, two enemies at the turret in the same
      frame leave -1, which the zero test never sees. */
  lemma LivesCanSkipZero()
    ensures var e := Enemy(Center, EnemyRadius, Vec(0.0, 0.0), false, 0.0);
      1 - Removed([e, e], ClearOfTurret) == -1
  {
    var e := Enemy(Center, EnemyRadius, Vec(0.0, 0.0), false, 0.0);
    assert ReachedTurret(e);
    assert [e, e][1..] == [e];
    assert [e][1..] == [];
    assert Filter([e, e], ClearOfTurret) == [];
  }

  // ----- the game state -----

  class EarlyState {
    var turretAngleDeg: real
    var timeSinceLastShot: real
    var echoCharge: real
    var wasWHeld: bool
    var totalIntensity: real
    var wave: int
    var lives: int
    var waveActive: bool
    var nextWaveTimer: real
    var bullets: seq<Bullet>
    var enemies: seq<Enemy>
    var echos: seq<Echo>

    /** Counters and timers between frames. */
    predicate ScalarsValid()
      reads this`totalIntensity, this`echoCharge, this`timeSinceLastShot, this`nextWaveTimer, this`wave
    {
      && totalIntensity >= 0.0 && echoCharge >= 0.0 && timeSinceLastShot >= 0.0
      && nextWaveTimer >= 0.0 && wave >= 1
    }

    /** Every enemy keeps the visibility invariant and the spawn radius. */
    predicate EnemiesValid()
      reads this`enemies
    {
      forall i :: 0 <= i < |enemies| ==> enemies[i].Consistent() && enemies[i].radius == EnemyRadius
    }

    /** Bullets are in the arena; live beams have a positive length. */
    predicate ProjectilesValid()
      reads this`bullets, this`echos
    {
      && (forall i :: 0 <= i < |bullets| ==> bullets[i].radius == BulletRadius && bullets[i].InArena())
      && (forall i :: 0 <= i < |echos| ==> echos[i].length > 0.0)
    }

    /** What holds between frames. A wave of 0 enemies is active until the next wave logic,
        so only one direction of "active exactly while enemies are left" holds. */
    predicate Valid()
      reads this`totalIntensity, this`echoCharge, this`timeSinceLastShot, this`nextWaveTimer, this`wave,
            this`enemies, this`bullets, this`echos, this`waveActive
    {
      ScalarsValid() && EnemiesValid() && ProjectilesValid() && (!waveActive ==> enemies == [])
    }

    /** The enemies right after spawnWave(waveNumber): trunc(intensity/4) of them. */
    predicate FreshWave(waveNumber: int, spawnDir: nat -> Vec, jitter: nat -> real)
      reads this`totalIntensity, this`waveActive, this`enemies
    {
      var count := EarlySpawnCount(totalIntensity);
      && waveActive
      && |enemies| == (if count > 0 then count else 0)
      && (forall i :: 0 <= i < |enemies| ==> enemies[i] == SpawnedEnemy(spawnDir(i), waveNumber, jitter(i)))
    }

    /** The initial values, then spawnWave(1), which spawns no enemy at intensity 0. */
    constructor (spawnDir: nat -> Vec, jitter: nat -> real)
      ensures Valid()
      ensures wave == 1 && lives == EarlyStartingLives && totalIntensity == 0.0
      ensures timeSinceLastShot == FireCooldown && bullets == [] && echos == []
      ensures waveActive && enemies == []
    {
      turretAngleDeg := 0.0;
      timeSinceLastShot := FireCooldown;
      echoCharge := 0.0;
      wasWHeld := false;
      totalIntensity := 0.0;
      wave := 1;
      lives := EarlyStartingLives;
      waveActive := false;
      nextWaveTimer := 0.0;
      bullets := [];
      enemies := [];
      echos := [];
      new;
      SpawnWave(wave, spawnDir, jitter);
    }

    /** spawnWave: clear the enemies (the beams stay), spawn EarlySpawnCount(intensity)
        enemies, mark the wave active. */
    method SpawnWave(waveNumber: int, spawnDir: nat -> Vec, jitter: nat -> real)
      modifies this`enemies, this`waveActive
      ensures FreshWave(waveNumber, spawnDir, jitter)
      ensures EnemiesValid()
    {
      var count := EarlySpawnCount(totalIntensity);
      enemies := [];
      enemies := SpawnEnemies(count, waveNumber, spawnDir, jitter);
      waveActive := true;
    }

    /** The cooldown clock. */
    method AdvanceCooldown(dt: real)
      modifies this`timeSinceLastShot
      ensures timeSinceLastShot == old(timeSinceLastShot) + dt
      ensures old(Valid()) && dt >= 0.0 ==> Valid()
    {
      timeSinceLastShot := timeSinceLastShot + dt;
    }

    /** Left/Right rotation and the wrap into [0, 360]. */
    method Rotate(left: bool, right: bool, dt: real)
      modifies this`turretAngleDeg
      ensures turretAngleDeg == WrapAngle(old(turretAngleDeg) + Turn(left, right, dt))
      ensures 0.0 <= old(turretAngleDeg) <= 360.0 && 0.0 <= dt && RotationSpeedDegPerSec * dt <= 360.0
        ==> 0.0 <= turretAngleDeg <= 360.0
    {
      var rotationThisFrame := 0.0;
      if left {
        rotationThisFrame := rotationThisFrame - RotationSpeedDegPerSec * dt;
      }
      if right {
        rotationThisFrame := rotationThisFrame + RotationSpeedDegPerSec * dt;
      }
      turretAngleDeg := turretAngleDeg + rotationThisFrame;
      if turretAngleDeg > 360.0 {
        turretAngleDeg := turretAngleDeg - 360.0;
      }
      if turretAngleDeg < 0.0 {
        turretAngleDeg := turretAngleDeg + 360.0;
      }
      if 0.0 <= old(turretAngleDeg) <= 360.0 && 0.0 <= dt && RotationSpeedDegPerSec * dt <= 360.0 {
        TurnStaysInRange(old(turretAngleDeg), left, right, dt);
      }
    }

    /** Space with the cooldown elapsed fires one bullet along the turret and restarts the cooldown. */
    method Fire(space: bool, aimDir: real -> Vec)
      modifies this`timeSinceLastShot, this`bullets
      ensures old(Valid()) ==> Valid()
      ensures if space && old(timeSinceLastShot) >= FireCooldown
        then timeSinceLastShot == 0.0 && bullets == old(bullets) + [FiredBullet(aimDir(turretAngleDeg))]
        else timeSinceLastShot == old(timeSinceLastShot) && bullets == old(bullets)
    {
      if space && timeSinceLastShot >= FireCooldown {
        timeSinceLastShot := 0.0;
        var b := FiredBullet(aimDir(turretAngleDeg));
        bullets := bullets + [b];
      }
    }

    /** Up: while held the charge grows by dt * 200 with no cap (the comma expression drops
        the maximum); on the first frame after release with some charge, launch a beam as
        long as the charge, add its length to the intensity and reset the charge. */
    method ChargeEcho(up: bool, dt: real, aimDir: real -> Vec)
      modifies this`echoCharge, this`wasWHeld, this`echos, this`totalIntensity
      ensures old(Valid()) && dt >= 0.0 ==> Valid()
      ensures wasWHeld == up
      ensures up ==> (echoCharge == HeldCharge(old(echoCharge), dt * EchoChargeRate, 1)
        && echos == old(echos) && totalIntensity == old(totalIntensity))
      ensures !up && old(wasWHeld) && old(echoCharge) > 0.0 ==>
        var b := ReleasedBeam(old(echoCharge), turretAngleDeg, aimDir(turretAngleDeg));
        && echoCharge == 0.0 && echos == old(echos) + [b]
        && totalIntensity == old(totalIntensity) + b.length
      ensures !up && !(old(wasWHeld) && old(echoCharge) > 0.0) ==>
        echoCharge == old(echoCharge) && echos == old(echos) && totalIntensity == old(totalIntensity)
    {
      var isWHeld := up;
      if isWHeld {
        echoCharge := echoCharge + dt * EchoChargeRate;
      } else if wasWHeld && echoCharge > 0.0 {
        var ec := ReleasedBeam(echoCharge, turretAngleDeg, aimDir(turretAngleDeg));
        totalIntensity := totalIntensity + ec.length;
        echos := echos + [ec];
        echoCharge := 0.0;
      }
      wasWHeld := isWHeld;
    }

    /** The beam update loop. */
    method UpdateEchos(dt: real)
      modifies this`echos
      ensures echos == Filter(UpdatedBeams(old(echos), dt, EchoShrinkRate, EchoSpeed, Center), BeamAlive)
      ensures old(Valid()) ==> Valid()
    {
      echos := UpdateEchoPool(echos, dt, EchoShrinkRate, EchoSpeed, Center);
    }

    /** The reveal pass over the live beams, skipping beams of non-positive length. */
    method RevealEnemies(toLocal: LocalTransform)
      modifies this`enemies
      ensures |enemies| == |old(enemies)|
      ensures forall i :: 0 <= i < |enemies| ==>
        enemies[i] == if AnyHit(Beams(echos), old(enemies)[i], EchoThickness, toLocal) then old(enemies)[i].Revealed() else old(enemies)[i]
      ensures old(EnemiesValid()) ==> EnemiesValid()
    {
      enemies := RevealPass(enemies, Beams(echos), EchoThickness, toLocal);
    }

    /** The visibility-timer pass. */
    method TickEnemies(dt: real)
      modifies this`enemies
      ensures |enemies| == |old(enemies)|
      ensures forall i :: 0 <= i < |enemies| ==> enemies[i] == old(enemies)[i].TickedVisibility(dt)
      ensures old(EnemiesValid()) ==> EnemiesValid()
    {
      enemies := TickVisibility(enemies, dt);
    }

    /** The bullet update loop. */
    method UpdateBulletPool(dt: real)
      modifies this`bullets
      ensures bullets == Filter(MovedBullets(old(bullets), dt), BulletInArena)
      ensures old(ProjectilesValid()) ==> ProjectilesValid()
    {
      var before := bullets;
      bullets := UpdateBullets(bullets, dt);
      FilterMembers(MovedBullets(before, dt), BulletInArena);
      if old(ProjectilesValid()) {
        forall i | 0 <= i < |bullets|
          ensures bullets[i].radius == BulletRadius
        {
          assert bullets[i] in MovedBullets(before, dt);
        }
      }
    }

    /** The enemy movement loop. */
    method MoveEnemyPool(dt: real)
      modifies this`enemies
      ensures |enemies| == |old(enemies)|
      ensures forall i :: 0 <= i < |enemies| ==> enemies[i] == old(enemies)[i].Moved(dt)
      ensures old(EnemiesValid()) ==> EnemiesValid()
    {
      enemies := MoveEnemies(enemies, dt);
    }

    /** The bullet-vs-enemy loop over the pools. */
    method CollideBullets()
      modifies this`bullets, this`enemies
      ensures (bullets, enemies) == KillBoth(old(bullets), old(enemies))
      ensures |old(bullets)| - |bullets| == |old(enemies)| - |enemies|
      ensures |enemies| <= |old(enemies)|
      ensures old(EnemiesValid()) ==> EnemiesValid()
      ensures old(ProjectilesValid()) ==> ProjectilesValid()
    {
      bullets, enemies := Collide(bullets, enemies);
      KillBothBalance(old(bullets), old(enemies));
      if old(EnemiesValid()) {
        forall i | 0 <= i < |enemies|
          ensures enemies[i].Consistent() && enemies[i].radius == EnemyRadius
        {
          assert enemies[i] in old(enemies);
        }
      }
      if old(ProjectilesValid()) {
        forall i | 0 <= i < |bullets|
          ensures bullets[i].radius == BulletRadius && bullets[i].InArena()
        {
          assert bullets[i] in old(bullets);
        }
      }
    }

    /** The centre loop: every enemy at the turret is erased and costs a life; the others
        stay in order. */
    method ResolveCenterHits()
      modifies this`enemies, this`lives
      ensures enemies == Filter(old(enemies), ClearOfTurret)
      ensures lives == old(lives) - Removed(old(enemies), ClearOfTurret)
      ensures old(EnemiesValid()) ==> EnemiesValid()
    {
      var i := 0;
      ghost var j := 0;
      assert old(enemies)[..0] == [];
      while i < |enemies|
        invariant 0 <= j <= |old(enemies)| && 0 <= i <= |enemies|
        invariant enemies[..i] == Filter(old(enemies)[..j], ClearOfTurret)
        invariant enemies[i..] == old(enemies)[j..]
        invariant lives == old(lives) - (j - i)
        decreases |enemies| - i
      {
        CenterFilterStep(old(enemies), j);
        assert enemies[i] == old(enemies)[j];
        assert enemies[i + 1..] == old(enemies)[j + 1..] by {
          assert enemies[i + 1..] == enemies[i..][1..];
          assert old(enemies)[j + 1..] == old(enemies)[j..][1..];
        }
        ghost var prev := enemies;
        var ep := enemies[i].position;
        var dx := ep.x - Center.x;
        var dy := ep.y - Center.y;
        var dist2 := dx * dx + dy * dy;
        if dist2 <= (TurretRadius + enemies[i].radius) * (TurretRadius + enemies[i].radius) {
          assert ReachedTurret(prev[i]);
          enemies := enemies[..i] + enemies[i + 1..];
          assert enemies[..i] == prev[..i];
          assert enemies[i..] == prev[i + 1..];
          lives := lives - 1;
        } else {
          assert !ReachedTurret(prev[i]);
          assert enemies[..i + 1] == prev[..i] + [prev[i]];
          i := i + 1;
        }
        j := j + 1;
      }
      assert old(enemies)[..j] == old(enemies);
      FilterMembers(old(enemies), ClearOfTurret);
      if old(EnemiesValid()) {
        forall k | 0 <= k < |enemies|
          ensures enemies[k].Consistent() && enemies[k].radius == EnemyRadius
        {
          assert enemies[k] in old(enemies);
        }
      }
    }

    /** Wave logic: a cleared active wave ends and restarts the between-waves timer; while no
        wave is active the timer runs, and once it reaches 1 second the next wave spawns. */
    method WaveLogic(dt: real, spawnDir: nat -> Vec, jitter: nat -> real)
      modifies this`waveActive, this`nextWaveTimer, this`wave, this`enemies
      ensures old(waveActive) && old(enemies) != [] ==>
        waveActive && nextWaveTimer == old(nextWaveTimer) && wave == old(wave) && enemies == old(enemies)
      ensures !(old(waveActive) && old(enemies) != []) ==>
        var timer := (if old(waveActive) then 0.0 else old(nextWaveTimer)) + dt;
        && nextWaveTimer == timer
        && if timer >= TimeBetweenWaves then wave == old(wave) + 1 && FreshWave(wave, spawnDir, jitter)
           else !waveActive && wave == old(wave) && enemies == old(enemies)
      ensures wave == old(wave) || wave == old(wave) + 1
      ensures old(Valid()) && dt >= 0.0 ==> Valid()
    {
      if waveActive && enemies == [] {
        waveActive := false;
        nextWaveTimer := 0.0;
      }
      if !waveActive {
        nextWaveTimer := nextWaveTimer + dt;
        if nextWaveTimer >= TimeBetweenWaves {
          wave := wave + 1;
          SpawnWave(wave, spawnDir, jitter);
        }
      }
    }

    /** The per-frame intensity decay of 10, floored at 0. */
    method DecayIntensity()
      modifies this`totalIntensity
      ensures totalIntensity == Decayed(old(totalIntensity), EarlyIntensityDecay)
      ensures old(Valid()) ==> Valid()
    {
      totalIntensity := totalIntensity - EarlyIntensityDecay;
      if totalIntensity < 0.0 {
        totalIntensity := 0.0;
      }
    }

    /** The input blocks and the beam update. */
    method Controls(input: EarlyInput, aimDir: real -> Vec)
      modifies this`turretAngleDeg, this`timeSinceLastShot, this`bullets, this`echoCharge, this`wasWHeld,
        this`echos, this`totalIntensity
      ensures old(Valid()) && input.dt >= 0.0 ==> Valid()
    {
      Rotate(input.left, input.right, input.dt);
      Fire(input.space, aimDir);
      ChargeEcho(input.up, input.dt, aimDir);
      UpdateEchos(input.dt);
    }

    /** The enemy blocks before the hit tests: reveal, visibility timers, bullets, movement. */
    method MotionBlocks(dt: real, toLocal: LocalTransform)
      modifies this`enemies, this`bullets
      ensures old(EnemiesValid()) ==> EnemiesValid()
      ensures old(ProjectilesValid()) ==> ProjectilesValid()
      ensures |enemies| == |old(enemies)|
    {
      RevealEnemies(toLocal);
      TickEnemies(dt);
      UpdateBulletPool(dt);
      MoveEnemyPool(dt);
    }

    /** The hit tests: bullets against enemies, then enemies against the turret. */
    method HitBlocks()
      modifies this`enemies, this`bullets, this`lives
      ensures old(EnemiesValid()) ==> EnemiesValid()
      ensures old(ProjectilesValid()) ==> ProjectilesValid()
      ensures |enemies| <= |old(enemies)| && lives <= old(lives)
    {
      CollideBullets();
      ResolveCenterHits();
    }

    /** One pass of the game loop up to the drawing, then the decay placed among the drawing
        calls. The program returns when the lives are exactly 0 at the check after the beam
        update, so it ends exactly when it starts a frame with no life left. */
    method Frame(input: EarlyInput, env: Env) returns (outcome: Outcome)
      requires Valid() && input.dt >= 0.0
      modifies this
      ensures outcome == Exited <==> old(lives) == 0
      ensures outcome == Exited ==> enemies == old(enemies) && wave == old(wave)
      ensures outcome == Running ==> Valid()
      ensures lives <= old(lives)
      ensures wave == old(wave) || wave == old(wave) + 1
    {
      AdvanceCooldown(input.dt);
      Controls(input, env.aimDir);
      if lives == 0 {
        return Exited;
      }
      MotionBlocks(input.dt, env.toLocal);
      HitBlocks();
      WaveLogic(input.dt, env.spawnDir, env.spawnJitter);
      DecayIntensity();
      outcome := Running;
    }
  }

  /** The same on the game state: with one life and two enemies on the turret, the centre
      loop leaves the count below 0, and the next frame still runs, because the exit test only
      matches 0. */
  method LivesSkipZeroOnState(s: EarlyState, input: EarlyInput, env: Env) returns (outcome: Outcome)
    requires s.Valid() && s.lives == 1 && input.dt >= 0.0
    requires s.enemies == [Enemy(Center, EnemyRadius, Vec(0.0, 0.0), false, 0.0), Enemy(Center, EnemyRadius, Vec(0.0, 0.0), false, 0.0)]
    modifies s
    ensures s.lives < 0 && outcome == Running
  {
    s.ResolveCenterHits();
    LivesCanSkipZero();
    assert s.lives == -1;
    outcome := s.Frame(input, env);
  }

  /** The beams as effects of the reveal pass. */
  function Beams(echos: seq<Echo>): (r: seq<EchoEffect>)
    ensures |r| == |echos| && forall i :: 0 <= i < |r| ==> r[i] == Beam(echos[i])
  {
    seq(|echos|, i requires 0 <= i < |echos| => Beam(echos[i]))
  }

  /** A beam of non-positive length reveals nothing, so the skip in the reveal loop changes
      nothing; after the beam update every live beam is positive anyway. */
  lemma ShortBeamsRevealNothing(echos: seq<Echo>, enemy: Enemy, toLocal: LocalTransform)
    requires forall i :: 0 <= i < |echos| ==> echos[i].length <= 0.0
    ensures !AnyHit(Beams(echos), enemy, EchoThickness, toLocal)
  {
  }
}
