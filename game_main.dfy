// The later revision of the game loop (src/game_main.cpp): beams and rings, a pause toggle,
// hearts that end the game, the red flash, and intensity-driven wave sizes capped at 5.
module GameMain {
  import opened Geometry
  import opened Pools
  import opened Entities
  import opened Passes
  import opened Turret

  const StartingLives: int := 10
  const FlashFrames: int := 15
  const BigWaveMaxCharge: real := 200.0
  const BigWaveChargeRate: real := 250.0
  const BigWaveShrinkRate: real := 150.0
  const MaxWaveSize: int := 5
  const IntensityDecay: real := 1.0

  /** What the loop reads from the keyboard in one frame, and the frame time. */
  datatype Input = Input(dt: real, left: bool, right: bool, space: bool, up: bool, e: bool, escape: bool)

  // ----- wave size -----

  /** 1 + intensity/40 converted to int, capped at 5. */
  function SpawnCount(intensity: real): (count: int)
    ensures count <= MaxWaveSize
    ensures intensity >= 0.0 ==> 1 <= count
    ensures intensity >= 0.0 ==> (count == MaxWaveSize <==> intensity >= 160.0)
  {
    var c := Trunc(1.0 + intensity / 40.0);
    if c > MaxWaveSize then MaxWaveSize else c
  }

  /** More intensity never means a smaller wave. */
  lemma SpawnCountMonotone(a: real, b: real)
    requires 0.0 <= a <= b
    ensures SpawnCount(a) <= SpawnCount(b)
  {
    var ca := Trunc(1.0 + a / 40.0);
    var cb := Trunc(1.0 + b / 40.0);
    assert 1.0 + a / 40.0 <= 1.0 + b / 40.0;
  }

  /** Below 40 intensity a wave has one enemy; from 40 on it has at least two. */
  lemma SpawnCountFirstStep(intensity: real)
    requires intensity >= 0.0
    ensures SpawnCount(intensity) == 1 <==> intensity < 40.0
  {
  }

  // ----- charging -----

  /** One frame of holding a charge key: add the increment while the charge is at most the
      maximum, otherwise set it to the maximum. */
  function Charged(charge: real, step: real, max: real): (c: real)
    ensures step >= 0.0 && 0.0 <= charge && 0.0 <= max ==> 0.0 <= c
    ensures step >= 0.0 ==> c <= max + step
  {
    if charge <= max then charge + step else max
  }

  /** The clamp lets the charge exceed the maximum by up to one frame's increment. */
  lemma ChargeOvershoot()
    ensures Charged(149.0, 4.0, EchoMaxCharge) == 153.0 > EchoMaxCharge
  {
  }

  /** Holding the key at the maximum alternates between max + step and max. */
  lemma ChargeHoldOscillates(step: real, max: real)
    requires step > 0.0
    ensures Charged(max, step, max) == max + step
    ensures Charged(Charged(max, step, max), step, max) == max
  {
  }

  /** A released ring: radius twice the charge, just spawned, at the centre. */
  function ReleasedRing(radius: real): (r: BigEcho)
    ensures r.radius == radius && r.elapsedTime == 0.0 && r.position == Center
  {
    BigEcho(radius, 0.0, Center)
  }

  /** A released ring stays on the turret and shrinks by 150 per second; while its radius is
      still positive it reveals every enemy whose centre lies inside it. */
  lemma ReleasedRingReveals(radius: real, n: nat, dt: real, enemy: Enemy)
    requires enemy.radius >= 0.0
    ensures var r := RingAfter(ReleasedRing(radius), n, dt, BigWaveShrinkRate, Center);
      && r.radius == radius - (n as real) * (dt * BigWaveShrinkRate) && r.position == Center
      && (r.radius > 0.0 && Dist2(enemy.position, Center) <= r.radius * r.radius ==> r.HitsEnemy(enemy))
  {
    var r := RingAfter(ReleasedRing(radius), n, dt, BigWaveShrinkRate, Center);
    RingAfterFrames(ReleasedRing(radius), n, dt, BigWaveShrinkRate, Center);
    if r.radius > 0.0 && Dist2(enemy.position, Center) <= r.radius * r.radius {
      RingHitsInsideDisk(r, enemy);
    }
  }

  // ----- pause toggle -----

  /** The Escape edge detector: toggles on a press that was not held the frame before. */
  function PauseStep(paused: bool, wasHeld: bool, held: bool): (r: (bool, bool))
    ensures r.1 == held
    ensures r.0 != paused <==> held && !wasHeld
  {
    (if held && !wasHeld then !paused else paused, held)
  }

  function PauseAfter(paused: bool, wasHeld: bool, keys: seq<bool>): (bool, bool)
    decreases |keys|
  {
    if keys == [] then (paused, wasHeld)
    else
      var s := PauseStep(paused, wasHeld, keys[0]);
      PauseAfter(s.0, s.1, keys[1..])
  }

  /** While Escape stays held, the pause state does not change. */
  lemma {:induction false} HeldEscapeIsIgnored(paused: bool, keys: seq<bool>)
    requires forall i :: 0 <= i < |keys| ==> keys[i]
    ensures PauseAfter(paused, true, keys) == (paused, true)
    decreases |keys|
  {
    if keys != [] {
      HeldEscapeIsIgnored(paused, keys[1..]);
    }
  }

  /** Holding Escape over any number of frames toggles the pause exactly once. */
  lemma HoldingEscapeTogglesOnce(paused: bool, keys: seq<bool>)
    requires |keys| >= 1
    requires forall i :: 0 <= i < |keys| ==> keys[i]
    ensures PauseAfter(paused, false, keys) == (!paused, true)
  {
    HeldEscapeIsIgnored(!paused, keys[1..]);
  }

  // ----- bullets against enemies -----

  /** The bullet scan of this revision: each bullet in order erases the first enemy it
      overlaps; the bullet itself is kept. */
  function KillPass(bs: seq<Bullet>, es: seq<Enemy>): seq<Enemy>
    decreases |bs|
  {
    if bs == [] then es else KillPass(bs[1..], RemoveFirstHit(bs[0], es))
  }

  /** Each bullet kills at most one enemy, and no enemy is made. */
  lemma {:induction false} KillPassBounds(bs: seq<Bullet>, es: seq<Enemy>)
    ensures |es| - |bs| <= |KillPass(bs, es)| <= |es|
    ensures forall x :: x in KillPass(bs, es) ==> x in es
    decreases |bs|
  {
    if bs != [] {
      KillPassBounds(bs[1..], RemoveFirstHit(bs[0], es));
    }
  }

  /** Survivors of the kill pass keep the visibility invariant and the spawn radius. */
  lemma KillPassKeepsEnemiesValid(bs: seq<Bullet>, es: seq<Enemy>)
    requires forall i :: 0 <= i < |es| ==> es[i].Consistent() && es[i].radius == EnemyRadius
    ensures var r := KillPass(bs, es);
      forall i :: 0 <= i < |r| ==> r[i].Consistent() && r[i].radius == EnemyRadius
  {
    var r := KillPass(bs, es);
    KillPassBounds(bs, es);
    forall i | 0 <= i < |r|
      ensures r[i].Consistent() && r[i].radius == EnemyRadius
    {
      assert r[i] in es;
    }
  }

  /** The surviving enemies keep their order. */
  lemma {:induction false} KillPassKeepsOrder(bs: seq<Bullet>, es: seq<Enemy>)
    ensures IsSubsequence(KillPass(bs, es), es)
    decreases |bs|
  {
    if bs == [] {
      SubsequenceReflexive(es);
    } else {
      var mid := RemoveFirstHit(bs[0], es);
      KillPassKeepsOrder(bs[1..], mid);
      var k := FirstHitIndex(bs[0], es);
      if k < |es| {
        EraseIsSubsequence(es, k);
      } else {
        SubsequenceReflexive(es);
      }
      SubsequenceTransitive(KillPass(bs[1..], mid), mid, es);
    }
  }

  /** Bullets that overlap no enemy kill nothing. */
  lemma {:induction false} KillPassMisses(bs: seq<Bullet>, es: seq<Enemy>)
    requires forall i, j :: 0 <= i < |bs| && 0 <= j < |es| ==> !bs[i].Hits(es[j])
    ensures KillPass(bs, es) == es
    decreases |bs|
  {
    if bs != [] {
      assert FirstHitIndex(bs[0], es) == |es|;
      KillPassMisses(bs[1..], es);
    }
  }

  // ----- enemies at the turret -----

  /** remaining: the enemy list afterwards; removed: enemies that reached the turret;
      exited: the hearts ran out and the program returned. */
  datatype CenterResult = CenterResult(remaining: seq<Enemy>, removed: nat, exited: bool)

  /** The centre loop, state by state: kept is the scanned prefix, rest the part still to
      scan. Reaching the turret erases the enemy and costs a heart; the loop stops when the
      hearts reach 0. */
  function CenterLoop(kept: seq<Enemy>, rest: seq<Enemy>, hearts: int, removed: nat): CenterResult
    decreases |rest|
  {
    if rest == [] then CenterResult(kept, removed, false)
    else if ReachedTurret(rest[0]) then
      if hearts - 1 == 0 then CenterResult(kept + rest[1..], removed + 1, true)
      else CenterLoop(kept, rest[1..], hearts - 1, removed + 1)
    else CenterLoop(kept + [rest[0]], rest[1..], hearts, removed)
  }

  function CenterPass(es: seq<Enemy>, hearts: int): CenterResult
  {
    CenterLoop([], es, hearts, 0)
  }

  /** The loop loses no enemy: each one is either still in the pool or counted as removed,
      whether or not the hearts run out. */
  lemma {:induction false} CenterLoopAccounts(kept: seq<Enemy>, rest: seq<Enemy>, hearts: int, removed: nat)
    ensures var r := CenterLoop(kept, rest, hearts, removed);
      |r.remaining| + r.removed == |kept| + |rest| + removed
    decreases |rest|
  {
    if rest != [] && !(ReachedTurret(rest[0]) && hearts - 1 == 0) {
      if ReachedTurret(rest[0]) {
        CenterLoopAccounts(kept, rest[1..], hearts - 1, removed + 1);
      } else {
        CenterLoopAccounts(kept + [rest[0]], rest[1..], hearts, removed);
      }
    }
  }

  /** Every enemy of the pool is either still there after the centre pass or counted as removed. */
  lemma CenterPassAccounts(es: seq<Enemy>, hearts: int)
    ensures |CenterPass(es, hearts).remaining| + CenterPass(es, hearts).removed == |es|
  {
    CenterLoopAccounts([], es, hearts, 0);
  }

  /** With at least one heart: the loop exits exactly when at least as many enemies reach
      the turret as there are hearts, and then it has removed exactly that many; otherwise
      the enemies clear of the turret remain, in order, and one heart per removed enemy is lost. */
  lemma {:induction false} CenterLoopMeaning(kept: seq<Enemy>, rest: seq<Enemy>, hearts: int, removed: nat)
    requires hearts >= 1
    ensures var r := CenterLoop(kept, rest, hearts, removed);
      && (r.exited <==> Removed(rest, ClearOfTurret) >= hearts)
      && (r.exited ==> r.removed == removed + hearts)
      && (!r.exited ==> r.remaining == kept + Filter(rest, ClearOfTurret)
                        && r.removed == removed + Removed(rest, ClearOfTurret))
    decreases |rest|
  {
    if rest != [] {
      var tail := rest[1..];
      if ReachedTurret(rest[0]) {
        assert Filter(rest, ClearOfTurret) == Filter(tail, ClearOfTurret);
        if hearts - 1 != 0 {
          CenterLoopMeaning(kept, tail, hearts - 1, removed + 1);
        }
      } else {
        assert Filter(rest, ClearOfTurret) == [rest[0]] + Filter(tail, ClearOfTurret);
        CenterLoopMeaning(kept + [rest[0]], tail, hearts, removed);
        assert kept + [rest[0]] + Filter(tail, ClearOfTurret) == kept + Filter(rest, ClearOfTurret);
      }
    }
  }

  /** The centre pass removes enemies and never adds one. */
  lemma CenterPassKeepsMembers(es: seq<Enemy>, hearts: int)
    ensures |CenterPass(es, hearts).remaining| <= |es|
    ensures forall x :: x in CenterPass(es, hearts).remaining ==> x in es
  {
    CenterLoopKeepsMembers([], es, hearts, 0);
  }

  lemma {:induction false} CenterLoopKeepsMembers(kept: seq<Enemy>, rest: seq<Enemy>, hearts: int, removed: nat)
    ensures |CenterLoop(kept, rest, hearts, removed).remaining| <= |kept| + |rest|
    ensures forall x :: x in CenterLoop(kept, rest, hearts, removed).remaining ==> x in kept || x in rest
    decreases |rest|
  {
    if rest != [] {
      if ReachedTurret(rest[0]) {
        if hearts - 1 != 0 {
          CenterLoopKeepsMembers(kept, rest[1..], hearts - 1, removed + 1);
        }
      } else {
        CenterLoopKeepsMembers(kept + [rest[0]], rest[1..], hearts, removed);
      }
    }
  }

  /** What the frame needs of a centre pass: it removes enemies only, and an exit costs all the hearts. */
  lemma CenterPassSummary(es: seq<Enemy>, hearts: int)
    requires hearts >= 1
    ensures var r := CenterPass(es, hearts);
      && |r.remaining| <= |es| && (forall x :: x in r.remaining ==> x in es)
      && (r.exited ==> r.removed == hearts)
  {
    CenterPassKeepsMembers(es, hearts);
    CenterLoopMeaning([], es, hearts, 0);
  }

  /** The game ends in this pass with h hearts left if h enemies reach the turret at once. */
  lemma CenterPassEndsGame(es: seq<Enemy>, hearts: int)
    requires hearts >= 1
    requires Removed(es, ClearOfTurret) >= hearts
    ensures CenterPass(es, hearts).exited && CenterPass(es, hearts).removed == hearts
  {
    CenterLoopMeaning([], es, hearts, 0);
  }

  // ----- the game state -----

  /** An entry of allEchos: the copy taken at release, never updated afterwards. */
  predicate SpawnCopy(x: EchoEffect)
  {
    match x
    case Beam(b) => b.elapsedTime == 0.0 && b.position == Center && b.length > 0.0
    case Ring(r) => r.elapsedTime == 0.0 && r.position == Center && r.radius > 0.0
  }

  class GameState {
    var turretAngleDeg: real
    var timeSinceLastShot: real
    var echoCharge: real
    var wasWHeld: bool
    var bigWaveCharge: real
    var wasEHeld: bool
    var wasEscapeHeld: bool
    var isPaused: bool
    var totalIntensity: real
    var wave: int
    var lives: int
    var hearts: int
    var waveActive: bool
    var nextWaveTimer: real
    var flashTimer: int
    var bullets: seq<Bullet>
    var enemies: seq<Enemy>
    var echos: seq<Echo>
    var bigEchos: seq<BigEcho>
    var allEchos: seq<EchoEffect>

    /** Counters and timers between frames. */
    predicate ScalarsValid()
      reads this`totalIntensity, this`echoCharge, this`bigWaveCharge, this`timeSinceLastShot,
            this`nextWaveTimer, this`wave, this`hearts, this`flashTimer
    {
      && totalIntensity >= 0.0 && echoCharge >= 0.0 && bigWaveCharge >= 0.0
      && timeSinceLastShot >= 0.0 && nextWaveTimer >= 0.0
      && wave >= 1 && hearts >= 1 && 0 <= flashTimer <= FlashFrames
    }

    /** Every enemy keeps the visibility invariant and the spawn radius. */
    predicate EnemiesValid()
      reads this`enemies
    {
      forall i :: 0 <= i < |enemies| ==> enemies[i].Consistent() && enemies[i].radius == EnemyRadius
    }

    /** Bullets are in the arena; live beams and rings have a positive size; allEchos holds
        the copies taken at release. */
    predicate ProjectilesValid()
      reads this`bullets, this`echos, this`bigEchos, this`allEchos
    {
      && (forall i :: 0 <= i < |bullets| ==> bullets[i].radius == BulletRadius && bullets[i].InArena())
      && (forall i :: 0 <= i < |echos| ==> echos[i].length > 0.0)
      && (forall i :: 0 <= i < |bigEchos| ==> bigEchos[i].radius > 0.0 && bigEchos[i].position == Center)
      && (forall i :: 0 <= i < |allEchos| ==> SpawnCopy(allEchos[i]))
    }

    /** A wave is active exactly while enemies are left. */
    predicate WaveValid()
      reads this`waveActive, this`enemies
    {
      waveActive <==> enemies != []
    }

    /** What holds between the blocks of an unpaused frame: no enemies while no wave is active. */
    predicate Playing()
      reads this`totalIntensity, this`echoCharge, this`bigWaveCharge, this`timeSinceLastShot,
            this`nextWaveTimer, this`wave, this`hearts, this`flashTimer, this`enemies, this`waveActive,
            this`bullets, this`echos, this`bigEchos, this`allEchos
    {
      ScalarsValid() && EnemiesValid() && ProjectilesValid() && (!waveActive ==> enemies == [])
    }

    /** What holds between frames while the game runs. */
    predicate Valid()
      reads this`totalIntensity, this`echoCharge, this`bigWaveCharge, this`timeSinceLastShot,
            this`nextWaveTimer, this`wave, this`hearts, this`flashTimer, this`enemies, this`waveActive,
            this`bullets, this`echos, this`bigEchos, this`allEchos
    {
      Playing() && WaveValid()
    }

    /** The enemies and pools right after spawnWave(waveNumber). */
    predicate FreshWave(waveNumber: int, spawnDir: nat -> Vec, jitter: nat -> real)
      reads this`totalIntensity, this`waveActive, this`echos, this`bigEchos, this`allEchos, this`enemies
    {
      var count := SpawnCount(totalIntensity);
      && waveActive && echos == [] && bigEchos == [] && allEchos == []
      && |enemies| == (if count > 0 then count else 0)
      && (forall i :: 0 <= i < |enemies| ==> enemies[i] == SpawnedEnemy(spawnDir(i), waveNumber, jitter(i)))
    }

    /** The initial values, then spawnWave(1). */
    constructor (spawnDir: nat -> Vec, jitter: nat -> real)
      ensures Valid()
      ensures wave == 1 && lives == StartingLives && hearts == StartingLives && !isPaused
      ensures totalIntensity == 0.0 && timeSinceLastShot == FireCooldown && bullets == []
      ensures FreshWave(1, spawnDir, jitter) && |enemies| == 1
    {
      turretAngleDeg := 0.0;
      timeSinceLastShot := FireCooldown;
      echoCharge := 0.0;
      wasWHeld := false;
      bigWaveCharge := 0.0;
      wasEHeld := false;
      wasEscapeHeld := false;
      isPaused := false;
      totalIntensity := 0.0;
      wave := 1;
      lives := StartingLives;
      hearts := StartingLives;
      waveActive := false;
      nextWaveTimer := 0.0;
      flashTimer := 0;
      bullets := [];
      enemies := [];
      echos := [];
      bigEchos := [];
      allEchos := [];
      new;
      SpawnWave(wave, spawnDir, jitter);
    }

    /** spawnWave: clear the enemies and every echo pool, spawn SpawnCount(intensity)
        enemies, mark the wave active. */
    method SpawnWave(waveNumber: int, spawnDir: nat -> Vec, jitter: nat -> real)
      modifies this`enemies, this`echos, this`bigEchos, this`allEchos, this`waveActive
      ensures FreshWave(waveNumber, spawnDir, jitter)
      ensures forall i :: 0 <= i < |enemies| ==> enemies[i].Consistent() && enemies[i].radius == EnemyRadius
    {
      var count := SpawnCount(totalIntensity);
      enemies := [];
      echos := [];
      bigEchos := [];
      allEchos := [];
      enemies := SpawnEnemies(count, waveNumber, spawnDir, jitter);
      waveActive := true;
    }

    /** Left/Right rotation and the wrap into [0, 360]. */
    method Rotate(left: bool, right: bool, dt: real)
      modifies this`turretAngleDeg
      ensures old(Playing()) ==> Playing()
      ensures turretAngleDeg == WrapAngle(old(turretAngleDeg) + Turn(left, right, dt))
      ensures 0.0 <= old(turretAngleDeg) <= 360.0 && 0.0 <= dt && RotationSpeedDegPerSec * dt <= 360.0
        ==> 0.0 <= turretAngleDeg <= 360.0
    {
      var rotationThisFrame := 0.0;
      if left {
        rotationThisFrame := rotationThisFrame - RotationSpeedDegPerSec * dt;
      }
      if right {
        rotationThisFrame := rotationThisFrame + RotationSpeedDegPerSec * dt;
      }
      turretAngleDeg := turretAngleDeg + rotationThisFrame;
      if turretAngleDeg > 360.0 {
        turretAngleDeg := turretAngleDeg - 360.0;
      }
      if turretAngleDeg < 0.0 {
        turretAngleDeg := turretAngleDeg + 360.0;
      }
      if 0.0 <= old(turretAngleDeg) <= 360.0 && 0.0 <= dt && RotationSpeedDegPerSec * dt <= 360.0 {
        TurnStaysInRange(old(turretAngleDeg), left, right, dt);
      }
    }

    /** Space with the cooldown elapsed fires one bullet along the turret and restarts the cooldown. */
    method Fire(space: bool, aimDir: real -> Vec)
      modifies this`timeSinceLastShot, this`bullets
      ensures old(Playing()) ==> Playing()
      ensures if space && old(timeSinceLastShot) >= FireCooldown
        then timeSinceLastShot == 0.0 && bullets == old(bullets) + [FiredBullet(aimDir(turretAngleDeg))]
        else timeSinceLastShot == old(timeSinceLastShot) && bullets == old(bullets)
    {
      if space && timeSinceLastShot >= FireCooldown {
        timeSinceLastShot := 0.0;
        var b := FiredBullet(aimDir(turretAngleDeg));
        bullets := bullets + [b];
      }
    }

    /** Up: charge while held; on the first frame after release with some charge, launch a
        beam twice the charge long, add a quarter of its length to the intensity, keep a
        copy in allEchos and reset the charge. */
    method ChargeEcho(up: bool, dt: real, aimDir: real -> Vec)
      modifies this`echoCharge, this`wasWHeld, this`echos, this`allEchos, this`totalIntensity
      ensures old(Playing()) && dt >= 0.0 ==> Playing()
      ensures wasWHeld == up
      ensures up ==> (echoCharge == Charged(old(echoCharge), dt * EchoChargeRate, EchoMaxCharge)
        && echos == old(echos) && allEchos == old(allEchos) && totalIntensity == old(totalIntensity))
      ensures !up && old(wasWHeld) && old(echoCharge) > 0.0 ==>
        var b := ReleasedBeam(old(echoCharge) * 2.0, turretAngleDeg, aimDir(turretAngleDeg));
        && echoCharge == 0.0 && echos == old(echos) + [b] && allEchos == old(allEchos) + [Beam(b)]
        && totalIntensity == old(totalIntensity) + b.length / 4.0
      ensures !up && !(old(wasWHeld) && old(echoCharge) > 0.0) ==>
        echoCharge == old(echoCharge) && echos == old(echos) && allEchos == old(allEchos)
        && totalIntensity == old(totalIntensity)
    {
      var isWHeld := up;
      if isWHeld {
        if echoCharge <= EchoMaxCharge {
          echoCharge := echoCharge + dt * EchoChargeRate;
        } else {
          echoCharge := EchoMaxCharge;
        }
      } else if wasWHeld && echoCharge > 0.0 {
        var ec := ReleasedBeam(echoCharge * 2.0, turretAngleDeg, aimDir(turretAngleDeg));
        totalIntensity := totalIntensity + ec.length / 4.0;
        echos := echos + [ec];
        allEchos := allEchos + [Beam(ec)];
        echoCharge := 0.0;
      }
      wasWHeld := isWHeld;
    }

    /** E: the same charge-and-release cycle for the ring; the ring's radius is twice the
        charge and is added to the intensity in full. */
    method ChargeBigWave(e: bool, dt: real)
      modifies this`bigWaveCharge, this`wasEHeld, this`bigEchos, this`allEchos, this`totalIntensity
      ensures old(Playing()) && dt >= 0.0 ==> Playing()
      ensures wasEHeld == e
      ensures e ==> (bigWaveCharge == Charged(old(bigWaveCharge), dt * BigWaveChargeRate, BigWaveMaxCharge)
        && bigEchos == old(bigEchos) && allEchos == old(allEchos) && totalIntensity == old(totalIntensity))
      ensures !e && old(wasEHeld) && old(bigWaveCharge) > 0.0 ==>
        var r := ReleasedRing(old(bigWaveCharge) * 2.0);
        && bigWaveCharge == 0.0 && bigEchos == old(bigEchos) + [r] && allEchos == old(allEchos) + [Ring(r)]
        && totalIntensity == old(totalIntensity) + r.radius
      ensures !e && !(old(wasEHeld) && old(bigWaveCharge) > 0.0) ==>
        bigWaveCharge == old(bigWaveCharge) && bigEchos == old(bigEchos) && allEchos == old(allEchos)
        && totalIntensity == old(totalIntensity)
    {
      var isEHeld := e;
      if isEHeld {
        if bigWaveCharge <= BigWaveMaxCharge {
          bigWaveCharge := bigWaveCharge + dt * BigWaveChargeRate;
        } else {
          bigWaveCharge := BigWaveMaxCharge;
        }
      } else if wasEHeld && bigWaveCharge > 0.0 {
        var bec := ReleasedRing(bigWaveCharge * 2.0);
        totalIntensity := totalIntensity + bec.radius;
        bigEchos := bigEchos + [bec];
        allEchos := allEchos + [Ring(bec)];
        bigWaveCharge := 0.0;
      }
      wasEHeld := isEHeld;
    }

    /** The bullet-vs-enemy loop. The hit branch sets bulletRemoved to false, so the bullet
        index always advances: each bullet erases the first enemy it overlaps and stays. */
    method CollideBullets()
      modifies this`enemies
      ensures enemies == KillPass(bullets, old(enemies))
      ensures |enemies| <= |old(enemies)|
      ensures old(Playing()) ==> Playing()
    {
      var bi := 0;
      while bi < |bullets|
        invariant 0 <= bi <= |bullets|
        invariant KillPass(bullets[bi..], enemies) == KillPass(bullets, old(enemies))
      {
        var ei := ScanForHit(bullets[bi], enemies);
        if ei < |enemies| {
          enemies := enemies[..ei] + enemies[ei + 1..];
        }
        assert bullets[bi..][1..] == bullets[bi + 1..];
        bi := bi + 1;
      }
      KillPassBounds(bullets, old(enemies));
      if old(EnemiesValid()) {
        KillPassKeepsEnemiesValid(bullets, old(enemies));
      }
    }

    /** The centre loop: every enemy at the turret is erased, sets the flash to 15 frames
        and costs a life and a heart; the frame returns (the program ends) when the hearts
        reach 0, after the heart counter is put back to 1. */
    method ResolveCenterHits() returns (exited: bool)
      requires hearts >= 1
      modifies this`enemies, this`flashTimer, this`lives, this`hearts
      ensures var r := CenterPass(old(enemies), old(hearts));
        && exited == r.exited && enemies == r.remaining
        && lives == old(lives) - r.removed
        && (exited ==> hearts == 1)
        && (!exited ==> hearts == old(hearts) - r.removed)
        && flashTimer == (if r.removed > 0 then FlashFrames else old(flashTimer))
      ensures hearts >= 1 && |enemies| <= |old(enemies)|
      ensures exited ==> lives == old(lives) - old(hearts)
      ensures !exited ==> old(lives) - lives == old(hearts) - hearts
      ensures old(EnemiesValid()) ==> EnemiesValid()
    {
      exited := false;
      var i := 0;
      ghost var removed: nat := 0;
      while i < |enemies|
        invariant 0 <= i <= |enemies|
        invariant hearts >= 1
        invariant hearts == old(hearts) - removed && lives == old(lives) - removed
        invariant flashTimer == if removed > 0 then FlashFrames else old(flashTimer)
        invariant CenterLoop(enemies[..i], enemies[i..], hearts, removed) == CenterPass(old(enemies), old(hearts))
        decreases |enemies| - i
      {
        var ep := enemies[i].position;
        var dx := ep.x - Center.x;
        var dy := ep.y - Center.y;
        var dist2 := dx * dx + dy * dy;
        var reach := TurretRadius + enemies[i].radius;
        if dist2 <= reach * reach {
          ghost var kept := enemies[..i];
          ghost var rest := enemies[i..];
          assert ReachedTurret(rest[0]);
          enemies := enemies[..i] + enemies[i + 1..];
          assert enemies[..i] == kept && enemies[i..] == rest[1..];
          flashTimer := FlashFrames;
          lives := lives - 1;
          hearts := hearts - 1;
          removed := removed + 1;
          if hearts == 0 {
            hearts := hearts + 1;
            exited := true;
            assert enemies == kept + rest[1..];
            CenterPassSummary(old(enemies), old(hearts));
            KeptEnemiesValid();
            return;
          }
        } else {
          assert !ReachedTurret(enemies[i]);
          assert enemies[..i + 1] == enemies[..i] + [enemies[i]];
          assert enemies[i..][1..] == enemies[i + 1..];
          i := i + 1;
        }
      }
      assert enemies[..i] == enemies;
      CenterPassSummary(old(enemies), old(hearts));
      KeptEnemiesValid();
    }

    /** Enemies drawn from a valid enemy list are valid. */
    twostate lemma KeptEnemiesValid()
      requires forall x :: x in enemies ==> x in old(enemies)
      ensures old(EnemiesValid()) ==> EnemiesValid()
    {
      if old(EnemiesValid()) {
        forall i | 0 <= i < |enemies|
          ensures enemies[i].Consistent() && enemies[i].radius == EnemyRadius
        {
          assert enemies[i] in old(enemies);
        }
      }
    }

    /** The flash countdown: one frame less, never below 0. */
    method TickFlash()
      modifies this`flashTimer
      ensures old(Playing()) ==> Playing()
      ensures flashTimer == if old(flashTimer) > 1 then old(flashTimer) - 1 else 0
    {
      flashTimer := flashTimer - 1;
      if flashTimer > 0 {
      } else {
        flashTimer := 0;
      }
    }

    /** Wave logic: a cleared active wave ends and restarts the between-waves timer; while no
        wave is active the timer runs, and once it reaches 1 second the next wave spawns. */
    method WaveLogic(dt: real, spawnDir: nat -> Vec, jitter: nat -> real)
      modifies this`waveActive, this`nextWaveTimer, this`wave, this`enemies, this`echos, this`bigEchos, this`allEchos
      ensures old(waveActive) && old(enemies) != [] ==>
        && waveActive && nextWaveTimer == old(nextWaveTimer) && wave == old(wave) && enemies == old(enemies)
        && echos == old(echos) && bigEchos == old(bigEchos) && allEchos == old(allEchos)
      ensures !(old(waveActive) && old(enemies) != []) ==>
        var timer := (if old(waveActive) then 0.0 else old(nextWaveTimer)) + dt;
        && nextWaveTimer == timer
        && if timer >= TimeBetweenWaves then wave == old(wave) + 1 && FreshWave(wave, spawnDir, jitter)
           else !waveActive && wave == old(wave) && enemies == old(enemies)
                && echos == old(echos) && bigEchos == old(bigEchos) && allEchos == old(allEchos)
      ensures wave == old(wave) || wave == old(wave) + 1
      ensures old(Playing()) && dt >= 0.0 ==> Valid()
    {
      if waveActive && enemies == [] {
        waveActive := false;
        nextWaveTimer := 0.0;
      }
      if !waveActive {
        nextWaveTimer := nextWaveTimer + dt;
        if nextWaveTimer >= TimeBetweenWaves {
          wave := wave + 1;
          SpawnWave(wave, spawnDir, jitter);
        }
      }
    }

    /** The Escape edge toggles the pause. */
    method TogglePause(escape: bool)
      modifies this`isPaused, this`wasEscapeHeld
      ensures old(Valid()) ==> Valid()
      ensures (isPaused, wasEscapeHeld) == PauseStep(old(isPaused), old(wasEscapeHeld), escape)
    {
      var isEscapeHeld := escape;
      if isEscapeHeld && !wasEscapeHeld {
        isPaused := !isPaused;
      }
      wasEscapeHeld := isEscapeHeld;
    }

    /** The per-frame intensity decay of 1, floored at 0. */
    method DecayIntensity()
      modifies this`totalIntensity
      ensures old(Valid()) ==> Valid()
      ensures totalIntensity == Decayed(old(totalIntensity), IntensityDecay)
    {
      totalIntensity := totalIntensity - IntensityDecay;
      if totalIntensity < 0.0 {
        totalIntensity := 0.0;
      }
    }

    /** The beam update loop. */
    method UpdateEchos(dt: real)
      modifies this`echos
      ensures echos == Filter(UpdatedBeams(old(echos), dt, EchoShrinkRate, EchoSpeed, Center), BeamAlive)
      ensures old(Playing()) ==> Playing()
    {
      echos := UpdateEchoPool(echos, dt, EchoShrinkRate, EchoSpeed, Center);
    }

    /** The ring update loop. */
    method UpdateBigEchos(dt: real)
      modifies this`bigEchos
      ensures bigEchos == Filter(UpdatedRings(old(bigEchos), dt, BigWaveShrinkRate, Center), RingAlive)
      ensures old(Playing()) ==> Playing()
    {
      bigEchos := UpdateRingPool(bigEchos, dt, BigWaveShrinkRate, Center);
    }

    /** The reveal pass over allEchos: an enemy some copy hits is revealed for 4 seconds. */
    method RevealEnemies(toLocal: LocalTransform)
      modifies this`enemies
      ensures |enemies| == |old(enemies)|
      ensures forall i :: 0 <= i < |enemies| ==>
        enemies[i] == if AnyHit(allEchos, old(enemies)[i], EchoThickness, toLocal) then old(enemies)[i].Revealed() else old(enemies)[i]
      ensures old(Playing()) ==> Playing()
    {
      enemies := RevealPass(enemies, allEchos, EchoThickness, toLocal);
    }

    /** The visibility-timer pass. */
    method TickEnemies(dt: real)
      modifies this`enemies
      ensures |enemies| == |old(enemies)|
      ensures forall i :: 0 <= i < |enemies| ==> enemies[i] == old(enemies)[i].TickedVisibility(dt)
      ensures old(Playing()) ==> Playing()
    {
      enemies := TickVisibility(enemies, dt);
    }

    /** The bullet update loop. */
    method UpdateBulletPool(dt: real)
      modifies this`bullets
      ensures bullets == Filter(MovedBullets(old(bullets), dt), BulletInArena)
      ensures old(Playing()) ==> Playing()
    {
      var before := bullets;
      bullets := UpdateBullets(bullets, dt);
      FilterMembers(MovedBullets(before, dt), BulletInArena);
      if old(ProjectilesValid()) {
        forall i | 0 <= i < |bullets|
          ensures bullets[i].radius == BulletRadius
        {
          assert bullets[i] in MovedBullets(before, dt);
        }
      }
    }

    /** The enemy movement loop. */
    method MoveEnemyPool(dt: real)
      modifies this`enemies
      ensures |enemies| == |old(enemies)|
      ensures forall i :: 0 <= i < |enemies| ==> enemies[i] == old(enemies)[i].Moved(dt)
      ensures old(Playing()) ==> Playing()
    {
      enemies := MoveEnemies(enemies, dt);
    }

    /** The input blocks of a frame: rotation, firing and the two charge-and-release cycles. */
    method Controls(input: Input, env: Env)
      modifies this`turretAngleDeg, this`timeSinceLastShot, this`bullets, this`echoCharge, this`wasWHeld,
        this`echos, this`allEchos, this`totalIntensity, this`bigWaveCharge, this`wasEHeld, this`bigEchos
      ensures old(Playing()) && input.dt >= 0.0 ==> Playing()
    {
      Rotate(input.left, input.right, input.dt);
      Fire(input.space, env.aimDir);
      ChargeEcho(input.up, input.dt, env.aimDir);
      ChargeBigWave(input.e, input.dt);
    }

    /** The beam and ring update loops. */
    method UpdateEffects(dt: real)
      modifies this`echos, this`bigEchos
      ensures old(Playing()) ==> Playing()
    {
      UpdateEchos(dt);
      UpdateBigEchos(dt);
    }

    /** The enemy blocks before the centre test: reveal, visibility timers, bullets, movement,
        bullet hits. */
    method EnemyBlocks(dt: real, toLocal: LocalTransform)
      modifies this`enemies, this`bullets
      ensures old(Playing()) ==> Playing()
      ensures |enemies| <= |old(enemies)|
    {
      RevealEnemies(toLocal);
      TickEnemies(dt);
      UpdateBulletPool(dt);
      MoveEnemyPool(dt);
      CollideBullets();
    }

    /** The enemy half of a frame: the enemy blocks, the centre test and, unless the game
        ended, the flash countdown. */
    method WorldBlocks(dt: real, toLocal: LocalTransform) returns (exited: bool)
      requires hearts >= 1
      modifies this`enemies, this`bullets, this`flashTimer, this`lives, this`hearts
      ensures old(Playing()) ==> Playing()
      ensures exited ==> lives == old(lives) - old(hearts)
      ensures !exited ==> old(lives) - lives == old(hearts) - hearts
    {
      EnemyBlocks(dt, toLocal);
      exited := ResolveCenterHits();
      if !exited {
        TickFlash();
      }
    }

    /** The unpaused part of a frame, in the order of the loop. */
    method PlayFrame(input: Input, env: Env) returns (outcome: Outcome)
      requires Valid() && input.dt >= 0.0
      modifies this`turretAngleDeg, this`timeSinceLastShot, this`bullets, this`echoCharge, this`wasWHeld,
        this`echos, this`allEchos, this`totalIntensity, this`bigWaveCharge, this`wasEHeld, this`bigEchos,
        this`enemies, this`flashTimer, this`lives, this`hearts, this`waveActive, this`nextWaveTimer, this`wave
      ensures outcome == Running ==> Valid()
      ensures outcome == Running ==> old(lives) - lives == old(hearts) - hearts
      ensures outcome == Exited ==> lives == 0 || lives == old(lives) - old(hearts)
      ensures wave == old(wave) || wave == old(wave) + 1
    {
      Controls(input, env);
      UpdateEffects(input.dt);
      if lives == 0 {
        return Exited;
      }
      var exited := WorldBlocks(input.dt, env.toLocal);
      if exited {
        return Exited;
      }
      WaveLogic(input.dt, env.spawnDir, env.spawnJitter);
      outcome := Running;
    }

    method EndFrame(escape: bool)
      modifies this`isPaused, this`wasEscapeHeld, this`totalIntensity
      ensures old(Valid()) ==> Valid()
      ensures (isPaused, wasEscapeHeld) == PauseStep(old(isPaused), old(wasEscapeHeld), escape)
      ensures totalIntensity == (if isPaused then old(totalIntensity) else Decayed(old(totalIntensity), IntensityDecay))
    {
      TogglePause(escape);
      if !isPaused {
        DecayIntensity();
      }
    }

    /** The cooldown clock, which runs whether or not the game is paused. */
    method AdvanceCooldown(dt: real)
      modifies this`timeSinceLastShot
      ensures timeSinceLastShot == old(timeSinceLastShot) + dt
      ensures old(Valid()) && dt >= 0.0 ==> Valid()
    {
      timeSinceLastShot := timeSinceLastShot + dt;
    }

    /** One pass of the game loop up to the drawing: the cooldown clock always runs; the game
        plays only while not paused; then the Escape toggle; then, if not paused after the
        toggle, the intensity decays. */
    method Frame(input: Input, env: Env) returns (outcome: Outcome)
      requires Valid() && input.dt >= 0.0
      modifies this
      ensures outcome == Running ==> Valid()
      ensures outcome == Running ==> old(lives) - lives == old(hearts) - hearts
      ensures outcome == Exited ==> !old(isPaused) && (lives == 0 || lives == old(lives) - old(hearts))
      ensures wave == old(wave) || wave == old(wave) + 1
      ensures old(isPaused) ==>
        && outcome == Running && timeSinceLastShot == old(timeSinceLastShot) + input.dt
        && turretAngleDeg == old(turretAngleDeg) && bullets == old(bullets) && enemies == old(enemies)
        && echos == old(echos) && bigEchos == old(bigEchos) && allEchos == old(allEchos)
        && echoCharge == old(echoCharge) && bigWaveCharge == old(bigWaveCharge)
        && wasWHeld == old(wasWHeld) && wasEHeld == old(wasEHeld) && flashTimer == old(flashTimer)
        && wave == old(wave) && lives == old(lives) && hearts == old(hearts)
        && totalIntensity == (if isPaused then old(totalIntensity) else Decayed(old(totalIntensity), IntensityDecay))
      ensures outcome == Running ==>
        (isPaused, wasEscapeHeld) == PauseStep(old(isPaused), old(wasEscapeHeld), input.escape)
    {
      AdvanceCooldown(input.dt);
      outcome := Running;
      if !isPaused {
        outcome := PlayFrame(input, env);
        if outcome == Exited {
          return;
        }
      }
      EndFrame(input.escape);
    }
  }
}
