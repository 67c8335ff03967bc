# EchoClash game core in Dafny

EchoClash is a small SFML arcade game. A turret sits at the centre of an 800 x 600 arena,
invisible enemies fly at it from a circle of radius 450, and the player reveals them with
echoes and shoots them. This project models the game logic of two revisions of its frame
loop. It proves what each block of the loop does to the game state.

- `src/game_main.cpp`, the later revision, is modelled in module `GameMain`. It has three
  weapons:
  - bullets;
  - a beam (`Echo`), a shrinking rectangle that flies outward;
  - a ring (`BigEcho`), a shrinking circle at the centre.

  It also has a pause toggle on Escape, hearts that end the game, a red flash after a hit,
  and wave sizes driven by an intensity budget and capped at 5.
- `src/main.cpp`, the earlier revision, is modelled in module `EarlyMain`. It has one beam
  weapon with no charge cap, a bullet that dies with the enemy it hits, waves of
  `trunc(intensity/4)` enemies, and an intensity decay of 10 per frame.

Shared pieces live in their own modules:

- `Geometry`: vectors, squared distance, the clamp and the box-versus-circle test.
- `Pools`: the stable filter that every "erase without `++i`" loop computes, and its laws.
- `Entities`: `Enemy`, `Bullet`, `Echo`, `BigEcho` and the `EchoBase` dispatch, written as
  immutable records. The C++ vectors hold these by value, and `allEchos` holds copies.
- `Passes`: the pool loops common to both revisions. Each is a `method` with loop
  invariants, proved equal to a specification function:
  - echo, ring and bullet updates;
  - enemy movement, the reveal pass and the visibility timers;
  - the spawn loop and the inner bullet scan.
- `Turret`: the constants, rotation and wrap, the fired bullet and released beam, and the
  intensity decay.

Each revision's loop state is a class: `GameMain.GameState` and `EarlyMain.EarlyState`.
Every block of the frame loop is a method that modifies only the fields that block writes.
`Frame` runs one iteration of the loop up to drawing, in the source's order, and returns
`Running` or `Exited` (`main` returns 0).

The model follows the code as written, including where the code departs from its own
comments:

- **Bullets, later revision.** The comment on the hit branch says that both the bullet and
  the enemy are removed (src/game_main.cpp:494). The branch then sets `bulletRemoved = false`
  (src/game_main.cpp:496), so the bullet is not removed: each bullet erases the first enemy
  it overlaps and stays (`KillPass`). The earlier revision does remove both (`KillBoth`,
  src/main.cpp:336-338).
- **Charge clamp.** The clamp adds one increment while `charge <= max`, and sets `max`
  otherwise (src/game_main.cpp:356-362). So the charge overshoots by up to one frame's
  increment (`ChargeOvershoot`), rather than being `min(charge + step, max)`.
- **No cap, earlier revision.** The comma expression at src/main.cpp:205 drops the maximum
  altogether (`HeldChargeUncapped`).
- **Stale echo copies.** The reveal pass scans `allEchos` (src/game_main.cpp:446). These are
  copies taken at release, never updated or removed until the next `spawnWave` clears them.
  So every reveal tests the beam or ring as it was when released (`SpawnCopy`).
- **Latches while paused.** `wasWHeld` and `wasEHeld` are refreshed only while the game is
  not paused (src/game_main.cpp:382, 413). The cooldown clock runs while paused
  (src/game_main.cpp:311).
- **Game over.**
  - Later revision: the game ends when the hearts reach 0 in the centre loop, or when a
    frame starts its enemy blocks with `lives == 0` (src/game_main.cpp:437-439, 515-518).
  - Earlier revision: `lives` starts at 9999. Two enemies reaching the turret in one frame
    can step it past 0, so the `!lives` test never fires (`LivesCanSkipZero`).
- **Decay while paused.** The later revision does not decay the intensity while paused
  (src/game_main.cpp:595-598).

Floats are modelled as `real`. The `int count = <float>` conversions truncate toward zero
(`Turret.Trunc`). The foreign calls come in as an `Env` value:

- `aimDir`: the cos/sin direction for an angle in degrees.
- `toLocal`: the beam rectangle's inverse SFML transform.
- `spawnDir`, `spawnJitter`: the i-th random spawn angle as a unit vector, and the i-th speed
  jitter.

Key states and `dt` are the fields of `Input` and `EarlyInput`.

## Model

| member | source | states |
|---|---|---|
| Geometry.Clamp | src/game_main.cpp:91-92 | `std::max(lo, std::min(v, hi))` lies in [lo, hi] when lo <= hi, and is v itself when v is already in range |
| Geometry.ClampIsNearest | src/game_main.cpp:91-92 | on one axis the clamped coordinate is at least as close to v as any point of [lo, hi] |
| Geometry.ClosestOnBox | src/game_main.cpp:88-92 | the clamped point lies in the box [-halfW, halfW] x [-halfH, halfH], and a point inside the box is its own clamp |
| Geometry.ClosestOnBoxIsNearest | src/game_main.cpp:91-97 | the clamped point is the point of the box nearest to the local point |
| Geometry.InsideBoxHits | src/game_main.cpp:91-97 | a local point inside the box passes the hit test whatever the radius |
| Geometry.BoxCircleHitHasWitness | src/game_main.cpp:91-97 | soundness of the beam test: a hit means some point of the box lies within r of the local point |
| Geometry.BoxCircleHitComplete | src/game_main.cpp:91-97 | completeness of the beam test: any point of the box within r of the local point makes the test report a hit |
| Pools.Filter | src/game_main.cpp:416-424 | the survivors of an erase-without-`++i` loop: no more than the input, and every survivor passes the predicate |
| Pools.FilterMembers | src/game_main.cpp:416-435 | an element survives exactly when it was in the pool and passes the predicate: only failing elements are removed |
| Pools.FilterCounts | src/game_main.cpp:468-476 | with multiplicity: every passing element is kept as often as it occurs, and every failing one is gone |
| Pools.FilterIsSubsequence | src/game_main.cpp:416-435 | the survivors keep their relative order |
| Pools.FilterAllPass | src/game_main.cpp:416-424 | a pool whose every element passes is left unchanged |
| Pools.FilterAppend | src/game_main.cpp:416-424 | filtering one more element appends it exactly when it passes (the loop's step) |
| Pools.FilterConcat | src/game_main.cpp:416-424 | the filter of a concatenation is the concatenation of the filters |
| Pools.EraseIsSubsequence | src/game_main.cpp:495 | erasing one element of a vector leaves a subsequence of it |
| Geometry.ScaledUnitDistance | src/game_main.cpp:74-76 | a point k units along a unit direction from the centre lies at squared distance k*k from it |
| Entities.BoxWithinReach | src/game_main.cpp:472-473 | every point of the bullet keep-box [-50, 850] x [-50, 650] lies within squared distance 450^2 + 350^2 of the centre |
| Entities.Enemy.GetVelocity | src/game_main.cpp:31-33 | `get_velocity` returns the stored velocity: storing it back leaves the enemy unchanged |
| Entities.Enemy.Moved | src/game_main.cpp:479-481 | `shape.move(get_velocity() * dt)` displaces the enemy by exactly velocity * dt and changes nothing else |
| Entities.Bullet.Moved | src/game_main.cpp:470 | `shape.move(velocity * dt)` displaces the bullet by exactly velocity * dt and changes nothing else |
| Entities.Bullet.InArena | src/game_main.cpp:472-473 | a bullet the bounds test keeps lies within squared distance 450^2 + 350^2 of the centre |
| Entities.Bullet.Hits | src/game_main.cpp:489-493 | the overlap test is exactly "the two circles meet"; a bullet on top of an enemy always hits it |
| Entities.Echo.Updated | src/game_main.cpp:63-77 | one `Echo::update` ages the beam by dt, keeps its direction and rotation, and never lengthens it when dt * shrinkRate >= 0 |
| Entities.BigEcho.Updated | src/game_main.cpp:105-115 | one `BigEcho::update` ages the ring by dt, places it at the centre, and never grows it when dt * shrinkRate >= 0 |
| Entities.Enemy.SetVisibility | src/game_main.cpp:36-46 | `set_visibility(v)` sets the flag to v and changes nothing else of the enemy |
| Entities.Enemy.SetVelocity | src/game_main.cpp:27-30 | `set_velocity` stores the velocity, returns what it stored, and changes nothing else |
| Entities.VelocityRoundTrip | src/game_main.cpp:27-33 | `get_velocity` after `set_velocity(v)` gives v; setting the old velocity back restores the enemy (doctest src/game_test.cpp:16-22) |
| Entities.Enemy.Revealed | src/game_main.cpp:448-449 | a hit makes the enemy visible with a 4 second timer, which satisfies the visibility invariant; position, radius and velocity are untouched |
| Entities.Enemy.TickedVisibility | src/game_main.cpp:458-464 | the timer step keeps the timer at 0 or above and keeps `visible <==> timer > 0`; the enemy stays visible exactly while its timer exceeds dt |
| Entities.Echo.HitsEnemy | src/game_main.cpp:79-98 | a beam of length <= 0 hits nothing |
| Entities.BigEcho.HitsEnemy | src/game_main.cpp:116-128 | a ring of radius <= 0 hits nothing |
| Entities.EchoEffect.HitsEnemy | src/game_main.cpp:55-56 | through the virtual `hitsEnemy`, an effect that has shrunk to nothing (a beam of length <= 0 or a ring of radius <= 0) hits no enemy, whichever its kind |
| Entities.BeamAfterFrames | src/game_main.cpp:63-77 | after n updates with the same arguments a beam has aged by n*dt and shrunk by exactly n*dt*shrinkRate; it sits at center + velocity*speed*elapsedTime with direction and rotation untouched |
| Entities.BeamAfterDistance | src/game_main.cpp:63-77 | a beam with a unit direction that has been updated at least once lies at distance speed * elapsedTime from the centre |
| Entities.BulletAfterFrames | src/game_main.cpp:468-471 | after n frames a bullet has moved by velocity * n * dt in a straight line, with velocity and radius unchanged |
| Entities.BeamEventuallyInert | src/game_main.cpp:63-77 | with positive dt and shrink rate every beam reaches length <= 0 after finitely many updates |
| Entities.BeamUpdateExample | src/game_main.cpp:63-77 | length 20, shrink rate 2, speed 10, dt 1 give length 18 at (10, 0), aged 1 s, with direction and rotation kept (doctest src/game_test.cpp:63-76) |
| Entities.RingAfterFrames | src/game_main.cpp:105-115 | after n updates a ring has shrunk by exactly n*dt*shrinkRate, aged by n*dt, and sits at the centre |
| Entities.RingUpdateExample | src/game_main.cpp:105-115 | radius 40, shrink rate 5, dt 1 give radius 35 at the centre (doctest src/game_test.cpp:78-90) |
| Entities.BeamHitIffBoxMeetsDisk | src/game_main.cpp:79-98 | a beam hits exactly when its length is positive and some point of its local box lies within the enemy's radius of the enemy's local point |
| Entities.BeamHitsInsideBox | src/game_main.cpp:79-98 | a live beam hits every enemy whose local point lies inside the box |
| Entities.BeamClampInBox | src/game_main.cpp:88-92 | for a live beam the clamped point lies in [-length/2, length/2] x [-thickness/2, thickness/2] |
| Entities.RingHitMonotone | src/game_main.cpp:116-128 | a larger radius only makes the ring test more permissive |
| Entities.RingHitsInsideDisk | src/game_main.cpp:116-128 | a live ring hits every enemy whose centre lies inside its disk |
| Entities.RingHitExample | src/game_main.cpp:116-128 | a ring of radius 50 at (100, 100) hits an enemy of radius 5 there and misses one at (200, 200) (doctest src/game_test.cpp:45-61) |
| Passes.UpdateEchoPool | src/game_main.cpp:416-424 | the beam loop returns the updated beams with the non-positive ones erased, in order; every survivor has positive length |
| Passes.UpdateRingPool | src/game_main.cpp:427-435 | the ring loop returns the updated rings with the non-positive ones erased, in order; every survivor has positive radius and sits at the centre |
| Passes.UpdateBullets | src/game_main.cpp:468-476 | the bullet loop returns the moved bullets with those outside [-50, 850] x [-50, 650] erased, in order |
| Passes.MoveEnemies | src/game_main.cpp:479-481 | every enemy moves by its velocity times dt; none is added or removed |
| Passes.RevealPass | src/game_main.cpp:445-453 | the pool size is unchanged; an enemy some effect hits is revealed, others are untouched (with the first-hit `break`) |
| Passes.TickVisibility | src/game_main.cpp:457-465 | every enemy takes one timer step; none is added or removed |
| Passes.RevealThenTickConsistent | src/game_main.cpp:445-465 | after the reveal and timer passes every timer is at least 0 and `visible <==> timer > 0` still holds |
| Passes.SpawnDistanceIsRoot | src/game_main.cpp:292-294 | for a unit direction, `std::sqrt` of the squared offset to the centre is the spawn radius 450 |
| Passes.SpawnedEnemy | src/game_main.cpp:281-299 | a spawned enemy is invisible with timer 0 (so it keeps the visibility invariant), has radius 14 and sits at centre + 450 * u |
| Passes.SpawnedEnemyClosesIn | src/game_main.cpp:292-298 | one frame after spawning, the enemy is still on the ray from the centre through its spawn point, speed * dt nearer to the centre |
| Passes.SpawnedEnemyAimsAtCenter | src/game_main.cpp:281-299 | a spawned enemy is invisible with timer 0 and radius 14, sits 450 from the centre, and moves straight at it with speed 40 + 8*wave + jitter (at least 38 from wave 1 with jitter >= -10) |
| Passes.SpawnEnemies | src/game_main.cpp:281-300 | the spawn loop makes max(count, 0) enemies, the i-th from the i-th random direction and jitter, each satisfying the visibility invariant |
| Passes.FirstHitIndex | src/game_main.cpp:487-499 | the scan stops at the first enemy the bullet overlaps; no earlier enemy overlaps it; the result is the pool's length when none does |
| Passes.RemoveFirstHit | src/game_main.cpp:493-497 | one bullet erases exactly one enemy when it overlaps any and none otherwise; nothing is added |
| Passes.ScanForHit | src/game_main.cpp:487-499 | the inner `for` loop over the enemies returns the first overlapped index |
| Passes.FirstHitIsLeast | src/game_main.cpp:487-499 | any index with no overlap before it and an overlap at it (or at the end) is the scan's result |
| Turret.Trunc | src/game_main.cpp:268 | the float-to-int conversion truncates toward zero |
| Turret.Turn | src/game_main.cpp:323-330 | Left and Right turn by 140*dt in opposite directions and cancel out; the turn is 0 exactly when they agree or dt is 0 |
| Turret.WrapAngle | src/game_main.cpp:333-334 | the wrap adds or subtracts at most one turn, keeps an angle in [0, 360], and brings any angle in [-360, 720] into [0, 360] |
| Turret.WrapAngleOnceOnly | src/game_main.cpp:333-334 | -400 wraps to -40 and 800 to 440: only one turn is removed |
| Turret.TurnStaysInRange | src/game_main.cpp:323-334 | from [0, 360], a frame turning by at most a full turn stays in [0, 360] |
| Turret.FiredBullet | src/game_main.cpp:340-349 | a fired bullet starts at the centre with radius 4, moving at 520 along a unit turret direction |
| Turret.ReleasedBeamFlight | src/game_main.cpp:366-376 | after n >= 1 frames, a beam released along a unit turret direction lies 520 * n * dt from the centre, has shrunk by exactly 100 * n * dt, and is still drawn 90 degrees from the turret direction |
| Turret.FiredBulletLeavesArena | src/game_main.cpp:468-476 | a bullet fired along a unit direction is outside the keep-box, and so is erased, after 1.1 seconds of flight (520 * 1.1 = 572 exceeds the box's reach of about 570) |
| Turret.Decayed | src/game_main.cpp:595-598 | the decayed intensity is never negative and never larger than before |
| Turret.DecayAfterFrames | src/game_main.cpp:595-598 | n frames of decay give max(0, intensity - n*step) |
| Turret.CenterOnBaseReachesTurret | src/game_main.cpp:504-509 | an enemy whose centre lies on the turret base (radius 18) has reached the turret, whatever its own radius |
| Turret.SpawnDistanceClearsTurret | src/game_main.cpp:504-509 | an enemy on the spawn circle is not at the turret |
| GameMain.SpawnCount | src/game_main.cpp:268-269 | the wave size is at most 5, at least 1 for a non-negative intensity, and 5 exactly from intensity 160 on |
| GameMain.SpawnCountMonotone | src/game_main.cpp:268-269 | more intensity never gives a smaller wave |
| GameMain.SpawnCountFirstStep | src/game_main.cpp:268-269 | one enemy exactly while the intensity is below 40 |
| GameMain.Charged | src/game_main.cpp:356-362 | a held frame keeps the charge non-negative, and from any starting charge leaves it at most max + one increment |
| GameMain.ChargeOvershoot | src/game_main.cpp:356-362 | 149 plus a 4 increment gives 153, past the maximum 150 |
| GameMain.ChargeHoldOscillates | src/game_main.cpp:356-362 | holding at the maximum alternates between max + step and max |
| GameMain.ReleasedRingReveals | src/game_main.cpp:398-405 | after n frames a released ring still sits on the turret and has shrunk by exactly 150 * n * dt; while its radius is positive it reveals every enemy whose centre lies inside it |
| GameMain.PauseStep | src/game_main.cpp:549-560 | the pause flips exactly on a press of Escape that was not held the frame before; the latch takes the key state |
| GameMain.HeldEscapeIsIgnored | src/game_main.cpp:549-560 | while Escape stays held, the pause state does not change |
| GameMain.HoldingEscapeTogglesOnce | src/game_main.cpp:549-560 | pressing and holding Escape for any number of frames toggles the pause exactly once |
| GameMain.KillPassBounds | src/game_main.cpp:484-501 | each bullet kills at most one enemy per frame, and no enemy is made |
| GameMain.KillPassKeepsOrder | src/game_main.cpp:484-501 | the surviving enemies keep their order |
| GameMain.KillPassKeepsEnemiesValid | src/game_main.cpp:484-501 | the enemies that survive the kill pass keep the visibility invariant and radius 14 |
| GameMain.KillPassMisses | src/game_main.cpp:484-501 | bullets that overlap no enemy kill nothing |
| GameMain.CenterLoopMeaning | src/game_main.cpp:504-523 | with h >= 1 hearts the centre loop exits exactly when at least h enemies are at the turret, and then it removes exactly h; otherwise the enemies clear of the turret remain in order and one heart per removed enemy is lost |
| GameMain.CenterLoopAccounts | src/game_main.cpp:504-523 | the centre loop loses no enemy: each is either still in the pool or counted as removed, whether or not the hearts run out |
| GameMain.CenterPassAccounts | src/game_main.cpp:504-523 | after the centre pass, the enemies left plus the enemies removed make up the whole pool |
| GameMain.CenterLoopKeepsMembers | src/game_main.cpp:504-523 | every state of the centre loop removes enemies only |
| GameMain.CenterPassKeepsMembers | src/game_main.cpp:504-523 | the centre pass removes enemies and never adds one |
| GameMain.CenterPassSummary | src/game_main.cpp:504-523 | the centre pass removes enemies only, and an exit costs exactly all the hearts |
| GameMain.CenterPassEndsGame | src/game_main.cpp:515-518 | with h hearts left, h enemies reaching the turret in one pass end the game |
| GameMain.GameState.constructor | src/game_main.cpp:174-305 | the initial state with 10 lives and 10 hearts after `spawnWave(1)`: one enemy, no bullets, not paused |
| GameMain.GameState.SpawnWave | src/game_main.cpp:267-302 | `spawnWave` empties the three echo lists, spawns `SpawnCount(intensity)` enemies and marks the wave active |
| GameMain.GameState.Rotate | src/game_main.cpp:323-334 | the angle becomes the wrap of the old angle plus the turn, within [0, 360] for a turn of at most one full turn |
| GameMain.GameState.Fire | src/game_main.cpp:337-350 | Space with the cooldown elapsed appends one bullet along the turret and restarts the cooldown; otherwise nothing changes |
| GameMain.GameState.ChargeEcho | src/game_main.cpp:353-382 | held: the clamp step, nothing spawned; released with charge: one beam of twice the charge in `echos` and `allEchos`, length/4 added to the intensity, charge 0; otherwise nothing changes |
| GameMain.GameState.ChargeBigWave | src/game_main.cpp:384-413 | held: the clamp step, nothing spawned; released with charge: one ring of twice the charge in `BigEchos` and `allEchos`, its radius added to the intensity, charge 0; otherwise nothing changes |
| GameMain.GameState.UpdateEchos | src/game_main.cpp:416-424 | the beam list becomes its updated survivors |
| GameMain.GameState.UpdateBigEchos | src/game_main.cpp:427-435 | the ring list becomes its updated survivors |
| GameMain.GameState.RevealEnemies | src/game_main.cpp:445-453 | every enemy some copy in `allEchos` hits is revealed; the pool size is unchanged |
| GameMain.GameState.TickEnemies | src/game_main.cpp:457-465 | every enemy takes one timer step |
| GameMain.GameState.UpdateBulletPool | src/game_main.cpp:468-476 | the bullets become their moved survivors |
| GameMain.GameState.MoveEnemyPool | src/game_main.cpp:479-481 | every enemy moves by `get_velocity() * dt` |
| GameMain.GameState.CollideBullets | src/game_main.cpp:484-501 | the enemies become `KillPass(bullets, enemies)`; the bullets are not touched |
| GameMain.GameState.ResolveCenterHits | src/game_main.cpp:504-523 | the result of a centre pass: the enemies left, one life and one heart per removed enemy, the flash at 15 after any removal, and an exit with hearts put back to 1 when they reach 0 |
| GameMain.GameState.TickFlash | src/game_main.cpp:526-532 | the flash counts down by one frame and never goes below 0 |
| GameMain.GameState.WaveLogic | src/game_main.cpp:535-545 | a wave with enemies left is untouched; otherwise the timer runs (reset first when the wave just ended), and a new wave with number + 1 spawns exactly when it reaches 1 second |
| GameMain.GameState.TogglePause | src/game_main.cpp:549-560 | the pause and its latch take one `PauseStep` |
| GameMain.GameState.DecayIntensity | src/game_main.cpp:595-598 | the intensity decays by 1, floored at 0 |
| GameMain.GameState.Controls | src/game_main.cpp:323-413 | the input blocks keep the frame invariant |
| GameMain.GameState.UpdateEffects | src/game_main.cpp:415-435 | the two effect loops keep the frame invariant |
| GameMain.GameState.EnemyBlocks | src/game_main.cpp:445-501 | the enemy blocks keep the frame invariant and never add an enemy |
| GameMain.GameState.WorldBlocks | src/game_main.cpp:445-532 | an exit costs all the hearts in lives; otherwise lives and hearts fall together |
| GameMain.GameState.PlayFrame | src/game_main.cpp:321-546 | a running frame keeps the invariant and loses lives and hearts together; an exit comes with no life left or all the hearts lost; the wave number rises by at most 1 |
| GameMain.GameState.EndFrame | src/game_main.cpp:548-598 | the pause toggle, then the decay only if not paused |
| GameMain.GameState.AdvanceCooldown | src/game_main.cpp:311 | the cooldown clock advances by dt |
| GameMain.GameState.Frame | src/game_main.cpp:310-598 | in the model, with the pause-menu clicks left out: only an unpaused frame can exit; a paused frame changes nothing but the cooldown clock, the pause latch and (if it unpauses) the intensity; a running frame keeps the invariant |
| EarlyMain.EarlySpawnCount | src/main.cpp:124 | the wave size is `floor(intensity/4)`: possibly 0, below 4 intensity 0 |
| EarlyMain.EarlySpawnCountUncapped | src/main.cpp:124 | every wave size occurs: intensity 4n spawns n enemies |
| EarlyMain.HeldChargeIsLinear | src/main.cpp:202-206 | n held frames add exactly n increments |
| EarlyMain.HeldChargeUncapped | src/main.cpp:205 | holding long enough passes the 150 of the later revision: there is no cap |
| EarlyMain.KillBoth | src/main.cpp:325-343 | the collision pass never grows the bullet pool or the enemy pool |
| EarlyMain.KillBothBalance | src/main.cpp:325-343 | the pass removes as many bullets as enemies; survivors of both pools were there before |
| EarlyMain.KillBothLeavesNoOverlap | src/main.cpp:325-343 | after the pass no surviving bullet overlaps a surviving enemy |
| EarlyMain.KillBothMisses | src/main.cpp:325-343 | bullets that overlap no enemy kill nothing and all stay |
| EarlyMain.Collide | src/main.cpp:325-343 | the loop, with its index kept on a hit, computes `KillBoth` |
| EarlyMain.LivesCanSkipZero | src/main.cpp:346-356 | two enemies at the turret with one life left give -1 lives, which the zero test never sees |
| EarlyMain.LivesSkipZeroOnState | src/main.cpp:346-356 | on the game state: with one life and two enemies at the turret the centre loop leaves lives below 0, and the next frame still runs |
| EarlyMain.ShortBeamsRevealNothing | src/main.cpp:264-267 | beams of non-positive length reveal nothing, so the skip changes nothing |
| EarlyMain.EarlyState.constructor | src/main.cpp:60-155 | the initial state with 9999 lives after `spawnWave(1)`, which spawns no enemy at intensity 0 |
| EarlyMain.EarlyState.SpawnWave | src/main.cpp:123-152 | `spawnWave` clears the enemies (the beams stay), spawns `EarlySpawnCount(intensity)` enemies and marks the wave active |
| EarlyMain.EarlyState.AdvanceCooldown | src/main.cpp:161 | the cooldown clock advances by dt |
| EarlyMain.EarlyState.Rotate | src/main.cpp:172-183 | the angle becomes the wrap of the old angle plus the turn |
| EarlyMain.EarlyState.Fire | src/main.cpp:186-199 | Space with the cooldown elapsed appends one bullet and restarts the cooldown; otherwise nothing changes |
| EarlyMain.EarlyState.ChargeEcho | src/main.cpp:202-225 | held: the charge grows by exactly dt*200; released with charge: one beam as long as the charge, its length added to the intensity, charge 0; with no charge nothing spawns |
| EarlyMain.EarlyState.UpdateEchos | src/main.cpp:230-250 | the beam list becomes its updated survivors, all of positive length |
| EarlyMain.EarlyState.RevealEnemies | src/main.cpp:260-295 | every enemy some live beam hits is revealed; no enemy is removed |
| EarlyMain.EarlyState.TickEnemies | src/main.cpp:298-306 | every enemy takes one timer step |
| EarlyMain.EarlyState.UpdateBulletPool | src/main.cpp:309-317 | the bullets become their moved survivors |
| EarlyMain.EarlyState.MoveEnemyPool | src/main.cpp:320-322 | every enemy moves by its velocity times dt |
| EarlyMain.EarlyState.CollideBullets | src/main.cpp:325-343 | both pools become `KillBoth` of the old ones; kills equal spent bullets |
| EarlyMain.EarlyState.ResolveCenterHits | src/main.cpp:346-356 | the enemies clear of the turret remain in order, and one life is lost per removed enemy |
| EarlyMain.EarlyState.WaveLogic | src/main.cpp:359-369 | a wave with enemies left is untouched; otherwise the timer runs, and a new wave with number + 1 spawns exactly when it reaches 1 second |
| EarlyMain.EarlyState.DecayIntensity | src/main.cpp:384-385 | the intensity decays by 10, floored at 0 |
| EarlyMain.EarlyState.Controls | src/main.cpp:172-250 | the input blocks and the beam update keep the invariant |
| EarlyMain.EarlyState.MotionBlocks | src/main.cpp:260-322 | reveal, timers, bullets and movement keep the enemy and projectile invariants and the enemy count |
| EarlyMain.EarlyState.HitBlocks | src/main.cpp:325-356 | the hit tests keep the invariants and only remove enemies and lives |
| EarlyMain.EarlyState.Frame | src/main.cpp:160-385 | the frame exits exactly when it starts with 0 lives; a running frame keeps the invariant; lives never grow; the wave number rises by at most 1 |

## Left out

- The SFML window, event polling, drawing, fonts, textures, the heart sprite rectangle, the
  charge-bar sizes and the pause-button colours are output only.
- The window's close event (src/game_main.cpp:313-319, src/main.cpp:163-169) ends the loop
  through `window.isOpen()`. It is an SFML event: `Frame` models one pass of the loop body.
- The pause menu's mouse clicks (src/game_main.cpp:562-574) are mouse input and button
  geometry. They lie outside the modelled blocks.
- GameMain.GameState.Frame: the pause-menu Resume click (src/game_main.cpp:566-568) and Quit
  click (src/game_main.cpp:571-572) are not modelled. With them, a paused frame can also be
  unpaused by Resume, which lets the decay at src/game_main.cpp:595-598 run, or end the
  program through Quit. The contract holds only for frames without these clicks.
- Keyboard reads and the frame clock are inputs: the `Input`/`EarlyInput` fields.
- `std::random_device`, `mt19937` and the distributions are replaced by `Env.spawnDir` and
  `Env.spawnJitter`. The range [-10, 10) of the jitter appears only as a hypothesis of
  `Passes.SpawnedEnemyAimsAtCenter`.
- `std::cos`/`std::sin` and the degree-to-radian factor are `Env.aimDir`. The model does not
  constrain it to unit vectors.
- `sf::Transform::getInverse` is the abstract `Env.toLocal`. SFML's handling of the
  rectangle's origin is not modelled, so no lemma places the beam's local box in world
  coordinates.
- `std::sqrt` in `spawnWave` is the constant spawn radius. `Passes.SpawnDistanceIsRoot`
  justifies this for unit directions.
- IEEE float rounding is not modelled: every quantity is a `real`.
- The fill colours set by `set_visibility` and at spawn are drawing.
- `std::cout` logging is output only.
- The `TESTING` guard (src/game_main.cpp:131) and src/game_test.cpp are not model targets.
  The doctest cases appear as example lemmas.
- `EchoBase` with `unique_ptr` ownership is the two-case datatype `EchoEffect`. There is no
  heap object behind it.
- The pools are `seq` fields that each loop method reassigns as a whole. In-place element
  update and vector reallocation are not modelled. The elements are held by value, so they
  have no aliasing.
- `int` overflow of `wave` and `lives` is not modelled: the counters are unbounded `int`s.
- GameMain.GameState.PlayFrame: states the invariant, the lives/hearts relation, the exit
  conditions and the wave step, not its full new state. Each block method it calls states
  its own step exactly.
- GameMain.GameState.Frame: for an unpaused frame states the same summary as `PlayFrame`,
  not the full new state.
- GameMain.GameState.Controls: states only that the invariant is kept. Rotate, Fire,
  ChargeEcho and ChargeBigWave state the steps.
- GameMain.GameState.UpdateEffects: states only that the invariant is kept. UpdateEchos and
  UpdateBigEchos state the steps.
- GameMain.GameState.EnemyBlocks: states only the invariant and the enemy count. The block
  methods state the steps.
- GameMain.GameState.WorldBlocks: states the invariant and the lives/hearts accounting.
  `ResolveCenterHits` states the centre pass exactly.
- EarlyMain.EarlyState.Controls: states only that the invariant is kept. The block methods
  state the steps.
- EarlyMain.EarlyState.MotionBlocks: states only the invariants and the enemy count.
- EarlyMain.EarlyState.HitBlocks: states only the invariants and that enemies and lives
  only fall. `CollideBullets` and `ResolveCenterHits` state the steps.
- EarlyMain.EarlyState.Frame: states the exit condition, the invariant, the lives bound
  and the wave step, not the full new state.
