# Planetoids in Dafny

This project models the game logic of Planetoids, an Asteroids-like arcade game. The model is written in Dafny and its properties are proved. It covers three parts of the game:

- the per-frame simulation of one level, the class `Wave` of `wave.py`;
- the entities it moves, from `models.py`: bullets, asteroids, the UFO and the UFO's life markers;
- the state machine of the application, the class `Planetoids` of `app.py`. It wakes the game up, shows the welcome screen, loads a wave, runs it, pauses it when the ship is lost and ends it.

Modules, one per file:

- `Options` (`options.dfy`): the `Option` type. `None` stands for a frame in which the Python code raises.
- `Geometry` (`geometry.dfy`): vectors over reals. The square root is abstract: `MathLib` holds a `sqrt` with only the facts the game needs, and `sin 120°` with `sin² = 3/4`. Normalisation, distance and the 120° and 240° turns are built on these.
- `Constants` (`constants.dfy`): the game constants (`GAME_WIDTH`, `DEAD_ZONE`, the radii, speeds and lives) as the fields of one record, required positive.
- `Models` (`models.dfy`): the entities as values, covering:
  - the size tags and their radii and speeds;
  - the velocity each constructor fixes;
  - the dead-zone wrap shared by asteroids, the UFO and the markers;
  - circle collision;
  - the ship's own methods, which the model receives as parameters (`ShipMethods`).
- `WaveRules` (`wave_rules.dfy`): a frame of `Wave.update` as pure functions on a `Snapshot` of the wave's fields, with the lemmas about them. The snapshot holds the ship, asteroids, bullets, UFO, markers, lives, UFO lives and fire counter.
- `Waves` (`wave.dfy`): the class `Wave`. It has the same fields, updated in place by methods whose loops mirror the source: the asteroid loop of `update`, the `bullet_update` while loop with its manual index, and the marker loops. Each method is proved to leave the wave in the state the `WaveRules` function gives for the old state.
- `Game` (`app.dfy`): the class `Planetoids`, with its states and the invariant its `update` keeps. The wave exists exactly in ACTIVE and PAUSED, and it always has a ship and as many lives as the game counts.

Behaviour of the code that the model keeps as written:

- Every asteroid of a level is built with entry 0's `direction`, not its own (`wave.py:114`).
- A bullet that hits an asteroid and, in the same pass, the UFO is removed from `_bullets` twice (`wave.py:525` and `wave.py:532`). The second `remove` raises, and the model makes that frame `None`. The same holds for a UFO hit that deletes a marker from an empty marker list.
- A UFO that hits the ship costs the UFO a life but does not delete a marker. The bullet path does delete one.
- When an asteroid hits the ship, the asteroids after it in the list have not moved in that frame, because `update` returns inside the loop.
- `list.remove(x)` on asteroids and bullets removes that very object. No entity is shared or equal to another, so the model removes by index.

## Model

| member | source | states |
|---|---|---|
| Geometry.Normalize | models.py:253-254 | a non-zero vector normalises to a unit vector which, scaled by the original length, gives back the vector |
| Geometry.NormalizeUnit | wave.py:417-420 | normalising a vector that is already a unit vector leaves it unchanged, so the extra normalize of each turned direction changes nothing |
| Geometry.CloserThan | models.py:301-303 | the square-root distance is below r exactly when the sum of squared differences is below r squared |
| Geometry.DistanceSymmetric | models.py:301-303 | the distance between two centres does not depend on their order |
| Geometry.RotateKeepsLength | wave.py:356-378 | rotating by an angle with cos² + sin² = 1 keeps the squared length |
| Geometry.TurnsCompose | wave.py:414-419 | two 120° turns make the 240° turn, and three make no turn |
| Geometry.TurnsCancel | wave.py:414-421 | a vector plus its 120° and 240° turns is the zero vector |
| Geometry.TurnsKeepUnit | wave.py:417-420 | the 120° and 240° turns of a unit vector are unit vectors |
| Models.AsteroidVelocity | models.py:240-256 | direction (0,0) gives velocity (0,0); any other direction gives a velocity along it whose magnitude is the speed of the size |
| Models.WrapShift | models.py:259-286 | a wrap moves a coordinate by nothing or by exactly one span (extent + 2·DEAD_ZONE) either way, so it keeps it modulo the span; a coordinate inside the band is left alone |
| Models.WrapLands | models.py:268-271 | a coordinate at most one span beyond the band lands inside the band after one wrap, and a second wrap changes nothing |
| Models.StepWrapsIntoBand | models.py:259-286 | a coordinate inside the band that moves by at most one span is back inside the band after the wrap |
| Models.AsteroidCollisionGeometry | models.py:288-320 | collision_check is true exactly when the squared distance is below the squared sum of the size's radius and SHIP_RADIUS or BULLET_RADIUS, equivalently when the distance is below that sum; it is false for any other object |
| Models.UfoVelocity | models.py:396-406 | the UFO velocity has non-negative components and magnitude UFO_SPEED, along the random direction drawn |
| Models.UpdateUfo | models.py:434-441 | update_UFO keeps the velocity and the kind; each coordinate moves by the velocity and then by nothing or one span; a UFO inside the band that moves at most one span stays inside it |
| Models.MoveMarker | models.py:510-534 | a marker moves by the UFO's velocity and wraps like the UFO; its own velocity is kept |
| WaveRules.RemoveAtParts | wave.py:518 | deleting an index shortens the list by one, removes exactly that element from the multiset, and commutes with appending |
| WaveRules.Initial | wave.py:74-133 | a new wave is well formed: unit facing, moving bullets, enough markers for the UFO's lives |
| WaveRules.InitialFacts | wave.py:74-133 | a new wave has no bullets, a zero fire counter, SHIP_LIVES and UFO_LIVES; the ship is at the level's position; there is one asteroid per level entry with that entry's position and size and entry 0's direction; a UFO exactly when the level has one; UFO_LIVES markers with a UFO and none without |
| WaveRules.ShipStepKeepsUnit | wave.py:160-177 | turning, thrusting, moving and wrapping keep the ship's facing a unit vector |
| WaveRules.MovedOneMore | wave.py:181-185 | moving asteroid i of a list whose first i asteroids have moved extends the moved prefix by one |
| WaveRules.RemoveMoved | wave.py:193 | removing the hit asteroid k leaves the moved asteroids before it and the unmoved ones after it |
| WaveRules.MoveBullets | wave.py:509-511 | every bullet moves by its own velocity, which stays as built; no bullet is added or dropped |
| WaveRules.FirstHit | wave.py:181-195 | the index found is the first asteroid that collides with the object; None exactly when none collides |
| WaveRules.FirstHitAt | wave.py:522-528 | a colliding asteroid with no colliding asteroid before it is the one the loop finds |
| WaveRules.UfoCollisionGeometry | wave.py:570-594 | collision_UFO is true exactly when the squared distance is below the squared sum of UFO_RADIUS and SHIP_RADIUS or BULLET_RADIUS; false for any other object |
| WaveRules.Directions | wave.py:413-421 | breaking gives three unit directions |
| WaveRules.DirectionsTurn | wave.py:413-421 | the directions are the reference turned by 120° and by 240°, then the reference itself; each is the previous one turned by 120°, and they sum to zero |
| WaveRules.Fragments | wave.py:424-443 | a large asteroid gives three medium ones, a medium one three small ones, a small one nothing |
| WaveRules.PieceAlongUnit | wave.py:339-351 | a piece built along a unit direction sits at the parent centre plus its radius times the direction and moves along it at the speed of its size |
| WaveRules.FragmentPieces | wave.py:436-443 | the three fragments are the pieces along the three directions, in that order, from the parent's centre |
| WaveRules.FragmentCentroid | wave.py:436-443 | the centres of the three fragments average to the parent's centre |
| WaveRules.BulletSpeed | wave.py:281-292 | a bullet fired along a unit facing moves at BULLET_SPEED and is not at rest |
| WaveRules.Shoot | wave.py:277-296 | when the fire counter has reached the rate, exactly one bullet is appended at ship + SHIP_RADIUS·facing with velocity BULLET_SPEED·facing, and the counter is reset to 0; otherwise nothing changes; nothing but the bullets and the counter ever changes |
| WaveRules.ArmKeepsMoving | wave.py:503-511 | arming and moving the bullets changes only the bullets and the fire counter, and every bullet keeps a non-zero velocity |
| WaveRules.PassFrame | wave.py:512-538 | the bullet loop keeps the ship, the lives, the fire counter and the UFO; UFO lives only go down; markers never run short of UFO lives |
| WaveRules.PassBullets | wave.py:512-538 | after the loop, the bullets before the start index are untouched, and every bullet from it on lies inside the field extended by DEAD_ZONE |
| WaveRules.PassKeepsBullets | wave.py:512-538 | the loop only removes bullets: the surviving bullets are a sub-multiset of those it started with |
| WaveRules.PassRemoves | wave.py:516-535 | a bullet that is culled or hits something is deleted at its index and the loop goes on from the same index |
| WaveRules.PassCulled | wave.py:516-518 | a bullet outside the field is deleted and the loop goes on from the same index |
| WaveRules.PassHitsAsteroid | wave.py:521-536 | a bullet hitting asteroid k raises when it hits the UFO as well; otherwise the asteroid gives way to its fragments, the bullet is deleted and the loop goes on from the same index |
| WaveRules.PassHitsUfo | wave.py:530-536 | a bullet hitting only the UFO is deleted and costs the UFO a life and, while that count is not negative, its last marker; an empty marker list raises |
| WaveRules.PassWithoutUfo | wave.py:512-538 | without a UFO the bullet loop never raises |
| WaveRules.MoveMarkers | wave.py:618-630 | update_UFOLives raises exactly when the UFO has more lives than markers; otherwise the marker list keeps its length |
| WaveRules.UfoPhase | wave.py:210-214 | without a UFO nothing changes; a UFO that stays has a life left; once its lives are below one it is gone; only the UFO and markers change, and a wave with enough markers never raises here |
| WaveRules.ShipPhase | wave.py:160-204 | when no collision ends the frame, the wave that goes on is well formed |
| WaveRules.ShipPhaseHit | wave.py:181-195 | when moved asteroid k hits the moved ship first, the ship phase ends the frame: no ship, one life less, the asteroids moved before k, unmoved after it, and k's fragments appended |
| WaveRules.ShipPhaseMiss | wave.py:181-204 | when no moved asteroid hits the ship, a UFO hit ends the frame with a life and a UFO life less, and otherwise the frame goes on with the ship and all asteroids moved |
| WaveRules.RestFacts | wave.py:207-214 | bullet_update followed by the UFO step keeps the ship and lives, keeps the wave well formed, never raises UFO lives, resets the fire counter only on a shot, and without a ship only removes bullets |
| WaveRules.StepFacts | wave.py:137-214 | a frame keeps the wave well formed; with a ship, either the ship stays and the lives stay, or it is lost with exactly one life; without a ship, lives stay; the fire counter goes up by one, or is reset by a shot; UFO lives never go up |
| WaveRules.StepKeepsWellFormed | wave.py:137-214 | a frame that does not raise keeps the wave well formed |
| WaveRules.AsteroidHitsShip | wave.py:181-195 | when moved asteroid k is the first to hit the moved ship, the frame ends: one life less, no ship, asteroid k replaced by its fragments at the end, the later asteroids unmoved, bullets and UFO untouched |
| WaveRules.StepShipHit | wave.py:181-195 | the same outcome stated from the first hit among all moved asteroids |
| WaveRules.FirstHitAfterMove | wave.py:181-188 | the asteroid the move-then-check loop stops at is the first hit among all moved asteroids |
| WaveRules.UfoHitsShip | wave.py:198-204 | when no asteroid hits but the UFO does, the frame ends with one life and one UFO life less, no ship, all asteroids moved, and bullets and markers untouched |
| WaveRules.NoShipNoMotion | wave.py:160-207 | without a ship the frame fires nothing and moves no bullet; the ship stays absent; bullets are only removed; the counter still goes up by one |
| Waves.Wave.constructor | wave.py:74-133 | a new wave holds exactly the initial snapshot and is well formed |
| Waves.Wave.LoadAsteroids | wave.py:93-117 | one asteroid per level entry, in the level's order, as the level data describes it |
| Waves.Wave.NewUfoFor | wave.py:540-568 | a UFO exactly when the level has one, of the level's kind, at the drawn position |
| Waves.Wave.AlienLivesImage | wave.py:596-616 | appends the UFO_LIVES markers of the UFO, or nothing without a UFO |
| Waves.Wave.CheckAsteroids | wave.py:463-472 | true exactly when asteroids remain |
| Waves.Wave.CheckShip | wave.py:474-483 | true exactly when there is a ship |
| Waves.Wave.CheckUfo | wave.py:485-494 | true exactly when there is a UFO |
| Waves.Wave.ShootBullet | wave.py:248-296 | the new state is the firing gate applied to the old one |
| Waves.Wave.BreakingAsteroids | wave.py:380-443 | the asteroid list is extended by exactly the fragments of the parent |
| Waves.Wave.FindHit | wave.py:522-528 | the loop returns the first colliding asteroid |
| Waves.Wave.ArmBullets | wave.py:503-511 | the new state is the old one armed: maybe a shot, then every bullet moved |
| Waves.Wave.MoveBulletsInPlace | wave.py:509-511 | each bullet is moved by its velocity, in place |
| Waves.Wave.BulletUpdate | wave.py:496-538 | bullet_update raises exactly when the bullet phase is None, and otherwise leaves that phase's state |
| Waves.Wave.BulletStep | wave.py:513-538 | one pass of the while loop removes a bullet or advances the index, so the loop terminates; the rest of the loop gives the same outcome as before the pass |
| Waves.Wave.BulletCollisions | wave.py:520-538 | for a bullet inside the field, the pass over the asteroids and the UFO removes it or advances the index, agreeing with the Pass function |
| Waves.Wave.BulletUfo | wave.py:529-538 | with no asteroid hit, a UFO hit removes the bullet at the same index and a miss moves on to the next bullet, agreeing with the Pass function |
| Waves.Wave.BulletAsteroid | wave.py:522-528 | a bullet hitting asteroid k shortens the bullet list and continues the loop at the same index, or raises when it hits the UFO as well |
| Waves.Wave.BulletHitsAsteroid | wave.py:522-528 | the hit asteroid is removed and its fragments appended; the bullet is removed at its index |
| Waves.Wave.BulletShootsUfo | wave.py:530-536 | a bullet that hits only the UFO shortens the bullet list and continues the loop at the same index, or raises |
| Waves.Wave.BulletHitsUfo | wave.py:530-536 | the bullet is removed and the UFO loses a life; the last marker goes while that count is not negative, and an empty marker list raises |
| Waves.Wave.UpdateUfoLives | wave.py:618-630 | raises exactly when the UFO has more lives than markers; otherwise the first UFO-lives markers move with the UFO |
| Waves.Wave.Update | wave.py:137-214 | a frame raises exactly when the step function is None, and otherwise leaves the wave in the step's state, well formed, with the given sound flag |
| Waves.Wave.RestOfFrame | wave.py:207-214 | bullet_update and the UFO step together give the Rest function's state |
| Waves.Wave.ShipTurn | wave.py:160-204 | the ship's part of the frame gives the ShipPhase state and says whether the frame ended |
| Waves.Wave.SteerShip | wave.py:160-177 | the ship becomes the steered and moved ship, and its facing stays a unit vector |
| Waves.Wave.ShipHitsAsteroid | wave.py:188-195 | when moved asteroid k is the first to hit the ship, the wave ends the ship phase in the ShipPhase state |
| Waves.Wave.ShipMissesAsteroids | wave.py:198-204 | when no asteroid hits the ship, a UFO hit ends the frame and otherwise the frame goes on, both as ShipPhase says |
| Waves.Wave.ShipCrash | wave.py:188-195 | one life less, no ship, and the hit asteroid removed with its fragments appended |
| Waves.Wave.MoveAsteroidsUntilHit | wave.py:181-188 | asteroids move one by one until the first that hits; those after it stay unmoved |
| Waves.Wave.MoveOne | wave.py:181-188 | asteroid i moves and is checked against the object; the moved prefix grows by one |
| Waves.Wave.UfoTurn | wave.py:210-214 | the UFO step gives the UfoPhase state |
| Game.Keyed | app.py:184-202 | 's' takes INACTIVE to WELCOME, a paused game to CONTINUE unpaused, and WELCOME to LOADING; without 's' the state stays; 'n' toggles the sound exactly when the state is then WELCOME; COMPLETE ignores the keys |
| Game.Planetoids.Start | app.py:113-168 | the game starts INACTIVE, without a wave, unpaused, with sound on, SHIP_LIVES and UFO_LIVES, and satisfies the invariant |
| Game.Planetoids.HandleKeys | app.py:184-202 | the control fields become the Keyed function of the old ones |
| Game.Planetoids.WelcomeState | app.py:344-356 | the state becomes LOADING |
| Game.Planetoids.InactiveAst | app.py:263-281 | the state becomes COMPLETE and the wave is dropped |
| Game.Planetoids.InactiveShip | app.py:283-308 | at most one life: COMPLETE without a wave; otherwise PAUSED, paused, lives copied from the wave, and a new ship from the level |
| Game.Planetoids.SyncCounters | app.py:245-247 | copying the wave's counters never changes the game's own life count |
| Game.Planetoids.Update | app.py:171-226 | outside LOADING, CONTINUE and ACTIVE (after the keys) nothing but the key fields changes; otherwise the frame of the resumed or new wave decides: cleared, COMPLETE; ship lost with at most one life, COMPLETE; ship lost otherwise, PAUSED with one life less and a new ship; else ACTIVE with the wave's new state; the invariant holds after every frame that does not raise |
| Game.Planetoids.Dispatch | app.py:204-226 | after the keys: COMPLETE, PAUSED, INACTIVE and WELCOME change nothing; LOADING runs the frame from the initial snapshot of a fresh wave, CONTINUE and ACTIVE from the current wave; the frame ends as the Frame predicate says, with the invariant restored |
| Game.Planetoids.LoadWave | app.py:213-226 | LOADING creates a fresh wave of the level and becomes ACTIVE; its first frame raises exactly when the step from the initial snapshot is None, and otherwise ends as the Frame predicate says |
| Game.Planetoids.ResumeWave | app.py:209-226 | CONTINUE and ACTIVE run the current wave one frame; it raises exactly when the step is None, and otherwise ends as the Frame predicate says, with the same wave |
| Game.Planetoids.RunWave | app.py:219-226 | the wave's frame followed by inactive_ast or inactive_ship ends as the Frame predicate says, with the invariant restored |
| Game.Planetoids.Settle | app.py:219-226 | a frame that cleared the wave completes the game; a lost ship completes it at one life or pauses it with the wave's lives and a new ship; otherwise the game stays ACTIVE; the invariant holds again |

## Left out

- Rendering: every `draw` method, all labels and `welcome` (app.py:228-261 and 310-342, wave.py:218-245). Of `draw`, only the copy of the two life counters is modelled (`SyncCounters`).
- Sound playback (wave.py:299-301). The wave keeps the sound flag it is given, and nothing plays.
- JSON loading (`load_json`) and the game2d base classes. The level is a `Level` value given to the model.
- The `Ship` class is not part of this model. `turn_left`, `turn_right`, `apply_thrust`, `x_wrap`, `y_wrap` and the constructor are parameters, assumed only to keep the facing a unit vector.
- `newShip` is the pure function `NewShip`. Converting the angle from degrees is left to the ship's constructor.
- Floating point: every coordinate is a `real`. `sqrt`, `cos` and `sin` are abstract, with only these facts: the square root of a non-negative number squares back to it, and `sin 120°` squared is 3/4. Rounding is not modelled.
- Randomness: the UFO's position and direction are the parameters of `UfoDraw`, in the ranges `randrange` and `random` produce.
- `Models.UfoVelocity`: requires the random direction not to be (0, 0). In the source, normalising a zero vector would raise; the model does not cover that case.
- Size tags other than 'small', 'medium' and 'large' are not representable. The asteroid initializer would leave the radius unbound for such a tag.
- `normalize()` in `breaking_asteroids` changes the velocity object in place. When the object is the ship, the ship is dropped in the same frame, so the model only uses the normalised copy.
- `WaveRules.Pass`: each bullet is culled and then checked for hits in one pass of the loop. A bullet's velocity is required to be non-zero, as every bullet fired along a unit facing is.
- The `dt` parameter, which is unused, and the debug `print` calls in `new_UFO`.
- `getLives` and `getUFOLives` (wave.py:55-71) are read as the fields `lives` and `ufoLives`.
- Entities are values held in the wave's sequences. An in-place change of `x` or `y` is the replacement of that element, and no entity is shared, so no aliasing is lost.
- Exceptions: a frame that raises gives `None` or `ok == false`. The model does not say what state is left behind.
