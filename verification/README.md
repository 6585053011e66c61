# Top-down shooter core: scheduler, level scan and player state machines

A Dafny model of the deterministic core of a pygame top-down shooter
(`main.py`, `player.py`). Every piece is a pure function of an immutable
record plus explicit inputs: the millisecond tick `now` that the game reads
from pygame's clock, the keyboard and mouse snapshot, and the tuning
constants of `settings.py` (weapon firing intervals, magazine sizes,
weights, aim wobble, player speed, melee box size), which are fields of a
`Config` record. Its `Valid()` predicate requires the values the code
divides by or counts with to be positive.

Modules:

- `Scheduler` (`scheduler.dfy`) models `Game.update_pathfinding_queue`. Once
  per window of more than 5000 ms it gives exactly one mob, in group order,
  permission to run a path search. The group is a sequence of
  `can_find_path` flags. The model proves the round-robin order and
  fairness over `n` windows. It also proves the as-written behaviour after
  the group shrinks past the cursor: no mob is ever flagged again.
- `Level` (`level.dfy`) models the tile scan of `Game.new`. It finds wall,
  mob, player and weapon positions at `(col*TILESIZE, row*TILESIZE)` in
  row-major order. The graph's wall list is recovered from the wall pixels
  by floor division, so it equals the wall tiles exactly.
- `Player` (`player.dfy`) holds the player record and its invariant
  `Wellformed`, stamina drain and recovery, the firing gate of `shoot` and
  `reload`.
- `Controls` (`controls.dfy`) covers weapon selection, movement, combat
  (left click, R, right click), melee-box expiry and the frame's
  `process_input` pass.
- `Compass` (`compass.dfy`) covers `update_direction` and the melee-box
  placement of `swing_weapon`.
- `Animation` (`animation.dfy`) covers the frame-index arithmetic of
  `animate`.
- `Pickup` (`pickup.dfy`) covers `pickup_item`. Its two `KeyError` paths
  are the `Failure` outcome.
- `Geometry` (`geometry.dfy`) gives pygame `Rect` semantics on integers.
  `Options` (`options.dfy`) holds `Option` and `Result`.

The code resets the scheduler's cursor only when it equals the mob count
(main.py:561-562), not when it is past it. `Scheduler.Step` models that;
see Findings.

## Model

| member | source | states |
|---|---|---|
| Scheduler.Initial | main.py:244-245 | A new level starts with the cursor at 0 and the last window at tick 0. |
| Scheduler.Step | main.py:550-569 | Nothing changes unless `now - last > 5000` (strict). A firing window stamps `now`, resets the cursor to 0 only when it equals the mob count, flags exactly the mob at that position (or none if the cursor is past the end) and advances the cursor by one. |
| Scheduler.UpdatePathfindingQueue | main.py:558-569 | The loop over the group with a running `count` computes the same schedule and flags as `Step`. |
| Scheduler.StepKeepsCursorInRange | main.py:561-569 | With at least one mob and the cursor at most the mob count, the cursor stays at most the mob count (and at least 1 after a firing window). |
| Scheduler.FiringFlagsExactlyOne | main.py:561-568 | With the cursor in range, a firing window flags exactly one mob, the one at the wrapped cursor position. |
| Scheduler.RoundRobin | main.py:558-569 | Over consecutive firing windows with a stable group, the i-th window flags exactly the mob i positions after the first flagged one, wrapping around the group. |
| Scheduler.TurnOffsetInverse | main.py:561-569 | Counting windows from the first flagged position with wrap-around is a bijection on the group: each position comes up at exactly one offset, and each offset names exactly one position. |
| Scheduler.EachMobOncePerRound | main.py:550-569 | Over any n consecutive firing windows with a stable group of n mobs and the cursor in range, every mob is flagged in exactly one window. |
| Scheduler.RunAppend | main.py:558-569 | Calling the code for the ticks `a` and then `b` is the same as calling it for `a + b`: the second part starts from the schedule and the flags the first part left. |
| Scheduler.RunPrefixKeepsFiring | main.py:559-569 | After any firing prefix of a run the cursor is still in range and the remaining ticks still fire. |
| Scheduler.EveryRoundFair | main.py:550-569 | In a run of any length, any `n` consecutive firing windows, wherever they start, flag every one of the `n` mobs exactly once. |
| Scheduler.PastEndNeverFlags | main.py:561-569 | Once the cursor is past the last mob, it never decreases and no call flags a mob that was not already flagged. |
| Scheduler.PastEndStarves | main.py:559-569 | Once the cursor is past the last mob, every firing window clears all flags and the cursor grows by one per window, never resetting. |
| Scheduler.ShrinkStarvesRemainingMobs | main.py:561-569 | Three mobs with the cursor at 3, one dies: the next three windows flag nobody and the cursor reaches 6. |
| Scheduler.StepCorrected | main.py:561-562 | With the reset on `>=`, every firing window over a non-empty group flags exactly one mob and leaves the cursor in 1..n, whatever the cursor was. |
| Scheduler.CorrectedAgrees | main.py:561-562 | With the cursor in range the corrected step equals the code's step. The round-robin and fairness lemmas therefore hold for the corrected step, which itself returns a stranded cursor to range after one window. |
| Level.LoadLevel | main.py:223-243 | Walls, mobs and weapon pickups are the top-left pixels of exactly their '1', 'E' and 'W' tiles in row-major order. The argument passed to the player's constructor is the pixel of the last 'P' tile. The graph's walls are exactly the '1' tiles. |
| Level.TilesPixelsRoundTrip | main.py:229-243 | Scaling tiles to pixels and floor-dividing back gives the same tiles in the same order. |
| Level.ScaleDivides | main.py:243 | `(c * size) // size == c` for a positive tile size. |
| Level.RowCellsMembers | main.py:227-235 | A tile is listed for a character exactly when it is on that row, inside it and holds that character. |
| Level.CellsMembers | main.py:226-235 | A tile is listed for a character exactly when it is inside the map and holds that character. |
| Level.RowCellsOrdered | main.py:227-233 | A row's listed tiles are on that row, inside it, and strictly left to right. |
| Level.CellsOrdered | main.py:226-233 | The listed tiles are in strict row-major order (so each appears once) and inside the map's rows. |
| Level.WallsAndMobsDisjoint | main.py:228-233 | No tile is both a wall and a mob spawn. |
| Player.Spawn | player.py:33-90 | A new player has half the maximum health (floor), the knife in hand (main.py:159-160), no firearm, no canned animation, faces east, has no melee box, starts with the given stamina and both stamina timers at 0, and satisfies the invariant. |
| Player.DecreaseStamina | player.py:92-103 | Acts only when more than 75 ms have passed since the last drain. It then stamps `now` and sets stamina to `max(stamina - rate, 0)`. Otherwise nothing changes. |
| Player.IncreaseStamina | player.py:105-117 | At or above 100, stamina becomes exactly 100 and the timer stays. Below 100, when more than 250 ms have passed, it grows by `rate` and stamps `now`, overshooting 100 by less than `rate`. Otherwise nothing changes. |
| Player.DrainOncePerTick | player.py:99-101 | A second drain in the same tick does nothing. |
| Player.RecoverySettlesPerTick | player.py:111-117 | Two recoveries in the same tick leave stamina at most 100, and a third changes nothing. |
| Player.StaminaStaysNonNegative | player.py:98-117 | Neither stamina operation makes non-negative stamina negative (for a non-negative recovery rate). |
| Player.FireWeapon | player.py:119-141 | Fires only when `now - last_shot > rate`. A shot stamps `now`, takes exactly one round from the magazine however many pellets it fires, and sets the recoil velocity. Otherwise nothing changes. Other weapons are untouched. |
| Player.ReloadWeapon | player.py:143-153 | Uses one spare magazine and fills the magazine to the clip size. The action and canned action become reload, the frame is 0 and the static animation starts. Nothing else changes. |
| Player.ShootAndReloadKeepWellformed | player.py:189-201 | Shooting a loaded weapon and reloading with a spare magazine keep the invariant (no negative ammunition, no over-full magazine). |
| Controls.SelectWeapon | player.py:216-236 | Switches to the selectable weapon of best rank (1 rifle, 2 shotgun, 3 handgun, 4 knife): its key is held, it is owned and it is not in hand. The frame resets to 0. It switches whenever such a weapon exists and otherwise changes nothing. |
| Controls.HoldingTwoSlotsAlternates | player.py:223-228 | Holding 1 and 2 with both weapons owned flips rifle to shotgun and back on successive calls. |
| Controls.HandleMovement | player.py:238-286 | Each held key sets its velocity component to the walking speed, doubled when sprinting (D over A, S over W), sets the action to move and the wobble. Sprinting drains stamina exactly as one drain does. Walking applies one recovery per held key. With no key held nothing changes. |
| Controls.RecoverTimesSettles | player.py:266-286 | Any number of same-tick recoveries from two on equals two. |
| Controls.WalkingSettlesStamina | player.py:266-286 | Walking with two or more keys held ends with stamina at most 100. |
| Controls.SwingWeapon | player.py:288-317 | The melee box has the template's size, is placed on the facing side of the hit rectangle, does not overlap it, and is stamped `now`. |
| Controls.UpdateMeleeBox | player.py:385-392 | The melee box is removed once more than 100 ms have passed since it was placed. Otherwise nothing changes. |
| Controls.MeleeBoxLifetimeAfterSwing | player.py:385-392 | A box placed by a swing at time `t` survives an update exactly while at most 100 ms have passed, and it is then the box placed for the facing. |
| Controls.HandleCombat | player.py:179-214 | Left click shoots a loaded firearm, or reloads an empty one when a spare exists and no static animation plays. R reloads unless a reload is already the action. The knife never shoots or reloads. At most one reload happens per call. The right click swings when stamina is left and no reload is the action, and costs one drain by the weapon's weight. The resulting action, magazine, spares and shot time are given exactly. The velocity becomes the recoil exactly when a shot fires. Without a swing the melee box and its time are kept. Health, facing, rotation, hit rectangle and animation clock never change. |
| Controls.CombatKeepsWellformed | player.py:179-214 | Combat keeps the invariant. |
| Controls.RecoverTimesNonNegative | player.py:266-286 | Repeated same-tick recoveries keep stamina non-negative. |
| Controls.SelectionAndMovementKeepWellformed | player.py:216-286 | Weapon selection and movement keep the invariant. |
| Controls.ProcessInput | player.py:155-177 | The facing follows the given rotation. While a static animation plays, the weapon, arsenal, shot time, melee box and canned action are untouched. An idle player gets the weapon's idle wobble. A held movement key makes the action non-idle. A player left idle has zero velocity and gets one stamina recovery by `1 / weight`. |
| Controls.ProcessInputKeepsWellformed | player.py:155-177 | A frame's input pass keeps the invariant. |
| Compass.UpdateDirection | player.py:411-441 | For rot in (-180, 180] the direction is the sector `(centre - 22.5, centre + 22.5]` (modulo 360) that contains rot. Outside that range the direction is unchanged. |
| Compass.SectorsDisjoint | player.py:426-441 | No rotation in (-180, 180] lies in two sectors. |
| Compass.UpdateDirectionIsSector | player.py:426-441 | In range, the result is a direction exactly when rot lies in that direction's sector. |
| Compass.MeleeBox | player.py:293-317 | For each of the eight facings, the box's near edge meets the hit rectangle's far edge on each axis the facing points along, and is centred on it along an axis it does not point along. The size is kept. |
| Compass.MeleeBoxOutsideHitRect | player.py:293-317 | The melee box never overlaps the hit rectangle. |
| Animation.Animate | player.py:319-348 | A looping animation keeps the frame inside its strip and advances it cyclically when its frame time has strictly passed. A canned animation advances when due, and ends at frame 0 once the index runs off its strip. |
| Animation.AnimateKeepsWellformed | player.py:319-348 | Animation keeps the invariant. |
| Animation.CannedAnimationPlaysThrough | player.py:334-348 | A canned animation started at frame 0 is at frame k after k due ticks (k < n) and has ended after exactly n due ticks. |
| Pickup.PickupItem | player.py:350-383 | Fails exactly for a knife pickup and for ammunition while holding the knife. An owned weapon adds its boost to the spare magazines and leaves the magazine unchanged. A new weapon becomes owned with spares `boost - 1` and a full magazine. Ammunition adds spares to the weapon in hand. Health adds the boost with no cap. |
| Pickup.PickupKeepsWellformed | player.py:356-379 | A successful pickup with at least one magazine keeps the invariant. |
| Pickup.HealthPickupExceedsMaximum | player.py:380-383 | As written, a health pack taken at maximum health leaves health above the maximum. |
| Pickup.CappedHealthPickup | player.py:380-383 | Health grows by the boost but never past the maximum. |

## Left out

- A* search, the weighted graph and `find_path` (main.py:248-257): `pathfinding.py` is not part of this model. Only the wall list handed to the graph is modelled.
- Obstacle collision (`collide_with_obstacles`, `collide_hit_rect`): `core_functions.py` is not part of this model.
- Asset, sound, font and music loading, drawing, HUD, fog and event polling (main.py:54-205, main.py:341-548): input/output and presentation.
- Sprite collision and damage handling in `Game.update` (main.py:279-339): these use pygame group collisions, randomness and sound.
- The sprite constructors `Obstacle`, `Mob` and `WeaponPickup`: only the positions they receive are modelled.
- Position integration in `Player.update` (player.py:443-457): it uses the floating-point frame time and the unseen collision routine.
- The player's pixel position in `Player.__init__` (player.py:77): not modelled. Note that it multiplies the pixel arguments from `Game.new` by `TILESIZE` again.
- `update_rotation` (player.py:394-409): its floating-point `angle_to` is computed by the caller and passed in as `rot`.
- Controls.ProcessInput: the diagonal velocity scaling by 0.7071 (player.py:172-173) is not applied. It is floating-point numerics.
- Player.FireWeapon: bullet creation, random spread, the muzzle flash and sounds (player.py:127-140) are left out. The recoil vector (a rotation by `-rot`) is computed by the caller and passed in as `kickback`.
- Sounds played on weapon selection and pickup: audio only.
- Animation.Animate: image selection and `rotozoom` are presentation. Each strip's frame count and frame time are a parameter.
- Pickup.PickupItem: the ammunition branch while holding the knife (player.py:368-377) always raises `KeyError`, because `enumerate` yields integer keys. It is the `Failure` outcome, and no intent is invented for it.

- Clock reads: each handler reads `pg.time.get_ticks()` again inside every `decrease_stamina`, `increase_stamina`, `shoot` and `swing_weapon` call (player.py:98, 112, 124, 296). The model passes one `now` to the whole frame. Player.DrainOncePerTick, Controls.RecoverTimesSettles, Controls.WalkingSettlesStamina and the "one drain" of Controls.HandleMovement rely on that single reading. With a millisecond tick between two reads, a second drain or recovery could happen in the same frame.
- Floating point: stamina, rotation, velocity, weights and wobble are Python floats. The model uses exact reals, so equalities such as `IncreaseStamina`'s "grows by exactly `rate`" hold for reals but are not bit-exact claims about floats.
- Scheduler.RoundRobin: stated for at most `n` windows (one round), because `Turn` counts offsets below `n`. Scheduler.EveryRoundFair carries fairness to every later round of an arbitrarily long run, but the exact order of flagged mobs across rounds follows only by applying Scheduler.RoundRobin to each round.
- Animation.Animate: strips are assumed non-empty. The code would raise `ZeroDivisionError` on an empty looping strip (player.py:328); that error path is not modelled.

## Findings

| source | as written | input that shows it | evidently intended | confidence | as-written member | corrected member |
|---|---|---|---|---|---|---|
| main.py:561-562 | The cursor is reset only when it equals the mob count. | Three mobs; the third is flagged, so the cursor becomes 3. Then one mob dies. No mob is flagged in any later window, and the cursor keeps growing. | Reset whenever the cursor is at or past the mob count, so that a stranded cursor re-enters range after one window and the group is served round-robin again. | high; not executed | Scheduler.ShrinkStarvesRemainingMobs | Scheduler.StepCorrected |
| player.py:382-383 | The clamp assigns `self.heatlh`, so health is never capped. | Health 100 with a maximum of 100 and a pack of 20: health becomes 120. | Set `health` to the maximum when it exceeds it. | high; not executed | Pickup.HealthPickupExceedsMaximum | Pickup.CappedHealthPickup |

Both corrected definitions stand beside the as-written ones. The rest of the model keeps the code's behaviour, so that its other properties describe the program as it is.
