/**
 The per-frame input handlers of player.py: weapon selection, movement,
 combat (shoot, reload, melee) and the frame's input pass that runs them.
 Keyboard and mouse state arrive as a snapshot; the mouse-derived rotation
 and the recoil vector are computed by the caller.
 */
module Controls {
  import opened Options
  import opened Geometry
  import opened Settings
  import opened Compass
  import opened Player

  /** The keys the player code polls: movement, sprint, reload and weapon slots 1-4. */
  datatype Keys = Keys(a: bool, d: bool, w: bool, s: bool, space: bool, r: bool,
                       one: bool, two: bool, three: bool, four: bool)

  /** The left and right mouse buttons. */
  datatype Mouse = Mouse(left: bool, right: bool)

  /** Milliseconds a melee box stays in the world. */
  const MeleeBoxLifetime: int := 100

  // ----- weapon selection -----

  /** The key that selects each weapon. */
  predicate SelectKey(keys: Keys, wp: Weapon)
  {
    match wp
    case Rifle => keys.one
    case Shotgun => keys.two
    case Handgun => keys.three
    case Knife => keys.four
  }

  /** Selection priority: a smaller number wins when several keys are held. */
  function Rank(wp: Weapon): nat
  {
    match wp
    case Rifle => 0
    case Shotgun => 1
    case Handgun => 2
    case Knife => 3
  }

  /** `wp` may be switched to: its key is held, it is owned, and it is not already in hand. */
  predicate Selectable(p: PlayerState, keys: Keys, wp: Weapon)
  {
    SelectKey(keys, wp) && p.arsenal.Owns(wp) && wp != p.weapon
  }

  /**
   `handle_weapon_selection`: switch to the selectable weapon of best rank,
   restarting the animation, or change nothing when no weapon is selectable.
   */
  function SelectWeapon(p: PlayerState, keys: Keys): (q: PlayerState)
    ensures q == p.(weapon := q.weapon, currentFrame := q.currentFrame)
    ensures q.weapon == p.weapon ==> q == p
    ensures q.weapon != p.weapon ==> Selectable(p, keys, q.weapon) && q.currentFrame == 0
    ensures q.weapon != p.weapon ==> forall v :: Rank(v) < Rank(q.weapon) ==> !Selectable(p, keys, v)
    ensures (exists v :: Selectable(p, keys, v)) ==> q.weapon != p.weapon
  {
    if keys.one && p.arsenal.rifle.hasWeapon && p.weapon != Rifle then
      p.(currentFrame := 0, weapon := Rifle)
    else if keys.two && p.arsenal.shotgun.hasWeapon && p.weapon != Shotgun then
      p.(currentFrame := 0, weapon := Shotgun)
    else if keys.three && p.arsenal.handgun.hasWeapon && p.weapon != Handgun then
      p.(currentFrame := 0, weapon := Handgun)
    else if keys.four && p.weapon != Knife then
      p.(currentFrame := 0, weapon := Knife)
    else
      p
  }

  /**
   Holding keys 1 and 2 with both weapons owned flips between rifle and
   shotgun on every call: the weapon in hand is never selectable, so the
   next held key wins.
   */
  lemma HoldingTwoSlotsAlternates(p: PlayerState, keys: Keys)
    requires keys.one && keys.two
    requires p.arsenal.rifle.hasWeapon && p.arsenal.shotgun.hasWeapon
    requires p.weapon == Rifle
    ensures SelectWeapon(p, keys).weapon == Shotgun
    ensures SelectWeapon(SelectWeapon(p, keys), keys).weapon == Rifle
  {
  }

  // ----- movement -----

  /** Number of movement keys held. */
  function HeldMoveKeys(keys: Keys): nat
  {
    (if keys.a then 1 else 0) + (if keys.d then 1 else 0) + (if keys.w then 1 else 0) + (if keys.s then 1 else 0)
  }

  /** `k` stamina recoveries in the same tick. */
  function RecoverTimes(st: Stamina, now: int, rate: real, k: nat): Stamina
    decreases k
  {
    if k == 0 then st else RecoverTimes(IncreaseStamina(st, now, rate), now, rate, k - 1)
  }

  /** Only the first two recoveries within one tick can have an effect. */
  lemma {:induction false} RecoverTimesSettles(st: Stamina, now: int, rate: real, k: nat)
    requires k >= 2
    ensures RecoverTimes(st, now, rate, k) == RecoverTimes(st, now, rate, 2)
    decreases k
  {
    if k > 2 {
      var s1 := IncreaseStamina(st, now, rate);
      var s2 := IncreaseStamina(s1, now, rate);
      RecoverTimesSettles(s1, now, rate, k - 1);
      RecoverySettlesPerTick(st, now, rate);
      calc {
        RecoverTimes(st, now, rate, k);
        RecoverTimes(s1, now, rate, k - 1);
        RecoverTimes(s1, now, rate, 2);
        IncreaseStamina(s2, now, rate);
        s2;
        RecoverTimes(st, now, rate, 2);
      }
    }
  }

  /** One more recovery after `k` of them is `k + 1` recoveries. */
  lemma {:induction false} RecoverTimesSnoc(st: Stamina, now: int, rate: real, k: nat)
    ensures RecoverTimes(st, now, rate, k + 1) == IncreaseStamina(RecoverTimes(st, now, rate, k), now, rate)
    decreases k
  {
    if k > 0 {
      RecoverTimesSnoc(IncreaseStamina(st, now, rate), now, rate, k - 1);
    }
  }

  /** What one held movement key does besides setting the velocity: action, wobble, stamina. */
  function Stride(p: PlayerState, now: int, sprint: bool, spec: WeaponSpec): (q: PlayerState)
    requires spec.weight > 0.0
  {
    if sprint then
      p.(action := Move, aimWobble := spec.sprintWobble, stamina := DecreaseStamina(p.stamina, now, spec.weight / 2.0))
    else
      p.(action := Move, aimWobble := spec.walkWobble, stamina := IncreaseStamina(p.stamina, now, 1.0 / spec.weight))
  }

  /** Sprinting is chosen once per call: space held and stamina left. */
  predicate Sprinting(p: PlayerState, keys: Keys)
  {
    keys.space && p.stamina.level > 0.0
  }

  /**
   `handle_player_movement`: each held key sets its velocity component to
   the walking speed, or twice it when sprinting (D overrides A, S
   overrides W), marks the player as moving, sets the aim wobble, and drains
   (sprint) or recovers (walk) stamina. The drain interval lets exactly one
   drain act per call, and every held key asks for one recovery.
   */
  function HandleMovement(p: PlayerState, keys: Keys, now: int, cfg: Config): (q: PlayerState)
    requires cfg.Valid()
    ensures var speed := cfg.playerSpeed as real * (if Sprinting(p, keys) then 2.0 else 1.0);
            && q.vel.x == (if keys.d then speed else if keys.a then -speed else p.vel.x)
            && q.vel.y == (if keys.s then speed else if keys.w then -speed else p.vel.y)
    ensures HeldMoveKeys(keys) == 0 ==> q == p
    ensures HeldMoveKeys(keys) > 0 ==>
              && q.action == Move
              && q.aimWobble == (if Sprinting(p, keys) then cfg.Spec(p.weapon).sprintWobble else cfg.Spec(p.weapon).walkWobble)
    ensures HeldMoveKeys(keys) > 0 && Sprinting(p, keys) ==>
              q.stamina == DecreaseStamina(p.stamina, now, cfg.Spec(p.weapon).weight / 2.0)
    ensures !Sprinting(p, keys) ==>
              q.stamina == RecoverTimes(p.stamina, now, 1.0 / cfg.Spec(p.weapon).weight, HeldMoveKeys(keys))
    ensures q == p.(vel := q.vel, action := q.action, aimWobble := q.aimWobble, stamina := q.stamina)
  {
    var sprint := keys.space && p.stamina.level > 0.0;
    var speed := cfg.playerSpeed as real * (if sprint then 2.0 else 1.0);
    var spec := cfg.Spec(p.weapon);
    var p1 := if keys.a then Stride(p.(vel := p.vel.(x := -speed)), now, sprint, spec) else p;
    var p2 := if keys.d then Stride(p1.(vel := p1.vel.(x := speed)), now, sprint, spec) else p1;
    var p3 := if keys.w then Stride(p2.(vel := p2.vel.(y := -speed)), now, sprint, spec) else p2;
    var p4 := if keys.s then Stride(p3.(vel := p3.vel.(y := speed)), now, sprint, spec) else p3;
    var rate := 1.0 / spec.weight;
    RecoverTimesSnoc(p.stamina, now, rate, 0);
    RecoverTimesSnoc(p.stamina, now, rate, 1);
    RecoverTimesSnoc(p.stamina, now, rate, 2);
    RecoverTimesSnoc(p.stamina, now, rate, 3);
    p4
  }

  /**
   Walking with two or more movement keys held settles stamina within the
   call: it ends at most full, even when a single recovery would overshoot.
   */
  lemma WalkingSettlesStamina(p: PlayerState, keys: Keys, now: int, cfg: Config)
    requires cfg.Valid() && !Sprinting(p, keys) && HeldMoveKeys(keys) >= 2
    ensures HandleMovement(p, keys, now, cfg).stamina.level <= FullStamina
  {
  }

  // ----- combat -----

  /** The left button fires: a firearm in hand with a non-empty magazine. */
  predicate LeftShoots(p: PlayerState, mouse: Mouse)
  {
    mouse.left && p.weapon != Knife && p.arsenal.Get(p.weapon).clip != 0
  }

  /** The left button reloads: a firearm with an empty magazine, a spare one, and no canned animation playing. */
  predicate LeftReloads(p: PlayerState, mouse: Mouse)
  {
    mouse.left && p.weapon != Knife && p.arsenal.Get(p.weapon).clip == 0
    && p.arsenal.Get(p.weapon).reloads > 0 && !p.playStatic
  }

  /** The R key reloads: a firearm with a spare magazine, unless a reload is already the action. */
  predicate KeyReloads(p: PlayerState, keys: Keys, mouse: Mouse)
  {
    keys.r && p.weapon != Knife && p.arsenal.Get(p.weapon).reloads > 0
    && !LeftReloads(p, mouse) && (LeftShoots(p, mouse) || p.action != Reload)
  }

  predicate Reloads(p: PlayerState, keys: Keys, mouse: Mouse)
  {
    LeftReloads(p, mouse) || KeyReloads(p, keys, mouse)
  }

  /** The right button swings: stamina left and no reload is the action. */
  predicate Swings(p: PlayerState, keys: Keys, mouse: Mouse)
  {
    mouse.right && p.stamina.level > 0.0 && !Reloads(p, keys, mouse)
    && (LeftShoots(p, mouse) || p.action != Reload)
  }

  /** `swing_weapon`: the melee box is placed against the hit rectangle on the facing side. */
  function SwingWeapon(p: PlayerState, now: int, cfg: Config): (q: PlayerState)
    ensures q.meleeBox.Some? && q.meleeBoxSpawnTime == now
    ensures !Overlap(q.meleeBox.value, p.hitRect)
    ensures q.meleeBox.value.w == cfg.meleeWidth && q.meleeBox.value.h == cfg.meleeHeight
    ensures q == p.(meleeBox := q.meleeBox, meleeBoxSpawnTime := now)
  {
    MeleeBoxOutsideHitRect(p.hitRect, p.direction, cfg.meleeWidth, cfg.meleeHeight);
    p.(meleeBox := Some(MeleeBox(p.hitRect, p.direction, cfg.meleeWidth, cfg.meleeHeight)), meleeBoxSpawnTime := now)
  }

  /** `update_melee_box`: the melee box disappears once its lifetime has strictly passed. */
  function UpdateMeleeBox(p: PlayerState, now: int): (q: PlayerState)
    ensures now - p.meleeBoxSpawnTime > MeleeBoxLifetime ==> q.meleeBox == None
    ensures now - p.meleeBoxSpawnTime <= MeleeBoxLifetime ==> q == p
    ensures q == p.(meleeBox := q.meleeBox)
  {
    if now - p.meleeBoxSpawnTime > MeleeBoxLifetime then p.(meleeBox := None) else p
  }

  /** A box placed by a swing at `t` survives an update at `now` exactly while at most 100 ms have passed. */
  lemma MeleeBoxLifetimeAfterSwing(p: PlayerState, t: int, now: int, cfg: Config)
    ensures var q := UpdateMeleeBox(SwingWeapon(p, t, cfg), now);
            && (q.meleeBox.Some? <==> now - t <= MeleeBoxLifetime)
            && (q.meleeBox.Some? ==> q.meleeBox.value == MeleeBox(p.hitRect, p.direction, cfg.meleeWidth, cfg.meleeHeight))
  {
  }

  /**
   `handle_combat_controls`: the left button shoots a loaded firearm or
   reloads an empty one, R reloads, the right button swings. At most one
   reload happens per call, the knife's arsenal is never touched, and a
   swing costs stamina by the weapon's weight. `kickback` is the recoil a
   shot gives.
   */
  function HandleCombat(p: PlayerState, keys: Keys, mouse: Mouse, now: int, kickback: Velocity, cfg: Config): (q: PlayerState)
    ensures q.weapon == p.weapon
    ensures p.weapon == Knife ==> q.arsenal == p.arsenal
    ensures p.weapon != Knife ==>
              && q.arsenal.Get(p.weapon).reloads == p.arsenal.Get(p.weapon).reloads - (if Reloads(p, keys, mouse) then 1 else 0)
              && q.arsenal.Get(p.weapon).clip ==
                   (if Reloads(p, keys, mouse) then cfg.Spec(p.weapon).clipSize
                    else if LeftShoots(p, mouse) && CanFire(p, now, cfg) then p.arsenal.Get(p.weapon).clip - 1
                    else p.arsenal.Get(p.weapon).clip)
              && q.arsenal.Get(p.weapon).hasWeapon == p.arsenal.Get(p.weapon).hasWeapon
              && forall v :: v != Knife && v != p.weapon ==> q.arsenal.Get(v) == p.arsenal.Get(v)
    ensures q.lastShot == (if LeftShoots(p, mouse) && CanFire(p, now, cfg) then now else p.lastShot)
    ensures q.vel == (if LeftShoots(p, mouse) && CanFire(p, now, cfg) then kickback else p.vel)
    ensures q.action ==
              (if Swings(p, keys, mouse) then Melee
               else if Reloads(p, keys, mouse) then Reload
               else if LeftShoots(p, mouse) then Shoot
               else p.action)
    ensures Swings(p, keys, mouse) ==>
              && q.canned == Some(Melee) && q.playStatic && q.currentFrame == 0
              && q.meleeBox == Some(MeleeBox(p.hitRect, p.direction, cfg.meleeWidth, cfg.meleeHeight))
              && q.meleeBoxSpawnTime == now
              && q.stamina == DecreaseStamina(p.stamina, now, cfg.Spec(p.weapon).weight)
    ensures !Swings(p, keys, mouse) ==>
              q.meleeBox == p.meleeBox && q.meleeBoxSpawnTime == p.meleeBoxSpawnTime && q.stamina == p.stamina
              && (Reloads(p, keys, mouse) ==> q.canned == Some(Reload) && q.playStatic && q.currentFrame == 0)
              && (!Reloads(p, keys, mouse) ==> q.canned == p.canned && q.playStatic == p.playStatic && q.currentFrame == p.currentFrame)
    ensures q == p.(action := q.action, arsenal := q.arsenal, lastShot := q.lastShot, vel := q.vel,
                    stamina := q.stamina, meleeBox := q.meleeBox, meleeBoxSpawnTime := q.meleeBoxSpawnTime,
                    canned := q.canned, playStatic := q.playStatic, currentFrame := q.currentFrame)
  {
    var p1 :=
      if mouse.left && p.weapon != Knife then
        if p.arsenal.Get(p.weapon).clip != 0 then
          FireWeapon(p.(action := Shoot), now, kickback, cfg)
        else if p.arsenal.Get(p.weapon).reloads > 0 && !p.playStatic then
          ReloadWeapon(p, cfg)
        else
          p
      else
        p;
    var p2 :=
      if keys.r && p1.weapon != Knife && p1.action != Reload && p1.arsenal.Get(p1.weapon).reloads > 0 then
        ReloadWeapon(p1, cfg)
      else
        p1;
    if mouse.right && p2.action != Reload && p2.stamina.level > 0.0 then
      var p3 := p2.(action := Melee, currentFrame := 0, canned := Some(Melee), playStatic := true);
      SwingWeapon(p3.(stamina := DecreaseStamina(p3.stamina, now, cfg.Spec(p3.weapon).weight)), now, cfg)
    else
      p2
  }

  /** Combat keeps the player's invariant. */
  lemma CombatKeepsWellformed(p: PlayerState, keys: Keys, mouse: Mouse, now: int, kickback: Velocity, cfg: Config)
    requires Wellformed(p, cfg) && cfg.Valid()
    ensures Wellformed(HandleCombat(p, keys, mouse, now, kickback, cfg), cfg)
  {
  }

  // ----- the frame's input pass -----

  /** Any number of same-tick recoveries at a non-negative rate keeps stamina non-negative. */
  lemma {:induction false} RecoverTimesNonNegative(st: Stamina, now: int, rate: real, k: nat)
    requires st.level >= 0.0 && rate >= 0.0
    ensures RecoverTimes(st, now, rate, k).level >= 0.0
    decreases k
  {
    if k > 0 {
      StaminaStaysNonNegative(st, now, 0.0, rate);
      RecoverTimesNonNegative(IncreaseStamina(st, now, rate), now, rate, k - 1);
    }
  }

  /** Weapon selection and movement keep the player's invariant. */
  lemma SelectionAndMovementKeepWellformed(p: PlayerState, keys: Keys, now: int, cfg: Config)
    requires Wellformed(p, cfg) && cfg.Valid()
    ensures Wellformed(SelectWeapon(p, keys), cfg)
    ensures Wellformed(HandleMovement(p, keys, now, cfg), cfg)
  {
  }

  /**
   `process_input` for one frame: the velocity, action and aim wobble are
   reset, the rotation `rot` (measured from the mouse by the caller) sets
   the facing, movement is handled, weapon selection and combat run only
   while no canned animation plays, and an idle player recovers stamina
   with the weapon's idle wobble.
   */
  function ProcessInput(p: PlayerState, keys: Keys, mouse: Mouse, rot: real, now: int,
                        kickback: Velocity, cfg: Config): (q: PlayerState)
    requires cfg.Valid()
    ensures q.rot == rot && q.direction == UpdateDirection(rot, p.direction)
    ensures p.playStatic ==>
              q.weapon == p.weapon && q.arsenal == p.arsenal && q.lastShot == p.lastShot
              && q.meleeBox == p.meleeBox && q.playStatic && q.canned == p.canned
    ensures q.action == Idle ==> q.aimWobble == cfg.Spec(q.weapon).idleWobble
    ensures HeldMoveKeys(keys) > 0 ==> q.action != Idle
    ensures q.action == Idle ==>
              && q.vel == Velocity(0.0, 0.0)
              && q.stamina == IncreaseStamina(p.stamina, now, 1.0 / cfg.Spec(q.weapon).weight)
    ensures q.hitRect == p.hitRect && q.health == p.health && q.lastUpdate == p.lastUpdate
  {
    var p0 := p.(rot := rot, direction := UpdateDirection(rot, p.direction),
                 vel := Velocity(0.0, 0.0), action := Idle, aimWobble := 0.0);
    var p1 := HandleMovement(p0, keys, now, cfg);
    var p2 := if !p1.playStatic then HandleCombat(SelectWeapon(p1, keys), keys, mouse, now, kickback, cfg) else p1;
    if p2.action == Idle then
      var spec := cfg.Spec(p2.weapon);
      p2.(aimWobble := spec.idleWobble, stamina := IncreaseStamina(p2.stamina, now, 1.0 / spec.weight))
    else
      p2
  }

  /** A frame's input pass keeps the player's invariant. */
  lemma ProcessInputKeepsWellformed(p: PlayerState, keys: Keys, mouse: Mouse, rot: real, now: int,
                                    kickback: Velocity, cfg: Config)
    requires Wellformed(p, cfg) && cfg.Valid()
    ensures Wellformed(ProcessInput(p, keys, mouse, rot, now, kickback, cfg), cfg)
  {
    var p0 := p.(rot := rot, direction := UpdateDirection(rot, p.direction),
                 vel := Velocity(0.0, 0.0), action := Idle, aimWobble := 0.0);
    SelectionAndMovementKeepWellformed(p0, keys, now, cfg);
    var p1 := HandleMovement(p0, keys, now, cfg);
    if !p1.playStatic {
      SelectionAndMovementKeepWellformed(p1, keys, now, cfg);
      CombatKeepsWellformed(SelectWeapon(p1, keys), keys, mouse, now, kickback, cfg);
    }
    var p2 := if !p1.playStatic then HandleCombat(SelectWeapon(p1, keys), keys, mouse, now, kickback, cfg) else p1;
    StaminaStaysNonNegative(p2.stamina, now, 0.0, 1.0 / cfg.Spec(p2.weapon).weight);
  }
}
