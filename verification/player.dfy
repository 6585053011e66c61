/**
 The player's state record (player.py `Player.__init__`) and the
 time-gated state changes every control builds on: stamina drain and
 recovery, the firing gate and the reload.

 Time is the millisecond tick count `now` of pygame's clock, passed in.
 */
module Player {
  import opened Options
  import opened Geometry
  import opened Settings
  import opened Compass

  /** Milliseconds that must pass between two stamina drains. */
  const DrainInterval: int := 75
  /** Milliseconds that must pass between two stamina recoveries. */
  const RecoveryInterval: int := 250
  /** The stamina value recovery stops at. */
  const FullStamina: real := 100.0

  /** One firearm's entry of the arsenal. */
  datatype Slot = Slot(clip: int, reloads: int, hasWeapon: bool)

  /** The arsenal; the knife has no entry beyond always being owned. */
  datatype Arsenal = Arsenal(handgun: Slot, rifle: Slot, shotgun: Slot)
  {
    function Get(wp: Weapon): Slot
      requires wp != Knife
    {
      match wp
      case Handgun => handgun
      case Rifle => rifle
      case Shotgun => shotgun
    }

    /** The arsenal with `wp`'s entry replaced and every other entry kept. */
    function Put(wp: Weapon, s: Slot): (a: Arsenal)
      requires wp != Knife
      ensures a.Get(wp) == s
      ensures forall v :: v != Knife && v != wp ==> a.Get(v) == Get(v)
    {
      match wp
      case Handgun => this.(handgun := s)
      case Rifle => this.(rifle := s)
      case Shotgun => this.(shotgun := s)
    }

    predicate Owns(wp: Weapon)
    {
      wp == Knife || Get(wp).hasWeapon
    }
  }

  /** Stamina and the two timers that pace its drain and recovery. */
  datatype Stamina = Stamina(level: real, decreaseTime: int, increaseTime: int)

  /** Velocity in pixels per second. */
  datatype Velocity = Velocity(x: real, y: real)

  datatype PlayerState = PlayerState(
    health: int,
    stamina: Stamina,
    weapon: Weapon,
    action: Action,
    arsenal: Arsenal,
    currentFrame: int,
    lastUpdate: int,
    hitRect: Rect,
    meleeBox: Option<Rect>,
    meleeBoxSpawnTime: int,
    lastShot: int,
    aimWobble: real,
    vel: Velocity,
    rot: real,
    playStatic: bool,
    canned: Option<Action>,
    direction: Direction)

  /** A firearm entry whose counters stay within their meaning. */
  predicate SlotOk(s: Slot, clipSize: int)
  {
    0 <= s.clip <= clipSize && s.reloads >= 0
  }

  /**
   The invariant the player's operations keep: no negative ammunition, no
   over-full magazine, the held weapon is owned, a canned (reload or melee)
   animation is recorded exactly while one plays, and stamina is never
   negative.
   */
  predicate Wellformed(p: PlayerState, cfg: Config)
  {
    && SlotOk(p.arsenal.handgun, cfg.handgun.clipSize)
    && SlotOk(p.arsenal.rifle, cfg.rifle.clipSize)
    && SlotOk(p.arsenal.shotgun, cfg.shotgun.clipSize)
    && p.arsenal.Owns(p.weapon)
    && (p.playStatic <==> p.canned.Some?)
    && (p.canned == None || p.canned == Some(Reload) || p.canned == Some(Melee))
    && p.currentFrame >= 0
    && p.stamina.level >= 0.0
  }

  /**
   A freshly spawned player: half of `maxHealth`, the knife in hand, idle,
   facing east, no firearm owned. `hitRect` is the physics rectangle the
   sprite is created with.
   */
  function Spawn(cfg: Config, maxHealth: int, initialStamina: real, hitRect: Rect): (p: PlayerState)
    requires cfg.Valid() && initialStamina >= 0.0
    ensures Wellformed(p, cfg)
    ensures p.weapon == Knife && p.action == Idle && !p.playStatic
    ensures 2 * p.health <= maxHealth < 2 * p.health + 2
    ensures !p.arsenal.handgun.hasWeapon && !p.arsenal.rifle.hasWeapon && !p.arsenal.shotgun.hasWeapon
    ensures p.direction == E && p.canned == None && p.meleeBox == None
    ensures p.stamina == Stamina(initialStamina, 0, 0)
  {
    var empty := Slot(0, 0, false);
    PlayerState(
      health := maxHealth / 2,
      stamina := Stamina(initialStamina, 0, 0),
      weapon := Knife,
      action := Idle,
      arsenal := Arsenal(empty, empty, empty),
      currentFrame := 0,
      lastUpdate := 0,
      hitRect := hitRect,
      meleeBox := None,
      meleeBoxSpawnTime := 0,
      lastShot := 0,
      aimWobble := 0.0,
      vel := Velocity(0.0, 0.0),
      rot := 0.0,
      playStatic := false,
      canned := None,
      direction := E)
  }

  /**
   `decrease_stamina`: at most once per drain interval, stamina drops by
   `rate`, never below zero. The recovery timer is not touched.
   */
  function DecreaseStamina(st: Stamina, now: int, rate: real): (r: Stamina)
    ensures now - st.decreaseTime <= DrainInterval ==> r == st
    ensures now - st.decreaseTime > DrainInterval ==>
              && r.decreaseTime == now && r.increaseTime == st.increaseTime
              && r.level >= 0.0 && r.level >= st.level - rate
              && (r.level == 0.0 || r.level == st.level - rate)
  {
    if now - st.decreaseTime > DrainInterval then
      var s := st.level - rate;
      st.(level := if s < 0.0 then 0.0 else s, decreaseTime := now)
    else
      st
  }

  /**
   `increase_stamina`: at or above full, stamina is set to exactly full and
   the timer is left alone; below full, at most once per recovery interval
   it grows by `rate`, which may overshoot full by less than `rate`. The
   drain timer is not touched.
   */
  function IncreaseStamina(st: Stamina, now: int, rate: real): (r: Stamina)
    ensures r.decreaseTime == st.decreaseTime
    ensures st.level >= FullStamina ==> r.level == FullStamina && r.increaseTime == st.increaseTime
    ensures st.level < FullStamina && now - st.increaseTime <= RecoveryInterval ==> r == st
    ensures st.level < FullStamina && now - st.increaseTime > RecoveryInterval ==>
              && r.increaseTime == now
              && r.level - st.level == rate
              && (rate > 0.0 ==> r.level < FullStamina + rate)
  {
    if st.level < FullStamina then
      if now - st.increaseTime > RecoveryInterval then
        st.(level := st.level + rate, increaseTime := now)
      else
        st
    else
      st.(level := FullStamina)
  }

  /** Within one tick a second drain does nothing: the first one restarted the interval. */
  lemma DrainOncePerTick(st: Stamina, now: int, r1: real, r2: real)
    ensures DecreaseStamina(DecreaseStamina(st, now, r1), now, r2) == DecreaseStamina(st, now, r1)
  {
  }

  /**
   Within one tick, two recoveries leave stamina at most full (a first
   overshoot is cut back), and any further recovery changes nothing.
   */
  lemma RecoverySettlesPerTick(st: Stamina, now: int, rate: real)
    ensures IncreaseStamina(IncreaseStamina(st, now, rate), now, rate).level <= FullStamina
    ensures var twice := IncreaseStamina(IncreaseStamina(st, now, rate), now, rate);
            IncreaseStamina(twice, now, rate) == twice
  {
  }

  /** Neither stamina operation makes stamina negative when the recovery rate is not negative. */
  lemma StaminaStaysNonNegative(st: Stamina, now: int, drain: real, gain: real)
    requires st.level >= 0.0 && gain >= 0.0
    ensures DecreaseStamina(st, now, drain).level >= 0.0
    ensures IncreaseStamina(st, now, gain).level >= 0.0
  {
  }

  /** The firing gate of `shoot`: the weapon's interval has strictly elapsed since the last shot. */
  predicate CanFire(p: PlayerState, now: int, cfg: Config)
  {
    now - p.lastShot > cfg.Spec(p.weapon).rate
  }

  /**
   `shoot` for a firearm: when the firing interval has elapsed, one round
   leaves the magazine (however many pellets the weapon fires), the shot
   time becomes `now` and the velocity becomes the recoil `kickback`;
   otherwise nothing changes. Other weapons' entries are never touched.
   */
  function FireWeapon(p: PlayerState, now: int, kickback: Velocity, cfg: Config): (q: PlayerState)
    requires p.weapon != Knife
    ensures !CanFire(p, now, cfg) ==> q == p
    ensures CanFire(p, now, cfg) ==>
              && q == p.(lastShot := now, vel := kickback, arsenal := q.arsenal)
              && q.arsenal.Get(p.weapon).clip == p.arsenal.Get(p.weapon).clip - 1
              && q.arsenal.Get(p.weapon).reloads == p.arsenal.Get(p.weapon).reloads
              && q.arsenal.Get(p.weapon).hasWeapon == p.arsenal.Get(p.weapon).hasWeapon
    ensures forall v :: v != Knife && v != p.weapon ==> q.arsenal.Get(v) == p.arsenal.Get(v)
  {
    if now - p.lastShot > cfg.Spec(p.weapon).rate then
      var s := p.arsenal.Get(p.weapon);
      p.(lastShot := now, vel := kickback, arsenal := p.arsenal.Put(p.weapon, s.(clip := s.clip - 1)))
    else
      p
  }

  /**
   `reload` for a firearm: one spare magazine is used up, the magazine is
   full, and the reload animation starts from its first frame.
   */
  function ReloadWeapon(p: PlayerState, cfg: Config): (q: PlayerState)
    requires p.weapon != Knife
    ensures q.arsenal.Get(p.weapon).reloads == p.arsenal.Get(p.weapon).reloads - 1
    ensures q.arsenal.Get(p.weapon).clip == cfg.Spec(p.weapon).clipSize
    ensures q.arsenal.Get(p.weapon).hasWeapon == p.arsenal.Get(p.weapon).hasWeapon
    ensures forall v :: v != Knife && v != p.weapon ==> q.arsenal.Get(v) == p.arsenal.Get(v)
    ensures q.action == Reload && q.canned == Some(Reload) && q.playStatic && q.currentFrame == 0
    ensures q == p.(arsenal := q.arsenal, action := Reload, canned := Some(Reload), currentFrame := 0, playStatic := true)
  {
    var s := p.arsenal.Get(p.weapon);
    p.(arsenal := p.arsenal.Put(p.weapon, s.(reloads := s.reloads - 1, clip := cfg.Spec(p.weapon).clipSize)),
       action := Reload,
       canned := Some(Reload),
       currentFrame := 0,
       playStatic := true)
  }

  /** A shot with a loaded magazine and a reload with a spare magazine keep the invariant. */
  lemma ShootAndReloadKeepWellformed(p: PlayerState, now: int, kickback: Velocity, cfg: Config)
    requires Wellformed(p, cfg) && p.weapon != Knife
    ensures p.arsenal.Get(p.weapon).clip != 0 ==> Wellformed(FireWeapon(p, now, kickback, cfg), cfg)
    ensures p.arsenal.Get(p.weapon).reloads > 0 ==> Wellformed(ReloadWeapon(p, cfg), cfg)
  {
  }
}
