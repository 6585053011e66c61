/**
 The weapons, actions and tuning constants the player code reads from
 `settings.py`. The constants themselves are not known here, so they are
 fields of a `Config` value passed to every operation that needs them.
 */
module Settings {

  datatype Weapon = Handgun | Rifle | Shotgun | Knife

  /** The value of `Player.action`; the animation table is indexed by it. */
  datatype Action = Idle | Move | Shoot | Reload | Melee

  /** One entry of `WEAPONS`: shot interval in ms, magazine size, weight and aim wobble. */
  datatype WeaponSpec = WeaponSpec(
    rate: int,
    clipSize: int,
    weight: real,
    idleWobble: real,
    walkWobble: real,
    sprintWobble: real)

  datatype Config = Config(
    handgun: WeaponSpec,
    rifle: WeaponSpec,
    shotgun: WeaponSpec,
    knife: WeaponSpec,
    playerSpeed: int,
    meleeWidth: nat,
    meleeHeight: nat)
  {
    function Spec(wp: Weapon): WeaponSpec
    {
      match wp
      case Handgun => handgun
      case Rifle => rifle
      case Shotgun => shotgun
      case Knife => knife
    }

    /** Positive weights (they are divided by), firing intervals, magazine sizes and speed. */
    predicate Valid()
    {
      && handgun.weight > 0.0 && rifle.weight > 0.0 && shotgun.weight > 0.0 && knife.weight > 0.0
      && handgun.rate > 0 && rifle.rate > 0 && shotgun.rate > 0
      && handgun.clipSize > 0 && rifle.clipSize > 0 && shotgun.clipSize > 0
      && playerSpeed > 0
    }
  }
}
