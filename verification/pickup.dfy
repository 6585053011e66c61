/**
 player.py `pickup_item`: what a collected item does to the player.
 The item kinds are a closed set. The Python code raises `KeyError` on two
 paths; they are the `Failure` outcome here.
 */
module Pickup {
  import opened Options
  import opened Settings
  import opened Player

  /** A collected item: a weapon with spare magazines, an ammunition box, or a health pack. */
  datatype Item =
    | WeaponItem(kind: Weapon, ammoBoost: int)
    | AmmoItem(boost: int)
    | HealthItem(boost: int)

  /** The arsenal lookup the Python code performs has no such key. */
  datatype PickupError = MissingArsenalKey

  /**
   The paths that raise: a knife pickup reaches the knife's entry, which
   has no spare-magazine count, and an ammunition box collected while the
   knife is held looks the arsenal up by list position, which is not a key.
   */
  predicate Raises(p: PlayerState, item: Item)
  {
    (item.WeaponItem? && item.kind == Knife) || (item.AmmoItem? && p.weapon == Knife)
  }

  /**
   `pickup_item`. A weapon already owned adds its spare magazines and leaves
   the magazine alone; a new weapon becomes owned with a full magazine and
   one spare magazine fewer than the boost (the full magazine counts as
   one). Ammunition adds spare magazines to the weapon in hand. Health is
   added with no upper bound, as written.
   */
  function PickupItem(p: PlayerState, item: Item, cfg: Config): (r: Result<PlayerState, PickupError>)
    ensures r.Failure? <==> Raises(p, item)
    ensures r.Success? ==> r.value == p.(arsenal := r.value.arsenal, health := r.value.health)
    ensures r.Success? && item.WeaponItem? ==>
              var wp := item.kind;
              && r.value.health == p.health
              && r.value.arsenal.Owns(wp)
              && (forall v :: v != Knife && v != wp ==> r.value.arsenal.Get(v) == p.arsenal.Get(v))
              && (p.arsenal.Get(wp).hasWeapon ==>
                    && r.value.arsenal.Get(wp).reloads == p.arsenal.Get(wp).reloads + item.ammoBoost
                    && r.value.arsenal.Get(wp).clip == p.arsenal.Get(wp).clip)
              && (!p.arsenal.Get(wp).hasWeapon ==>
                    && r.value.arsenal.Get(wp).reloads == item.ammoBoost - 1
                    && r.value.arsenal.Get(wp).clip == cfg.Spec(wp).clipSize)
    ensures r.Success? && item.AmmoItem? ==>
              && r.value.health == p.health
              && r.value.arsenal.Get(p.weapon) == p.arsenal.Get(p.weapon).(reloads := p.arsenal.Get(p.weapon).reloads + item.boost)
              && (forall v :: v != Knife && v != p.weapon ==> r.value.arsenal.Get(v) == p.arsenal.Get(v))
    ensures r.Success? && item.HealthItem? ==>
              r.value.arsenal == p.arsenal && r.value.health - p.health == item.boost
  {
    match item
    case WeaponItem(wp, boost) =>
      if wp == Knife then
        Failure(MissingArsenalKey)
      else
        var s := p.arsenal.Get(wp);
        if s.hasWeapon then
          Success(p.(arsenal := p.arsenal.Put(wp, s.(reloads := s.reloads + boost))))
        else
          Success(p.(arsenal := p.arsenal.Put(wp, Slot(cfg.Spec(wp).clipSize, boost - 1, true))))
    case AmmoItem(boost) =>
      if p.weapon == Knife then
        Failure(MissingArsenalKey)
      else
        var s := p.arsenal.Get(p.weapon);
        Success(p.(arsenal := p.arsenal.Put(p.weapon, s.(reloads := s.reloads + boost))))
    case HealthItem(boost) =>
      Success(p.(health := p.health + boost))
  }

  /** Items that carry at least one magazine (weapons) or a non-negative boost (ammunition) keep the invariant. */
  lemma PickupKeepsWellformed(p: PlayerState, item: Item, cfg: Config)
    requires Wellformed(p, cfg) && cfg.Valid()
    requires item.WeaponItem? ==> item.ammoBoost >= 1
    requires item.AmmoItem? ==> item.boost >= 0
    ensures PickupItem(p, item, cfg).Success? ==> Wellformed(PickupItem(p, item, cfg).value, cfg)
  {
  }

  /**
   As written, a health pack taken at full health leaves the player above
   the maximum: the clamp assigns a misspelled attribute instead of `health`.
   */
  lemma HealthPickupExceedsMaximum(p: PlayerState, boost: int, maxHealth: int, cfg: Config)
    requires p.health == maxHealth && boost > 0
    ensures PickupItem(p, HealthItem(boost), cfg).Success?
    ensures PickupItem(p, HealthItem(boost), cfg).value.health > maxHealth
  {
  }

  /**
   The health pack as evidently intended: health grows by the boost but
   never past `maxHealth`.
   */
  function CappedHealthPickup(p: PlayerState, boost: int, maxHealth: int): (q: PlayerState)
    ensures q == p.(health := q.health)
    ensures q.health <= maxHealth
    ensures p.health + boost <= maxHealth ==> q.health - p.health == boost
    ensures p.health + boost > maxHealth ==> q.health == maxHealth
  {
    var h := p.health + boost;
    p.(health := if h > maxHealth then maxHealth else h)
  }
}
