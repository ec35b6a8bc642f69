/** The Necromancy class's primary ability (`NecromancyClass.PrimaryAbility`): a shadow bolt
    whose cast is gated on the caster's mana. Spawning and aiming the bolt are reduced to a
    flag saying whether a bolt was spawned. */
module Necromancy {

  /** The class asset's settings that decide whether a bolt goes out. */
  datatype Config = Config(boltPrefabAssigned: bool, manaCost: int)

  /** Eight mana per bolt, the field's default. The prefab field defaults to null in code; a
      prefab assigned in the scene is an assumption about the scene, not an asset default. */
  const DefaultConfig: Config := Config(true, 8)

  /** Who the ability is cast for: no game object at all, a game object without a
      `PlayerController`, or one with a controller holding `mana`. */
  datatype Caster = NoPlayer | WithoutController | WithController(mana: int)

  datatype CastOutcome = CastOutcome(caster: Caster, boltSpawned: bool)

  /** Whether the mana check applies: only a controller with a positive cost is checked. */
  predicate ChecksMana(cfg: Config, c: Caster) {
    c.WithController? && cfg.manaCost > 0
  }

  /** `PrimaryAbility`: refuses without a caster or a prefab, refuses when a checked caster
      cannot pay, and otherwise charges a checked caster the cost and spawns the bolt. */
  function PrimaryAbility(cfg: Config, c: Caster): (r: CastOutcome)
    ensures c.NoPlayer? || !cfg.boltPrefabAssigned ==> r == CastOutcome(c, false)
    ensures ChecksMana(cfg, c) && c.mana < cfg.manaCost ==> r == CastOutcome(c, false)
    ensures r.boltSpawned <==>
              !c.NoPlayer? && cfg.boltPrefabAssigned && !(ChecksMana(cfg, c) && c.mana < cfg.manaCost)
    ensures r.boltSpawned && ChecksMana(cfg, c) ==>
              r.caster == WithController(c.mana - cfg.manaCost) && r.caster.mana >= 0
    ensures !(r.boltSpawned && ChecksMana(cfg, c)) ==> r.caster == c
  {
    if c.NoPlayer? || !cfg.boltPrefabAssigned then CastOutcome(c, false)
    else if ChecksMana(cfg, c) then
      if c.mana < cfg.manaCost then CastOutcome(c, false)
      else CastOutcome(WithController(c.mana - cfg.manaCost), true)
    else CastOutcome(c, true)
  }

  /** The mana a cast leaves a controller with: the cost comes off exactly when a bolt went
      out under the check, and mana never drops below zero unless it started there. */
  lemma ManaAfterCast(cfg: Config, mana: int)
    ensures var r := PrimaryAbility(cfg, WithController(mana));
      && r.caster.WithController?
      && r.caster.mana == (if r.boltSpawned && cfg.manaCost > 0 then mana - cfg.manaCost else mana)
      && (mana >= 0 ==> r.caster.mana >= 0)
  {
  }

  /** Casting twice with the checked cost spawns two bolts exactly when the mana covers two costs. */
  lemma TwoCasts(cfg: Config, mana: int)
    requires cfg.boltPrefabAssigned && cfg.manaCost > 0
    ensures var first := PrimaryAbility(cfg, WithController(mana));
            var second := PrimaryAbility(cfg, first.caster);
      (first.boltSpawned && second.boltSpawned) <==> mana >= 2 * cfg.manaCost
  {
  }
}
