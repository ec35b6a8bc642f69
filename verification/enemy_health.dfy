/** An enemy's life cycle (`EnemyHealth`): damage, a single death per life with its XP
    reward, the disabled interval and the respawn at the spawn point. Loot drops, colours
    and the kill counter are left out. */
module EnemyHealth {
  import opened Options
  import EnemyAI

  datatype Config = Config(maxHealth: real, xpReward: int, canRespawn: bool, respawnTime: real)

  /** The component's inspector defaults. */
  const DefaultConfig: Config := Config(100.0, 100, true, 10.0)

  /** Where the enemy stands: position and rotation (as a quaternion). */
  datatype Pose = Pose(x: real, y: real, z: real, qx: real, qy: real, qz: real, qw: real)

  /** The optional AI component: whether it is enabled, and its state. */
  datatype AiComponent = AiComponent(enabled: bool, brain: EnemyAI.Ai)

  /** What happens to the body after death: nothing yet, a scheduled respawn, or destruction. */
  datatype Fate = Alive | RespawnScheduled | Destroyed

  /** The enemy's game object. Each `Option<bool>` is a component that may be absent, with its
      enabled flag when present. */
  datatype Enemy = Enemy(
    health: real,
    isDead: bool,
    spawn: Pose,
    pose: Pose,
    ai: Option<AiComponent>,
    shooterEnabled: Option<bool>,
    colliderEnabled: Option<bool>,
    spriteEnabled: Option<bool>,
    fate: Fate)

  /** Sets a present component's flag; an absent one stays absent. */
  function SetEnabled(c: Option<bool>, on: bool): (r: Option<bool>)
    ensures r.None? <==> c.None?
    ensures r.Some? ==> r.value == on
  {
    if c.None? then None else Some(on)
  }

  /** `Start`: full health, and the current pose remembered as the spawn point. */
  function Start(e: Enemy, cfg: Config): (r: Enemy)
    ensures r.health == cfg.maxHealth && r.spawn == e.pose
    ensures r == e.(health := cfg.maxHealth, spawn := e.pose)
  {
    e.(health := cfg.maxHealth, spawn := e.pose)
  }

  /** `DisableEnemy`: switches off every component present. */
  function DisableEnemy(e: Enemy): (r: Enemy)
    ensures r.ai.Some? <==> e.ai.Some?
    ensures r.ai.Some? ==> !r.ai.value.enabled && r.ai.value.brain == e.ai.value.brain
    ensures r.shooterEnabled == SetEnabled(e.shooterEnabled, false)
    ensures r.colliderEnabled == SetEnabled(e.colliderEnabled, false)
    ensures r.spriteEnabled == SetEnabled(e.spriteEnabled, false)
    ensures r == e.(ai := r.ai, shooterEnabled := r.shooterEnabled, colliderEnabled := r.colliderEnabled,
                    spriteEnabled := r.spriteEnabled)
  {
    e.(ai := if e.ai.None? then None else Some(e.ai.value.(enabled := false)),
       shooterEnabled := SetEnabled(e.shooterEnabled, false),
       colliderEnabled := SetEnabled(e.colliderEnabled, false),
       spriteEnabled := SetEnabled(e.spriteEnabled, false))
  }

  datatype Death = Death(enemy: Enemy, xpGranted: Option<int>)

  /** `Die`: ignored once dead. Otherwise marks the enemy dead, grants the XP reward to a
      player if there is one, disables the enemy, and schedules a respawn when respawning is
      allowed or destruction when it is not. */
  function Die(e: Enemy, cfg: Config, playerPresent: bool): (r: Death)
    ensures e.isDead ==> r == Death(e, None)
    ensures !e.isDead ==> r.enemy.isDead
    ensures !e.isDead ==> (r.xpGranted.Some? <==> playerPresent)
    ensures r.xpGranted.Some? ==> r.xpGranted.value == cfg.xpReward
    ensures !e.isDead ==> r.enemy.fate == (if cfg.canRespawn then RespawnScheduled else Destroyed)
    ensures !e.isDead ==> r.enemy == DisableEnemy(e).(isDead := true, fate := r.enemy.fate)
  {
    if e.isDead then Death(e, None)
    else
      var fate := if cfg.canRespawn then RespawnScheduled else Destroyed;
      Death(DisableEnemy(e).(isDead := true, fate := fate), if playerPresent then Some(cfg.xpReward) else None)
  }

  /** `TakeDamage`: ignored once dead. Otherwise health drops by the damage with no clamping
      (negative damage heals past the maximum), an AI that is not chasing is made to chase, and
      health at zero or below brings death. */
  function TakeDamage(e: Enemy, cfg: Config, damage: real, playerPresent: bool): (r: Death)
    ensures e.isDead ==> r == Death(e, None)
    ensures !e.isDead ==> r.enemy.health == e.health - damage
    ensures r.enemy.ai.Some? <==> e.ai.Some?
    ensures !e.isDead && e.ai.Some? ==> EnemyAI.IsChasing(r.enemy.ai.value.brain)
    ensures !e.isDead && e.ai.Some? && !EnemyAI.IsChasing(e.ai.value.brain) ==>
              r.enemy.ai.value.brain == EnemyAI.StartChasing(e.ai.value.brain)
    ensures !e.isDead && e.ai.Some? && EnemyAI.IsChasing(e.ai.value.brain) ==>
              r.enemy.ai.value.brain == e.ai.value.brain
    ensures !e.isDead ==> (r.enemy.isDead <==> e.health - damage <= 0.0)
    ensures r.xpGranted.Some? <==> !e.isDead && e.health - damage <= 0.0 && playerPresent
    ensures !e.isDead && e.health - damage <= 0.0 ==>
              r.enemy == DisableEnemy(e).(health := e.health - damage, ai := r.enemy.ai, isDead := true,
                                          fate := if cfg.canRespawn then RespawnScheduled else Destroyed)
              && (r.enemy.ai.Some? ==> !r.enemy.ai.value.enabled)
              && r.xpGranted == (if playerPresent then Some(cfg.xpReward) else None)
    ensures !e.isDead && e.health - damage > 0.0 ==>
              r.enemy == e.(health := e.health - damage, ai := r.enemy.ai)
              && (r.enemy.ai.Some? ==> r.enemy.ai.value.enabled == e.ai.value.enabled)
  {
    if e.isDead then Death(e, None)
    else
      var ai := match e.ai
        case None => None
        case Some(c) => if EnemyAI.IsChasing(c.brain) then e.ai else Some(c.(brain := EnemyAI.StartChasing(c.brain)));
      var hurt := e.(health := e.health - damage, ai := ai);
      if hurt.health <= 0.0 then Die(hurt, cfg, playerPresent) else Death(hurt, None)
  }

  /** Damage taken in sequence, with the XP grants counted. */
  function DamageAll(e: Enemy, cfg: Config, hits: seq<real>, playerPresent: bool): (r: (Enemy, nat))
    decreases |hits|
  {
    if |hits| == 0 then (e, 0)
    else
      var d := TakeDamage(e, cfg, hits[0], playerPresent);
      var rest := DamageAll(d.enemy, cfg, hits[1..], playerPresent);
      (rest.0, rest.1 + (if d.xpGranted.Some? then 1 else 0))
  }

  /** However many hits land in one life, the XP is granted at most once, and only if the
      enemy ends up dead; a dead enemy grants nothing more. */
  lemma {:induction false} XpGrantedAtMostOncePerLife(e: Enemy, cfg: Config, hits: seq<real>, playerPresent: bool)
    ensures DamageAll(e, cfg, hits, playerPresent).1 <= 1
    ensures e.isDead ==> DamageAll(e, cfg, hits, playerPresent) == (e, 0)
    ensures DamageAll(e, cfg, hits, playerPresent).1 == 1 ==> DamageAll(e, cfg, hits, playerPresent).0.isDead
    decreases |hits|
  {
    if |hits| > 0 {
      var d := TakeDamage(e, cfg, hits[0], playerPresent);
      XpGrantedAtMostOncePerLife(d.enemy, cfg, hits[1..], playerPresent);
      if d.xpGranted.Some? {
        assert d.enemy.isDead;
      }
    }
  }

  /** `IsPlayerTooClose`: a player strictly within 5 units of the spawn point. */
  predicate IsPlayerTooClose(playerDistanceToSpawn: Option<real>) {
    playerDistanceToSpawn.Some? && playerDistanceToSpawn.value < 5.0
  }

  /** `RespawnTimer`'s wait: the respawn time, plus one extra 5 seconds when the player stands
      too close at the moment the first wait ends; the check is not repeated. */
  function RespawnDelay(cfg: Config, playerDistanceToSpawn: Option<real>): (r: real)
    ensures r == cfg.respawnTime || r == cfg.respawnTime + 5.0
    ensures r == cfg.respawnTime + 5.0 <==> IsPlayerTooClose(playerDistanceToSpawn)
  {
    cfg.respawnTime + (if IsPlayerTooClose(playerDistanceToSpawn) then 5.0 else 0.0)
  }

  /** `EnableEnemy`: full health, alive, every present component on again, the AI reset by
      its own `ResetAI` (not part of this model, so passed in), and back at the spawn pose. */
  function EnableEnemy(e: Enemy, cfg: Config, resetAI: EnemyAI.Ai -> EnemyAI.Ai): (r: Enemy)
    ensures r.health == cfg.maxHealth && !r.isDead && r.fate == Alive
    ensures r.pose == e.spawn && r.spawn == e.spawn
    ensures r.ai.Some? <==> e.ai.Some?
    ensures r.ai.Some? ==> r.ai.value == AiComponent(true, resetAI(e.ai.value.brain))
    ensures r.shooterEnabled == SetEnabled(e.shooterEnabled, true)
    ensures r.colliderEnabled == SetEnabled(e.colliderEnabled, true)
    ensures r.spriteEnabled == SetEnabled(e.spriteEnabled, true)
  {
    e.(health := cfg.maxHealth, isDead := false, fate := Alive,
       ai := if e.ai.None? then None else Some(AiComponent(true, resetAI(e.ai.value.brain))),
       shooterEnabled := SetEnabled(e.shooterEnabled, true),
       colliderEnabled := SetEnabled(e.colliderEnabled, true),
       spriteEnabled := SetEnabled(e.spriteEnabled, true),
       pose := e.spawn)
  }

  /** Death then respawn undoes the disabling: the components have the presence they had and
      are all enabled, and the enemy stands at its spawn point with full health. */
  lemma DeathThenRespawn(e: Enemy, cfg: Config, playerPresent: bool, resetAI: EnemyAI.Ai -> EnemyAI.Ai)
    requires !e.isDead && cfg.canRespawn
    ensures var d := Die(e, cfg, playerPresent).enemy;
      d.fate == RespawnScheduled
      && var r := EnableEnemy(d, cfg, resetAI);
      r == EnableEnemy(e, cfg, resetAI)
  {
  }

  /** Each life grants its reward again: after a respawn, a lethal hit with a player present
      grants the XP once more. */
  lemma NewLifeGrantsAgain(e: Enemy, cfg: Config, damage: real, resetAI: EnemyAI.Ai -> EnemyAI.Ai)
    requires e.isDead && cfg.maxHealth - damage <= 0.0
    ensures TakeDamage(e, cfg, damage, true).xpGranted.None?
    ensures TakeDamage(EnableEnemy(e, cfg, resetAI), cfg, damage, true).xpGranted == Some(cfg.xpReward)
  {
  }
}
