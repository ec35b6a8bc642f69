/** An enemy's ranged attack timer (`EnemyShooter`): while the enemy lives and the player is
    in range, a countdown fires a shot each time it runs out. Projectile motion is left out. */
module EnemyShooter {
  import opened Options

  datatype Config = Config(shootInterval: real, projectileSpeed: real, attackRange: real)

  /** The component's inspector defaults. */
  const DefaultConfig: Config := Config(2.0, 5.0, 10.0)

  datatype Shooter = Shooter(shootTimer: real)

  /** `Start`: a full interval before the first shot. */
  function Start(cfg: Config): (s: Shooter)
    ensures s.shootTimer == cfg.shootInterval
  {
    Shooter(cfg.shootInterval)
  }

  datatype Tick = Tick(shooter: Shooter, fired: bool)

  /** Whether a frame reaches the countdown: the enemy is not dead by its health component
      (when it has one), there is a player, and the player is within attack range. */
  predicate Engaged(cfg: Config, health: Option<real>, playerDistance: Option<real>) {
    (health.None? || health.value > 0.0) && playerDistance.Some? && playerDistance.value <= cfg.attackRange
  }

  /** `Update`: outside an engagement the timer is frozen. Otherwise it drops by `dt`, and on
      running out one shot fires and the timer restarts at exactly the interval, with no
      carry-over of the overshoot. */
  function Update(s: Shooter, cfg: Config, health: Option<real>, playerDistance: Option<real>, dt: real): (r: Tick)
    ensures !Engaged(cfg, health, playerDistance) ==> r == Tick(s, false)
    ensures Engaged(cfg, health, playerDistance) ==>
      (r.fired <==> s.shootTimer - dt <= 0.0)
      && r.shooter.shootTimer == (if r.fired then cfg.shootInterval else s.shootTimer - dt)
  {
    if !Engaged(cfg, health, playerDistance) then Tick(s, false)
    else if s.shootTimer - dt <= 0.0 then Tick(Shooter(cfg.shootInterval), true)
    else Tick(Shooter(s.shootTimer - dt), false)
  }

  /** With a positive interval and non-negative frame times the timer stays in (0, interval]. */
  lemma UpdateKeepsTimerInRange(s: Shooter, cfg: Config, health: Option<real>, playerDistance: Option<real>, dt: real)
    requires cfg.shootInterval > 0.0 && dt >= 0.0
    requires 0.0 < s.shootTimer <= cfg.shootInterval
    ensures var t := Update(s, cfg, health, playerDistance, dt).shooter.shootTimer;
      0.0 < t <= cfg.shootInterval
  {
  }

  /** `n` engaged frames of length `dt`: the shooter afterwards and the shots fired. */
  function Engage(s: Shooter, cfg: Config, dt: real, n: nat): (r: (Shooter, nat))
    decreases n
  {
    if n == 0 then (s, 0)
    else
      var before := Engage(s, cfg, dt, n - 1);
      var t := Update(before.0, cfg, None, Some(cfg.attackRange), dt);
      (t.shooter, before.1 + (if t.fired then 1 else 0))
  }

  /** Before the timer runs out, engaged frames only count it down. */
  lemma {:induction false} NoShotBeforeTimerRunsOut(s: Shooter, cfg: Config, dt: real, n: nat)
    requires dt >= 0.0 && s.shootTimer - (n as real) * dt > 0.0
    ensures Engage(s, cfg, dt, n) == (Shooter(s.shootTimer - (n as real) * dt), 0)
    decreases n
  {
    if n > 0 {
      assert s.shootTimer - ((n - 1) as real) * dt > 0.0;
      NoShotBeforeTimerRunsOut(s, cfg, dt, n - 1);
      var before := Shooter(s.shootTimer - ((n - 1) as real) * dt);
      assert Engage(s, cfg, dt, n - 1).0 == before;
      assert Engage(s, cfg, dt, n - 1).1 == 0;
      assert before.shootTimer - dt == s.shootTimer - (n as real) * dt;
      assert Engaged(cfg, None, Some(cfg.attackRange));
      assert Update(before, cfg, None, Some(cfg.attackRange), dt) == Tick(Shooter(s.shootTimer - (n as real) * dt), false);
    }
  }

  /** The first frame on which the timer runs out fires exactly one shot and restarts the
      timer at the full interval, whatever the overshoot: with frames of length `dt` the enemy
      shoots every `n` frames where `n` is the least count with `n * dt` covering the interval. */
  lemma FirstShot(s: Shooter, cfg: Config, dt: real, n: nat)
    requires dt >= 0.0 && n >= 1
    requires s.shootTimer - ((n - 1) as real) * dt > 0.0 && s.shootTimer - (n as real) * dt <= 0.0
    ensures Engage(s, cfg, dt, n) == (Start(cfg), 1)
  {
    NoShotBeforeTimerRunsOut(s, cfg, dt, n - 1);
  }
}
