/** The player's progression and abilities (`PlayerController`): three ability slots with
    cooldowns, the experience and level-up loop, damage and healing. Rendering, movement and
    logging are left out; time enters as the frame's `dt`. */
module Player {
  import opened Options
  import Necromancy

  // ---------------------------------------------------------------- classes

  /** What a class's primary ability does to the caster: the base class only logs, the
      Necromancy class casts a mana-gated shadow bolt. */
  datatype PrimaryKind = LogOnly | ShadowBolt(cfg: Necromancy.Config)

  /** The class asset's stats. Secondary and ultimate abilities only log in every class. */
  datatype PlayerClass = PlayerClass(className: string, maxHealth: int, maxMana: int, attackPower: int, primary: PrimaryKind)

  function NewPlayerClass(name: string): (c: PlayerClass)
    ensures c.className == name && c.maxHealth == 100 && c.maxMana == 50 && c.attackPower == 10
    ensures c.primary == LogOnly
  {
    PlayerClass(name, 100, 50, 10, LogOnly)
  }

  function NecromancyClass(name: string): (c: PlayerClass)
    ensures c.maxHealth == 100 && c.maxMana == 50 && c.attackPower == 10
    ensures c.primary == ShadowBolt(Necromancy.DefaultConfig) && c.primary.cfg.manaCost == 8
  {
    PlayerClass(name, 100, 50, 10, ShadowBolt(Necromancy.DefaultConfig))
  }

  // ---------------------------------------------------------------- state

  datatype AbilitySlot = Primary | Secondary | Ultimate

  /** The slot numbers the query methods take: 1, 2 and 3; anything else is no slot. */
  function Number(s: AbilitySlot): int {
    match s
    case Primary => 1
    case Secondary => 2
    case Ultimate => 3
  }

  function SlotNumber(n: int): (r: Option<AbilitySlot>)
    ensures r.Some? <==> 1 <= n <= 3
    ensures r.Some? ==> Number(r.value) == n
  {
    if n == 1 then Some(Primary) else if n == 2 then Some(Secondary) else if n == 3 then Some(Ultimate) else None
  }

  /** One slot's cooldown: whether it is cooling, the time left and the configured length. */
  datatype Cooldown = Cooldown(onCooldown: bool, timer: real, duration: real)

  datatype Player = Player(
    currentClass: Option<PlayerClass>,
    xp: int,
    level: int,
    xpToNextLevel: int,
    damage: int,
    maxHealth: int,
    currentHealth: int,
    maxMana: int,
    currentMana: int,
    enableCooldowns: bool,
    primary: Cooldown,
    secondary: Cooldown,
    ultimate: Cooldown,
    active: bool)

  /** A player as the scene creates it, before `Start`: level 1, 100 XP to the next level,
      cooldowns of 2, 3 and 10 seconds, and stats not yet copied from the class. */
  function Fresh(cls: Option<PlayerClass>): (p: Player)
    ensures p.currentClass == cls && p.xp == 0 && p.level == 1 && p.xpToNextLevel == 100
    ensures p.enableCooldowns && p.active
    ensures p.primary == Cooldown(false, 0.0, 2.0) && p.secondary == Cooldown(false, 0.0, 3.0)
    ensures p.ultimate == Cooldown(false, 0.0, 10.0)
  {
    Player(cls, 0, 1, 100, 0, 0, 0, 0, 0, true,
           Cooldown(false, 0.0, 2.0), Cooldown(false, 0.0, 3.0), Cooldown(false, 0.0, 10.0), true)
  }

  function CooldownOf(p: Player, s: AbilitySlot): Cooldown {
    match s
    case Primary => p.primary
    case Secondary => p.secondary
    case Ultimate => p.ultimate
  }

  function WithCooldown(p: Player, s: AbilitySlot, c: Cooldown): (r: Player)
    ensures CooldownOf(r, s) == c
    ensures forall t :: t != s ==> CooldownOf(r, t) == CooldownOf(p, t)
    ensures r == p.(primary := r.primary, secondary := r.secondary, ultimate := r.ultimate)
  {
    match s
    case Primary => p.(primary := c)
    case Secondary => p.(secondary := c)
    case Ultimate => p.(ultimate := c)
  }

  // ---------------------------------------------------------------- class stats

  /** `InitializeStatsFromClass`: copies the class's maxima, fills health and mana, takes the
      class's attack power; without a class nothing changes. */
  function InitializeStatsFromClass(p: Player): (r: Player)
    ensures p.currentClass.None? ==> r == p
    ensures p.currentClass.Some? ==>
      var c := p.currentClass.value;
      r == p.(maxHealth := c.maxHealth, currentHealth := c.maxHealth,
              maxMana := c.maxMana, currentMana := c.maxMana, damage := c.attackPower)
  {
    match p.currentClass
    case None => p
    case Some(c) =>
      p.(maxHealth := c.maxHealth, currentHealth := c.maxHealth,
         maxMana := c.maxMana, currentMana := c.maxMana, damage := c.attackPower)
  }

  /** Copying the class's stats is idempotent, and leaves a player with a class at full
      health: a heal of any non-negative amount then changes nothing. */
  lemma InitializeStatsFromClassSettles(p: Player, amount: int)
    requires amount >= 0
    ensures InitializeStatsFromClass(InitializeStatsFromClass(p)) == InitializeStatsFromClass(p)
    ensures p.currentClass.Some? ==> Heal(InitializeStatsFromClass(p), amount) == InitializeStatsFromClass(p)
  {
  }

  /** `Start`: a fresh player of the class with its stats copied in. */
  function Start(cls: Option<PlayerClass>): (p: Player)
    ensures cls.Some? ==> p.currentHealth == p.maxHealth == cls.value.maxHealth
    ensures cls.Some? ==> p.currentMana == p.maxMana == cls.value.maxMana
    ensures p.level == 1 && p.xp == 0
    ensures cls.None? ==> p == Fresh(cls)
    ensures cls.Some? ==>
      p == Fresh(cls).(maxHealth := cls.value.maxHealth, currentHealth := cls.value.maxHealth,
                       maxMana := cls.value.maxMana, currentMana := cls.value.maxMana,
                       damage := cls.value.attackPower)
    ensures p.currentClass == cls && p.xpToNextLevel == 100 && p.enableCooldowns && p.active
    ensures p.primary == Cooldown(false, 0.0, 2.0) && p.secondary == Cooldown(false, 0.0, 3.0)
    ensures p.ultimate == Cooldown(false, 0.0, 10.0)
  {
    InitializeStatsFromClass(Fresh(cls))
  }

  // ---------------------------------------------------------------- cooldowns

  /** One slot's share of `UpdateCooldowns`: a cooling slot loses `dt`, and once the time
      left is zero or less it is ready again with the timer at exactly zero. */
  function AgeCooldown(c: Cooldown, dt: real): (r: Cooldown)
    ensures r.duration == c.duration
    ensures !c.onCooldown ==> r == c
    ensures c.onCooldown && c.timer - dt <= 0.0 ==> !r.onCooldown && r.timer == 0.0
    ensures c.onCooldown && c.timer - dt > 0.0 ==> r.onCooldown && r.timer == c.timer - dt
  {
    if !c.onCooldown then c
    else if c.timer - dt <= 0.0 then c.(onCooldown := false, timer := 0.0)
    else c.(timer := c.timer - dt)
  }

  /** Ageing by two steps is ageing by their sum: the clamp at zero loses nothing that a later
      step could have used. */
  lemma AgeCooldownAdditive(c: Cooldown, a: real, b: real)
    requires a >= 0.0 && b >= 0.0
    ensures AgeCooldown(AgeCooldown(c, a), b) == AgeCooldown(c, a + b)
  {
  }

  /** `UpdateCooldowns`: ages all three slots when cooldowns are enabled, nothing otherwise. */
  function UpdateCooldowns(p: Player, dt: real): (r: Player)
    ensures !p.enableCooldowns ==> r == p
    ensures p.enableCooldowns ==> forall s :: CooldownOf(r, s) == AgeCooldown(CooldownOf(p, s), dt)
    ensures r == p.(primary := r.primary, secondary := r.secondary, ultimate := r.ultimate)
  {
    if !p.enableCooldowns then p
    else p.(primary := AgeCooldown(p.primary, dt),
            secondary := AgeCooldown(p.secondary, dt),
            ultimate := AgeCooldown(p.ultimate, dt))
  }

  /** A slot's cooldown is well formed when a ready slot's timer is zero and a cooling slot's
      timer lies in (0, duration]. */
  predicate CooldownOk(c: Cooldown) {
    c.duration > 0.0
    && (!c.onCooldown ==> c.timer == 0.0)
    && (c.onCooldown ==> 0.0 < c.timer <= c.duration)
  }

  predicate CooldownsOk(p: Player) {
    forall s :: CooldownOk(CooldownOf(p, s))
  }

  lemma UpdateCooldownsKeepsInvariant(p: Player, dt: real)
    requires CooldownsOk(p) && dt >= 0.0
    ensures CooldownsOk(UpdateCooldowns(p, dt))
  {
    var r := UpdateCooldowns(p, dt);
    forall s ensures CooldownOk(CooldownOf(r, s)) {
      assert CooldownOk(CooldownOf(p, s));
    }
  }

  // ---------------------------------------------------------------- casting

  /** What invoking a class ability does to the player: only the Necromancy primary touches
      anything, and only the caster's mana. The player's own game object always carries the
      controller, so the bolt's caster is the controller holding `currentMana`. */
  function CastAbility(p: Player, s: AbilitySlot): (r: Player)
    requires p.currentClass.Some?
    ensures r == p.(currentMana := r.currentMana)
    ensures !(s == Primary && p.currentClass.value.primary.ShadowBolt?) ==> r == p
    ensures s == Primary && p.currentClass.value.primary.ShadowBolt? ==>
      var out := Necromancy.PrimaryAbility(p.currentClass.value.primary.cfg, Necromancy.WithController(p.currentMana));
      r.currentMana == out.caster.mana
  {
    if s == Primary && p.currentClass.value.primary.ShadowBolt? then
      var out := Necromancy.PrimaryAbility(p.currentClass.value.primary.cfg, Necromancy.WithController(p.currentMana));
      Necromancy.ManaAfterCast(p.currentClass.value.primary.cfg, p.currentMana);
      p.(currentMana := out.caster.mana)
    else p
  }

  /** Starts a cooldown at the slot's configured length. */
  function Arm(c: Cooldown): (r: Cooldown)
    ensures r.onCooldown && r.timer == c.duration && r.duration == c.duration
  {
    c.(onCooldown := true, timer := c.duration)
  }

  datatype UseResult = UseResult(player: Player, invoked: bool)

  /** `TryUsePrimaryAbility` and its two siblings: without a class nothing happens; a cooling
      slot with cooldowns enabled refuses; otherwise the class ability runs and, when
      cooldowns are enabled, the slot is armed afterwards whatever the ability did. */
  function TryUse(p: Player, s: AbilitySlot): (r: UseResult)
    ensures r.invoked <==> p.currentClass.Some? && (!p.enableCooldowns || !CooldownOf(p, s).onCooldown)
    ensures !r.invoked ==> r.player == p
    ensures r.invoked && !p.enableCooldowns ==> r.player == CastAbility(p, s)
    ensures r.invoked && p.enableCooldowns ==>
              r.player == WithCooldown(CastAbility(p, s), s, Arm(CooldownOf(p, s)))
  {
    if p.currentClass.None? then UseResult(p, false)
    else if p.enableCooldowns && CooldownOf(p, s).onCooldown then UseResult(p, false)
    else
      var cast := CastAbility(p, s);
      UseResult(if p.enableCooldowns then WithCooldown(cast, s, Arm(CooldownOf(p, s))) else cast, true)
  }

  lemma TryUseKeepsInvariant(p: Player, s: AbilitySlot)
    requires CooldownsOk(p)
    ensures CooldownsOk(TryUse(p, s).player)
  {
    var r := TryUse(p, s).player;
    forall t ensures CooldownOk(CooldownOf(r, t)) {
      assert CooldownOk(CooldownOf(p, t));
    }
  }

  /** With cooldowns enabled, a second use of a slot straight after a successful one is
      refused as long as the slot has a positive length. */
  lemma SecondUseRefused(p: Player, s: AbilitySlot)
    requires p.enableCooldowns && CooldownOf(p, s).duration > 0.0
    requires TryUse(p, s).invoked
    ensures !TryUse(TryUse(p, s).player, s).invoked
  {
  }

  /** The Necromancy quirk: when the bolt is refused for lack of mana, the primary slot is
      armed all the same and the mana is untouched. */
  lemma PrimaryCooldownStartsWithoutMana(p: Player)
    requires p.currentClass.Some? && p.currentClass.value.primary.ShadowBolt?
    requires p.currentClass.value.primary.cfg.manaCost > 0
    requires p.currentMana < p.currentClass.value.primary.cfg.manaCost
    requires p.enableCooldowns && !p.primary.onCooldown
    ensures var r := TryUse(p, Primary);
      r.invoked && r.player.primary.onCooldown && r.player.primary.timer == p.primary.duration
      && r.player.currentMana == p.currentMana
  {
  }

  // ---------------------------------------------------------------- cooldown queries

  /** `IsAbilityReady`: always true with cooldowns off or for a number that names no slot. */
  function IsAbilityReady(p: Player, n: int): (r: bool)
    ensures r <==> !p.enableCooldowns || SlotNumber(n).None? || !CooldownOf(p, SlotNumber(n).value).onCooldown
  {
    !p.enableCooldowns || match SlotNumber(n) { case None => true case Some(s) => !CooldownOf(p, s).onCooldown }
  }

  /** A single-precision quotient: an exact value, or the NaN/infinity a division by zero gives. */
  datatype Quotient = Finite(value: real) | NotFinite

  /** `GetCooldownPercentage`: the fraction of the cooldown still to run for a cooling slot,
      zero otherwise (cooldowns off, slot ready or no such slot). */
  function GetCooldownPercentage(p: Player, n: int): (r: Quotient)
    ensures !p.enableCooldowns || SlotNumber(n).None? ==> r == Finite(0.0)
    ensures p.enableCooldowns && SlotNumber(n).Some? ==>
      var c := CooldownOf(p, SlotNumber(n).value);
      && (!c.onCooldown ==> r == Finite(0.0))
      && (c.onCooldown && c.duration != 0.0 ==> r == Finite(c.timer / c.duration))
      && (c.onCooldown && c.duration == 0.0 ==> r == NotFinite)
  {
    if !p.enableCooldowns then Finite(0.0)
    else match SlotNumber(n)
      case None => Finite(0.0)
      case Some(s) =>
        var c := CooldownOf(p, s);
        if !c.onCooldown then Finite(0.0)
        else if c.duration == 0.0 then NotFinite
        else Finite(c.timer / c.duration)
  }

  /** `GetRemainingCooldownTime`: the raw timer of a slot, even with cooldowns off; zero for no slot. */
  function GetRemainingCooldownTime(p: Player, n: int): (r: real)
    ensures SlotNumber(n).None? ==> r == 0.0
    ensures SlotNumber(n).Some? ==> r == CooldownOf(p, SlotNumber(n).value).timer
  {
    match SlotNumber(n)
    case None => 0.0
    case Some(s) => CooldownOf(p, s).timer
  }

  /** A just-started player is ready to play: its cooldowns are well formed, every ability
      number answers ready with no time left, and a fresh reset would change nothing. */
  lemma StartReadyForPlay(cls: Option<PlayerClass>, n: int)
    ensures CooldownsOk(Start(cls))
    ensures IsAbilityReady(Start(cls), n) && GetRemainingCooldownTime(Start(cls), n) == 0.0
    ensures ResetAllCooldowns(Start(cls)) == Start(cls)
  {
  }

  /** On well-formed cooldowns the three queries agree: a slot is not ready exactly when its
      fraction lies in (0, 1], and then the time left is that fraction of the length. */
  lemma CooldownQueriesAgree(p: Player, n: int)
    requires CooldownsOk(p) && p.enableCooldowns && 1 <= n <= 3
    ensures var q := GetCooldownPercentage(p, n);
      && q.Finite?
      && (!IsAbilityReady(p, n) <==> 0.0 < q.value <= 1.0)
      && (IsAbilityReady(p, n) <==> q.value == 0.0 && GetRemainingCooldownTime(p, n) == 0.0)
      && GetRemainingCooldownTime(p, n) == q.value * CooldownOf(p, SlotNumber(n).value).duration
  {
    assert CooldownOk(CooldownOf(p, SlotNumber(n).value));
  }

  /** `ResetAllCooldowns`: every slot ready with the timer at zero; the lengths stay. */
  function ResetAllCooldowns(p: Player): (r: Player)
    ensures forall s :: CooldownOf(r, s) == Cooldown(false, 0.0, CooldownOf(p, s).duration)
    ensures r == p.(primary := r.primary, secondary := r.secondary, ultimate := r.ultimate)
  {
    p.(primary := Cooldown(false, 0.0, p.primary.duration),
       secondary := Cooldown(false, 0.0, p.secondary.duration),
       ultimate := Cooldown(false, 0.0, p.ultimate.duration))
  }

  /** After a reset every slot number answers ready, and a second reset changes nothing. */
  lemma ResetAllCooldownsReadyAndIdempotent(p: Player, n: int)
    ensures IsAbilityReady(ResetAllCooldowns(p), n)
    ensures GetRemainingCooldownTime(ResetAllCooldowns(p), n) == 0.0
    ensures ResetAllCooldowns(ResetAllCooldowns(p)) == ResetAllCooldowns(p)
  {
  }

  /** `SetAbilityCooldowns`: replaces the three lengths and nothing else. */
  function SetAbilityCooldowns(p: Player, primaryCD: real, secondaryCD: real, ultimateCD: real): (r: Player)
    ensures r.primary == p.primary.(duration := primaryCD)
    ensures r.secondary == p.secondary.(duration := secondaryCD)
    ensures r.ultimate == p.ultimate.(duration := ultimateCD)
    ensures r == p.(primary := r.primary, secondary := r.secondary, ultimate := r.ultimate)
  {
    p.(primary := p.primary.(duration := primaryCD),
       secondary := p.secondary.(duration := secondaryCD),
       ultimate := p.ultimate.(duration := ultimateCD))
  }

  /** New lengths take effect at the next cast, not on a cooldown already running. */
  lemma NewLengthsApplyFromNextCast(p: Player, a: real, b: real, c: real)
    requires p.currentClass.Some? && p.enableCooldowns && !p.primary.onCooldown
    ensures var q := SetAbilityCooldowns(p, a, b, c);
      TryUse(q, Primary).player.primary.timer == a
      && (p.secondary.onCooldown ==> q.secondary.timer == p.secondary.timer)
  {
  }

  // ---------------------------------------------------------------- experience

  /** The thresholds `n` level-ups consume, starting from `first` at `level`: after each
      level-up the next threshold is the curve at the new level. */
  function Spent(first: int, curve: int -> int, level: int, n: nat): int
    decreases n
  {
    if n == 0 then 0 else first + Spent(curve(level + 1), curve, level + 1, n - 1)
  }

  /** One pass of the level-up loop with `LevelUpBenefits`. */
  function LevelUp(p: Player, curve: int -> int): (r: Player)
    ensures r.level == p.level + 1 && r.xp == p.xp - p.xpToNextLevel && r.xpToNextLevel == curve(p.level + 1)
    ensures r.maxHealth == p.maxHealth + 10 && r.maxMana == p.maxMana + 5 && r.damage == p.damage + 2
    ensures r.currentHealth == r.maxHealth && r.currentMana == r.maxMana
  {
    p.(level := p.level + 1, xp := p.xp - p.xpToNextLevel, xpToNextLevel := curve(p.level + 1),
       maxHealth := p.maxHealth + 10, maxMana := p.maxMana + 5, damage := p.damage + 2,
       currentHealth := p.maxHealth + 10, currentMana := p.maxMana + 5)
  }

  /** `CheckLevelUp`: levels up while the XP covers the threshold. It stops below the
      threshold; every level gained added +10 health, +5 mana and +2 damage; a level-up left
      health and mana full; and the XP spent is exactly the thresholds passed. The loop ends as
      long as the curve is positive at every level it can reach. */
  function CheckLevelUp(p: Player, curve: int -> int): (r: Player)
    requires forall l :: l > p.level ==> curve(l) >= 1
    ensures r.xp < r.xpToNextLevel
    ensures r.level >= p.level
    ensures r.level > p.level ==> r.xp >= 0
    ensures r.maxHealth == p.maxHealth + 10 * (r.level - p.level)
    ensures r.maxMana == p.maxMana + 5 * (r.level - p.level)
    ensures r.damage == p.damage + 2 * (r.level - p.level)
    ensures r.level == p.level ==> r == p
    ensures r.level > p.level ==>
              r.currentHealth == r.maxHealth && r.currentMana == r.maxMana && r.xpToNextLevel == curve(r.level)
    ensures p.xp == r.xp + Spent(p.xpToNextLevel, curve, p.level, r.level - p.level)
    ensures r == p.(xp := r.xp, level := r.level, xpToNextLevel := r.xpToNextLevel, damage := r.damage,
                    maxHealth := r.maxHealth, currentHealth := r.currentHealth,
                    maxMana := r.maxMana, currentMana := r.currentMana)
    decreases if p.xpToNextLevel >= 1 then p.xp else p.xp - p.xpToNextLevel + 1
  {
    if p.xp < p.xpToNextLevel then p
    else CheckLevelUp(LevelUp(p, curve), curve)
  }

  /** `GainXP`: adds the amount and runs the level-up loop. */
  function GainXP(p: Player, amount: int, curve: int -> int): (r: Player)
    requires forall l :: l > p.level ==> curve(l) >= 1
    ensures r.xp < r.xpToNextLevel && r.level >= p.level
    ensures r.level > p.level ==> r.xp >= 0
    ensures p.xp + amount == r.xp + Spent(p.xpToNextLevel, curve, p.level, r.level - p.level)
    ensures r.maxHealth == p.maxHealth + 10 * (r.level - p.level)
    ensures r.maxMana == p.maxMana + 5 * (r.level - p.level)
    ensures r.damage == p.damage + 2 * (r.level - p.level)
    ensures r.level == p.level ==> r == p.(xp := p.xp + amount)
    ensures r.level > p.level ==>
              r.currentHealth == r.maxHealth && r.currentMana == r.maxMana && r.xpToNextLevel == curve(r.level)
    ensures r == p.(xp := r.xp, level := r.level, xpToNextLevel := r.xpToNextLevel, damage := r.damage,
                    maxHealth := r.maxHealth, currentHealth := r.currentHealth,
                    maxMana := r.maxMana, currentMana := r.currentMana)
  {
    CheckLevelUp(p.(xp := p.xp + amount), curve)
  }

  /** Below the threshold nothing but the XP changes. */
  lemma GainXPBelowThreshold(p: Player, amount: int, curve: int -> int)
    requires forall l :: l > p.level ==> curve(l) >= 1
    requires p.xp + amount < p.xpToNextLevel
    ensures GainXP(p, amount, curve) == p.(xp := p.xp + amount)
  {
  }

  /** `CalculateXPForNextLevel` rounds 100 * level^1.5 to the nearest integer. The exact value
      is never half-way between integers, so `r` is it exactly when r >= 0 and
      (2r - 1)^2 <= 40000 * level^3 < (2r + 1)^2. */
  predicate IsXpCurveValue(level: int, r: int) {
    r >= 0 && (2 * r - 1) * (2 * r - 1) <= 40000 * level * level * level < (2 * r + 1) * (2 * r + 1)
  }

  lemma XpCurveAtTwo()
    ensures IsXpCurveValue(2, 283)
  {
  }

  /** From level 1 on the curve gives at least 100, so it meets the loop's requirement. */
  lemma XpCurveAtLeastHundred(level: int, r: int)
    requires level >= 1 && IsXpCurveValue(level, r)
    ensures r >= 100
  {
    assert level * level >= 1 by { SquareMonotone(1, level); }
    assert level * level * level >= level * level;
    SquareAbove(2 * r + 1, 199);
  }

  /** A curve with the rounded values at every level from 1 on meets the level-up loop's
      requirement for any player at level 0 or above. */
  lemma XpCurveMeetsLoopRequirement(curve: int -> int, level: int)
    requires forall l :: l >= 1 ==> IsXpCurveValue(l, curve(l))
    requires level >= 0
    ensures forall l :: l > level ==> curve(l) >= 1
  {
    forall l | l > level
      ensures curve(l) >= 1
    {
      XpCurveAtLeastHundred(l, curve(l));
    }
  }

  /** A non-negative number whose square exceeds a non-negative bound's square exceeds the bound. */
  lemma SquareAbove(x: int, b: int)
    requires x >= 0 && b >= 0 && x * x > b * b
    ensures x > b
  {
    if x <= b {
      SquareMonotone(x, b);
    }
  }

  lemma SquareMonotone(a: int, b: int)
    requires 0 <= a <= b
    ensures a * a <= b * b
  {
    assert a * a <= a * b <= b * b;
  }

  /** Starting from a fresh player, 250 XP with the real curve reaches level 2 with 150 XP
      towards a threshold of 283. */
  lemma FirstLevelUpExample(cls: Option<PlayerClass>, curve: int -> int)
    requires forall l :: l > 1 ==> curve(l) >= 1
    requires IsXpCurveValue(2, curve(2))
    ensures var r := GainXP(Start(cls), 250, curve);
      r.level == 2 && r.xp == 150 && r.xpToNextLevel == 283
  {
    XpCurveAtTwo();
    XpCurveValueUnique(2, curve(2), 283);
    var p0 := Start(cls).(xp := 250);
    var p1 := LevelUp(p0, curve);
    assert CheckLevelUp(p1, curve) == p1;
    assert CheckLevelUp(p0, curve) == CheckLevelUp(p1, curve);
  }

  lemma XpCurveValueUnique(level: int, a: int, b: int)
    requires IsXpCurveValue(level, a) && IsXpCurveValue(level, b)
    ensures a == b
  {
    if a < b {
      assert 2 * a + 1 <= 2 * b - 1;
      SquareMonotone(2 * a + 1, 2 * b - 1);
    } else if b < a {
      assert 2 * b + 1 <= 2 * a - 1;
      SquareMonotone(2 * b + 1, 2 * a - 1);
    }
  }

  // ---------------------------------------------------------------- damage and healing

  function Max(a: int, b: int): int { if a >= b then a else b }

  function Min(a: int, b: int): int { if a <= b then a else b }

  /** `Die`: deactivates the player's game object; there are no lives and no respawn. */
  function Die(p: Player): (r: Player)
    ensures !r.active && r == p.(active := false)
  {
    p.(active := false)
  }

  datatype DamageOutcome = DamageOutcome(player: Player, deaths: nat)

  /** One copy of the damage body: ignored at zero health or below; otherwise health drops by
      the amount, clamped at zero, and reaching zero calls `Die`. */
  function Hit(p: Player, amount: int): (r: DamageOutcome)
    ensures p.currentHealth <= 0 ==> r == DamageOutcome(p, 0)
    ensures p.currentHealth > 0 ==> r.player.currentHealth == Max(0, p.currentHealth - amount)
    ensures r.deaths == 1 <==> p.currentHealth > 0 && r.player.currentHealth == 0
    ensures r.deaths <= 1
    ensures r.player == p.(currentHealth := r.player.currentHealth, active := r.player.active)
    ensures r.player.active == (p.active && r.deaths == 0)
  {
    if p.currentHealth <= 0 then DamageOutcome(p, 0)
    else
      var q := p.(currentHealth := Max(0, p.currentHealth - amount));
      if q.currentHealth <= 0 then DamageOutcome(Die(q), 1) else DamageOutcome(q, 0)
  }

  /** `TakeDamage`, whose body is written out twice: the amount lands twice, yet `Die` runs at
      most once because the second copy starts with the dead check. */
  function TakeDamage(p: Player, amount: int): (r: DamageOutcome)
    ensures p.currentHealth <= 0 ==> r == DamageOutcome(p, 0)
    ensures p.currentHealth > 0 ==> r.player.currentHealth == Max(0, p.currentHealth - 2 * amount)
    ensures r.deaths <= 1
    ensures r.deaths == 1 <==> p.currentHealth > 0 && r.player.currentHealth == 0
    ensures r.player == p.(currentHealth := r.player.currentHealth, active := p.active && r.deaths == 0)
  {
    var first := Hit(p, amount);
    var second := Hit(first.player, amount);
    DamageOutcome(second.player, first.deaths + second.deaths)
  }

  /** Taking an amount is exactly one hit of twice the amount. */
  lemma TakeDamageIsDoubleHit(p: Player, amount: int)
    ensures TakeDamage(p, amount) == Hit(p, 2 * amount)
  {
  }

  /** `Heal`: adds the amount and caps at the maximum, with no dead check. */
  function Heal(p: Player, amount: int): (r: Player)
    ensures r.currentHealth <= p.maxHealth
    ensures r.currentHealth == p.currentHealth + amount || r.currentHealth == p.maxHealth
    ensures p.currentHealth + amount <= p.maxHealth ==> r.currentHealth == p.currentHealth + amount
    ensures r == p.(currentHealth := r.currentHealth)
  {
    p.(currentHealth := Min(p.currentHealth + amount, p.maxHealth))
  }

  /** Two heals of non-negative amounts are one heal of their sum. */
  lemma HealAdditive(p: Player, a: int, b: int)
    requires a >= 0 && b >= 0
    ensures Heal(Heal(p, a), b) == Heal(p, a + b)
  {
  }

  /** Healing a dead player raises the number but leaves the game object inactive. */
  lemma HealDoesNotRevive(p: Player, amount: int)
    requires !p.active && p.currentHealth == 0 && amount > 0 && p.maxHealth > 0
    ensures Heal(p, amount).currentHealth > 0 && !Heal(p, amount).active
  {
  }

  // ---------------------------------------------------------------- the frame

  /** Keys pressed this frame: the three ability keys and the test key T. */
  datatype Keys = Keys(one: bool, two: bool, three: bool, test: bool)

  /** `HandleAbilityInput`: the pressed ability keys in slot order. */
  function HandleAbilityInput(p: Player, k: Keys): (r: Player)
    ensures !k.one && !k.two && !k.three ==> r == p
    ensures k.one && !k.two && !k.three ==> r == TryUse(p, Primary).player
    ensures !k.one && k.two && !k.three ==> r == TryUse(p, Secondary).player
    ensures !k.one && !k.two && k.three ==> r == TryUse(p, Ultimate).player
  {
    var a := if k.one then TryUse(p, Primary).player else p;
    var b := if k.two then TryUse(a, Secondary).player else a;
    if k.three then TryUse(b, Ultimate).player else b
  }

  /** Input handling followed by cooldown ageing. */
  function Tick(p: Player, dt: real, k: Keys): Player {
    UpdateCooldowns(HandleAbilityInput(p, k), dt)
  }

  /** `Update`: input and ageing run twice, each time with the same key presses, then T deals
      the 100-point test damage. An inactive game object gets no frames. */
  function Frame(p: Player, dt: real, k: Keys): (r: Player)
    ensures !p.active ==> r == p
    ensures p.active && !k.test ==> r == Tick(Tick(p, dt, k), dt, k)
  {
    if !p.active then p
    else
      var q := Tick(Tick(p, dt, k), dt, k);
      if k.test then TakeDamage(q, 100).player else q
  }

  /** A frame with no key pressed ages every cooldown by twice the frame time and changes
      nothing else. */
  lemma FrameWithoutKeysAgesTwice(p: Player, dt: real)
    requires p.active && dt >= 0.0
    ensures var r := Frame(p, dt, Keys(false, false, false, false));
      && r == p.(primary := r.primary, secondary := r.secondary, ultimate := r.ultimate)
      && (p.enableCooldowns ==> forall s :: CooldownOf(r, s) == AgeCooldown(CooldownOf(p, s), 2.0 * dt))
      && (!p.enableCooldowns ==> r == p)
  {
    var r := Frame(p, dt, Keys(false, false, false, false));
    if p.enableCooldowns {
      forall s ensures CooldownOf(r, s) == AgeCooldown(CooldownOf(p, s), 2.0 * dt) {
        AgeCooldownAdditive(CooldownOf(p, s), dt, dt);
      }
    }
  }

  /** With cooldowns enabled, a key press on a ready Necromancy primary casts once per frame
      when the slot is longer than the frame: the second pass finds it cooling. */
  lemma FrameCastsOnceWithCooldowns(p: Player, dt: real)
    requires p.active && p.enableCooldowns && !p.primary.onCooldown
    requires p.currentClass.Some? && p.currentClass.value.primary.ShadowBolt?
    requires var cfg := p.currentClass.value.primary.cfg; cfg.boltPrefabAssigned && cfg.manaCost > 0 && p.currentMana >= cfg.manaCost
    requires 0.0 <= dt < p.primary.duration
    ensures Frame(p, dt, Keys(true, false, false, false)).currentMana == p.currentMana - p.currentClass.value.primary.cfg.manaCost
  {
    var k := Keys(true, false, false, false);
    var a := TryUse(p, Primary).player;
    var t1 := UpdateCooldowns(a, dt);
    assert t1.primary.onCooldown;
    assert HandleAbilityInput(t1, k) == t1;
  }

  /** With cooldowns disabled the same press casts twice in one frame. */
  lemma FrameCastsTwiceWithoutCooldowns(p: Player, dt: real)
    requires p.active && !p.enableCooldowns
    requires p.currentClass.Some? && p.currentClass.value.primary.ShadowBolt?
    requires var cfg := p.currentClass.value.primary.cfg; cfg.boltPrefabAssigned && cfg.manaCost > 0 && p.currentMana >= 2 * cfg.manaCost
    ensures Frame(p, dt, Keys(true, false, false, false)).currentMana == p.currentMana - 2 * p.currentClass.value.primary.cfg.manaCost
  {
  }

  /** The T key's 100 points land twice: a living player loses 200 health, clamped at zero. */
  lemma TestKeyDealsTwoHundred(p: Player, dt: real)
    requires p.active && p.currentHealth > 0
    ensures Frame(p, dt, Keys(false, false, false, true)).currentHealth == Max(0, p.currentHealth - 200)
    ensures !Frame(p, dt, Keys(false, false, false, true)).active <==> p.currentHealth <= 200
  {
  }
}
