/** The enemy's behaviour state machine (`SimpleEnemyAI`): idle, chasing, returning to spawn
    and stunned, with an aggro flag, a leash around the spawn point and a debounce on state
    checks. Distances and the clock are parameters; steering is left out, and the velocity is
    only ever "zeroed" or "left alone". */
module EnemyAI {
  import opened Options

  datatype AiState = Idle | Chasing | Returning | Stunned

  datatype Config = Config(
    chaseRange: real,
    moveSpeed: real,
    stoppingDistance: real,
    leashRange: real,
    agroBuffer: real,
    stateChangeDelay: real)

  /** The component's inspector defaults. */
  const DefaultConfig: Config := Config(10.0, 3.0, 1.0, 15.0, 2.0, 0.3)

  /** A running stun: when it is due, the state saved at its start comes back. */
  datatype PendingRestore = PendingRestore(due: real, saved: AiState)

  datatype Ai = Ai(state: AiState, isAggroed: bool, lastStateChangeTime: real, pending: seq<PendingRestore>)

  /** A freshly spawned AI: idle, calm, last checked at time zero, nothing stunned. */
  const Initial: Ai := Ai(Idle, false, 0.0, [])

  /** The new AI state and whether the rigid body's velocity was zeroed. */
  datatype Step = Step(ai: Ai, velocityZeroed: bool)

  /** Pursuit starts when the enemy is aggroed or the player is in chase range, the enemy is
      within its leash, and the player is not already within stopping distance. */
  predicate ShouldStartChasing(ai: Ai, cfg: Config, toPlayer: real, toSpawn: real) {
    (ai.isAggroed || toPlayer <= cfg.chaseRange) && toSpawn <= cfg.leashRange && toPlayer > cfg.stoppingDistance
  }

  /** Pursuit stops past the leash, or when a calm enemy's player is beyond chase range plus the buffer. */
  predicate ShouldStopChasing(ai: Ai, cfg: Config, toPlayer: real, toSpawn: real) {
    toSpawn > cfg.leashRange || (toPlayer > cfg.chaseRange + cfg.agroBuffer && !ai.isAggroed)
  }

  /** `DetermineState`: one transition check. Idle starts chasing (and aggroes) when pursuit
      should start. A chaser that should stop returns home and calms down when past the
      leash, and goes idle otherwise. A returner is idle once within 1 of spawn, else chases
      again (aggroed) when pursuit should start. A stunned enemy is never touched. The
      velocity is zeroed exactly when the state changes. */
  function DetermineState(ai: Ai, cfg: Config, toPlayer: real, toSpawn: real): (r: Step)
    ensures r.ai.lastStateChangeTime == ai.lastStateChangeTime && r.ai.pending == ai.pending
    ensures r.velocityZeroed <==> r.ai.state != ai.state
    ensures ai.state == Stunned ==> r == Step(ai, false)
    ensures ai.state == Idle ==>
      if ShouldStartChasing(ai, cfg, toPlayer, toSpawn) then r.ai.state == Chasing && r.ai.isAggroed
      else r.ai == ai
    ensures ai.state == Chasing ==>
      if !ShouldStopChasing(ai, cfg, toPlayer, toSpawn) then r.ai == ai
      else if toSpawn > cfg.leashRange then r.ai.state == Returning && !r.ai.isAggroed
      else r.ai == ai.(state := Idle)
    ensures ai.state == Returning ==>
      if toSpawn < 1.0 then r.ai == ai.(state := Idle)
      else if ShouldStartChasing(ai, cfg, toPlayer, toSpawn) then r.ai.state == Chasing && r.ai.isAggroed
      else r.ai == ai
  {
    var next :=
      match ai.state
      case Idle =>
        if ShouldStartChasing(ai, cfg, toPlayer, toSpawn) then ai.(state := Chasing, isAggroed := true) else ai
      case Chasing =>
        if ShouldStopChasing(ai, cfg, toPlayer, toSpawn) then
          if toSpawn > cfg.leashRange then ai.(state := Returning, isAggroed := false) else ai.(state := Idle)
        else ai
      case Returning =>
        if toSpawn < 1.0 then ai.(state := Idle)
        else if ShouldStartChasing(ai, cfg, toPlayer, toSpawn) then ai.(state := Chasing, isAggroed := true)
        else ai
      case Stunned => ai;
    Step(next, next.state != ai.state)
  }

  /** An aggroed chaser gives up the chase only at the leash, and then heads home. */
  lemma AggroedChaserLeavesOnlyByLeash(ai: Ai, cfg: Config, toPlayer: real, toSpawn: real)
    requires ai.state == Chasing && ai.isAggroed
    ensures DetermineState(ai, cfg, toPlayer, toSpawn).ai.state != Chasing <==> toSpawn > cfg.leashRange
    ensures toSpawn > cfg.leashRange ==> DetermineState(ai, cfg, toPlayer, toSpawn).ai.state == Returning
  {
  }

  /** Hysteresis: a calm chaser whose player has left chase range but not the buffer keeps
      chasing, while an idle enemy at that distance would not start. */
  lemma ChaseHysteresis(ai: Ai, cfg: Config, toPlayer: real, toSpawn: real)
    requires !ai.isAggroed && cfg.agroBuffer >= 0.0
    requires cfg.chaseRange < toPlayer <= cfg.chaseRange + cfg.agroBuffer && toSpawn <= cfg.leashRange
    ensures ai.state == Chasing ==> DetermineState(ai, cfg, toPlayer, toSpawn).ai.state == Chasing
    ensures ai.state == Idle ==> DetermineState(ai, cfg, toPlayer, toSpawn).ai.state == Idle
  {
  }

  /** Chasing is only ever entered with the aggro flag set. */
  lemma ChasingImpliesAggroed(ai: Ai, cfg: Config, toPlayer: real, toSpawn: real)
    requires ai.state != Chasing && ai.state != Stunned
    requires DetermineState(ai, cfg, toPlayer, toSpawn).ai.state == Chasing
    ensures DetermineState(ai, cfg, toPlayer, toSpawn).ai.isAggroed
    ensures toSpawn <= cfg.leashRange && toPlayer > cfg.stoppingDistance
  {
  }

  /** `Update`'s decision part: nothing without a player; otherwise a transition check once
      the debounce delay has passed since the last check, which stamps the time. */
  function Update(ai: Ai, cfg: Config, playerFound: bool, time: real, toPlayer: real, toSpawn: real): (r: Step)
    ensures !playerFound || time < ai.lastStateChangeTime + cfg.stateChangeDelay ==> r == Step(ai, false)
    ensures playerFound && time >= ai.lastStateChangeTime + cfg.stateChangeDelay ==>
      r.ai.lastStateChangeTime == time
      && r == Step(DetermineState(ai, cfg, toPlayer, toSpawn).ai.(lastStateChangeTime := time),
                   DetermineState(ai, cfg, toPlayer, toSpawn).velocityZeroed)
  {
    if !playerFound || time < ai.lastStateChangeTime + cfg.stateChangeDelay then Step(ai, false)
    else
      var s := DetermineState(ai, cfg, toPlayer, toSpawn);
      Step(s.ai.(lastStateChangeTime := time), s.velocityZeroed)
  }

  /** The debounce: after a check at `t1`, an update before `t1 + delay` changes nothing. */
  lemma DebounceBlocksSecondCheck(ai: Ai, cfg: Config, t1: real, t2: real, p1: real, s1: real, p2: real, s2: real)
    requires t1 >= ai.lastStateChangeTime + cfg.stateChangeDelay
    requires t2 < t1 + cfg.stateChangeDelay
    ensures var a1 := Update(ai, cfg, true, t1, p1, s1).ai;
      Update(a1, cfg, true, t2, p2, s2) == Step(a1, false)
  {
  }

  /** A stunned enemy stays stunned under any number of updates. */
  lemma UpdateNeverLeavesStunned(ai: Ai, cfg: Config, found: bool, time: real, toPlayer: real, toSpawn: real)
    requires ai.state == Stunned
    ensures Update(ai, cfg, found, time, toPlayer, toSpawn).ai.state == Stunned
    ensures !Update(ai, cfg, found, time, toPlayer, toSpawn).velocityZeroed
  {
  }

  /** `IsChasing`. */
  predicate IsChasing(ai: Ai) {
    ai.state == Chasing
  }

  /** `StartChasing` (called when the enemy is hurt): aggro and chase at once from any state,
      stunned included, with no debounce. */
  function StartChasing(ai: Ai): (r: Ai)
    ensures IsChasing(r) && r.isAggroed
    ensures r.lastStateChangeTime == ai.lastStateChangeTime && r.pending == ai.pending
  {
    ai.(state := Chasing, isAggroed := true)
  }

  /** Hurting an enemy makes it chase until it passes its leash: the check after the hit
      leaves the chase alone within the leash and sends it home, calm, beyond it. A second
      hit changes nothing more. */
  lemma StartChasingHoldsWithinLeash(ai: Ai, cfg: Config, toPlayer: real, toSpawn: real)
    ensures var s := DetermineState(StartChasing(ai), cfg, toPlayer, toSpawn);
      if toSpawn <= cfg.leashRange then s == Step(StartChasing(ai), false)
      else s.ai.state == Returning && !s.ai.isAggroed && s.velocityZeroed
    ensures StartChasing(StartChasing(ai)) == StartChasing(ai)
  {
  }

  /** A hit releases a stuck stun: `StartChasing` on a stunned enemy with nothing pending
      puts it back in pursuit, and a later update may move it again. */
  lemma HitReleasesStuckStun(ai: Ai, cfg: Config, time: real, toPlayer: real, toSpawn: real)
    requires ai.state == Stunned && ai.pending == []
    requires time >= ai.lastStateChangeTime + cfg.stateChangeDelay && toSpawn > cfg.leashRange
    ensures StartChasing(ai).state == Chasing
    ensures Update(StartChasing(ai), cfg, true, time, toPlayer, toSpawn).ai.state == Returning
  {
  }

  /** `Stun`: records the state at the start, stuns and zeroes the velocity; the saved state
      comes back `duration` later. */
  function Stun(ai: Ai, now: real, duration: real): (r: Step)
    ensures r.ai.state == Stunned && r.velocityZeroed
    ensures r.ai.pending == ai.pending + [PendingRestore(now + duration, ai.state)]
    ensures r.ai.isAggroed == ai.isAggroed && r.ai.lastStateChangeTime == ai.lastStateChangeTime
  {
    Step(ai.(state := Stunned, pending := ai.pending + [PendingRestore(now + duration, ai.state)]), true)
  }

  /** The stuns still running at `now`, in start order. */
  function StillRunning(pending: seq<PendingRestore>, now: real): (r: seq<PendingRestore>)
    ensures |r| <= |pending|
    decreases |pending|
  {
    if |pending| == 0 then []
    else
      var n := |pending| - 1;
      StillRunning(pending[..n], now) + (if pending[n].due > now then [pending[n]] else [])
  }

  /** A stun stays pending exactly while it is not yet due. */
  lemma {:induction false} StillRunningMembers(pending: seq<PendingRestore>, now: real)
    ensures forall e :: e in StillRunning(pending, now) <==> e in pending && e.due > now
    decreases |pending|
  {
    if |pending| > 0 {
      var n := |pending| - 1;
      StillRunningMembers(pending[..n], now);
      assert pending == pending[..n] + [pending[n]];
    }
  }

  /** The stuns still running keep their start order: filtering a concatenation filters each part. */
  lemma {:induction false} StillRunningConcat(a: seq<PendingRestore>, b: seq<PendingRestore>, now: real)
    ensures StillRunning(a + b, now) == StillRunning(a, now) + StillRunning(b, now)
    decreases |b|
  {
    if |b| == 0 {
      assert a + b == a;
    } else {
      var n := |b| - 1;
      assert (a + b)[..|a + b| - 1] == a + b[..n];
      assert (a + b)[|a + b| - 1] == b[n];
      StillRunningConcat(a, b[..n], now);
    }
  }

  /** Every stun not yet due stays pending as often as it was started; a due one never does. */
  lemma {:induction false} StillRunningCounts(pending: seq<PendingRestore>, now: real)
    ensures forall e :: multiset(StillRunning(pending, now))[e] == (if e.due > now then multiset(pending)[e] else 0)
    decreases |pending|
  {
    if |pending| > 0 {
      var n := |pending| - 1;
      StillRunningCounts(pending[..n], now);
      assert pending == pending[..n] + [pending[n]];
    }
  }

  /** Index of the last stun due at `now`, if any. */
  function LastDue(pending: seq<PendingRestore>, now: real): (r: Option<nat>)
    ensures r.None? ==> forall j :: 0 <= j < |pending| ==> pending[j].due > now
    ensures r.Some? ==> r.value < |pending| && pending[r.value].due <= now
    ensures r.Some? ==> forall j :: r.value < j < |pending| ==> pending[j].due > now
    decreases |pending|
  {
    if |pending| == 0 then None
    else if pending[|pending| - 1].due <= now then Some(|pending| - 1)
    else LastDue(pending[..|pending| - 1], now)
  }

  /** The stun coroutines one at a time, in start order: each one that is due writes its saved
      state back, and each one not yet due leaves the state alone. */
  function ResumeInOrder(state: AiState, pending: seq<PendingRestore>, now: real): AiState
    decreases |pending|
  {
    if |pending| == 0 then state
    else ResumeInOrder(if pending[0].due <= now then pending[0].saved else state, pending[1..], now)
  }

  /** Resuming one more coroutine, started last: if it is due its saved state is the result. */
  lemma {:induction false} ResumeInOrderSnoc(state: AiState, pending: seq<PendingRestore>, e: PendingRestore, now: real)
    ensures ResumeInOrder(state, pending + [e], now) ==
            if e.due <= now then e.saved else ResumeInOrder(state, pending, now)
    decreases |pending|
  {
    if |pending| == 0 {
      assert pending + [e] == [e];
      assert [e][1..] == [];
    } else {
      var next := if pending[0].due <= now then pending[0].saved else state;
      assert (pending + [e])[0] == pending[0];
      assert (pending + [e])[1..] == pending[1..] + [e];
      ResumeInOrderSnoc(next, pending[1..], e, now);
    }
  }

  /** Running the due coroutines in start order leaves the saved state of the last due one,
      or the state unchanged when none is due. */
  lemma {:induction false} ResumeInOrderLastDue(state: AiState, pending: seq<PendingRestore>, now: real)
    ensures ResumeInOrder(state, pending, now) ==
            if LastDue(pending, now).None? then state else pending[LastDue(pending, now).value].saved
    decreases |pending|
  {
    if |pending| > 0 {
      var n := |pending| - 1;
      assert pending == pending[..n] + [pending[n]];
      ResumeInOrderSnoc(state, pending[..n], pending[n], now);
      if pending[n].due > now {
        ResumeInOrderLastDue(state, pending[..n], now);
      }
    }
  }

  /** The state after the stuns due in one frame have restored their saved states: the same as
      running those coroutines one by one in start order; with none due the state is unchanged. */
  function RestoredState(state: AiState, pending: seq<PendingRestore>, now: real): (r: AiState)
    ensures r == ResumeInOrder(state, pending, now)
    ensures (forall j :: 0 <= j < |pending| ==> pending[j].due > now) ==> r == state
  {
    ResumeInOrderLastDue(state, pending, now);
    match LastDue(pending, now)
    case None => state
    case Some(k) => pending[k].saved
  }

  /** The coroutine resumptions of one frame at time `now`: the due coroutines write their saved
      states back in start order and finish; the rest stay pending (in start order and as often
      as they were started, by `StillRunningConcat` and `StillRunningCounts`). Each coroutine
      resumes in the first frame at or after its due time, so the function is meant to run every
      frame: start order decides only among stuns that fall due in the same frame, and stuns due
      in different frames resume in due order across the calls (`NestedStunResumesFrameByFrame`). */
  function ResumeDueStuns(ai: Ai, now: real): (r: Ai)
    ensures r.state == ResumeInOrder(ai.state, ai.pending, now)
    ensures r.pending == StillRunning(ai.pending, now)
    ensures r == ai.(state := r.state, pending := r.pending)
    ensures (forall j :: 0 <= j < |ai.pending| ==> ai.pending[j].due > now) ==> r.state == ai.state
  {
    ai.(state := RestoredState(ai.state, ai.pending, now), pending := StillRunning(ai.pending, now))
  }

  /** A lone stun restores exactly the state it interrupted. */
  lemma SingleStunRestores(ai: Ai, now: real, duration: real, later: real)
    requires ai.pending == [] && duration >= 0.0 && later >= now + duration
    ensures var s := Stun(ai, now, duration).ai;
      ResumeDueStuns(s, later).state == ai.state && ResumeDueStuns(s, later).pending == []
  {
    var s := Stun(ai, now, duration).ai;
    assert s.pending == [PendingRestore(now + duration, ai.state)];
    assert s.pending[..0] == [];
  }

  /** With the first of two stuns due and the second not, the first restores and the second stays. */
  lemma FirstOfTwoDue(e0: PendingRestore, e1: PendingRestore, now: real)
    requires e0.due <= now < e1.due
    ensures StillRunning([e0, e1], now) == [e1]
    ensures LastDue([e0, e1], now) == Some(0)
  {
    assert [e0, e1][..1] == [e0];
    assert [e0][..0] == [];
  }

  /** A lone stun that is due restores and leaves nothing pending. */
  lemma LoneStunDue(e: PendingRestore, now: real)
    requires e.due <= now
    ensures StillRunning([e], now) == []
    ensures LastDue([e], now) == Some(0)
  {
    assert [e][..0] == [];
  }

  /** With the second of two stuns due and the first not, the second restores and the first stays. */
  lemma SecondOfTwoDue(e0: PendingRestore, e1: PendingRestore, now: real)
    requires e1.due <= now < e0.due
    ensures StillRunning([e0, e1], now) == [e0]
    ensures LastDue([e0, e1], now) == Some(1)
  {
    assert [e0, e1][..1] == [e0];
    assert [e0][..0] == [];
  }

  /** With both of two stuns due, the second is the last to restore and nothing stays pending. */
  lemma BothOfTwoDue(e0: PendingRestore, e1: PendingRestore, now: real)
    requires e0.due <= now && e1.due <= now
    ensures StillRunning([e0, e1], now) == []
    ensures LastDue([e0, e1], now) == Some(1)
  {
    assert [e0, e1][..1] == [e0];
    assert [e0][..0] == [];
  }

  /** A short stun started inside a longer one: run frame by frame, the short one restores
      `Stunned` at its due time and the long one later restores the interrupted state, so the
      coroutines resume in due order. A single call at the later due time instead resolves both
      in start order and ends `Stunned`, which is why `ResumeDueStuns` stands for one frame. */
  lemma NestedStunResumesFrameByFrame(ai: Ai, t0: real, d0: real, t1: real, d1: real)
    requires ai.pending == [] && ai.state != Stunned
    requires t0 <= t1 && t1 + d1 < t0 + d0
    ensures var a2 := Stun(Stun(ai, t0, d0).ai, t1, d1).ai;
            var a3 := ResumeDueStuns(a2, t1 + d1);
            var a4 := ResumeDueStuns(a3, t0 + d0);
      a3.state == Stunned && a4.state == ai.state && a4.pending == []
    ensures var a2 := Stun(Stun(ai, t0, d0).ai, t1, d1).ai;
      ResumeDueStuns(a2, t0 + d0).state == Stunned
  {
    var e0 := PendingRestore(t0 + d0, ai.state);
    var e1 := PendingRestore(t1 + d1, Stunned);
    var a2 := Stun(Stun(ai, t0, d0).ai, t1, d1).ai;
    assert a2.pending == [e0, e1];
    SecondOfTwoDue(e0, e1, t1 + d1);
    var a3 := ResumeDueStuns(a2, t1 + d1);
    assert a3.pending == [e0];
    LoneStunDue(e0, t0 + d0);
    BothOfTwoDue(e0, e1, t0 + d0);
  }

  /** Two stuns, the second started while the first runs: when the first is due it
      restores the interrupted state, and only the second, which saved `Stunned`, stays. */
  lemma FirstOverlappingStunEnds(ai: Ai, t0: real, d0: real, t1: real, d1: real)
    requires ai.pending == [] && t0 <= t1 < t0 + d0 < t1 + d1
    ensures var a2 := Stun(Stun(ai, t0, d0).ai, t1, d1).ai;
      ResumeDueStuns(a2, t0 + d0) == a2.(state := ai.state, pending := [PendingRestore(t1 + d1, Stunned)])
  {
    var e0 := PendingRestore(t0 + d0, ai.state);
    var e1 := PendingRestore(t1 + d1, Stunned);
    var a2 := Stun(Stun(ai, t0, d0).ai, t1, d1).ai;
    assert a2.pending == [e0, e1];
    FirstOfTwoDue(e0, e1, t0 + d0);
    var r := ResumeDueStuns(a2, t0 + d0);
    assert r.state == ai.state by {
      assert RestoredState(a2.state, a2.pending, t0 + d0) == ai.state;
    }
    assert r.pending == [e1];
  }

  /** Overlapping stuns can leave the enemy stunned after both have run out: the second stun
      saves `Stunned`, and once the first has restored the chase, the second restores the
      stun. No update leaves that state (`UpdateNeverLeavesStunned`); the enemy stays stunned
      until it is hit again, since a hit calls `StartChasing`. */
  lemma OverlappingStunsCanStick(ai: Ai, t0: real, d0: real, t1: real, d1: real)
    requires ai.pending == [] && ai.state != Stunned
    requires t0 <= t1 < t0 + d0 < t1 + d1
    ensures var a1 := Stun(ai, t0, d0).ai;
            var a2 := Stun(a1, t1, d1).ai;
            var a3 := ResumeDueStuns(a2, t0 + d0);
            var a4 := ResumeDueStuns(a3, t1 + d1);
      a3.state == ai.state && a4.state == Stunned && a4.pending == []
  {
    FirstOverlappingStunEnds(ai, t0, d0, t1, d1);
    LoneStunDue(PendingRestore(t1 + d1, Stunned), t1 + d1);
  }
}
