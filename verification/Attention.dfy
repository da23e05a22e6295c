/** What the driver monitoring policy grants: exemptions, recovery, and what neither costs nor restores awareness. */
module Attention {

  import opened Monitoring

  // ---- Low speed ----

  // the first threshold of a policy, five seconds below full awareness
  function FirstThreshold(p: Policy): real {
    if p.Vision? then 8.0 / 13.0 else 0.8
  }

  // awareness is above the first threshold of its policy, under either policy
  ghost predicate Calm(s: State) {
    && TunedFor(s) && s.step == (if s.policy.Vision? then 1.0 / 260.0 else 1.0 / 500.0)
    && FirstThreshold(s.policy) < s.awareness <= 1.0
    && FirstThreshold(Vision) < s.lastVision <= 1.0 && FirstThreshold(Wheeltouch) < s.lastWheeltouch <= 1.0
  }

  lemma FullIsCalm(s: State)
    requires Valid(s) && Above(s, 1.0) && s.step == if s.policy.Vision? then 1.0 / 260.0 else 1.0 / 500.0
    ensures Calm(s)
  {
  }

  lemma InitialIsCalm(lockoutActive: bool, lockoutCount: nat)
    ensures Calm(Initial(lockoutActive, lockoutCount))
  {
  }

  lemma PolicyStaysCalm(s: State, target: Policy)
    requires Calm(s)
    ensures Calm(WithPolicy(s, target))
  {
  }

  lemma GainIsPositive(a: real, step: real)
    requires a <= 1.0 && step > 0.0
    ensures ((RECOVERY_MAX - RECOVERY_MIN) * (1.0 - a) + RECOVERY_MIN) * step > 0.0
  {
    assert (RECOVERY_MAX - RECOVERY_MIN) * (1.0 - a) + RECOVERY_MIN >= 1.25;
    Product((RECOVERY_MAX - RECOVERY_MIN) * (1.0 - a) + RECOVERY_MIN - 1.25, step);
  }

  lemma RecoveryStaysCalm(t: State)
    requires Calm(t)
    ensures Calm(Recovered(t)) && Recovered(t).awareness >= t.awareness && Recovered(t).level == t.level
  {
    GainIsPositive(t.awareness, t.step);
  }

  lemma WeighedStaysCalm(t: State, i: Input, alwaysOn: bool)
    requires Calm(t) && i.lowspeed && t.level.None?
    ensures Calm(Weighed(t, i, alwaysOn)) && Weighed(t, i, alwaysOn).level.None?
  {
    hide Recovered;
    RecoveryStaysCalm(t);
  }

  lemma NextStaysCalm(s: State, i: Input, alwaysOn: bool)
    requires Calm(s) && i.lowspeed
    ensures Calm(Next(s, i, alwaysOn)) && Next(s, i, alwaysOn).level.None?
  {
    hide WithPolicy, WithLockout, Weighed;
    var t := if i.hasModel then WithPolicy(s, Target(i)) else s;
    PolicyStaysCalm(s, Target(i));
    LockoutTouches(t.(level := None));
    LockoutSpares(t.(level := None));
    WeighedStaysCalm(WithLockout(t.(level := None)), i, alwaysOn);
  }

  lemma LockoutSpares(s: State)
    ensures var t := WithLockout(s); t.lastVision == s.lastVision && t.lastWheeltouch == s.lastWheeltouch
  {
  }

  /** At low speed no inattention ever brings an alert: awareness stays above the first threshold of its policy. */
  lemma {:induction false} LowSpeedIsExempt(s: State, inputs: seq<Input>, alwaysOn: bool)
    requires Calm(s) && s.level.None? && forall i | i in inputs :: i.lowspeed
    ensures var t := Run(s, inputs, alwaysOn);
      Calm(t) && t.level.None? && t.awareness > (if t.policy.Vision? then 8.0 / 13.0 else 0.8)
  {
    hide Next, Calm;
    if inputs == [] {
      CalmIsAbove(s);
    } else {
      var n := |inputs| - 1;
      LowSpeedIsExempt(s, inputs[..n], alwaysOn);
      assert inputs[n] in inputs;
      NextStaysCalm(Run(s, inputs[..n], alwaysOn), inputs[n], alwaysOn);
      CalmIsAbove(Run(s, inputs, alwaysOn));
    }
  }

  lemma CalmIsAbove(s: State)
    requires Calm(s)
    ensures s.awareness > if s.policy.Vision? then 8.0 / 13.0 else 0.8
  {
  }

  // distracted for certain, at low speed and engaged
  ghost predicate DistractedAtLowSpeed(i: Input) {
    i.hasModel && Target(i).Vision? && i.opEngaged && i.lowspeed && i.distracted && i.distraction > 0.63
  }

  ghost predicate Counted(s: State, n: nat) {
    s.policy.Vision? && TunedFor(s) && s.step == 1.0 / 260.0 && s.awareness == 1.0 - n as real / 260.0
  }

  lemma CountsOneMore(s: State, i: Input, alwaysOn: bool, n: nat)
    requires (Counted(s, n) || (n == 0 && Valid(s) && s.policy.Vision? && s.awareness == 1.0))
    requires n < 99 && DistractedAtLowSpeed(i)
    ensures Counted(Next(s, i, alwaysOn), n + 1)
  {
    hide WithLockout;
    var t := WithPolicy(s, Vision);
    LockoutTouches(t.(level := None));
    assert n as real / 260.0 + 1.0 / 260.0 == (n + 1) as real / 260.0;
  }

  /** The exemption begins no earlier than it must: for the first 99 updates distraction counts at low speed as well. */
  lemma {:induction false} LowSpeedStillCounts(s: State, inputs: seq<Input>, alwaysOn: bool)
    requires Valid(s) && Above(s, 1.0) && s.policy.Vision? && 0 < |inputs| <= 99
    requires forall i | i in inputs :: DistractedAtLowSpeed(i)
    ensures Run(s, inputs, alwaysOn).awareness == 1.0 - |inputs| as real / 260.0
    ensures Counted(Run(s, inputs, alwaysOn), |inputs|)
  {
    hide Next, Valid, DistractedAtLowSpeed;
    var n := |inputs| - 1;
    if n > 0 {
      LowSpeedStillCounts(s, inputs[..n], alwaysOn);
    } else {
      assert Run(s, inputs[..n], alwaysOn) == s;
      FullAwareness(s);
    }
    assert inputs[n] in inputs;
    CountsOneMore(Run(s, inputs[..n], alwaysOn), inputs[n], alwaysOn, n);
  }

  lemma FullAwareness(s: State)
    requires Valid(s) && Above(s, 1.0)
    ensures s.awareness == 1.0
  {
  }

  // ---- Always on, and not engaged ----

  lemma NotEngagedStep(s: State, i: Input)
    requires Valid(s) && !i.opEngaged && !i.wrongGear
    ensures Next(s, i, true).awareness > 0.0 && !Next(s, i, true).level.Three?
  {
    hide WithPolicy, WithLockout, Recovered;
    var t := if i.hasModel then WithPolicy(s, Target(i)) else s;
    PolicyKeeps(s, Target(i), -0.1);
    LockoutKeeps(t.(level := None), -0.1);
    var u := WithLockout(t.(level := None));
    if u.awareness > 0.0 {
      RecoveryGains(u, -0.1);
      RecoveryTouches(u);
    }
  }

  /** Always on, but not engaged: whatever is seen, awareness never reaches zero and level three is never shown. */
  lemma {:induction false} NotEngagedIsExempt(s: State, inputs: seq<Input>)
    requires Valid(s) && inputs != [] && forall i | i in inputs :: !i.opEngaged && !i.wrongGear
    ensures Run(s, inputs, true).awareness > 0.0 && !Run(s, inputs, true).level.Three?
  {
    hide Next, Valid;
    var n := |inputs| - 1;
    RunValid(s, inputs[..n], true);
    assert inputs[n] in inputs;
    NotEngagedStep(Run(s, inputs[..n], true), inputs[n]);
  }

  // always on and not engaged, distracted for certain
  ghost predicate DistractedUnengaged(i: Input) {
    && i.hasModel && Target(i).Vision? && !i.opEngaged && !i.wrongGear && !i.lowspeed
    && i.distracted && i.distraction > 0.63
  }

  /** Always on, distraction counts down all the same while it does not reach zero. */
  lemma NotEngagedStillCounts(s: State, i: Input)
    requires Valid(s) && s.policy.Vision? && DistractedUnengaged(i) && s.awareness > 1.0 / 260.0
    ensures Next(s, i, true).awareness == s.awareness - 1.0 / 260.0
  {
    hide WithLockout;
    var t := WithPolicy(s, Vision);
    LockoutTouches(t.(level := None));
  }

  /** Disengaging restores everything at once, unless the monitor is always on; then it does so only from red. */
  lemma DisengagingRestores(s: State, i: Input, alwaysOn: bool)
    requires Valid(s) && !i.opEngaged && (!alwaysOn || i.wrongGear || s.awareness <= 0.0)
    ensures var t := Next(s, i, alwaysOn);
      t.awareness == t.lastVision == t.lastWheeltouch == 1.0 && t.level.None?
  {
    hide WithPolicy, WithLockout;
    var t := if i.hasModel then WithPolicy(s, Target(i)) else s;
    PolicyKeeps(s, Target(i), -0.1);
    LockoutKeeps(t.(level := None), -0.1);
  }

  // ---- Recovery ----

  // the driver is seen to pay attention, with hands off the wheel
  ghost predicate Attentive(i: Input) {
    && i.hasModel && i.faceDetected && i.lowStd && !i.modelUncertain && i.distraction < 0.37
    && i.opEngaged && !i.driverEngaged
  }

  /** Recovery gains five steps at no awareness and a step and a quarter at full awareness, evenly in between; the
      awareness kept for the wheel policy gains a step once the active one is full. */
  lemma RecoveryRate(s: State)
    ensures Recovered(s).awareness == Min(s.awareness + (5.0 - 3.75 * s.awareness) * s.step, 1.0)
    ensures Recovered(s) == s.(awareness := Recovered(s).awareness, lastWheeltouch :=
      if Recovered(s).awareness == 1.0 then Min(s.lastWheeltouch + s.step, 1.0) else s.lastWheeltouch)
  {
    assert (RECOVERY_MAX - RECOVERY_MIN) * (1.0 - s.awareness) + RECOVERY_MIN == 5.0 - 3.75 * s.awareness;
  }

  /** An attentive update recovers, and shows no alert once awareness is above the second threshold. */
  lemma AttentiveStep(s: State, i: Input, alwaysOn: bool)
    requires Valid(s) && s.policy.Vision? && s.awareness > 0.0 && Attentive(i)
    ensures var t := Next(s, i, alwaysOn);
      t.policy.Vision? && t.awareness == Recovered(s.(step := 1.0 / 260.0)).awareness
      && t.level == if t.awareness > 5.0 / 13.0 then None else Two
  {
    hide WithLockout, Recovered;
    var t := WithPolicy(s, Vision);
    LockoutTouches(t.(level := None));
    var u := WithLockout(t.(level := None));
    RecoveryTouches(u);
    RecoveryRate(u);
    RecoveryRate(s.(step := 1.0 / 260.0));
    RecoveryGains(u.(lastVision := 1.0, lastWheeltouch := 1.0, lockoutActive := true), -0.1);
  }

  lemma RecoverySpeed(s: State)
    requires 0.0 < s.awareness <= 1.0 && s.step == 1.0 / 260.0
    ensures 1.0 >= Recovered(s).awareness >= Min(s.awareness + 1.0 / 208.0, 1.0)
  {
    RecoveryRate(s);
    Product(3.75 * (1.0 - s.awareness), s.step);
    assert (5.0 - 3.75 * s.awareness) * s.step == 3.75 * (1.0 - s.awareness) * s.step + 1.25 * s.step;
  }

  lemma {:induction false} AttentionGains(s: State, inputs: seq<Input>, alwaysOn: bool)
    requires Valid(s) && s.policy.Vision? && s.awareness > 0.0 && forall i | i in inputs :: Attentive(i)
    ensures var t := Run(s, inputs, alwaysOn);
      && Valid(t) && t.policy.Vision? && t.awareness >= Min(s.awareness + |inputs| as real / 208.0, 1.0)
      && (|inputs| >= 208 ==> t.awareness == 1.0 && t.level.None?)
  {
    hide Next, Valid, Attentive, Recovered;
    RunValid(s, inputs, alwaysOn);
    ValidBounds(Run(s, inputs, alwaysOn));
    if inputs != [] {
      var n := |inputs| - 1;
      AttentionGains(s, inputs[..n], alwaysOn);
      var before := Run(s, inputs[..n], alwaysOn);
      RunValid(s, inputs[..n], alwaysOn);
      ValidBounds(before);
      assert inputs[n] in inputs;
      AttentiveStep(before, inputs[n], alwaysOn);
      RecoverySpeed(before.(step := 1.0 / 260.0));
      assert n as real / 208.0 + 1.0 / 208.0 == |inputs| as real / 208.0;
    } else {
      ValidBounds(s);
    }
  }

  lemma ValidBounds(s: State)
    requires Valid(s)
    ensures s.awareness <= 1.0
  {
  }

  lemma SwitchedFirst(s: State, i: Input, alwaysOn: bool)
    requires Valid(s) && Attentive(i)
    ensures Next(s, i, alwaysOn) == Next(WithPolicy(s, Vision), i, alwaysOn)
  {
    hide WithEvents;
  }

  lemma {:induction false} RunFromSwitched(s: State, inputs: seq<Input>, alwaysOn: bool)
    requires Valid(s) && inputs != [] && forall i | i in inputs :: Attentive(i)
    ensures Run(s, inputs, alwaysOn) == Run(WithPolicy(s, Vision), inputs, alwaysOn)
  {
    hide Next, Valid, Attentive, WithPolicy;
    var n := |inputs| - 1;
    assert inputs[n] in inputs;
    if n > 0 {
      RunFromSwitched(s, inputs[..n], alwaysOn);
    } else {
      SwitchedFirst(s, inputs[0], alwaysOn);
      assert inputs[..0] == [];
    }
  }

  /** An attentive driver who is not in a red alert regains full awareness within 208 updates, some ten seconds,
      whatever policy was active. */
  lemma AttentionRestores(s: State, inputs: seq<Input>, alwaysOn: bool)
    requires Valid(s) && s.awareness > 0.0 && |inputs| >= 208 && forall i | i in inputs :: Attentive(i)
    ensures var t := Run(s, inputs, alwaysOn); t.policy.Vision? && t.awareness == 1.0 && t.level.None?
  {
    hide Run, Attentive, Recovered;
    PolicyKeeps(s, Vision, -0.1);
    PolicyChanges(s, Vision);
    RunFromSwitched(s, inputs, alwaysOn);
    AttentionGains(WithPolicy(s, Vision), inputs, alwaysOn);
  }

  /** Touching the wheel while attentive restores all three awarenesses at once, short of a red alert. */
  lemma TouchWhileAttentive(s: State, i: Input, alwaysOn: bool)
    requires Valid(s) && s.awareness > 0.0 && Attentive(i.(driverEngaged := false)) && i.driverEngaged
    ensures var t := Next(s, i, alwaysOn);
      t.awareness == t.lastVision == t.lastWheeltouch == 1.0 && t.level.None?
  {
    hide WithPolicy, WithLockout;
    var t := WithPolicy(s, Vision);
    PolicyKeeps(s, Vision, -0.1);
    LockoutKeeps(t.(level := None), -0.1);
  }

  /** Under the wheel policy touching the wheel is enough. */
  lemma TouchUnderWheelPolicy(s: State, i: Input, alwaysOn: bool)
    requires Valid(s) && s.policy.Wheeltouch? && s.awareness > 0.0 && i.driverEngaged && i.opEngaged
    requires i.hasModel ==> Target(i).Wheeltouch?
    ensures var t := Next(s, i, alwaysOn);
      t.awareness == t.lastVision == t.lastWheeltouch == 1.0 && t.level.None?
  {
    hide WithLockout;
    var t := if i.hasModel then WithPolicy(s, Target(i)) else s;
    LockoutTouches(t.(level := None));
  }

  // neither attentive nor certainly distracted, with the face seen by a certain model
  ghost predicate Undecided(i: Input) {
    && i.hasModel && i.faceDetected && !i.modelUncertain && i.opEngaged && !i.lowspeed
    && (i.distraction >= 0.37 || !i.lowStd) && (i.distraction <= 0.63 || !i.distracted)
  }

  /** Between the two bounds on distraction nothing is gained and nothing lost, and the level follows the awareness. */
  lemma UndecidedKeeps(s: State, i: Input, alwaysOn: bool)
    requires Valid(s) && s.policy.Vision? && s.awareness > 0.0 && Undecided(i)
    ensures var t := Next(s, i, alwaysOn);
      && t.awareness == s.awareness && t.lastVision == s.lastVision && t.lastWheeltouch == s.lastWheeltouch
      && t.level == if s.awareness <= 5.0 / 13.0 then Two else if s.awareness <= 8.0 / 13.0 then One else None
  {
    hide WithLockout;
    var t := WithPolicy(s, Vision);
    LockoutTouches(t.(level := None));
    LockoutSpares(t.(level := None));
  }

  // ---- Changing policy ----

  // below the second threshold the vision policy is not left, and the wheel policy is not left in a red alert
  predicate Held(s: State) {
    (s.policy.Vision? && s.awareness <= 5.0 / 13.0) || s.awareness <= 0.0
  }

  /** Leaving a policy keeps its awareness and takes up the one kept for the other; a policy that is held is not left,
      and with no face to see its awareness then stands still. */
  lemma PolicyChanges(s: State, target: Policy)
    requires Valid(s)
    ensures var t := WithPolicy(s, target);
      if Held(s) then
        t.policy == s.policy && t.awareness == s.awareness && t.lastVision == s.lastVision
        && t.lastWheeltouch == s.lastWheeltouch
        && (s.policy.Vision? ==> t.step == if target.Vision? then 1.0 / 260.0 else 0.0)
      else
        && t.policy == target && t.step == (if target.Vision? then 1.0 / 260.0 else 1.0 / 500.0)
        && t.awareness == (if s.policy == target then s.awareness else if target.Vision? then s.lastVision
                           else s.lastWheeltouch)
        && t.lastVision == (if s.policy.Vision? && target.Wheeltouch? then s.awareness else s.lastVision)
        && t.lastWheeltouch == if s.policy.Wheeltouch? && target.Vision? then s.awareness else s.lastWheeltouch
  {
  }

  /** The vision policy is for a face seen by a certain model, and only then. */
  lemma PolicyOfInput(i: Input)
    ensures Target(i).Vision? <==> i.faceDetected && !i.modelUncertain
  {
  }

  // ---- Lockouts ----

  // how many minutes the n-th lockout lasts
  function Minutes(n: nat): nat {
    if n <= 1 then 1 else if n == 2 then 5 else if n == 3 then 15 else 30
  }

  /** A lockout begins with the second red alert, or the first left unanswered, and each is longer than the one before,
      up to the fourth: one minute, five, fifteen and thirty. */
  lemma LockoutBegins(s: State)
    requires Valid(s) && !s.lockoutActive
    ensures WithLockout(s).lockoutActive <==> s.alert3Count >= 2 || s.noResponseCount >= 1
    ensures WithLockout(s).lockoutActive ==> WithLockout(s).lockoutDuration == Minutes(s.lockoutCount + 1) * 1200
  {
  }

  /** A lockout leaves nothing behind that would begin another. */
  lemma LockoutLeavesNothing(s: State)
    requires Valid(s) && s.lockoutActive && !WithLockout(s).lockoutActive
    ensures var t := WithLockout(s);
      && t.alert3Count == t.sinceAlert3 == t.noResponseCount == t.lockoutElapsed == 0
      && !WithLockout(t).lockoutActive
  {
  }

  /** The wait for an answer begins with the update that turns red. */
  lemma RedBegins(s: State, i: Input, alwaysOn: bool)
    requires Valid(s) && s.awareness > 0.0 && Next(s, i, alwaysOn).awareness <= 0.0
    ensures Next(s, i, alwaysOn).sinceAlert3 == 0 && Next(s, i, alwaysOn).level.Three?
  {
    hide WithLockout;
    var t := WithPolicy(s, Target(i));
    LockoutTouches((if i.hasModel then t else s).(level := None));
  }

  /** It lasts 100 updates: until then a first red alert left unanswered brings no lockout. */
  lemma UnansweredRedWaits(s: State, inputs: seq<Input>, alwaysOn: bool)
    requires Valid(s) && s.awareness <= 0.0 && s.sinceAlert3 == 0 && !s.lockoutActive
    requires s.alert3Count < 2 && s.noResponseCount == 0
    requires |inputs| <= 100 && forall i :: i in inputs ==> i.opEngaged
    ensures !Run(s, inputs, alwaysOn).lockoutActive && Run(s, inputs, alwaysOn).lockoutCount == s.lockoutCount
  {
    hide Next, Run, Valid;
    RedUnanswered(s, inputs, alwaysOn);
  }

  /** A monitor starts under the vision policy with full awareness, and in the saved lockout, if any. */
  lemma Starts(lockoutActive: bool, lockoutCount: nat)
    ensures Initial(lockoutActive, lockoutCount) ==
      State(1.0, 1.0, 1.0, Vision, 8.0 / 13.0, 5.0 / 13.0, 1.0 / 260.0, None, 0, 0, 0,
            lockoutActive, lockoutCount, Minutes(lockoutCount) * 1200, 0)
  {
  }
}
