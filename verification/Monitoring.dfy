/** The driver monitoring policy: awareness under two policies, alert levels, and engagement lockouts. */
module Monitoring {

  const DT: real := 0.05
  const VISION_ALERT_1: real := 5.0
  const VISION_ALERT_2: real := 8.0
  const VISION_ALERT_3: real := 13.0
  const WHEELTOUCH_ALERT_1: real := 5.0
  const WHEELTOUCH_ALERT_2: real := 15.0
  const WHEELTOUCH_ALERT_3: real := 25.0
  const RECOVERY_MAX: real := 5.0
  const RECOVERY_MIN: real := 1.25
  const MAX_ALERT_3 := 2
  const MAX_NO_RESPONSE := 1
  const NO_RESPONSE_TIMEOUT := 100
  const LOCKOUT_TIMES: seq<nat> := [1200, 6000, 18000, 36000]

  datatype Level = None | One | Two | Three
  datatype Policy = Vision | Wheeltouch

  // What one update sees: the driver model, if it has output, and the state of the car.
  datatype Input = Input(
    hasModel: bool, faceDetected: bool, lowStd: bool, modelUncertain: bool, distracted: bool, distraction: real,
    driverEngaged: bool, opEngaged: bool, lowspeed: bool, wrongGear: bool)

  datatype State = State(
    awareness: real, lastVision: real, lastWheeltouch: real,
    policy: Policy, threshold1: real, threshold2: real, step: real, level: Level,
    alert3Count: nat, sinceAlert3: nat, noResponseCount: nat,
    lockoutActive: bool, lockoutCount: nat, lockoutDuration: nat, lockoutElapsed: nat)

  function Min(a: real, b: real): real { if a < b then a else b }
  function Max(a: real, b: real): real { if a < b then b else a }

  function LockoutTime(count: nat): nat {
    LOCKOUT_TIMES[if count == 0 then 0 else if count <= 4 then count - 1 else 3]
  }

  // ---- What an update does, as a function of the state ----

  function Reset(s: State): State {
    s.(awareness := 1.0, lastVision := 1.0, lastWheeltouch := 1.0)
  }

  function Tuned(s: State, target: Policy): State {
    if target.Vision? then
      s.(policy := Vision, step := DT / VISION_ALERT_3,
         threshold1 := 1.0 - VISION_ALERT_1 / VISION_ALERT_3, threshold2 := 1.0 - VISION_ALERT_2 / VISION_ALERT_3)
    else
      s.(policy := Wheeltouch, step := DT / WHEELTOUCH_ALERT_3,
         threshold1 := 1.0 - WHEELTOUCH_ALERT_1 / WHEELTOUCH_ALERT_3,
         threshold2 := 1.0 - WHEELTOUCH_ALERT_2 / WHEELTOUCH_ALERT_3)
  }

  // the awareness of the policy being left is kept for its return
  function Switched(s: State, target: Policy): State {
    if s.policy == target then s
    else if target.Vision? then s.(lastWheeltouch := s.awareness, awareness := s.lastVision)
    else s.(lastVision := s.awareness, awareness := s.lastWheeltouch)
  }

  function WithPolicy(s: State, target: Policy): State {
    if s.policy.Vision? && s.awareness <= s.threshold2
      then s.(step := if target.Vision? then DT / VISION_ALERT_3 else 0.0)
    else if s.awareness <= 0.0 then s
    else Tuned(Switched(s, target), target)
  }

  predicate LockoutStarts(s: State) {
    (s.alert3Count >= MAX_ALERT_3 || s.noResponseCount >= MAX_NO_RESPONSE) && !s.lockoutActive
  }

  predicate LockoutEnds(s: State) {
    var t := Started(s);
    t.lockoutActive && t.lockoutElapsed + 1 > t.lockoutDuration
  }

  function Started(s: State): State {
    if LockoutStarts(s)
    then s.(lockoutActive := true, lockoutCount := s.lockoutCount + 1,
            lockoutDuration := LockoutTime(s.lockoutCount + 1))
    else s
  }

  function WithLockout(s: State): State {
    var t := Started(s);
    if !t.lockoutActive then t
    else if LockoutEnds(s)
    then t.(lockoutActive := false, alert3Count := 0, sinceAlert3 := 0, noResponseCount := 0, lockoutElapsed := 0)
    else t.(lockoutElapsed := t.lockoutElapsed + 1)
  }

  predicate Resets(s: State, i: Input, alwaysOn: bool) {
    var always := alwaysOn && !i.wrongGear;
    || (i.driverEngaged && s.awareness > 0.0 && s.policy.Wheeltouch?)
    || (!always && !i.opEngaged)
    || (always && !i.opEngaged && s.awareness <= 0.0)
  }

  predicate LowspeedExempt(s: State, i: Input) {
    i.lowspeed && s.awareness - s.step <= s.threshold1
  }

  predicate AlwaysOnExempt(s: State, i: Input, alwaysOn: bool) {
    alwaysOn && !i.wrongGear && !i.opEngaged && s.awareness - s.step <= 0.0
  }

  predicate Recovers(s: State, i: Input) {
    s.awareness > 0.0 && ((i.distraction < 0.37 && i.faceDetected && i.lowStd) || LowspeedExempt(s, i))
  }

  function Recovered(s: State): State {
    var awareness := Min(s.awareness + ((RECOVERY_MAX - RECOVERY_MIN) * (1.0 - s.awareness)
      + RECOVERY_MIN) * s.step, 1.0);
    s.(awareness := awareness,
       lastWheeltouch := if awareness == 1.0 then Min(s.lastWheeltouch + s.step, 1.0) else s.lastWheeltouch)
  }

  predicate Counts(s: State, i: Input, alwaysOn: bool) {
    var certain := i.distraction > 0.63 && i.distracted && i.faceDetected;
    (certain || i.modelUncertain || !i.faceDetected) && !LowspeedExempt(s, i) && !AlwaysOnExempt(s, i, alwaysOn)
  }

  // the alert for a new awareness, given the one before the update
  function Alerted(s: State, before: real): State {
    if s.awareness <= 0.0 then
      var since := if before > 0.0 then 0 else s.sinceAlert3 + 1;
      s.(level := Three, sinceAlert3 := since,
         alert3Count := s.alert3Count + if before > 0.0 then 1 else 0,
         noResponseCount := s.noResponseCount + if since == NO_RESPONSE_TIMEOUT then 1 else 0)
    else
      s.(level := if s.awareness <= s.threshold2 then Two else if s.awareness <= s.threshold1 then One else None)
  }

  // what attention, or the lack of it, does to the awareness; the exemptions are settled before any recovery
  function Weighed(t: State, i: Input, alwaysOn: bool): State {
    if Recovers(t, i) && i.driverEngaged then Reset(t)
    else
      var u := if Recovers(t, i) then Recovered(t) else t;
      if Recovers(t, i) && u.awareness > u.threshold2 then u
      else Alerted(if Counts(t, i, alwaysOn) then u.(awareness := Max(u.awareness - u.step, -0.1)) else u, t.awareness)
  }

  function WithEvents(s: State, i: Input, alwaysOn: bool): State {
    var t := WithLockout(s.(level := None));
    if Resets(t, i, alwaysOn) then Reset(t) else Weighed(t, i, alwaysOn)
  }

  function Target(i: Input): Policy {
    if i.faceDetected && !i.modelUncertain then Vision else Wheeltouch
  }

  function Next(s: State, i: Input, alwaysOn: bool): State {
    WithEvents(if i.hasModel then WithPolicy(s, Target(i)) else s, i, alwaysOn)
  }

  // the state before the first update
  function Initial(lockoutActive: bool, lockoutCount: nat): State {
    Tuned(State(1.0, 1.0, 1.0, Vision, 0.0, 0.0, 0.0, None, 0, 0, 0, lockoutActive, lockoutCount,
      LockoutTime(lockoutCount), 0), Vision)
  }

  function Run(s: State, inputs: seq<Input>, alwaysOn: bool): State {
    if inputs == [] then s else Next(Run(s, inputs[..|inputs| - 1], alwaysOn), inputs[|inputs| - 1], alwaysOn)
  }

  // ---- What every run keeps ----

  const VISION_STEP: real := DT / VISION_ALERT_3

  ghost predicate TunedFor(s: State) {
    && s.threshold1 == 1.0 - (if s.policy.Vision? then VISION_ALERT_1 / VISION_ALERT_3
      else WHEELTOUCH_ALERT_1 / WHEELTOUCH_ALERT_3)
    && s.threshold2 == 1.0 - (if s.policy.Vision? then VISION_ALERT_2 / VISION_ALERT_3
      else WHEELTOUCH_ALERT_2 / WHEELTOUCH_ALERT_3)
    && 0.0 <= s.step <= VISION_STEP
  }

  // the awareness kept for the other policy is always positive, and a lockout that is over has been wound up
  ghost predicate Valid(s: State) {
    && TunedFor(s)
    && 0.0 < s.lastVision <= 1.0 && 0.0 < s.lastWheeltouch <= 1.0 && -0.1 <= s.awareness <= 1.0
    && (s.level.Three? ==> s.awareness <= 0.0)
    && (!s.lockoutActive ==> s.lockoutElapsed == 0)
  }

  // Both awarenesses and the active one are at least the floor.
  ghost predicate Above(s: State, floor: real) {
    s.awareness >= floor && s.lastVision >= floor && s.lastWheeltouch >= floor
  }

  lemma Product(a: real, b: real)
    requires a >= 0.0 && b >= 0.0
    ensures a * b >= 0.0
  {
  }

  lemma RecoveryGains(s: State, floor: real)
    requires Valid(s) && s.awareness > 0.0 && Above(s, floor)
    ensures Valid(Recovered(s)) && Above(Recovered(s), floor) && Recovered(s).awareness >= s.awareness
  {
    Product((RECOVERY_MAX - RECOVERY_MIN) * (1.0 - s.awareness) + RECOVERY_MIN, s.step);
  }

  lemma RecoveryTouches(s: State)
    ensures Recovered(s) == s.(awareness := Recovered(s).awareness, lastWheeltouch := Recovered(s).lastWheeltouch)
  {
  }

  /** Changing policy never costs awareness, and never makes or clears a red alert. */
  lemma PolicyKeeps(s: State, target: Policy, floor: real)
    requires Valid(s) && Above(s, floor)
    ensures Valid(WithPolicy(s, target)) && Above(WithPolicy(s, target), floor)
    ensures WithPolicy(s, target).awareness <= 0.0 <==> s.awareness <= 0.0
  {
  }

  lemma LockoutKeeps(s: State, floor: real)
    requires Valid(s) && Above(s, floor)
    ensures Valid(WithLockout(s)) && Above(WithLockout(s), floor)
    ensures var t := WithLockout(s);
      t.awareness == s.awareness && t.policy == s.policy && t.step == s.step && t.level == s.level
  {
  }

  lemma AlertKeeps(s: State, before: real, floor: real)
    requires Valid(s.(level := None)) && Above(s, floor)
    ensures Valid(Alerted(s, before)) && Above(Alerted(s, before), floor)
  {
  }

  lemma WeighedKeeps(t: State, i: Input, alwaysOn: bool, floor: real)
    requires Valid(t) && Above(t, floor) && floor <= 1.0 && t.level.None?
    ensures Valid(Weighed(t, i, alwaysOn)) && Above(Weighed(t, i, alwaysOn), floor - VISION_STEP)
  {
    hide Recovered, Counts, LowspeedExempt, Alerted;
    if Recovers(t, i) {
      RecoveryGains(t, floor);
      RecoveryTouches(t);
    }
    var u := if Recovers(t, i) then Recovered(t) else t;
    var v := if Counts(t, i, alwaysOn) then u.(awareness := Max(u.awareness - u.step, -0.1)) else u;
    AlertKeeps(v, t.awareness, floor - VISION_STEP);
  }

  lemma EventsKeep(s: State, i: Input, alwaysOn: bool, floor: real)
    requires Valid(s) && Above(s, floor) && floor <= 1.0
    ensures Valid(WithEvents(s, i, alwaysOn)) && Above(WithEvents(s, i, alwaysOn), floor - VISION_STEP)
  {
    hide WithLockout, Resets, Weighed;
    LockoutKeeps(s.(level := None), floor);
    WeighedKeeps(WithLockout(s.(level := None)), i, alwaysOn, floor);
  }

  /** One update takes at most one vision step off every awareness, active or kept, whatever it sees. */
  lemma NextKeeps(s: State, i: Input, alwaysOn: bool, floor: real)
    requires Valid(s) && Above(s, floor) && floor <= 1.0
    ensures Valid(Next(s, i, alwaysOn)) && Above(Next(s, i, alwaysOn), floor - VISION_STEP)
  {
    hide WithPolicy, WithEvents, Valid, Above;
    if i.hasModel {
      PolicyKeeps(s, Target(i), floor);
      EventsKeep(WithPolicy(s, Target(i)), i, alwaysOn, floor);
    } else {
      EventsKeep(s, i, alwaysOn, floor);
    }
  }

  lemma InitialValid(lockoutActive: bool, lockoutCount: nat)
    ensures Valid(Initial(lockoutActive, lockoutCount)) && Above(Initial(lockoutActive, lockoutCount), 1.0)
  {
  }

  lemma {:induction false} RunKeeps(s: State, inputs: seq<Input>, alwaysOn: bool)
    requires Valid(s) && Above(s, 1.0)
    ensures Valid(Run(s, inputs, alwaysOn)) && Above(Run(s, inputs, alwaysOn), 1.0 - |inputs| as real * VISION_STEP)
  {
    hide Next, Valid, Above;
    if inputs != [] {
      var n := |inputs| - 1;
      RunKeeps(s, inputs[..n], alwaysOn);
      NextKeeps(Run(s, inputs[..n], alwaysOn), inputs[n], alwaysOn, 1.0 - n as real * VISION_STEP);
      assert (1.0 - n as real * VISION_STEP) - VISION_STEP == 1.0 - |inputs| as real * VISION_STEP;
    }
  }

  /** No early red: within 259 updates of full awareness nothing seen, and no change of policy, brings level three. */
  lemma NoEarlyRed(s: State, inputs: seq<Input>, alwaysOn: bool)
    requires Valid(s) && Above(s, 1.0) && |inputs| < 260
    ensures Run(s, inputs, alwaysOn).awareness > 0.0 && !Run(s, inputs, alwaysOn).level.Three?
  {
    hide Run;
    RunKeeps(s, inputs, alwaysOn);
    assert |inputs| as real <= 259.0;
  }

  // ---- How long inattention is tolerated ----

  function StepOf(p: Policy): real {
    if p.Vision? then DT / VISION_ALERT_3 else DT / WHEELTOUCH_ALERT_3
  }

  // the updates after which unbroken inattention brings levels one, two and three
  function UpdatesTo(p: Policy, level: Level): nat {
    match level
    case None => 0
    case One => 100
    case Two => if p.Vision? then 160 else 300
    case Three => if p.Vision? then 260 else 500
  }

  // Engaged above low speed and not attending: certainly distracted under the vision policy;
  // unseen, and with hands off the wheel, under the other.
  ghost predicate Inattentive(i: Input, p: Policy) {
    && i.hasModel && Target(i) == p && i.opEngaged && !i.lowspeed
    && (p.Vision? ==> i.distracted && i.distraction > 0.63)
    && (p.Wheeltouch? ==> !i.driverEngaged && !(i.distraction < 0.37 && i.faceDetected && i.lowStd))
  }

  // what is left of full awareness after n inattentive updates
  function Left(p: Policy, n: nat): real {
    Max(1.0 - n as real * StepOf(p), -0.1)
  }

  ghost predicate Draining(s: State, p: Policy, n: nat) {
    && s.policy == p && TunedFor(s) && s.step == StepOf(p) && s.awareness == Left(p, n)
    && s.level == (if n < UpdatesTo(p, One) then None else if n < UpdatesTo(p, Two) then One
      else if n < UpdatesTo(p, Three) then Two else Three)
  }

  lemma InattentionCounts(u: State, i: Input, alwaysOn: bool, p: Policy)
    requires u.policy == p && Inattentive(i, p)
    ensures !Resets(u, i, alwaysOn) && !Recovers(u, i) && Counts(u, i, alwaysOn)
  {
  }

  lemma LeftAfter(p: Policy, n: nat)
    ensures Max(Left(p, n) - StepOf(p), -0.1) == Left(p, n + 1)
    ensures Left(p, n) <= 0.0 <==> n >= UpdatesTo(p, Three)
    ensures n >= UpdatesTo(p, Two) <==>
      Left(p, n) <=
        if p.Vision? then 1.0 - VISION_ALERT_2 / VISION_ALERT_3 else 1.0 - WHEELTOUCH_ALERT_2 / WHEELTOUCH_ALERT_3
    ensures n >= UpdatesTo(p, One) <==>
      Left(p, n) <=
        if p.Vision? then 1.0 - VISION_ALERT_1 / VISION_ALERT_3 else 1.0 - WHEELTOUCH_ALERT_1 / WHEELTOUCH_ALERT_3
  {
    if p.Vision? {
      assert n as real * StepOf(p) == n as real / 260.0;
    } else {
      assert n as real * StepOf(p) == n as real / 500.0;
    }
  }

  lemma Drains(t: State, i: Input, alwaysOn: bool, p: Policy, n: nat)
    requires t.policy == p && TunedFor(t) && t.step == StepOf(p) && t.awareness == Left(p, n) && Inattentive(i, p)
    ensures Draining(WithEvents(t, i, alwaysOn), p, n + 1)
  {
    hide WithLockout, Resets, Recovers, Counts, Inattentive, Max, Left, StepOf;
    var t' := t.(level := None);
    var u := WithLockout(t');
    LockoutTouches(t');
    InattentionCounts(u, i, alwaysOn, p);
    LeftAfter(p, n);
    LeftAfter(p, n + 1);
  }

  lemma LockoutTouches(s: State)
    ensures var t := WithLockout(s);
      (t.awareness == s.awareness && t.policy == s.policy && t.step == s.step && t.level == s.level
      && t.threshold1 == s.threshold1 && t.threshold2 == s.threshold2)
  {
  }

  lemma InattentiveIsSeen(i: Input, p: Policy)
    requires Inattentive(i, p)
    ensures i.hasModel && Target(i) == p
  {
  }

  /** Unbroken inattention brings levels one, two and three after exactly 5, 8 and 13 seconds under the vision policy,
      and after 5, 15 and 25 seconds under the other; the wheel does not matter under the first. */
  lemma {:induction false} InattentionIsTimed(s: State, inputs: seq<Input>, alwaysOn: bool, p: Policy)
    requires Valid(s) && Above(s, 1.0) && s.policy.Vision? && inputs != []
    requires forall i :: i in inputs ==> Inattentive(i, p)
    ensures Draining(Run(s, inputs, alwaysOn), p, |inputs|)
  {
    hide WithEvents, Inattentive, Target;
    var n := |inputs| - 1;
    var i := inputs[n];
    var before := Run(s, inputs[..n], alwaysOn);
    assert i in inputs;
    InattentiveIsSeen(i, p);
    if n == 0 {
      assert before == s;
    } else {
      forall j | j in inputs[..n] ensures Inattentive(j, p) {
        assert j in inputs;
      }
      InattentionIsTimed(s, inputs[..n], alwaysOn, p);
    }
    Drains(WithPolicy(before, p), i, alwaysOn, p, n);
  }

  // ---- Red is terminal ----

  /** From a red alert only disengaging leads out: engaged, nothing raises the awareness, changes the policy or lowers
      the level. */
  lemma RedUntilDisengaged(s: State, i: Input, alwaysOn: bool)
    requires Valid(s) && s.awareness <= 0.0
    ensures Next(s, i, alwaysOn).awareness > 0.0 <==> !i.opEngaged
    ensures Next(s, i, alwaysOn).level.Three? <==> i.opEngaged
    ensures i.opEngaged ==> Next(s, i, alwaysOn).awareness <= s.awareness && Next(s, i, alwaysOn).policy == s.policy
  {
    hide WithLockout;
    var s' := if i.hasModel then WithPolicy(s, Target(i)) else s;
    LockoutTouches(s'.(level := None));
  }

  lemma {:induction false} RedIsTerminal(s: State, inputs: seq<Input>, alwaysOn: bool)
    requires Valid(s) && Above(s, -0.1) && s.awareness <= 0.0 && inputs != []
    requires forall i :: i in inputs ==> i.opEngaged
    ensures var t := Run(s, inputs, alwaysOn);
      Valid(t) && t.awareness <= s.awareness && t.policy == s.policy && t.level.Three?
  {
    hide Next, Valid;
    var n := |inputs| - 1;
    var before := Run(s, inputs[..n], alwaysOn);
    if n > 0 {
      forall j | j in inputs[..n] ensures j.opEngaged {
        assert j in inputs;
      }
      RedIsTerminal(s, inputs[..n], alwaysOn);
    } else {
      assert before == s;
    }
    assert inputs[n] in inputs;
    RedUntilDisengaged(before, inputs[n], alwaysOn);
    ValidNext(before, inputs[n], alwaysOn);
  }

  lemma ValidNext(s: State, i: Input, alwaysOn: bool)
    requires Valid(s)
    ensures Valid(Next(s, i, alwaysOn))
  {
    hide Next;
    NextKeeps(s, i, alwaysOn, -0.1);
  }

  // ---- Lockouts ----

  ghost predicate SameLockout(s: State, t: State) {
    && s.lockoutActive == t.lockoutActive && s.lockoutCount == t.lockoutCount
    && s.lockoutDuration == t.lockoutDuration && s.lockoutElapsed == t.lockoutElapsed
  }

  lemma LockoutDependsOn(s: State, t: State)
    requires SameLockout(s, t) && s.alert3Count == t.alert3Count && s.noResponseCount == t.noResponseCount
    ensures SameLockout(WithLockout(s), WithLockout(t)) && WithLockout(s).alert3Count == WithLockout(t).alert3Count
  {
  }

  lemma AfterLockout(s: State, i: Input, alwaysOn: bool)
    ensures SameLockout(WithEvents(s, i, alwaysOn), WithLockout(s.(level := None)))
  {
    hide Resets, Recovers, Counts, WithLockout, Max, Min;
  }

  // what an update does to the lockout depends on nothing it sees
  lemma LockoutIgnoresInput(s: State, i: Input, alwaysOn: bool)
    ensures SameLockout(Next(s, i, alwaysOn), WithLockout(s))
  {
    hide WithEvents, WithLockout;
    var t := if i.hasModel then WithPolicy(s, Target(i)) else s;
    AfterLockout(t, i, alwaysOn);
    LockoutDependsOn(s, t.(level := None));
  }

  /** A lockout lasts exactly its set number of updates, longer with each lockout, whatever is seen meanwhile. */
  lemma {:induction false} LockoutIsServed(s: State, inputs: seq<Input>, alwaysOn: bool)
    requires Valid(s) && LockoutStarts(s)
    requires 0 < |inputs| <= LockoutTime(s.lockoutCount + 1) + 1
    ensures var t := Run(s, inputs, alwaysOn);
      (t.lockoutCount == s.lockoutCount + 1 && t.lockoutDuration == LockoutTime(s.lockoutCount + 1)
      && (t.lockoutActive <==> |inputs| <= t.lockoutDuration)
      && t.lockoutElapsed == if t.lockoutActive then |inputs| else 0)
  {
    hide Next, LockoutTime;
    var n := |inputs| - 1;
    var before := Run(s, inputs[..n], alwaysOn);
    if n > 0 {
      LockoutIsServed(s, inputs[..n], alwaysOn);
    } else {
      assert before == s;
    }
    assert LockoutTime(s.lockoutCount + 1) >= 1200 by { LockoutTimes(s.lockoutCount + 1); }
    LockoutIgnoresInput(before, inputs[n], alwaysOn);
  }

  lemma LockoutTimes(count: nat)
    ensures LockoutTime(count) >= 1200
  {
  }

  // ---- What leads to a lockout ----

  // the k-th update brought a red alert, or saw the end of a lockout
  ghost predicate Onset(s: State, inputs: seq<Input>, alwaysOn: bool, k: nat)
    requires k < |inputs|
  {
    Run(s, inputs[..k], alwaysOn).awareness > 0.0 >= Run(s, inputs[..k + 1], alwaysOn).awareness
  }

  ghost predicate Released(s: State, inputs: seq<Input>, alwaysOn: bool, k: nat)
    requires k < |inputs|
  {
    Run(s, inputs[..k], alwaysOn).lockoutActive && !Run(s, inputs[..k + 1], alwaysOn).lockoutActive
  }

  lemma LockoutCounts(s: State)
    requires Valid(s)
    ensures var t := WithLockout(s); t.alert3Count == if s.lockoutActive && !t.lockoutActive then 0 else s.alert3Count
  {
    hide LockoutTime;
    LockoutTimes(s.lockoutCount + 1);
  }

  lemma EventsCount(s: State, i: Input, alwaysOn: bool)
    requires Valid(s)
    ensures var t := WithEvents(s, i, alwaysOn);
      t.alert3Count == WithLockout(s.(level := None)).alert3Count + if s.awareness > 0.0 >= t.awareness then 1 else 0
  {
    hide Resets, Counts, LowspeedExempt, WithLockout, Recovered, RECOVERY_MAX;
    LockoutKeeps(s.(level := None), -0.1);
    var t := WithLockout(s.(level := None));
    if Recovers(t, i) {
      RecoveryGains(t, -0.1);
      RecoveryTouches(t);
    }
  }

  // one update adds one for a red alert, and starts afresh when a lockout ends
  lemma NextCounts(s: State, i: Input, alwaysOn: bool)
    requires Valid(s)
    ensures var t := Next(s, i, alwaysOn);
      t.alert3Count == (if s.lockoutActive && !t.lockoutActive then 0 else s.alert3Count)
        + if s.awareness > 0.0 >= t.awareness then 1 else 0
  {
    hide WithEvents, WithLockout;
    var s' := if i.hasModel then WithPolicy(s, Target(i)) else s;
    PolicyKeeps(s, Target(i), -0.1);
    EventsCount(s', i, alwaysOn);
    LockoutCounts(s'.(level := None));
    AfterLockout(s', i, alwaysOn);
  }

  // the updates from the given one on that brought a red alert
  ghost function Onsets(s: State, inputs: seq<Input>, alwaysOn: bool, since: nat): set<nat> {
    set k: nat | since <= k < |inputs| && Onset(s, inputs, alwaysOn, k)
  }

  lemma ShorterRun(s: State, inputs: seq<Input>, alwaysOn: bool, n: nat, k: nat)
    requires k < n <= |inputs|
    ensures Onset(s, inputs, alwaysOn, k) == Onset(s, inputs[..n], alwaysOn, k)
    ensures Released(s, inputs, alwaysOn, k) == Released(s, inputs[..n], alwaysOn, k)
  {
    hide Run;
    assert inputs[..k] == inputs[..n][..k] && inputs[..k + 1] == inputs[..n][..k + 1];
  }

  lemma OnsetsGrow(s: State, inputs: seq<Input>, alwaysOn: bool, since: nat)
    requires since < |inputs|
    ensures var n := |inputs| - 1;
      |Onsets(s, inputs, alwaysOn, since)| ==
        |Onsets(s, inputs[..n], alwaysOn, since)| + if Onset(s, inputs, alwaysOn, n) then 1 else 0
  {
    hide Run, Onset, Released;
    var n := |inputs| - 1;
    forall k: nat | k < n ensures Onset(s, inputs, alwaysOn, k) == Onset(s, inputs[..n], alwaysOn, k) {
      ShorterRun(s, inputs, alwaysOn, n, k);
    }
    assert Onsets(s, inputs, alwaysOn, since) ==
      Onsets(s, inputs[..n], alwaysOn, since) + if Onset(s, inputs, alwaysOn, n) then {n} else {};
  }

  lemma LastUpdateCounts(s: State, inputs: seq<Input>, alwaysOn: bool)
    requires Valid(s) && inputs != []
    ensures var n := |inputs| - 1;
      Run(s, inputs, alwaysOn).alert3Count ==
        (if Released(s, inputs, alwaysOn, n) then 0 else Run(s, inputs[..n], alwaysOn).alert3Count)
        + if Onset(s, inputs, alwaysOn, n) then 1 else 0
  {
    hide Next, Valid;
    var n := |inputs| - 1;
    RunValid(s, inputs[..n], alwaysOn);
    NextCounts(Run(s, inputs[..n], alwaysOn), inputs[n], alwaysOn);
    assert inputs[..n + 1] == inputs;
  }

  /** The count of red alerts that leads to a lockout is exactly the number since the last lockout ended. */
  lemma {:induction false} RedAlertsAreCounted(s: State, inputs: seq<Input>, alwaysOn: bool, since: nat)
    requires Valid(s) && since < |inputs|
    requires Released(s, inputs, alwaysOn, since) || (since == 0 && s.alert3Count == 0)
    requires forall k :: since < k < |inputs| ==> !Released(s, inputs, alwaysOn, k)
    ensures Run(s, inputs, alwaysOn).alert3Count == |Onsets(s, inputs, alwaysOn, since)|
  {
    hide Next, Valid, Onset, Released;
    var n := |inputs| - 1;
    LastUpdateCounts(s, inputs, alwaysOn);
    OnsetsGrow(s, inputs, alwaysOn, since);
    if since == n {
      assert n == 0 ==> Run(s, inputs[..n], alwaysOn) == s;
      assert Onsets(s, inputs[..n], alwaysOn, since) == {};
    } else {
      forall k | since <= k < n ensures Released(s, inputs, alwaysOn, k) == Released(s, inputs[..n], alwaysOn, k) {
        ShorterRun(s, inputs, alwaysOn, n, k);
      }
      RedAlertsAreCounted(s, inputs[..n], alwaysOn, since);
    }
  }

  lemma {:induction false} RunValid(s: State, inputs: seq<Input>, alwaysOn: bool)
    requires Valid(s)
    ensures Valid(Run(s, inputs, alwaysOn))
  {
    hide Next, Valid;
    if inputs != [] {
      RunValid(s, inputs[..|inputs| - 1], alwaysOn);
      ValidNext(Run(s, inputs[..|inputs| - 1], alwaysOn), inputs[|inputs| - 1], alwaysOn);
    }
  }

  lemma RedStep(s: State, i: Input, alwaysOn: bool)
    requires Valid(s) && s.awareness <= 0.0 && i.opEngaged && !s.lockoutActive && !LockoutStarts(s)
    ensures var t := Next(s, i, alwaysOn);
      (!t.lockoutActive && t.lockoutCount == s.lockoutCount && t.alert3Count == s.alert3Count
        && t.sinceAlert3 == s.sinceAlert3 + 1
      && t.noResponseCount == s.noResponseCount + if t.sinceAlert3 == NO_RESPONSE_TIMEOUT then 1 else 0)
  {
  }

  lemma {:induction false} RedUnanswered(s: State, inputs: seq<Input>, alwaysOn: bool)
    requires Valid(s) && s.awareness <= 0.0 && s.sinceAlert3 == 0 && !s.lockoutActive && !LockoutStarts(s)
    requires |inputs| <= NO_RESPONSE_TIMEOUT && forall i :: i in inputs ==> i.opEngaged
    ensures var t := Run(s, inputs, alwaysOn);
      (t.awareness <= 0.0 && !t.lockoutActive && t.lockoutCount == s.lockoutCount && t.sinceAlert3 == |inputs|
      && (LockoutStarts(t) <==> |inputs| == NO_RESPONSE_TIMEOUT) && t.alert3Count == s.alert3Count
      && t.noResponseCount == if |inputs| == NO_RESPONSE_TIMEOUT then 1 else 0)
  {
    hide Next, Valid;
    if inputs != [] {
      var n := |inputs| - 1;
      forall j | j in inputs[..n] ensures j.opEngaged {
        assert j in inputs;
      }
      RedUnanswered(s, inputs[..n], alwaysOn);
      RunValid(s, inputs[..n], alwaysOn);
      assert inputs[n] in inputs;
      RedStep(Run(s, inputs[..n], alwaysOn), inputs[n], alwaysOn);
      RedUntilDisengaged(Run(s, inputs[..n], alwaysOn), inputs[n], alwaysOn);
    }
  }

  /** A red alert the driver leaves unanswered while engaged for five seconds always ends in a lockout. */
  lemma UnansweredRedLocksOut(s: State, inputs: seq<Input>, alwaysOn: bool)
    requires Valid(s) && s.awareness <= 0.0 && s.sinceAlert3 == 0 && !s.lockoutActive
    requires |inputs| == 101 && forall i :: i in inputs ==> i.opEngaged
    ensures Run(s, inputs, alwaysOn).lockoutActive && Run(s, inputs, alwaysOn).lockoutCount == s.lockoutCount + 1
  {
    hide Next, Valid, LockoutTime;
    LockoutTimes(s.lockoutCount + 1);
    if LockoutStarts(s) {
      LockoutIsServed(s, inputs, alwaysOn);
    } else {
      var n := NO_RESPONSE_TIMEOUT;
      forall j | j in inputs[..n] ensures j.opEngaged {
        assert j in inputs;
      }
      RedUnanswered(s, inputs[..n], alwaysOn);
      RunValid(s, inputs[..n], alwaysOn);
      var before := Run(s, inputs[..n], alwaysOn);
      LockoutIsServed(before, inputs[n..], alwaysOn);
      assert Run(before, inputs[n..], alwaysOn) == Run(s, inputs, alwaysOn) by {
        assert inputs[n..][..0] == [] && Run(before, [], alwaysOn) == before;
        assert inputs[n..][0] == inputs[n];
      }
    }
  }

  // ---- The monitor itself ----

  class DriverMonitoring {
    var awareness: real
    var lastVisionAwareness: real
    var lastWheeltouchAwareness: real
    var activePolicy: Policy
    var thresholdAlert1: real
    var thresholdAlert2: real
    var stepChange: real
    var alertLevel: Level
    var alert3Count: nat
    var countSinceAlert3: nat
    var noResponseCount: nat
    var lockoutActive: bool
    var lockoutCount: nat
    var lockoutDuration: nat
    var lockoutTimeElapsed: nat
    const alwaysOn: bool

    function Now(): State
      reads this
    {
      State(awareness, lastVisionAwareness, lastWheeltouchAwareness, activePolicy, thresholdAlert1, thresholdAlert2,
            stepChange, alertLevel, alert3Count, countSinceAlert3, noResponseCount, lockoutActive, lockoutCount,
            lockoutDuration, lockoutTimeElapsed)
    }

    constructor (alwaysOn: bool, tooDistracted: bool, savedLockouts: nat)
      ensures this.alwaysOn == alwaysOn && Now() == Initial(tooDistracted, savedLockouts)
      ensures Valid(Now()) && Above(Now(), 1.0)
    {
      this.alwaysOn := alwaysOn;
      alertLevel := None;
      alert3Count, countSinceAlert3, noResponseCount := 0, 0, 0;
      lockoutActive, lockoutCount, lockoutTimeElapsed := tooDistracted, savedLockouts, 0;
      lockoutDuration := LockoutTime(savedLockouts);
      stepChange, thresholdAlert1, thresholdAlert2 := 0.0, 0.0, 0.0;
      activePolicy := Vision;
      new;
      ResetAwareness();
      SetPolicy(Vision);
      InitialValid(tooDistracted, savedLockouts);
    }

    method ResetAwareness()
      modifies `awareness, `lastVisionAwareness, `lastWheeltouchAwareness
      ensures Now() == Reset(old(Now()))
    {
      awareness := 1.0;
      lastVisionAwareness := 1.0;
      lastWheeltouchAwareness := 1.0;
    }

    method SetPolicy(target: Policy)
      modifies this
      ensures Now() == WithPolicy(old(Now()), target)
    {
      if activePolicy == Vision && awareness <= thresholdAlert2 {
        if target == Vision {
          stepChange := DT / VISION_ALERT_3;
        } else {
          stepChange := 0.0;
        }
        return;
      } else if awareness <= 0.0 {
        return;
      }
      if target == Vision {
        if activePolicy != Vision {
          lastWheeltouchAwareness := awareness;
          awareness := lastVisionAwareness;
        }
        thresholdAlert1 := 1.0 - VISION_ALERT_1 / VISION_ALERT_3;
        thresholdAlert2 := 1.0 - VISION_ALERT_2 / VISION_ALERT_3;
        stepChange := DT / VISION_ALERT_3;
        activePolicy := Vision;
      } else {
        if activePolicy == Vision {
          lastVisionAwareness := awareness;
          awareness := lastWheeltouchAwareness;
        }
        thresholdAlert1 := 1.0 - WHEELTOUCH_ALERT_1 / WHEELTOUCH_ALERT_3;
        thresholdAlert2 := 1.0 - WHEELTOUCH_ALERT_2 / WHEELTOUCH_ALERT_3;
        stepChange := DT / WHEELTOUCH_ALERT_3;
        activePolicy := Wheeltouch;
      }
    }

    method StartLockout()
      modifies `lockoutActive, `lockoutCount, `lockoutDuration
      ensures Now() == Started(old(Now()))
    {
      hide LockoutTime;
      if alert3Count >= MAX_ALERT_3 || noResponseCount >= MAX_NO_RESPONSE {
        if !lockoutActive {
          lockoutCount := lockoutCount + 1;
          lockoutDuration := LockoutTime(lockoutCount);
        }
        lockoutActive := true;
      }
    }

    method UpdateLockout()
      modifies `lockoutActive, `lockoutCount, `lockoutDuration, `lockoutTimeElapsed, `alert3Count, `countSinceAlert3,
        `noResponseCount
      ensures Now() == WithLockout(old(Now()))
    {
      hide Started;
      StartLockout();
      if lockoutActive {
        lockoutTimeElapsed := lockoutTimeElapsed + 1;
        if lockoutTimeElapsed > lockoutDuration {
          lockoutActive := false;
          alert3Count := 0;
          countSinceAlert3 := 0;
          noResponseCount := 0;
          lockoutTimeElapsed := 0;
        }
      }
    }

    method UpdateAlert(awarenessBefore: real)
      requires alertLevel == None
      modifies `alertLevel, `alert3Count, `countSinceAlert3, `noResponseCount
      ensures Now() == Alerted(old(Now()), awarenessBefore)
    {
      if awareness <= 0.0 {
        alertLevel := Three;
        if awarenessBefore > 0.0 {
          alert3Count := alert3Count + 1;
          countSinceAlert3 := 0;
        } else {
          countSinceAlert3 := countSinceAlert3 + 1;
        }
        if countSinceAlert3 == NO_RESPONSE_TIMEOUT {
          noResponseCount := noResponseCount + 1;
        }
      } else if awareness <= thresholdAlert2 {
        alertLevel := Two;
      } else if awareness <= thresholdAlert1 {
        alertLevel := One;
      }
    }

    method RestoreAwareness()
      modifies `awareness, `lastWheeltouchAwareness
      ensures Now() == Recovered(old(Now()))
    {
      awareness := Min(awareness + ((RECOVERY_MAX - RECOVERY_MIN) * (1.0 - awareness)
        + RECOVERY_MIN) * stepChange, 1.0);
      if awareness == 1.0 {
        lastWheeltouchAwareness := Min(lastWheeltouchAwareness + stepChange, 1.0);
      }
    }

    method WeighAttention(i: Input)
      requires alertLevel == None
      modifies this
      ensures Now() == Weighed(old(Now()), i, alwaysOn)
    {
      hide Alerted, Recovered, Max;
      ghost var t := Now();
      var alwaysOnValid := alwaysOn && !i.wrongGear;
      var awarenessBefore := awareness;
      var lowspeedExemption := i.lowspeed && awareness - stepChange <= thresholdAlert1;
      var alwaysOnExemption := alwaysOnValid && !i.opEngaged && awareness - stepChange <= 0.0;
      if awareness > 0.0 && ((i.distraction < 0.37 && i.faceDetected && i.lowStd) || lowspeedExemption) {
        if i.driverEngaged {
          ResetAwareness();
          return;
        }
        RestoreAwareness();
        RecoveryTouches(t);
        if awareness > thresholdAlert2 {
          return;
        }
      }
      var certainlyDistracted := i.distraction > 0.63 && i.distracted && i.faceDetected;
      var maybeDistracted := i.modelUncertain || !i.faceDetected;
      if certainlyDistracted || maybeDistracted {
        if !(lowspeedExemption || alwaysOnExemption) {
          awareness := Max(awareness - stepChange, -0.1);
        }
      }
      UpdateAlert(awarenessBefore);
    }

    method UpdateEvents(i: Input)
      modifies this
      ensures Now() == WithEvents(old(Now()), i, alwaysOn)
    {
      hide WithLockout, Weighed;
      alertLevel := None;
      UpdateLockout();
      LockoutTouches(old(Now()).(level := None));
      var alwaysOnValid := alwaysOn && !i.wrongGear;
      if (i.driverEngaged && awareness > 0.0 && activePolicy == Wheeltouch) || (!alwaysOnValid && !i.opEngaged)
        || (alwaysOnValid && !i.opEngaged && awareness <= 0.0) {
        ResetAwareness();
      } else {
        WeighAttention(i);
      }
    }

    method RunStep(i: Input)
      modifies this
      ensures Now() == Next(old(Now()), i, alwaysOn)
      ensures old(Valid(Now())) ==> Valid(Now())
    {
      hide WithPolicy, WithEvents, Valid;
      if i.hasModel {
        SetPolicy(Target(i));
      }
      UpdateEvents(i);
      if old(Valid(Now())) {
        ValidNext(old(Now()), i, alwaysOn);
      }
    }
  }
}
