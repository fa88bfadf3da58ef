/** The vocabulary of the safety interlock and its transition function on values. */
module Interlock {

  datatype Phase =
    | AllRed | GreenNs | YellowNs | GreenEw | YellowEw | GreenNsLeft | GreenEwLeft
    | FlashYellowNs | FlashYellowEw | FlashAllRed

  datatype MajorApproach = NS | EW | Unknown

  datatype State = Green | Yellow | Clearing | Emergency | FlashClearance | Flash

  /** A configured duration in seconds; runtime configuration may be corrupt. */
  datatype Schedule = Fin(r: real) | NaN | PosInf | NegInf

  datatype Timings = Timings(
    minGreen: Schedule,
    yellow: Schedule,
    allRed: Schedule,
    maxGreen: Schedule,
    emergencyGreen: Schedule)

  const MAX_GREEN_S: real := 60.0
  const ALL_RED_S: real := 2.0
  const STUCK_S: real := 8.0
  const STUCK_YELLOW_S: real := 4.0
  const RING: seq<Phase> := [AllRed, GreenNs, YellowNs, AllRed, GreenEw, YellowEw]

  /** `elapsed >= s` on floats: false against NaN. */
  predicate Reached(elapsed: real, s: Schedule) {
    match s
    case Fin(r) => elapsed >= r
    case NaN => false
    case PosInf => false
    case NegInf => true
  }

  predicate Trusted(s: Schedule) { s.Fin? && 0.0 <= s.r <= MAX_GREEN_S }

  predicate IsGreen(p: Phase) { p in {GreenNs, GreenEw, GreenNsLeft, GreenEwLeft} }

  predicate IsYellow(p: Phase) { p in {YellowNs, YellowEw} }

  predicate IsNs(p: Phase) { p in {GreenNs, GreenNsLeft, YellowNs} }

  predicate IsFlash(p: Phase) { p in {FlashYellowNs, FlashYellowEw, FlashAllRed} }

  function YellowFor(p: Phase): Phase { if IsNs(p) then YellowNs else YellowEw }

  function OppositeGreen(p: Phase): Phase { if IsNs(p) then GreenEw else GreenNs }

  function FlashPhaseFor(m: MajorApproach): Phase {
    match m
    case NS => FlashYellowNs
    case EW => FlashYellowEw
    case Unknown => FlashAllRed
  }

  function RingDuration(t: Timings, p: Phase): Schedule {
    if IsGreen(p) then t.emergencyGreen else if IsYellow(p) then t.yellow else t.allRed
  }

  function FlashClearanceS(t: Timings): real {
    if t.allRed.Fin? && 0.0 < t.allRed.r <= MAX_GREEN_S then t.allRed.r else ALL_RED_S
  }

  /** The interlock's fields. */
  datatype Core = Core(
    state: State,
    applied: Phase,
    target: Phase,
    targetValid: bool,
    phaseStart: real,
    emergency: bool,
    ringIdx: nat,
    stuck: Phase)

  function Boot(now: real): Core {
    Core(Clearing, AllRed, GreenNs, false, now, false, 0, AllRed)
  }

  predicate InFlash(c: Core) { c.state.FlashClearance? || c.state.Flash? }

  function BeginYellow(c: Core, target: Phase, now: real): Core {
    c.(target := target, targetValid := true, applied := YellowFor(c.applied), state := Yellow, phaseStart := now)
  }

  function StepFlash(t: Timings, major: MajorApproach, c: Core, now: real): (r: Core)
    ensures r.emergency == c.emergency && r.ringIdx == c.ringIdx && (InFlash(c) ==> InFlash(r))
  {
    if c.state.FlashClearance? && now - c.phaseStart >= FlashClearanceS(t)
    then c.(state := Flash, applied := FlashPhaseFor(major), phaseStart := now)
    else c
  }

  /** A corrupt schedule froze the shown phase: clear the box, then flash. */
  function Escalate(t: Timings, major: MajorApproach, c: Core, stuck: Phase, now: real): (r: Core)
    ensures r == c.(stuck := stuck, state := FlashClearance, applied := AllRed, phaseStart := now)
  {
    StepFlash(t, major, c.(stuck := stuck, state := FlashClearance, applied := AllRed, phaseStart := now), now)
  }

  function StepGreen(t: Timings, major: MajorApproach, c: Core, desired: Phase, now: real): (r: Core)
    ensures r.emergency == c.emergency && r.ringIdx == c.ringIdx && (!c.state.Flash? ==> !r.state.Flash?)
  {
    var elapsed := now - c.phaseStart;
    var want := if IsGreen(desired) then desired else c.applied;
    if !Trusted(t.maxGreen) && elapsed >= MAX_GREEN_S then Escalate(t, major, c, c.applied, now)
    else if Reached(elapsed, t.maxGreen) then
      BeginYellow(c, if want != c.applied then want else OppositeGreen(c.applied), now)
    else if want != c.applied && Reached(elapsed, t.minGreen) then BeginYellow(c, want, now)
    else c
  }

  function StepYellow(t: Timings, major: MajorApproach, c: Core, now: real): (r: Core)
    ensures r.emergency == c.emergency && r.ringIdx == c.ringIdx && (!c.state.Flash? ==> !r.state.Flash?)
  {
    var elapsed := now - c.phaseStart;
    if !Trusted(t.yellow) && elapsed >= STUCK_YELLOW_S then Escalate(t, major, c, c.applied, now)
    else if Reached(elapsed, t.yellow) then c.(applied := AllRed, state := Clearing, phaseStart := now)
    else c
  }

  function StepClearing(t: Timings, major: MajorApproach, c: Core, desired: Phase, now: real): (r: Core)
    ensures r.emergency == c.emergency && r.ringIdx == c.ringIdx && (!c.state.Flash? ==> !r.state.Flash?)
  {
    var elapsed := now - c.phaseStart;
    if !Trusted(t.allRed) && elapsed >= STUCK_S then Escalate(t, major, c, c.applied, now)
    else
      var c' := if !c.targetValid && IsGreen(desired) then c.(target := desired, targetValid := true) else c;
      if Reached(elapsed, t.allRed) && c'.targetValid
      then c'.(applied := c'.target, state := Green, phaseStart := now)
      else c'
  }

  function StepEmergency(t: Timings, major: MajorApproach, c: Core, now: real): (r: Core)
    requires c.ringIdx < 6
    ensures r.emergency == c.emergency && (InFlash(c) ==> InFlash(r))
    ensures r.ringIdx < 6 && (!c.state.Flash? ==> !r.state.Flash?)
  {
    var current := RING[c.ringIdx];
    var elapsed := now - c.phaseStart;
    var schedule := RingDuration(t, current);
    if Reached(elapsed, schedule) then
      var next := (c.ringIdx + 1) % 6;
      c.(ringIdx := next, applied := RING[next], phaseStart := now)
    else if !Trusted(schedule) && elapsed >= (if IsYellow(current) then STUCK_YELLOW_S else STUCK_S) then
      Escalate(t, major, c, current, now)
    else c
  }

  function Validated(t: Timings, major: MajorApproach, c: Core, desired: Phase, now: real): (r: Core)
    requires c.ringIdx < 6
    ensures r.ringIdx < 6 && (!InFlash(c) ==> !r.state.Flash?)
  {
    if InFlash(c) then StepFlash(t, major, c, now)
    else if c.emergency then StepEmergency(t, major, c, now)
    else
      match c.state
      case Green => StepGreen(t, major, c, desired, now)
      case Yellow => StepYellow(t, major, c, now)
      case Clearing => StepClearing(t, major, c, desired, now)
      case Emergency => StepEmergency(t, major, c, now)
      case FlashClearance => StepFlash(t, major, c, now)
      case Flash => StepFlash(t, major, c, now)
  }

  function Toggled(c: Core, on: bool, now: real): Core {
    if InFlash(c) || on == c.emergency then c
    else if on then c.(emergency := true, state := Emergency, ringIdx := 0, applied := AllRed, phaseStart := now)
    else c.(emergency := false, state := Clearing, applied := AllRed, targetValid := false, phaseStart := now)
  }

  function WasReset(c: Core, now: real): Core {
    c.(state := Clearing, applied := AllRed, targetValid := false, emergency := false, ringIdx := 0,
       stuck := AllRed, phaseStart := now)
  }

  datatype Event = Validate(desired: Phase) | SetEmergency(on: bool) | Reset

  function Apply(t: Timings, major: MajorApproach, c: Core, e: Event, now: real): Core
    requires c.ringIdx < 6
  {
    match e
    case Validate(desired) => Validated(t, major, c, desired, now)
    case SetEmergency(on) => Toggled(c, on, now)
    case Reset => WasReset(c, now)
  }

  /** What every reachable interlock satisfies, whatever the timings. */
  ghost predicate Sound(major: MajorApproach, c: Core) {
    && c.ringIdx < 6
    && (c.targetValid ==> IsGreen(c.target))
    && (c.state.Emergency? ==> c.emergency && c.applied == RING[c.ringIdx])
    && (!InFlash(c) && c.emergency ==> c.state.Emergency?)
    && match c.state
       case Green => IsGreen(c.applied)
       case Yellow => IsYellow(c.applied) && c.targetValid
       case Clearing => c.applied == AllRed
       case Emergency => true
       case FlashClearance => c.applied == AllRed
       case Flash => c.applied == FlashPhaseFor(major)
  }

  lemma ApplyKeepsSound(t: Timings, major: MajorApproach, c: Core, e: Event, now: real)
    requires Sound(major, c)
    ensures Sound(major, Apply(t, major, c, e, now))
  {
  }

  /** Polling never moves the emergency flag nor leaves the flash path. */
  lemma PollKeepsEmergency(t: Timings, major: MajorApproach, c: Core, desired: Phase, now: real)
    requires c.ringIdx < 6
    ensures Validated(t, major, c, desired, now).emergency == c.emergency
    ensures InFlash(c) ==> InFlash(Validated(t, major, c, desired, now))
  {
    hide StepFlash, StepGreen, StepYellow, StepClearing, StepEmergency;
  }

  /** Which branch a poll outside the ring takes. */
  lemma NormalPoll(t: Timings, major: MajorApproach, c: Core, desired: Phase, now: real)
    requires c.ringIdx < 6 && !c.emergency
    ensures Validated(t, major, c, desired, now) ==
      match c.state
      case Green => StepGreen(t, major, c, desired, now)
      case Yellow => StepYellow(t, major, c, now)
      case Clearing => StepClearing(t, major, c, desired, now)
      case Emergency => StepEmergency(t, major, c, now)
      case _ => StepFlash(t, major, c, now)
  {
  }

  // ------------------------------------------------------------------- runs

  /** states[k] is shown from times[k] on; events[k] happens at times[k + 1]. */
  datatype History = History(states: seq<Core>, events: seq<Event>, times: seq<real>)

  ghost predicate IsRun(t: Timings, major: MajorApproach, h: History) {
    && |h.states| == |h.times| == |h.events| + 1
    && h.states[0] == Boot(h.times[0])
    && forall k {:trigger h.events[k]} :: 0 <= k < |h.events| ==>
         && h.states[k].ringIdx < 6
         && h.states[k + 1] == Apply(t, major, h.states[k], h.events[k], h.times[k + 1])
  }

  ghost predicate Monotone(h: History) {
    forall i, j :: 0 <= i <= j < |h.times| ==> h.times[i] <= h.times[j]
  }

  lemma {:induction false} RunIsSound(t: Timings, major: MajorApproach, h: History, k: nat)
    requires IsRun(t, major, h) && k < |h.states|
    ensures Sound(major, h.states[k])
  {
    if k == 0 {
    } else {
      RunIsSound(t, major, h, k - 1);
      ApplyKeepsSound(t, major, h.states[k - 1], h.events[k - 1], h.times[k]);
    }
  }

  lemma RunExtends(t: Timings, major: MajorApproach, h: History, e: Event, now: real) returns (h': History)
    requires IsRun(t, major, h)
    ensures h.states[|h.events|].ringIdx < 6
    ensures h' == History(h.states + [Apply(t, major, h.states[|h.events|], e, now)], h.events + [e], h.times + [now])
    ensures IsRun(t, major, h')
  {
    RunIsSound(t, major, h, |h.events|);
    h' := History(h.states + [Apply(t, major, h.states[|h.events|], e, now)], h.events + [e], h.times + [now]);
    forall k | 0 <= k < |h'.events|
      ensures h'.states[k].ringIdx < 6
      ensures h'.states[k + 1] == Apply(t, major, h'.states[k], h'.events[k], h'.times[k + 1])
    {
      if k < |h.events| { assert h.events[k] == h'.events[k]; }
    }
  }
}
