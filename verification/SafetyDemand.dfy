/** What is asked for is served: when a green gives way, which green follows, what the first green
    after a clearance is, and exactly when a poll escalates. */
module SafetyDemand {
  import opened Interlock
  import opened SafetyRuns
  import opened SafetyAmber
  import opened SafetyService

  /** The configured time has passed: of the times that are not finite, only minus infinity does. */
  predicate Lasted(elapsed: real, s: Schedule) { s.NegInf? || (s.Fin? && elapsed >= s.r) }

  /** A schedule that can be a phase time. */
  predicate Plausible(s: Schedule) { s.Fin? && 0.0 <= s.r <= 60.0 }

  lemma SchedulesAreRead()
    ensures forall elapsed, s :: Reached(elapsed, s) <==> Lasted(elapsed, s)
    ensures forall s :: Trusted(s) <==> Plausible(s)
  {
  }

  // -------------------------------------------------- when a green gives way

  /** The green a poll that asks for w leads to, from green g. */
  function Follower(g: Phase, w: Phase): Phase {
    if w in {GreenNs, GreenEw, GreenNsLeft, GreenEwLeft} && w != g then w
    else if g in {GreenNs, GreenNsLeft} then GreenEw
    else GreenNs
  }

  /** One poll of a green outside emergency, before the corruption guard: it goes out into the amber
      of its own axis at max-green, or from min-green on if another green is asked for. */
  lemma GreenPoll(t: Timings, major: MajorApproach, c: Core, w: Phase, now: real)
    requires Sound(major, c) && c.state.Green?
    requires Plausible(t.maxGreen) || now - c.phaseStart < 60.0
    ensures var c', elapsed := Validated(t, major, c, w, now), now - c.phaseStart;
            var other := w in {GreenNs, GreenEw, GreenNsLeft, GreenEwLeft} && w != c.applied;
            if Lasted(elapsed, t.maxGreen) || (other && Lasted(elapsed, t.minGreen)) then
              && c'.state.Yellow? && c'.target == Follower(c.applied, w) && c'.phaseStart == now
              && c'.applied == if c.applied in {GreenNs, GreenNsLeft} then YellowNs else YellowEw
            else c' == c
  {
    hide Reached, Lasted;
    SchedulesAreRead();
    NormalPoll(t, major, c, w, now);
  }

  /** The green lit at i is still on at k, outside emergency, and is polled there before the
      corruption guard fires. */
  ghost predicate PolledGreen(t: Timings, h: History, i: nat, k: nat) {
    && |h.states| == |h.times| == |h.events| + 1 && 0 < i <= k < |h.events|
    && h.states[k].applied in {GreenNs, GreenEw, GreenNsLeft, GreenEwLeft} && Shows(h, i, k + 1, h.states[k].applied)
    && h.states[i - 1].applied != h.states[i].applied
    && !EmergencyAsked(h, k) && h.events[k].Validate?
    && (Plausible(t.maxGreen) || h.times[k + 1] - h.times[i] < 60.0)
  }

  /** On every run: such a poll takes the green off the heads exactly when it has been lit for
      max-green, or another green is asked for and it has been lit for min-green; and then its
      own amber is shown. */
  lemma GreenGivesWayExactly(t: Timings, major: MajorApproach, h: History, i: nat, k: nat)
    requires IsRun(t, major, h) && PolledGreen(t, h, i, k)
    ensures var g, w, elapsed := h.states[k].applied, h.events[k].desired, h.times[k + 1] - h.times[i];
            var other := w in {GreenNs, GreenEw, GreenNsLeft, GreenEwLeft} && w != g;
            h.states[k + 1].applied ==
              if Lasted(elapsed, t.maxGreen) || (other && Lasted(elapsed, t.minGreen))
              then if g in {GreenNs, GreenNsLeft} then YellowNs else YellowEw
              else g
  {
    hide Validated, Reached, Lasted;
    SchedulesAreRead();
    PolledCore(t, major, h, i, k);
    GreenPoll(t, major, h.states[k], h.events[k].desired, h.times[k + 1]);
  }

  lemma PolledCore(t: Timings, major: MajorApproach, h: History, i: nat, k: nat)
    requires IsRun(t, major, h) && PolledGreen(t, h, i, k)
    ensures Sound(major, h.states[k]) && h.states[k].state.Green? && h.states[k].phaseStart == h.times[i]
    ensures h.states[k + 1] == Validated(t, major, h.states[k], h.events[k].desired, h.times[k + 1])
  {
    StepAt(t, major, h, k);
    LampStampHolds(t, major, h, i, k);
    GreenIsNoFlash(major, h.states[k]);
    FlagIsAsked(t, major, h, k);
  }

  /** And then, whatever is asked for later, the green asked for at that poll begins (the through
      green of the other axis, if no other green was asked for) within amber, clearance and two
      polling gaps. */
  lemma RequestIsServed(t: Timings, major: MajorApproach, h: History, i: nat, k: nat, b: nat, d: real) returns (z: nat)
    requires IsRun(t, major, h) && PolledGreen(t, h, i, k) && CycleTrusted(t)
    requires h.states[k + 1].applied != h.states[k].applied
    requires Polled(h, k + 1, b, d) && d >= 0.0
    requires h.times[b] > h.times[k + 1] + t.yellow.r + t.allRed.r + 2.0 * d
    ensures k + 1 < z <= b && Begins(h, z, Follower(h.states[k].applied, h.events[k].desired))
    ensures h.times[z] <= h.times[k + 1] + t.yellow.r + t.allRed.r + 2.0 * d
  {
    hide Validated, Reached, Lasted;
    SchedulesAreRead();
    PolledCore(t, major, h, i, k);
    GreenPoll(t, major, h.states[k], h.events[k].desired, h.times[k + 1]);
    var r := CycleMoves(t, major, h, k + 1, b, d);
    RunIsSound(t, major, h, r);
    PolledSuffix(h, k + 1, r, b, d);
    z := CycleMoves(t, major, h, r, b, d);
  }

  /** A green w that is asked for at every poll while another one, lit at i, is shown begins within
      the rest of min-green, amber, clearance and three polling gaps. */
  lemma {:induction false} RequestServedInTime(t: Timings, major: MajorApproach, h: History, i: nat, a: nat, b: nat,
                                               d: real, w: Phase) returns (z: nat)
    requires IsRun(t, major, h) && CycleTrusted(t) && Trusted(t.minGreen) && d >= 0.0
    requires Polled(h, a, b, d) && Asks(h, a, b, w) && 0 < i <= a < b && !EmergencyAsked(h, a)
    requires h.states[a].applied in {GreenNs, GreenEw, GreenNsLeft, GreenEwLeft} && h.states[a].applied != w
    requires Shows(h, i, a + 1, h.states[a].applied) && h.states[i - 1].applied != h.states[i].applied
    requires h.times[b] > Later(h.times[a], h.times[i] + t.minGreen.r) + t.yellow.r + t.allRed.r + 3.0 * d
    ensures a < z <= b && Begins(h, z, w)
    ensures h.times[z] <= Later(h.times[a], h.times[i] + t.minGreen.r) + t.yellow.r + t.allRed.r + 3.0 * d
    decreases b - a
  {
    hide Validated, IsRun, Apply;
    assert h.events[a] == Validate(w);
    PolledStep(t, major, h, a, b, d);
    GreenGivesWayExactly(t, major, h, i, a);
    if h.states[a + 1].applied != h.states[a].applied {
      z := RequestIsServed(t, major, h, i, a, b, d);
    } else {
      assert h.times[a + 1] < h.times[i] + t.minGreen.r;
      z := RequestServedInTime(t, major, h, i, a + 1, b, d, w);
    }
  }

  // -------------------------------------------------- the first green after a clearance

  predicate AsksGreen(e: Event) { e.Validate? && e.desired in {GreenNs, GreenEw, GreenNsLeft, GreenEwLeft} }

  /** A clearance nobody has asked to leave begins at moment a: at the boot, at a reset, or when the
      emergency ends. */
  ghost predicate FreshClearance(h: History, a: nat)
    requires |h.states| == |h.events| + 1 && a < |h.states|
  {
    || a == 0
    || h.events[a - 1] == Reset
    || (h.events[a - 1] == SetEmergency(false) && EmergencyAsked(h, a - 1) && !InFlash(h.states[a - 1]))
  }

  /** The first poll from a on, before k, that asks for a green. */
  ghost predicate FirstAsked(h: History, a: nat, k: nat, f: nat)
    requires k <= |h.events|
  {
    a <= f < k && AsksGreen(h.events[f]) && forall e :: a <= e < f ==> !AsksGreen(h.events[e])
  }

  /** From a to k the interlock is polled in ALL_RED, and the corruption guard does not fire. */
  ghost predicate QuietClearance(t: Timings, h: History, a: nat, k: nat) {
    && |h.states| == |h.times| == |h.events| + 1 && a <= k < |h.states| && Monotone(h)
    && PollsOnly(h, a, k) && Shows(h, a, k + 1, AllRed)
    && (Plausible(t.allRed) || h.times[k] - h.times[a] < 8.0)
  }

  lemma FreshCore(t: Timings, major: MajorApproach, h: History, a: nat)
    requires IsRun(t, major, h) && a < |h.states| && FreshClearance(h, a)
    ensures var c := h.states[a];
            c.state.Clearing? && c.applied == AllRed && !c.targetValid && !c.emergency && c.phaseStart == h.times[a]
  {
    if a > 0 {
      StepAt(t, major, h, a - 1);
      if h.events[a - 1] == SetEmergency(false) { FlagIsAsked(t, major, h, a - 1); }
    }
  }

  lemma ClearingPoll(t: Timings, major: MajorApproach, c: Core, w: Phase, now: real)
    requires Sound(major, c) && c.state.Clearing? && !c.emergency
    requires Plausible(t.allRed) || now - c.phaseStart < 8.0
    ensures var c' := Validated(t, major, c, w, now);
            var asked := w in {GreenNs, GreenEw, GreenNsLeft, GreenEwLeft};
            var target := if c.targetValid then c.target else w;
            if (c.targetValid || asked) && Lasted(now - c.phaseStart, t.allRed) then c'.applied == target
            else
              && c'.state.Clearing? && c'.applied == AllRed && !c'.emergency && c'.phaseStart == c.phaseStart
              && c'.targetValid == (c.targetValid || asked) && (c'.targetValid ==> c'.target == target)
  {
    hide Reached, Lasted;
    SchedulesAreRead();
    NormalPoll(t, major, c, w, now);
  }

  /** Meanwhile the interlock remembers the first green asked for. */
  lemma {:induction false} ClearingRemembers(t: Timings, major: MajorApproach, h: History, a: nat, k: nat)
    requires IsRun(t, major, h) && QuietClearance(t, h, a, k) && FreshClearance(h, a)
    ensures var c := h.states[k];
            && c.state.Clearing? && !c.emergency && c.phaseStart == h.times[a]
            && (c.targetValid <==> exists f :: a <= f < k && AsksGreen(h.events[f]))
            && (c.targetValid ==> exists f: nat :: FirstAsked(h, a, k, f) && c.target == h.events[f].desired)
    decreases k
  {
    hide Validated, Reached, Lasted, IsRun, Apply;
    SchedulesAreRead();
    FreshCore(t, major, h, a);
    if a == k {
    } else {
      assert h.times[k - 1] <= h.times[k];
      ClearingRemembers(t, major, h, a, k - 1);
      StepAt(t, major, h, k - 1);
      PollApplies(t, major, h.states[k - 1], h.events[k - 1], h.times[k]);
      ClearingPoll(t, major, h.states[k - 1], h.events[k - 1].desired, h.times[k]);
      if h.states[k - 1].targetValid {
        var f: nat :| FirstAsked(h, a, k - 1, f) && h.states[k - 1].target == h.events[f].desired;
        assert FirstAsked(h, a, k, f);
      } else if AsksGreen(h.events[k - 1]) {
        assert FirstAsked(h, a, k, k - 1);
      }
    }
  }

  lemma PollApplies(t: Timings, major: MajorApproach, c: Core, e: Event, now: real)
    requires c.ringIdx < 6 && e.Validate?
    ensures Apply(t, major, c, e, now) == Validated(t, major, c, e.desired, now)
  {
  }

  /** The first green after the boot, a reset or an emergency begins exactly at the first poll at
      which the clearance has lasted and some green has been asked for, and it is the first one
      asked for since: what was asked for before counts no more. */
  lemma FirstGreenExactly(t: Timings, major: MajorApproach, h: History, a: nat, k: nat)
    requires IsRun(t, major, h) && QuietClearance(t, h, a, k) && FreshClearance(h, a)
    requires k < |h.events| && h.events[k].Validate? && (Plausible(t.allRed) || h.times[k + 1] - h.times[a] < 8.0)
    ensures h.states[k + 1].applied != AllRed <==>
            Lasted(h.times[k + 1] - h.times[a], t.allRed) && exists f :: a <= f <= k && AsksGreen(h.events[f])
    ensures h.states[k + 1].applied != AllRed ==>
            exists f: nat :: FirstAsked(h, a, k + 1, f) && h.states[k + 1].applied == h.events[f].desired
  {
    hide Validated, Reached, Lasted, IsRun, Apply;
    SchedulesAreRead();
    ClearingRemembers(t, major, h, a, k);
    StepAt(t, major, h, k);
    PollApplies(t, major, h.states[k], h.events[k], h.times[k + 1]);
    ClearingPoll(t, major, h.states[k], h.events[k].desired, h.times[k + 1]);
    if h.states[k].targetValid {
      var f: nat :| FirstAsked(h, a, k, f) && h.states[k].target == h.events[f].desired;
      assert FirstAsked(h, a, k + 1, f);
    } else if AsksGreen(h.events[k]) {
      assert FirstAsked(h, a, k + 1, k);
    }
  }

  // -------------------------------------------------- exactly when a poll escalates

  /** The schedule that times the display, and how long an untrusted one may show it. */
  function ScheduleOf(t: Timings, emergency: bool, p: Phase): Schedule {
    if p in {YellowNs, YellowEw} then t.yellow
    else if p == AllRed then t.allRed
    else if emergency then t.emergencyGreen
    else t.maxGreen
  }

  function Patience(emergency: bool, p: Phase): real {
    if p in {YellowNs, YellowEw} then 4.0
    else if p == AllRed || emergency then 8.0
    else 60.0
  }

  /** A poll escalates exactly when the schedule of the display is untrusted, the display has been
      on for 4 s (amber), 8 s (ALL_RED, or a green of the ring) or 60 s (a green), and in the ring
      its own timer has not fired. It then shows ALL_RED. */
  lemma EscalatesExactly(t: Timings, major: MajorApproach, c: Core, w: Phase, now: real)
    requires Sound(major, c) && !InFlash(c)
    ensures var c', elapsed := Validated(t, major, c, w, now), now - c.phaseStart;
            var s := ScheduleOf(t, c.emergency, c.applied);
            && (InFlash(c') <==> !Plausible(s) && elapsed >= Patience(c.emergency, c.applied)
                                 && (c.emergency ==> !Lasted(elapsed, s)))
            && (InFlash(c') ==> c'.state.FlashClearance? && c'.applied == AllRed && c'.phaseStart == now)
  {
    hide Reached, Lasted, Trusted, Plausible;
    SchedulesAreRead();
    if c.emergency {
      RingEscalates(t, major, c, now);
    } else {
      NormalPoll(t, major, c, w, now);
    }
  }

  lemma RingEscalates(t: Timings, major: MajorApproach, c: Core, now: real)
    requires Sound(major, c) && c.state.Emergency?
    ensures var c', elapsed := StepEmergency(t, major, c, now), now - c.phaseStart;
            var s := ScheduleOf(t, true, c.applied);
            && (InFlash(c') <==> !Plausible(s) && elapsed >= Patience(true, c.applied) && !Lasted(elapsed, s))
            && (InFlash(c') ==> c'.state.FlashClearance? && c'.applied == AllRed && c'.phaseStart == now)
  {
    hide Reached, Lasted, Trusted, Plausible;
    SchedulesAreRead();
  }

  // -------------------------------------------------- the fallback ring

  /** The fallback entered by event a is still on at k, with nothing but polls since. */
  ghost predicate InRing(h: History, a: nat, k: nat) {
    && |h.states| == |h.times| == |h.events| + 1 && a < k < |h.states|
    && h.events[a] == SetEmergency(true) && !h.states[a].emergency && !InFlash(h.states[a])
    && !InFlash(h.states[k])
    && forall j :: a < j < k ==> h.events[j].Validate? || h.events[j] == SetEmergency(true)
  }

  /** The displays from a to k, one entry for each stretch. */
  ghost function Stretches(h: History, a: nat, k: nat): seq<Phase>
    requires a <= k < |h.states|
    decreases k
  {
    if k == a then [h.states[a].applied]
    else
      var earlier := Stretches(h, a, k - 1);
      if h.states[k].applied == h.states[k - 1].applied then earlier else earlier + [h.states[k].applied]
  }

  /** One poll of the ring: to the next entry once the time of the entry has come, else no move. */
  lemma RingPollExactly(t: Timings, major: MajorApproach, c: Core, w: Phase, now: real)
    requires Sound(major, c) && c.state.Emergency?
    ensures var c', s, next := Validated(t, major, c, w, now), ScheduleOf(t, true, c.applied), (c.ringIdx + 1) % 6;
            if Lasted(now - c.phaseStart, s)
            then c' == c.(ringIdx := next, applied := RING[next], phaseStart := now) && c'.applied != c.applied
            else c' == c || InFlash(c')
  {
    hide Reached, Lasted, Trusted, Plausible;
    SchedulesAreRead();
  }

  lemma RingStep(t: Timings, major: MajorApproach, h: History, a: nat, k: nat)
    requires IsRun(t, major, h) && k > a + 1 && InRing(h, a, k)
    ensures InRing(h, a, k - 1)
    ensures h.events[k - 1].Validate? ==>
      h.states[k] == Validated(t, major, h.states[k - 1], h.events[k - 1].desired, h.times[k])
    ensures h.events[k - 1] == SetEmergency(true) ==>
      h.states[k] == Toggled(h.states[k - 1], true, h.times[k])
  {
    StepAt(t, major, h, k - 1);
    if h.events[k - 1].Validate? {
      PollKeepsEmergency(t, major, h.states[k - 1], h.events[k - 1].desired, h.times[k]);
    }
  }

  /** These are displays of the ring in its order, from the first entry on up to entry i. */
  ghost predicate InOrder(d: seq<Phase>, i: nat) {
    && |d| % 6 == (i + 1) % 6
    && forall n :: 0 <= n < |d| ==> d[n] == [AllRed, GreenNs, YellowNs, AllRed, GreenEw, YellowEw][n % 6]
  }

  lemma OrderExtends(d: seq<Phase>, i: nat)
    requires i < 6 && InOrder(d, i)
    ensures InOrder(d + [RING[(i + 1) % 6]], (i + 1) % 6)
  {
  }

  /** Once entered, the fallback shows ALL_RED and from there NS green, NS amber, ALL_RED, EW green,
      EW amber, ALL_RED and so on, in this order and none left out. */
  lemma {:induction false} FallbackCycles(t: Timings, major: MajorApproach, h: History, a: nat, k: nat)
    requires IsRun(t, major, h) && InRing(h, a, k)
    ensures h.states[k].state.Emergency? && Sound(major, h.states[k])
    ensures InOrder(Stretches(h, a + 1, k), h.states[k].ringIdx)
  {
    hide Reached, Lasted, Trusted, Plausible, IsRun, Validated;
    SchedulesAreRead();
    RunIsSound(t, major, h, k);
    if k == a + 1 {
      FallbackBegins(t, major, h, a);
    } else {
      RingStep(t, major, h, a, k);
      FallbackCycles(t, major, h, a, k - 1);
      OrderExtends(Stretches(h, a + 1, k - 1), h.states[k - 1].ringIdx);
      hide InOrder;
      if h.events[k - 1].Validate? {
        RingPollExactly(t, major, h.states[k - 1], h.events[k - 1].desired, h.times[k]);
      }
    }
  }

  lemma FallbackBegins(t: Timings, major: MajorApproach, h: History, a: nat)
    requires IsRun(t, major, h) && InRing(h, a, a + 1)
    ensures var c := h.states[a + 1];
            c.state.Emergency? && c.ringIdx == 0 && c.applied == AllRed && c.phaseStart == h.times[a + 1]
  {
    StepAt(t, major, h, a);
  }

  /** The display of the ring at k began at i. */
  ghost predicate BeganAt(h: History, a: nat, i: nat, k: nat)
    requires k < |h.states|
  {
    && a < i <= k && Shows(h, i, k + 1, h.states[k].applied)
    && (i == a + 1 || h.states[i - 1].applied != h.states[i].applied)
  }

  lemma {:induction false} RingStamp(t: Timings, major: MajorApproach, h: History, a: nat, i: nat, k: nat)
    requires IsRun(t, major, h) && InRing(h, a, k) && BeganAt(h, a, i, k)
    ensures h.states[k].phaseStart == h.times[i]
  {
    hide Reached, Lasted, Trusted, Plausible, IsRun, Validated;
    SchedulesAreRead();
    if k == a + 1 {
      FallbackBegins(t, major, h, a);
    } else {
      RingStep(t, major, h, a, k);
      FallbackCycles(t, major, h, a, k - 1);
      if h.events[k - 1].Validate? {
        RingPollExactly(t, major, h.states[k - 1], h.events[k - 1].desired, h.times[k]);
      }
      if i < k { RingStamp(t, major, h, a, i, k - 1); }
    }
  }

  /** A poll moves the ring on exactly when its display has been on for its own time: the emergency
      green, the amber or the clearance. */
  lemma RingMovesExactly(t: Timings, major: MajorApproach, h: History, a: nat, i: nat, k: nat)
    requires IsRun(t, major, h) && k < |h.events| && h.events[k].Validate?
    requires InRing(h, a, k) && BeganAt(h, a, i, k)
    ensures var p, elapsed := h.states[k].applied, h.times[k + 1] - h.times[i];
            var s := if p in {YellowNs, YellowEw} then t.yellow else if p == AllRed then t.allRed else t.emergencyGreen;
            !InFlash(h.states[k + 1]) ==> (h.states[k + 1].applied != p <==> Lasted(elapsed, s))
    ensures var p, elapsed := h.states[k].applied, h.times[k + 1] - h.times[i];
            var s := if p in {YellowNs, YellowEw} then t.yellow else if p == AllRed then t.allRed else t.emergencyGreen;
            InFlash(h.states[k + 1]) ==> !Plausible(s) && !Lasted(elapsed, s)
  {
    hide Reached, Lasted, Trusted, Plausible, BeganAt, IsRun, Validated;
    SchedulesAreRead();
    RingStamp(t, major, h, a, i, k);
    FallbackCycles(t, major, h, a, k);
    StepAt(t, major, h, k);
    RingPollExactly(t, major, h.states[k], h.events[k].desired, h.times[k + 1]);
    EscalatesExactly(t, major, h.states[k], h.events[k].desired, h.times[k + 1]);
  }

  /** Out of the clearance FLASH begins at the first poll after the configured all-red, or after two
      seconds if that is not a positive time of at most a minute, and it shows the pattern of the
      major approach. */
  lemma FlashBeginsExactly(t: Timings, major: MajorApproach, c: Core, w: Phase, now: real)
    requires Sound(major, c) && c.state.FlashClearance?
    ensures var c' := Validated(t, major, c, w, now);
            var usable := t.allRed.Fin? && 0.0 < t.allRed.r <= 60.0;
            if now - c.phaseStart >= (if usable then t.allRed.r else 2.0) then
              && c'.state.Flash?
              && (major == NS ==> c'.applied == FlashYellowNs) && (major == EW ==> c'.applied == FlashYellowEw)
              && (major == MajorApproach.Unknown ==> c'.applied == FlashAllRed)
            else c' == c
  {
  }
}
