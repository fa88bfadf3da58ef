/** What every run of the interlock keeps. */
module SafetyRuns {
  import opened Interlock

  /** From moment i up to, not including, moment j the heads show p. */
  ghost predicate Shows(h: History, i: nat, j: nat, p: Phase) {
    && i <= j <= |h.states|
    && forall k :: i <= k < j ==> h.states[k].applied == p
  }

  /** Normal operation. */
  predicate Cycling(c: Core) { c.state.Green? || c.state.Yellow? || c.state.Clearing? }

  lemma StepAt(t: Timings, major: MajorApproach, h: History, k: nat)
    requires IsRun(t, major, h) && k < |h.events|
    ensures Sound(major, h.states[k]) && Sound(major, h.states[k + 1])
    ensures h.states[k + 1] == Apply(t, major, h.states[k], h.events[k], h.times[k + 1])
  {
    RunIsSound(t, major, h, k);
    RunIsSound(t, major, h, k + 1);
    assert h.events[k] == h.events[k];
  }

  // ----------------------------------------------------- clearance before green

  /** A step leaves display and stamp alone, or stamps the new display with now. */
  lemma ApplyStamps(t: Timings, major: MajorApproach, c: Core, e: Event, now: real)
    requires Sound(major, c)
    ensures var c' := Apply(t, major, c, e, now);
            c'.phaseStart == now || (c'.applied == c.applied && c'.phaseStart == c.phaseStart)
  {
  }

  /** phaseStart is a moment of the run from which the display has not changed. */
  lemma {:induction false} StampIsAMoment(t: Timings, major: MajorApproach, h: History, k: nat) returns (i: nat)
    requires IsRun(t, major, h) && k < |h.states|
    ensures i <= k && h.times[i] == h.states[k].phaseStart
    ensures Shows(h, i, k + 1, h.states[k].applied)
  {
    if k == 0 || h.states[k].phaseStart == h.times[k] {
      i := k;
    } else {
      StepAt(t, major, h, k - 1);
      ApplyStamps(t, major, h.states[k - 1], h.events[k - 1], h.times[k]);
      i := StampIsAMoment(t, major, h, k - 1);
    }
  }

  /** A green can only begin out of ALL_RED, after the configured clearance. */
  lemma GreenBeginsAfterClearing(t: Timings, major: MajorApproach, c: Core, e: Event, now: real)
    requires Sound(major, c)
    requires var c' := Apply(t, major, c, e, now); IsGreen(c'.applied) && c'.applied != c.applied
    ensures c.applied == AllRed && Reached(now - c.phaseStart, t.allRed) && e.Validate?
  {
    hide Reached, FlashClearanceS, Trusted, StepFlash, StepGreen, StepYellow, StepClearing, StepEmergency;
    if e.Validate? {
      FlashIsNoGreen(t, major, c, now);
      GreenIsNoNewGreen(t, major, c, e.desired, now);
      if c.state.Emergency? { RingGreenAfterClearing(t, major, c, now); }
      ClearingEnds(t, major, c, e.desired, now);
    }
  }

  lemma FlashIsNoGreen(t: Timings, major: MajorApproach, c: Core, now: real)
    ensures StepFlash(t, major, c, now).applied == c.applied || !IsGreen(StepFlash(t, major, c, now).applied)
  {
  }

  lemma GreenIsNoNewGreen(t: Timings, major: MajorApproach, c: Core, desired: Phase, now: real)
    ensures var g := StepGreen(t, major, c, desired, now).applied; g == c.applied || !IsGreen(g)
    ensures var y := StepYellow(t, major, c, now).applied; y == c.applied || !IsGreen(y)
  {
    hide Reached, Trusted;
  }

  lemma RingGreenAfterClearing(t: Timings, major: MajorApproach, c: Core, now: real)
    requires c.ringIdx < 6 && c.applied == RING[c.ringIdx]
    ensures var c' := StepEmergency(t, major, c, now);
            IsGreen(c'.applied) && c'.applied != c.applied ==>
              c.applied == AllRed && Reached(now - c.phaseStart, t.allRed)
  {
    hide Reached, Trusted;
  }

  lemma ClearingEnds(t: Timings, major: MajorApproach, c: Core, desired: Phase, now: real)
    ensures var c' := StepClearing(t, major, c, desired, now);
            IsGreen(c'.applied) && c'.applied != c.applied ==> Reached(now - c.phaseStart, t.allRed)
  {
    hide Reached, Trusted;
  }

  lemma ClearanceBeforeGreen(t: Timings, major: MajorApproach, h: History, b: nat) returns (i: nat)
    requires IsRun(t, major, h) && 1 <= b < |h.states|
    requires IsGreen(h.states[b].applied) && h.states[b].applied != h.states[b - 1].applied
    ensures i < b && Shows(h, i, b, AllRed) && Reached(h.times[b] - h.times[i], t.allRed)
  {
    StepAt(t, major, h, b - 1);
    GreenBeginsAfterClearing(t, major, h.states[b - 1], h.events[b - 1], h.times[b]);
    i := StampIsAMoment(t, major, h, b - 1);
  }

  /** The first moment of the display shown at b. */
  lemma {:induction false} DisplayStart(h: History, b: nat) returns (d: nat)
    requires b < |h.states|
    ensures d <= b && Shows(h, d, b + 1, h.states[b].applied)
    ensures d > 0 ==> h.states[d - 1].applied != h.states[b].applied
  {
    if b == 0 || h.states[b - 1].applied != h.states[b].applied {
      d := b;
    } else {
      d := DisplayStart(h, b - 1);
    }
  }

  /** Two separate green displays: the heads are in ALL_RED for at least the
      clearance, without a break, right up to the second one. */
  lemma GreensAreSeparated(t: Timings, major: MajorApproach, h: History, a: nat, b: nat) returns (i: nat, d: nat)
    requires IsRun(t, major, h) && a < b < |h.states|
    requires IsGreen(h.states[a].applied) && IsGreen(h.states[b].applied)
    requires exists m :: a < m <= b && h.states[m].applied != h.states[a].applied
    ensures a < i < d <= b
    ensures Shows(h, i, d, AllRed) && Reached(h.times[d] - h.times[i], t.allRed)
    ensures Shows(h, d, b + 1, h.states[b].applied)
  {
    d := DisplayStart(h, b);
    assert h.states[0].applied == AllRed;
    var m :| a < m <= b && h.states[m].applied != h.states[a].applied;
    assert d > a;
    i := ClearanceBeforeGreen(t, major, h, d);
    assert h.states[a].applied != AllRed;
  }

  // ------------------------------------------------------------ nothing freezes

  /** Displays that may not last: all but FLASH and an uncommitted ALL_RED. */
  predicate Timed(c: Core) {
    c.state.Green? || c.state.Yellow? || c.state.Emergency? || c.state.FlashClearance? ||
    (c.state.Clearing? && c.targetValid)
  }

  ghost predicate Young(c: Core, now: real) { Timed(c) ==> now - c.phaseStart < MAX_GREEN_S }

  lemma RingStaysYoung(t: Timings, major: MajorApproach, c: Core, now: real)
    requires c.ringIdx < 6
    ensures Young(StepEmergency(t, major, c, now), now)
  {
    hide Escalate;
  }

  lemma NormalStaysYoung(t: Timings, major: MajorApproach, c: Core, desired: Phase, now: real)
    requires Cycling(c)
    ensures c.state.Green? ==> Young(StepGreen(t, major, c, desired, now), now)
    ensures c.state.Yellow? ==> Young(StepYellow(t, major, c, now), now)
    ensures c.state.Clearing? ==> Young(StepClearing(t, major, c, desired, now), now)
  {
    hide Escalate, IsNs, YellowFor, OppositeGreen, IsGreen;
  }

  /** After a poll, whatever the schedules, a timed display is younger than the ceiling. */
  lemma PollBoundsElapsed(t: Timings, major: MajorApproach, c: Core, desired: Phase, now: real)
    requires Sound(major, c)
    ensures Young(Validated(t, major, c, desired, now), now)
  {
    hide StepEmergency, StepGreen, StepYellow, StepClearing, Young;
    RingStaysYoung(t, major, c, now);
    if Cycling(c) { NormalStaysYoung(t, major, c, desired, now); }
    FlashStaysYoung(t, major, c, now);
  }

  lemma FlashStaysYoung(t: Timings, major: MajorApproach, c: Core, now: real)
    ensures InFlash(c) ==> Young(StepFlash(t, major, c, now), now)
  {
  }

  /** The last poll up to moment k (the boot, before the first). */
  ghost function LastPoll(h: History, k: nat): real
    requires |h.times| == |h.events| + 1 && k < |h.times|
  {
    if k == 0 || h.events[k - 1].Validate? then h.times[k] else LastPoll(h, k - 1)
  }

  lemma {:induction false} LastPollIsPast(h: History, k: nat)
    requires |h.times| == |h.events| + 1 && k < |h.times| && Monotone(h)
    ensures LastPoll(h, k) <= h.times[k]
  {
    if k == 0 {
    } else {
      LastPollIsPast(h, k - 1);
      assert h.times[k - 1] <= h.times[k];
    }
  }

  lemma {:induction false} TimedSinceLastPoll(t: Timings, major: MajorApproach, h: History, k: nat)
    requires IsRun(t, major, h) && Monotone(h) && k < |h.states|
    ensures Timed(h.states[k]) ==> LastPoll(h, k) - h.states[k].phaseStart < MAX_GREEN_S
  {
    if k == 0 {
    } else {
      StepAt(t, major, h, k - 1);
      TimedSinceLastPoll(t, major, h, k - 1);
      LastPollIsPast(h, k);
      if h.events[k - 1].Validate? {
        PollBoundsElapsed(t, major, h.states[k - 1], h.events[k - 1].desired, h.times[k]);
      }
    }
  }

  /** The run has been polled at gaps of at most d, up to time x. */
  ghost predicate PolledWithin(h: History, d: real, x: real) {
    && |h.times| == |h.events| + 1
    && (forall k :: 0 <= k < |h.events| ==> h.times[k + 1] - LastPoll(h, k) <= d)
    && x - LastPoll(h, |h.events|) <= d
  }

  /** With polling gaps of at most d, no timed display is older than the ceiling
      plus d, however corrupt the timings. */
  lemma NothingFreezes(t: Timings, major: MajorApproach, h: History, d: real, x: real)
    requires IsRun(t, major, h) && Monotone(h) && PolledWithin(h, d, x)
    ensures Timed(h.states[|h.events|]) ==> x - h.states[|h.events|].phaseStart < MAX_GREEN_S + d
    ensures forall k :: 0 <= k < |h.events| && Timed(h.states[k]) ==>
      h.times[k + 1] - h.states[k].phaseStart < MAX_GREEN_S + d
  {
    forall k | 0 <= k <= |h.events|
      ensures Timed(h.states[k]) ==> LastPoll(h, k) - h.states[k].phaseStart < MAX_GREEN_S
    {
      TimedSinceLastPoll(t, major, h, k);
    }
  }

  /** A green or amber that stays on keeps its stamp. */
  lemma LampKeepsStamp(t: Timings, major: MajorApproach, c: Core, e: Event, now: real)
    requires Sound(major, c) && (IsGreen(c.applied) || IsYellow(c.applied))
    requires Apply(t, major, c, e, now).applied == c.applied
    ensures Apply(t, major, c, e, now).phaseStart == c.phaseStart
  {
  }

  lemma {:induction false} LampStampHolds(t: Timings, major: MajorApproach, h: History, i: nat, k: nat)
    requires IsRun(t, major, h) && i <= k < |h.states| && Shows(h, i, k + 1, h.states[k].applied)
    requires IsGreen(h.states[k].applied) || IsYellow(h.states[k].applied)
    requires i > 0 ==> h.states[i - 1].applied != h.states[i].applied
    ensures i > 0 && h.states[k].phaseStart == h.times[i]
    decreases k
  {
    if i < k {
      LampStampHolds(t, major, h, i, k - 1);
      StepAt(t, major, h, k - 1);
      LampKeepsStamp(t, major, h.states[k - 1], h.events[k - 1], h.times[k]);
    } else if i > 0 {
      StepAt(t, major, h, k - 1);
      ApplyStamps(t, major, h.states[k - 1], h.events[k - 1], h.times[k]);
    }
  }

  /** Seen from the street: a green or amber lit at i and still on at k goes out,
      or is looked at again, less than the ceiling plus d after it was lit. */
  lemma NoLampOutlivesCeiling(t: Timings, major: MajorApproach, h: History, d: real, x: real, i: nat, k: nat)
    requires IsRun(t, major, h) && Monotone(h) && PolledWithin(h, d, x)
    requires i <= k < |h.states| && Shows(h, i, k + 1, h.states[k].applied)
    requires IsGreen(h.states[k].applied) || IsYellow(h.states[k].applied)
    requires i > 0 ==> h.states[i - 1].applied != h.states[i].applied
    ensures (if k < |h.events| then h.times[k + 1] else x) - h.times[i] < MAX_GREEN_S + d
  {
    NothingFreezes(t, major, h, d, x);
    LampStampHolds(t, major, h, i, k);
    RunIsSound(t, major, h, k);
    assert Timed(h.states[k]);
  }

  // ------------------------------------------------------------ terminal FLASH

  lemma {:induction false} OnlyResetLeavesFlash(t: Timings, major: MajorApproach, h: History, a: nat, b: nat)
    requires IsRun(t, major, h) && a <= b < |h.states| && InFlash(h.states[a])
    requires forall k :: a <= k < b ==> !h.events[k].Reset?
    ensures InFlash(h.states[b]) && (h.states[a].state.Flash? ==> h.states[b] == h.states[a])
    decreases b
  {
    if a == b {
    } else {
      OnlyResetLeavesFlash(t, major, h, a, b - 1);
      StepAt(t, major, h, b - 1);
    }
  }

  /** A ring schedule that a timer never reaches before the watchdog: NaN, +inf or absurd. */
  predicate Stuck(s: Schedule) { s.NaN? || s.PosInf? || (s.Fin? && s.r > MAX_GREEN_S) }

  /** Some timing is corrupt in a way that can lead to FLASH. */
  predicate Corrupt(t: Timings) {
    !Trusted(t.maxGreen) || !Trusted(t.yellow) || !Trusted(t.allRed) || Stuck(t.emergencyGreen)
  }

  /** The default timings. */
  const DEFAULT_TIMINGS := Timings(Fin(5.0), Fin(3.0), Fin(2.0), Fin(60.0), Fin(20.0))

  lemma DefaultTimingsAreSane()
    ensures !Corrupt(DEFAULT_TIMINGS)
  {
  }

  lemma {:induction false} SaneRunNeverFlashes(t: Timings, major: MajorApproach, h: History, k: nat)
    requires IsRun(t, major, h) && k < |h.states| && !Corrupt(t)
    ensures !InFlash(h.states[k])
  {
    if k == 0 {
    } else {
      SaneRunNeverFlashes(t, major, h, k - 1);
      StepAt(t, major, h, k - 1);
    }
  }

  /** One more event after a run whose last state is known. */
  lemma Next(t: Timings, major: MajorApproach, h: History, c: Core, e: Event, now: real) returns (h': History)
    requires IsRun(t, major, h) && Monotone(h) && h.states[|h.events|] == c && h.times[|h.events|] <= now
    ensures c.ringIdx < 6 && IsRun(t, major, h') && Monotone(h')
    ensures h'.states[|h'.events|] == Apply(t, major, c, e, now) && h'.times[|h'.events|] == now
  {
    h' := RunExtends(t, major, h, e, now);
  }

  /** For each corruption, a run that escalates. */
  lemma CorruptRunCanEscalate(t: Timings, major: MajorApproach) returns (h: History)
    requires Corrupt(t)
    ensures IsRun(t, major, h) && Monotone(h)
    ensures InFlash(h.states[|h.events|])
  {
    var boot := Boot(0.0);
    h := History([boot], [], [0.0]);
    assert IsRun(t, major, h) && Monotone(h);
    hide IsRun, Monotone;
    if !Trusted(t.allRed) {
      h := Next(t, major, h, boot, Validate(AllRed), STUCK_S);
    } else {
      var clear := t.allRed.r;
      if Trusted(t.maxGreen) && Trusted(t.yellow) {
        h := Next(t, major, h, boot, SetEmergency(true), 0.0);
        var ring := Toggled(boot, true, 0.0);
        h := Next(t, major, h, ring, Validate(GreenNs), clear);
        var green := ring.(ringIdx := 1, applied := GreenNs, phaseStart := clear);
        h := Next(t, major, h, green, Validate(GreenNs), clear + STUCK_S);
      } else {
        h := Next(t, major, h, boot, Validate(GreenNs), clear);
        var green := boot.(state := Green, applied := GreenNs, targetValid := true, phaseStart := clear);
        if !Trusted(t.maxGreen) {
          h := Next(t, major, h, green, Validate(GreenNs), clear + MAX_GREEN_S);
        } else {
          var late := clear + t.maxGreen.r;
          h := Next(t, major, h, green, Validate(GreenNs), late);
          h := Next(t, major, h, BeginYellow(green, GreenEw, late), Validate(GreenNs), late + STUCK_YELLOW_S);
        }
      }
    }
  }

  ghost predicate CanEscalate(t: Timings, major: MajorApproach) {
    exists h :: IsRun(t, major, h) && Monotone(h) && exists k :: 0 <= k < |h.states| && InFlash(h.states[k])
  }

  /** FLASH is reachable exactly when the timings are corrupt. */
  lemma FlashExactlyForCorruption(t: Timings, major: MajorApproach)
    ensures CanEscalate(t, major) <==> Corrupt(t)
  {
    if Corrupt(t) {
      var h := CorruptRunCanEscalate(t, major);
      assert 0 <= |h.events| < |h.states| && InFlash(h.states[|h.events|]);
    } else if CanEscalate(t, major) {
      var h :| IsRun(t, major, h) && Monotone(h) && exists k :: 0 <= k < |h.states| && InFlash(h.states[k]);
      var k :| 0 <= k < |h.states| && InFlash(h.states[k]);
      SaneRunNeverFlashes(t, major, h, k);
    }
  }

  /** A negative schedule escalates too: the guard is asked before the timer, so an
      idle boot under all_red = -1 is in FLASH_CLEARANCE after eight seconds. */
  lemma NegativeClearanceEscalates(t: Timings, major: MajorApproach)
    requires t.allRed == Fin(-1.0)
    ensures InFlash(Apply(t, major, Boot(0.0), Validate(AllRed), STUCK_S))
  {
  }
}
