/** Guarantee C-3, amber and clearance between two greens: what ends a green, when the
    guarantee holds, and runs in which it fails. */
module SafetyAmber {
  import opened Interlock
  import opened SafetyRuns

  // ------------------------------------------------------------ what ends a green

  /** The events that end a green properly: a poll, and not one that escalates. */
  predicate EndsInAmber(t: Timings, emergency: bool, e: Event, elapsed: real) {
    && e.Validate?
    && if emergency then Reached(elapsed, t.emergencyGreen) else Trusted(t.maxGreen) || elapsed < MAX_GREEN_S
  }

  /** A green goes out into its amber under exactly that condition, and into ALL_RED otherwise. */
  lemma GreenEndsInAmberExactly(t: Timings, major: MajorApproach, c: Core, e: Event, now: real)
    requires Sound(major, c) && IsGreen(c.applied) && Apply(t, major, c, e, now).applied != c.applied
    ensures var c' := Apply(t, major, c, e, now);
            c'.applied == if EndsInAmber(t, c.emergency, e, now - c.phaseStart) then YellowFor(c.applied) else AllRed
  {
  }

  /** The last emergency mode asked for since the boot or the last reset. */
  ghost function EmergencyAsked(h: History, k: nat): bool
    requires k <= |h.events|
  {
    if k == 0 then false
    else match h.events[k - 1]
      case Validate(_) => EmergencyAsked(h, k - 1)
      case SetEmergency(on) => on
      case Reset => false
  }

  lemma {:induction false} FlagIsAsked(t: Timings, major: MajorApproach, h: History, k: nat)
    requires IsRun(t, major, h) && k < |h.states| && !InFlash(h.states[k])
    ensures h.states[k].emergency == EmergencyAsked(h, k)
  {
    if k == 0 {
    } else {
      StepAt(t, major, h, k - 1);
      if h.events[k - 1].Validate? { FlagIsAsked(t, major, h, k - 1); }
    }
  }

  /** A green is lit at moment i and goes out at moment y. */
  ghost predicate GreenFromTo(h: History, i: nat, y: nat) {
    && 0 < i < y < |h.states|
    && IsGreen(h.states[i].applied) && h.states[i - 1].applied != h.states[i].applied
    && Shows(h, i, y, h.states[i].applied) && h.states[y].applied != h.states[i].applied
  }

  /** The event that ends the green lit at i does so properly. */
  ghost predicate ProperEnd(t: Timings, h: History, i: nat, y: nat)
    requires |h.states| == |h.times| == |h.events| + 1 && 0 < i < y < |h.states|
  {
    EndsInAmber(t, EmergencyAsked(h, y - 1), h.events[y - 1], h.times[y] - h.times[i])
  }

  /** On any run a green gives way to its own amber exactly when the event that ends it, the
      emergency mode asked for and the time it was lit say so; otherwise it gives way to ALL_RED. */
  lemma LitGreenEndsInAmberExactly(t: Timings, major: MajorApproach, h: History, i: nat, y: nat)
    requires IsRun(t, major, h) && GreenFromTo(h, i, y)
    ensures h.states[y].applied == if ProperEnd(t, h, i, y) then YellowFor(h.states[i].applied) else AllRed
  {
    LampStampHolds(t, major, h, i, y - 1);
    StepAt(t, major, h, y - 1);
    GreenIsNoFlash(major, h.states[y - 1]);
    FlagIsAsked(t, major, h, y - 1);
    GreenEndsInAmberExactly(t, major, h.states[y - 1], h.events[y - 1], h.times[y]);
  }

  lemma GreenIsNoFlash(major: MajorApproach, c: Core)
    requires Sound(major, c) && (IsGreen(c.applied) || IsYellow(c.applied))
    ensures !InFlash(c)
  {
  }

  // ------------------------------------------------------------ when C-3 holds

  /** From y, amber for at least its time, then ALL_RED for at least its time, up to d. */
  ghost predicate Cleared(t: Timings, h: History, y: nat, d: nat, amber: Phase)
    requires |h.states| == |h.times| && y < d < |h.states|
  {
    exists r :: y < r < d && ClearedBy(t, h, y, r, d, amber)
  }

  ghost predicate ClearedBy(t: Timings, h: History, y: nat, r: nat, d: nat, amber: Phase)
    requires |h.states| == |h.times| && y < r < d < |h.states|
  {
    && Shows(h, y, r, amber) && Reached(h.times[r] - h.times[y], t.yellow)
    && Shows(h, r, d, AllRed) && Reached(h.times[d] - h.times[r], t.allRed)
  }

  /** What puts an amber out other than its own timer: a reset, an effective toggle, or a poll that
      escalates an untrusted schedule. */
  predicate PutsOut(t: Timings, emergency: bool, e: Event, elapsed: real) {
    || e.Reset?
    || e == SetEmergency(!emergency)
    || (e.Validate? && !Trusted(t.yellow) && elapsed >= STUCK_YELLOW_S)
  }

  /** An event puts the amber lit at y out before its time. */
  ghost predicate EndsEarly(t: Timings, h: History, y: nat, k: nat)
    requires |h.states| == |h.times| == |h.events| + 1 && y <= k < |h.events|
  {
    && Shows(h, y, k + 1, h.states[y].applied)
    && PutsOut(t, EmergencyAsked(h, k), h.events[k], h.times[k + 1] - h.times[y])
    && !Reached(h.times[k + 1] - h.times[y], t.yellow)
  }

  /** An amber goes out into ALL_RED, by its timer or put out, and early when put out early. */
  lemma AmberStep(t: Timings, major: MajorApproach, c: Core, e: Event, now: real)
    requires Sound(major, c) && IsYellow(c.applied)
    ensures var c', elapsed := Apply(t, major, c, e, now), now - c.phaseStart;
            && (c'.applied == c.applied || c'.applied == AllRed)
            && (c'.applied != c.applied ==> Reached(elapsed, t.yellow) || PutsOut(t, c.emergency, e, elapsed))
            && (PutsOut(t, c.emergency, e, elapsed) && !Reached(elapsed, t.yellow) ==> c'.applied == AllRed)
  {
  }

  /** ALL_RED gives way to a green or to FLASH. */
  lemma AllRedStep(t: Timings, major: MajorApproach, c: Core, e: Event, now: real)
    requires Sound(major, c) && c.applied == AllRed
    ensures var c' := Apply(t, major, c, e, now);
            c'.applied == AllRed || IsGreen(c'.applied) || c'.state.Flash?
  {
  }

  /** The first moment after a with another display. */
  lemma {:induction false} FirstChange(h: History, a: nat, m: nat) returns (y: nat)
    requires a < m < |h.states| && h.states[m].applied != h.states[a].applied
    ensures a < y <= m && Shows(h, a, y, h.states[a].applied) && h.states[y].applied != h.states[a].applied
    decreases m
  {
    if k :| a < k < m && h.states[k].applied != h.states[a].applied {
      y := FirstChange(h, a, k);
    } else {
      y := m;
    }
  }

  /** Where the amber lit at y ends. */
  lemma AmberEnds(t: Timings, major: MajorApproach, h: History, y: nat, d: nat) returns (r: nat)
    requires IsRun(t, major, h) && 0 < y < d < |h.states|
    requires IsYellow(h.states[y].applied) && h.states[y - 1].applied != h.states[y].applied
    requires IsGreen(h.states[d].applied)
    ensures y < r < d && Shows(h, y, r, h.states[y].applied) && h.states[r].applied == AllRed
    ensures Reached(h.times[r] - h.times[y], t.yellow) || EndsEarly(t, h, y, r - 1)
  {
    hide Apply, Sound, Reached, PutsOut;
    r := FirstChange(h, y, d);
    LampStampHolds(t, major, h, y, r - 1);
    StepAt(t, major, h, r - 1);
    GreenIsNoFlash(major, h.states[r - 1]);
    AmberStep(t, major, h.states[r - 1], h.events[r - 1], h.times[r]);
    FlagIsAsked(t, major, h, r - 1);
  }

  /** An event that puts an amber out early ends it. */
  lemma EarlyEnds(t: Timings, major: MajorApproach, h: History, y: nat, k: nat)
    requires IsRun(t, major, h) && 0 < y <= k < |h.events| && EndsEarly(t, h, y, k)
    requires IsYellow(h.states[y].applied) && h.states[y - 1].applied != h.states[y].applied
    ensures h.states[k + 1].applied == AllRed
  {
    assert h.states[k].applied == h.states[y].applied;
    LampStampHolds(t, major, h, y, k);
    StepAt(t, major, h, k);
    GreenIsNoFlash(major, h.states[k]);
    FlagIsAsked(t, major, h, k);
    AmberStep(t, major, h.states[k], h.events[k], h.times[k + 1]);
  }

  /** Without FLASH, ALL_RED stays until the next green. */
  lemma {:induction false} AllRedUpTo(t: Timings, major: MajorApproach, h: History, r: nat, k: nat)
    requires IsRun(t, major, h) && r <= k < |h.states| && h.states[r].applied == AllRed
    requires forall j :: r <= j <= k ==> !IsGreen(h.states[j].applied) && !h.states[j].state.Flash?
    ensures h.states[k].applied == AllRed
    decreases k
  {
    if r == k {
    } else {
      AllRedUpTo(t, major, h, r, k - 1);
      StepAt(t, major, h, k - 1);
      AllRedStep(t, major, h.states[k - 1], h.events[k - 1], h.times[k]);
    }
  }

  /** ALL_RED from r to the green lit at d lasts at least the clearance. */
  lemma ClearanceLasts(t: Timings, major: MajorApproach, h: History, r: nat, d: nat)
    requires IsRun(t, major, h) && Monotone(h) && 0 < r < d < |h.states|
    requires h.states[r - 1].applied != AllRed && IsGreen(h.states[d].applied) && Shows(h, r, d, AllRed)
    ensures Reached(h.times[d] - h.times[r], t.allRed)
  {
    var i := ClearanceBeforeGreen(t, major, h, d);
    assert i > r - 1;
    assert h.times[r] <= h.times[i];
  }

  /** FLASH is not displayed from moment y on, before moment d. */
  ghost predicate NoFlash(h: History, y: nat, d: nat)
    requires d <= |h.states|
  {
    forall k :: y <= k < d ==> !h.states[k].state.Flash?
  }

  lemma ClearedShowsNoFlash(t: Timings, major: MajorApproach, h: History, y: nat, d: nat, amber: Phase)
    requires IsRun(t, major, h) && y < d < |h.states| && Cleared(t, h, y, d, amber) && IsYellow(amber)
    ensures NoFlash(h, y, d)
  {
    var r :| y < r < d && ClearedBy(t, h, y, r, d, amber);
    forall k | y <= k < d
      ensures !h.states[k].state.Flash?
    {
      RunIsSound(t, major, h, k);
      assert h.states[k].applied == if k < r then amber else AllRed;
    }
  }

  /** C-3 exactly: between the green lit at i and the next green there are amber and ALL_RED for
      their times if and only if the green ended properly, no event put the amber out early, and
      FLASH was not displayed in between. */
  lemma ConflictClearanceExactly(t: Timings, major: MajorApproach, h: History, i: nat, y: nat, d: nat)
    requires IsRun(t, major, h) && Monotone(h) && GreenFromTo(h, i, y) && y < d < |h.states|
    requires IsGreen(h.states[d].applied) && forall k :: y <= k < d ==> !IsGreen(h.states[k].applied)
    ensures Cleared(t, h, y, d, YellowFor(h.states[i].applied)) <==>
            ProperEnd(t, h, i, y) && (forall k :: y <= k < d ==> !EndsEarly(t, h, y, k)) && NoFlash(h, y, d)
  {
    hide Apply, Sound, Reached, PutsOut, ProperEnd, IsRun;
    RunShape(t, major, h);
    LitGreenEndsInAmberExactly(t, major, h, i, y);
    assert h.states[y - 1].applied == h.states[i].applied;
    if Cleared(t, h, y, d, YellowFor(h.states[i].applied)) {
      ClearedShowsNoFlash(t, major, h, y, d, YellowFor(h.states[i].applied));
    }
    if ProperEnd(t, h, i, y) && NoFlash(h, y, d) {
      var r := AmberEnds(t, major, h, y, d);
      forall k | r <= k < d
        ensures h.states[k].applied == AllRed
      {
        AllRedUpTo(t, major, h, r, k);
      }
      ClearanceLasts(t, major, h, r, d);
      forall k | y <= k < d && EndsEarly(t, h, y, k)
        ensures k == r - 1
      {
        EarlyEnds(t, major, h, y, k);
      }
      OneWayToClear(t, h, y, r, d);
    }
  }

  lemma RunShape(t: Timings, major: MajorApproach, h: History)
    requires IsRun(t, major, h)
    ensures |h.states| == |h.times| == |h.events| + 1
  {
  }

  /** The amber lit at y ends only once. */
  lemma OneWayToClear(t: Timings, h: History, y: nat, r: nat, d: nat)
    requires |h.states| == |h.times| && y < r < d < |h.states| && IsYellow(h.states[y].applied)
    requires Shows(h, y, r, h.states[y].applied) && Shows(h, r, d, AllRed)
    requires Reached(h.times[d] - h.times[r], t.allRed)
    ensures Cleared(t, h, y, d, h.states[y].applied) <==> Reached(h.times[r] - h.times[y], t.yellow)
  {
    if q :| y < q < d && ClearedBy(t, h, y, q, d, h.states[y].applied) {
      assert h.states[q].applied == AllRed && h.states[r].applied == AllRed;
    }
    if Reached(h.times[r] - h.times[y], t.yellow) {
      assert ClearedBy(t, h, y, r, d, h.states[y].applied);
    }
  }

  // ------------------------------------------------------------ no FLASH in between

  /** Amber and clearance are sane, or nobody resets from y to d. */
  ghost predicate SaneOrNoReset(t: Timings, h: History, y: nat, d: nat)
    requires y <= d <= |h.events|
  {
    (Trusted(t.yellow) && Trusted(t.allRed)) || forall k :: y <= k < d ==> !h.events[k].Reset?
  }

  lemma SaneScheduleHolds(t: Timings, major: MajorApproach, c: Core, e: Event, now: real)
    requires Sound(major, c) && !InFlash(c) && (IsYellow(c.applied) || c.applied == AllRed)
    requires Trusted(t.yellow) && Trusted(t.allRed)
    ensures !InFlash(Apply(t, major, c, e, now))
  {
  }

  /** Then no escalation falls between the amber lit at y and the green lit at d. */
  lemma {:induction false} NoEscalationBetween(t: Timings, major: MajorApproach, h: History, y: nat, d: nat, k: nat)
    requires IsRun(t, major, h) && y <= k < d < |h.states| && SaneOrNoReset(t, h, y, d)
    requires IsYellow(h.states[y].applied) && IsGreen(h.states[d].applied)
    requires forall j :: y <= j < d ==> !IsGreen(h.states[j].applied)
    ensures !InFlash(h.states[k]) && (IsYellow(h.states[k].applied) || h.states[k].applied == AllRed)
    decreases k
  {
    RunIsSound(t, major, h, k);
    RunIsSound(t, major, h, d);
    if y == k {
    } else {
      NoEscalationBetween(t, major, h, y, d, k - 1);
      StepAt(t, major, h, k - 1);
      if InFlash(h.states[k]) {
        if forall j :: y <= j < d ==> !h.events[j].Reset? {
          OnlyResetLeavesFlash(t, major, h, k, d);
          GreenIsNoFlash(major, h.states[d]);
        }
        SaneScheduleHolds(t, major, h.states[k - 1], h.events[k - 1], h.times[k]);
      }
      if IsYellow(h.states[k - 1].applied) {
        AmberStep(t, major, h.states[k - 1], h.events[k - 1], h.times[k]);
      } else {
        AllRedStep(t, major, h.states[k - 1], h.events[k - 1], h.times[k]);
      }
    }
  }

  /** So under sane schedules, or without a reset, events and times alone decide: C-3 holds exactly
      when the green ended properly and no event put the amber out early. */
  lemma SaneConflictClearance(t: Timings, major: MajorApproach, h: History, i: nat, y: nat, d: nat)
    requires IsRun(t, major, h) && Monotone(h) && GreenFromTo(h, i, y) && y < d < |h.states|
    requires IsGreen(h.states[d].applied) && forall k :: y <= k < d ==> !IsGreen(h.states[k].applied)
    requires SaneOrNoReset(t, h, y, d)
    ensures Cleared(t, h, y, d, YellowFor(h.states[i].applied)) <==>
            ProperEnd(t, h, i, y) && forall k :: y <= k < d ==> !EndsEarly(t, h, y, k)
  {
    hide ProperEnd, Cleared, EndsEarly;
    ConflictClearanceExactly(t, major, h, i, y, d);
    LitGreenEndsInAmberExactly(t, major, h, i, y);
    if ProperEnd(t, h, i, y) {
      forall k | y <= k < d
        ensures !h.states[k].state.Flash?
      {
        NoEscalationBetween(t, major, h, y, d, k);
      }
    }
  }

  // ------------------------------------------------------------ left to polls

  /** A green may end: the ring's after its own time, the Brain's after min-green, or at max-green. */
  predicate GreenServed(t: Timings, c: Core, elapsed: real) {
    if c.emergency then Reached(elapsed, t.emergencyGreen)
    else Reached(elapsed, t.minGreen) || Reached(elapsed, t.maxGreen)
  }

  /** The display of c' follows that of c in the signal cycle and is stamped when it changes. */
  ghost predicate FollowsCycle(t: Timings, c: Core, c': Core, now: real) {
    if c'.applied == c.applied then c'.phaseStart == c.phaseStart
    else
      && c'.phaseStart == now
      && (IsGreen(c.applied) ==> c'.applied == YellowFor(c.applied) && GreenServed(t, c, now - c.phaseStart))
      && (IsYellow(c.applied) ==> c'.applied == AllRed && Reached(now - c.phaseStart, t.yellow))
      && (c.applied == AllRed ==> IsGreen(c'.applied) && Reached(now - c.phaseStart, t.allRed))
      && (IsGreen(c.applied) || IsYellow(c.applied) || c.applied == AllRed)
  }

  lemma RingFollowsCycle(t: Timings, major: MajorApproach, c: Core, now: real)
    requires Sound(major, c) && c.state.Emergency? && !InFlash(StepEmergency(t, major, c, now))
    ensures FollowsCycle(t, c, StepEmergency(t, major, c, now), now)
  {
    hide Reached, Trusted;
  }

  lemma NormalFollowsCycle(t: Timings, major: MajorApproach, c: Core, desired: Phase, now: real)
    requires Sound(major, c) && !c.emergency && Cycling(c) && !InFlash(Validated(t, major, c, desired, now))
    ensures FollowsCycle(t, c, Validated(t, major, c, desired, now), now)
  {
    hide Reached, Trusted, StepEmergency, Validated;
    NormalPoll(t, major, c, desired, now);
  }

  /** Left alone (polls only, no escalation), the display follows the signal cycle. */
  lemma UndisturbedStep(t: Timings, major: MajorApproach, c: Core, desired: Phase, now: real)
    requires Sound(major, c) && !InFlash(c) && !InFlash(Validated(t, major, c, desired, now))
    ensures FollowsCycle(t, c, Validated(t, major, c, desired, now), now)
  {
    hide FollowsCycle, StepEmergency;
    if c.emergency {
      RingFollowsCycle(t, major, c, now);
    } else {
      NormalFollowsCycle(t, major, c, desired, now);
    }
  }

  /** From a to b the interlock is only polled: no toggle, no reset. */
  ghost predicate PollsOnly(h: History, a: nat, b: nat) {
    && |h.states| == |h.times| == |h.events| + 1 && a <= b < |h.states|
    && forall k :: a <= k < b ==> h.events[k].Validate?
  }

  ghost predicate Undisturbed(h: History, a: nat, b: nat) {
    PollsOnly(h, a, b) && forall k :: a <= k <= b ==> !InFlash(h.states[k])
  }

  /** Polls that lead to a display outside FLASH have not escalated on the way. */
  lemma PollsUndisturbed(t: Timings, major: MajorApproach, h: History, a: nat, b: nat)
    requires IsRun(t, major, h) && PollsOnly(h, a, b) && !InFlash(h.states[b])
    ensures Undisturbed(h, a, b)
  {
    forall k | a <= k <= b
      ensures !InFlash(h.states[k])
    {
      if InFlash(h.states[k]) { OnlyResetLeavesFlash(t, major, h, k, b); }
    }
  }

  lemma {:induction false} StampHolds(t: Timings, major: MajorApproach, h: History, y: nat, k: nat)
    requires IsRun(t, major, h) && Undisturbed(h, y, k) && Shows(h, y, k + 1, h.states[y].applied)
    ensures h.states[k].phaseStart == h.states[y].phaseStart
    decreases k
  {
    if y == k {
    } else {
      StampHolds(t, major, h, y, k - 1);
      StepAt(t, major, h, k - 1);
      UndisturbedStep(t, major, h.states[k - 1], h.events[k - 1].desired, h.times[k]);
    }
  }

  /** The next change of an undisturbed display that was itself stamped at a. */
  lemma NextDisplay(t: Timings, major: MajorApproach, h: History, a: nat, m: nat) returns (y: nat)
    requires IsRun(t, major, h) && Undisturbed(h, a, m)
    requires a < m && h.states[m].applied != h.states[a].applied
    ensures a < y <= m && Shows(h, a, y, h.states[a].applied)
    ensures h.states[y].phaseStart == h.times[y]
    ensures IsGreen(h.states[a].applied) ==>
      h.states[y].applied == YellowFor(h.states[a].applied) &&
      GreenServed(t, h.states[y - 1], h.times[y] - h.states[a].phaseStart)
    ensures IsYellow(h.states[a].applied) ==>
      h.states[y].applied == AllRed && Reached(h.times[y] - h.states[a].phaseStart, t.yellow)
    ensures h.states[a].applied == AllRed ==>
      IsGreen(h.states[y].applied) && Reached(h.times[y] - h.states[a].phaseStart, t.allRed)
  {
    y := FirstChange(h, a, m);
    StampHolds(t, major, h, a, y - 1);
    StepAt(t, major, h, y - 1);
    UndisturbedStep(t, major, h.states[y - 1], h.events[y - 1].desired, h.times[y]);
  }

  /** While the interlock is only polled, a green that is followed by another display and
      then by a green was served, gives way to its own amber for at least `yellow`, then to
      ALL_RED for at least `all_red`, and only then to a green. */
  lemma AmberThenClearance(t: Timings, major: MajorApproach, h: History, a: nat, b: nat)
    returns (y: nat, r: nat, d: nat)
    requires IsRun(t, major, h) && PollsOnly(h, a, b) && a < b
    requires IsGreen(h.states[a].applied) && IsGreen(h.states[b].applied)
    requires exists m :: a < m <= b && h.states[m].applied != h.states[a].applied
    ensures a < y < r < d <= b
    ensures Shows(h, a, y, h.states[a].applied) && GreenServed(t, h.states[y - 1], h.times[y] - h.states[a].phaseStart)
    ensures Shows(h, y, r, YellowFor(h.states[a].applied)) && Reached(h.times[r] - h.times[y], t.yellow)
    ensures Shows(h, r, d, AllRed) && Reached(h.times[d] - h.times[r], t.allRed)
    ensures IsGreen(h.states[d].applied)
  {
    RunIsSound(t, major, h, b);
    GreenIsNoFlash(major, h.states[b]);
    PollsUndisturbed(t, major, h, a, b);
    var m :| a < m <= b && h.states[m].applied != h.states[a].applied;
    y := NextDisplay(t, major, h, a, m);
    r := NextDisplay(t, major, h, y, b);
    d := NextDisplay(t, major, h, r, b);
  }

  /** A committed change: amber, or the clearance after it. */
  predicate Committed(c: Core) { !c.emergency && (c.state.Yellow? || (c.state.Clearing? && c.targetValid)) }

  /** The destination of a change is locked: whatever is requested meanwhile, the green that
      follows is the one chosen when the amber began, unless a corrupt schedule escalates. */
  lemma {:induction false} DestinationIsLocked(t: Timings, major: MajorApproach, h: History, y: nat, d: nat)
    requires IsRun(t, major, h) && PollsOnly(h, y, d) && Committed(h.states[y])
    requires forall k :: y <= k < d ==> !h.states[k].state.Green?
    ensures InFlash(h.states[d]) ||
            (Committed(h.states[d]) && h.states[d].target == h.states[y].target) ||
            (h.states[d].state.Green? && h.states[d].applied == h.states[y].target)
    decreases d
  {
    if y == d {
    } else {
      DestinationIsLocked(t, major, h, y, d - 1);
      StepAt(t, major, h, d - 1);
    }
  }

  // ------------------------------------------------------------ where C-3 fails

  /** From moment i to d the heads show one green, then ALL_RED only, then another green. */
  ghost predicate AmberSkipped(h: History, i: nat, y: nat, d: nat) {
    && i < y < d < |h.states| && IsGreen(h.states[i].applied) && IsGreen(h.states[d].applied)
    && h.states[i].applied != h.states[d].applied
    && Shows(h, i, y, h.states[i].applied) && Shows(h, y, d, AllRed)
  }

  /** For any timings with a trusted clearance: an emergency asked for during the East-West
      green takes the heads from that green to ALL_RED and on to the North-South green. */
  lemma EmergencySkipsAmber(t: Timings, major: MajorApproach) returns (h: History)
    requires Trusted(t.allRed)
    ensures IsRun(t, major, h) && Monotone(h) && AmberSkipped(h, 1, 2, 3)
    ensures h.events == [Validate(GreenEw), SetEmergency(true), Validate(GreenEw)]
  {
    var clear := t.allRed.r;
    h := BootAndGreen(t, major);
    hide IsRun, Validated;
    h := RunExtends(t, major, h, SetEmergency(true), clear);
    h := RunExtends(t, major, h, Validate(GreenEw), 2.0 * clear);
  }

  /** The East-West green right after the boot clearance. */
  lemma BootAndGreen(t: Timings, major: MajorApproach) returns (h: History)
    requires Trusted(t.allRed)
    ensures IsRun(t, major, h) && Monotone(h) && h.events == [Validate(GreenEw)] && h.times == [0.0, t.allRed.r]
    ensures h.states == [Boot(0.0), Boot(0.0).(state := Green, applied := GreenEw, target := GreenEw,
                                               targetValid := true, phaseStart := t.allRed.r)]
  {
    h := History([Boot(0.0)], [], [0.0]);
    h := RunExtends(t, major, h, Validate(GreenEw), t.allRed.r);
  }

  /** So does the escalation of a green whose max-green is untrusted, once it is reset. */
  lemma EscalationSkipsAmber(t: Timings, major: MajorApproach) returns (h: History)
    requires Trusted(t.allRed) && !Trusted(t.maxGreen)
    ensures IsRun(t, major, h) && Monotone(h) && AmberSkipped(h, 1, 2, 4)
    ensures h.events == [Validate(GreenEw), Validate(GreenEw), Reset, Validate(GreenNs)]
  {
    var clear, late := t.allRed.r, t.allRed.r + MAX_GREEN_S;
    h := BootAndGreen(t, major);
    hide IsRun, Validated;
    GreenEscalates(t, major, h.states[1], GreenEw, late);
    h := RunExtends(t, major, h, Validate(GreenEw), late);
    h := RunExtends(t, major, h, Event.Reset, late);
    ClearingTurnsGreen(t, major, h.states[3], GreenNs, late + clear);
    h := RunExtends(t, major, h, Validate(GreenNs), late + clear);
  }

  lemma GreenEscalates(t: Timings, major: MajorApproach, c: Core, desired: Phase, now: real)
    requires c.ringIdx < 6 && c.state.Green? && !c.emergency
    requires !Trusted(t.maxGreen) && now - c.phaseStart >= MAX_GREEN_S
    ensures Validated(t, major, c, desired, now) ==
            c.(stuck := c.applied, state := FlashClearance, applied := AllRed, phaseStart := now)
  {
  }

  lemma ClearingTurnsGreen(t: Timings, major: MajorApproach, c: Core, desired: Phase, now: real)
    requires c.ringIdx < 6 && c.state.Clearing? && !c.emergency && !c.targetValid && IsGreen(desired)
    requires Trusted(t.allRed) && Reached(now - c.phaseStart, t.allRed)
    ensures Validated(t, major, c, desired, now) ==
            c.(target := desired, targetValid := true, state := Green, applied := desired, phaseStart := now)
  {
  }

  /** The first change of display after the green lit at 1 is its amber, from 2 to 3, then ALL_RED
      up to the green at 5, and the amber lasted four seconds. */
  ghost predicate AmberCutShort(h: History) {
    && |h.states| == |h.times| == |h.events| + 1 == 6 && GreenFromTo(h, 1, 2)
    && h.states[1].applied == GreenEw && h.states[2].applied == YellowEw && h.states[5].applied == GreenNs
    && Shows(h, 3, 5, AllRed) && h.times[3] - h.times[2] == STUCK_YELLOW_S
    && NoFlash(h, 2, 5)
  }

  lemma EscalatedAmberRun(t: Timings, major: MajorApproach) returns (h: History)
    requires Trusted(t.allRed) && Trusted(t.maxGreen) && !Trusted(t.yellow)
    ensures IsRun(t, major, h) && Monotone(h) && AmberCutShort(h)
    ensures h.events == [Validate(GreenEw), Validate(GreenNs), Validate(GreenNs), Reset, Validate(GreenNs)]
  {
    var clear, late := t.allRed.r, t.allRed.r + t.maxGreen.r;
    h := BootAndGreen(t, major);
    hide IsRun, Validated;
    MaxGreenBeginsAmber(t, major, h.states[1], GreenNs, late);
    h := RunExtends(t, major, h, Validate(GreenNs), late);
    AmberEscalates(t, major, h.states[2], GreenNs, late + STUCK_YELLOW_S);
    h := RunExtends(t, major, h, Validate(GreenNs), late + STUCK_YELLOW_S);
    h := RunExtends(t, major, h, Event.Reset, late + STUCK_YELLOW_S);
    ClearingTurnsGreen(t, major, h.states[4], GreenNs, late + STUCK_YELLOW_S + clear);
    h := RunExtends(t, major, h, Validate(GreenNs), late + STUCK_YELLOW_S + clear);
  }

  /** A stuck amber escalates after four seconds; reset before FLASH, it leads on to another green.
      The green ended properly and no toggle or reset put the amber out, but it was cut short. */
  lemma EscalationCutsAmber(t: Timings, major: MajorApproach) returns (h: History)
    requires Trusted(t.allRed) && Trusted(t.maxGreen) && Stuck(t.yellow)
    ensures IsRun(t, major, h) && Monotone(h) && AmberCutShort(h)
    ensures h.events == [Validate(GreenEw), Validate(GreenNs), Validate(GreenNs), Reset, Validate(GreenNs)]
    ensures ProperEnd(t, h, 1, 2) && EndsEarly(t, h, 2, 2) && !Cleared(t, h, 2, 5, YellowEw)
  {
    h := EscalatedAmberRun(t, major);
    assert !Reached(STUCK_YELLOW_S, t.yellow);
    hide IsRun, ProperEnd, EndsEarly, Cleared, Reached;
    LitGreenEndsInAmberExactly(t, major, h, 1, 2);
    var r := AmberEnds(t, major, h, 2, 5);
    assert h.states[3].applied == AllRed && r == 3;
    ConflictClearanceExactly(t, major, h, 1, 2, 5);
  }

  lemma MaxGreenBeginsAmber(t: Timings, major: MajorApproach, c: Core, desired: Phase, now: real)
    requires c.ringIdx < 6 && c.state.Green? && !c.emergency && IsGreen(desired) && desired != c.applied
    requires Trusted(t.maxGreen) && now - c.phaseStart == t.maxGreen.r
    ensures Validated(t, major, c, desired, now) == BeginYellow(c, desired, now)
  {
  }

  lemma AmberEscalates(t: Timings, major: MajorApproach, c: Core, desired: Phase, now: real)
    requires c.ringIdx < 6 && c.state.Yellow? && !c.emergency
    requires !Trusted(t.yellow) && now - c.phaseStart >= STUCK_YELLOW_S
    ensures Validated(t, major, c, desired, now) ==
            c.(stuck := c.applied, state := FlashClearance, applied := AllRed, phaseStart := now)
  {
  }

  /** A negative clearance escalates after eight seconds; after FLASH and a reset another green
      begins. The amber was served in full, but the clearance was not what followed it. */
  lemma FlashFallsBetween(t: Timings, major: MajorApproach) returns (h: History)
    requires t.allRed == Fin(-1.0) && Trusted(t.maxGreen) && Trusted(t.yellow)
    ensures IsRun(t, major, h) && Monotone(h) && |h.states| == 8 && GreenFromTo(h, 1, 2)
    ensures h.states[7].applied == GreenNs && (forall k :: 2 <= k < 7 ==> !IsGreen(h.states[k].applied))
    ensures ProperEnd(t, h, 1, 2) && (forall k :: 2 <= k < 7 ==> !EndsEarly(t, h, 2, k))
    ensures h.states[5].state.Flash? && !Cleared(t, h, 2, 7, YellowEw)
  {
    h := FlashBetweenRun(t, major);
    hide IsRun, ProperEnd, EndsEarly, Cleared, Reached;
    LitGreenEndsInAmberExactly(t, major, h, 1, 2);
    ConflictClearanceExactly(t, major, h, 1, 2, 7);
  }

  lemma FlashBetweenRun(t: Timings, major: MajorApproach) returns (h: History)
    requires t.allRed == Fin(-1.0) && Trusted(t.maxGreen) && Trusted(t.yellow)
    ensures IsRun(t, major, h) && Monotone(h) && |h.states| == 8 && GreenFromTo(h, 1, 2)
    ensures h.states[1].applied == GreenEw && h.states[2].applied == YellowEw && h.states[7].applied == GreenNs
    ensures h.times[3] - h.times[2] == t.yellow.r && h.states[5].state.Flash?
    ensures forall k :: 2 <= k < 7 ==> !IsGreen(h.states[k].applied)
  {
    var dark := t.maxGreen.r + t.yellow.r;
    var late := dark + STUCK_S + ALL_RED_S;
    var h3 := ServedGreenRun(t, major);
    hide IsRun, Validated, FlashPhaseFor;
    NegativeClearanceFlashes(t, major, h3.states[3], GreenNs, dark + STUCK_S);
    h := RunExtends(t, major, h3, Validate(GreenNs), dark + STUCK_S);
    h := RunExtends(t, major, h, Validate(GreenNs), late);
    h := RunExtends(t, major, h, Event.Reset, late);
    NegativeClearanceEnds(t, major, h.states[6], GreenNs, late);
    h := RunExtends(t, major, h, Validate(GreenNs), late);
    FlashPatternIsNoGreen(major);
  }

  lemma FlashPatternIsNoGreen(major: MajorApproach)
    ensures !IsGreen(FlashPhaseFor(major))
  {
  }

  /** The East-West green held to max-green, its amber, and the clearance after it. */
  lemma ServedGreenRun(t: Timings, major: MajorApproach) returns (h: History)
    requires t.allRed == Fin(-1.0) && Trusted(t.maxGreen) && Trusted(t.yellow)
    ensures IsRun(t, major, h) && Monotone(h) && |h.states| == 4 && GreenFromTo(h, 1, 2)
    ensures h.states[1].applied == GreenEw && h.states[2].applied == YellowEw
    ensures h.times[3] == t.maxGreen.r + t.yellow.r == h.times[2] + t.yellow.r
    ensures h.states[3] == Boot(0.0).(target := GreenNs, targetValid := true, phaseStart := h.times[3])
  {
    var late, dark := t.maxGreen.r, t.maxGreen.r + t.yellow.r;
    h := GreenAtOnce(t, major);
    hide IsRun, Validated;
    MaxGreenBeginsAmber(t, major, h.states[1], GreenNs, late);
    h := RunExtends(t, major, h, Validate(GreenNs), late);
    h := RunExtends(t, major, h, Validate(GreenNs), dark);
  }

  lemma GreenAtOnce(t: Timings, major: MajorApproach) returns (h: History)
    requires t.allRed == Fin(-1.0)
    ensures IsRun(t, major, h) && Monotone(h) && h.events == [Validate(GreenEw)] && h.times == [0.0, 0.0]
    ensures h.states == [Boot(0.0), Boot(0.0).(state := Green, applied := GreenEw, target := GreenEw,
                                               targetValid := true)]
  {
    h := History([Boot(0.0)], [], [0.0]);
    h := RunExtends(t, major, h, Validate(GreenEw), 0.0);
  }

  lemma NegativeClearanceFlashes(t: Timings, major: MajorApproach, c: Core, desired: Phase, now: real)
    requires c.ringIdx < 6 && c.state.Clearing? && !c.emergency
    requires t.allRed == Fin(-1.0) && now - c.phaseStart == STUCK_S
    ensures var f := c.(stuck := c.applied, state := FlashClearance, applied := AllRed, phaseStart := now);
            && Validated(t, major, c, desired, now) == f
            && Validated(t, major, f, desired, now + ALL_RED_S) ==
               f.(state := Flash, applied := FlashPhaseFor(major), phaseStart := now + ALL_RED_S)
  {
  }

  lemma NegativeClearanceEnds(t: Timings, major: MajorApproach, c: Core, desired: Phase, now: real)
    requires c.ringIdx < 6 && c.state.Clearing? && !c.emergency && !c.targetValid && IsGreen(desired)
    requires t.allRed == Fin(-1.0) && c.phaseStart == now
    ensures Validated(t, major, c, desired, now) ==
            c.(target := desired, targetValid := true, state := Green, applied := desired)
  {
  }
}
