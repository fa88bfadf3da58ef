/** Every approach is served: the emergency ring, the escalation of a stuck ring, and
    the max-green watchdog of the normal interlock. */
module SafetyService {
  import opened Interlock
  import opened Products
  import opened SafetyRuns

  /** From a to b the interlock is only polled, at gaps of at most d. */
  ghost predicate Polled(h: History, a: nat, b: nat, d: real) {
    && |h.states| == |h.times| == |h.events| + 1 && a <= b < |h.states| && Monotone(h)
    && forall k :: a <= k < b ==> h.events[k].Validate? && h.times[k + 1] - h.times[k] <= d
  }

  function Later(x: real, y: real): real { if x < y then y else x }

  lemma StampIsPast(t: Timings, major: MajorApproach, h: History, a: nat)
    requires IsRun(t, major, h) && Monotone(h) && a < |h.states|
    ensures h.states[a].phaseStart <= h.times[a]
  {
    var i := StampIsAMoment(t, major, h, a);
  }

  lemma PolledSuffix(h: History, a: nat, k: nat, b: nat, d: real)
    requires Polled(h, a, b, d) && a <= k <= b
    ensures Polled(h, k, b, d)
  {
  }

  lemma PolledStep(t: Timings, major: MajorApproach, h: History, a: nat, b: nat, d: real)
    requires IsRun(t, major, h) && Polled(h, a, b, d) && a < b
    ensures h.events[a].Validate? && h.times[a] <= h.times[a + 1] <= h.times[a] + d && Polled(h, a + 1, b, d)
    ensures Sound(major, h.states[a]) && Sound(major, h.states[a + 1])
    ensures h.states[a + 1] == Validated(t, major, h.states[a], h.events[a].desired, h.times[a + 1])
  {
    StepAt(t, major, h, a);
  }

  // ---------------------------------------------------------------- the ring

  predicate RingTrusted(t: Timings) { Trusted(t.emergencyGreen) && Trusted(t.yellow) && Trusted(t.allRed) }

  function RingTime(t: Timings, i: nat): real
    requires RingTrusted(t) && i < 6
  {
    RingDuration(t, RING[i]).r
  }

  /** With trusted schedules the ring moves on by one entry, in time. */
  lemma {:induction false} RingAdvances(t: Timings, major: MajorApproach, h: History, a: nat, b: nat, d: real)
    returns (k: nat)
    requires IsRun(t, major, h) && RingTrusted(t) && Polled(h, a, b, d) && a < b
    requires h.states[a].state.Emergency? && h.states[a].ringIdx < 6
    requires h.times[b] >= h.states[a].phaseStart + RingTime(t, h.states[a].ringIdx)
    ensures a < k <= b && h.states[k].state.Emergency?
    ensures h.states[k].ringIdx == Ahead(h.states[a].ringIdx, 1)
    ensures h.states[k - 1].applied == RING[h.states[a].ringIdx] && h.states[k].applied == RING[h.states[k].ringIdx]
    ensures h.states[k].phaseStart == h.times[k]
    ensures h.times[k] <= Later(h.times[a], h.states[a].phaseStart + RingTime(t, h.states[a].ringIdx)) + d
    decreases b - a
  {
    PolledStep(t, major, h, a, b, d);
    if h.states[a + 1] == h.states[a] {
      k := RingAdvances(t, major, h, a + 1, b, d);
    } else {
      k := a + 1;
    }
  }

  /** The ring entry m places after entry i. */
  function Ahead(i: nat, m: nat): (j: nat)
    requires i < 6 && m <= 6
    ensures j < 6
  {
    if i + m < 6 then i + m else i + m - 6
  }

  /** The time m ring entries from entry i may take, polls included. */
  function RingSpan(t: Timings, d: real, i: nat, m: nat): real
    requires RingTrusted(t) && i < 6
    decreases m
  {
    if m == 0 then 0.0 else RingTime(t, i) + d + RingSpan(t, d, Ahead(i, 1), m - 1)
  }

  /** One lap of the ring with a poll of slack per entry. */
  function LapTime(t: Timings, d: real): real
    requires RingTrusted(t)
  {
    2.0 * (t.emergencyGreen.r + t.yellow.r + t.allRed.r) + 6.0 * d
  }

  lemma SixEntriesMakeALap(t: Timings, d: real, i: nat)
    requires RingTrusted(t) && i < 6
    ensures RingSpan(t, d, i, 6) == LapTime(t, d)
  {
    hide RingTime, RingSpan;
    RingTimes(t);
    var i1, i2, i3, i4, i5 := Ahead(i, 1), Ahead(i, 2), Ahead(i, 3), Ahead(i, 4), Ahead(i, 5);
    EntryPlus(t, d, i, 6);
    EntryPlus(t, d, i1, 5);
    EntryPlus(t, d, i2, 4);
    EntryPlus(t, d, i3, 3);
    EntryPlus(t, d, i4, 2);
    EntryPlus(t, d, i5, 1);
  }

  lemma EntryPlus(t: Timings, d: real, i: nat, m: nat)
    requires RingTrusted(t) && i < 6 && m > 0
    ensures RingSpan(t, d, i, m) == RingTime(t, i) + d + if m == 1 then 0.0 else RingSpan(t, d, Ahead(i, 1), m - 1)
  {
  }

  lemma RingTimes(t: Timings)
    requires RingTrusted(t)
    ensures RingTime(t, 0) == RingTime(t, 3) == t.allRed.r
    ensures RingTime(t, 1) == RingTime(t, 4) == t.emergencyGreen.r
    ensures RingTime(t, 2) == RingTime(t, 5) == t.yellow.r
  {
  }

  lemma RingSpanWithinLap(t: Timings, d: real, i: nat, m: nat)
    requires RingTrusted(t) && i < 6 && m <= 6 && d >= 0.0
    ensures 0.0 <= RingSpan(t, d, i, m) <= LapTime(t, d)
  {
    RingSpanGrows(t, d, i, m, 6);
    SixEntriesMakeALap(t, d, i);
  }

  lemma {:induction false} RingSpanGrows(t: Timings, d: real, i: nat, m: nat, m': nat)
    requires RingTrusted(t) && i < 6 && m <= m' && d >= 0.0
    ensures 0.0 <= RingSpan(t, d, i, m) <= RingSpan(t, d, i, m')
    decreases m'
  {
    if m' == 0 {
    } else {
      if m > 0 {
        RingSpanGrows(t, d, Ahead(i, 1), m - 1, m' - 1);
      } else {
        RingSpanGrows(t, d, Ahead(i, 1), 0, m' - 1);
      }
    }
  }

  /** m entries further along the ring. */
  lemma {:induction false} RingReaches(t: Timings, major: MajorApproach, h: History, a: nat, b: nat, d: real, m: nat)
    returns (k: nat)
    requires IsRun(t, major, h) && RingTrusted(t) && Polled(h, a, b, d) && d >= 0.0 && 1 <= m <= 6
    requires h.states[a].state.Emergency? && h.states[a].ringIdx < 6
    requires h.times[b] > h.times[a] + RingSpan(t, d, h.states[a].ringIdx, m)
    ensures a < k <= b && h.states[k].state.Emergency?
    ensures h.states[k].ringIdx == Ahead(h.states[a].ringIdx, m)
    ensures h.states[k].applied == RING[h.states[k].ringIdx]
    ensures h.states[k - 1].applied == RING[Ahead(h.states[a].ringIdx, m - 1)]
    ensures h.times[k] <= h.times[a] + RingSpan(t, d, h.states[a].ringIdx, m)
    decreases m
  {
    var i := h.states[a].ringIdx;
    StampIsPast(t, major, h, a);
    RingSpanGrows(t, d, Ahead(i, 1), 0, m - 1);
    assert RingSpan(t, d, i, m) == RingTime(t, i) + d + RingSpan(t, d, Ahead(i, 1), m - 1);
    k := RingAdvances(t, major, h, a, b, d);
    PolledSuffix(h, a, k, b, d);
    if m > 1 {
      k := RingReaches(t, major, h, k, b, d, m - 1);
    }
  }

  /** At moment k the heads begin to show p. */
  ghost predicate Begins(h: History, k: nat, p: Phase) {
    0 < k < |h.states| && h.states[k].applied == p && h.states[k - 1].applied != p
  }

  /** No starvation: whatever is requested, every window of the emergency longer than
      a lap begins a green for both approaches. */
  lemma BothApproachesServed(t: Timings, major: MajorApproach, h: History, a: nat, b: nat, d: real)
    returns (ns: nat, ew: nat)
    requires IsRun(t, major, h) && RingTrusted(t) && Polled(h, a, b, d) && d >= 0.0
    requires h.states[a].state.Emergency?
    requires h.times[b] > h.times[a] + LapTime(t, d)
    ensures a < ns <= b && Begins(h, ns, GreenNs) && h.times[ns] <= h.times[a] + LapTime(t, d)
    ensures a < ew <= b && Begins(h, ew, GreenEw) && h.times[ew] <= h.times[a] + LapTime(t, d)
  {
    RunIsSound(t, major, h, a);
    var i := h.states[a].ringIdx;
    var toNs, toEw := if i < 1 then 1 else 7 - i, if i < 4 then 4 - i else 10 - i;
    RingSpanWithinLap(t, d, i, toNs);
    RingSpanWithinLap(t, d, i, toEw);
    ns := RingReaches(t, major, h, a, b, d, toNs);
    ew := RingReaches(t, major, h, a, b, d, toEw);
  }

  // ------------------------------------------------------------- a stuck ring

  /** Fine enough polling: the watchdog is asked before an absurd timer ends. */
  const STUCK_POLL_S: real := 52.0

  /** One poll of the ring: it stays below the ceiling, moves on or escalates, and before the
      ceiling a stuck entry can only stay below the watchdog or escalate. */
  lemma RingPoll(t: Timings, major: MajorApproach, c: Core, desired: Phase, now: real)
    requires Sound(major, c) && c.state.Emergency?
    ensures var c', stuck := Validated(t, major, c, desired, now), Stuck(RingDuration(t, RING[c.ringIdx]));
            if c' == c then now < c.phaseStart + MAX_GREEN_S && (stuck ==> now < c.phaseStart + STUCK_S)
            else
              && c'.phaseStart == now
              && (c'.state.FlashClearance? || (c'.state.Emergency? && c'.ringIdx == Ahead(c.ringIdx, 1)))
              && (stuck && now <= c.phaseStart + MAX_GREEN_S ==> c'.state.FlashClearance?)
  {
  }

  /** The ring leaves an entry within the ceiling plus d, and a stuck entry by escalation. */
  lemma {:induction false} RingLeaves(t: Timings, major: MajorApproach, h: History, a: nat, b: nat, d: real)
    returns (k: nat)
    requires IsRun(t, major, h) && Polled(h, a, b, d) && a < b && 0.0 <= d <= STUCK_POLL_S
    requires h.states[a].state.Emergency? && h.states[a].ringIdx < 6
    requires h.times[a] < h.states[a].phaseStart + STUCK_S || !Stuck(RingDuration(t, RING[h.states[a].ringIdx]))
    requires h.times[b] >= h.states[a].phaseStart + MAX_GREEN_S
    ensures a < k <= b && h.states[k].phaseStart == h.times[k]
    ensures h.times[k] <= Later(h.times[a], h.states[a].phaseStart + MAX_GREEN_S) + d
    ensures h.states[k].state.FlashClearance? ||
            (h.states[k].state.Emergency? && h.states[k].ringIdx == Ahead(h.states[a].ringIdx, 1))
    ensures Stuck(RingDuration(t, RING[h.states[a].ringIdx])) ==> h.states[k].state.FlashClearance?
    decreases b - a
  {
    hide Validated, RingDuration, Stuck, Ahead;
    PolledStep(t, major, h, a, b, d);
    RingPoll(t, major, h.states[a], h.events[a].desired, h.times[a + 1]);
    if h.states[a + 1] == h.states[a] {
      k := RingLeaves(t, major, h, a + 1, b, d);
    } else {
      k := a + 1;
    }
  }

  /** FLASH_CLEARANCE gives way to FLASH. */
  lemma {:induction false} ClearanceEnds(t: Timings, major: MajorApproach, h: History, a: nat, b: nat, d: real)
    returns (k: nat)
    requires IsRun(t, major, h) && Polled(h, a, b, d) && a < b && d >= 0.0
    requires h.states[a].state.FlashClearance?
    requires h.times[b] >= h.states[a].phaseStart + MAX_GREEN_S
    ensures a < k <= b && h.states[k].state.Flash? && h.states[k].applied == FlashPhaseFor(major)
    ensures h.times[k] <= Later(h.times[a], h.states[a].phaseStart + MAX_GREEN_S) + d
    decreases b - a
  {
    PolledStep(t, major, h, a, b, d);
    if h.states[a + 1] == h.states[a] {
      k := ClearanceEnds(t, major, h, a + 1, b, d);
    } else {
      k := a + 1;
    }
  }

  /** The time n ring entries and the clearance may take before FLASH. */
  function TimeToFlash(d: real, n: nat): real {
    MAX_GREEN_S + d + if n == 0 then MAX_GREEN_S + d else TimeToFlash(d, n - 1)
  }

  lemma {:induction false} TimeToFlashPositive(d: real, n: nat)
    requires d >= 0.0
    ensures TimeToFlash(d, n) >= 2.0 * (MAX_GREEN_S + d)
  {
    if n == 0 {
    } else {
      TimeToFlashPositive(d, n - 1);
    }
  }

  /** From a freshly entered ring entry, n entries before a stuck one. */
  lemma {:induction false} StuckEntryFlashes(t: Timings, major: MajorApproach, h: History, a: nat, b: nat, d: real,
                                             n: nat)
    returns (k: nat)
    requires IsRun(t, major, h) && Polled(h, a, b, d) && 0.0 <= d <= STUCK_POLL_S
    requires h.states[a].state.Emergency? && h.states[a].phaseStart == h.times[a] && h.states[a].ringIdx + n < 6
    requires Stuck(RingDuration(t, RING[h.states[a].ringIdx + n]))
    requires h.times[b] > h.times[a] + TimeToFlash(d, n)
    ensures a < k <= b && h.states[k].state.Flash? && h.states[k].applied == FlashPhaseFor(major)
    ensures h.times[k] <= h.times[a] + TimeToFlash(d, n)
    decreases n
  {
    TimeToFlashPositive(d, n);
    assert a < b;
    k := RingLeaves(t, major, h, a, b, d);
    PolledSuffix(h, a, k, b, d);
    if h.states[k].state.FlashClearance? {
      k := ClearanceEnds(t, major, h, k, b, d);
    } else {
      k := StuckEntryFlashes(t, major, h, k, b, d, n - 1);
    }
  }

  /** If a ring schedule is stuck, an emergency left on and polled finely enough ends in
      FLASH with the configured pattern, in bounded time. */
  lemma StuckRingEndsInFlash(t: Timings, major: MajorApproach, h: History, a: nat, b: nat, d: real) returns (k: nat)
    requires IsRun(t, major, h) && Polled(h, a, b, d) && 0.0 <= d <= STUCK_POLL_S
    requires a > 0 && h.events[a - 1] == SetEmergency(true) && !h.states[a - 1].emergency && !InFlash(h.states[a - 1])
    requires Stuck(t.emergencyGreen) || Stuck(t.yellow) || Stuck(t.allRed)
    requires h.times[b] > h.times[a] + 4.0 * (MAX_GREEN_S + d)
    ensures a < k <= b && h.states[k].state.Flash? && h.states[k].applied == FlashPhaseFor(major)
    ensures h.times[k] <= h.times[a] + 4.0 * (MAX_GREEN_S + d)
  {
    StepAt(t, major, h, a - 1);
    var n := if Stuck(t.allRed) then 0 else if Stuck(t.emergencyGreen) then 1 else 2;
    assert TimeToFlash(d, 1) == MAX_GREEN_S + d + TimeToFlash(d, 0);
    assert TimeToFlash(d, 2) == MAX_GREEN_S + d + TimeToFlash(d, 1);
    k := StuckEntryFlashes(t, major, h, a, b, d, n);
  }

  /** Conversely a ring whose schedules are trusted or negative never escalates. */
  lemma {:induction false} SoundRingNeverFlashes(t: Timings, major: MajorApproach, h: History, a: nat, b: nat, d: real)
    requires IsRun(t, major, h) && Polled(h, a, b, d) && h.states[a].state.Emergency?
    requires h.times[a] >= h.states[a].phaseStart
    requires !Stuck(t.emergencyGreen) && !Stuck(t.yellow) && !Stuck(t.allRed)
    ensures h.states[b].state.Emergency?
    decreases b - a
  {
    if a == b {
    } else {
      PolledStep(t, major, h, a, b, d);
      SoundRingNeverFlashes(t, major, h, a + 1, b, d);
    }
  }

  // ------------------------------------------------------- normal operation

  /** Both the Brain and the policy keep asking for one green w. */
  ghost predicate Asks(h: History, a: nat, b: nat, w: Phase) {
    && |h.states| == |h.events| + 1 && a <= b < |h.states| && IsGreen(w)
    && forall k :: a <= k < b ==> h.events[k] == Validate(w)
  }

  predicate CycleTrusted(t: Timings) { Trusted(t.maxGreen) && Trusted(t.yellow) && Trusted(t.allRed) }

  function Budget(t: Timings, c: Core): real
    requires CycleTrusted(t)
  {
    if c.state.Green? then t.maxGreen.r else if c.state.Yellow? then t.yellow.r else t.allRed.r
  }

  /** The green the interlock is heading for, if the poll that moves it on asks for w. */
  function Heading(c: Core, w: Phase): Phase {
    if c.state.Green? then (if IsGreen(w) && w != c.applied then w else OppositeGreen(c.applied))
    else if c.state.Yellow? || c.targetValid then c.target
    else w
  }

  /** The next state of the cycle. */
  ghost predicate CycleStep(c: Core, w: Phase, c': Core) {
    if c.state.Green? then c'.state.Yellow? && c'.target == Heading(c, w)
    else if c.state.Yellow? then c'.state.Clearing? && c'.targetValid && c'.target == Heading(c, w)
    else c'.state.Green? && c'.applied == Heading(c, w)
  }

  /** Normal operation on its way: a green, an amber or a committed clearance. */
  predicate UnderWay(c: Core) { Cycling(c) && (c.state.Clearing? ==> c.targetValid) }

  /** Under sane schedules a poll leaves the state alone or moves it on, and moves it on in time. */
  lemma CyclePoll(t: Timings, major: MajorApproach, c: Core, desired: Phase, now: real)
    requires Sound(major, c) && CycleTrusted(t) && UnderWay(c)
    ensures var c' := Validated(t, major, c, desired, now);
            if c'.state == c.state then c' == c && now < c.phaseStart + Budget(t, c)
            else CycleStep(c, desired, c') && UnderWay(c') && c'.phaseStart == now
  {
  }

  /** Whatever is requested, every state of the cycle is left within its time plus one polling gap. */
  lemma {:induction false} CycleMoves(t: Timings, major: MajorApproach, h: History, a: nat, b: nat, d: real)
    returns (k: nat)
    requires IsRun(t, major, h) && CycleTrusted(t) && Polled(h, a, b, d) && a < b
    requires UnderWay(h.states[a])
    requires h.times[b] >= h.states[a].phaseStart + Budget(t, h.states[a])
    ensures a < k <= b && h.events[k - 1].Validate? && CycleStep(h.states[a], h.events[k - 1].desired, h.states[k])
    ensures UnderWay(h.states[k]) && h.states[k].phaseStart == h.times[k]
    ensures h.states[k - 1].applied == h.states[a].applied
    ensures h.times[k] <= Later(h.times[a], h.states[a].phaseStart + Budget(t, h.states[a])) + d
    decreases b - a
  {
    hide Validated, CycleStep, UnderWay, Budget, CycleTrusted;
    PolledStep(t, major, h, a, b, d);
    CyclePoll(t, major, h.states[a], h.events[a].desired, h.times[a + 1]);
    if h.states[a + 1].state == h.states[a].state {
      k := CycleMoves(t, major, h, a + 1, b, d);
    } else {
      k := a + 1;
    }
  }

  /** Amber, clearance and the next green, a poll of slack each. */
  function ChangeTime(t: Timings, d: real): real
    requires CycleTrusted(t)
  {
    t.maxGreen.r + t.yellow.r + t.allRed.r + 3.0 * d
  }

  /** Whatever is requested, a green leads to another green within the change time: the one
      it was heading for at the poll that began its amber at y. */
  lemma GreenToGreen(t: Timings, major: MajorApproach, h: History, a: nat, b: nat, d: real) returns (y: nat, k: nat)
    requires IsRun(t, major, h) && CycleTrusted(t) && Polled(h, a, b, d) && d >= 0.0
    requires h.states[a].state.Green?
    requires h.times[b] > h.times[a] + ChangeTime(t, d)
    ensures a < y < k <= b && h.events[y - 1].Validate? && h.states[k].state.Green?
    ensures Begins(h, k, Heading(h.states[a], h.events[y - 1].desired))
    ensures IsGreen(h.states[k].applied) && h.states[k].applied != h.states[a].applied
    ensures h.times[k] <= h.times[a] + ChangeTime(t, d)
  {
    StampIsPast(t, major, h, a);
    RunIsSound(t, major, h, a);
    y := CycleMoves(t, major, h, a, b, d);
    var r := CycleMoves(t, major, h, y, b, d);
    RunIsSound(t, major, h, r);
    k := CycleMoves(t, major, h, r, b, d);
    RunIsSound(t, major, h, k);
  }

  /** A state under way, or one that the next poll gets under way. */
  ghost predicate ComesUnderWay(h: History, a: nat, b: nat)
    requires |h.states| == |h.events| + 1 && a <= b < |h.states|
  {
    Cycling(h.states[a]) && (UnderWay(h.states[a]) || (a < b && h.events[a].Validate? && IsGreen(h.events[a].desired)))
  }

  /** From anywhere in the cycle to a green. */
  lemma ReachGreen(t: Timings, major: MajorApproach, h: History, a: nat, b: nat, d: real) returns (k: nat)
    requires IsRun(t, major, h) && CycleTrusted(t) && Polled(h, a, b, d) && d >= 0.0 && ComesUnderWay(h, a, b)
    requires h.times[b] > h.times[a] + t.yellow.r + t.allRed.r + 2.0 * d
    ensures a <= k <= b && h.states[k].state.Green?
    ensures h.times[k] <= h.times[a] + t.yellow.r + t.allRed.r + 2.0 * d
  {
    StampIsPast(t, major, h, a);
    k := a;
    if !UnderWay(h.states[a]) {
      PolledStep(t, major, h, a, b, d);
      k := a + 1;
    }
    if h.states[k].state.Yellow? {
      k := CycleMoves(t, major, h, k, b, d);
    }
    if h.states[k].state.Clearing? {
      k := CycleMoves(t, major, h, k, b, d);
    }
  }

  /** The time from anywhere in the cycle to the second green from there. */
  function ServiceTime(t: Timings, d: real): real
    requires CycleTrusted(t)
  {
    ChangeTime(t, d) + t.yellow.r + t.allRed.r + 2.0 * d
  }

  /** Progress: from anywhere in the cycle, once a green has been asked for, every long enough
      window begins a green, whatever is requested. */
  lemma AnotherGreenBegins(t: Timings, major: MajorApproach, h: History, a: nat, b: nat, d: real) returns (k: nat)
    requires IsRun(t, major, h) && CycleTrusted(t) && Polled(h, a, b, d) && d >= 0.0 && ComesUnderWay(h, a, b)
    requires h.times[b] > h.times[a] + ServiceTime(t, d)
    ensures a < k <= b && IsGreen(h.states[k].applied) && Begins(h, k, h.states[k].applied)
    ensures h.times[k] <= h.times[a] + ServiceTime(t, d)
  {
    var g := ReachGreen(t, major, h, a, b, d);
    var y;
    y, k := GreenToGreen(t, major, h, g, b, d);
  }

  /** The max-green watchdog serves the other axis: while one green w is requested
      for ever, every long enough window begins the green opposite to w. */
  lemma OppositeAxisServed(t: Timings, major: MajorApproach, h: History, a: nat, b: nat, d: real, w: Phase)
    returns (k: nat)
    requires IsRun(t, major, h) && CycleTrusted(t) && Polled(h, a, b, d) && Asks(h, a, b, w) && d >= 0.0
    requires Cycling(h.states[a])
    requires h.times[b] > h.times[a] + ChangeTime(t, d) + ServiceTime(t, d)
    ensures a < k <= b && Begins(h, k, OppositeGreen(w))
    ensures h.times[k] <= h.times[a] + ChangeTime(t, d) + ServiceTime(t, d)
  {
    assert a < b;
    assert h.events[a] == Validate(w);
    k := ReachGreen(t, major, h, a, b, d);
    var y;
    if h.states[k].applied != w {
      y, k := GreenToGreen(t, major, h, k, b, d);
      assert h.events[y - 1] == Validate(w);
    }
    y, k := GreenToGreen(t, major, h, k, b, d);
    assert h.events[y - 1] == Validate(w);
  }

  /** The green shown, or headed for, belongs to the North-South axis. */
  predicate OnNsAxis(c: Core) {
    && (c.state.Green? ==> IsNs(c.applied))
    && (c.state.Yellow? || (c.state.Clearing? && c.targetValid) ==> IsNs(c.target))
  }

  /** When max-green ends a green, the switch goes to the other axis exactly when the request
      is not another green of the same axis. */
  lemma MaxGreenSwitchesAxisExactly(t: Timings, major: MajorApproach, c: Core, desired: Phase, now: real)
    requires Sound(major, c) && c.state.Green? && Reached(now - c.phaseStart, t.maxGreen)
    requires Trusted(t.maxGreen) || now - c.phaseStart < MAX_GREEN_S
    ensures var c' := Validated(t, major, c, desired, now);
            && c'.state.Yellow? && c'.applied == YellowFor(c.applied) && c'.target != c.applied
            && (IsNs(c'.target) != IsNs(c.applied) <==>
                 !(IsGreen(desired) && desired != c.applied && IsNs(desired) == IsNs(c.applied)))
  {
  }

  /** So the through green held to max-green gives way to the left turn of its own axis if that
      is asked for, not to the opposing green. */
  lemma MaxGreenStaysOnAxis(t: Timings, major: MajorApproach, c: Core, now: real)
    requires Sound(major, c) && c.state.Green? && c.applied == GreenNs && Trusted(t.maxGreen)
    requires Reached(now - c.phaseStart, t.maxGreen)
    ensures Validated(t, major, c, GreenNsLeft, now) == BeginYellow(c, GreenNsLeft, now)
    ensures OppositeGreen(c.applied) == GreenEw
  {
  }

  /** From a to b every request is a North-South green other than the one shown. */
  ghost predicate AsksChangingNs(h: History, a: nat, b: nat) {
    && |h.states| == |h.events| + 1 && a <= b < |h.states|
    && forall k {:trigger AsksOtherNs(h.states[k], h.events[k])} :: a <= k < b ==> AsksOtherNs(h.states[k], h.events[k])
  }

  predicate AsksOtherNs(c: Core, e: Event) {
    e.Validate? && IsGreen(e.desired) && IsNs(e.desired) && (c.state.Green? ==> e.desired != c.applied)
  }

  /** Requests that keep changing within one axis keep every green on it. */
  lemma {:induction false} ChangingRequestsStarve(t: Timings, major: MajorApproach, h: History, a: nat, b: nat)
    requires IsRun(t, major, h) && CycleTrusted(t) && a <= b < |h.states|
    requires Cycling(h.states[a]) && OnNsAxis(h.states[a])
    requires AsksChangingNs(h, a, b)
    ensures Cycling(h.states[b]) && OnNsAxis(h.states[b])
    ensures IsGreen(h.states[b].applied) ==> IsNs(h.states[b].applied)
    decreases b
  {
    assert |h.times| == |h.states|;
    hide Cycling, OnNsAxis, Sound, Validated, IsRun, IsGreen, IsNs;
    RunIsSound(t, major, h, b);
    if a == b {
    } else {
      ChangingRequestsStarve(t, major, h, a, b - 1);
      assert AsksOtherNs(h.states[b - 1], h.events[b - 1]);
      StepAt(t, major, h, b - 1);
    }
  }

  /** The request of a Brain that serves only the North-South axis. */
  function OtherNs(c: Core): Phase { if c.applied == GreenNs then GreenNsLeft else GreenNs }

  /** Poll k comes d after the last one and asks so. */
  ghost predicate StarvingPoll(h: History, k: nat, d: real)
    requires |h.states| == |h.times| == |h.events| + 1 && k < |h.events|
  {
    h.events[k] == Validate(OtherNs(h.states[k])) && h.times[k + 1] == h.times[k] + d
  }

  ghost predicate StarvingPolls(h: History, d: real) {
    && |h.states| == |h.times| == |h.events| + 1
    && forall k {:trigger StarvingPoll(h, k, d)} :: 0 <= k < |h.events| ==> StarvingPoll(h, k, d)
  }

  /** The run polled every d seconds, n times, under such requests. */
  lemma {:induction false} StarvingRun(t: Timings, major: MajorApproach, d: real, n: nat) returns (h: History)
    ensures IsRun(t, major, h) && StarvingPolls(h, d) && |h.events| == n && h.times[n] == n as real * d
  {
    if n == 0 {
      h := History([Boot(0.0)], [], [0.0]);
    } else {
      hide IsRun, Apply, OtherNs;
      var h0 := StarvingRun(t, major, d, n - 1);
      h := RunExtends(t, major, h0, Validate(OtherNs(h0.states[n - 1])), h0.times[n - 1] + d);
      forall k | 0 <= k < n
        ensures StarvingPoll(h, k, d)
      {
        if k < n - 1 { assert StarvingPoll(h0, k, d); }
      }
    }
  }

  lemma {:induction false} TimesGrow(h: History, d: real, i: nat, j: nat)
    requires StarvingPolls(h, d) && d > 0.0 && i <= j <= |h.events|
    ensures h.times[i] <= h.times[j]
    decreases j
  {
    if i == j {
    } else {
      TimesGrow(h, d, i, j - 1);
      assert StarvingPoll(h, j - 1, d);
    }
  }

  lemma StarvingPollsArePolls(h: History, d: real)
    requires StarvingPolls(h, d) && d > 0.0
    ensures Polled(h, 0, |h.events|, d) && AsksChangingNs(h, 0, |h.events|)
  {
    forall i, j | 0 <= i <= j < |h.times|
      ensures h.times[i] <= h.times[j]
    {
      TimesGrow(h, d, i, j);
    }
    forall k | 0 <= k < |h.events|
      ensures h.events[k].Validate? && h.times[k + 1] - h.times[k] <= d && AsksOtherNs(h.states[k], h.events[k])
    {
      assert StarvingPoll(h, k, d);
    }
  }

  /** A north-south green begins after moment a, and no later than at time x. */
  ghost predicate NsGreenBegins(h: History, a: nat, x: real) {
    |h.times| == |h.states| && exists k :: a < k < |h.states| && BeginsNs(h, k) && h.times[k] <= x
  }

  ghost predicate BeginsNs(h: History, k: nat) { Begins(h, k, GreenNs) || Begins(h, k, GreenNsLeft) }

  /** Starvation: under any sane schedules and however fine the polling, there are runs of any
      length that keep beginning greens and never show one to the East-West axis. */
  lemma ChangingRequestsCanStarve(t: Timings, major: MajorApproach, d: real, horizon: real) returns (h: History)
    requires CycleTrusted(t) && d > 0.0
    ensures IsRun(t, major, h) && Polled(h, 0, |h.events|, d) && h.times[|h.events|] > horizon
    ensures forall k :: 0 <= k < |h.events| ==> IsGreen(h.events[k].desired)
    ensures forall k :: 0 <= k < |h.states| ==> h.states[k].applied !in {GreenEw, GreenEwLeft}
    ensures forall a :: 0 <= a < |h.states| && h.times[|h.events|] > h.times[a] + ServiceTime(t, d) ==>
      NsGreenBegins(h, a, h.times[a] + ServiceTime(t, d))
  {
    var n := Archimedes(d, horizon);
    h := StarvingRun(t, major, d, n);
    StarvingPollsArePolls(h, d);
    forall k | 0 <= k < |h.states|
      ensures Cycling(h.states[k]) && h.states[k].applied !in {GreenEw, GreenEwLeft}
    {
      ChangingRequestsStarve(t, major, h, 0, k);
    }
    forall k | 0 <= k < |h.events|
      ensures IsGreen(h.events[k].desired)
    {
      assert AsksOtherNs(h.states[k], h.events[k]);
    }
    forall a | 0 <= a < |h.states| && h.times[|h.events|] > h.times[a] + ServiceTime(t, d)
      ensures NsGreenBegins(h, a, h.times[a] + ServiceTime(t, d))
    {
      PolledSuffix(h, 0, a, |h.events|, d);
      var k := AnotherGreenBegins(t, major, h, a, |h.events|, d);
      assert BeginsNs(h, k);
    }
  }

  /** An ALL_RED nobody has asked to leave is the one display that may last: with a
      trusted clearance and no green requested the boot state never changes. */
  lemma {:induction false} IdleClearanceLasts(t: Timings, major: MajorApproach, h: History, k: nat)
    requires IsRun(t, major, h) && Trusted(t.allRed) && k < |h.states|
    requires forall i :: 0 <= i < k ==> h.events[i].Validate? && !IsGreen(h.events[i].desired)
    ensures h.states[k] == h.states[0]
  {
    if k == 0 {
    } else {
      IdleClearanceLasts(t, major, h, k - 1);
      StepAt(t, major, h, k - 1);
    }
  }
}
