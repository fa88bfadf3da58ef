/** The interlock as an object: every value it can take is a run of the transition function. */
module Safety {
  import opened Interlock

  class SafetyLayer {
    const timings: Timings
    const major: MajorApproach
    var state: State
    var applied: Phase
    var target: Phase
    var targetValid: bool
    var phaseStart: real
    var emergency: bool
    var ringIdx: nat
    var stuck: Phase
    ghost var history: History

    ghost function Now(): Core
      reads this
    {
      Core(state, applied, target, targetValid, phaseStart, emergency, ringIdx, stuck)
    }

    ghost predicate Valid()
      reads this
    {
      && IsRun(timings, major, history)
      && Now() == history.states[|history.events|]
      && ringIdx < 6
    }

    constructor (timings: Timings, major: MajorApproach, now: real)
      ensures Valid() && this.timings == timings && this.major == major
      ensures history == History([Boot(now)], [], [now])
    {
      this.timings, this.major := timings, major;
      state, applied, target, targetValid := Clearing, AllRed, GreenNs, false;
      phaseStart, emergency, ringIdx, stuck := now, false, 0, AllRed;
      history := History([Boot(now)], [], [now]);
    }

    /** The phase to show now. */
    method Validate(desired: Phase, now: real) returns (phase: Phase, wasModified: bool)
      requires Valid()
      modifies this
      ensures Valid() && Now() == Apply(timings, major, old(Now()), Event.Validate(desired), now)
      ensures history.events == old(history.events) + [Event.Validate(desired)]
      ensures history.times == old(history.times) + [now]
      ensures phase == applied
      ensures wasModified == (old(emergency) || InFlash(Now()) || InFlash(old(Now())) || applied != desired)
    {
      hide Interlock.StepFlash, Interlock.StepEmergency, StepGreen, StepYellow, StepClearing, Sound;
      history := RunExtends(timings, major, history, Event.Validate(desired), now);
      if state.FlashClearance? || state.Flash? {
        StepFlash(now);
        return applied, true;
      }
      if emergency {
        StepEmergency(now);
        return applied, true;
      }
      StepNormal(desired, now);
      return applied, state.FlashClearance? || applied != desired;
    }

    method StepFlash(now: real)
      modifies this`state, this`applied, this`phaseStart
      ensures Now() == Interlock.StepFlash(timings, major, old(Now()), now)
    {
      if state.FlashClearance? && now - phaseStart >= FlashClearanceS(timings) {
        var pattern := FlashPhaseFor(major);
        if !IsFlash(pattern) {
          pattern := FlashAllRed;
        }
        state, applied, phaseStart := Flash, pattern, now;
      }
    }

    method EnterFlashClearance(stuckPhase: Phase, now: real)
      modifies this`stuck, this`state, this`applied, this`phaseStart
      ensures Now() == old(Now()).(stuck := stuckPhase, state := FlashClearance, applied := AllRed, phaseStart := now)
    {
      stuck, state, applied, phaseStart := stuckPhase, FlashClearance, AllRed, now;
    }

    method BeginYellow(targetGreen: Phase, now: real)
      modifies this`target, this`targetValid, this`applied, this`state, this`phaseStart
      ensures Now() == Interlock.BeginYellow(old(Now()), targetGreen, now)
    {
      var amber := YellowFor(applied);
      target, targetValid, applied, state, phaseStart := targetGreen, true, amber, Yellow, now;
    }

    method StepNormal(desired: Phase, now: real)
      requires ringIdx < 6 && !emergency
      modifies this
      ensures Now() == Validated(timings, major, old(Now()), desired, now)
      ensures history == old(history)
    {
      hide Validated, Trusted, Reached, IsGreen, OppositeGreen, YellowFor, Interlock.StepFlash, Interlock.StepEmergency;
      NormalPoll(timings, major, Now(), desired, now);
      var elapsed := now - phaseStart;
      match state {
        case Green =>
          if !Trusted(timings.maxGreen) && elapsed >= MAX_GREEN_S {
            EnterFlashClearance(applied, now);
            StepFlash(now);
            return;
          }
          var want := if IsGreen(desired) then desired else applied;
          var wantsChange := want != applied;
          if Reached(elapsed, timings.maxGreen) {
            var dest := if wantsChange then want else OppositeGreen(applied);
            BeginYellow(dest, now);
            return;
          }
          if wantsChange && Reached(elapsed, timings.minGreen) {
            BeginYellow(want, now);
          }
        case Yellow =>
          if !Trusted(timings.yellow) && elapsed * 1000.0 >= 4000.0 {
            EnterFlashClearance(applied, now);
            StepFlash(now);
            return;
          }
          if Reached(elapsed, timings.yellow) {
            applied, state, phaseStart := AllRed, Clearing, now;
          }
        case Clearing =>
          if !Trusted(timings.allRed) && elapsed * 1000.0 >= 8000.0 {
            EnterFlashClearance(applied, now);
            StepFlash(now);
            return;
          }
          if !targetValid && IsGreen(desired) {
            target, targetValid := desired, true;
          }
          if Reached(elapsed, timings.allRed) && targetValid {
            applied, state, phaseStart := target, Green, now;
          }
        case Emergency =>
          StepEmergency(now);
        case FlashClearance =>
          StepFlash(now);
        case Flash =>
          StepFlash(now);
      }
    }

    method StepEmergency(now: real)
      requires ringIdx < 6
      modifies this
      ensures Now() == Interlock.StepEmergency(timings, major, old(Now()), now)
      ensures history == old(history)
    {
      var current := RING[ringIdx];
      var elapsed := now - phaseStart;
      var schedule := RingDuration(timings, current);
      var scheduleTrusted := Trusted(schedule);
      if Reached(elapsed, schedule) {
        ringIdx := (ringIdx + 1) % 6;
        applied := RING[ringIdx];
        phaseStart := now;
      } else if !scheduleTrusted && IsGreen(current) && elapsed * 1000.0 >= 8000.0 {
        EnterFlashClearance(current, now);
        StepFlash(now);
      } else if !scheduleTrusted && IsYellow(current) && elapsed * 1000.0 >= 4000.0 {
        EnterFlashClearance(current, now);
        StepFlash(now);
      } else if !scheduleTrusted && elapsed * 1000.0 >= 8000.0 {
        EnterFlashClearance(current, now);
        StepFlash(now);
      }
    }

    method SetEmergencyMode(on: bool, now: real)
      requires Valid()
      modifies this
      ensures Valid() && Now() == Apply(timings, major, old(Now()), SetEmergency(on), now)
      ensures history.events == old(history.events) + [SetEmergency(on)]
      ensures history.times == old(history.times) + [now]
    {
      history := RunExtends(timings, major, history, SetEmergency(on), now);
      if state.FlashClearance? || state.Flash? {
        return;
      }
      if on == emergency {
        return;
      }
      emergency := on;
      if on {
        state, ringIdx, applied, phaseStart := Emergency, 0, RING[0], now;
      } else {
        state, applied, targetValid, phaseStart := Clearing, AllRed, false, now;
      }
    }

    method Reset(now: real)
      requires Valid()
      modifies this
      ensures Valid() && Now() == Apply(timings, major, old(Now()), Event.Reset, now)
      ensures history.events == old(history.events) + [Event.Reset]
      ensures history.times == old(history.times) + [now]
    {
      history := RunExtends(timings, major, history, Event.Reset, now);
      state, applied, targetValid, emergency, ringIdx := Clearing, AllRed, false, false, 0;
      stuck, phaseStart := AllRed, now;
    }
  }
}
