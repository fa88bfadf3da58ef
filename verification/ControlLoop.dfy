/**
  The single-writer control loop: three fault sources (camera, inference, Brain) share
  the interlock's emergency flag. Each block of a tick is one atomic step; commands may
  arrive between any two steps.
 */
module Control {
  import opened Interlock
  import opened Safety
  import opened SafetyRuns
  import opened Commands
  import Guard
  import opened Handoff
  import opened Latch
  import opened Wrappers

  /** The commands among `processed` that passed the sequence gate. */
  ghost function Applied(processed: seq<ParsedCommand>): seq<ParsedCommand> {
    if processed == [] then []
    else
      var c := processed[|processed| - 1];
      var earlier := processed[..|processed| - 1];
      if Actionable(c) && c.sequenceNumber > HighestSequence(earlier) then Applied(earlier) + [c] else Applied(earlier)
  }

  /** The greatest sequence number of an actionable command, at least -1. */
  ghost function HighestSequence(processed: seq<ParsedCommand>): int {
    if processed == [] then -1
    else
      var c := processed[|processed| - 1];
      var earlier := HighestSequence(processed[..|processed| - 1]);
      if Actionable(c) && c.sequenceNumber > earlier then c.sequenceNumber else earlier
  }

  lemma AppliedSnoc(processed: seq<ParsedCommand>, c: ParsedCommand)
    ensures Applied(processed + [c]) ==
      if Actionable(c) && c.sequenceNumber > HighestSequence(processed) then Applied(processed) + [c]
      else Applied(processed)
    ensures HighestSequence(processed + [c]) ==
      if Actionable(c) && c.sequenceNumber > HighestSequence(processed) then c.sequenceNumber
      else HighestSequence(processed)
  {
    assert (processed + [c])[..|processed|] == processed;
  }

  lemma {:induction false} HighestIsMaximum(processed: seq<ParsedCommand>)
    ensures HighestSequence(processed) >= -1
    ensures forall c :: c in processed && Actionable(c) ==> c.sequenceNumber <= HighestSequence(processed)
    ensures HighestSequence(processed) == -1 ||
            exists c :: c in processed && Actionable(c) && c.sequenceNumber == HighestSequence(processed)
  {
    if processed == [] {
    } else {
      var n := |processed| - 1;
      HighestIsMaximum(processed[..n]);
      assert processed == processed[..n] + [processed[n]];
    }
  }

  /** Applied sequence numbers strictly increase, so no command is applied twice. */
  lemma {:induction false} AppliedStrictlyIncrease(processed: seq<ParsedCommand>)
    ensures var a := Applied(processed);
            && (forall k :: 0 <= k < |a| ==> a[k] in processed && Actionable(a[k])
                                             && -1 < a[k].sequenceNumber <= HighestSequence(processed))
            && (forall i, j :: 0 <= i < j < |a| ==> a[i].sequenceNumber < a[j].sequenceNumber)
            && (a != [] ==> a[|a| - 1].sequenceNumber == HighestSequence(processed))
            && (a == [] ==> HighestSequence(processed) == -1)
  {
    if processed == [] {
    } else {
      AppliedStrictlyIncrease(processed[..|processed| - 1]);
    }
  }

  /** Command p is actionable and newer than -1 and than every actionable one before it. */
  ghost predicate Newest(processed: seq<ParsedCommand>, p: nat)
    requires p < |processed|
  {
    && Actionable(processed[p]) && processed[p].sequenceNumber > -1
    && forall q :: 0 <= q < p && Actionable(processed[q]) ==>
         processed[q].sequenceNumber < processed[p].sequenceNumber
  }

  /** Exactly the commands that are the newest so far are applied, in the order they came. */
  lemma {:induction false} AppliedExactly(processed: seq<ParsedCommand>) returns (at: seq<nat>)
    ensures |at| == |Applied(processed)|
    ensures forall k :: 0 <= k < |at| ==> at[k] < |processed| && Applied(processed)[k] == processed[at[k]]
    ensures forall i, j :: 0 <= i < j < |at| ==> at[i] < at[j]
    ensures forall p: nat :: p < |processed| ==> (p in at <==> Newest(processed, p))
  {
    if processed == [] {
      at := [];
    } else {
      var n := |processed| - 1;
      at := AppliedExactly(processed[..n]);
      HighestIsMaximum(processed[..n]);
      forall p: nat | p < n
        ensures Newest(processed, p) == Newest(processed[..n], p)
      {
        assert forall q :: 0 <= q <= p ==> processed[..n][q] == processed[q];
      }
      NewestExactly(processed, n);
      if Newest(processed, n) {
        at := at + [n];
      }
    }
  }

  lemma NewestExactly(processed: seq<ParsedCommand>, n: nat)
    requires n < |processed|
    ensures Newest(processed, n) <==>
      Actionable(processed[n]) && processed[n].sequenceNumber > HighestSequence(processed[..n])
  {
    hide HighestSequence;
    HighestIsMaximum(processed[..n]);
    assert forall q :: 0 <= q < n ==> processed[..n][q] == processed[q] && processed[q] in processed[..n];
  }

  /** The latch was given exactly the phases that the sequence gate let through. */
  ghost predicate LatchTrace(updates: seq<(Phase, int)>, processed: seq<ParsedCommand>) {
    && |updates| == |Applied(processed)|
    && forall k :: 0 <= k < |updates| ==> updates[k].0 == Applied(processed)[k].phase
  }

  lemma TraceSnoc(updates: seq<(Phase, int)>, processed: seq<ParsedCommand>, c: ParsedCommand, nowMs: int)
    requires LatchTrace(updates, processed)
    ensures var accepted := Actionable(c) && c.sequenceNumber > HighestSequence(processed);
            && HighestSequence(processed + [c]) == (if accepted then c.sequenceNumber else HighestSequence(processed))
            && LatchTrace(updates + if accepted then [(c.phase, nowMs)] else [], processed + [c])
  {
    hide Applied, HighestSequence;
    AppliedSnoc(processed, c);
  }

  /** What the guard hears of the commands of a tick. */
  function Heard(commands: seq<ParsedCommand>, nowMs: int): (es: seq<Guard.Event>)
    ensures |es| == |commands|
  {
    seq(|commands|, k requires 0 <= k < |commands| => Guard.Command(Actionable(commands[k]), nowMs))
  }

  /** Batches of commands in the order in which they arrive. */
  function Flat(batches: seq<seq<ParsedCommand>>): seq<ParsedCommand> {
    if batches == [] then [] else Flat(batches[..|batches| - 1]) + batches[|batches| - 1]
  }

  lemma FlatStep(batches: seq<seq<ParsedCommand>>, k: nat)
    requires k < |batches|
    ensures Flat(batches[..k + 1]) == Flat(batches[..k]) + batches[k]
  {
    assert batches[..k + 1][..k] == batches[..k];
  }

  lemma {:induction false} FlatGrows(batches: seq<seq<ParsedCommand>>, k: nat)
    requires k <= |batches|
    ensures |Flat(batches[..k])| <= |Flat(batches)|
    decreases |batches| - k
  {
    if k == |batches| {
      assert batches[..k] == batches;
    } else {
      FlatStep(batches, k);
      FlatGrows(batches, k + 1);
    }
  }

  lemma FlatNone(batches: seq<seq<ParsedCommand>>)
    ensures Flat(batches[..0]) == []
  {
  }

  lemma HeardSnoc(commands: seq<ParsedCommand>, c: ParsedCommand, nowMs: int)
    ensures Heard(commands + [c], nowMs) == Heard(commands, nowMs) + [Guard.Command(Actionable(c), nowMs)]
  {
  }

  /** What one tick sees of the world: the clocks, the broker, the camera, the model, the policy,
      and the commands that arrive during it, batch k right before its k-th step. */
  datatype TickInput = TickInput(
    nowMs: int,
    connected: bool,
    haveFrame: bool,
    frameOverdue: bool,
    inferenceOk: bool,
    policyPhase: Phase,
    drainAt: real,
    cameraAt: real,
    inferenceAt: real,
    decideAt: real,
    arrivals: seq<seq<ParsedCommand>>)

  class ControlLoop {
    const safety: SafetyLayer
    const guard: Guard.CommandGuard
    const queue: CommandQueue<ParsedCommand>
    const latch: DirectiveLatch
    var cameraOnline: bool
    var inferenceOnline: bool

    /** Before terminal FLASH the ring runs exactly while some fault is present. */
    ghost predicate Agreement()
      reads this, safety, guard
    {
      !InFlash(safety.Now()) ==> (safety.emergency <==> !cameraOnline || !inferenceOnline || guard.inFallback)
    }

    /** Under sane timings FLASH never comes, and the ring runs exactly while some fault is present. */
    lemma AgreementWhenSane()
      requires Valid() && !Corrupt(safety.timings)
      ensures safety.emergency <==> !cameraOnline || !inferenceOnline || guard.inFallback
    {
      SaneRunNeverFlashes(safety.timings, safety.major, safety.history, |safety.history.events|);
    }

    /** The latch holds what the sequence gate let through. */
    ghost predicate Traced()
      reads this, guard, queue, latch
    {
      guard.lastAppliedSeq == HighestSequence(queue.popped) && LatchTrace(latch.updates, queue.popped)
    }

    ghost predicate Valid()
      reads this, safety, guard, queue, latch
    {
      && safety.Valid() && guard.Valid() && queue.Valid() && queue.capacity > 0 && latch.Valid()
      && Agreement() && Traced()
    }

    constructor (timings: Timings, major: MajorApproach, cfg: Guard.Config, capacity: nat, ttlMs: int, now: real)
      requires capacity > 0
      ensures Valid() && fresh(safety) && fresh(guard) && fresh(queue) && fresh(latch)
      ensures cameraOnline && inferenceOnline
    {
      safety := new SafetyLayer(timings, major, now);
      guard := new Guard.CommandGuard(cfg);
      queue := new CommandQueue<ParsedCommand>(capacity);
      latch := new DirectiveLatch(ttlMs);
      cameraOnline, inferenceOnline := true, true;
    }

    /** Connecting to the broker arms the watchdog. */
    method Connected(nowMs: int)
      requires Valid()
      modifies guard
      ensures Valid() && guard.events == old(guard.events) + [Guard.Armed(nowMs)]
    {
      guard.Arm(nowMs);
    }

    /** The producer: one parsed command arrives, at any point of a tick. */
    method Receive(parsed: ParsedCommand)
      requires Valid()
      modifies queue
      ensures Valid() && queue.pushed == old(queue.pushed) + [parsed]
      ensures queue.popped == old(queue.popped) && Settled() >= old(Settled())
    {
      queue.Push(parsed);
    }

    /** How many of the commands pushed so far have been processed or dropped. */
    ghost function Settled(): int
      reads queue
    {
      |queue.pushed| - |queue.q|
    }

    lemma AllSettled()
      requires queue.q == []
      ensures Settled() == |queue.pushed|
    {
    }

    /** The batch of commands that arrives before step k, if there is one; `before` is what
        had been pushed before the tick. */
    method Arrive(arrivals: seq<seq<ParsedCommand>>, k: nat, ghost before: seq<ParsedCommand>) returns (next: nat)
      requires Valid() && k <= |arrivals| && queue.pushed == before + Flat(arrivals[..k])
      modifies queue
      ensures Valid() && next == (if k < |arrivals| then k + 1 else k)
      ensures queue.pushed == before + Flat(arrivals[..next])
      ensures queue.popped == old(queue.popped) && Settled() >= old(Settled())
      ensures queue.pushed == old(queue.pushed) ==> queue.q == old(queue.q)
    {
      hide *;
      next := k;
      if k < |arrivals| {
        FlatStep(arrivals, k);
        for i := 0 to |arrivals[k]|
          invariant Valid() && queue.pushed == old(queue.pushed) + arrivals[k][..i]
          invariant queue.popped == old(queue.popped) && Settled() >= old(Settled())
          invariant i == 0 ==> queue.q == old(queue.q)
        {
          Receive(arrivals[k][i]);
          assert arrivals[k][..i + 1] == arrivals[k][..i] + [arrivals[k][i]];
        }
        assert arrivals[k][..|arrivals[k]|] == arrivals[k];
        next := k + 1;
      }
    }

    /** The batches that arrive before the next tick. */
    method ArriveRest(arrivals: seq<seq<ParsedCommand>>, k: nat, ghost before: seq<ParsedCommand>)
      requires Valid() && k <= |arrivals| && queue.pushed == before + Flat(arrivals[..k])
      modifies queue
      ensures Valid() && queue.popped == old(queue.popped) && Settled() >= old(Settled())
      ensures queue.pushed == before + Flat(arrivals)
    {
      hide *;
      var i := k;
      while i < |arrivals|
        invariant Valid() && i <= |arrivals| && queue.pushed == before + Flat(arrivals[..i])
        invariant queue.popped == old(queue.popped) && Settled() >= old(Settled())
      {
        i := Arrive(arrivals, i, before);
      }
      assert arrivals[..i] == arrivals;
    }

    method ExitFallbackIfSafe(now: real)
      requires safety.Valid()
      modifies safety
      ensures safety.Valid()
      ensures safety.Now() == if cameraOnline && inferenceOnline then Toggled(old(safety.Now()), false, now)
                              else old(safety.Now())
    {
      if cameraOnline && inferenceOnline {
        safety.SetEmergencyMode(false, now);
      }
    }

    /** One turn of the drain loop. */
    method DrainOne(nowMs: int, now: real) returns (more: bool)
      requires Valid()
      modifies safety, guard, queue, latch
      ensures Valid()
      ensures more == (old(queue.q) != [])
      ensures queue.pushed == old(queue.pushed)
      ensures more ==> queue.q == old(queue.q)[1..] && queue.popped == old(queue.popped) + [old(queue.q)[0]]
      ensures more ==> guard.events == old(guard.events) + [Guard.Command(Actionable(old(queue.q)[0]), nowMs)]
      ensures !more ==> queue.q == [] && queue.popped == old(queue.popped) && guard.events == old(guard.events)
      ensures old(latch.updates) <= latch.updates
      ensures forall k :: |old(latch.updates)| <= k < |latch.updates| ==> latch.updates[k].1 == nowMs
    {
      hide LatchTrace, Applied, HighestSequence, InFlash, Guard.Follows, Guard.LastHeard, Guard.TrailingRejects,
           Guard.ValidStreak, Guard.LastChange, Guard.InFallback, IsRun;
      ghost var earlier := queue.popped;
      var r := queue.TryPop();
      if r.None? {
        return false;
      }
      TraceSnoc(latch.updates, earlier, r.value, nowMs);
      Judge(r.value, nowMs, now);
      LatchIfFresh(r.value, nowMs);
      return true;
    }

    /** Feeds the guard and follows its decision. */
    method Judge(parsed: ParsedCommand, nowMs: int, now: real)
      requires safety.Valid() && guard.Valid() && Agreement()
      modifies safety, guard
      ensures safety.Valid() && guard.Valid() && Agreement()
      ensures guard.lastAppliedSeq == old(guard.lastAppliedSeq)
      ensures guard.events == old(guard.events) + [Guard.Command(Actionable(parsed), nowMs)]
    {
      hide Validated, WasReset;
      var decision := guard.OnCommand(parsed, nowMs);
      if decision == Guard.ENTER_FALLBACK {
        safety.SetEmergencyMode(true, now);
      } else if decision == Guard.EXIT_FALLBACK {
        ExitFallbackIfSafe(now);
      }
    }

    /** Latches an actionable command that passes the sequence gate. */
    method LatchIfFresh(parsed: ParsedCommand, nowMs: int)
      requires guard.Valid() && latch.Valid()
      modifies guard`lastAppliedSeq, guard`totalRejected, guard`replays, latch
      ensures guard.Valid() && latch.Valid()
      ensures var accepted := Actionable(parsed) && parsed.sequenceNumber > old(guard.lastAppliedSeq);
              && guard.lastAppliedSeq == (if accepted then parsed.sequenceNumber else old(guard.lastAppliedSeq))
              && latch.updates == old(latch.updates) + if accepted then [(parsed.phase, nowMs)] else []
    {
      if Actionable(parsed) {
        var ok := guard.AcceptSequence(parsed);
        if ok {
          latch.Update(parsed.phase, nowMs);
        }
      }
    }

    /** Drains the queue until it is found empty; commands keep arriving, one batch before each turn. */
    method Drain(nowMs: int, now: real, arrivals: seq<seq<ParsedCommand>>) returns (turns: nat)
      requires Valid()
      modifies safety, guard, queue, latch
      ensures Valid() && queue.q == [] && Settled() == |queue.pushed| && turns <= |arrivals|
      ensures queue.pushed == old(queue.pushed) + Flat(arrivals[..turns])
      ensures old(queue.popped) <= queue.popped
      ensures guard.events == old(guard.events) + Heard(queue.popped[|old(queue.popped)|..], nowMs)
      ensures Flat(arrivals) == [] ==> queue.popped == old(queue.popped) + old(queue.q)
    {
      hide *;
      turns := 0;
      ghost var before, pushed := queue.popped, queue.pushed;
      assert Flat(arrivals[..0]) == [] by { FlatNone(arrivals); }
      assert Heard(queue.popped[|before|..], nowMs) == [];
      var more := true;
      while more
        invariant Valid() && turns <= |arrivals| && (!more ==> queue.q == [] && Settled() == |queue.pushed|)
        invariant queue.pushed == old(queue.pushed) + Flat(arrivals[..turns])
        invariant before <= queue.popped
        invariant guard.events == old(guard.events) + Heard(queue.popped[|before|..], nowMs)
        invariant Flat(arrivals) == [] ==> queue.popped + queue.q == before + old(queue.q)
        decreases |arrivals| - turns, |queue.q|, more
      {
        FlatGrows(arrivals, turns);
        turns := Arrive(arrivals, turns, pushed);
        FlatGrows(arrivals, turns);
        ghost var pending, popped := queue.q, queue.popped;
        more := DrainOne(nowMs, now);
        if !more {
          AllSettled();
        } else {
          assert [pending[0]] + queue.q == pending;
          HeardSnoc(popped[|before|..], pending[0], nowMs);
          assert queue.popped[|before|..] == popped[|before|..] + [pending[0]];
        }
      }
    }

    /** Silence can only be seen from the loop, and only while connected. */
    method CheckSilence(connected: bool, nowMs: int, now: real)
      requires Valid()
      modifies safety, guard
      ensures Valid()
      ensures guard.events == old(guard.events) + if connected then [Guard.Tick(nowMs)] else []
    {
      hide Validated, WasReset, IsRun, Applied, HighestSequence, Guard.Follows, Guard.LastHeard,
           Guard.TrailingRejects, Guard.ValidStreak, Guard.LastChange, Guard.InFallback, Guard.AllRejects;
      if connected {
        var decision := guard.CheckSilence(nowMs);
        if decision == Guard.ENTER_FALLBACK {
          safety.SetEmergencyMode(true, now);
        }
      }
    }

    /** The camera edge: `overdue` says more than three seconds have passed without a frame. */
    method ObserveCamera(haveFrame: bool, overdue: bool, now: real)
      requires Valid()
      modifies this`cameraOnline, safety
      ensures Valid()
      ensures cameraOnline == (haveFrame || (old(cameraOnline) && !overdue))
    {
      if !haveFrame {
        if overdue {
          if cameraOnline {
            cameraOnline := false;
            safety.SetEmergencyMode(true, now);
          }
        }
      } else {
        if !cameraOnline {
          cameraOnline := true;
          if !guard.inFallback && inferenceOnline {
            safety.SetEmergencyMode(false, now);
          }
        }
      }
    }

    /** The inference edge; detection runs only while the camera is online. */
    method ObserveInference(inferenceOk: bool, now: real)
      requires Valid()
      modifies this`inferenceOnline, safety
      ensures Valid()
      ensures inferenceOnline == if cameraOnline then inferenceOk else old(inferenceOnline)
    {
      if cameraOnline {
        if !inferenceOk {
          if inferenceOnline {
            inferenceOnline := false;
            safety.SetEmergencyMode(true, now);
          }
        } else if !inferenceOnline {
          inferenceOnline := true;
          if cameraOnline && !guard.inFallback {
            safety.SetEmergencyMode(false, now);
          }
        }
      }
    }

    /** The Brain is obeyed only while trusted, and only its newest accepted command while fresh. */
    ghost function Requested(processed: seq<ParsedCommand>, policyPhase: Phase, nowMs: int): Phase
      requires LatchTrace(latch.updates, processed)
      reads this, guard, latch
    {
      var applied := Applied(processed);
      if !guard.inFallback && applied != [] && nowMs - latch.updates[|latch.updates| - 1].1 < latch.ttlMs
      then applied[|applied| - 1].phase
      else policyPhase
    }

    /** Chooses the requested phase and asks the interlock what to show. */
    method Decide(policyPhase: Phase, nowMs: int, now: real) returns (shown: Phase, proposed: Phase)
      requires Valid()
      modifies safety
      ensures Valid() && shown == safety.applied
      ensures safety.Now() == Validated(safety.timings, safety.major, old(safety.Now()), proposed, now)
      ensures safety.history.events == old(safety.history.events) + [Event.Validate(proposed)]
      ensures !cameraOnline ==> proposed == GreenNs
      ensures LatchTrace(latch.updates, queue.popped)
      ensures cameraOnline ==> proposed == Requested(queue.popped, policyPhase, nowMs)
    {
      hide Applied, HighestSequence, Validated, Toggled, WasReset;
      var directive := None;
      if cameraOnline && !guard.inFallback {
        directive := latch.Get(nowMs);
      }
      if !cameraOnline {
        proposed := GreenNs;
      } else if directive.Some? {
        proposed := directive.value;
      } else {
        proposed := policyPhase;
      }
      PollKeepsEmergency(safety.timings, safety.major, safety.Now(), proposed, now);
      var wasModified;
      shown, wasModified := safety.Validate(proposed, now);
    }

    /** One tick: the blocks in the order of the loop, commands arriving all the while. */
    method RunTick(world: TickInput) returns (shown: Phase, proposed: Phase, turns: nat)
      requires Valid()
      modifies this, safety, guard, queue, latch
      ensures Valid() && shown == safety.applied
      ensures cameraOnline == (world.haveFrame || (old(cameraOnline) && !world.frameOverdue))
      ensures inferenceOnline == if cameraOnline then world.inferenceOk else old(inferenceOnline)
      // nothing that arrives is forgotten, and only what arrives after the drain may be left pending
      ensures queue.pushed == old(queue.pushed) + Flat(world.arrivals)
      ensures turns <= |world.arrivals| && Settled() >= |old(queue.pushed)| + |Flat(world.arrivals[..turns])|
      ensures old(queue.popped) <= queue.popped
      ensures Flat(world.arrivals) == [] ==> queue.popped == old(queue.popped) + old(queue.q)
      // the guard hears of every command drained, in order, and then of the silence check
      ensures guard.events == old(guard.events) + Heard(queue.popped[|old(queue.popped)|..], world.nowMs)
                              + if world.connected then [Guard.Tick(world.nowMs)] else []
      ensures safety.history.events != []
      ensures safety.history.events[|safety.history.events| - 1] == Event.Validate(proposed)
      ensures !cameraOnline ==> proposed == GreenNs
      ensures LatchTrace(latch.updates, queue.popped)
      ensures cameraOnline ==> proposed == Requested(queue.popped, world.policyPhase, world.nowMs)
    {
      hide *;
      ghost var pushed := queue.pushed;
      turns := Drain(world.nowMs, world.drainAt, world.arrivals);
      var k := Arrive(world.arrivals, turns, pushed);
      CheckSilence(world.connected, world.nowMs, world.drainAt);
      k := Arrive(world.arrivals, k, pushed);
      ObserveCamera(world.haveFrame, world.frameOverdue, world.cameraAt);
      k := Arrive(world.arrivals, k, pushed);
      ObserveInference(world.inferenceOk, world.inferenceAt);
      k := Arrive(world.arrivals, k, pushed);
      shown, proposed := Decide(world.policyPhase, world.nowMs, world.decideAt);
      ArriveRest(world.arrivals, k, pushed);
    }
  }
}
