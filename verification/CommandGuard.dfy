/** When the Brain is trusted: the guard's counters against the history of what it saw. */
module Guard {
  import opened Commands

  datatype Config = Config(failureThreshold: int, recoveryStreak: int, silenceTimeoutMs: int)

  datatype Decision = NONE | ENTER_FALLBACK | EXIT_FALLBACK

  /** What the guard is told. */
  datatype Event = Armed(nowMs: int) | Command(valid: bool, nowMs: int) | Tick(nowMs: int)

  // ------------------------------------------- a specification without counters

  /** Commands rejected since the last valid one. */
  ghost function TrailingRejects(events: seq<Event>): nat {
    if events == [] then 0
    else
      match events[|events| - 1]
      case Command(valid, _) => if valid then 0 else 1 + TrailingRejects(events[..|events| - 1])
      case _ => TrailingRejects(events[..|events| - 1])
  }

  /** Commands accepted since the last rejected one, looking back no further than `from`. */
  ghost function ValidStreak(events: seq<Event>, from: nat): nat {
    if |events| <= from then 0
    else
      match events[|events| - 1]
      case Command(valid, _) => if valid then 1 + ValidStreak(events[..|events| - 1], from) else 0
      case _ => ValidStreak(events[..|events| - 1], from)
  }

  /** All commands rejected so far. */
  ghost function AllRejects(events: seq<Event>): nat { |Rejects(events)| }

  ghost function Rejects(events: seq<Event>): set<nat> {
    set k: nat | k < |events| && events[k].Command? && !events[k].valid
  }

  /** When a valid command or an arming was last seen; 0 for never. */
  ghost function LastHeard(events: seq<Event>): int {
    if events == [] then 0
    else
      match events[|events| - 1]
      case Armed(now) => now
      case Command(valid, now) => if valid then now else LastHeard(events[..|events| - 1])
      case Tick(_) => LastHeard(events[..|events| - 1])
  }

  /** One past the last decision that changed something. */
  ghost function LastChange(decisions: seq<Decision>): (i: nat)
    ensures i <= |decisions|
    ensures i > 0 ==> decisions[i - 1] != NONE
    ensures forall k :: i <= k < |decisions| ==> decisions[k] == NONE
  {
    if decisions == [] then 0
    else if decisions[|decisions| - 1] != NONE then |decisions|
    else LastChange(decisions[..|decisions| - 1])
  }

  ghost predicate InFallback(decisions: seq<Decision>) {
    var i := LastChange(decisions);
    i > 0 && decisions[i - 1] == ENTER_FALLBACK
  }

  /** The decision owed to the last event of `events`, after `decisions` on the others. */
  ghost function Owed(cfg: Config, events: seq<Event>, decisions: seq<Decision>): Decision
    requires |events| == |decisions| + 1
  {
    var earlier := events[..|decisions|];
    match events[|decisions|]
    case Armed(_) => NONE
    case Command(valid, _) =>
      if valid then
        if InFallback(decisions) && ValidStreak(events, LastChange(decisions)) >= cfg.recoveryStreak
        then EXIT_FALLBACK else NONE
      else
        if !InFallback(decisions) && TrailingRejects(events) >= cfg.failureThreshold
        then ENTER_FALLBACK else NONE
    case Tick(now) =>
      if !InFallback(decisions) && LastHeard(earlier) != 0 && now - LastHeard(earlier) > cfg.silenceTimeoutMs
      then ENTER_FALLBACK else NONE
  }

  ghost predicate Follows(cfg: Config, events: seq<Event>, decisions: seq<Decision>) {
    && |events| == |decisions|
    && forall i :: 0 <= i < |decisions| ==> decisions[i] == Owed(cfg, events[..i + 1], decisions[..i])
  }

  lemma SameLength(cfg: Config, events: seq<Event>, decisions: seq<Decision>)
    requires Follows(cfg, events, decisions)
    ensures |events| == |decisions|
  {
  }

  lemma FollowsExtends(cfg: Config, events: seq<Event>, decisions: seq<Decision>, e: Event, d: Decision)
    requires Follows(cfg, events, decisions) && d == Owed(cfg, events + [e], decisions)
    ensures Follows(cfg, events + [e], decisions + [d])
  {
    var events', decisions' := events + [e], decisions + [d];
    forall i | 0 <= i < |decisions'|
      ensures decisions'[i] == Owed(cfg, events'[..i + 1], decisions'[..i])
    {
      if i < |decisions| {
        assert events'[..i + 1] == events[..i + 1] && decisions'[..i] == decisions[..i];
      } else {
        assert events'[..i + 1] == events' && decisions'[..i] == decisions;
      }
    }
  }

  /** The counters after one more event. */
  lemma CountersAfter(events: seq<Event>, from: nat, e: Event)
    requires from <= |events|
    ensures LastHeard(events + [e]) ==
      if e.Armed? || (e.Command? && e.valid) then e.nowMs else LastHeard(events)
    ensures TrailingRejects(events + [e]) ==
      if !e.Command? then TrailingRejects(events) else if e.valid then 0 else TrailingRejects(events) + 1
    ensures ValidStreak(events + [e], from) ==
      if !e.Command? then ValidStreak(events, from) else if e.valid then ValidStreak(events, from) + 1 else 0
    ensures ValidStreak(events + [e], |events| + 1) == 0
    ensures AllRejects(events + [e]) == AllRejects(events) + if e.Command? && !e.valid then 1 else 0
  {
    assert (events + [e])[..|events|] == events;
    assert Rejects(events + [e]) == Rejects(events) + if e.Command? && !e.valid then {|events|} else {};
  }

  /** What is owed to one more event, in terms of the counters. */
  lemma OwedNow(cfg: Config, events: seq<Event>, decisions: seq<Decision>, e: Event)
    requires |events| == |decisions|
    ensures Owed(cfg, events + [e], decisions) ==
      match e
      case Armed(_) => NONE
      case Command(valid, _) =>
        if valid then
          if InFallback(decisions) && ValidStreak(events + [e], LastChange(decisions)) >= cfg.recoveryStreak
          then EXIT_FALLBACK else NONE
        else
          if !InFallback(decisions) && TrailingRejects(events + [e]) >= cfg.failureThreshold
          then ENTER_FALLBACK else NONE
      case Tick(now) =>
        if !InFallback(decisions) && LastHeard(events) != 0 && now - LastHeard(events) > cfg.silenceTimeoutMs
        then ENTER_FALLBACK else NONE
  {
    assert (events + [e])[..|events|] == events;
  }

  /** The last change after one more decision. */
  lemma ChangeAfter(decisions: seq<Decision>, d: Decision)
    ensures LastChange(decisions + [d]) == if d == NONE then LastChange(decisions) else |decisions| + 1
    ensures InFallback(decisions + [d]) == if d == NONE then InFallback(decisions) else d == ENTER_FALLBACK
  {
    assert (decisions + [d])[..|decisions|] == decisions;
  }

  // ------------------------------------------------------------- consequences

  /** Decisions alternate, starting with ENTER. */
  lemma DecisionsAlternate(cfg: Config, events: seq<Event>, decisions: seq<Decision>, i: nat)
    requires Follows(cfg, events, decisions) && i < |decisions| && decisions[i] != NONE
    ensures var j := LastChange(decisions[..i]);
            decisions[i] == if j > 0 && decisions[j - 1] == ENTER_FALLBACK then EXIT_FALLBACK else ENTER_FALLBACK
    ensures var j := LastChange(decisions[..i]);
            j > 0 ==> decisions[j - 1] != decisions[i]
  {
    hide TrailingRejects, ValidStreak, LastHeard;
    var earlier := decisions[..i];
    assert decisions[i] == Owed(cfg, events[..i + 1], earlier);
    hide LastChange;
    var j := LastChange(earlier);
    if j > 0 {
      assert earlier[j - 1] == decisions[j - 1];
    }
  }

  /** The valid commands behind a streak: the last reject, if any since `from`, comes before m. */
  lemma {:induction false} StreakIsUnbroken(events: seq<Event>, from: nat) returns (m: nat)
    requires from <= |events|
    ensures from <= m <= |events|
    ensures forall k :: m <= k < |events| && events[k].Command? ==> events[k].valid
    ensures m > from ==> events[m - 1].Command? && !events[m - 1].valid
    ensures ValidStreak(events, from) == CountCommands(events[m..])
  {
    var n := |events|;
    if n == from || (events[n - 1].Command? && !events[n - 1].valid) {
      m := n;
      assert events[m..] == [];
    } else {
      m := StreakIsUnbroken(events[..n - 1], from);
      assert events[m..][..n - 1 - m] == events[..n - 1][m..];
    }
  }

  ghost function CountCommands(events: seq<Event>): nat {
    if events == [] then 0
    else CountCommands(events[..|events| - 1]) + if events[|events| - 1].Command? then 1 else 0
  }

  lemma {:induction false} RejectsAreUnbroken(events: seq<Event>) returns (m: nat)
    ensures m <= |events|
    ensures forall k :: m <= k < |events| && events[k].Command? ==> !events[k].valid
    ensures m > 0 ==> events[m - 1].Command? && events[m - 1].valid
    ensures TrailingRejects(events) == CountCommands(events[m..])
  {
    var n := |events|;
    if n == 0 || (events[n - 1].Command? && events[n - 1].valid) {
      m := n;
      assert events[m..] == [];
    } else {
      m := RejectsAreUnbroken(events[..n - 1]);
      assert events[m..][..n - 1 - m] == events[..n - 1][m..];
    }
  }

  /** A streak reaches back at least as far as the commands are valid. */
  lemma {:induction false} StreakAtLeast(events: seq<Event>, from: nat, m: nat)
    requires from <= m <= |events| && forall k :: m <= k < |events| && events[k].Command? ==> events[k].valid
    ensures ValidStreak(events, from) >= CountCommands(events[m..])
  {
    var n := |events|;
    if m == n {
    } else {
      StreakAtLeast(events[..n - 1], from, m);
      assert events[m..][..n - 1 - m] == events[..n - 1][m..];
    }
  }

  lemma {:induction false} RejectsAtLeast(events: seq<Event>, m: nat)
    requires m <= |events| && forall k :: m <= k < |events| && events[k].Command? ==> !events[k].valid
    ensures TrailingRejects(events) >= CountCommands(events[m..])
  {
    var n := |events|;
    if m == n {
    } else {
      RejectsAtLeast(events[..n - 1], m);
      assert events[m..][..n - 1 - m] == events[..n - 1][m..];
    }
  }

  /** Decision j - 1 was to enter the fallback, and nothing was decided from j until i. */
  ghost predicate EnteredBefore(decisions: seq<Decision>, j: nat, i: nat) {
    0 < j <= i <= |decisions| && decisions[j - 1] == ENTER_FALLBACK && forall k :: j <= k < i ==> decisions[k] == NONE
  }

  lemma FallbackExactly(decisions: seq<Decision>, i: nat)
    requires i <= |decisions|
    ensures InFallback(decisions[..i]) <==> EnteredBefore(decisions, LastChange(decisions[..i]), i)
    ensures forall j: nat :: EnteredBefore(decisions, j, i) ==> j == LastChange(decisions[..i])
  {
    var earlier := decisions[..i];
    forall j: nat | EnteredBefore(decisions, j, i)
      ensures j == LastChange(earlier)
    {
      assert earlier[j - 1] == decisions[j - 1];
    }
    hide LastChange;
    var j := LastChange(earlier);
    assert forall k :: 0 <= k < i ==> earlier[k] == decisions[k];
  }

  /** The commands among the events m to i number at least n and are all valid, or all rejected. */
  ghost predicate Unbroken(events: seq<Event>, valid: bool, m: nat, i: nat, n: int) {
    && m <= i < |events|
    && (forall k :: m <= k <= i && events[k].Command? ==> events[k].valid == valid)
    && CountCommands(events[m..i + 1]) >= n
  }

  lemma StreakExactly(events: seq<Event>, from: nat, i: nat, n: int)
    requires from <= i < |events| && events[i].Command? && events[i].valid
    ensures ValidStreak(events[..i + 1], from) >= n <==>
            exists m: nat :: from <= m && Unbroken(events, true, m, i, n)
  {
    var upTo := events[..i + 1];
    assert forall k :: 0 <= k <= i ==> upTo[k] == events[k];
    assert forall m: nat :: m <= i ==> upTo[m..] == events[m..i + 1];
    hide ValidStreak, CountCommands;
    if m: nat :| from <= m && Unbroken(events, true, m, i, n) {
      StreakAtLeast(upTo, from, m);
    }
    if ValidStreak(upTo, from) >= n {
      var m := StreakIsUnbroken(upTo, from);
      assert m <= i;
      assert Unbroken(events, true, m, i, n);
    }
  }

  lemma RejectsExactly(events: seq<Event>, i: nat, n: int)
    requires i < |events| && events[i].Command? && !events[i].valid
    ensures TrailingRejects(events[..i + 1]) >= n <==> exists m: nat :: Unbroken(events, false, m, i, n)
  {
    var upTo := events[..i + 1];
    assert forall k :: 0 <= k <= i ==> upTo[k] == events[k];
    assert forall m: nat :: m <= i ==> upTo[m..] == events[m..i + 1];
    hide TrailingRejects, CountCommands;
    if m: nat :| Unbroken(events, false, m, i, n) {
      RejectsAtLeast(upTo, m);
    }
    if TrailingRejects(upTo) >= n {
      var m := RejectsAreUnbroken(upTo);
      assert m <= i;
      assert Unbroken(events, false, m, i, n);
    }
  }

  /** Trust returns exactly when a valid command completes, since the fallback was entered, an
      unbroken run of at least recoveryStreak valid commands. */
  lemma ExitExactly(cfg: Config, events: seq<Event>, decisions: seq<Decision>, i: nat)
    requires Follows(cfg, events, decisions) && i < |decisions|
    ensures decisions[i] == EXIT_FALLBACK <==>
      && events[i].Command? && events[i].valid
      && exists j: nat, m: nat ::
           EnteredBefore(decisions, j, i) && j <= m && Unbroken(events, true, m, i, cfg.recoveryStreak)
  {
    assert decisions[i] == Owed(cfg, events[..i + 1], decisions[..i]);
    assert events[..i + 1][i] == events[i];
    FallbackExactly(decisions, i);
    hide LastChange, InFallback, ValidStreak, TrailingRejects, LastHeard, Unbroken, EnteredBefore, Follows;
    if events[i].Command? && events[i].valid {
      StreakExactly(events, LastChange(decisions[..i]), i, cfg.recoveryStreak);
    }
  }

  /** Event h is the last valid command or arming before i. */
  ghost predicate HeardLast(events: seq<Event>, h: nat, i: nat) {
    && h < i <= |events| && (events[h].Armed? || (events[h].Command? && events[h].valid))
    && forall k :: h < k < i ==> !events[k].Armed? && (events[k].Command? ==> !events[k].valid)
  }

  lemma {:induction false} LastHeardExactly(events: seq<Event>, i: nat)
    requires i <= |events|
    ensures forall h: nat :: HeardLast(events, h, i) ==> LastHeard(events[..i]) == events[h].nowMs
    ensures (forall h: nat :: !HeardLast(events, h, i)) ==> LastHeard(events[..i]) == 0
  {
    if i == 0 {
    } else {
      var e, n: nat := events[i - 1], i - 1;
      assert events[..i][..i - 1] == events[..i - 1];
      LastHeardExactly(events, i - 1);
      if e.Armed? || (e.Command? && e.valid) {
        assert HeardLast(events, i - 1, i);
      } else {
        forall h: nat
          ensures HeardLast(events, h, i) <==> HeardLast(events, h, i - 1)
        {
        }
        if h: nat :| HeardLast(events, h, n) {
          assert HeardLast(events, h, i);
        }
      }
    }
  }

  /** Trust is lost exactly, while there is some, to an unbroken run of at least failureThreshold
      rejects, or at a check that finds more than the timeout passed since the guard last heard a
      valid command or was armed (at a time other than 0, which stands for never). */
  lemma EnterExactly(cfg: Config, events: seq<Event>, decisions: seq<Decision>, i: nat)
    requires Follows(cfg, events, decisions) && i < |decisions|
    ensures decisions[i] == ENTER_FALLBACK <==>
      && (forall j: nat :: !EnteredBefore(decisions, j, i))
      && (|| (events[i].Command? && !events[i].valid &&
                exists m: nat :: Unbroken(events, false, m, i, cfg.failureThreshold))
          || (events[i].Tick? &&
                exists h: nat :: HeardLast(events, h, i) && events[h].nowMs != 0 &&
                                 events[i].nowMs - events[h].nowMs > cfg.silenceTimeoutMs))
  {
    assert decisions[i] == Owed(cfg, events[..i + 1], decisions[..i]);
    assert events[..i + 1][i] == events[i];
    assert events[..i + 1][..i] == events[..i];
    FallbackExactly(decisions, i);
    LastHeardExactly(events, i);
    hide LastChange, InFallback, ValidStreak, TrailingRejects, LastHeard, Unbroken, EnteredBefore, HeardLast, Follows;
    if events[i].Command? && !events[i].valid {
      RejectsExactly(events, i, cfg.failureThreshold);
    }
  }

  // ------------------------------------------------------------------ the guard

  class CommandGuard {
    const cfg: Config
    var lastValidMs: int
    var consecutiveFailures: int
    var consecutiveOk: int
    var inFallback: bool
    var totalRejected: nat
    var lastAppliedSeq: int
    ghost var events: seq<Event>
    ghost var decisions: seq<Decision>
    ghost var replays: nat

    ghost predicate Valid()
      reads this
    {
      && Follows(cfg, events, decisions)
      && lastValidMs == LastHeard(events)
      && consecutiveFailures == TrailingRejects(events)
      && consecutiveOk == ValidStreak(events, LastChange(decisions))
      && inFallback == InFallback(decisions)
      && totalRejected == AllRejects(events) + replays
    }

    constructor (cfg: Config)
      ensures Valid() && this.cfg == cfg
      ensures events == [] && decisions == [] && replays == 0 && !inFallback && lastAppliedSeq == -1
    {
      this.cfg := cfg;
      lastValidMs, consecutiveFailures, consecutiveOk, inFallback := 0, 0, 0, false;
      totalRejected, lastAppliedSeq := 0, -1;
      events, decisions, replays := [], [], 0;
    }

    method OnCommand(parsed: ParsedCommand, nowMs: int) returns (d: Decision)
      requires Valid()
      modifies this
      ensures Valid() && lastAppliedSeq == old(lastAppliedSeq) && replays == old(replays)
      ensures events == old(events) + [Command(Actionable(parsed), nowMs)]
      ensures decisions == old(decisions) + [d]
      ensures d != EXIT_FALLBACK || (old(inFallback) && !inFallback)
      ensures d != ENTER_FALLBACK || (!old(inFallback) && inFallback)
      ensures d != NONE || inFallback == old(inFallback)
    {
      hide Follows, Owed, LastHeard, TrailingRejects, ValidStreak, LastChange, InFallback, AllRejects;
      ghost var e := Command(Actionable(parsed), nowMs);
      SameLength(cfg, events, decisions);
      CountersAfter(events, LastChange(decisions), e);
      OwedNow(cfg, events, decisions, e);
      d := NONE;
      if Actionable(parsed) {
        lastValidMs := nowMs;
        consecutiveFailures := 0;
        consecutiveOk := consecutiveOk + 1;
        if inFallback && consecutiveOk >= cfg.recoveryStreak {
          inFallback := false;
          consecutiveOk := 0;
          d := EXIT_FALLBACK;
        }
      } else {
        consecutiveOk := 0;
        consecutiveFailures := consecutiveFailures + 1;
        totalRejected := totalRejected + 1;
        if !inFallback && consecutiveFailures >= cfg.failureThreshold {
          inFallback := true;
          d := ENTER_FALLBACK;
        }
      }
      ChangeAfter(decisions, d);
      FollowsExtends(cfg, events, decisions, e, d);
      events, decisions := events + [e], decisions + [d];
    }

    method CheckSilence(nowMs: int) returns (d: Decision)
      requires Valid()
      modifies this
      ensures Valid() && lastAppliedSeq == old(lastAppliedSeq) && replays == old(replays)
      ensures events == old(events) + [Tick(nowMs)]
      ensures decisions == old(decisions) + [d]
      ensures d != EXIT_FALLBACK
      ensures d != ENTER_FALLBACK || (!old(inFallback) && inFallback)
      ensures d != NONE || inFallback == old(inFallback)
    {
      hide Follows, Owed, LastHeard, TrailingRejects, ValidStreak, LastChange, InFallback, AllRejects;
      SameLength(cfg, events, decisions);
      CountersAfter(events, LastChange(decisions), Tick(nowMs));
      OwedNow(cfg, events, decisions, Tick(nowMs));
      d := NONE;
      if !inFallback && lastValidMs != 0 && nowMs - lastValidMs > cfg.silenceTimeoutMs {
        inFallback := true;
        consecutiveOk := 0;
        d := ENTER_FALLBACK;
      }
      ChangeAfter(decisions, d);
      FollowsExtends(cfg, events, decisions, Tick(nowMs), d);
      events, decisions := events + [Tick(nowMs)], decisions + [d];
    }

    method Arm(nowMs: int)
      requires Valid()
      modifies this
      ensures Valid() && lastAppliedSeq == old(lastAppliedSeq) && replays == old(replays)
      ensures inFallback == old(inFallback)
      ensures events == old(events) + [Armed(nowMs)] && decisions == old(decisions) + [NONE]
    {
      hide Follows, Owed, LastHeard, TrailingRejects, ValidStreak, LastChange, InFallback, AllRejects;
      SameLength(cfg, events, decisions);
      CountersAfter(events, LastChange(decisions), Armed(nowMs));
      OwedNow(cfg, events, decisions, Armed(nowMs));
      lastValidMs := nowMs;
      ChangeAfter(decisions, NONE);
      FollowsExtends(cfg, events, decisions, Armed(nowMs), NONE);
      events, decisions := events + [Armed(nowMs)], decisions + [NONE];
    }

    method AcceptSequence(parsed: ParsedCommand) returns (isFresh: bool)
      requires Valid()
      modifies this`totalRejected, this`lastAppliedSeq, this`replays
      ensures Valid()
      ensures replays == old(replays) + if isFresh then 0 else 1
      ensures isFresh == (parsed.sequenceNumber > old(lastAppliedSeq))
      ensures lastAppliedSeq == if isFresh then parsed.sequenceNumber else old(lastAppliedSeq)
    {
      if parsed.sequenceNumber <= lastAppliedSeq {
        totalRejected := totalRejected + 1;
        replays := replays + 1;
        return false;
      }
      lastAppliedSeq := parsed.sequenceNumber;
      return true;
    }
  }
}
