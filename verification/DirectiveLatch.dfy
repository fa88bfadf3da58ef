/** The last accepted directive, authoritative for a bounded time. */
module Latch {
  import opened Interlock
  import opened Wrappers

  class DirectiveLatch {
    const ttlMs: int
    var phase: Phase
    var lastUpdateMs: int
    var valid: bool
    ghost var updates: seq<(Phase, int)>

    ghost predicate Valid()
      reads this
    {
      && (valid ==> updates != [] && updates[|updates| - 1] == (phase, lastUpdateMs))
      && (!valid ==> updates == [])
    }

    constructor (ttlMs: int)
      ensures Valid() && this.ttlMs == ttlMs && updates == []
    {
      this.ttlMs := ttlMs;
      phase, lastUpdateMs, valid, updates := AllRed, 0, false, [];
    }

    method Update(p: Phase, nowMs: int)
      requires Valid()
      modifies this
      ensures Valid() && updates == old(updates) + [(p, nowMs)]
    {
      phase, lastUpdateMs, valid := p, nowMs, true;
      updates := updates + [(p, nowMs)];
    }

    /** The latest directive while it is younger than the time to live, else none. */
    method Get(nowMs: int) returns (r: Option<Phase>)
      requires Valid()
      ensures r.Some? <==> updates != [] && nowMs - updates[|updates| - 1].1 < ttlMs
      ensures r.Some? ==> r.value == updates[|updates| - 1].0
    {
      if !valid {
        return None;
      }
      if nowMs - lastUpdateMs >= ttlMs {
        return None;
      }
      return Some(phase);
    }

    method Clear()
      requires Valid()
      modifies this
      ensures Valid() && updates == []
    {
      valid := false;
      updates := [];
    }
  }
}
