/** The bounded drop-oldest hand-off between the producer and the control loop. */
module Handoff {
  import opened Selection
  import opened Wrappers

  class CommandQueue<T> {
    const capacity: nat
    var q: seq<T>
    var dropped: nat
    ghost var pushed: seq<T>
    ghost var popped: seq<T>
    ghost var taken: seq<bool>

    /** Everything pushed was, in order, popped (taken) or dropped, and the rest is pending. */
    ghost predicate Valid()
      reads this
    {
      && |q| <= capacity
      && |pushed| == |taken| + |q|
      && q == pushed[|taken|..]
      && popped == Select(pushed[..|taken|], taken)
      && dropped == Unset(taken)
    }

    constructor (capacity: nat)
      ensures Valid() && this.capacity == capacity && pushed == [] && popped == []
    {
      this.capacity := capacity;
      q, dropped, pushed, popped, taken := [], 0, [], [], [];
    }

    /** Moves the head of the queue out, as popped or as dropped. */
    ghost method Settle(flag: bool)
      requires |q| > 0 && Valid()
      modifies this`taken, this`popped
      ensures taken == old(taken) + [flag]
      ensures popped == old(popped) + if flag then [q[0]] else []
      ensures popped == Select(pushed[..|taken|], taken)
      ensures Unset(taken) == old(Unset(taken)) + if flag then 0 else 1
      ensures q[1..] == pushed[|taken|..]
    {
      assert pushed[..|taken| + 1] == pushed[..|taken|] + [q[0]];
      popped := popped + if flag then [q[0]] else [];
      taken := taken + [flag];
    }

    /** With no room at all the source pops an empty deque. */
    method Push(x: T)
      requires Valid() && capacity > 0
      modifies this
      ensures Valid()
      ensures pushed == old(pushed) + [x] && popped == old(popped)
      ensures q == (if |old(q)| < capacity then old(q) else old(q)[1..]) + [x]
      ensures dropped == old(dropped) + if |old(q)| < capacity then 0 else 1
    {
      if |q| >= capacity {
        Settle(false);
        q := q[1..];
        dropped := dropped + 1;
      }
      q := q + [x];
      assert (pushed + [x])[..|taken|] == pushed[..|taken|];
      pushed := pushed + [x];
    }

    method TryPop() returns (r: Option<T>)
      requires Valid()
      modifies this
      ensures Valid() && pushed == old(pushed) && dropped == old(dropped)
      ensures if old(q) == [] then r == None && q == [] && popped == old(popped)
              else r == Some(old(q)[0]) && q == old(q)[1..] && popped == old(popped) + [old(q)[0]]
    {
      if |q| == 0 {
        return None;
      }
      Settle(true);
      r := Some(q[0]);
      q := q[1..];
    }
  }

  /** Conservation: pushed = popped + dropped + pending, and what was popped is a
      subsequence of what was pushed. */
  lemma Conservation<T>(c: CommandQueue<T>) returns (at: seq<nat>)
    requires c.Valid()
    ensures |c.pushed| == |c.popped| + c.dropped + |c.q|
    ensures |at| == |c.popped|
    ensures forall k :: 0 <= k < |at| ==> at[k] < |c.pushed| && c.popped[k] == c.pushed[at[k]]
    ensures forall i, j :: 0 <= i < j < |at| ==> at[i] < at[j]
  {
    SelectSplits(c.pushed[..|c.taken|], c.taken);
    at := Positions(c.taken);
    PositionsSelect(c.pushed[..|c.taken|], c.taken);
  }
}
