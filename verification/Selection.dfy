/** Picking the flagged elements of a sequence, in order. */
module Selection {

  /** The elements of s whose flag is set. */
  ghost function Select<T>(s: seq<T>, flags: seq<bool>): (r: seq<T>)
    requires |s| == |flags|
  {
    if s == [] then []
    else Select(s[..|s| - 1], flags[..|s| - 1]) + if flags[|s| - 1] then [s[|s| - 1]] else []
  }

  ghost function Unset(flags: seq<bool>): nat {
    if flags == [] then 0 else Unset(flags[..|flags| - 1]) + if flags[|flags| - 1] then 0 else 1
  }

  lemma {:induction false} SelectSplits<T>(s: seq<T>, flags: seq<bool>)
    requires |s| == |flags|
    ensures |s| == |Select(s, flags)| + Unset(flags)
  {
    if s == [] {
    } else {
      SelectSplits(s[..|s| - 1], flags[..|s| - 1]);
    }
  }

  /** The flagged positions, in order. */
  ghost function Positions(flags: seq<bool>): (at: seq<nat>)
    ensures forall k :: 0 <= k < |at| ==> at[k] < |flags| && flags[at[k]]
    ensures forall i, j :: 0 <= i < j < |at| ==> at[i] < at[j]
  {
    if flags == [] then []
    else
      var n := |flags| - 1;
      Positions(flags[..n]) + if flags[n] then [n] else []
  }

  /** The selected elements are those at the flagged positions. */
  lemma {:induction false} PositionsSelect<T>(s: seq<T>, flags: seq<bool>)
    requires |s| == |flags|
    ensures |Positions(flags)| == |Select(s, flags)|
    ensures forall k :: 0 <= k < |Positions(flags)| ==> Select(s, flags)[k] == s[Positions(flags)[k]]
  {
    if s == [] {
    } else {
      PositionsSelect(s[..|s| - 1], flags[..|s| - 1]);
    }
  }

  lemma {:induction false} EveryFlagHasAPosition(flags: seq<bool>, k: nat)
    requires k < |flags| && flags[k]
    ensures k in Positions(flags)
  {
    var n := |flags| - 1;
    if k == n {
    } else {
      EveryFlagHasAPosition(flags[..n], k);
    }
  }

}
