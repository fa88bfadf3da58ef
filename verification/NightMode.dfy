/** The night-mode reward: potential-based shaping over a bounded potential. */
module NightMode {
  import opened Numbers
  import opened Products
  import opened Wrappers

  /** Queue lengths per lane; an observation without queues is empty. */
  type Observation = seq<real>

  datatype Site = Site(avenue: seq<int>, cross: seq<int>, maxQueue: real)

  /** Lane indices may count from the end; further back than that the source raises an error. */
  predicate Indexable(queues: Observation, lanes: seq<int>) {
    forall k :: 0 <= k < |lanes| ==> -|queues| <= lanes[k]
  }

  function LaneTotal(queues: Observation, lanes: seq<int>): real
    requires Indexable(queues, lanes)
  {
    if lanes == [] then 0.0
    else
      var i := lanes[|lanes| - 1];
      LaneTotal(queues, lanes[..|lanes| - 1]) +
      if i >= |queues| then 0.0 else if i >= 0 then queues[i] else queues[|queues| + i]
  }

  /** Every lane counts as often as it is listed. */
  lemma {:induction false} LaneTotalAdds(queues: Observation, a: seq<int>, b: seq<int>)
    requires Indexable(queues, a) && Indexable(queues, b)
    ensures Indexable(queues, a + b)
    ensures LaneTotal(queues, a + b) == LaneTotal(queues, a) + LaneTotal(queues, b)
  {
    if b == [] {
      assert a + b == a;
    } else {
      var n := |b| - 1;
      LaneTotalAdds(queues, a, b[..n]);
      assert (a + b)[..|a + b| - 1] == a + b[..n];
    }
  }

  /** An index from the end names the lane that far back; a lane the observation lacks counts nothing. */
  lemma LaneTotalOfOne(queues: Observation, i: int)
    requires -|queues| <= i
    ensures LaneTotal(queues, [i]) ==
      if i < 0 then queues[|queues| + i] else if i < |queues| then queues[i] else 0.0
  {
    assert [i][..0] == [];
  }

  predicate Observes(site: Site, queues: Observation) {
    queues != [] ==> Indexable(queues, site.avenue) && Indexable(queues, site.cross)
  }

  function Potential(site: Site, queues: Observation): real
    requires Observes(site, queues)
  {
    if queues == [] then 0.0
    else
      var avenue, cross := LaneTotal(queues, site.avenue), LaneTotal(queues, site.cross);
      if cross == 0.0 && avenue > 0.0 then
        -Clip(avenue / Norm(site), 0.0, 1.0)
      else 0.0
  }

  /** F(s, s') before the clip. */
  function Shaping(gamma: real, before: real, now: real): real { gamma * now - before }

  function Reward(site: Site, gamma: real, previous: Option<Observation>, queues: Observation): real
    requires Observes(site, queues) && (previous.Some? ==> Observes(site, previous.value))
  {
    if previous.None? then Potential(site, queues)
    else Clip(Shaping(gamma, Potential(site, previous.value), Potential(site, queues)), -1.0, 1.0)
  }

  lemma PotentialBounded(site: Site, queues: Observation)
    requires Observes(site, queues)
    ensures -1.0 <= Potential(site, queues) <= 0.0
  {
  }

  /** The saturation queue, at least one vehicle. */
  function Norm(site: Site): real { if site.maxQueue > 1.0 then site.maxQueue else 1.0 }

  /** The potential is negative exactly in the night-mode failure: vehicles wait on the
      avenue while the cross lanes are empty; it bottoms out exactly at saturation. */
  lemma NegativeExactlyAtNight(site: Site, queues: Observation)
    requires Observes(site, queues)
    ensures Potential(site, queues) < 0.0 <==>
      queues != [] && LaneTotal(queues, site.cross) == 0.0 && LaneTotal(queues, site.avenue) > 0.0
    ensures Potential(site, queues) == -1.0 <==>
      queues != [] && LaneTotal(queues, site.cross) == 0.0 && LaneTotal(queues, site.avenue) >= Norm(site)
  {
    if queues != [] {
      QuotientSign(LaneTotal(queues, site.avenue), Norm(site));
    }
  }

  /** In between it is the share of the saturation queue, at least one vehicle, that waits. */
  lemma PotentialIsShare(site: Site, queues: Observation)
    requires Observes(site, queues) && queues != [] && LaneTotal(queues, site.cross) == 0.0
    requires 0.0 < LaneTotal(queues, site.avenue) && LaneTotal(queues, site.avenue) <= Norm(site)
    ensures site.maxQueue >= 1.0 ==> Potential(site, queues) * site.maxQueue == -LaneTotal(queues, site.avenue)
    ensures site.maxQueue < 1.0 ==> Potential(site, queues) == -LaneTotal(queues, site.avenue)
  {
    var a, n := LaneTotal(queues, site.avenue), Norm(site);
    var q := a / n;
    assert q * n == a;
    QuotientSign(a, n);
    assert q <= 1.0 by { if q > 1.0 { ProductPositive(q - 1.0, n); } }
    assert -q * n == -(q * n);
  }

  lemma QuotientSign(a: real, b: real)
    requires b > 0.0
    ensures (a > 0.0 <==> a / b > 0.0) && (a >= b <==> a / b >= 1.0)
  {
    var q := a / b;
    assert q * b == a;
    if q <= 0.0 { ProductSign(-q, b); }
    if a <= 0.0 { FactorSign(-q, b); }
    if q >= 1.0 { ProductSign(q - 1.0, b); }
    if a >= b { FactorSign(q - 1.0, b); }
  }

  /** With no negative queues a lane total is zero exactly when every listed lane that
      the observation covers is empty. */
  lemma {:induction false} EmptyExactlyWhenEachIs(queues: Observation, lanes: seq<int>)
    requires Indexable(queues, lanes) && forall i :: 0 <= i < |queues| ==> queues[i] >= 0.0
    ensures LaneTotal(queues, lanes) >= 0.0
    ensures LaneTotal(queues, lanes) == 0.0 <==>
      forall k :: 0 <= k < |lanes| && lanes[k] < |queues| ==>
        queues[if lanes[k] >= 0 then lanes[k] else |queues| + lanes[k]] == 0.0
  {
    if lanes == [] {
    } else {
      var n := |lanes| - 1;
      EmptyExactlyWhenEachIs(queues, lanes[..n]);
      assert forall k :: 0 <= k < n ==> lanes[..n][k] == lanes[k];
    }
  }

  /** For every discount and every pair of observations the reward stays within one. */
  lemma RewardBounded(site: Site, gamma: real, previous: Option<Observation>, queues: Observation)
    requires Observes(site, queues) && (previous.Some? ==> Observes(site, previous.value))
    ensures -1.0 <= Reward(site, gamma, previous, queues) <= 1.0
  {
  }

  ghost predicate ClipIdle(gamma: real) {
    forall before, now :: -1.0 <= now <= 0.0 && -1.0 <= before <= 0.0 ==>
      Clip(Shaping(gamma, before, now), -1.0, 1.0) == Shaping(gamma, before, now)
  }

  lemma ShapingWithin(gamma: real, before: real, now: real)
    requires 0.0 <= gamma <= 1.0 && -1.0 <= now <= 0.0 && -1.0 <= before <= 0.0
    ensures -1.0 <= Shaping(gamma, before, now) <= 1.0
  {
    ProductSign(gamma, -now);
    ProductSign(1.0 - gamma, -now);
    assert (1.0 - gamma) * -now == -now + gamma * now;
  }

  /** The clip is a safety belt that never engages, exactly for discounts in [0, 1]. */
  lemma ClipIdleExactly(gamma: real)
    ensures ClipIdle(gamma) <==> 0.0 <= gamma <= 1.0
  {
    if 0.0 <= gamma <= 1.0 {
      forall before, now | -1.0 <= now <= 0.0 && -1.0 <= before <= 0.0
        ensures Clip(Shaping(gamma, before, now), -1.0, 1.0) == Shaping(gamma, before, now)
      {
        ShapingWithin(gamma, before, now);
      }
    } else {
      assert Shaping(gamma, 0.0, -1.0) == -gamma;
      assert Shaping(gamma, -1.0, -1.0) == 1.0 - gamma;
    }
  }

  ghost function Power(gamma: real, t: nat): real {
    if t == 0 then 1.0 else gamma * Power(gamma, t - 1)
  }

  /** What weight `power` makes of x. */
  ghost function Weighed(power: real, x: real): real { power * x }

  /** The discounted sum of the shaping rewards along a trajectory. */
  ghost function ShapedReturn(site: Site, gamma: real, states: seq<Observation>): real
    requires states != [] && forall k :: 0 <= k < |states| ==> Observes(site, states[k])
  {
    var t := |states| - 1;
    if t == 0 then 0.0
    else ShapedReturn(site, gamma, states[..t]) +
         Weighed(Power(gamma, t - 1), Reward(site, gamma, Some(states[t - 1]), states[t]))
  }

  /** Shaping telescopes: over any trajectory it adds only what depends on its two
      ends, so it cannot change which policy is best. */
  lemma {:induction false} ShapingTelescopes(site: Site, gamma: real, states: seq<Observation>)
    requires 0.0 <= gamma <= 1.0
    requires states != [] && forall k :: 0 <= k < |states| ==> Observes(site, states[k])
    ensures ShapedReturn(site, gamma, states) ==
      Weighed(Power(gamma, |states| - 1), Potential(site, states[|states| - 1])) - Potential(site, states[0])
  {
    hide Potential, Shaping, Reward, Weighed, Power;
    var t := |states| - 1;
    if t == 0 {
      Undiscounted(gamma, Potential(site, states[0]));
    } else {
      ShapingTelescopes(site, gamma, states[..t]);
      RewardIsShaping(site, gamma, states[t - 1], states[t]);
      OneStep(gamma, t, Potential(site, states[t - 1]), Potential(site, states[t]));
    }
  }

  /** The discounted sum of all the rewards of an episode, the first one being the potential itself. */
  ghost function EpisodeReturn(site: Site, gamma: real, states: seq<Observation>): real
    requires states != [] && forall k :: 0 <= k < |states| ==> Observes(site, states[k])
  {
    var t := |states| - 1;
    if t == 0 then Reward(site, gamma, None, states[0])
    else EpisodeReturn(site, gamma, states[..t]) +
         Weighed(Power(gamma, t), Reward(site, gamma, Some(states[t - 1]), states[t]))
  }

  /** With the first reward the start keeps the weight 1 - gamma: the sum over an episode depends
      on its two ends only. */
  lemma {:induction false} EpisodeTelescopes(site: Site, gamma: real, states: seq<Observation>)
    requires 0.0 <= gamma <= 1.0
    requires states != [] && forall k :: 0 <= k < |states| ==> Observes(site, states[k])
    ensures EpisodeReturn(site, gamma, states) ==
      Weighed(1.0 - gamma, Potential(site, states[0])) +
      Weighed(Power(gamma, |states|), Potential(site, states[|states| - 1]))
  {
    hide Potential, Shaping, Reward, Weighed, Power;
    var t := |states| - 1;
    if t == 0 {
      FirstReward(site, gamma, states[0]);
    } else {
      EpisodeTelescopes(site, gamma, states[..t]);
      RewardIsShaping(site, gamma, states[t - 1], states[t]);
      OneStep(gamma, t + 1, Potential(site, states[t - 1]), Potential(site, states[t]));
    }
  }

  lemma FirstReward(site: Site, gamma: real, now: Observation)
    requires Observes(site, now)
    ensures var p := Potential(site, now);
            Reward(site, gamma, None, now) == Weighed(1.0 - gamma, p) + Weighed(Power(gamma, 1), p)
  {
    hide Potential;
    var p := Potential(site, now);
    assert Power(gamma, 1) == gamma;
    assert (1.0 - gamma) * p == p - gamma * p;
  }

  lemma RewardIsShaping(site: Site, gamma: real, before: Observation, now: Observation)
    requires 0.0 <= gamma <= 1.0 && Observes(site, before) && Observes(site, now)
    ensures Reward(site, gamma, Some(before), now) == Shaping(gamma, Potential(site, before), Potential(site, now))
  {
    hide Potential, Shaping;
    PotentialBounded(site, before);
    PotentialBounded(site, now);
    ShapingWithin(gamma, Potential(site, before), Potential(site, now));
  }

  lemma Undiscounted(gamma: real, x: real)
    ensures Weighed(Power(gamma, 0), x) == x
  {
  }

  lemma OneStep(gamma: real, t: nat, before: real, now: real)
    requires t > 0
    ensures Weighed(Power(gamma, t - 1), before) + Weighed(Power(gamma, t - 1), Shaping(gamma, before, now)) ==
            Weighed(Power(gamma, t), now)
  {
    var p := Power(gamma, t - 1);
    assert p * before + p * (gamma * now - before) == (gamma * p) * now;
  }
}
