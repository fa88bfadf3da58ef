/** What holds over the whole life of a tracker. */
module TrackerRuns {
  import opened Permutations
  import opened Geometry
  import opened Padding
  import opened Association
  import opened Tracker

  // ---------------------------------------------------------------- one frame

  /** The track that detection e ends up in. */
  ghost function Owner(next: nat, ids: seq<nat>, a: seq<int>, e: nat): nat
    requires e < |a| && InRange(a, -1, |ids|)
  {
    if a[e] >= 0 then ids[a[e]] else BirthId(next, a, e)
  }

  lemma {:induction false} BirthIdsGrow(next: nat, a: seq<int>, d: nat, e: nat)
    requires d < e <= |a| && a[d] < 0
    ensures next < BirthId(next, a, d) < BirthId(next, a, e)
    decreases e
  {
    PairsAtMost(a[..d]);
    PairsStep(a, e - 1);
    if d == e - 1 {
    } else {
      BirthIdsGrow(next, a, d, e - 1);
    }
  }

  /** Distinct detections end up in distinct tracks. */
  lemma OwnersDistinct<K>(cfg: Config, mo: Motion<K>, before: map<nat, Track<K>>, next: nat, dets: seq<Detection>,
                          dt: real, now: real, ids: seq<nat>, a: seq<int>, mid: map<nat, Track<K>>,
                          after: map<nat, Track<K>>, next': nat, d: nat, e: nat)
    requires Frame(cfg, mo, before, next, dets, dt, now, ids, a, mid, after, next')
    requires Coherent(cfg, before, next) && d < e < |dets|
    ensures Owner(next, ids, a, d) != Owner(next, ids, a, e)
    ensures Owner(next, ids, a, d) in mid && mid[Owner(next, ids, a, d)].obj.framesSinceSeen == 0
  {
    hide Solved, Gate;
    if a[d] < 0 { BirthIdsGrow(next, a, d, |a|); }
    if a[e] < 0 { BirthIdsGrow(next, a, e, |a|); }
    if a[d] < 0 && a[e] < 0 { BirthIdsGrow(next, a, d, e); }
  }

  /** The ids handed out between two values of the counter. */
  ghost function Births(next: nat, next': nat): (ids: set<nat>)
    requires next <= next'
    ensures forall id :: id in ids <==> next < id <= next'
    ensures |ids| == next' - next
  {
    if next == next' then {} else Births(next, next' - 1) + {next'}
  }

  /** Before pruning the tracks grow by exactly the unmatched detections. */
  lemma GrowthBeforePruning<K>(cfg: Config, mo: Motion<K>, before: map<nat, Track<K>>, next: nat, dets: seq<Detection>,
                               dt: real, now: real, ids: seq<nat>, a: seq<int>, mid: map<nat, Track<K>>,
                               after: map<nat, Track<K>>, next': nat)
    requires Frame(cfg, mo, before, next, dets, dt, now, ids, a, mid, after, next')
    requires Coherent(cfg, before, next)
    ensures Pairs(a) <= |dets| && next' == next + |dets| - Pairs(a)
    ensures |mid| == |before| + |dets| - Pairs(a)
  {
    hide Solved, Gate, Coasted, Boxes, Pairs;
    assert a[..|dets|] == a;
    PairsAtMost(a);
    assert forall id :: id in Coasted(mo, before, dt) <==> id in before by { CoastedKeys(mo, before, dt); }
    DisjointUnionSize(before.Keys, Births(next, next'), mid.Keys);
  }

  lemma CoastedKeys<K>(mo: Motion<K>, tracks: map<nat, Track<K>>, dt: real)
    ensures Coasted(mo, tracks, dt).Keys == tracks.Keys
  {
  }

  lemma DisjointUnionSize(a: set<nat>, b: set<nat>, c: set<nat>)
    requires a !! b && forall x :: x in c <==> x in a || x in b
    ensures |c| == |a| + |b|
  {
    assert c == a + b;
  }

  // ---------------------------------------------------------------- whole runs

  /** A frame never revives an old id, and a surviving track keeps its birth and class. */
  lemma StepKeepsIdentity<K(!new)>(cfg: Config, mo: Motion<K>, s: TrackerState<K>, input: Input, s': TrackerState<K>)
    requires Step(cfg, mo, s, input, s') && Coherent(cfg, s.tracks, s.nextId)
    ensures s.nextId <= s'.nextId && Coherent(cfg, s'.tracks, s'.nextId)
    ensures forall id :: id in s'.tracks && id !in s.tracks ==> id > s.nextId && Newborn(s'.tracks[id].obj)
    ensures forall id :: id in s'.tracks && id in s.tracks ==>
      && s'.tracks[id].obj.firstSeen == s.tracks[id].obj.firstSeen
      && s'.tracks[id].obj.detection.classId == s.tracks[id].obj.detection.classId
      && s'.tracks[id].obj.age == s.tracks[id].obj.age + 1
      && (s'.tracks[id].obj.framesSinceSeen == 0 ||
          s'.tracks[id].obj.framesSinceSeen == s.tracks[id].obj.framesSinceSeen + 1)
    ensures input.Frames? ==> forall id :: id in s.tracks && id !in s'.tracks ==>
      s.tracks[id].obj.framesSinceSeen + 1 > cfg.maxAge
  {
    if input.Frames? {
      var ids, a, mid :|
        Frame(cfg, mo, s.tracks, s.nextId, input.dets, input.dt, input.now, ids, a, mid, s'.tracks, s'.nextId);
      FrameKeepsIdentity(cfg, mo, s, input, s', ids, a, mid);
    }
  }

  lemma FrameKeepsIdentity<K>(cfg: Config, mo: Motion<K>, s: TrackerState<K>, input: Input, s': TrackerState<K>,
                              ids: seq<nat>, a: seq<int>, mid: map<nat, Track<K>>)
    requires input.Frames? && Coherent(cfg, s.tracks, s.nextId)
    requires Frame(cfg, mo, s.tracks, s.nextId, input.dets, input.dt, input.now, ids, a, mid, s'.tracks, s'.nextId)
    ensures s.nextId <= s'.nextId && Coherent(cfg, s'.tracks, s'.nextId)
    ensures forall id :: id in s.tracks ==> id in mid && SameTrack(s.tracks[id].obj, mid[id].obj)
    ensures s'.tracks == Pruned(cfg, mid)
    ensures forall id :: id in mid && id !in s.tracks ==> id > s.nextId && Newborn(mid[id].obj)
  {
    var coasted := Coasted(mo, s.tracks, input.dt);
    AbsorbedCoherent(cfg, mo, s.tracks, s.nextId, input.dt, ids, a, input.dets, input.now, mid);
    forall id | id in s.tracks
      ensures SameTrack(s.tracks[id].obj, mid[id].obj)
    {
      hide Solved, ComputeIou;
      AbsorbedCases(mo, coasted, s.nextId, ids, a, input.dets, input.now, mid, id);
    }
    forall id | id in mid && id !in s.tracks
      ensures id > s.nextId && Newborn(mid[id].obj)
    {
      hide Solved, ComputeIou;
      AbsorbedCases(mo, coasted, s.nextId, ids, a, input.dets, input.now, mid, id);
    }
  }

  /** A track in the frame that started it. */
  ghost predicate Newborn(o: TrackedObject) { o.age == 1 && o.framesSinceSeen == 0 }

  /** The same vehicle one frame later. */
  ghost predicate SameTrack(o: TrackedObject, o': TrackedObject) {
    && o'.firstSeen == o.firstSeen
    && o'.detection.classId == o.detection.classId
    && o'.age == o.age + 1
    && (o'.framesSinceSeen == 0 || o'.framesSinceSeen == o.framesSinceSeen + 1)
  }

  lemma {:induction false} RunIsCoherent<K(!new)>(cfg: Config, mo: Motion<K>, states: seq<TrackerState<K>>,
                                                  inputs: seq<Input>, i: nat, k: nat)
    requires Run(cfg, mo, states, inputs) && i <= k <= |inputs|
    ensures Coherent(cfg, states[i].tracks, states[i].nextId)
    ensures Coherent(cfg, states[k].tracks, states[k].nextId)
    ensures states[i].nextId <= states[k].nextId
    decreases k
  {
    hide Coherent, Step;
    if k == 0 {
      EmptyCoherent(cfg, states[0].nextId, states[0].tracks);
    } else {
      RunIsCoherent(cfg, mo, states, inputs, if i < k then i else k - 1, k - 1);
      StepKeepsIdentity(cfg, mo, states[k - 1], inputs[k - 1], states[k]);
    }
  }

  /** A step leaves the counter at zero only if it was there and no detection came. */
  lemma CounterStep<K(!new)>(cfg: Config, mo: Motion<K>, s: TrackerState<K>, input: Input, s': TrackerState<K>)
    requires Step(cfg, mo, s, input, s') && Coherent(cfg, s.tracks, s.nextId)
    ensures s'.nextId == 0 <==> s.nextId == 0 && (input.Frames? ==> input.dets == [])
  {
    hide Solved, Gate, Absorbed, Coherent;
    if input.Frames? {
      var ids, a, mid :|
        Frame(cfg, mo, s.tracks, s.nextId, input.dets, input.dt, input.now, ids, a, mid, s'.tracks, s'.nextId);
      GrowthBeforePruning(cfg, mo, s.tracks, s.nextId, input.dets, input.dt, input.now, ids, a, mid,
                          s'.tracks, s'.nextId);
      if s.nextId == 0 {
        NoTracksYet(cfg, s.tracks, s.nextId);
        NoPairs(Boxes(Coasted(mo, s.tracks, input.dt), ids), input.dets, a);
      }
    }
  }

  lemma NoTracksYet<K>(cfg: Config, tracks: map<nat, Track<K>>, next: nat)
    requires Coherent(cfg, tracks, next) && next == 0
    ensures tracks == map[]
  {
  }

  /** The counter is zero exactly until the first detection, whatever was reset in between: so it
      counts the tracks since a reset exactly if no frame before the reset had a detection. */
  lemma {:induction false} CounterZeroExactly<K(!new)>(cfg: Config, mo: Motion<K>, states: seq<TrackerState<K>>,
                                                       inputs: seq<Input>, k: nat)
    requires Run(cfg, mo, states, inputs) && k <= |inputs|
    ensures states[k].nextId == 0 <==> forall j :: 0 <= j < k && inputs[j].Frames? ==> inputs[j].dets == []
    decreases k
  {
    hide Step, Coherent;
    if k == 0 {
    } else {
      CounterZeroExactly(cfg, mo, states, inputs, k - 1);
      RunIsCoherent(cfg, mo, states, inputs, k - 1, k - 1);
      CounterStep(cfg, mo, states[k - 1], inputs[k - 1], states[k]);
    }
  }

  lemma EmptyCoherent<K>(cfg: Config, next: nat, tracks: map<nat, Track<K>>)
    requires tracks == map[]
    ensures Coherent(cfg, tracks, next)
  {
  }

  /** An id that has left the tracker never comes back. */
  lemma {:induction false} IdsNeverReused<K(!new)>(cfg: Config, mo: Motion<K>, states: seq<TrackerState<K>>,
                                                   inputs: seq<Input>, i: nat, j: nat, k: nat, id: nat)
    requires Run(cfg, mo, states, inputs) && i <= j <= k <= |inputs|
    requires id in states[i].tracks && id !in states[j].tracks
    ensures id !in states[k].tracks
    decreases k
  {
    hide Step;
    if j == k {
    } else {
      IdsNeverReused(cfg, mo, states, inputs, i, j, k - 1, id);
      RunIsCoherent(cfg, mo, states, inputs, i, k - 1);
      StepKeepsIdentity(cfg, mo, states[k - 1], inputs[k - 1], states[k]);
    }
  }

  /** As long as it lives, an id stands for one vehicle: same birth, same class,
      one frame older per frame. */
  lemma {:induction false} IdentityPersists<K(!new)>(cfg: Config, mo: Motion<K>, states: seq<TrackerState<K>>,
                                                     inputs: seq<Input>, i: nat, k: nat, id: nat)
    requires Run(cfg, mo, states, inputs) && i <= k <= |inputs|
    requires id in states[i].tracks && id in states[k].tracks
    ensures states[k].tracks[id].obj.firstSeen == states[i].tracks[id].obj.firstSeen
    ensures states[k].tracks[id].obj.detection.classId == states[i].tracks[id].obj.detection.classId
    ensures states[k].tracks[id].obj.age == states[i].tracks[id].obj.age + (k - i)
    decreases k
  {
    hide Step, Coherent;
    if i == k {
    } else {
      if id !in states[k - 1].tracks {
        IdsNeverReused(cfg, mo, states, inputs, i, k - 1, k, id);
      }
      IdentityPersists(cfg, mo, states, inputs, i, k - 1, id);
      RunIsCoherent(cfg, mo, states, inputs, k - 1, k - 1);
      StepKeepsIdentity(cfg, mo, states[k - 1], inputs[k - 1], states[k]);
    }
  }

  /** Occlusion tolerance: without a reset, a track unseen for f frames is still
      there as long as f plus the frames gone by does not exceed maxAge. */
  lemma {:induction false} SurvivesOcclusion<K(!new)>(cfg: Config, mo: Motion<K>, states: seq<TrackerState<K>>,
                                                      inputs: seq<Input>, i: nat, k: nat, id: nat)
    requires Run(cfg, mo, states, inputs) && i <= k <= |inputs|
    requires forall j :: i <= j < k ==> inputs[j].Frames?
    requires id in states[i].tracks && states[i].tracks[id].obj.framesSinceSeen + (k - i) <= cfg.maxAge
    ensures id in states[k].tracks
    ensures states[k].tracks[id].obj.framesSinceSeen <= states[i].tracks[id].obj.framesSinceSeen + (k - i)
    decreases k
  {
    hide Step, Coherent;
    if i == k {
    } else {
      SurvivesOcclusion(cfg, mo, states, inputs, i, k - 1, id);
      RunIsCoherent(cfg, mo, states, inputs, i, k - 1);
      FramesUnseenAreCounted(cfg, states[i], id);
      StepKeepsIdentity(cfg, mo, states[k - 1], inputs[k - 1], states[k]);
    }
  }

  /** A coherent track has been unseen for between 0 and maxAge frames. */
  lemma FramesUnseenAreCounted<K>(cfg: Config, s: TrackerState<K>, id: nat)
    requires Coherent(cfg, s.tracks, s.nextId) && id in s.tracks
    ensures 0 <= s.tracks[id].obj.framesSinceSeen <= cfg.maxAge
  {
  }

  /** ...and a track no detection matches is gone after that. */
  lemma {:induction false} ForgottenAfterMaxAge<K(!new)>(cfg: Config, mo: Motion<K>, states: seq<TrackerState<K>>,
                                                         inputs: seq<Input>, i: nat, k: nat, id: nat)
    requires Run(cfg, mo, states, inputs) && i <= k <= |inputs|
    requires forall j :: i <= j <= k ==> id in states[j].tracks
    requires forall j :: i < j <= k ==> states[j].tracks[id].obj.framesSinceSeen > 0
    ensures states[k].tracks[id].obj.framesSinceSeen == states[i].tracks[id].obj.framesSinceSeen + (k - i) <= cfg.maxAge
    decreases k
  {
    hide Step, Coherent;
    RunIsCoherent(cfg, mo, states, inputs, k, k);
    FramesUnseenAreCounted(cfg, states[k], id);
    if i == k {
    } else {
      ForgottenAfterMaxAge(cfg, mo, states, inputs, i, k - 1, id);
      RunIsCoherent(cfg, mo, states, inputs, k - 1, k - 1);
      StepKeepsIdentity(cfg, mo, states[k - 1], inputs[k - 1], states[k]);
    }
  }
}
