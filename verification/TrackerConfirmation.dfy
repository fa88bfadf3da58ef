/** When a track is confirmed: the code compares its age in frames, not its detections. */
module TrackerConfirmation {
  import opened Permutations
  import opened Geometry
  import opened Association
  import opened Tracker
  import opened TrackerRuns

  /** id starts in frame i and still lives after frame k - 1. */
  ghost predicate LivesFrom<K>(states: seq<TrackerState<K>>, i: nat, k: nat, id: nat) {
    && i < k < |states|
    && id !in states[i].tracks && forall j :: i < j <= k ==> id in states[j].tracks
  }

  /** An id that was started in frame i and is still there has lived all the time. */
  lemma LivesThroughout<K(!new)>(cfg: Config, mo: Motion<K>, states: seq<TrackerState<K>>, inputs: seq<Input>,
                                 i: nat, k: nat, id: nat)
    requires Run(cfg, mo, states, inputs) && i < k < |states|
    requires id !in states[i].tracks && id in states[i + 1].tracks && id in states[k].tracks
    ensures LivesFrom(states, i, k, id)
  {
    hide Step;
    forall j | i < j <= k
      ensures id in states[j].tracks
    {
      if id !in states[j].tracks { IdsNeverReused(cfg, mo, states, inputs, i + 1, j, k, id); }
    }
  }

  /** In how many of the frames since its birth the track was matched or started. */
  ghost function Seen<K>(states: seq<TrackerState<K>>, i: nat, k: nat, id: nat): (n: nat)
    requires i <= k < |states| && forall j :: i < j <= k ==> id in states[j].tracks
  {
    if k == i then 0
    else Seen(states, i, k - 1, id) + if states[k].tracks[id].obj.framesSinceSeen == 0 then 1 else 0
  }

  /** In how many of them it was not. */
  ghost function Missed<K>(states: seq<TrackerState<K>>, i: nat, k: nat, id: nat): (n: nat)
    requires i <= k < |states| && forall j :: i < j <= k ==> id in states[j].tracks
  {
    if k == i then 0
    else Missed(states, i, k - 1, id) + if states[k].tracks[id].obj.framesSinceSeen == 0 then 0 else 1
  }

  /** The age is the number of frames since the birth, seen or not. */
  lemma {:induction false} AgeIsSeenPlusMissed<K(!new)>(cfg: Config, mo: Motion<K>, states: seq<TrackerState<K>>,
                                                        inputs: seq<Input>, i: nat, k: nat, id: nat)
    requires Run(cfg, mo, states, inputs) && LivesFrom(states, i, k, id)
    ensures states[k].tracks[id].obj.age == k - i == Seen(states, i, k, id) + Missed(states, i, k, id)
    ensures Seen(states, i, k, id) >= 1 && (cfg.maxAge <= 0 ==> Missed(states, i, k, id) == 0)
    decreases k
  {
    hide Step, Coherent;
    RunIsCoherent(cfg, mo, states, inputs, k - 1, k);
    StepKeepsIdentity(cfg, mo, states[k - 1], inputs[k - 1], states[k]);
    FramesUnseenAreCounted(cfg, states[k], id);
    if i + 1 == k {
      assert Seen(states, i, i, id) == Missed(states, i, i, id) == 0;
    } else {
      AgeIsSeenPlusMissed(cfg, mo, states, inputs, i, k - 1, id);
    }
  }

  /** A track is confirmed exactly from frame minHits of its life on. Counting detections would
      confirm it no earlier, and later exactly while it has been seen less than minHits times
      in at least minHits frames. */
  lemma ConfirmedByFrames<K(!new)>(cfg: Config, mo: Motion<K>, states: seq<TrackerState<K>>, inputs: seq<Input>,
                                   i: nat, k: nat, id: nat)
    requires Run(cfg, mo, states, inputs) && LivesFrom(states, i, k, id)
    ensures Confirmed(cfg, states[k].tracks[id]) <==> k - i >= cfg.minHits
    ensures Seen(states, i, k, id) >= cfg.minHits ==> Confirmed(cfg, states[k].tracks[id])
    ensures (Confirmed(cfg, states[k].tracks[id]) <==> Seen(states, i, k, id) >= cfg.minHits) <==>
            !(Seen(states, i, k, id) < cfg.minHits <= k - i)
    ensures cfg.maxAge <= 0 || cfg.minHits <= 1 ==>
            (Confirmed(cfg, states[k].tracks[id]) <==> Seen(states, i, k, id) >= cfg.minHits)
  {
    AgeIsSeenPlusMissed(cfg, mo, states, inputs, i, k, id);
  }

  /** So a track started in frame i and still there after frame k - 1 is k - i frames old, and
      confirmed exactly if that is at least minHits. */
  lemma ConfirmedFromBirth<K(!new)>(cfg: Config, mo: Motion<K>, states: seq<TrackerState<K>>, inputs: seq<Input>,
                                    i: nat, k: nat, id: nat)
    requires Run(cfg, mo, states, inputs) && i < k < |states|
    requires id !in states[i].tracks && id in states[i + 1].tracks && id in states[k].tracks
    ensures states[k].tracks[id].obj.age == k - i && (Confirmed(cfg, states[k].tracks[id]) <==> k - i >= cfg.minHits)
  {
    LivesThroughout(cfg, mo, states, inputs, i, k, id);
    AgeIsSeenPlusMissed(cfg, mo, states, inputs, i, k, id);
  }

  // ------------------------------------------------- runs of one track

  /** The track that detection d started n frames ago: missed for the first q frames, and from then
      on matched in every frame with a detection of just the predicted box. */
  ghost function Life<K>(mo: Motion<K>, d: Detection, dt: real, now: real, q: nat, n: nat): (t: Track<K>)
    ensures t.obj.trackId == 1 && t.obj.age == n + 1 && t.obj.framesSinceSeen == if n <= q then n else 0
  {
    if n == 0 then Spawn(mo, 1, d, now)
    else
      var coasted := Coast(mo, Life(mo, d, dt, now, q, n - 1), dt);
      if n <= q then coasted else Refresh(mo, coasted, coasted.obj.detection, now)
  }

  ghost function Found<K>(mo: Motion<K>, d: Detection, dt: real, now: real, q: nat, n: nat): seq<Detection> {
    if n == 0 then [d] else if n <= q then [] else [Coast(mo, Life(mo, d, dt, now, q, n - 1), dt).obj.detection]
  }

  ghost function LifeState<K>(mo: Motion<K>, d: Detection, dt: real, now: real, q: nat, n: nat): TrackerState<K> {
    TrackerState(map[1 := Life(mo, d, dt, now, q, n)], 1)
  }

  lemma FirstFrame<K(!new)>(cfg: Config, mo: Motion<K>, d: Detection, dt: real, now: real, q: nat)
    requires cfg.maxAge >= 0
    ensures Step(cfg, mo, TrackerState(map[], 0), Frames([d], dt, now), LifeState(mo, d, dt, now, q, 0))
  {
    var before: map<nat, Track<K>> := map[];
    var a, tracks := [-1], before[1 := Spawn(mo, 1, d, now)];
    var coasted := Coasted(mo, before, dt);
    assert coasted == before;
    assert seq(1, _ => -1) == a;
    AbsorbNone(mo, coasted, 0, [], a, [d], now);
    AbsorbBirth(mo, coasted, 0, [], a, [d], 0, now, coasted);
    assert Pruned(cfg, tracks) == tracks;
    hide Absorbed, Solved, BirthId, Coasted, Pruned, Spawn, Enumerates, Associates;
    FrameDone(cfg, mo, before, 0, [d], dt, now, [], a, tracks, tracks, 1);
    FrameIsStep(cfg, mo, before, 0, [d], dt, now, [], a, tracks, tracks, 1);
  }

  lemma MissedFrame<K(!new)>(cfg: Config, mo: Motion<K>, d: Detection, dt: real, now: real, q: nat, n: nat)
    requires 1 <= n <= q <= cfg.maxAge
    ensures Step(cfg, mo, LifeState(mo, d, dt, now, q, n - 1), Frames([], dt, now), LifeState(mo, d, dt, now, q, n))
  {
    var before, tracks := LifeState(mo, d, dt, now, q, n - 1).tracks, LifeState(mo, d, dt, now, q, n).tracks;
    assert Coasted(mo, before, dt) == tracks;
    assert seq(0, _ => -1) == [];
    AbsorbNone(mo, tracks, 1, [1], [], [], now);
    assert Pruned(cfg, tracks) == tracks;
    FrameDone(cfg, mo, before, 1, [], dt, now, [1], [], tracks, tracks, 1);
    FrameIsStep(cfg, mo, before, 1, [], dt, now, [1], [], tracks, tracks, 1);
  }

  /** A detection of just the predicted box is matched, below a threshold of one. */
  lemma PerfectMatch(threshold: real, d: Detection)
    requires d.bbox.width > 0.0 && d.bbox.height > 0.0 && threshold < 1.0
    ensures Solved(threshold, [d], [d], [0]) && Associates(threshold, [d], [d], [0])
  {
    hide ComputeIou;
    IouOfItself(d.bbox);
    var m, s := [[0.0]], [0];
    assert IsPadded(m, 1, threshold, [d], [d]);
    assert Matched(m, 1, s, 1) == s;
    forall s' | IsPermutation(s', 1)
      ensures s' == s
    {
      assert s'[0] == 0;
    }
    SolvesIt(threshold, [d], [d], 1, m, s);
  }

  /** What a matched frame makes of the one track. */
  lemma MatchedTrack<K>(cfg: Config, mo: Motion<K>, d: Detection, dt: real, now: real, q: nat, n: nat)
    requires n > q && n > 0 && cfg.maxAge >= 0
    ensures var coasted := Coasted(mo, LifeState(mo, d, dt, now, q, n - 1).tracks, dt);
            var tracks, dets := LifeState(mo, d, dt, now, q, n).tracks, Found(mo, d, dt, now, q, n);
            && coasted.Keys == {1} && Boxes(coasted, [1]) == dets
            && dets[0].bbox.width > 0.0 && dets[0].bbox.height > 0.0
            && coasted[1 := Refresh(mo, coasted[1], dets[0], now)] == tracks && Pruned(cfg, tracks) == tracks
  {
    hide Refresh;
  }

  lemma MatchedFrame<K(!new)>(cfg: Config, mo: Motion<K>, d: Detection, dt: real, now: real, q: nat, n: nat)
    requires n > q && n > 0 && cfg.maxAge >= 0 && cfg.iouThreshold < 1.0
    ensures Step(cfg, mo, LifeState(mo, d, dt, now, q, n - 1), Frames(Found(mo, d, dt, now, q, n), dt, now),
                 LifeState(mo, d, dt, now, q, n))
  {
    hide Absorbed, Solved, Coasted, Pruned, Refresh, Associates, Boxes, Life, BirthId;
    MatchedTrack(cfg, mo, d, dt, now, q, n);
    var before, tracks := LifeState(mo, d, dt, now, q, n - 1).tracks, LifeState(mo, d, dt, now, q, n).tracks;
    var coasted, dets := Coasted(mo, before, dt), Found(mo, d, dt, now, q, n);
    PerfectMatch(cfg.iouThreshold, dets[0]);
    AbsorbNone(mo, coasted, 1, [1], [0], dets, now);
    AbsorbMatch(mo, coasted, 1, [1], [0], dets, 0, now, coasted);
    BirthUnchanged(1, [0], 0);
    FrameDone(cfg, mo, before, 1, dets, dt, now, [1], [0], tracks, tracks, 1);
    FrameIsStep(cfg, mo, before, 1, dets, dt, now, [1], [0], tracks, tracks, 1);
  }

  ghost function LifeStates<K>(mo: Motion<K>, d: Detection, dt: real, now: real, q: nat, n: nat)
    : (states: seq<TrackerState<K>>)
    ensures |states| == n + 2 && states[0] == TrackerState(map[], 0)
    ensures forall k :: 1 <= k <= n + 1 ==> states[k] == LifeState(mo, d, dt, now, q, k - 1)
  {
    [TrackerState(map[], 0)] + seq(n + 1, k requires 0 <= k => LifeState(mo, d, dt, now, q, k))
  }

  ghost function LifeInputs<K>(mo: Motion<K>, d: Detection, dt: real, now: real, q: nat, n: nat): (inputs: seq<Input>)
    ensures |inputs| == n + 1
    ensures forall k :: 0 <= k <= n ==> inputs[k] == Frames(Found(mo, d, dt, now, q, k), dt, now)
  {
    seq(n + 1, k requires 0 <= k => Frames(Found(mo, d, dt, now, q, k), dt, now))
  }

  lemma {:induction false} SeenInLife<K>(mo: Motion<K>, d: Detection, dt: real, now: real, q: nat, n: nat, k: nat)
    requires 1 <= k <= n + 1
    ensures LivesFrom(LifeStates(mo, d, dt, now, q, n), 0, k, 1)
    ensures Seen(LifeStates(mo, d, dt, now, q, n), 0, k, 1) == if k <= q + 1 then 1 else k - q
    decreases k
  {
    var states := LifeStates(mo, d, dt, now, q, n);
    if k == 1 {
      assert Seen(states, 0, 0, 1) == 0;
    } else {
      SeenInLife(mo, d, dt, now, q, n, k - 1);
    }
  }

  lemma LifeIsRun<K(!new)>(cfg: Config, mo: Motion<K>, d: Detection, dt: real, now: real, q: nat, n: nat)
    requires q <= cfg.maxAge && (n > q ==> cfg.iouThreshold < 1.0)
    ensures Run(cfg, mo, LifeStates(mo, d, dt, now, q, n), LifeInputs(mo, d, dt, now, q, n))
  {
    hide Step, Life;
    var states, inputs := LifeStates(mo, d, dt, now, q, n), LifeInputs(mo, d, dt, now, q, n);
    forall k | 0 <= k < |inputs|
      ensures Step(cfg, mo, states[k], inputs[k], states[k + 1])
    {
      if k == 0 {
        FirstFrame(cfg, mo, d, dt, now, q);
      } else if k <= q {
        MissedFrame(cfg, mo, d, dt, now, q, k);
      } else {
        MatchedFrame(cfg, mo, d, dt, now, q, k);
      }
    }
  }

  /** One detection and n frames without any: the track has been seen once and is n + 1 frames
      old, so with 2 <= minHits <= n + 1 it is confirmed by a single detection. */
  lemma OneDetectionConfirms<K(!new)>(cfg: Config, mo: Motion<K>, d: Detection, dt: real, now: real, n: nat)
    requires n <= cfg.maxAge
    ensures var states := LifeStates(mo, d, dt, now, n, n);
            && Run(cfg, mo, states, [Frames([d], dt, now)] + seq(n, _ => Frames([], dt, now)))
            && LivesFrom(states, 0, n + 1, 1) && Seen(states, 0, n + 1, 1) == 1
            && (Confirmed(cfg, states[n + 1].tracks[1]) <==> cfg.minHits <= n + 1)
  {
    hide Run;
    LifeIsRun(cfg, mo, d, dt, now, n, n);
    SeenInLife(mo, d, dt, now, n, n, n + 1);
    assert LifeInputs(mo, d, dt, now, n, n) == [Frames([d], dt, now)] + seq(n, _ => Frames([], dt, now));
  }

  /** With the default configuration one detection and two empty frames confirm a track. */
  lemma ThreeFramesConfirm<K(!new)>(mo: Motion<K>, d: Detection, dt: real, now: real)
    returns (states: seq<TrackerState<K>>)
    ensures Run(Config(0.3, 30, 3), mo, states, [Frames([d], dt, now), Frames([], dt, now), Frames([], dt, now)])
    ensures LivesFrom(states, 0, 3, 1) && Seen(states, 0, 3, 1) == 1
    ensures Confirmed(Config(0.3, 30, 3), states[3].tracks[1]) && !Confirmed(Config(0.3, 30, 3), states[2].tracks[1])
  {
    hide Run, Life, Seen;
    states := LifeStates(mo, d, dt, now, 2, 2);
    OneDetectionConfirms(Config(0.3, 30, 3), mo, d, dt, now, 2);
    assert [Frames([d], dt, now)] + seq(2, _ => Frames([], dt, now))
        == [Frames([d], dt, now), Frames([], dt, now), Frames([], dt, now)];
  }

  // ------------------------------------------------- exactly which configurations

  /** On every run a track is confirmed exactly when it has been seen in minHits frames. */
  ghost predicate CountsDetections<K(!new)>(cfg: Config, mo: Motion<K>) {
    forall states, inputs, i, k, id :: Run(cfg, mo, states, inputs) && LivesFrom(states, i, k, id) ==>
      SeenDecides(cfg, states, i, k, id)
  }

  ghost predicate SeenDecides<K>(cfg: Config, states: seq<TrackerState<K>>, i: nat, k: nat, id: nat)
    requires LivesFrom(states, i, k, id)
  {
    Confirmed(cfg, states[k].tracks[id]) <==> Seen(states, i, k, id) >= cfg.minHits
  }

  /** With a threshold of one or more nothing is ever matched. */
  lemma UnmatchedStep<K(!new)>(cfg: Config, mo: Motion<K>, s: TrackerState<K>, input: Input, s': TrackerState<K>,
                               id: nat)
    requires Step(cfg, mo, s, input, s') && Coherent(cfg, s.tracks, s.nextId) && cfg.iouThreshold >= 1.0
    requires id in s.tracks && id in s'.tracks
    ensures s'.tracks[id].obj.framesSinceSeen == s.tracks[id].obj.framesSinceSeen + 1
  {
    hide ComputeIou, Solved;
    var ids, a, mid :|
      Frame(cfg, mo, s.tracks, s.nextId, input.dets, input.dt, input.now, ids, a, mid, s'.tracks, s'.nextId);
    var coasted := Coasted(mo, s.tracks, input.dt);
    forall e | 0 <= e < |a|
      ensures a[e] < 0
    {
      if a[e] >= 0 { IouIsAFraction(input.dets[e].bbox, Boxes(coasted, ids)[a[e]].bbox); }
    }
    AbsorbedCases(mo, coasted, s.nextId, ids, a, input.dets, input.now, mid, id);
  }

  lemma {:induction false} NeverMatched<K(!new)>(cfg: Config, mo: Motion<K>, states: seq<TrackerState<K>>,
                                                 inputs: seq<Input>, i: nat, k: nat, id: nat)
    requires Run(cfg, mo, states, inputs) && LivesFrom(states, i, k, id) && cfg.iouThreshold >= 1.0
    ensures states[k].tracks[id].obj.framesSinceSeen == k - i - 1 <= cfg.maxAge
    decreases k
  {
    hide Step, Coherent;
    RunIsCoherent(cfg, mo, states, inputs, k - 1, k);
    FramesUnseenAreCounted(cfg, states[k], id);
    if i + 1 == k {
      StepKeepsIdentity(cfg, mo, states[i], inputs[i], states[k]);
    } else {
      NeverMatched(cfg, mo, states, inputs, i, k - 1, id);
      UnmatchedStep(cfg, mo, states[k - 1], inputs[k - 1], states[k], id);
    }
  }

  /** The configurations under which the code does count detections. */
  predicate CountingConfig(cfg: Config) {
    cfg.maxAge <= 0 || cfg.minHits <= 1 || (cfg.iouThreshold >= 1.0 && cfg.minHits > cfg.maxAge + 1)
  }

  /** Otherwise a track that was missed is confirmed one detection early. */
  lemma MissedTrackConfirmsEarly<K(!new)>(cfg: Config, mo: Motion<K>)
    requires !CountingConfig(cfg)
    ensures !CountsDetections(cfg, mo)
  {
    hide Run, Life;
    var d, n := Detection(BBox(0.0, 0.0, 1.0, 1.0), 0, 1.0), cfg.minHits - 1;
    var q := if cfg.iouThreshold < 1.0 then 1 else n;
    LifeIsRun(cfg, mo, d, 1.0, 0.0, q, n);
    SeenInLife(mo, d, 1.0, 0.0, q, n, n + 1);
    assert !SeenDecides(cfg, LifeStates(mo, d, 1.0, 0.0, q, n), 0, n + 1, 1);
  }

  /** Confirmation counts detections, whatever the motion model, exactly under these configurations. */
  lemma CountingExactly<K(!new)>(cfg: Config, mo: Motion<K>)
    ensures CountsDetections(cfg, mo) <==> CountingConfig(cfg)
  {
    hide Run;
    if CountingConfig(cfg) {
      forall states, inputs, i, k, id | Run(cfg, mo, states, inputs) && LivesFrom(states, i, k, id)
        ensures SeenDecides(cfg, states, i, k, id)
      {
        ConfirmedByFrames(cfg, mo, states, inputs, i, k, id);
        if cfg.iouThreshold >= 1.0 { NeverMatched(cfg, mo, states, inputs, i, k, id); }
      }
    } else {
      MissedTrackConfirmsEarly(cfg, mo);
    }
  }
}
