/**
  One frame of the tracker: predict every track, associate detections, refresh or
  spawn, prune, emit. The Kalman filter is an arbitrary motion model.
 */
module Tracker {
  import opened Permutations
  import opened Assignment
  import opened Products
  import opened Hungarian
  import opened Geometry
  import opened Padding
  import opened Association
  import opened Pool

  type PositiveBox = b: BBox | b.width > 0.0 && b.height > 0.0 witness BBox(0.0, 0.0, 1.0, 1.0)

  /** The filter: the boxes it gives have positive size (a root and a quotient of positive numbers). */
  datatype Motion<!K> = Motion(
    init: BBox -> K,
    predict: (K, real) -> K,
    correct: (K, BBox) -> K,
    box: K -> PositiveBox,
    vx: K -> real,
    vy: K -> real)

  datatype TrackedObject = TrackedObject(
    trackId: nat,
    detection: Detection,
    age: int,
    framesSinceSeen: int,
    velocityX: real,
    velocityY: real,
    firstSeen: real,
    lastSeen: real)

  datatype Track<K> = Track(obj: TrackedObject, kf: K)

  datatype Config = Config(iouThreshold: real, maxAge: int, minHits: int)

  /** A track one frame later, unseen. */
  function Coast<K>(mo: Motion<K>, t: Track<K>, dt: real): Track<K> {
    var kf := mo.predict(t.kf, dt);
    Track(t.obj.(detection := t.obj.detection.(bbox := mo.box(kf)),
                 age := t.obj.age + 1,
                 framesSinceSeen := t.obj.framesSinceSeen + 1),
          kf)
  }

  /** A track that detection d was matched to. */
  function Refresh<K>(mo: Motion<K>, t: Track<K>, d: Detection, now: real): Track<K> {
    var kf := mo.correct(t.kf, d.bbox);
    Track(t.obj.(detection := d.(bbox := mo.box(kf)),
                 velocityX := mo.vx(kf),
                 velocityY := mo.vy(kf),
                 framesSinceSeen := 0,
                 lastSeen := now),
          kf)
  }

  /** The track a detection without a match starts. */
  function Spawn<K>(mo: Motion<K>, id: nat, d: Detection, now: real): Track<K> {
    Track(TrackedObject(id, d, 1, 0, 0.0, 0.0, now, now), mo.init(d.bbox))
  }

  // -------------------------------------------------- one frame, declaratively

  ghost function Coasted<K>(mo: Motion<K>, tracks: map<nat, Track<K>>, dt: real): map<nat, Track<K>> {
    map id | id in tracks :: Coast(mo, tracks[id], dt)
  }

  ghost predicate Enumerates(ids: seq<nat>, keys: set<nat>) {
    && (forall k :: 0 <= k < |ids| ==> ids[k] in keys)
    && (forall id :: id in keys ==> id in ids)
    && forall i, j :: 0 <= i < j < |ids| ==> ids[i] != ids[j]
  }

  ghost function Boxes<K>(tracks: map<nat, Track<K>>, ids: seq<nat>): (ds: seq<Detection>)
    requires forall k :: 0 <= k < |ids| ==> ids[k] in tracks
    ensures |ds| == |ids|
  {
    seq(|ids|, k requires 0 <= k < |ids| => tracks[ids[k]].obj.detection)
  }

  /** The id that detection d gets when it starts a track. */
  ghost function BirthId(next: nat, a: seq<int>, d: nat): nat
    requires d <= |a|
  {
    PairsAtMost(a[..d]);
    next + 1 + d - Pairs(a[..d])
  }

  lemma {:induction false} PairsAtMost(a: seq<int>)
    ensures Pairs(a) <= |a|
  {
    if a == [] {
    } else {
      PairsAtMost(a[..|a| - 1]);
    }
  }

  lemma PairsStep(a: seq<int>, d: nat)
    requires d < |a|
    ensures Pairs(a[..d + 1]) == Pairs(a[..d]) + if a[d] >= 0 then 1 else 0
  {
    assert a[..d + 1][..d] == a[..d];
  }

  /** Detections 0..d have been absorbed: each has refreshed the track it was given
      or started one of its own; every other track coasts. */
  ghost predicate Absorbed<K>(mo: Motion<K>, coasted: map<nat, Track<K>>, next: nat, ids: seq<nat>, a: seq<int>,
                              dets: seq<Detection>, d: nat, now: real, tracks: map<nat, Track<K>>)
    requires d <= |a| == |dets| && InRange(a, -1, |ids|) && Enumerates(ids, coasted.Keys)
  {
    && (forall id :: id in tracks <==> id in coasted || next < id < BirthId(next, a, d))
    && (forall e :: 0 <= e < d && a[e] >= 0 ==>
          && ids[a[e]] in tracks
          && tracks[ids[a[e]]] == Refresh(mo, coasted[ids[a[e]]], dets[e], now))
    && (forall e :: 0 <= e < d && a[e] < 0 ==>
          && BirthId(next, a, e) in tracks
          && tracks[BirthId(next, a, e)] == Spawn(mo, BirthId(next, a, e), dets[e], now))
    && (forall k :: 0 <= k < |ids| && (forall e :: 0 <= e < d ==> a[e] != k) ==>
          ids[k] in tracks && tracks[ids[k]] == coasted[ids[k]])
  }

  lemma AbsorbMatch<K>(mo: Motion<K>, coasted: map<nat, Track<K>>, next: nat, ids: seq<nat>, a: seq<int>,
                       dets: seq<Detection>, d: nat, now: real, tracks: map<nat, Track<K>>)
    requires d < |a| == |dets| && InRange(a, -1, |ids|) && Enumerates(ids, coasted.Keys)
    requires forall i, j :: 0 <= i < j < |a| && a[i] >= 0 ==> a[i] != a[j]
    requires forall id :: id in coasted ==> id <= next
    requires Absorbed(mo, coasted, next, ids, a, dets, d, now, tracks) && a[d] >= 0
    ensures ids[a[d]] in tracks && tracks[ids[a[d]]] == coasted[ids[a[d]]]
    ensures Absorbed(mo, coasted, next, ids, a, dets, d + 1, now,
                     tracks[ids[a[d]] := Refresh(mo, tracks[ids[a[d]]], dets[d], now)])
  {
    hide Refresh, Spawn, Pairs;
    PairsStep(a, d);
    var k := a[d];
    assert forall e :: 0 <= e < d ==> a[e] != k;
    assert tracks[ids[k]] == coasted[ids[k]];
    forall e | 0 <= e < d && a[e] >= 0
      ensures ids[a[e]] != ids[k]
    {
    }
    forall e | 0 <= e <= d
      ensures BirthId(next, a, e) > next
    {
      PairsAtMost(a[..e]);
    }
  }

  lemma AbsorbBirth<K>(mo: Motion<K>, coasted: map<nat, Track<K>>, next: nat, ids: seq<nat>, a: seq<int>,
                       dets: seq<Detection>, d: nat, now: real, tracks: map<nat, Track<K>>)
    requires d < |a| == |dets| && InRange(a, -1, |ids|) && Enumerates(ids, coasted.Keys)
    requires forall id :: id in coasted ==> id <= next
    requires Absorbed(mo, coasted, next, ids, a, dets, d, now, tracks) && a[d] < 0
    ensures var id := BirthId(next, a, d);
            && id !in tracks && BirthId(next, a, d + 1) == id + 1
            && Absorbed(mo, coasted, next, ids, a, dets, d + 1, now, tracks[id := Spawn(mo, id, dets[d], now)])
  {
    hide Refresh, Spawn, Pairs;
    PairsStep(a, d);
    PairsAtMost(a[..d]);
    forall e | 0 <= e < d && a[e] < 0
      ensures BirthId(next, a, e) < BirthId(next, a, d)
    {
      assert BirthId(next, a, e) in tracks;
    }
  }

  ghost function Pruned<K>(cfg: Config, tracks: map<nat, Track<K>>): map<nat, Track<K>> {
    map id | id in tracks && tracks[id].obj.framesSinceSeen <= cfg.maxAge :: tracks[id]
  }

  /** A track that may be emitted. */
  predicate Confirmed<K>(cfg: Config, t: Track<K>) { t.obj.age >= cfg.minHits }

  /** The confirmed tracks, each once, as far as the pool reaches. */
  ghost predicate Emitted<K>(cfg: Config, tracks: map<nat, Track<K>>, order: seq<nat>, out: seq<TrackedObject>,
                             capacity: nat) {
    && |out| <= |order|
    && (forall k :: 0 <= k < |order| ==> order[k] in tracks && Confirmed(cfg, tracks[order[k]]))
    && (forall i, j :: 0 <= i < j < |order| ==> order[i] != order[j])
    && (forall k :: 0 <= k < |out| ==> out[k] == tracks[order[k]].obj)
    && |out| <= capacity
    && (|out| < capacity ==>
          |out| == |order| && forall id :: id in tracks && Confirmed(cfg, tracks[id]) ==> id in order)
  }

  /** What holds of the tracks between frames. */
  ghost predicate Coherent<K>(cfg: Config, tracks: map<nat, Track<K>>, next: nat) {
    forall id :: id in tracks ==>
      && 1 <= id <= next && tracks[id].obj.trackId == id && tracks[id].obj.age >= 1
      && 0 <= tracks[id].obj.framesSinceSeen <= cfg.maxAge
  }

  /** One frame as a relation: `ids` lists the tracks, `a` is the association found
      and `mid` the tracks before pruning. */
  ghost predicate Frame<K>(cfg: Config, mo: Motion<K>, before: map<nat, Track<K>>, next: nat,
                           dets: seq<Detection>, dt: real, now: real, ids: seq<nat>, a: seq<int>,
                           mid: map<nat, Track<K>>, after: map<nat, Track<K>>, next': nat)
  {
    var coasted := Coasted(mo, before, dt);
    && Enumerates(ids, coasted.Keys)
    && Associates(cfg.iouThreshold, Boxes(coasted, ids), dets, a)
    && Solved(cfg.iouThreshold, Boxes(coasted, ids), dets, a)
    && Absorbed(mo, coasted, next, ids, a, dets, |dets|, now, mid)
    && next' + 1 == BirthId(next, a, |dets|)
    && after == Pruned(cfg, mid)
  }

  datatype TrackerState<K> = TrackerState(tracks: map<nat, Track<K>>, nextId: nat)

  datatype Input = Frames(dets: seq<Detection>, dt: real, now: real) | Cleared

  ghost predicate Step<K(!new)>(cfg: Config, mo: Motion<K>, s: TrackerState<K>, input: Input, s': TrackerState<K>) {
    match input
    case Frames(dets, dt, now) =>
      exists ids, a, mid ::
        Frame(cfg, mo, s.tracks, s.nextId, dets, dt, now, ids, a, mid, s'.tracks, s'.nextId)
    case Cleared => s' == TrackerState(map[], s.nextId)
  }

  /** The life of a tracker: states[k + 1] follows from states[k] by inputs[k]. */
  ghost predicate Run<K(!new)>(cfg: Config, mo: Motion<K>, states: seq<TrackerState<K>>, inputs: seq<Input>) {
    && |states| == |inputs| + 1
    && states[0] == TrackerState(map[], 0)
    && forall k :: 0 <= k < |inputs| ==> Step(cfg, mo, states[k], inputs[k], states[k + 1])
  }

  lemma RunExtends<K(!new)>(cfg: Config, mo: Motion<K>, states: seq<TrackerState<K>>, inputs: seq<Input>,
                            input: Input, s: TrackerState<K>)
    requires Run(cfg, mo, states, inputs) && Step(cfg, mo, states[|inputs|], input, s)
    ensures Run(cfg, mo, states + [s], inputs + [input])
  {
    hide Step;
    var states', inputs' := states + [s], inputs + [input];
    forall k | 0 <= k < |inputs'|
      ensures Step(cfg, mo, states'[k], inputs'[k], states'[k + 1])
    {
      if k < |inputs| {
        assert Step(cfg, mo, states[k], inputs[k], states[k + 1]);
      }
    }
  }

  lemma RunShape<K(!new)>(cfg: Config, mo: Motion<K>, states: seq<TrackerState<K>>, inputs: seq<Input>)
    requires Run(cfg, mo, states, inputs)
    ensures |states| == |inputs| + 1
  {
  }

  lemma FrameIsStep<K(!new)>(cfg: Config, mo: Motion<K>, before: map<nat, Track<K>>, next: nat,
                             dets: seq<Detection>, dt: real, now: real, ids: seq<nat>, a: seq<int>,
                             mid: map<nat, Track<K>>, after: map<nat, Track<K>>, next': nat)
    requires Frame(cfg, mo, before, next, dets, dt, now, ids, a, mid, after, next')
    ensures Step(cfg, mo, TrackerState(before, next), Frames(dets, dt, now), TrackerState(after, next'))
  {
  }

  lemma AbsorbNone<K>(mo: Motion<K>, coasted: map<nat, Track<K>>, next: nat, ids: seq<nat>, a: seq<int>,
                      dets: seq<Detection>, now: real)
    requires |a| == |dets| && InRange(a, -1, |ids|) && Enumerates(ids, coasted.Keys)
    ensures BirthId(next, a, 0) == next + 1
    ensures Absorbed(mo, coasted, next, ids, a, dets, 0, now, coasted)
  {
    assert a[..0] == [];
  }

  lemma CoastedBoxes<K>(mo: Motion<K>, tracks: map<nat, Track<K>>, dt: real, ids: seq<nat>)
    requires Enumerates(ids, Coasted(mo, tracks, dt).Keys)
    ensures forall k :: 0 <= k < |ids| ==> ids[k] in Coasted(mo, tracks, dt)
  {
  }

  lemma CoherentCoasted<K>(cfg: Config, mo: Motion<K>, tracks: map<nat, Track<K>>, next: nat, dt: real)
    requires Coherent(cfg, tracks, next)
    ensures forall id :: id in Coasted(mo, tracks, dt) ==> id <= next
  {
  }

  lemma AssociatesShape(threshold: real, tracks: seq<Detection>, dets: seq<Detection>, a: seq<int>)
    requires Associates(threshold, tracks, dets, a)
    ensures |a| == |dets| && InRange(a, -1, |tracks|)
    ensures forall i, j :: 0 <= i < j < |a| && a[i] >= 0 ==> a[i] != a[j]
  {
  }

  lemma FrameDone<K>(cfg: Config, mo: Motion<K>, before: map<nat, Track<K>>, next: nat,
                     dets: seq<Detection>, dt: real, now: real, ids: seq<nat>, a: seq<int>,
                     mid: map<nat, Track<K>>, after: map<nat, Track<K>>, next': nat)
    requires Enumerates(ids, Coasted(mo, before, dt).Keys)
    requires Associates(cfg.iouThreshold, Boxes(Coasted(mo, before, dt), ids), dets, a)
    requires Solved(cfg.iouThreshold, Boxes(Coasted(mo, before, dt), ids), dets, a)
    requires Absorbed(mo, Coasted(mo, before, dt), next, ids, a, dets, |dets|, now, mid)
    requires next' + 1 == BirthId(next, a, |dets|) && after == Pruned(cfg, mid)
    ensures Frame(cfg, mo, before, next, dets, dt, now, ids, a, mid, after, next')
  {
    CoastedBoxes(mo, before, dt, ids);
  }

  class VehicleTracker<K(!new)> {
    const config: Config
    const motion: Motion<K>
    const solver: AssignmentSolver
    var tracks: map<nat, Track<K>>
    var nextId: nat
    var trackIds: seq<nat>
    ghost var association: seq<int>
    ghost var absorbed: map<nat, Track<K>>
    ghost var emission: seq<nat>
    ghost var states: seq<TrackerState<K>>
    ghost var inputs: seq<Input>

    ghost predicate Valid()
      reads this
    {
      && Run(config, motion, states, inputs)
      && states[|inputs|] == TrackerState(tracks, nextId)
      && Coherent(config, tracks, nextId)
    }

    constructor (config: Config, motion: Motion<K>)
      ensures Valid() && tracks == map[] && nextId == 0
      ensures this.config == config && this.motion == motion && fresh(solver)
    {
      this.config, this.motion := config, motion;
      tracks, nextId, trackIds := map[], 0, [];
      association, absorbed, emission := [], map[], [];
      states, inputs := [TrackerState(map[], 0)], [];
      solver := new AssignmentSolver();
    }

    /** Coasts every track and records the ids, in whatever order they come. */
    method Predict(dt: real)
      modifies this`tracks, this`trackIds
      ensures tracks == Coasted(motion, old(tracks), dt)
      ensures Enumerates(trackIds, tracks.Keys)
    {
      ghost var before := tracks;
      trackIds := [];
      var todo := tracks.Keys;
      while todo != {}
        invariant todo <= tracks.Keys == before.Keys
        invariant Enumerates(trackIds, tracks.Keys - todo)
        invariant forall id :: id in before ==>
          tracks[id] == if id in todo then before[id] else Coast(motion, before[id], dt)
        decreases todo
      {
        var id :| id in todo;
        tracks := tracks[id := Coast(motion, tracks[id], dt)];
        trackIds := trackIds + [id];
        todo := todo - {id};
      }
    }

    /** Fills the solver's padded cost matrix. */
    method BuildCosts(n: nat, dets: seq<Detection>, ghost boxes: seq<Detection>)
      requires forall k :: 0 <= k < |trackIds| ==> trackIds[k] in tracks
      requires boxes == Boxes(tracks, trackIds)
      requires |trackIds| <= n && |dets| <= n
      modifies solver`cost
      ensures |solver.cost| == n * n
      ensures IsPadded(Rows(solver.cost, n), n, config.iouThreshold, boxes, dets)
    {
      hide ComputeIou, Row;
      TimesMonotone(0, n, n);
      solver.cost := seq(n * n, _ => INFEASIBLE);
      forall i, j | 0 <= i < n && 0 <= j < n
        ensures Rows(solver.cost, n)[i][j] == INFEASIBLE
      {
        CellIndex(solver.cost, n, i, j);
      }
      for k := 0 to |trackIds|
        invariant |solver.cost| == n * n
        invariant forall i, j :: 0 <= i < n && 0 <= j < n ==>
          Rows(solver.cost, n)[i][j] ==
            if i < k then PairCost(config.iouThreshold, boxes, dets, i, j) else INFEASIBLE
      {
        var track := tracks[trackIds[k]];
        for d := 0 to |dets|
          invariant |solver.cost| == n * n
          invariant forall i, j :: 0 <= i < n && 0 <= j < n ==>
            Rows(solver.cost, n)[i][j] ==
              if i < k || (i == k && j < d) then PairCost(config.iouThreshold, boxes, dets, i, j) else INFEASIBLE
        {
          if dets[d].classId != track.obj.detection.classId { continue; }
          var iou := ComputeIou(dets[d].bbox, track.obj.detection.bbox);
          if iou > config.iouThreshold {
            CellIndex(solver.cost, n, k, d);
            RowsUpdate(solver.cost, n, k, d, 1.0 - iou);
            solver.cost := solver.cost[k * n + d := 1.0 - iou];
          }
        }
      }
    }

    /** Solves the association, or leaves every detection unmatched when one side is empty. */
    method Associate(dets: seq<Detection>, n: nat, ghost boxes: seq<Detection>)
      requires forall k :: 0 <= k < |trackIds| ==> trackIds[k] in tracks
      requires boxes == Boxes(tracks, trackIds)
      requires n == if |trackIds| < |dets| then |dets| else |trackIds|
      modifies this`association, solver
      ensures |solver.rowOfCol| >= |dets| && |association| == |dets|
      ensures forall d :: 0 <= d < |dets| && solver.rowOfCol[d] >= 0 ==>
        solver.rowOfCol[d] < n && |solver.cost| == n * n
      ensures forall d :: 0 <= d < |dets| ==>
        var row := solver.rowOfCol[d];
        association[d] == if 0 <= row < |trackIds| && Rows(solver.cost, n)[row][d] < INFEASIBLE then row else -1
      ensures Associates(config.iouThreshold, boxes, dets, association)
      ensures Solved(config.iouThreshold, boxes, dets, association)
      ensures Outweighed(n, config.iouThreshold) ==> Best(config.iouThreshold, boxes, dets, association)
    {
      hide Best, ComputeIou, Solved, Outweighed, Gate;
      if |trackIds| > 0 && |dets| > 0 {
        BuildCosts(n, dets, boxes);
        solver.SolveAssignment(n);
        ghost var m := Rows(solver.cost, n);
        association := Matched(m, n, solver.rowOfCol, |dets|);
        MatchedAssociates(m, n, config.iouThreshold, boxes, dets, solver.rowOfCol);
        SolvesIt(config.iouThreshold, boxes, dets, n, m, solver.rowOfCol);
      } else {
        solver.rowOfCol := seq(|dets|, _ => -1);
        association := seq(|dets|, _ => -1);
        NothingToSolve(config.iouThreshold, boxes, dets);
      }
      if Outweighed(n, config.iouThreshold) {
        SolvedAssociationIsBest(config.iouThreshold, boxes, dets, association);
      }
    }

    /** Refreshes matched tracks and starts a track per unmatched detection. */
    method Absorb(dets: seq<Detection>, n: nat, now: real)
      requires |association| == |dets| <= |solver.rowOfCol| && InRange(association, -1, |trackIds|)
      requires Enumerates(trackIds, tracks.Keys)
      requires forall i, j :: 0 <= i < j < |association| && association[i] >= 0 ==> association[i] != association[j]
      requires n == if |trackIds| < |dets| then |dets| else |trackIds|
      requires forall d :: 0 <= d < |dets| && solver.rowOfCol[d] >= 0 ==>
        solver.rowOfCol[d] < n && |solver.cost| == n * n
      requires forall d :: 0 <= d < |dets| ==>
        var row := solver.rowOfCol[d];
        association[d] == if 0 <= row < |trackIds| && Rows(solver.cost, n)[row][d] < INFEASIBLE then row else -1
      requires forall id :: id in tracks ==> id <= nextId
      modifies this`tracks, this`nextId
      ensures Absorbed(motion, old(tracks), old(nextId), trackIds, association, dets, |dets|, now, tracks)
      ensures nextId + 1 == BirthId(old(nextId), association, |dets|)
    {
      hide *;
      ghost var coasted, next := tracks, nextId;
      AbsorbNone(motion, coasted, next, trackIds, association, dets, now);
      for d := 0 to |dets|
        invariant Absorbed(motion, coasted, next, trackIds, association, dets, d, now, tracks)
        invariant nextId + 1 == BirthId(next, association, d)
      {
        var row := solver.rowOfCol[d];
        if row >= 0 { CellIndex(solver.cost, n, row, d); }
        var matched := row >= 0 && row < |trackIds| && solver.cost[row * n + d] < INFEASIBLE;
        if matched {
          AbsorbMatch(motion, coasted, next, trackIds, association, dets, d, now, tracks);
          BirthUnchanged(next, association, d);
          var id := trackIds[row];
          tracks := tracks[id := Refresh(motion, tracks[id], dets[d], now)];
        } else {
          AbsorbBirth(motion, coasted, next, trackIds, association, dets, d, now, tracks);
          nextId := nextId + 1;
          tracks := tracks[nextId := Spawn(motion, nextId, dets[d], now)];
        }
      }
    }

    /** Removes the tracks unseen for more than maxAge frames. */
    method Prune()
      modifies this`tracks
      ensures tracks == Pruned(config, old(tracks))
    {
      ghost var before := tracks;
      var todo := tracks.Keys;
      while todo != {}
        invariant todo <= tracks.Keys <= before.Keys
        invariant forall id :: id in before ==>
          (id in tracks <==> id in todo || before[id].obj.framesSinceSeen <= config.maxAge)
        invariant forall id :: id in tracks ==> tracks[id] == before[id]
        decreases todo
      {
        var id :| id in todo;
        if tracks[id].obj.framesSinceSeen > config.maxAge {
          tracks := tracks - {id};
        }
        todo := todo - {id};
      }
    }

    /** Emits the confirmed tracks until the pool is full. */
    method Emit(out: ObjectPool<TrackedObject>)
      requires out.Valid() && out.slots == []
      modifies this`emission, out
      ensures out.Valid()
      ensures Emitted(config, tracks, emission, out.slots, out.capacity)
    {
      emission := [];
      var todo := tracks.Keys;
      while todo != {}
        invariant out.Valid() && todo <= tracks.Keys
        invariant forall k :: 0 <= k < |emission| ==>
          emission[k] in tracks && emission[k] !in todo && Confirmed(config, tracks[emission[k]])
        invariant forall i, j :: 0 <= i < j < |emission| ==> emission[i] != emission[j]
        invariant |out.slots| == |emission|
        invariant forall k :: 0 <= k < |emission| ==> out.slots[k] == tracks[emission[k]].obj
        invariant forall id :: id in tracks && Confirmed(config, tracks[id]) ==> id in todo || id in emission
        decreases todo
      {
        var id :| id in todo;
        todo := todo - {id};
        if Confirmed(config, tracks[id]) {
          var ok := out.Acquire(tracks[id].obj);
          if !ok { break; }
          emission := emission + [id];
        }
      }
    }

    /** One frame. */
    method Update(dets: seq<Detection>, out: ObjectPool<TrackedObject>, dt: real, now: real)
      requires Valid() && out.Valid()
      modifies this, solver, out
      ensures Valid() && out.Valid()
      ensures Frame(config, motion, old(tracks), old(nextId), dets, dt, now,
                    trackIds, association, absorbed, tracks, nextId)
      ensures Outweighed(if |trackIds| < |dets| then |dets| else |trackIds|, config.iouThreshold) ==>
        Best(config.iouThreshold, Boxes(Coasted(motion, old(tracks), dt), trackIds), dets, association)
      ensures Emitted(config, tracks, emission, out.slots, out.capacity)
      ensures inputs == old(inputs) + [Frames(dets, dt, now)]
      ensures states == old(states) + [TrackerState(tracks, nextId)]
    {
      hide Coherent, Enumerates, Absorbed, Best, Solved, Associates, BirthId, Coasted, Pruned, Boxes, Emitted, Frame,
           Outweighed, InRange, Run, Step;
      assert |states| == |inputs| + 1 by { RunShape(config, motion, states, inputs); }
      out.Clear();
      ghost var before, next := tracks, nextId;
      Predict(dt);
      CoastedBoxes(motion, before, dt, trackIds);
      var n := if |trackIds| < |dets| then |dets| else |trackIds|;
      Associate(dets, n, Boxes(tracks, trackIds));
      CoherentCoasted(config, motion, before, next, dt);
      AssociatesShape(config.iouThreshold, Boxes(tracks, trackIds), dets, association);
      Absorb(dets, n, now);
      absorbed := tracks;
      AbsorbedCoherent(config, motion, before, next, dt, trackIds, association, dets, now, tracks);
      Prune();
      FrameDone(config, motion, before, next, dets, dt, now, trackIds, association, absorbed, tracks, nextId);
      FrameIsStep(config, motion, before, next, dets, dt, now, trackIds, association, absorbed, tracks, nextId);
      RunExtends(config, motion, states, inputs, Frames(dets, dt, now), TrackerState(tracks, nextId));
      states, inputs := states + [TrackerState(tracks, nextId)], inputs + [Frames(dets, dt, now)];
      Emit(out);
    }

    /** Forgets the tracks; the id counter is kept. */
    method Reset()
      requires Valid()
      modifies this`tracks, this`states, this`inputs
      ensures Valid() && tracks == map[]
      ensures inputs == old(inputs) + [Cleared]
      ensures states == old(states) + [TrackerState(tracks, nextId)]
    {
      RunExtends(config, motion, states, inputs, Cleared, TrackerState(map[], nextId));
      tracks := map[];
      states, inputs := states + [TrackerState(tracks, nextId)], inputs + [Cleared];
    }
  }

  lemma BirthUnchanged(next: nat, a: seq<int>, d: nat)
    requires d < |a| && a[d] >= 0
    ensures BirthId(next, a, d + 1) == BirthId(next, a, d)
  {
    PairsStep(a, d);
  }

  /** Every absorbed track is a coasted one, a refreshed one or a newborn. */
  lemma AbsorbedCases<K>(mo: Motion<K>, coasted: map<nat, Track<K>>, next: nat, ids: seq<nat>, a: seq<int>,
                         dets: seq<Detection>, now: real, tracks: map<nat, Track<K>>, id: nat)
    requires |a| == |dets| && InRange(a, -1, |ids|) && Enumerates(ids, coasted.Keys)
    requires Absorbed(mo, coasted, next, ids, a, dets, |dets|, now, tracks) && id in tracks
    requires id in coasted ==> id <= next
    ensures if id <= next
            then id in coasted && (tracks[id] == coasted[id] ||
                   exists e :: 0 <= e < |a| && a[e] >= 0 && ids[a[e]] == id &&
                     tracks[id] == Refresh(mo, coasted[id], dets[e], now))
            else exists e :: 0 <= e < |a| && a[e] < 0 && id == BirthId(next, a, e) &&
                   tracks[id] == Spawn(mo, id, dets[e], now)
  {
    if id <= next {
      var k :| 0 <= k < |ids| && ids[k] == id;
      if e :| 0 <= e < |a| && a[e] == k {
        assert tracks[ids[a[e]]] == Refresh(mo, coasted[ids[a[e]]], dets[e], now);
      }
    } else {
      var e := BirthDetection(next, a, |a|, id);
      assert a[e] < 0;
    }
  }

  /** Which detection a new id belongs to. */
  lemma {:induction false} BirthDetection(next: nat, a: seq<int>, d: nat, id: nat) returns (e: nat)
    requires d <= |a| && next < id < BirthId(next, a, d)
    ensures e < d && a[e] < 0 && BirthId(next, a, e) == id
  {
    PairsStep(a, d - 1);
    PairsAtMost(a[..d - 1]);
    if a[d - 1] < 0 && BirthId(next, a, d - 1) == id {
      e := d - 1;
    } else {
      e := BirthDetection(next, a, d - 1, id);
    }
  }

  lemma AbsorbedCoherent<K>(cfg: Config, mo: Motion<K>, before: map<nat, Track<K>>, next: nat, dt: real, ids: seq<nat>,
                            a: seq<int>, dets: seq<Detection>, now: real, tracks: map<nat, Track<K>>)
    requires Coherent(cfg, before, next)
    requires |a| == |dets| && InRange(a, -1, |ids|) && Enumerates(ids, Coasted(mo, before, dt).Keys)
    requires Absorbed(mo, Coasted(mo, before, dt), next, ids, a, dets, |dets|, now, tracks)
    ensures BirthId(next, a, |a|) > next && Coherent(cfg, Pruned(cfg, tracks), BirthId(next, a, |a|) - 1)
  {
    var coasted := Coasted(mo, before, dt);
    PairsAtMost(a[..|a|]);
    forall id | id in tracks
      ensures 1 <= id < BirthId(next, a, |a|) && tracks[id].obj.trackId == id
      ensures tracks[id].obj.age >= 1 && tracks[id].obj.framesSinceSeen >= 0
    {
      AbsorbedCases(mo, coasted, next, ids, a, dets, now, tracks, id);
    }
  }
}
