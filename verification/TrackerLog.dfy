/** What a track is made of: its filter state, box, velocity, class and times, told from the log of
    the frames it has lived through. */
module TrackerLog {
  import opened Wrappers
  import opened Geometry
  import opened Association
  import opened Tracker
  import opened TrackerRuns
  import opened TrackerConfirmation

  /** One frame in the life of a track: the time step, the moment, and the detection matched to it. */
  datatype Sighting = Sighting(dt: real, now: real, seen: Option<Detection>)

  /** The filter a log tells of: started at the first box, predicted once a frame, and corrected
      with the box of each sighting. */
  ghost function Filtered<K>(mo: Motion<K>, box: BBox, log: seq<Sighting>): K {
    if log == [] then mo.init(box)
    else
      var e := log[|log| - 1];
      var predicted := mo.predict(Filtered(mo, box, log[..|log| - 1]), e.dt);
      if e.seen.Some? then mo.correct(predicted, e.seen.value.bbox) else predicted
  }

  /** The log up to the last sighting. */
  ghost function SeenUpTo(log: seq<Sighting>): (m: nat)
    ensures m <= |log| && (m > 0 ==> log[m - 1].seen.Some?)
    ensures forall k :: m <= k < |log| ==> log[k].seen.None?
  {
    if log == [] then 0
    else if log[|log| - 1].seen.Some? then |log|
    else SeenUpTo(log[..|log| - 1])
  }

  /** The last detection seen, and when. */
  ghost function LastSeen(birth: Detection, born: real, log: seq<Sighting>): (Detection, real) {
    var m := SeenUpTo(log);
    if m == 0 then (birth, born) else (log[m - 1].seen.value, log[m - 1].now)
  }

  /** Everything a track shows is what its log tells. */
  ghost predicate Tells<K>(mo: Motion<K>, id: nat, birth: Detection, born: real, log: seq<Sighting>, t: Track<K>) {
    var m, last := SeenUpTo(log), LastSeen(birth, born, log);
    && t.kf == Filtered(mo, birth.bbox, log)
    && t.obj.detection.bbox == (if log == [] then birth.bbox else mo.box(t.kf))
    && t.obj.velocityX == (if m == 0 then 0.0 else mo.vx(Filtered(mo, birth.bbox, log[..m])))
    && t.obj.velocityY == (if m == 0 then 0.0 else mo.vy(Filtered(mo, birth.bbox, log[..m])))
    && t.obj.detection.classId == last.0.classId == birth.classId
    && t.obj.detection.confidence == last.0.confidence
    && t.obj.firstSeen == born && t.obj.lastSeen == last.1
    && t.obj.trackId == id && t.obj.age == |log| + 1 && t.obj.framesSinceSeen == |log| - m
  }

  /** Entry k of the log belongs to this input: its step and moment, and a detection of the frame
      that overlaps the box predicted from the log so far by more than the threshold. */
  ghost predicate Logged<K>(cfg: Config, mo: Motion<K>, birth: Detection, log: seq<Sighting>, k: nat, input: Input)
    requires k < |log|
  {
    && input.Frames? && log[k].dt == input.dt && log[k].now == input.now
    && (log[k].seen.Some? ==>
          && log[k].seen.value in input.dets && log[k].seen.value.classId == birth.classId
          && ComputeIou(log[k].seen.value.bbox, mo.box(mo.predict(Filtered(mo, birth.bbox, log[..k]), input.dt)))
             > cfg.iouThreshold)
  }

  lemma LogSnoc<K>(mo: Motion<K>, birth: Detection, born: real, log: seq<Sighting>, e: Sighting)
    ensures var log' := log + [e];
            && Filtered(mo, birth.bbox, log') ==
                 (var p := mo.predict(Filtered(mo, birth.bbox, log), e.dt);
                  if e.seen.Some? then mo.correct(p, e.seen.value.bbox) else p)
            && SeenUpTo(log') == (if e.seen.Some? then |log| + 1 else SeenUpTo(log))
            && LastSeen(birth, born, log') ==
                 (if e.seen.Some? then (e.seen.value, e.now) else LastSeen(birth, born, log))
            && log'[..SeenUpTo(log)] == log[..SeenUpTo(log)] && log'[..|log|] == log
  {
    assert (log + [e])[..|log|] == log;
  }

  /** A track not seen in a frame is told by the log with an empty entry. */
  lemma CoastTells<K>(mo: Motion<K>, id: nat, birth: Detection, born: real, log: seq<Sighting>, t: Track<K>,
                      e: Sighting)
    requires Tells(mo, id, birth, born, log, t) && e.seen.None?
    ensures Tells(mo, id, birth, born, log + [e], Coast(mo, t, e.dt))
  {
    hide Filtered, SeenUpTo, LastSeen;
    LogSnoc(mo, birth, born, log, e);
  }

  /** A track seen in a frame is told by the log with that sighting. */
  lemma RefreshTells<K>(mo: Motion<K>, id: nat, birth: Detection, born: real, log: seq<Sighting>, t: Track<K>,
                        e: Sighting)
    requires Tells(mo, id, birth, born, log, t) && e.seen.Some? && e.seen.value.classId == birth.classId
    ensures Tells(mo, id, birth, born, log + [e], Refresh(mo, Coast(mo, t, e.dt), e.seen.value, e.now))
  {
    hide Filtered, SeenUpTo, LastSeen;
    LogSnoc(mo, birth, born, log, e);
    assert (log + [e])[..|log| + 1] == log + [e];
  }

  lemma SpawnTells<K>(mo: Motion<K>, id: nat, d: Detection, now: real)
    ensures Tells(mo, id, d, now, [], Spawn(mo, id, d, now))
  {
  }

  /** One more frame of a track that lives on. */
  lemma StepLogs<K(!new)>(cfg: Config, mo: Motion<K>, s: TrackerState<K>, input: Input, s': TrackerState<K>, id: nat,
                          birth: Detection, born: real, log: seq<Sighting>) returns (e: Sighting)
    requires Step(cfg, mo, s, input, s') && Coherent(cfg, s.tracks, s.nextId)
    requires id in s.tracks && id in s'.tracks && Tells(mo, id, birth, born, log, s.tracks[id])
    ensures Logged(cfg, mo, birth, log + [e], |log|, input)
    ensures Tells(mo, id, birth, born, log + [e], s'.tracks[id])
  {
    hide Solved, ComputeIou, Tells, Filtered, Coast, Refresh;
    var ids, a, mid :|
      Frame(cfg, mo, s.tracks, s.nextId, input.dets, input.dt, input.now, ids, a, mid, s'.tracks, s'.nextId);
    var coasted := Coasted(mo, s.tracks, input.dt);
    AbsorbedCases(mo, coasted, s.nextId, ids, a, input.dets, input.now, mid, id);
    if k :| 0 <= k < |a| && a[k] >= 0 && ids[a[k]] == id
            && mid[id] == Refresh(mo, coasted[id], input.dets[k], input.now) {
      e := Sighting(input.dt, input.now, Some(input.dets[k]));
      assert Gate(cfg.iouThreshold, input.dets[k], coasted[id].obj.detection);
      PredictedBox(mo, id, birth, born, log, s.tracks[id], input.dt);
      RefreshTells(mo, id, birth, born, log, s.tracks[id], e);
    } else {
      e := Sighting(input.dt, input.now, None);
      CoastTells(mo, id, birth, born, log, s.tracks[id], e);
    }
    assert (log + [e])[..|log|] == log;
  }

  /** What a detection is compared with. */
  lemma PredictedBox<K>(mo: Motion<K>, id: nat, birth: Detection, born: real, log: seq<Sighting>, t: Track<K>, dt: real)
    requires Tells(mo, id, birth, born, log, t)
    ensures Coast(mo, t, dt).obj.detection.classId == birth.classId
    ensures Coast(mo, t, dt).obj.detection.bbox == mo.box(mo.predict(Filtered(mo, birth.bbox, log), dt))
  {
  }

  /** The first frame of a track. */
  lemma BirthLogs<K(!new)>(cfg: Config, mo: Motion<K>, s: TrackerState<K>, input: Input, s': TrackerState<K>, id: nat)
    returns (birth: Detection)
    requires Step(cfg, mo, s, input, s') && Coherent(cfg, s.tracks, s.nextId)
    requires id !in s.tracks && id in s'.tracks
    ensures input.Frames? && birth in input.dets && Tells(mo, id, birth, input.now, [], s'.tracks[id])
  {
    hide Solved, ComputeIou, Tells, Spawn;
    var ids, a, mid :|
      Frame(cfg, mo, s.tracks, s.nextId, input.dets, input.dt, input.now, ids, a, mid, s'.tracks, s'.nextId);
    AbsorbedCases(mo, Coasted(mo, s.tracks, input.dt), s.nextId, ids, a, input.dets, input.now, mid, id);
    var k :| 0 <= k < |a| && a[k] < 0 && id == BirthId(s.nextId, a, k)
             && mid[id] == Spawn(mo, id, input.dets[k], input.now);
    birth := input.dets[k];
    SpawnTells(mo, id, birth, input.now);
  }

  /** The log has one entry per frame. */
  ghost predicate LogOf<K>(cfg: Config, mo: Motion<K>, birth: Detection, log: seq<Sighting>, frames: seq<Input>) {
    |log| == |frames| && forall j :: 0 <= j < |frames| ==> Logged(cfg, mo, birth, log, j, frames[j])
  }

  lemma LogExtends<K>(cfg: Config, mo: Motion<K>, birth: Detection, log: seq<Sighting>, frames: seq<Input>,
                      e: Sighting, input: Input)
    requires LogOf(cfg, mo, birth, log, frames) && Logged(cfg, mo, birth, log + [e], |log|, input)
    ensures LogOf(cfg, mo, birth, log + [e], frames + [input])
  {
    forall j | 0 <= j < |frames + [input]|
      ensures Logged(cfg, mo, birth, log + [e], j, (frames + [input])[j])
    {
      if j < |frames| {
        assert Logged(cfg, mo, birth, log, j, frames[j]);
        assert (log + [e])[..j] == log[..j];
      }
    }
  }

  /** On every run: whatever a living track shows is told by the detection that started it and one
      log entry per frame since. */
  lemma {:induction false} TrackTellsItsLog<K(!new)>(cfg: Config, mo: Motion<K>, states: seq<TrackerState<K>>,
                                                     inputs: seq<Input>, i: nat, k: nat, id: nat)
    returns (birth: Detection, log: seq<Sighting>)
    requires Run(cfg, mo, states, inputs) && LivesFrom(states, i, k, id)
    ensures inputs[i].Frames? && birth in inputs[i].dets && LogOf(cfg, mo, birth, log, inputs[i + 1..k])
    ensures Tells(mo, id, birth, inputs[i].now, log, states[k].tracks[id])
    decreases k
  {
    hide Step, Coherent, Tells, Logged;
    RunIsCoherent(cfg, mo, states, inputs, k - 1, k - 1);
    if k == i + 1 {
      birth := BirthLogs(cfg, mo, states[i], inputs[i], states[k], id);
      log := [];
    } else {
      birth, log := TrackTellsItsLog(cfg, mo, states, inputs, i, k - 1, id);
      var e := StepLogs(cfg, mo, states[k - 1], inputs[k - 1], states[k], id, birth, inputs[i].now, log);
      LogExtends(cfg, mo, birth, log, inputs[i + 1..k - 1], e, inputs[k - 1]);
      assert inputs[i + 1..k - 1] + [inputs[k - 1]] == inputs[i + 1..k];
      log := log + [e];
    }
  }
}
