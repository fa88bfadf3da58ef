# Semáforo: a verified model of the edge controller, its tracker and its route planner

The model covers the parts of the traffic-signal system in which a wrong step is hard to see:

- **Assignment and tracking** (`Permutations`, `Products`, `Assignment`, `Hungarian`, `Padding`, `Blocks`, `Association`,
  `AssociationBound`, `Tracker`, `TrackerRuns`, `TrackerLog`, `TrackerConfirmation`, `Pool`, `Geometry`). The Kuhn-Munkres solver rewrites
  its potentials, slacks, matching and parent links in place, one column at a time, and is proved to leave a cheapest
  permutation with a certificate. On top of it, one tracker frame is proved to associate as many detections as possible and,
  among those associations, the one of greatest overlap, exactly while the padding cost outweighs all the pairs; whole runs
  keep identities, and what a track shows is told by its filter, predicted once a frame and corrected with each match.
- **The safety interlock** (`Interlock`, `SafetyLayer`, `SafetyRuns`, `SafetyAmber`, `SafetyService`, `SafetyDemand`). `Interlock` gives the
  transition function on values; the class `SafetyLayer` is the field-updating object and carries the run it has been
  through, so every theorem about runs holds of the object. Durations are `Fin | NaN | PosInf | NegInf` compared as C++
  floats are.
- **The control loop** (`Commands`, `CommandGuard`, `Selection`, `CommandQueue`, `DirectiveLatch`, `ControlLoop`). Every
  block of a tick is one method; each keeps the agreement between the emergency flag and the three fault sources.
- **Shortest paths** (`RoadGraph`, `ShortestPath`): Dijkstra with a lazily cleaned heap and an early exit.
- **Perception kernels** (`Nms`, `Polygon`, `ConvexPolygon`, `Decoder`, `Resize`) and **reward shaping** (`NightMode`).

`Wrappers` and `Numbers` hold the option type, reals with an infinity, the 64-bit constants and clipping.

Conventions. Floats are `real`. A `std::vector`, `dict` or `list` that the source rewrites is a `seq`, `map` or `multiset`
that the methods reassign; the scratch vectors of the tracker live in a solver object of their own. Times, frames, commands
and policy answers are inputs. The Kalman filter is an arbitrary motion model whose boxes have positive size, as a root and a quotient have.
`std::sort` is a sorted permutation, `heapq` a multiset with extract-min, `unordered_map` iteration any order. The
greatest double that the solver starts its slacks from is an explicit infinity, so costs may be any reals. The parser's
64-bit subtraction is taken to wrap around; in C++ its overflow is undefined, so beyond the range that is what a usual
compiler does, not what the language promises.

Where code and comments differ, the model follows the code:

- The interlock's header (`edge/include/semaforo/safety_layer.hpp:60-63`) says max-green forces the *opposing* green. The
  code goes to the requested green when it differs from the shown one, also on the same axis:
  `MaxGreenSwitchesAxisExactly` gives the condition, `MaxGreenStaysOnAxis` an input, and `ChangingRequestsCanStarve` runs
  under any sane schedules that keep beginning greens for as long as wanted and never show one to the East-West axis.
- The header (lines 50-53) promises amber and clearance between any two different greens. That fails in three ways. An
  emergency toggle, a reset and the escalation of an untrusted max-green or ring green go from green straight to ALL_RED
  (`EmergencySkipsAmber`, `EscalationSkipsAmber`); a toggle, a reset or the escalation of an untrusted amber cuts the amber
  short (`EscalationCutsAmber`); and an escalation may put FLASH between clearance and green (`FlashFallsBetween`).
  `LitGreenEndsInAmberExactly` says of every run when a green gives way to its amber, and `ConflictClearanceExactly` that on
  every run the promise holds between a green and the next one exactly when none of the three happens. Clearance right
  before a green holds on all runs (`GreensAreSeparated`).
- `edge/src/safety_layer.cpp:36-39` counts a negative schedule among those whose timer can never fire. In the ring it fires
  at once; in normal operation the corruption guard is asked before the timer, so a negative schedule can still escalate:
  `FlashExactlyForCorruption`, `NegativeClearanceEscalates`.
- `edge/include/semaforo/tracker.hpp:97` speaks of detections before confirmation; the code counts frames of age.
  `CountingExactly` gives the configurations under which the two agree on every run (a `max_age` of at most 0, a `min_hits`
  of at most 1, or a threshold no overlap reaches with `min_hits` above `max_age` + 1), `ThreeFramesConfirm` a run in which
  one detection and two empty frames confirm a track under the default configuration.
- `total_tracks_created` is documented as counting since the last reset (`edge/include/semaforo/tracker.hpp:159`); `reset`
  keeps the counter, so it does exactly if no frame before the reset had a detection (`CounterZeroExactly`). This is also
  why ids are never reused across resets.
- The comment on the padding cost (`edge/src/tracker.cpp:19-21`) argues from a single pair. What has to hold is that one
  infeasible cell outweighs n pairs: `AssociationSoundExactly` gives the bound on size and threshold, and beyond it
  `ChainDefeats` a chain of boxes of which every cheapest permutation leaves out a pair.
- `edge/src/main.cpp:147-150` speaks of a five second time to live; the constant is 4000 ms. The time is a parameter here.

## Model
| member | source | states |
|---|---|---|
| Hungarian.AssignmentSolver.SolveAssignment | edge/src/tracker.cpp:161-218 | for every n and every real cost matrix the result is a permutation no dearer than any other, with potentials below every cost, equal on the chosen pairs, and the negated source potential as the total |
| Hungarian.AssignmentSolver.PlaceRow | edge/src/tracker.cpp:173-212 | one outer iteration matches exactly one more row, keeps rows already placed, and keeps duals feasible, matched pairs tight and the potentials balanced |
| Hungarian.AssignmentSolver.Pass | edge/src/tracker.cpp:178-206 | one do-while pass uses one new column and ends with an unused column hanging from the tree by a tight edge |
| Hungarian.AssignmentSolver.Relax | edge/src/tracker.cpp:179-196 | every unused column ends up with the least reduced cost over all used rows and a parent attaining it; the chosen column has the least of these |
| Hungarian.AssignmentSolver.Shift | edge/src/tracker.cpp:197-204 | exactly the rows and columns of the tree move by the step, exactly the other slacks shrink by it, and the sum of all potentials stays |
| Hungarian.AssignmentSolver.Augment | edge/src/tracker.cpp:207-211 | the walk back along the parent links reaches column 0 and leaves a tight matching with one more row |
| Hungarian.ShiftKeepsFeasible | edge/src/tracker.cpp:197-204 | moving the potentials by the least slack keeps them below every cost, also for the row being placed |
| Hungarian.ShiftReachesFrontier | edge/src/tracker.cpp:178-206 | after a shift the selected column is tight to the tree and every slack is again a least slack |
| Hungarian.SomeColumnUnused | edge/src/tracker.cpp:183-206 | while the row is unplaced an unused column exists (pigeonhole over the distinct rows) |
| Hungarian.AugmentStep | edge/src/tracker.cpp:207-211 | moving one row along the path moves the hole in the matching and keeps it a tight bijection |
| Hungarian.AllColumnsMatched | edge/src/tracker.cpp:214-217 | once n rows are placed every real column carries a row |
| Hungarian.CompleteIsOptimal | edge/src/tracker.cpp:214-217 | the read-off result is an optimal permutation |
| Assignment.DualBelow | edge/src/tracker.cpp:161-218 | weak duality: feasible potentials sum to at most the cost of any permutation |
| Assignment.Optimal | edge/src/tracker.cpp:161-218 | feasible, tight and balanced potentials certify a cheapest permutation and its cost |
| Assignment.RowsUpdate | edge/src/tracker.cpp:264 | writing one cell of the row-major buffer changes that matrix cell and no other |
| Permutations.SumAlongPermutation | edge/src/tracker.cpp:161-218 | summing along a permutation of the indices gives the plain sum |
| Padding.CheapestIsLexicographic | edge/src/tracker.cpp:19-22 | as long as n real pairs cost no more than one infeasible cell, the real pairs of a cheapest permutation of the padded matrix are as many as possible and then of greatest total score |
| Padding.CheapestIsMaximal | edge/src/tracker.cpp:19-22 | at any size, a cheapest permutation leaves no feasible pair of a free row and a free column |
| Blocks.MaximalIsLargest | edge/src/tracker.cpp:261 | where only the classes decide, a matching that leaves no such pair has as many pairs as any |
| AssociationBound.AssociationSoundExactly | edge/src/tracker.cpp:19-22 | what a frame associates is always the best exactly when n times (1 - threshold) is at most a million or the threshold is negative; otherwise there are n tracks and n detections for which it never is, whichever cheapest permutation is found |
| AssociationBound.ChainDefeats | edge/src/tracker.cpp:252-279 | beyond that bound, of n unit boxes in a chain, each overlapping its neighbours a little more than the threshold, all n could be paired, and every cheapest permutation pairs exactly n - 1 |
| AssociationBound.ChainFrameMisses | edge/src/tracker.cpp:252-305 | a frame over such a chain pairs n - 1 tracks and starts a new one |
| Padding.Complete | edge/src/tracker.cpp:256-257 | every partial assignment extends to a permutation of the padded square |
| Association.SolvedIsBest | edge/src/tracker.cpp:252-279 | within that bound and for any boxes, solving the padded, gated matrix gives an association with the most pairs and then the greatest total overlap |
| Association.MatchedAssociates | edge/src/tracker.cpp:274-279 | the pairs treated as matched are one-to-one, same-class and above the threshold, whatever the boxes |
| Geometry.IouIsAFraction | edge/src/tracker.cpp:149-159 | any two boxes, negative sizes included, have an overlap ratio between 0 and 1 |
| Geometry.IouSymmetric | edge/src/detector.cpp:131-141 | the overlap ratio does not depend on the order of the boxes |
| Geometry.IntersectionIsCommonPart | edge/src/tracker.cpp:149-156 | for sized boxes that touch there is a box of exactly the points of both, and the intersection area is its area |
| Geometry.AreaExactlyWhenOpen | edge/src/tracker.cpp:149-156 | the intersection area is positive exactly when an open rectangle lies in both boxes |
| Geometry.IouPositiveExactly | edge/src/tracker.cpp:149-159 | so is the overlap ratio of boxes of positive size |
| Geometry.IouIsTheRatio | edge/src/tracker.cpp:156-158 | the ratio times the area of the union is the intersection area, and it is 0 without a union |
| Geometry.IouTranslates | edge/src/detector.cpp:131-141 | moving both boxes changes neither the intersection nor the ratio |
| Geometry.IouTransposes | edge/src/detector.cpp:131-141 | nor does exchanging the axes |
| Tracker.VehicleTracker.Update | edge/src/tracker.cpp:229-328 | one frame: best association, each matched track refreshed, each unmatched detection given the next id, every other track coasting, the overdue ones gone, confirmed tracks emitted; the run grows by this frame |
| Tracker.VehicleTracker.Predict | edge/src/tracker.cpp:239-247 | every track coasts one step and the ids are listed once each |
| Tracker.VehicleTracker.BuildCosts | edge/src/tracker.cpp:256-267 | the buffer holds one minus overlap for gated pairs and the padding cost elsewhere |
| Tracker.VehicleTracker.Associate | edge/src/tracker.cpp:252-279 | the association is gated, one-to-one and read off a cheapest permutation of the padded matrix, and the best one within the bound |
| Tracker.VehicleTracker.Absorb | edge/src/tracker.cpp:273-306 | each detection refreshes exactly its track or starts exactly one, and no other track is touched |
| Tracker.VehicleTracker.Prune | edge/src/tracker.cpp:308-316 | exactly the tracks unseen for at most the maximum stay |
| Tracker.VehicleTracker.Emit | edge/src/tracker.cpp:318-327 | distinct confirmed tracks, all of them unless the pool fills |
| Tracker.VehicleTracker.Reset | edge/src/tracker.cpp:335-337 | forgets the tracks and keeps the id counter |
| Tracker.AbsorbedCases | edge/src/tracker.cpp:273-306 | every track after absorption is a coasted one, a refreshed one or the newborn of one detection |
| TrackerRuns.OwnersDistinct | edge/src/tracker.cpp:273-306 | distinct detections end up in distinct tracks, each seen in this frame |
| TrackerRuns.GrowthBeforePruning | edge/src/tracker.cpp:291-305 | before pruning the tracks grow by exactly the unmatched detections, and so does the id counter |
| TrackerRuns.RunIsCoherent | edge/src/tracker.cpp:229-328 | on every run ids are at most the counter, no track is unseen for longer than the maximum, and the counter never falls |
| TrackerRuns.IdsNeverReused | edge/src/tracker.cpp:292-304 | on every run, resets included, an id that left never comes back |
| TrackerRuns.CounterZeroExactly | edge/include/semaforo/tracker.hpp:159-161 | on every run, resets included, the counter is zero exactly until the first detection |
| TrackerRuns.IdentityPersists | edge/src/tracker.cpp:281-305 | while an id lives it keeps its birth time and class and ages one per frame |
| TrackerRuns.SurvivesOcclusion | edge/src/tracker.cpp:308-316 | an unseen track survives as long as its unseen frames stay within the maximum |
| TrackerRuns.ForgottenAfterMaxAge | edge/src/tracker.cpp:308-316 | a track that nothing matches counts its unseen frames one by one and cannot outlast the maximum |
| TrackerLog.TrackTellsItsLog | edge/src/tracker.cpp:239-305 | on every run each living track has a log, one entry per frame since its birth, such that its filter is the one started at the birth box, predicted once a frame and corrected with each box matched; its box and velocity read that filter, class and confidence are those last seen, and the times those of birth and of the last frame it was seen in |
| TrackerConfirmation.AgeIsSeenPlusMissed | edge/src/tracker.cpp:239-306 | on every run the age of a track is the number of frames since its birth, those it was seen in plus those it was not |
| TrackerConfirmation.ConfirmedFromBirth | edge/src/tracker.cpp:318-327 | an id started in frame i and still there k frames on is k frames old and confirmed exactly if k is at least min_hits |
| TrackerConfirmation.ConfirmedByFrames | edge/src/tracker.cpp:320 | a track is confirmed exactly from frame min_hits of its life on, which is never later than counting its detections would, and earlier while it was seen fewer times than that |
| TrackerConfirmation.OneDetectionConfirms | edge/src/tracker.cpp:308-327 | one detection and n frames without any, n at most max_age, confirm a track exactly when min_hits is at most n + 1 |
| TrackerConfirmation.ThreeFramesConfirm | edge/include/semaforo/tracker.hpp:95-97 | under the default configuration one detection and two empty frames confirm a track |
| TrackerConfirmation.CountingExactly | edge/include/semaforo/tracker.hpp:97 | for any motion model, confirmation agrees with counting detections on every run exactly when max_age is at most 0, min_hits at most 1, or the threshold at least 1 and min_hits above max_age + 1 |
| TrackerConfirmation.MissedTrackConfirmsEarly | edge/src/tracker.cpp:320 | under any other configuration there is a run that confirms a track with fewer detections |
| TrackerConfirmation.LifeIsRun | edge/src/tracker.cpp:229-328 | one detection, q empty frames and then detections of just the predicted box are a run of one track, matched every time |
| Pool.ObjectPool.Acquire | edge/include/semaforo/object_pool.hpp:75-81 | the pool grows by the slot until its capacity and then refuses |
| Safety.SafetyLayer.Validate | edge/src/safety_layer.cpp:202-211 | one poll is one step of the transition function, appended to the object's run |
| Safety.SafetyLayer.StepNormal | edge/src/safety_layer.cpp:293-408 | the normal branch computes the transition function |
| Safety.SafetyLayer.StepEmergency | edge/src/safety_layer.cpp:412-467 | the ring branch computes the transition function, its three watchdog legs included |
| Safety.SafetyLayer.StepFlash | edge/src/safety_layer.cpp:482-518 | the clearance and FLASH branch computes the transition function |
| Safety.SafetyLayer.SetEmergencyMode | edge/src/safety_layer.cpp:217-246 | the toggle is one step of the run; ignored once escalated |
| Safety.SafetyLayer.Reset | edge/src/safety_layer.cpp:255-265 | reset is one step of the run |
| Interlock.RunIsSound | edge/src/safety_layer.cpp:202-518 | on every run the state fits the display: greens in GREEN, the ring entry in EMERGENCY, the configured pattern in FLASH, and the emergency flag fits the state |
| Interlock.PollKeepsEmergency | edge/src/safety_layer.cpp:202-211 | polling never moves the emergency flag nor leaves the path to FLASH |
| SafetyRuns.ClearanceBeforeGreen | edge/src/safety_layer.cpp:362-388 | a green begins only after ALL_RED has been shown without a break for the configured clearance |
| SafetyRuns.GreensAreSeparated | edge/src/safety_layer.cpp:202-467 | on every run, toggles and resets included, two separate greens have a full clearance right before the second |
| SafetyAmber.GreenEndsInAmberExactly | edge/src/safety_layer.cpp:202-467 | an event that takes a green off the heads shows its amber exactly if it is a poll that ends the ring's green in time, or outside the ring one that does not find an untrusted max-green past 60 s, and ALL_RED otherwise |
| SafetyAmber.LitGreenEndsInAmberExactly | edge/src/safety_layer.cpp:202-467 | the same of every run, from the event, the emergency mode last asked for and the time since the green was lit |
| SafetyAmber.ConflictClearanceExactly | edge/include/semaforo/safety_layer.hpp:50-53 | on every run, amber and clearance for their times lie between a green and the next one exactly when the green ended that way, no reset, toggle or escalation put the amber out before its time, and FLASH was not shown in between |
| SafetyAmber.SaneConflictClearance | edge/include/semaforo/safety_layer.hpp:50-53 | with sane amber and clearance, or without a reset in between, events and times alone decide that |
| SafetyAmber.EmergencySkipsAmber | edge/src/safety_layer.cpp:217-246 | under any trusted clearance an emergency leads from the East-West green through ALL_RED alone to the North-South green |
| SafetyAmber.EscalationSkipsAmber | edge/src/safety_layer.cpp:298-308 | under an untrusted max-green an escalation and a reset do the same |
| SafetyAmber.EscalationCutsAmber | edge/src/safety_layer.cpp:334-345 | under a stuck amber schedule a poll ends the amber after four seconds and a reset leads to another green, with the green ended properly and no toggle or reset during the amber |
| SafetyAmber.FlashFallsBetween | edge/src/safety_layer.cpp:362-372 | under a clearance of minus one a full amber is followed by ALL_RED, FLASH, a reset and another green |
| SafetyAmber.AmberThenClearance | edge/src/safety_layer.cpp:293-392 | while only polled, a green that leads to another one was served, gives way to its own amber for its time, then ALL_RED for its time, then a green |
| SafetyAmber.DestinationIsLocked | edge/src/safety_layer.cpp:348-388 | while only polled, requests after the amber has begun do not change which green follows, short of an escalation |
| SafetyRuns.StampIsAMoment | edge/src/safety_layer.cpp:175-177 | the phase start is a moment of the run since which the display has not changed |
| SafetyRuns.NothingFreezes | edge/src/safety_layer.cpp:293-518 | for any timings, corrupt ones included, and polling gaps of at most d, every timed display is younger than 60 s plus d |
| SafetyRuns.NoLampOutlivesCeiling | edge/src/safety_layer.cpp:293-467 | the same counted from the moment a green or amber was lit |
| SafetyRuns.OnlyResetLeavesFlash | edge/src/safety_layer.cpp:202-225 | once escalated, no poll or toggle leads out, and FLASH itself never changes |
| SafetyRuns.SaneRunNeverFlashes | edge/src/safety_layer.cpp:120-123 | with sane timings no run ever escalates |
| SafetyRuns.DefaultTimingsAreSane | edge/include/semaforo/safety_layer.hpp:91-104 | the default timings are sane |
| SafetyRuns.CorruptRunCanEscalate | edge/src/safety_layer.cpp:298-372 | each kind of corruption has a run that escalates |
| SafetyRuns.FlashExactlyForCorruption | edge/src/safety_layer.cpp:120-123 | escalation is reachable exactly when max-green, yellow or all-red is untrusted or the ring green is NaN, plus infinity or finite above 60 s |
| SafetyRuns.NegativeClearanceEscalates | edge/src/safety_layer.cpp:367-372 | an idle boot with all_red = -1 escalates after eight seconds |
| SafetyService.RingAdvances | edge/src/safety_layer.cpp:421-426 | with trusted schedules the ring moves to its next entry within that entry's time plus one polling gap |
| SafetyService.RingReaches | edge/src/safety_layer.cpp:421-426 | m entries further on are reached within the sum of their times plus m polling gaps |
| SafetyService.BothApproachesServed | edge/src/safety_layer.cpp:23-31 | every emergency window longer than a lap plus six polling gaps begins both greens, whatever is requested |
| SafetyService.RingLeaves | edge/src/safety_layer.cpp:427-459 | any ring entry is left within 60 s plus a polling gap, and a stuck entry by escalation |
| SafetyService.StuckRingEndsInFlash | edge/src/safety_layer.cpp:427-518 | an emergency left on over a stuck schedule, polled at least every 52 s, shows the configured FLASH pattern in bounded time |
| SafetyService.SoundRingNeverFlashes | edge/src/safety_layer.cpp:412-467 | a ring whose schedules are trusted or negative never escalates |
| SafetyService.CycleMoves | edge/src/safety_layer.cpp:293-392 | with trusted schedules and whatever is requested, a green, an amber or a committed clearance gives way to the next state within its time plus one polling gap |
| SafetyService.GreenToGreen | edge/src/safety_layer.cpp:293-392 | whatever is requested, another green begins within max-green, amber, clearance and three polling gaps: the one headed for when the amber began |
| SafetyService.AnotherGreenBegins | edge/src/safety_layer.cpp:293-392 | from any normal state with a green asked for, every long enough window begins a green, whatever is requested |
| SafetyService.OppositeAxisServed | edge/src/safety_layer.cpp:310-324 | under a constant green request the green of the other axis begins within a stated bound, from any normal state |
| SafetyService.MaxGreenSwitchesAxisExactly | edge/src/safety_layer.cpp:316-324 | whenever max-green ends a green, negative ones included, the switch changes axis exactly when the request is not another green of the same axis |
| SafetyService.MaxGreenStaysOnAxis | edge/src/safety_layer.cpp:316-324 | at max-green the through green gives way to the left turn of its own axis if that is requested |
| SafetyService.ChangingRequestsStarve | edge/src/safety_layer.cpp:316-324 | requests that keep changing within one axis keep every green on that axis |
| SafetyService.ChangingRequestsCanStarve | edge/src/safety_layer.cpp:316-324 | under any sane schedules, polled as finely as wanted, there are runs beyond any time that begin a north-south green in every window of bounded length and never show an east-west green |
| SafetyService.IdleClearanceLasts | edge/src/safety_layer.cpp:374-391 | with a trusted clearance the boot ALL_RED stays unchanged until a green is requested |
| SafetyDemand.GreenGivesWayExactly | edge/src/safety_layer.cpp:310-331 | on every run, outside emergency and before the corruption guard fires, a poll takes a green off the heads exactly when it has been lit for max-green, or for min-green with another green asked for; the amber of its own axis is then shown, else the green stays |
| SafetyDemand.RequestIsServed | edge/src/safety_layer.cpp:310-391 | the green asked for at that poll (at max-green with no other green asked for: the through green of the other axis) begins within amber, clearance and two polling gaps, whatever is requested later |
| SafetyDemand.RequestServedInTime | edge/src/safety_layer.cpp:310-391 | a green asked for throughout begins within the rest of min-green, amber, clearance and three polling gaps |
| SafetyDemand.FirstGreenExactly | edge/src/safety_layer.cpp:240-265 | after the boot, a reset or an emergency the first green begins exactly at the first poll at which the clearance has lasted and a green has been asked for, and is the first one asked for since |
| SafetyDemand.EscalatesExactly | edge/src/safety_layer.cpp:298-459 | a poll escalates exactly when the schedule of the display is untrusted, the display is 4 s (amber), 8 s (ALL_RED, ring green) or 60 s (green) old, and in the ring its timer has not fired |
| SafetyDemand.FlashBeginsExactly | edge/src/safety_layer.cpp:482-518 | FLASH begins exactly at the poll that finds the configured all-red over, or two seconds if that is no positive time of at most a minute, and shows the pattern of the major approach |
| SafetyDemand.FallbackCycles | edge/src/safety_layer.cpp:23-31 | on every run the fallback shows ALL_RED, NS green, NS amber, ALL_RED, EW green, EW amber and again, from the entry on, in this order and none left out |
| SafetyDemand.RingMovesExactly | edge/src/safety_layer.cpp:412-426 | on every run a poll changes the display of the fallback exactly when it has been on for its own schedule, and escalates only before that |
| Commands.ActionableExactlyWhenFresh | edge/include/semaforo/command_parser.hpp:138-288 | for every 64-bit clock and timestamp a payload is actionable exactly when complete and with its age, congruent to the true one modulo 2^64 and in the signed range, in the window, and carries the phase it names and its number |
| Commands.FirstFaultIsNamed | edge/include/semaforo/command_parser.hpp:142-251 | each status is given exactly for the first fault on the way from the size (at most 8192 bytes) over shape, action and phase to sequence number and timestamp |
| Commands.NamesRoundTrip | edge/include/semaforo/command_parser.hpp:124-133 | a phase is parsed from a string exactly if it is the name the edge reports for it, flash patterns excepted |
| Commands.NameSpells | edge/src/policy_engine.cpp:18-32 | the reported name spells the colour, the axis and the turn of its phase |
| Commands.TrueAgeExactly | edge/include/semaforo/command_parser.hpp:253-270 | for any 64-bit limits wrapping changes no verdict exactly at clocks at least max-age above the least and more than the skew below the greatest 64-bit number, or when the limits admit no age |
| Guard.CommandGuard.OnCommand | edge/include/semaforo/command_parser.hpp:334-355 | the decision is the one the event history owes, and the counters stay those of the history |
| Guard.CommandGuard.CheckSilence | edge/include/semaforo/command_parser.hpp:360-371 | the same for the periodic silence check |
| Guard.CommandGuard.Arm | edge/include/semaforo/command_parser.hpp:402-404 | arming counts as being heard and decides nothing |
| Guard.CommandGuard.AcceptSequence | edge/include/semaforo/command_parser.hpp:384-392 | accepts exactly the strictly newer sequence numbers and remembers them |
| Guard.DecisionsAlternate | edge/include/semaforo/command_parser.hpp:316-318 | decisions alternate, starting with ENTER |
| Guard.ExitExactly | edge/include/semaforo/command_parser.hpp:334-344 | EXIT is decided exactly when a valid command completes an unbroken run of at least the recovery streak of valid commands since the last ENTER |
| Guard.EnterExactly | edge/include/semaforo/command_parser.hpp:345-371 | ENTER is decided exactly, outside the fallback, when a reject completes an unbroken run of rejects of threshold length, or a check finds the timeout exceeded since the guard last heard a valid command or was armed |
| Handoff.CommandQueue.Push | edge/include/semaforo/command_queue.hpp:45-52 | appends the newest and, when full, drops the oldest |
| Handoff.CommandQueue.TryPop | edge/include/semaforo/command_queue.hpp:57-63 | takes the oldest pending command, if any |
| Handoff.Conservation | edge/include/semaforo/command_queue.hpp:45-63 | pushed is popped plus dropped plus pending, and popped is a subsequence of pushed |
| Latch.DirectiveLatch.Get | edge/include/semaforo/command_latch.hpp:50-54 | answers the most recent directive exactly while it is younger than its time to live |
| Latch.DirectiveLatch.Update | edge/include/semaforo/command_latch.hpp:41-45 | the new directive becomes the most recent one |
| Control.HighestIsMaximum | edge/include/semaforo/command_parser.hpp:384-392 | the last applied number is the greatest among processed actionable commands, or -1 |
| Control.AppliedStrictlyIncrease | edge/src/main.cpp:261-272 | applied commands were processed, and their sequence numbers strictly increase, so none is applied twice |
| Control.AppliedExactly | edge/src/main.cpp:261-272 | the applied commands are exactly the actionable ones numbered above -1 and above every actionable one before them, in order |
| Control.ControlLoop.AgreementWhenSane | edge/src/main.cpp:133-373 | under sane timings the emergency flag is on exactly while camera, inference or Brain is at fault, at every moment between steps |
| Control.ControlLoop.DrainOne | edge/src/main.cpp:246-278 | one drained command keeps the flag agreement and the latch equal to the applied commands |
| Control.ControlLoop.Judge | edge/src/main.cpp:247-259 | following the guard's decision keeps: emergency on exactly while camera, inference or Brain is at fault |
| Control.ControlLoop.ExitFallbackIfSafe | edge/src/main.cpp:223-234 | releases the ring only while camera and inference are online |
| Control.ControlLoop.CheckSilence | edge/src/main.cpp:283-291 | the silence check keeps the agreement |
| Control.ControlLoop.ObserveCamera | edge/src/main.cpp:295-333 | the camera edge keeps the agreement and tracks the camera |
| Control.ControlLoop.ObserveInference | edge/src/main.cpp:342-373 | the inference edge keeps the agreement and tracks inference only while the camera is online |
| Control.ControlLoop.Decide | edge/src/main.cpp:386-416 | the request is the newest applied command while the Brain is trusted and the directive fresh, else the policy's; the interlock takes one step on it |
| Control.ControlLoop.RunTick | edge/src/main.cpp:236-425 | a whole tick, commands arriving at any step: everything queued by the end of the drain is processed or dropped, the guard hears of each processed command in order and then of the silence check, both edges are followed, one poll of the interlock on the owed request ends it, and every invariant is kept |
| TrafficNetworks.TrafficNetwork.ShortestPath | brain/src/coordination/graph_model.py:188-239 | fails exactly for unknown nodes or when every path takes infinite time; otherwise returns the nodes of a real path of the returned total, minimal over all paths, visiting no node twice |
| TrafficNetworks.TrafficNetwork.Search | brain/src/coordination/graph_model.py:211-227 | the main loop ends despite stale entries and no path beats the target's distance, early exit included |
| TrafficNetworks.TrafficNetwork.RelaxAll | brain/src/coordination/graph_model.py:222-227 | after a node is settled all roads out of settled nodes are relaxed and the heap still covers every reached node |
| TrafficNetworks.TrafficNetwork.Reconstruct | brain/src/coordination/graph_model.py:232-239 | following the predecessors ends and gives the nodes of the recorded route |
| TrafficNetworks.TrafficNetwork.AddRoad | brain/src/coordination/graph_model.py:132-171 | refuses unknown ends, otherwise appends to the source's list |
| TrafficNetworks.TrafficNetwork.AddIntersection | brain/src/coordination/graph_model.py:91-112 | adding a node again keeps its roads |
| RoadGraph.NoShorterPath | brain/src/coordination/graph_model.py:216-227 | no path is shorter than the recorded distance, or than the bound below which every node is settled |
| RoadGraph.RouteIsPath | brain/src/coordination/graph_model.py:223-227 | recorded predecessors spell real paths of the recorded time |
| RoadGraph.RouteIsSimple | brain/src/coordination/graph_model.py:232-238 | the predecessor chain is acyclic even with roads of length zero |
| RoadGraph.ImprovedIsUnsettled | brain/src/coordination/graph_model.py:223-227 | an improvement never reaches a settled node or the source |
| RoadGraph.SettledCovered | brain/src/coordination/graph_model.py:217-221 | a current least entry settles a node that was not settled before |
| RoadGraph.TravelTimeNonNegative | brain/src/coordination/graph_model.py:56-65 | a road takes no negative time exactly when its length is not negative or its speed limit not positive |
| RoadGraph.DistanceIsSpeedTimesTime | brain/src/coordination/graph_model.py:56-65 | on an open road speed times time is the length, in metres, km/h and seconds; a closed road takes for ever |
| RoadGraph.FasterIsSooner | brain/src/coordination/graph_model.py:56-65 | raising a speed limit never lengthens a road's time and strictly shortens that of a road of positive length |
| RoadGraph.FasterPathIsSooner | brain/src/coordination/graph_model.py:56-65 | the same along any path, strictly as soon as one road of positive length gets faster |
| RoadGraph.PathAtOneSpeed | brain/src/coordination/graph_model.py:56-65 | a path at one speed takes its whole length over that speed |
| RoadGraph.OpenExactly | brain/src/coordination/graph_model.py:56-65 | a path takes finite time exactly when all its roads are open |
| RoadGraph.DetourIsQuicker | brain/src/coordination/graph_model.py:56-65 | two roads of 500 m at 72 km/h take 50 s, one of 1000 m at 36 km/h takes 100 s |
| RoadGraph.NegativeLoopHasNoQuickest | brain/src/coordination/graph_model.py:188-239 | with a loop of negative time there are paths quicker than any bound, so no query could answer |
| RoadGraph.NegativeRoadMisleads | brain/src/coordination/graph_model.py:216-221 | with one road of negative time and no loop, a state of the search is given in which the target is the least entry although another path is quicker |
| Nms.Suppressor.ApplyNms | edge/src/detector.cpp:99-128 | the pool ends with the first results, up to its capacity, of the greedy choice on a sorted permutation of the input |
| Nms.GreedyExplained | edge/src/detector.cpp:110-127 | kept boxes are a sorted subsequence, two of one class overlap by at most the threshold, and every dropped box overlaps an earlier kept one of its class by more |
| Nms.GreedyIsUnique | edge/src/detector.cpp:110-127 | only one choice keeps exactly the boxes that no earlier kept box covers |
| Nms.GreedyIdempotent | edge/src/detector.cpp:110-127 | suppressing the result again changes nothing |
| Nms.ClassesAreIndependent | edge/src/detector.cpp:118-127 | classes never affect each other: what is kept of one class of the whole is what is kept of that class alone |
| Polygon.PointInPolygon | edge/src/queue_estimator.cpp:93-110 | the loop computes the parity of the crossed edges of the closed polygon |
| Polygon.OutsideBoxIsOutside | edge/src/queue_estimator.cpp:93-110 | no point outside the bounding box is inside; left of it by the even number of straddling edges |
| Polygon.StraddlesAroundEven | edge/src/queue_estimator.cpp:100 | a closed polygon straddles any height an even number of times |
| Polygon.RotationInvariant | edge/src/queue_estimator.cpp:99 | starting at another vertex does not change the answer |
| Polygon.ReversalInvariant | edge/src/queue_estimator.cpp:99 | reversing the vertices does not change the answer |
| Polygon.CrossesSymmetric | edge/src/queue_estimator.cpp:100-104 | an edge is crossed whichever end it is read from |
| Polygon.CrossingOnEdge | edge/src/queue_estimator.cpp:101-104 | the crossing the ray is compared with lies on the line of the edge |
| ConvexPolygon.CrossesBySide | edge/src/queue_estimator.cpp:100-104 | an edge is crossed exactly by points at its height, lower end included and upper end not, strictly on its left if it rises and on its right if it falls |
| ConvexPolygon.ConvexInside | edge/src/queue_estimator.cpp:93-110 | for every convex polygon, in either orientation, points strictly on the inner side of all edges are inside, and points strictly on the outer side of some edge are not |
| ConvexPolygon.VertexOnEdge | edge/src/queue_estimator.cpp:93-110 | a further vertex on an edge changes no answer |
| ConvexPolygon.TriangleHolds | edge/src/queue_estimator.cpp:93-110 | a triangle holds every point strictly on the inner side of its edges, such as (2.5, 1) in (0, 0), (4, 0), (0, 4) |
| Decoder.DecodeYoloOutput | edge/src/detector.cpp:306-395 | accepts exactly the well-shaped tensors that fit the buffer, and returns the confident vehicles by first-argmax class in anchor order |
| Decoder.DecodedIsFilter | edge/src/detector.cpp:360-393 | the output holds exactly the anchors whose first-argmax class is a confident vehicle, in order |
| Decoder.PassesExactly | edge/src/detector.cpp:363-378 | an anchor gives a detection exactly when its first class of greatest positive score is 2, 3, 5 or 7 and scores the threshold, and the detection carries that class and score |
| Decoder.ScoreInRow | edge/src/detector.cpp:358-368 | the score of class c at anchor i lies in row 4 + c, column i of the row-major buffer |
| Decoder.BoxIsScaled | edge/src/detector.cpp:355-390 | centre and size of the decoded box are those of the anchor, scaled from the model's input to the frame |
| Decoder.Argmax | edge/src/detector.cpp:363-372 | finds the first class of greatest positive score, or none |
| Decoder.IndexInRange | edge/src/detector.cpp:345-361 | every index read lies in the buffer |
| Decoder.ProductDoesNotWrap | edge/src/detector.cpp:334-352 | with bounded dimensions the 64-bit size product is the true product |
| Resize.BuildTable | edge/src/detector.cpp:66-76 | index plus weight is the clamped source coordinate, with the index inside the frame and the weight in [0, 1] |
| Resize.BlendWithin | edge/src/detector.cpp:281-290 | every blend of four neighbours lies in [0, 1] |
| Resize.CentresAlign | edge/src/detector.cpp:69 | the sampled coordinates lie src / dst apart and mirror each other, and an unscaled axis is sampled at its own pixels |
| Resize.SurfaceReproduced | edge/src/detector.cpp:262-293 | a tensor cell, found row by row in its plane, holds a 255th of every bilinear image at the clamped source coordinate; between four neighbours every image is bilinear |
| Resize.Preprocessor.Preprocess | edge/src/detector.cpp:242-293 | every cell of the tensor ends with its own blend, in [0, 1]; an unusable frame leaves the tensor alone |
| Resize.PlacesApart | edge/src/detector.cpp:288 | tensor places are in range and different cells have different places |
| NightMode.RewardBounded | brain/src/rewards/night_mode.py:48-88 | the reward is within [-1, 1] for every discount |
| NightMode.NegativeExactlyAtNight | brain/src/rewards/night_mode.py:30-45 | the potential is negative exactly when the avenue has vehicles and the cross lanes none, and -1 exactly from saturation on |
| NightMode.PotentialIsShare | brain/src/rewards/night_mode.py:41-43 | up to saturation the potential is minus the share of the saturation queue, at least one vehicle, that waits on the avenue |
| Numbers.ClipIsNearest | brain/src/rewards/night_mode.py:43 | clipping stays in the range, keeps what is in it and never moves past any point of it |
| NightMode.LaneTotalAdds | brain/src/rewards/night_mode.py:34-37 | the total of two lists of lanes is the sum of their totals |
| NightMode.EmptyExactlyWhenEachIs | brain/src/rewards/night_mode.py:34-37 | a lane total of non-negative queues is zero exactly when every listed lane in range is empty |
| NightMode.ClipIdleExactly | brain/src/rewards/night_mode.py:87-88 | the clip never changes a value exactly for discounts in [0, 1] |
| NightMode.EpisodeTelescopes | brain/src/rewards/night_mode.py:48-88 | the discounted sum of all rewards of an episode, the first step's included, is (1 - gamma) times the first potential plus gamma to the number of steps times the last |
| NightMode.ShapingTelescopes | brain/src/rewards/night_mode.py:85-88 | the discounted sum of the rewards after the first step depends only on the two ends |

## Left out
- Floating-point rounding: costs, overlaps, times and coordinates are exact reals; only schedules keep NaN and infinities.
- The Kalman filter's matrices: predict, correct and box are arbitrary functions; the square root in its box is not modelled.
- Machine integers: ages, counters, ids and sequence numbers do not wrap; only the parser's age and the decoder's size product are 64-bit.
- Configuration parsing (`major_approach_from_string`) and text: `ValidatedPhase::reason`, `remaining_s`, log lines, alerts and `detail` strings.
- Mutexes and atomics: each public method is one atomic step; in `ControlLoop` commands arrive between steps, in batches given with the tick.
- TrafficNetworks.TrafficNetwork.ShortestPath: asks that no road takes negative time; with such roads the answer may be wrong (`NegativeRoadMisleads`) or not exist (`NegativeLoopHasNoQuickest`), and the search need not end.
- TrafficNetworks.TrafficNetwork.Search: asks the same.
- Resize.Preprocessor.Preprocess: asks for a positive target size; a model with a dynamic (-1) dimension has no meaning in the source either.
- Handoff.CommandQueue.Push: asks for a capacity of at least one; a queue of capacity zero can be made, but on the first push the source pops an empty deque, which is undefined.
- NightMode.EpisodeTelescopes: asks for lane indices that the source can read; others raise an index error there.
- JSON decoding: the parser starts from decoded fields; an unsigned sequence number above the signed range is not modelled.
- `TrafficNetwork.save`/`load`, `neighbors` and `to_dict`: file I/O and listings.
- `QueueEstimator::estimate`, the policy engine, the lamp table, heartbeat, telemetry and MQTT client: plumbing, or tables and one-line arithmetic.
- Webster and M/D/1 formulas, green-wave offsets, the other rewards, training, scenarios, dashboard and scripts: not safety logic.
