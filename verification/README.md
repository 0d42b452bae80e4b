# lyFlow: a verified model of the run manager, the evaluation engine and its codecs

This Dafny 4.11 project models the parts of lyFlow whose promises hold for all inputs or all runs, and proves them. `dafny verify dfyconfig.toml` checks it.

| area | files |
|---|---|
| preemptive run manager with maintenance windows | `RunManager.dfy` |
| break matching, break counts and projection onto a measured line | `IntervalMatching.dfy`, `Projection.dfy` |
| curve parameters | `CurveShapes.dfy`, `Curve.dfy` |
| wildcards, ordered parallel delivery, sweeps, resumed sweeps | `Glob.dfy`, `OrderedParallel.dfy`, `Sweep.dfy`, `Resume.dfy` |
| graph documents, their check, meaning, surgery and patches | `Graphs.dfy`, `Meaning.dfy`, `TranslateRegion.dfy`, `Perturb.dfy`, `Patch.dfy`, `PatchActions.dfy`, `PatchLaws.dfy` |
| recipes: check, repair, report, canonical text, number text | `RecipeRepair.dfy`, `RecipeFixes.dfy`, `RecipeReport.dfy`, `SpecCanonical.dfy`, `JsNumbers.dfy` |
| point cloud files and the JSON writer | `Pcd.dfy`, `JsonText.dfy`, `JsonWriter.dfy` |
| image layout, image shrinking, least squares | `ImageLayout.dfy`, `Shrink.dfy`, `ShrinkImage.dfy`, `LeastSquares.dfy` |
| shared facts | `Outcomes.dfy`, `Decimals.dfy`, `Division.dfy`, `Rounding.dfy`, `Squaring.dfy`, `Sorting.dfy`, `Cardinality.dfy` |

How the model relates to the code:

- Concurrent code is a state machine whose steps are the critical sections (run manager) or the atomic actions of the
  threads (ordered delivery); executions are all interleavings of those steps. Beside the run manager's state machine
  stand classes whose methods change the slots in place and are proved to take exactly those steps.
- Floating point numbers are reals. The square root is a parameter with its defining property. The shortest digits of a
  double, and how a number prints inside an option or a suggested text, are given.
- Operators are uninterpreted deterministic functions from input values and parameters to output values.
- Loops that change state are methods with invariants, proved against functions; the properties are lemmas about
  those functions.

Where code and comment differ, the model follows the code: the wildcard matcher compares a pattern character with the
name before it looks for a star, so a star in the pattern that meets a star in the name is taken literally.
`Glob.GlobMatch` states what it then decides, `Glob.StarredNameIsMissed` gives for every name with a star a pattern
that misses it, and `Glob.AgreesOnStarFreeNames` states the exact condition. The suggested repairs likewise fail for a
declared range that holds no legal value; `RecipeRepair.FixesWorkIffFeasible` states when. A point cloud field that the
header gives no component is read from its neighbours or from beyond the end; `PcdBody.LayoutsAgreeIffSized` and
`PcdBody.LastPointDecides` state when that cannot happen. Shrinking in two steps gives other sizes than in one for images
wider or higher than the largest block; `ShrinkImage.LevelsCompose` states when.

## Model

| member | source | states |
|---|---|---|
| RunSteps.StepKeepsInv | bridge/src/execution.rs:156-230 | Every step of submit, settle, cancel, pause, drain, resume and exit keeps the invariant of the slots, the runs, the fates and the newest request |
| RunSteps.OneRunAtATime | bridge/src/execution.rs:156-168 | In every interleaving at most one launched run has not exited, a draining run means an empty active slot, and at most two runs are held |
| RunSteps.NotStranded | bridge/src/execution.rs:204-230 | A queued request always has a draining run or an open window to wait for, and at most three enabled steps from there serve it: launched, or told its launch failed |
| RunSteps.ServedOnEveryPath | bridge/src/execution.rs:204-230 | On every path a queued request is still queued unless on the way the draining run settled with no window open, a window closed, the request was cancelled, or a newer one took its place; the first of these gives it its one fate: launched or told of the failure, told cancelled, replaced |
| RunSteps.LatestRunKept | bridge/src/execution.rs:205-230 | Unless a later launch failed or a ReleaseAll window let it go, the run launched last is held, and it is the finished one when nothing runs and no window is open |
| RunSteps.SubmitMeets | bridge/src/execution.rs:361-383 | What a new request meets, told by what holds the slots: it is launched, fails, or waits in the queue; an active run is cancelled and drains; a request waiting before it meets its replacement |
| RunSteps.ComputingIsLaunchedNotExited | bridge/src/execution.rs:190-230 | In every execution a run computes if and only if it has been launched and has not exited, and still has to be settled if and only if it has been launched and not settled |
| RunSteps.CancelledIffStopped | bridge/src/execution.rs:361-438 | On every path a run has been cancelled if and only if it was before, or on the way it was cancelled while active, a new request came while it was active, or a window opened while it was active or draining |
| RunSteps.OneFate | bridge/src/execution.rs:361-402 | Each submitted request is queued without a fate or has met exactly one (launched, refused, replaced, told cancelled, told failed); whatever sits in a slot was launched |
| RunSteps.FatesOnlyGrow | bridge/src/execution.rs:361-402 | No later step takes back a fate already handed out |
| RunSteps.NewestKept | bridge/src/execution.rs:361-402 | Unless it was cancelled in the queue, failed to launch or was let go by a ReleaseAll window, the newest submission is in active, pending, finished or the window; if it is finished nothing else is running or queued |
| RunSteps.NothingStartsInWindow | bridge/src/execution.rs:410-438 | While a window is open no step launches a run, and the runs computing can only get fewer |
| RunSteps.WindowIsQuiet | bridge/src/execution.rs:477-490 | From the end of the drain to the closing of the window no run computes and no other window can open; under ReleaseAll nothing holds a run throughout |
| RunSteps.InterruptedIsKept | bridge/src/execution.rs:492-525 | Under KeepResults the run the window stopped is the finished one after the window closes, cancelled and no longer computing |
| RunManager.RunManager.Activate | bridge/src/execution.rs:190-202 | In place: the run takes the active slot, computes, and has a settling thread |
| RunManager.RunManager.Submit | bridge/src/execution.rs:361-383 | In place: starts at once only with nothing in the way, otherwise preempts and queues, replacing an older queued request; never waits; keeps the invariant |
| RunManager.RunManager.Enqueue | bridge/src/execution.rs:373-377 | In place: the active run is cancelled and moved to draining, the queued request is replaced |
| RunManager.RunManager.Settle | bridge/src/execution.rs:205-230 | In place: a finished active run becomes the last result; a drained one gives way to the queued request; a run no slot knows changes nothing |
| RunManager.RunManager.Cancel | bridge/src/execution.rs:387-402 | In place: cancels the active run, or takes the request out of the queue and tells it so |
| RunManager.RunManager.Stop | bridge/src/execution.rs:411-430 | In place: empties the slots a window empties and cancels what they held |
| RunManager.RunManager.Pause | bridge/src/execution.rs:410-438 | Opens the only window, holding what it took |
| RunManager.Paused.Drain | bridge/src/execution.rs:480-489 | After the joins: ReleaseAll lets go of the runs taken and of the last result |
| RunManager.Paused.Close | bridge/src/execution.rs:497-518 | In place: the stopped run goes back as the last result, the window ends, the queued request is launched or told why not |
| RunManager.Paused.Drop | bridge/src/execution.rs:492-525 | Dropping an undrained window drains it first; afterwards the manager is valid and not paused |
| IntervalMatching.Candidates | bridge/src/eval/quality.rs:190-205 | The detections of positive overlap and IoU at least minIou, and no others, best first |
| IntervalMatching.Augment | bridge/src/eval/quality.rs:206-224 | In place on owner and seen: on success exactly one more annotation is served and no seen detection is touched; on failure nothing moves and what was newly seen is closed under candidates of its holders; ends because unseen detections run out |
| IntervalMatching.BlockedSearch | bridge/src/eval/quality.rs:206-224 | If the search for an annotation fails, no matching of the annotations so far together with it is larger than the one at hand |
| IntervalMatching.Assign | bridge/src/eval/quality.rs:225-228 | After each outer iteration, and at the end, the owners are a maximum matching |
| IntervalMatching.AssignmentBound | bridge/src/eval/quality.rs:183-233 | No admissible set of pairs is larger than a maximum matching of the candidate lists |
| IntervalMatching.MatchIntervals | bridge/src/eval/quality.rs:183-233 | The pairs use each annotation and each detection at most once, only with positive overlap and IoU at least minIou, and no valid set of pairs is larger |
| IntervalMatching.ScoreBreaks | bridge/src/eval/quality.rs:350-430 | For the intervals between the given ends, in whichever direction they were drawn: tp + fn is the number of annotations; when the output is available tp + fp is the number of detections and tp is the size of a largest assignment; otherwise tp is 0 and fp absent; the ratios follow |
| IntervalMatching.SpansUnique | bridge/src/eval/quality.rs:374 | An annotation is read as one interval only: its two ends in order |
| IntervalMatching.OverlapIsCommonPart | bridge/src/eval/quality.rs:196 | The overlap is the length of the interval of the points in both, and positive if and only if there are any |
| IntervalMatching.IouIsCommonOverCovered | bridge/src/eval/quality.rs:197 | The ratio is common length over covered length, the same either way round, within (0, 1], and 1 for equal intervals only |
| IntervalMatching.CompatibleIffFits | bridge/src/eval/quality.rs:198 | A pair is admissible if and only if the common length is positive and at least minIou times the covered length |
| Projection.NearestIsNearest | bridge/src/eval/quality.rs:142-161 | No place on a segment is nearer to the point than the clamped foot |
| Projection.Project | bridge/src/eval/quality.rs:133-166 | The station the line records at its first nearest point, as mixed from the ends of its segment; none for a malformed line or one whose stations fall, or if even the nearest point is farther than the limit |
| Projection.NearestUnique | bridge/src/eval/quality.rs:139-158 | There is one least distance, and one station where the line first reaches it; of two places of a segment at one distance the middle is nearer |
| Projection.StationWithinLine | bridge/src/eval/quality.rs:133-166 | The station lies between those of the two ends of the line |
| Curve.CheckCurveValue | core/src/manifest.cpp:130-185 | Accepts exactly the JSON objects of nothing but points and a known interpolation, with at least two pairs of numbers, x in [0, 1] and strictly rising, y within the limits |
| Curve.LimiterTames | core/src/manifest.cpp:222-236 | After its turn in the limiter both slopes of a segment are within [0, 3] of its secant slope and no longer than before |
| Curve.LimiterPresses | core/src/manifest.cpp:222-236 | A pair of slopes within three times the secant slope is left alone, any other is brought back to exactly that length in its direction |
| Curve.LimiterProgress | core/src/manifest.cpp:222-236 | Rescaling a slope shared with the next segment does not undo an earlier segment |
| Curve.SlopesBounded | core/src/manifest.cpp:212-236 | When the left-to-right pass is done, every segment has both its slopes within [0, 3] of its secant slope |
| Curve.CubicMonotone | core/src/manifest.cpp:237-240 | Between such slopes the Hermite cubic is monotone on the segment |
| Curve.LimitedSlopes | core/src/manifest.cpp:214-236 | The in-place loops leave the slopes that the specification of the limiter gives |
| Curve.EvaluateCurve | core/src/manifest.cpp:187-241 | From the JSON of a curve the loops compute the curve of the specification; 0 for what is no valid curve; without smooth interpolation the place on the broken line through the points, level beyond its ends |
| Curve.SmoothSlopes | core/src/manifest.cpp:212-240 | A smooth curve is a cubic on each segment with one slope at each control point from both sides: level at turning points, the mean of the secant slopes elsewhere, the secant slope at the ends, unless too steep for a segment beside it; never against or beyond three times a secant slope beside it |
| Curve.LineIsKept | core/src/manifest.cpp:187-241 | Control points on a line give that line, linear or smooth |
| CurveShapes.CurveJsonReads | core/src/manifest.cpp:130-160 | A curve written as points and interpolation is read back as these |
| CurveShapes.CurveIsJson | core/src/manifest.cpp:130-160 | Nothing else has the shape of a curve |
| Curve.CurveHitsPoints | core/src/manifest.cpp:187-241 | The curve passes through every control point |
| Curve.SegmentMonotone | core/src/manifest.cpp:187-241 | On every segment the curve is monotone from one control point to the next and stays between their heights |
| Curve.CurveMonotone | core/src/manifest.cpp:187-241 | Control points that never fall give a function that never falls on all reals |
| Curve.NoOvershoot | core/src/manifest.cpp:187-241 | No value of the curve lies outside the range of the control points |
| Glob.GlobMatch | bridge/src/eval.rs:506-538 | The one-star-backtracking loop decides the wildcard relation in which a star before a literal star is literal, for every pattern and name; it ends |
| Glob.LatestStarSuffices | bridge/src/eval.rs:517-536 | A match that needs an earlier star to stand for more can also be had from the latest star alone |
| Glob.NewStar | bridge/src/eval.rs:517-536 | Recording a new star may forget the one before |
| Glob.AcceptsIsSound | bridge/src/eval.rs:506-538 | What is accepted, the plain wildcard relation accepts |
| Glob.AcceptsIsComplete | bridge/src/eval.rs:506-538 | For names without a star all that the wildcard relation accepts is accepted |
| Glob.StarredNameIsMissed | bridge/src/eval.rs:519-525 | For any name with a literal star there is a pattern that should match and does not |
| Glob.AgreesOnStarFreeNames | bridge/src/eval.rs:506-538 | The matcher agrees with the wildcard relation on a name, for all patterns, if and only if the name has no star |
| OrderedParallel.DeliverReady | bridge/src/eval.rs:1559-1577 | The receiving loop hands over what has become ready in order and stops where the specification stops |
| OrderedParallel.StepKeepsInv | bridge/src/eval.rs:1527-1579 | Every atomic action of a worker or of the receiver keeps: no claimed job is lost, records agree, what was handed over is gap-free |
| OrderedParallel.HandedOverInOrder | bridge/src/eval.rs:1527-1579 | In every schedule, cancelled or not, take is given the results from the first job on without gap or repeat |
| OrderedParallel.DryMeansDone | bridge/src/eval.rs:1497-1579 | Where the group is cancelled only after a value that ends the batch was made, the channel runs dry without an outcome only after every job has been handed over |
| OrderedParallel.EndlessMeansDone | bridge/src/eval.rs:1497-1579 | Whatever the jobs yield, a batch whose group only its own workers cancel, after making a value that ends the batch, returns without an end only when every job was handed over |
| OrderedParallel.SameAsReplayed | bridge/src/eval.rs:1497-1579 | Whatever the jobs yield on a schedule, the results handed over and the outcome are those of a sequential loop over what they did yield |
| OrderedParallel.SameAsSequential | bridge/src/eval.rs:1497-1519 | For work that depends on the index only and any number of workers, every schedule that ends, also one in which the worker that made the cancelled row cancels the group first, has given take the sequence, and returns the result, of doing the jobs one by one |
| OrderedParallel.ScheduleIsFinite | bridge/src/eval.rs:1527-1579 | No schedule without outside interference is longer than a bound fixed at the start |
| OrderedParallel.FewStartAfterStop | bridge/src/eval.rs:1542-1547 | Once the batch has stopped or its group is cancelled, no more jobs are claimed than there are workers already past their check |
| OrderedParallel.FailureHasStopped | bridge/src/eval.rs:1548-1574 | On every schedule a failed job has stopped the batch, and an end with a value or an error has stopped it and cancelled the group |
| OrderedParallel.NeverStuck | bridge/src/eval.rs:1527-1579 | Until there is an outcome some step is enabled, so every schedule ends |
| RunGroups.RunGroup.Cancel | bridge/src/cli.rs:461-468 | In place: the flag is set and every run in the group cancelled |
| RunGroups.RunGroup.Enter | bridge/src/cli.rs:474-481 | A run that enters a cancelled group is cancelled, any other is left alone; all runs of a cancelled group stay cancelled |
| RunGroups.RunGroup.Leave | bridge/src/cli.rs:483-487 | Takes the run out and nothing else |
| Sweep.PicksAreLegal | bridge/src/eval.rs:757-766 | The mixed-radix digits of an index below the product are legal picks, and the index can be read back from them |
| Sweep.PlaceIsInverse | bridge/src/eval.rs:757-766 | Every legal choice of picks is the digits of exactly one such index |
| Sweep.FirstTurnsFastest | bridge/src/eval.rs:761-765 | From one place to the next only the first axis moves on, until it is at its last value |
| Sweep.SetAt | bridge/src/eval.rs:761-775 | The inner loop builds the parameter set of the picks of its index |
| Sweep.AxisParamSets | bridge/src/eval.rs:740-779 | One set for each index below the product of the axis sizes, none without axes |
| Sweep.SetOfWrites | bridge/src/eval.rs:767-773 | The set of a choice writes to each axis, in order, the value picked, as a number or as a vector of copies |
| Sweep.SetOfShows | bridge/src/eval.rs:760-775 | The set of a choice shows the number picked under the name of each axis, the last axis of a name deciding, and writes no graph parameter |
| Sweep.EveryCombinationOnce | bridge/src/eval.rs:740-779 | Every combination of axis values is listed at one place and no other |
| Sweep.CombineParamSets | bridge/src/eval.rs:781-807 | Explicit sets outside, axes inside, every pair merged; either alone stands for itself, neither gives one empty set |
| Sweep.MergedValue | bridge/src/eval.rs:795-803 | After merging the axis decides the parameters it writes, the explicit set all others |
| Sweep.MergedMeans | bridge/src/eval.rs:792-803 | A merged set shows and writes what the axes say wherever they say something, elsewhere what the explicit set says, and keeps the graph parameters of the explicit set |
| Resume.SplitIsBijection | bridge/src/eval.rs:1408-1412 | Run numbers below sets times samples correspond one to one to the pairs of a set and a sample |
| Resume.WantedRuns | bridge/src/eval.rs:1424-1427 | The filtering loop collects the missing runs up to the budget |
| Resume.SmallestFirst | bridge/src/eval.rs:1424-1427 | What is wanted is ascending, missing, within the budget, below every missing run left out, and all of them if the budget allows |
| Resume.ResumeRows | bridge/src/eval.rs:2087-2137 | The reading loop gives the done pairs, or the first of: unknown sample, unknown set, changed parameters or metrics, a pair twice; cancelled rows and other lines are skipped |
| Resume.LineReads | bridge/src/eval.rs:2087-2137 | What one line does to the done pairs: skipped when cancelled or of another kind, refused for the first of four reasons, otherwise the pair of its set and its sample is done with its status |
| Resume.ReadIffReadable | bridge/src/eval.rs:2087-2137 | A log is read if and only if every line of a run is about a known sample and set with unchanged parameters and metrics and none is about the same pair as an earlier one; done is then exactly what the lines say |
| Resume.RunRemaining | bridge/src/eval.rs:1418-1491 | Gives out the rows of the wanted runs in order; a usage error if and only if the first run passes without its metrics, an interruption if and only if the last row is cancelled, an error if and only if the next run cannot be made, otherwise the worst exit code of the rows |
| Resume.FreshRowsRead | bridge/src/eval.rs:2087-2137 | A log stays readable when fresh rows are added to it, and then these are done too |
| Resume.SessionsNeverRepeat | bridge/src/eval.rs:1418-1427 | Over any sessions, whatever their budgets and outcomes, a readable log stays readable and no pair is completed twice |
| Resume.CompletedIsPrefix | bridge/src/eval.rs:1418-1427 | From an empty log, whatever is cancelled or fails, the completed runs are always the first ones; undisturbed, as many as the budgets add up to |
| Resume.BudgetsCoverThePlan | bridge/src/eval.rs:1418-1427 | Undisturbed sessions whose budgets suffice complete exactly the pairs of the plan |
| Resume.SessionsAreOneSession | bridge/src/eval.rs:1418-1427 | Line for line, the log of several undisturbed sessions is that of one session with all their budgets |
| Graphs.FirstNumbered | bridge/src/perturb.rs:181-194 | Among numbered candidates there is a first one not in use, because each taken one uses up a taken id |
| Graphs.UniqueId | bridge/src/graph.rs:85-93 | The generated id is not in use and introduces no slash |
| Graphs.GraphDoc.UniqueNodeId | bridge/src/perturb.rs:181-194 | The loop ends with a node id that is not in use |
| Graphs.GraphDoc.UniqueEdgeId | bridge/src/graph.rs:85-93 | The loop ends with an edge id that is not in use |
| Graphs.GraphDoc.CheckNodes | bridge/src/graph.rs:106-116 | Problems are listed if and only if some node has no id, no operator or a repeated id |
| Graphs.GraphDoc.CheckOutputs | bridge/src/graph.rs:121-132 | Problems are listed if and only if some output is unnamed, portless or refers to no node |
| Graphs.GraphDoc.CheckEdges | bridge/src/graph.rs:134-159 | Problems are listed if and only if edge ids repeat, an end dangles, an edge loops on its node or an input has two edges |
| Graphs.GraphDoc.ValidateStructure | bridge/src/graph.rs:96-166 | The structural check passes exactly the well-formed documents |
| Meaning.RankIrrelevant | bridge/src/perturb.rs:196-241 | The value on a port of an acyclic graph over uninterpreted operators does not depend on the topological rank used to compute it |
| Perturb.InsertAfter | bridge/src/perturb.rs:196-241 | In place: an unknown node is refused and nothing changes; otherwise one node with a fresh id is added, for the region and with no shift, and every consumer and output of the port is moved to it |
| Perturb.InsertedParams | bridge/src/perturb.rs:74-91 | The region operator reads from the inserted parameters the region inserted, and a zero shift |
| Perturb.ComputeHandsThrough | packs/std-pointcloud/ops/edit_translate_region.cpp:9-64 | The region operator hands its cloud through wherever it shifts nothing |
| TranslateRegion.RegionIsDescribed | packs/std-pointcloud/ops/edit_translate_region.cpp:10-37 | A region and a shift are read from the parameters if and only if they describe them: the kind and the vectors, each as written or by its default |
| TranslateRegion.HalfspaceHolds | packs/std-pointcloud/ops/edit_translate_region.cpp:49-53 | A half space holds exactly the points reached from its boundary by going along the normal and then sideways, the boundary not included |
| TranslateRegion.BoxHolds | packs/std-pointcloud/ops/edit_translate_region.cpp:54-56 | A box holds exactly the points that mix its two corners in each coordinate, the corners included |
| TranslateRegion.Shift | packs/std-pointcloud/ops/edit_translate_region.cpp:44-61 | In place: each point inside the region is shifted, every other stays |
| TranslateRegion.Compute | packs/std-pointcloud/ops/edit_translate_region.cpp:9-64 | Refused exactly for a normal without length or a box inside out; otherwise as many points in the same order, those of the region shifted, the other channels unchanged |
| TranslateRegion.ShiftMovesSelected | packs/std-pointcloud/ops/edit_translate_region.cpp:44-61 | A shift that is not zero moves the points of the region and no others |
| Perturb.InsertKeepsWellFormed | bridge/src/perturb.rs:196-241 | The edited graph is well formed and has exactly one node id more, a fresh one |
| Perturb.InsertKeepsAcyclic | bridge/src/perturb.rs:196-241 | The edited graph is acyclic if and only if the graph it was edited from is |
| Perturb.PortsKeepValues | bridge/src/perturb.rs:196-241 | If the region operator hands its input through wherever it shifts nothing, every original port keeps its value |
| Perturb.InsertPreservesMeaning | bridge/src/perturb.rs:196-241 | If the region operator hands its input through wherever it shifts nothing, an insertion leaves every original port and every named output its value; validity, acyclicity and distinct ids survive |
| Patch.RemoveValidity | bridge/src/patch.rs:85-129 | A removal leaves a well-formed graph well formed if and only if no output lies inside a removed node |
| Patch.AddKeepsWellFormed | bridge/src/patch.rs:131-173 | An addition that goes through keeps the graph well formed |
| Patch.RewireValidity | bridge/src/patch.rs:175-228 | A rewire keeps the graph well formed if and only if it moves no edge onto the node that edge ends in |
| Patch.ConnectValidity | bridge/src/patch.rs:230-277 | A connection keeps the graph well formed if and only if the same edge is there already, or it joins two nodes and its input is free |
| Patch.SetsSettle | bridge/src/patch.rs:279-320 | Making all settings again changes nothing |
| Patch.DefaultsSettle | bridge/src/patch.rs:322-376 | Writing the recipe and then all single defaults again ends with the same declarations, whatever names repeat |
| Patch.SameFits | bridge/src/patch.rs:340-341 | Whether a recipe is accepted does not depend on the defaults already written |
| Patch.PatchReachesFixedPoint | bridge/src/patch.rs:442-502 | A command that goes through, adds no node, and whose rewire targets and connect sources are never rewire sources, gives on its own result the same graph; its recipe is accepted again |
| PatchLaws.PatchDoes | bridge/src/patch.rs:442-502 | What a command that goes through has done: the nodes no pattern hits and those added are there; each parameter has the value of the last setting made for it, or the one it had; the kept edges leave the ports the rewires lead to, and what was to be connected is; of a graph parameter nothing but the default has changed, to the last one given, else the one of the recipe; outputs stay |
| PatchLaws.EmptyCommandRefused | bridge/src/patch.rs:461-467 | A command is refused for asking nothing if and only if none of its seven lists holds anything |
| PatchLaws.RemoveRefused | bridge/src/patch.rs:102-121 | A removal is refused if and only if an output names a node the pattern hits |
| PatchLaws.AddRefused | bridge/src/patch.rs:131-173 | An addition is refused if and only if the node has no id or no operator or its id is taken |
| PatchLaws.JoinRefused | bridge/src/patch.rs:175-262 | A rewire or a connection is refused if and only if one of its nodes is not there; the first such node is named |
| PatchLaws.SetRefused | bridge/src/patch.rs:279-308 | A setting is refused as a conflict if and only if a graph parameter drives the node parameter, otherwise if and only if its node is not there |
| PatchLaws.RecipeRefused | bridge/src/patch.rs:322-341 | Recipes are refused if and only if there are two, or some value is not declared or not one its declaration allows |
| PatchLaws.DefaultRefused | bridge/src/cli.rs:323-339 | A default is refused if and only if its name is not declared as an object |
| PatchActions.ApplyRemoves | bridge/src/patch.rs:85-129 | In place: the removals of the specification one after the other, or the first one that is refused |
| PatchActions.ApplyAdds | bridge/src/patch.rs:131-173 | In place: the additions one after the other, or the first that is refused |
| PatchActions.ApplyRewires | bridge/src/patch.rs:175-228 | In place: every edge out of the source port moved, for each rewire in turn |
| PatchActions.ApplyConnects | bridge/src/patch.rs:230-277 | In place: each edge appended unless it is there |
| PatchActions.IsBound | bridge/src/cli.rs:253-275 | Whether some graph parameter drives the node parameter |
| PatchActions.ApplySets | bridge/src/patch.rs:279-320 | In place: each setting written, or refused for an unknown node or a parameter that is driven |
| PatchActions.ApplyRecipes | bridge/src/patch.rs:322-351 | In place: a second recipe is refused, and one with a value that its declaration does not allow; otherwise the declared names get its values as defaults |
| PatchActions.ApplyParams | bridge/src/cli.rs:323-339 | In place: defaults of declared names written, a name without a declared object refused |
| PatchActions.CmdPatch | bridge/src/patch.rs:467-502 | All actions in their order with the check after each; the original document is unchanged whatever happens, and a failure writes nothing |
| Lzf.LzfDecompress | bridge/src/pcd.rs:60-98 | On any input: no access out of range; the decoding if the tokens are whole, no copy reaches too far back and the length is as announced; otherwise the error |
| Lzf.CopyBack | bridge/src/pcd.rs:84-88 | A copy may run into itself: every byte copied equals the one the distance before it |
| Lzf.DecodeInvertsEncode | bridge/src/pcd.rs:60-98 | For any list of literal runs and back references, decoding the encoded bytes gives their byte-by-byte expansion |
| Lzf.DecodedIsEncoding | bridge/src/pcd.rs:60-98 | Input that decodes is the encoding of some token list with that expansion |
| PcdBody.InBounds | bridge/src/pcd.rs:274-281 | In either layout every value that has a component, of a table that fits the buffer, lies inside it |
| PcdBody.LastPointDecides | bridge/src/pcd.rs:260-281 | No value is read outside the buffer if and only if none of the last point is; none is when every field read has a component |
| PcdBody.ParseBody | bridge/src/pcd.rs:260-306 | A short buffer is refused; a value outside the buffer ends the program; otherwise, and only then, the cloud the cells of the layout give, point after point |
| PcdBody.UnpackRgb | bridge/src/pcd.rs:53-57 | The third, second and first byte of the packed value |
| PcdBody.PackedColour | bridge/src/pcd.rs:53-57 | A colour packed as red, green and blue from the third byte down comes out red first |
| PcdBody.CloudHolds | bridge/src/pcd.rs:283-306 | Each channel of the cloud holds, point after point, the values of its field; coordinates and normals three by three in their order |
| PcdBody.LayoutsAgree | bridge/src/pcd.rs:244-282 | Whether a table is written point by point or field by field, reading it back finds the first component of every value that has one |
| PcdBody.LayoutsAgreeIffSized | bridge/src/pcd.rs:244-282 | Both layouts give the same bytes for a field in every table if and only if the header gives the field a component, or no size |
| PcdBody.SameCloud | bridge/src/pcd.rs:244-306 | One table in the two layouts gives the same cloud, when every field read has a component |
| JsonText.JsonEscape | core/src/json_writer.cpp:10-51 | The appending loop gives the escaped literal |
| JsonText.UnescapeInvertsEscape | core/src/json_writer.cpp:10-51 | Reading the literal by section 7 of RFC 8259 gives the string back, whatever its characters |
| JsonText.EscapedIsShortest | core/src/json_writer.cpp:10-51 | No literal that reads as the same string by section 7 is shorter: only quotes, backslashes and control characters are escaped, and with the short escapes where there are any |
| JsonText.IntTextIsNumber | core/src/json_writer.cpp:147-150 | An integer is written as a JSON number |
| JsonText.DoubleTextIsNumber | core/src/json_writer.cpp:53-74 | A finite double is written as a JSON number, whole ones with a fraction |
| JsonWriting.JsonWriter.PrepareValue | core/src/json_writer.cpp:83-93 | In place: the comma, line break and indent that one flag for all depths asks for |
| JsonWriting.JsonWriter.Begin | core/src/json_writer.cpp:95-100 | In place: opens a bracket and a level |
| JsonWriting.JsonWriter.End | core/src/json_writer.cpp:102-109 | In place: closes the level; an empty one stays on its line |
| JsonWriting.JsonWriter.Key | core/src/json_writer.cpp:127-137 | In place: a member name behind its comma, and the mark that its value follows directly |
| JsonWriting.JsonWriter.WriteTree | core/src/json_writer.cpp:83-164 | The calls that describe a JSON value leave the output of the specification |
| JsonWriting.WrittenIsText | core/src/json_writer.cpp:76-137 | Whatever the flag was before, the calls for one value write its text at that depth |
| JsonWriting.ReadText | core/src/json_writer.cpp:76-137 | The text of a value at any indent and depth reads back as that value |
| JsonWriting.WriterRoundTrip | core/src/json_writer.cpp:76-137 | For every JSON value and indent width the writer's output is one JSON text that reads back as the value |
| JsNumbers.ScanDecimal | bridge/src/recipe.rs:185-222 | On the trimmed text, the index scanner accepts exactly the decimal texts of the grammar |
| JsNumbers.ReadDecimal | bridge/src/recipe.rs:183-224 | Trims, scans and reads: the number the text denotes, none for any other text or one that overflows a double |
| JsNumbers.JsNumberDenotes | bridge/src/recipe.rs:31-67 | Laid out by section 6.1.6.1.20 of ECMA-262, the text denotes exactly digits times 10^(n-k) with its sign, and the scanner accepts it |
| JsNumbers.LayoutForm | bridge/src/recipe.rs:31-67 | The text has an exponent if and only if the point stands more than 21 places behind the first digit or more than 6 before it; without digits behind the point it has no point |
| JsNumbers.JsNumberReads | bridge/src/recipe.rs:31-67 | What is written for a finite double is read back, trimming and overflow test included, as that number |
| JsNumbers.JsNumberInjective | bridge/src/recipe.rs:31-67 | Numbers of different value are written differently |
| JsNumbers.JsNumberIsJson | bridge/src/recipe.rs:86-91 | The text is a JSON number |
| SpecCanonical.CanonicalIsJson | bridge/src/recipe.rs:267-287 | The canonical text is the compact JSON of the sorted rows |
| SpecCanonical.CanonicalReads | bridge/src/recipe.rs:267-287 | Read as JSON the canonical text has one row for each parameter, by name: name, type, least and greatest value, options by their text; without a type only the name |
| Sorting.AtMostIsLexical | bridge/src/recipe.rs:261 | Strings are ordered by the first character in which they differ, a prefix first |
| SpecCanonical.CanonicalIgnoresOrder | bridge/src/recipe.rs:249-287 | Tables that declare the same things have the same text, whatever the order of parameters or options and the cosmetic fields |
| SpecCanonical.CanonicalInjective | bridge/src/recipe.rs:249-287 | Tables with the same text have the same names, types, limits and option values |
| RecipeRepair.RangeProblem | bridge/src/recipe.rs:714-733 | Finds the first number beyond its limits, or none |
| RecipeRepair.CurveProblem | bridge/src/recipe.rs:768-822 | Accepts exactly the curves the core accepts |
| RecipeRepair.ClampIsNearest | bridge/src/recipe.rs:697-711 | The clamp gives a legal number, and none is nearer |
| RecipeFixes.PassesIffLegal | bridge/src/recipe.rs:844-1015 | The check of one value lets through exactly what the fields of the declaration allow: its type, its limits, its options |
| RecipeFixes.SuggestedNumberIsNearest | bridge/src/recipe.rs:868-899 | For a number, or a string that writes one, the suggestion is the allowed number nearest to it; for anything else there is none |
| RecipeFixes.SuggestedVectorIsNearest | bridge/src/recipe.rs:900-945 | For an array that is long enough, one number for all components, or a colour in hexadecimal, the suggestion has the width of the type and moves each component to the nearest allowed value; for anything else there is none |
| RecipeFixes.SuggestedCurveIsNearest | bridge/src/recipe.rs:989-1012 | The suggestion for a curve keeps interpolation and positions and moves each height to the nearest allowed value; for what is no curve there is none |
| RecipeFixes.SuggestedBool | bridge/src/recipe.rs:848-866 | For a truth value 1 and the word true, in any case, suggest true, 0 and the word false suggest false, nothing else suggests either |
| RecipeFixes.SuggestedText | bridge/src/recipe.rs:946-988 | For text a number or a truth value is suggested as it prints, for an option only if it is offered |
| RecipeFixes.KindOfProblem | bridge/src/recipe.rs:844-1015 | A problem is one of range if and only if the value would be allowed without limits and options, otherwise one of type |
| Rounding.HalvesGoOut | bridge/src/recipe.rs:235-238 | Halves are rounded away from zero |
| RecipeFixes.HexColorReads | bridge/src/recipe.rs:825-839 | A colour written in hexadecimal is read as its bytes over 255 |
| RecipeRepair.FeasibleFixWorks | bridge/src/recipe.rs:844-1015 | A suggested value passes the check when the declared range holds a legal value |
| RecipeRepair.NothingPasses | bridge/src/recipe.rs:844-1015 | A declared range without a legal value lets nothing pass |
| RecipeRepair.FixesWorkIffFeasible | bridge/src/recipe.rs:844-1015 | All suggestions pass if and only if the range holds a legal value: ceil(min) <= floor(max) for whole numbers, min <= max for the others |
| RecipeReport.RecipeReport | bridge/src/recipe.rs:631-691 | The note about the graph first, unless the recipe records this graph and these declarations, then by name one item for each value that does not fit with the first thing wrong; an undeclared value is to be deleted; blocking counts the items of values |
| RecipeReport.ListsUnique | bridge/src/recipe.rs:665-666 | There is one list of the values by name, so the report does not depend on their order |
| RecipeReport.ItemsAreFailures | bridge/src/recipe.rs:668-689 | An item is in the report if and only if it says what is first wrong with one of the values |
| RecipeReport.RepairLeavesNoneFailing | bridge/src/recipe.rs:1471-1507 | After applying every suggestion once, no value fails, and every value that did not fail is as it was |
| RecipeReport.RepairIsCompleteIffFeasible | bridge/src/recipe.rs:1471-1507 | One pass repairs every recipe of a graph if and only if every declared range holds a legal value |
| RecipeReport.NoneFailsIffFits | bridge/src/recipe.rs:1110-1119 | A recipe is let through if and only if each of its values is declared and one its declaration allows |
| RecipeReport.WriteAsDefaults | bridge/src/recipe.rs:1038-1051 | In place: each value becomes the default of the declared object of its name; exactly the declarations that changed are reported |
| RecipeReport.DefaultsReplaceRecipe | bridge/src/recipe.rs:1021-1051 | After writing a recipe as defaults a run without it gets the same values, if and only if no declared name with a value other than null lacks an object to write to |
| RecipeReport.DefaultsSettle | bridge/src/recipe.rs:1038-1051 | Writing the same values again changes nothing |
| LeastSquares.FitsIffTwoDistinctX | bridge/src/perturb.rs:290-306 | There is a fit if and only if two points differ in x |
| LeastSquares.NormalEquations | bridge/src/perturb.rs:298-309 | The residuals of the fit sum to zero and are uncorrelated with x |
| LeastSquares.FitIsTheOnlyBest | bridge/src/perturb.rs:290-323 | Every other line has a larger sum of squared residuals |
| LeastSquares.LineIsFound | bridge/src/perturb.rs:290-323 | Points on a line are fitted by that line |
| LeastSquares.RmseIsMeanError | bridge/src/perturb.rs:310-323 | The reported error is the root of the mean squared residual |
| ImageLayout.SizeIsPixelsTimesBytes | core/src/data.cpp:64-80 | The byte size is the pixel count times the bytes of a pixel, and 0 for an image without width, height or channels |
| ImageLayout.SamplesTileTheBuffer | core/src/data.cpp:104-110 | Each sample lies inside the buffer and no two share a byte |
| ImageLayout.EveryIndexIsSample | core/src/data.cpp:104-110 | Every place of the buffer belongs to a sample of the image |
| Shrink.CeilingComposes | core/src/data.cpp:174-176 | Covering with blocks of blocks takes as many as covering with the larger blocks |
| Shrink.CellExactly | core/src/data.cpp:142-155 | A cell is made of each counted sample whose pixel lies in its block, once, and of no other |
| Shrink.EverySampleInOneCell | core/src/data.cpp:142-155 | Every counted sample is in exactly one cell, and that cell is in the shrunk image |
| Shrink.CellBetween | core/src/data.cpp:157-163 | A cell's value lies between the least and the greatest of its samples, rounding and skipped zeros included |
| Shrink.CellIsRoundedMean | core/src/data.cpp:157-163 | An integer cell is a whole number within one half of the mean of its samples |
| Shrink.ZeroMeansNoDepth | core/src/data.cpp:127-163 | With zeros skipped a cell is zero if and only if every sample in its block is |
| ShrinkImage.AddPixel | core/src/data.cpp:145-154 | In place: the channels of one pixel are added to the sums and counts of its cell and of no other |
| ShrinkImage.AddBand | core/src/data.cpp:139-155 | In place: after the row loops the sums and counts are those of the cells of that row |
| ShrinkImage.ShrinkInto | core/src/data.cpp:129-165 | In place: the output buffer is filled with the values of the cells |
| ShrinkImage.ShrinkImage | core/src/data.cpp:169-193 | An inconsistent image gives the empty one, level 0 the image itself, any other level the shrunk image |
| ShrinkImage.ShrunkShape | core/src/data.cpp:172-178 | Size is the ceiling of size over block, scale is multiplied by the block, channels and depth stay, the buffer is complete |
| ShrinkImage.ShrunkSample | core/src/data.cpp:129-193 | Sample (x, y, k) of the result is the value of cell (x, y, k) |
| ShrinkImage.ShrunkIsMean | core/src/data.cpp:120-193 | Each sample of a shrunk image is the mean of the finite samples in its block, zeros of a 16 bit image with one channel left out, rounded in the integer depths; if there are none, zero, or no number in the real depth |
| ShrinkImage.ShrunkSound | core/src/data.cpp:129-193 | Integer images stay whole and non-negative |
| ShrinkImage.LevelsCompose | core/src/data.cpp:169-193 | Levels a then b give the size of level a + b if and only if one level is 0, the sum does not pass the cap, or the image fits in one block of the largest size |
| ShrinkImage.TooWideToCompose | core/src/data.cpp:169-193 | An image one pixel wider than the largest block has one column after levels 15 and 16, two after level 31 |
| ShrinkImage.ScaleComposesIffUnderCap | core/src/data.cpp:174-178 | The scale composes if and only if one level is 0 or the sum does not pass the cap, or the scale was 0 |
| ShrinkImage.PreviewLevel | core/src/exec/pixel_scale.cpp:11-24 | The halving loop finds the least level at which the image has at most the given pixels, at most 30 |
| ShrinkImage.PixelsAreShrunkSize | core/src/exec/pixel_scale.cpp:14-21 | What that loop counts is the size of the image shrunk by that level |

## Left out

- Run identifiers, events, registry reloading, the core library behind the foreign function interface: a run is an
  identifier that is never reused, and launching either succeeds or fails.
- The cancel calls that follow a pause outside the lock are part of the pausing step, and a join means that the run has
  exited; waiting for a window to close is a step that is not enabled yet.
- Among equally large matchings, the preference for higher overlap: the code orders candidates and guarantees only the
  number of pairs.
- The other quality metrics and the truth file checks: independent formulas over parsed JSON.
- Floating point rounding, NaN and infinities in curves, fits, projections, limits and image means; only the skipping of
  non-finite samples and the overflow of a decimal text are kept.
- Case folding in wildcards: both texts are taken as already folded.
- Reading samples, recipes, graphs and row logs from disk, progress lines, CSV and summaries; command line parsing.
- OrderedParallel.SameAsSequential: work that depends on more than its index is covered by
  `OrderedParallel.SameAsReplayed`, because its results then depend on the schedule. A group cancelled from outside,
  before any value that ends the batch, is covered by `OrderedParallel.HandedOverInOrder` alone.
- Resume.RunRemaining: runs are made one after the other; with several jobs the same rows come out by
  `OrderedParallel.SameAsSequential`. Of a row only the pair and the status are kept.
- Resume.SessionsNeverRepeat: sample ids are distinct, which the sample file check enforces (bridge/src/eval.rs:435).
- Sweep.AxisParamSets: axes are already parsed and their nodes known.
- Perturb.InsertPreservesMeaning: the region is one the operator accepts; reading it from the option is not modelled. The
  port is on a top-level node; a port inside a subgraph is refused while the option
  is read (bridge/src/perturb.rs:166-179).
- Meaning of a graph with a cycle, and of bypassed nodes beyond what their operator function says.
- Patch.PatchReachesFixedPoint: whether the recipe file can be read; the journal of applied changes, notes about steps without effect, hints, spec parsing, node placement, the core's own
  diagnostics and the writing of files are not part of this model.
- PCD headers and ASCII bodies. The conversion of a value's bytes to a number is a parameter.
- JsonWriting.WriterRoundTrip: numbers are carried as their text, whose form `JsonText.IntTextIsNumber` and
  `JsonText.DoubleTextIsNumber` give; raw insertion of ready-made text is left out.
- SpecCanonical.CanonicalInjective: option values are given with their members in the order JavaScript prints them, and
  equal limits are equal reals; the SHA-256 digest of the text is taken as given.
- The verdicts a sample gets from its fit and the summaries over samples: folds over the fits.
- Messages, labels and translations of the recipe report; the display form of values in them.
- RecipeReport.RecipeReport: a map stands for the JSON object of values, the digest of the declarations is a parameter.
- ShrinkImage.ShrunkShape: the scale is an unbounded integer, the product is not reduced to 32 bits; nor are byte sizes
  reduced to the machine's word.
- The pixels of an image shrunk in two steps: means of unequal cells and rounding keep them from composing.
- Migration of old graph documents, the operator manifest, the registry, planner, executor and result store.
