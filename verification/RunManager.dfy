/**
 The run manager's slots and maintenance windows (bridge/src/execution.rs), one atomic step for each
 critical section. Runs and requests are named by their run ids, which are never reused. Whether a
 launch succeeds is an input of the step that makes it; `Exit` is a run coming to its end, which can
 happen at any time and is what `join` waits for.

 `RunSteps` describes the steps as functions on a value and proves what they keep over whole
 executions; `RunManager` is the object that carries them out.
 */
module RunSteps {
  import opened Cardinality
  import opened Outcomes

  type RunId = nat

  datatype PauseMode = KeepResults | ReleaseAll

  /** What an open maintenance window has in hand. */
  datatype Window = Window(mode: PauseMode, taken: seq<RunId>, finished: Option<RunId>, drained: bool)

  /** How a submitted request ended as a request. */
  datatype Fate = Launched | Refused | Replaced | NotifiedCancelled | NotifiedError

  /**
   The slots, the open window, and what has happened around them: runs launched and not exited,
   runs whose settling thread has not settled yet, the fates handed out in order, every id ever
   submitted, the latest of them, and the runs a ReleaseAll window let go of.
   */
  datatype State = State(
    active: Option<RunId>, draining: Option<RunId>, pending: Option<RunId>, finished: Option<RunId>,
    window: Option<Window>,
    computing: set<RunId>, cancelled: set<RunId>, settling: set<RunId>, fates: seq<(RunId, Fate)>,
    submitted: set<RunId>,
    newest: Option<RunId>, released: set<RunId>)

  const INITIAL := State(None, None, None, None, None, {}, {}, {}, [], {}, None, {})

  datatype Event =
    | Submit(id: RunId, launches: bool)
    | Settle(run: RunId, launches: bool)
    | Cancel(id: RunId)
    | Pause(mode: PauseMode)
    | Drain
    | Resume(launches: bool)
    | Exit(run: RunId)

  // ---------------------------------------------------------------- the steps

  function Ids(slot: Option<RunId>): set<RunId> {
    if slot.Some? then {slot.value} else {}
  }

  function Elements(ids: seq<RunId>): set<RunId> {
    set r <- ids
  }

  function Activated(s: State, id: RunId): State {
    s.(active := Some(id), computing := s.computing + {id}, settling := s.settling + {id},
       fates := s.fates + [(id, Launched)])
  }

  /** Takes the queued request, if any, and launches it. */
  function LaunchedPending(s: State, launches: bool): State {
    match s.pending
    case None => s
    case Some(id) =>
      if launches then Activated(s.(pending := None), id)
      else s.(pending := None, fates := s.fates + [(id, NotifiedError)])
  }

  function Submitted(s: State, id: RunId, launches: bool): State {
    var t := s.(submitted := s.submitted + {id}, newest := Some(id));
    if s.window.None? && s.active.None? && s.draining.None? then
      if launches then Activated(t, id) else t.(fates := s.fates + [(id, Refused)])
    else
      t.(active := None,
         draining := if s.active.Some? then s.active else s.draining,
         cancelled := s.cancelled + Ids(s.active),
         pending := Some(id),
         fates := if s.pending.Some? then s.fates + [(s.pending.value, Replaced)] else s.fates)
  }

  function Settled(s: State, run: RunId, launches: bool): State {
    var t := s.(settling := s.settling - {run});
    if s.active == Some(run) then t.(active := None, finished := Some(run))
    else if s.draining != Some(run) then t
    else if s.pending.None? then t.(draining := None, finished := Some(run))
    else LaunchedPending(t.(draining := None), launches)
  }

  function Cancelled(s: State, id: RunId): State {
    if s.active == Some(id) then s.(cancelled := s.cancelled + {id})
    else if s.pending == Some(id) then s.(pending := None, fates := s.fates + [(id, NotifiedCancelled)])
    else s
  }

  function Listed(slot: Option<RunId>): seq<RunId> {
    if slot.Some? then [slot.value] else []
  }

  function PausedBy(s: State, mode: PauseMode): State {
    var taken := Listed(s.active) + Listed(s.draining);
    var release := mode == ReleaseAll;
    s.(active := None, draining := None, cancelled := s.cancelled + Elements(taken),
       finished := if release then None else s.finished,
       window := Some(Window(mode, taken, if release then s.finished else None, false)))
  }

  function Drained(s: State): State
    requires s.window.Some?
  {
    var w := s.window.value;
    if w.mode == ReleaseAll
    then s.(window := Some(Window(w.mode, [], None, true)),
            released := s.released + Elements(w.taken) + Ids(w.finished))
    else s.(window := Some(w.(drained := true)))
  }

  /** The window gone and the run it stopped, if it kept it, back as the finished one. */
  function WithoutWindow(s: State): State
    requires s.window.Some?
  {
    var w := s.window.value;
    s.(window := None, finished := if w.taken != [] then Some(w.taken[|w.taken| - 1]) else s.finished)
  }

  function Resumed(s: State, launches: bool): State
    requires s.window.Some?
  {
    LaunchedPending(WithoutWindow(s), launches)
  }

  /**
   When a step can be taken. A submission, a cancellation and the exit of a run never wait; settling
   and draining wait for exits; a window waits for the one before it.
   */
  ghost predicate Enabled(s: State, e: Event) {
    match e
    case Submit(id, _) => id !in s.submitted
    case Settle(run, _) => run in s.settling && run !in s.computing
    case Cancel(_) => true
    case Pause(_) => s.window.None?
    case Drain => s.window.Some? && Elements(s.window.value.taken) !! s.computing
    case Resume(_) => s.window.Some? && s.window.value.drained
    case Exit(run) => run in s.computing
  }

  ghost function Step(s: State, e: Event): State
    requires Enabled(s, e)
  {
    match e
    case Submit(id, launches) => Submitted(s, id, launches)
    case Settle(run, launches) => Settled(s, run, launches)
    case Cancel(id) => Cancelled(s, id)
    case Pause(mode) => PausedBy(s, mode)
    case Drain => Drained(s)
    case Resume(launches) => Resumed(s, launches)
    case Exit(run) => s.(computing := s.computing - {run})
  }

  /** `es` can happen from `s`, in this order, and lead to `t`. */
  ghost predicate Leads(s: State, es: seq<Event>, t: State)
    decreases |es|
  {
    if es == [] then s == t
    else Enabled(s, es[0]) && Leads(Step(s, es[0]), es[1..], t)
  }

  ghost predicate Reachable(s: State) {
    exists es :: Leads(INITIAL, es, s)
  }

  // ---------------------------------------------------------------- the invariant

  function WindowTaken(s: State): set<RunId> {
    if s.window.Some? then Elements(s.window.value.taken) else {}
  }

  function WindowFinished(s: State): set<RunId> {
    if s.window.Some? then Ids(s.window.value.finished) else {}
  }

  /** Every run some slot or the open window keeps alive. */
  function Held(s: State): set<RunId> {
    Ids(s.active) + Ids(s.draining) + Ids(s.finished) + WindowTaken(s) + WindowFinished(s)
  }

  ghost predicate SlotsOk(s: State) {
    && (s.draining.Some? ==> s.active.None?)
    && (s.pending.Some? ==> s.active.None? && (s.draining.Some? || s.window.Some?))
    && (s.window.Some? ==>
          && s.active.None? && s.draining.None?
          && |s.window.value.taken| <= 1
          && (s.window.value.mode == ReleaseAll ==> s.finished.None?)
          && (s.window.value.mode == KeepResults ==> s.window.value.finished.None?)
          && (s.window.value.mode == ReleaseAll && s.window.value.drained ==>
                s.window.value.taken == [] && s.window.value.finished.None?))
  }

  ghost predicate RunsOk(s: State) {
    && s.computing <= Ids(s.active) + Ids(s.draining) + WindowTaken(s)
    && Ids(s.active) + Ids(s.draining) + s.computing <= s.settling
    && (s.window.Some? && s.window.value.drained ==> s.computing == {})
    && s.computing - Ids(s.active) <= s.cancelled
  }

  ghost predicate HasFate(fates: seq<(RunId, Fate)>, id: RunId) {
    exists k :: 0 <= k < |fates| && fates[k].0 == id
  }

  ghost predicate FatesOk(s: State) {
    && (forall j, k | 0 <= j < k < |s.fates| :: s.fates[j].0 != s.fates[k].0)
    && (forall k | 0 <= k < |s.fates| :: s.fates[k].0 in s.submitted)
    && (forall id <- s.submitted :: HasFate(s.fates, id) <==> s.pending != Some(id))
    && Ids(s.pending) <= s.submitted
    && (forall r <- Held(s) + s.settling :: (r, Launched) in s.fates)
  }

  ghost predicate IsFailure(f: Fate) {
    f == Refused || f == NotifiedCancelled || f == NotifiedError
  }

  ghost predicate NewestFailed(s: State, id: RunId) {
    exists f :: (id, f) in s.fates && IsFailure(f)
  }

  /** The latest submission is still somewhere, or failed, or was let go by a ReleaseAll window. */
  ghost predicate NewestOk(s: State) {
    s.newest.Some? ==>
      var id := s.newest.value;
      && id in s.submitted && id !in Ids(s.draining)
      && (id in Ids(s.active) + Ids(s.pending) + Ids(s.finished) + WindowTaken(s) + WindowFinished(s)
          || NewestFailed(s, id) || id in s.released)
      && (id in Ids(s.finished) + WindowTaken(s) + WindowFinished(s) ==>
            s.active.None? && s.draining.None? && s.pending.None?)
      && (id in Ids(s.finished) + WindowFinished(s) ==> WindowTaken(s) <= {id})
  }

  ghost predicate Inv(s: State) {
    SlotsOk(s) && RunsOk(s) && FatesOk(s) && NewestOk(s)
  }

  // ---------------------------------------------------------------- every step keeps the invariant

  lemma StepKeepsSlots(s: State, e: Event)
    requires SlotsOk(s) && Enabled(s, e)
    ensures SlotsOk(Step(s, e))
  {}

  lemma StepKeepsRuns(s: State, e: Event)
    requires SlotsOk(s) && RunsOk(s) && Enabled(s, e)
    ensures RunsOk(Step(s, e))
  {}

  lemma Decided(s: State, t: State, id: RunId, f: Fate)
    requires t.fates == s.fates + [(id, f)]
    ensures forall i :: HasFate(t.fates, i) <==> HasFate(s.fates, i) || i == id
    ensures forall x :: x in t.fates <==> x in s.fates || x == (id, f)
  {
    assert t.fates[|s.fates|] == (id, f);
    forall i | HasFate(s.fates, i)
      ensures HasFate(t.fates, i)
    {
      var k :| 0 <= k < |s.fates| && s.fates[k].0 == i;
      assert t.fates[k].0 == i;
    }
  }

  lemma LaunchKeepsFates(s: State, launches: bool)
    requires FatesOk(s)
    ensures FatesOk(LaunchedPending(s, launches))
  {
    if s.pending.Some? {
      var id := s.pending.value;
      Decided(s, LaunchedPending(s, launches), id, if launches then Launched else NotifiedError);
      assert !HasFate(s.fates, id);
    }
  }

  lemma SubmitKeepsFates(s: State, id: RunId, launches: bool)
    requires SlotsOk(s) && FatesOk(s) && id !in s.submitted
    ensures FatesOk(Submitted(s, id, launches))
  {
    var t := Submitted(s, id, launches);
    assert !HasFate(s.fates, id);
    if s.window.None? && s.active.None? && s.draining.None? {
      Decided(s, t, id, if launches then Launched else Refused);
    } else if s.pending.Some? {
      Decided(s, t, s.pending.value, Replaced);
    }
  }

  lemma SettleKeepsFates(s: State, run: RunId, launches: bool)
    requires FatesOk(s) && Enabled(s, Settle(run, launches))
    ensures FatesOk(Settled(s, run, launches))
  {
    if s.active != Some(run) && s.draining == Some(run) && s.pending.Some? {
      var t := s.(settling := s.settling - {run}, draining := None);
      assert FatesOk(t);
      LaunchKeepsFates(t, launches);
    }
  }

  lemma ResumeKeepsFates(s: State, launches: bool)
    requires FatesOk(s) && s.window.Some?
    ensures FatesOk(Resumed(s, launches))
  {
    var w := s.window.value;
    var t := s.(window := None,
                finished := if w.taken != [] then Some(w.taken[|w.taken| - 1]) else s.finished);
    assert FatesOk(t);
    LaunchKeepsFates(t, launches);
  }

  lemma PauseKeepsFates(s: State, mode: PauseMode)
    requires FatesOk(s) && s.window.None?
    ensures FatesOk(PausedBy(s, mode))
  {
    assert Held(PausedBy(s, mode)) <= Held(s);
  }

  lemma StepKeepsFates(s: State, e: Event)
    requires SlotsOk(s) && FatesOk(s) && Enabled(s, e)
    ensures FatesOk(Step(s, e))
  {
    match e
    case Submit(id, launches) => SubmitKeepsFates(s, id, launches);
    case Settle(run, launches) => SettleKeepsFates(s, run, launches);
    case Cancel(id) =>
      if s.active != Some(id) && s.pending == Some(id) { Decided(s, Step(s, e), id, NotifiedCancelled); }
    case Pause(mode) => PauseKeepsFates(s, mode);
    case Resume(launches) => ResumeKeepsFates(s, launches);
    case _ =>
  }

  lemma FailuresStay(s: State, t: State)
    requires s.fates <= t.fates
    ensures forall id: RunId :: NewestFailed(s, id) ==> NewestFailed(t, id)
  {
    forall id: RunId | NewestFailed(s, id)
      ensures NewestFailed(t, id)
    {
      var f :| (id, f) in s.fates && IsFailure(f);
      assert (id, f) in t.fates;
    }
  }

  lemma FailureRecorded(s: State, t: State, id: RunId, f: Fate)
    requires t.fates == s.fates + [(id, f)]
    ensures IsFailure(f) ==> NewestFailed(t, id)
  {
    assert t.fates[|s.fates|] == (id, f);
  }

  lemma LaunchKeepsNewest(s: State, launches: bool)
    requires NewestOk(s)
    requires s.newest.Some? && s.newest.value in Ids(s.finished) + WindowTaken(s) + WindowFinished(s)
             ==> s.pending.None?
    requires s.active.None?
    ensures NewestOk(LaunchedPending(s, launches))
  {
    var t := LaunchedPending(s, launches);
    FailuresStay(s, t);
    if s.pending.Some? { FailureRecorded(s, t, s.pending.value, if launches then Launched else NotifiedError); }
  }

  lemma SubmitKeepsNewest(s: State, id: RunId, launches: bool)
    requires Inv(s) && id !in s.submitted
    ensures NewestOk(Submitted(s, id, launches))
  {
    var t := Submitted(s, id, launches);
    if s.window.None? && s.active.None? && s.draining.None? {
      FailureRecorded(s, t, id, if launches then Launched else Refused);
    }
    assert forall x <- s.fates :: x.0 in s.submitted;
    assert forall r <- Held(s) :: (r, Launched) in s.fates;
  }

  lemma SettleKeepsNewest(s: State, run: RunId, launches: bool)
    requires Inv(s) && run in s.settling
    ensures NewestOk(Settled(s, run, launches))
  {
    if s.active != Some(run) && s.draining == Some(run) && s.pending.Some? {
      LaunchKeepsNewest(s.(settling := s.settling - {run}, draining := None), launches);
    }
  }

  lemma ResumeKeepsNewest(s: State, launches: bool)
    requires Inv(s) && s.window.Some? && s.window.value.drained
    ensures NewestOk(Resumed(s, launches))
  {
    var w := s.window.value;
    assert w.taken != [] ==> w.taken[|w.taken| - 1] in Elements(w.taken);
    var t := s.(window := None,
                finished := if w.taken != [] then Some(w.taken[|w.taken| - 1]) else s.finished);
    FailuresStay(s, t);
    LaunchKeepsNewest(t, launches);
  }

  lemma StepKeepsNewest(s: State, e: Event)
    requires Inv(s) && Enabled(s, e)
    ensures NewestOk(Step(s, e))
  {
    match e
    case Submit(id, launches) => SubmitKeepsNewest(s, id, launches);
    case Settle(run, launches) => SettleKeepsNewest(s, run, launches);
    case Cancel(id) =>
      FailuresStay(s, Step(s, e));
      if s.active != Some(id) && s.pending == Some(id) { FailureRecorded(s, Step(s, e), id, NotifiedCancelled); }
    case Resume(launches) => ResumeKeepsNewest(s, launches);
    case _ => FailuresStay(s, Step(s, e));
  }

  lemma StepKeepsInv(s: State, e: Event)
    requires Inv(s) && Enabled(s, e)
    ensures Inv(Step(s, e))
  {
    StepKeepsSlots(s, e);
    StepKeepsRuns(s, e);
    StepKeepsFates(s, e);
    StepKeepsNewest(s, e);
  }

  lemma {:induction false} LeadsKeepsInv(s: State, es: seq<Event>, t: State)
    requires Inv(s) && Leads(s, es, t)
    ensures Inv(t)
    decreases |es|
  {
    if es != [] {
      StepKeepsInv(s, es[0]);
      LeadsKeepsInv(Step(s, es[0]), es[1..], t);
    }
  }

  lemma ReachableInv(s: State)
    requires Reachable(s)
    ensures Inv(s)
  {
    var es :| Leads(INITIAL, es, s);
    LeadsKeepsInv(INITIAL, es, s);
  }

  // ---------------------------------------------------------------- at most one run computes

  function Only(a: Option<RunId>, b: Option<RunId>, c: seq<RunId>): RunId {
    if a.Some? then a.value else if b.Some? then b.value else if c != [] then c[0] else 0
  }

  lemma AtMostOne(a: set<RunId>, slot: Option<RunId>, other: Option<RunId>, taken: seq<RunId>)
    requires a <= Ids(slot) + Ids(other) + Elements(taken)
    requires |taken| <= 1
    requires slot.None? || other.None?
    requires taken != [] ==> slot.None? && other.None?
    ensures |a| <= 1
  {
    var x := Only(slot, other, taken);
    assert a <= {x};
    assert a == {} || a == {x};
  }

  lemma FewHeld(s: State)
    requires SlotsOk(s)
    ensures |Held(s)| <= 2
  {
    var taken := if s.window.Some? then s.window.value.taken else [];
    var put := if s.window.Some? then s.window.value.finished else None;
    var x, y := Only(s.active, s.draining, taken), Only(s.finished, put, []);
    assert Ids(s.active) + Ids(s.draining) + WindowTaken(s) <= {x};
    assert Ids(s.finished) + WindowFinished(s) <= {y};
    assert Held(s) <= {x, y};
    SubsetSize(Held(s), {x, y});
  }

  /** In every interleaving: at most one run computes, preemption empties the active slot, at most two runs are held. */
  lemma OneRunAtATime(s: State)
    requires Reachable(s)
    ensures |s.computing| <= 1
    ensures s.draining.Some? ==> s.active.None?
    ensures |Held(s)| <= 2
  {
    ReachableInv(s);
    AtMostOne(s.computing, s.active, s.draining, if s.window.Some? then s.window.value.taken else []);
    FewHeld(s);
  }

  // ---------------------------------------------------------------- no request is stranded

  /**
   A queued request waits for a run to exit or for a window to close, and once that has happened it is
   served: launched, or told that its launch failed. Nothing in between needs another request.
   */
  lemma NotStranded(s: State, launches: bool)
    requires Reachable(s) && s.pending.Some?
    ensures s.draining.Some? || s.window.Some?
    ensures exists es, t ::
              && Leads(s, es, t) && t.pending.None? && |es| <= 3
              && t.fates == s.fates + [(s.pending.value, if launches then Launched else NotifiedError)]
  {
    ReachableInv(s);
    PendingWaits(s);
    if s.window.None? {
      var es, t := ServedByDraining(s, launches);
    } else {
      var es, t := ServedByWindow(s, launches);
    }
  }

  lemma PendingWaits(s: State)
    requires Inv(s) && s.pending.Some?
    ensures s.draining.Some? || s.window.Some?
  {}

  /** These steps launch the queued request, or tell it why not. */
  ghost predicate Serves(s: State, es: seq<Event>, t: State, launches: bool)
    requires s.pending.Some?
  {
    && Leads(s, es, t) && t.pending.None? && |es| <= 3
    && t.fates == s.fates + [(s.pending.value, if launches then Launched else NotifiedError)]
  }

  lemma ServedByDraining(s: State, launches: bool) returns (es: seq<Event>, t: State)
    requires Inv(s) && s.pending.Some? && s.window.None?
    ensures Serves(s, es, t, launches)
  {
    var run := s.draining.value;
    if run in s.computing {
      var u := Step(s, Exit(run));
      t := Step(u, Settle(run, launches));
      LeadsTwo(s, Exit(run), Settle(run, launches), t);
      es := [Exit(run), Settle(run, launches)];
    } else {
      t := Step(s, Settle(run, launches));
      LeadsOne(s, Settle(run, launches), t);
      es := [Settle(run, launches)];
    }
  }

  /** Once nothing computes any more the window can be drained and closed. */
  lemma ServedAfterExit(s: State, launches: bool) returns (es: seq<Event>, t: State)
    requires s.pending.Some? && s.window.Some? && s.computing == {}
    ensures es == [Drain, Resume(launches)] && Serves(s, es, t, launches)
  {
    var v := Step(s, Drain);
    t := Step(v, Resume(launches));
    es := [Drain, Resume(launches)];
    LeadsTwo(s, Drain, Resume(launches), t);
  }

  lemma ServedByWindow(s: State, launches: bool) returns (es: seq<Event>, t: State)
    requires Inv(s) && s.pending.Some? && s.window.Some?
    ensures Serves(s, es, t, launches)
  {
    if s.window.value.drained {
      t := Step(s, Resume(launches));
      LeadsOne(s, Resume(launches), t);
      es := [Resume(launches)];
    } else if s.computing == {} {
      es, t := ServedAfterExit(s, launches);
    } else {
      var run :| run in s.computing;
      assert s.window.value.taken == [run];
      var u := Step(s, Exit(run));
      assert u.computing == {} && u.pending == s.pending && u.fates == s.fates && u.window == s.window;
      assert Enabled(s, Exit(run));
      hide Inv, Enabled, Step, Leads;
      es, t := ServedAfterExit(u, launches);
      LeadsMore(s, Exit(run), es, t);
      es := [Exit(run)] + es;
    }
  }

  lemma LeadsOne(s: State, e: Event, t: State)
    requires Enabled(s, e) && Step(s, e) == t
    ensures Leads(s, [e], t)
  {
    assert [e][1..] == [];
    assert Leads(t, [], t);
  }

  lemma LeadsMore(s: State, e: Event, es: seq<Event>, t: State)
    requires Enabled(s, e) && Leads(Step(s, e), es, t)
    ensures Leads(s, [e] + es, t)
  {
    assert ([e] + es)[1..] == es;
  }

  lemma LeadsTwo(s: State, e: Event, f: Event, t: State)
    requires Enabled(s, e) && Enabled(Step(s, e), f) && Step(Step(s, e), f) == t
    ensures Leads(s, [e, f], t)
  {
    LeadsOne(Step(s, e), f, t);
    LeadsMore(s, e, [f], t);
    assert [e] + [f] == [e, f];
  }

  // ---------------------------------------------------------------- exactly one fate

  /** The fates handed out so far are never taken back. */
  lemma {:induction false} FatesOnlyGrow(s: State, es: seq<Event>, t: State)
    requires Leads(s, es, t)
    ensures s.fates <= t.fates && s.submitted <= t.submitted
    decreases |es|
  {
    if es != [] {
      FatesOnlyGrow(Step(s, es[0]), es[1..], t);
    }
  }

  /**
   Every submitted request is queued and has met no fate, or has met exactly one; runs in the slots
   were launched.
   */
  lemma OneFate(s: State)
    requires Reachable(s)
    ensures forall id <- s.submitted :: s.pending != Some(id) <==> exists f :: (id, f) in s.fates
    ensures forall id: RunId, f, g | (id, f) in s.fates && (id, g) in s.fates :: f == g
    ensures forall j, k | 0 <= j < k < |s.fates| :: s.fates[j].0 != s.fates[k].0
    ensures forall r <- Held(s) + s.computing :: (r, Launched) in s.fates
  {
    ReachableInv(s);
    forall id: RunId | HasFate(s.fates, id)
      ensures exists f :: (id, f) in s.fates
    {
      var k :| 0 <= k < |s.fates| && s.fates[k].0 == id;
      assert (id, s.fates[k].1) in s.fates;
    }
    forall id: RunId, f | (id, f) in s.fates
      ensures HasFate(s.fates, id)
    {
      var k :| 0 <= k < |s.fates| && s.fates[k] == (id, f);
    }
  }

  /** The fate a step gives the queued request `p`, if it ends its wait. */
  ghost function DecisionAt(s: State, e: Event, p: RunId): Option<Fate> {
    match e
    case Submit(_, _) => Some(Replaced)
    case Cancel(id) => if id == p then Some(NotifiedCancelled) else None
    case Settle(run, launches) =>
      if s.window.None? && s.draining == Some(run) then Some(if launches then Launched else NotifiedError) else None
    case Resume(launches) => Some(if launches then Launched else NotifiedError)
    case _ => None
  }

  /** The fate the first such step of `es` gives it. */
  ghost function FateAlong(s: State, es: seq<Event>, p: RunId): Option<Fate>
    decreases |es|
  {
    if es == [] || !Enabled(s, es[0]) then None
    else if DecisionAt(s, es[0], p).Some? then DecisionAt(s, es[0], p)
    else FateAlong(Step(s, es[0]), es[1..], p)
  }

  /** A fate once met is the only one, and who has met one is never queued again. */
  lemma DecidedStays(s: State, es: seq<Event>, t: State, p: RunId, f: Fate)
    requires Inv(s) && Leads(s, es, t) && (p, f) in s.fates
    ensures t.pending != Some(p) && forall g :: (p, g) in t.fates <==> g == f
  {
    LeadsKeepsInv(s, es, t);
    FatesOnlyGrow(s, es, t);
    assert FatesOk(t);
    hide Inv, Leads, FatesOk;
    var k :| 0 <= k < |s.fates| && s.fates[k] == (p, f);
    assert t.fates[k] == (p, f);
    OnlyFate(t, k);
  }

  lemma OnlyFate(t: State, k: nat)
    requires FatesOk(t) && k < |t.fates|
    ensures var (p, f) := t.fates[k];
            t.pending != Some(p) && forall g :: (p, g) in t.fates <==> g == f
  {
    var (p, f) := t.fates[k];
    assert HasFate(t.fates, p);
    forall g | (p, g) in t.fates
      ensures g == f
    {
      var j :| 0 <= j < |t.fates| && t.fates[j] == (p, g);
    }
  }

  lemma QueuedStep(s: State, e: Event, p: RunId)
    requires Inv(s) && s.pending == Some(p) && Enabled(s, e)
    ensures var (u, f) := (Step(s, e), DecisionAt(s, e, p));
            && Inv(u) && (f.None? ==> u.pending == Some(p)) && (f.Some? ==> (p, f.value) in u.fates)
  {
    StepKeepsInv(s, e);
    var (u, f) := (Step(s, e), DecisionAt(s, e, p));
    if f.Some? { assert u.fates[|s.fates|] == (p, f.value); }
  }

  lemma QueuedIsUndecided(s: State, p: RunId)
    requires Inv(s) && s.pending == Some(p)
    ensures forall f :: (p, f) !in s.fates
  {
    assert !HasFate(s.fates, p);
    assert forall k | 0 <= k < |s.fates| :: s.fates[k].0 != p;
  }

  lemma {:induction false} QueuedAlong(s: State, es: seq<Event>, t: State, p: RunId)
    requires Inv(s) && s.pending == Some(p) && Leads(s, es, t)
    ensures t.pending == Some(p) <==> FateAlong(s, es, p).None?
    ensures forall f :: (p, f) in t.fates <==> FateAlong(s, es, p) == Some(f)
    decreases |es|
  {
    hide Inv, SlotsOk, FatesOk, Enabled, Step, DecisionAt;
    if es == [] {
      QueuedIsUndecided(s, p);
    } else {
      var (u, f) := (Step(s, es[0]), DecisionAt(s, es[0], p));
      QueuedStep(s, es[0], p);
      if f.None? {
        QueuedAlong(u, es[1..], t, p);
      } else {
        DecidedStays(u, es[1..], t, p, f.value);
      }
    }
  }

  /**
   On every path a queued request is still queued unless on the way the run before it settled with no window
   open, a window closed, it was cancelled, or a newer request took its place; the first of these gives it its
   one fate: launched or told of the failure, told cancelled, or replaced.
   */
  lemma ServedOnEveryPath(s: State, es: seq<Event>, t: State, p: RunId)
    requires Reachable(s) && s.pending == Some(p) && Leads(s, es, t)
    ensures t.pending == Some(p) <==> FateAlong(s, es, p).None?
    ensures forall f :: (p, f) in t.fates <==> FateAlong(s, es, p) == Some(f)
  {
    ReachableInv(s);
    QueuedAlong(s, es, t, p);
  }

  // ---------------------------------------------------------------- the latest run is the one kept

  /** The run launched last, unless a launch has failed since. */
  function Latest(fates: seq<(RunId, Fate)>): Option<RunId> {
    if fates == [] then None
    else
      var (id, f) := fates[|fates| - 1];
      if f == Launched then Some(id) else if f == NotifiedError then None else Latest(fates[..|fates| - 1])
  }

  lemma LatestAfter(fates: seq<(RunId, Fate)>, id: RunId, f: Fate)
    ensures Latest(fates + [(id, f)]) ==
            if f == Launched then Some(id) else if f == NotifiedError then None else Latest(fates)
  {
    assert (fates + [(id, f)])[..|fates|] == fates;
  }

  ghost predicate Quiet(s: State) {
    s.active.None? && s.draining.None? && (s.window.None? || s.window.value.taken == [])
  }

  /** Whoever runs, or was stopped by the open window, was launched last; if nobody is, the last run is the result. */
  ghost predicate LatestOk(s: State) {
    var last := Latest(s.fates);
    && (s.active.Some? ==> s.active == last)
    && (s.draining.Some? ==> s.draining == last)
    && (s.window.Some? && s.window.value.taken != [] ==> Some(s.window.value.taken[0]) == last)
    && (Quiet(s) && last.Some? ==>
          || last == s.finished || (s.window.Some? && last == s.window.value.finished) || last.value in s.released)
  }

  lemma LaunchKeepsLatest(s: State, launches: bool)
    requires LatestOk(s) && s.active.None? && s.draining.None? && s.window.None?
    ensures LatestOk(LaunchedPending(s, launches))
  {
    if s.pending.Some? { LatestAfter(s.fates, s.pending.value, if launches then Launched else NotifiedError); }
  }

  lemma SettleKeepsLatest(s: State, run: RunId, launches: bool)
    requires SlotsOk(s) && LatestOk(s)
    ensures LatestOk(Settled(s, run, launches))
  {
    if s.active != Some(run) && s.draining == Some(run) && s.pending.Some? {
      LatestAfter(s.fates, s.pending.value, if launches then Launched else NotifiedError);
    }
  }

  lemma StepKeepsLatest(s: State, e: Event)
    requires SlotsOk(s) && LatestOk(s) && Enabled(s, e)
    ensures LatestOk(Step(s, e))
  {
    match e
    case Submit(id, launches) =>
      if s.window.None? && s.active.None? && s.draining.None? {
        LatestAfter(s.fates, id, if launches then Launched else Refused);
      } else if s.pending.Some? {
        LatestAfter(s.fates, s.pending.value, Replaced);
      }
    case Cancel(id) => LatestAfter(s.fates, id, NotifiedCancelled);
    case Settle(run, launches) => SettleKeepsLatest(s, run, launches);
    case Resume(launches) => LaunchKeepsLatest(WithoutWindow(s), launches);
    case _ =>
  }

  lemma {:induction false} LeadsKeepsLatest(s: State, es: seq<Event>, t: State)
    requires Inv(s) && LatestOk(s) && Leads(s, es, t)
    ensures LatestOk(t)
    decreases |es|
  {
    if es != [] {
      StepKeepsInv(s, es[0]);
      StepKeepsLatest(s, es[0]);
      LeadsKeepsLatest(Step(s, es[0]), es[1..], t);
    }
  }

  /**
   The run launched last is held until a ReleaseAll window lets it go or a later launch fails; and when nothing
   runs and no window is open, it is the finished one.
   */
  lemma LatestRunKept(s: State, r: RunId)
    requires Reachable(s) && Latest(s.fates) == Some(r) && r !in s.released
    ensures r in Held(s)
    ensures s.active.None? && s.draining.None? && s.window.None? ==> s.finished == Some(r)
  {
    var es :| Leads(INITIAL, es, s);
    LeadsKeepsLatest(INITIAL, es, s);
    if s.window.Some? && s.window.value.taken != [] {
      assert s.window.value.taken[0] in Elements(s.window.value.taken);
    }
  }

  /** Short of a failure or of being let go, the latest submission is the one the user still sees. */
  lemma NewestKept(s: State)
    requires Reachable(s) && s.newest.Some?
    requires !NewestFailed(s, s.newest.value) && s.newest.value !in s.released
    ensures s.newest.value in Ids(s.active) + Ids(s.pending) + Ids(s.finished) + WindowTaken(s) + WindowFinished(s)
    ensures s.newest.value in Ids(s.finished) ==> s.active.None? && s.draining.None? && s.pending.None?
  {
    ReachableInv(s);
  }

  // ---------------------------------------------------------------- who is cancelled

  /** The run is told to stop: cancelled while active, preempted by a new request, or taken by a window. */
  ghost predicate Stops(s: State, e: Event, r: RunId) {
    match e
    case Cancel(id) => id == r && s.active == Some(r)
    case Submit(_, _) => s.active == Some(r)
    case Pause(_) => s.active == Some(r) || s.draining == Some(r)
    case _ => false
  }

  ghost predicate StoppedAlong(s: State, es: seq<Event>, r: RunId)
    decreases |es|
  {
    es != [] && Enabled(s, es[0]) && (Stops(s, es[0], r) || StoppedAlong(Step(s, es[0]), es[1..], r))
  }

  lemma StepCancels(s: State, e: Event, r: RunId)
    requires Enabled(s, e)
    ensures r in Step(s, e).cancelled <==> r in s.cancelled || Stops(s, e, r)
  {}

  /** On every path a run has been cancelled exactly when it was before, or was told to stop on the way. */
  lemma {:induction false} CancelledIffStopped(s: State, es: seq<Event>, t: State, r: RunId)
    requires Leads(s, es, t)
    ensures r in t.cancelled <==> r in s.cancelled || StoppedAlong(s, es, r)
    decreases |es|
  {
    if es != [] {
      StepCancels(s, es[0], r);
      CancelledIffStopped(Step(s, es[0]), es[1..], t, r);
    }
  }

  // ---------------------------------------------------------------- what a request meets at once

  /** Nothing runs, drains or holds a window: a new request can start. */
  ghost predicate Idle(s: State) {
    s.active.None? && s.draining.None? && s.window.None?
  }

  /**
   A request that finds nothing in its way is launched, or refused if it cannot be; any other is queued, and an
   older queued one is told that it was replaced. It preempts the active run.
   */
  lemma SubmitMeets(s: State, id: RunId, launches: bool)
    requires Inv(s) && id !in s.submitted
    ensures var t := Step(s, Submit(id, launches));
            && t.submitted == s.submitted + {id} && t.newest == Some(id)
            && (Idle(s) ==>
                  && t.fates == s.fates + [(id, if launches then Launched else Refused)]
                  && t.active == (if launches then Some(id) else None) && t.pending == s.pending)
            && (!Idle(s) ==>
                  && t.pending == Some(id) && t.active.None?
                  && t.draining == (if s.active.Some? then s.active else s.draining)
                  && t.fates == s.fates + (if s.pending.Some? then [(s.pending.value, Replaced)] else []))
  {}

  // ---------------------------------------------------------------- who computes

  /** `r` is launched between `s` and `t`. */
  ghost predicate LaunchedBetween(s: State, t: State, r: RunId) {
    (r, Launched) in t.fates && (r, Launched) !in s.fates
  }

  /** The run that the step launches, which is the one of its last fate. */
  ghost function Launching(s: State, t: State): set<RunId> {
    if |t.fates| > |s.fates| && t.fates[|s.fates|].1 == Launched then {t.fates[|s.fates|].0} else {}
  }

  lemma StepLaunches(s: State, e: Event)
    requires Enabled(s, e)
    ensures var t := Step(s, e);
            && s.fates <= t.fates && |t.fates| <= |s.fates| + 1
            && t.computing == s.computing + Launching(s, t) - (if e.Exit? then {e.run} else {})
            && t.settling == s.settling - (if e.Settle? then {e.run} else {}) + Launching(s, t)
            && (e.Exit? ==> Launching(s, t) == {})
  {}

  lemma LaunchingIsBetween(s: State, t: State, r: RunId)
    requires s.fates <= t.fates && |t.fates| <= |s.fates| + 1
    requires forall j, k | 0 <= j < k < |t.fates| :: t.fates[j].0 != t.fates[k].0
    ensures r in Launching(s, t) <==> LaunchedBetween(s, t, r)
  {}

  lemma StepComputes(s: State, e: Event, r: RunId)
    requires Inv(s) && Enabled(s, e)
    ensures var t := Step(s, e);
            && s.fates <= t.fates
            && (r in t.computing <==> e != Exit(r) && (r in s.computing || LaunchedBetween(s, t, r)))
            && (r in t.settling <==> (!(e.Settle? && e.run == r) && r in s.settling) || LaunchedBetween(s, t, r))
  {
    StepKeepsInv(s, e);
    StepLaunches(s, e);
    LaunchingIsBetween(s, Step(s, e), r);
    hide Inv, Step, Enabled, Launching, LaunchedBetween;
  }

  lemma EndsLaunched(s: State, e: Event, r: RunId)
    requires Inv(s) && Enabled(s, e) && (e == Exit(r) || (e.Settle? && e.run == r))
    ensures (r, Launched) in s.fates
  {
    assert forall q <- Held(s) + s.settling :: (q, Launched) in s.fates;
  }

  ghost predicate NotSettled(es: seq<Event>, r: RunId) {
    forall e <- es :: !(e.Settle? && e.run == r)
  }

  /** Along a path the runs computing are those that did, or were launched on the way, and have not exited on it. */
  lemma {:induction false} ComputesUntilExit(s: State, es: seq<Event>, t: State, r: RunId)
    requires Inv(s) && Leads(s, es, t)
    ensures r in t.computing <==> Exit(r) !in es && (r in s.computing || LaunchedBetween(s, t, r))
    ensures r in t.settling <==> NotSettled(es, r) && (r in s.settling || LaunchedBetween(s, t, r))
    decreases |es|
  {
    if es != [] {
      var e, u := es[0], Step(s, es[0]);
      assert es == [e] + es[1..] && Enabled(s, e) && Leads(u, es[1..], t);
      if e == Exit(r) || (e.Settle? && e.run == r) { EndsLaunched(s, e, r); }
      hide Inv, Step, Enabled, Leads;
      StepKeepsInv(s, e);
      StepComputes(s, e, r);
      FatesOnlyGrow(u, es[1..], t);
      ComputesUntilExit(u, es[1..], t, r);
    }
  }

  /** In every execution a run computes from its launch to its exit, and has a settling thread until that is done. */
  lemma ComputingIsLaunchedNotExited(es: seq<Event>, t: State, r: RunId)
    requires Leads(INITIAL, es, t)
    ensures r in t.computing <==> (r, Launched) in t.fates && Exit(r) !in es
    ensures r in t.settling <==> (r, Launched) in t.fates && NotSettled(es, r)
  {
    ComputesUntilExit(INITIAL, es, t, r);
  }

  // ---------------------------------------------------------------- maintenance windows

  ghost predicate NoResume(es: seq<Event>) {
    forall e <- es :: !e.Resume?
  }

  /** While a window is open nothing is launched: no run starts, whatever else happens. */
  lemma {:induction false} NothingStartsInWindow(s: State, es: seq<Event>, t: State)
    requires Inv(s) && s.window.Some? && Leads(s, es, t) && NoResume(es)
    ensures t.window.Some? && t.window.value.mode == s.window.value.mode
    ensures t.computing <= s.computing
    ensures forall id: RunId :: (id, Launched) in t.fates <==> (id, Launched) in s.fates
    ensures s.window.value.drained ==> t.window.value.drained && t.computing == {}
    ensures t.finished == s.finished
    ensures s.window.value.mode == KeepResults ==> t.window.value.taken == s.window.value.taken
    decreases |es|
  {
    if es != [] {
      StepKeepsInv(s, es[0]);
      assert es[0] in es;
      var u := Step(s, es[0]);
      assert u.window.Some? && u.computing <= s.computing;
      assert |u.fates| > |s.fates| ==>
          u.fates == s.fates + [u.fates[|s.fates|]] && u.fates[|s.fates|].1 != Launched;
      assert forall e <- es[1..] :: e in es;
      NothingStartsInWindow(u, es[1..], t);
    }
  }

  /**
   From the moment a ReleaseAll window has drained until it closes, no slot and no window holds a run;
   and while any window is open, another one cannot be opened.
   */
  lemma WindowIsQuiet(s: State, es: seq<Event>, t: State)
    requires Reachable(s) && s.window.Some? && s.window.value.drained
    requires Leads(s, es, t) && NoResume(es)
    ensures t.computing == {} && !Enabled(t, Pause(KeepResults)) && !Enabled(t, Pause(ReleaseAll))
    ensures s.window.value.mode == ReleaseAll ==> Held(t) == {}
  {
    ReachableInv(s);
    NothingStartsInWindow(s, es, t);
    LeadsKeepsInv(s, es, t);
  }

  lemma PauseTakes(s: State, run: RunId)
    requires Inv(s) && s.window.None? && (s.active == Some(run) || s.draining == Some(run))
    ensures var u := Step(s, Pause(KeepResults));
            && Inv(u) && run in u.cancelled && u.window.Some?
            && u.window.value.mode == KeepResults && u.window.value.taken == [run]
  {
    StepKeepsInv(s, Pause(KeepResults));
    assert Elements([run]) == {run};
  }

  lemma ResumeGivesBack(t: State, launches: bool, run: RunId)
    requires Inv(t) && Enabled(t, Resume(launches)) && t.window.value.taken == [run]
    ensures Step(t, Resume(launches)).finished == Some(run) && run !in t.computing
  {}

  /** A KeepResults window that stopped a run gives it back as the finished one. */
  lemma InterruptedIsKept(s: State, es: seq<Event>, t: State, launches: bool, run: RunId)
    requires Reachable(s) && s.window.None? && (s.active == Some(run) || s.draining == Some(run))
    requires Leads(Step(s, Pause(KeepResults)), es, t) && NoResume(es) && Enabled(t, Resume(launches))
    ensures Step(t, Resume(launches)).finished == Some(run)
    ensures run in t.cancelled && run !in t.computing
  {
    hide Inv, Step, Leads, Reachable;
    ReachableInv(s);
    var u := Step(s, Pause(KeepResults));
    PauseTakes(s, run);
    NothingStartsInWindow(u, es, t);
    LeadsKeepsInv(u, es, t);
    ResumeGivesBack(t, launches, run);
    CancelledStays(u, es, t);
  }

  lemma {:induction false} CancelledStays(s: State, es: seq<Event>, t: State)
    requires Leads(s, es, t)
    ensures s.cancelled <= t.cancelled
    decreases |es|
  {
    if es != [] {
      CancelledStays(Step(s, es[0]), es[1..], t);
    }
  }
}

module RunManager {
  import opened Outcomes
  import opened RunSteps

  /** The slots. Everything ghost is the history that `RunSteps.State` speaks of. */
  class RunManager {
    var active: Option<RunId>
    var draining: Option<RunId>
    var pending: Option<RunId>
    var finished: Option<RunId>
    var paused: bool

    ghost var window: Paused?
    ghost var computing: set<RunId>
    ghost var cancelled: set<RunId>
    ghost var settling: set<RunId>
    ghost var fates: seq<(RunId, Fate)>
    ghost var submitted: set<RunId>
    ghost var newest: Option<RunId>
    ghost var released: set<RunId>

    ghost function Abstract(): State
      reads this, window
    {
      State(active, draining, pending, finished,
            if window == null then None
            else Some(Window(window.mode, window.taken, window.finished, window.drained)),
            computing, cancelled, settling, fates, submitted, newest, released)
    }

    ghost predicate Valid()
      reads this, window
    {
      && paused == (window != null)
      && (window != null ==> window.manager == this)
      && Inv(Abstract())
    }

    constructor ()
      ensures Valid() && Abstract() == INITIAL
    {
      active, draining, pending, finished, paused := None, None, None, None, false;
      window := null;
      computing, cancelled, settling, fates, submitted, newest, released := {}, {}, {}, [], {}, None, {};
    }

    /** Makes `id` the active run and starts the thread that will settle it. */
    method Activate(id: RunId)
      modifies this
      ensures Abstract() == Activated(old(Abstract()), id)
      ensures paused == old(paused) && window == old(window)
    {
      active := Some(id);
      computing, settling, fates := computing + {id}, settling + {id}, fates + [(id, Launched)];
    }

    /** Starts `id` at once if nothing is in the way, else preempts and queues. Waits for nothing. */
    method Submit(id: RunId, launches: bool) returns (ok: bool)
      requires Valid() && id !in submitted
      modifies this
      ensures Valid() && window == old(window)
      ensures Abstract() == Submitted(old(Abstract()), id, launches)
      ensures ok <==> launches || old(paused || active.Some? || draining.Some?)
    {
      StepKeepsInv(Abstract(), RunSteps.Submit(id, launches));
      ghost var after := Submitted(Abstract(), id, launches);
      submitted, newest := submitted + {id}, Some(id);
      if paused || active.Some? || draining.Some? {
        Enqueue(id);
        ok := true;
      } else {
        if launches {
          Activate(id);
        } else {
          fates := fates + [(id, Refused)];
        }
        ok := launches;
      }
      assert Abstract() == after;
    }

    /** Cancels the active run, moves it out of the way and leaves `id` as the only request in the queue. */
    method Enqueue(id: RunId)
      modifies this
      ensures Abstract() == old(Abstract()).(
                active := None,
                draining := if old(active).Some? then old(active) else old(draining),
                cancelled := old(cancelled) + Ids(old(active)),
                pending := Some(id),
                fates := if old(pending).Some? then old(fates) + [(old(pending).value, Replaced)] else old(fates))
      ensures paused == old(paused) && window == old(window)
    {
      if active.Some? {
        cancelled := cancelled + Ids(active);
        draining := active;
        active := None;
      }
      if pending.Some? {
        fates := fates + [(pending.value, Replaced)];
      }
      pending := Some(id);
    }

    /** The critical section of a run's settling thread, after its join. */
    method Settle(run: RunId, launches: bool)
      requires Valid() && run in settling && run !in computing
      modifies this
      ensures Valid() && window == old(window)
      ensures Abstract() == Settled(old(Abstract()), run, launches)
    {
      StepKeepsInv(Abstract(), RunSteps.Settle(run, launches));
      settling := settling - {run};
      if active == Some(run) {
        finished := active;
        active := None;
        return;
      }
      if draining != Some(run) {
        return;
      }
      draining := None;
      if pending.None? {
        finished := Some(run);
        return;
      }
      TakePending(launches);
    }

    method TakePending(launches: bool)
      modifies this
      ensures Abstract() == LaunchedPending(old(Abstract()), launches)
      ensures paused == old(paused) && window == old(window)
    {
      if pending.Some? {
        var id := pending.value;
        pending := None;
        if launches {
          Activate(id);
        } else {
          fates := fates + [(id, NotifiedError)];
        }
      }
    }

    method Cancel(id: RunId)
      requires Valid()
      modifies this
      ensures Valid() && window == old(window)
      ensures Abstract() == Cancelled(old(Abstract()), id)
    {
      StepKeepsInv(Abstract(), RunSteps.Cancel(id));
      if active == Some(id) {
        cancelled := cancelled + {id};
      } else if pending == Some(id) {
        pending := None;
        fates := fates + [(id, NotifiedCancelled)];
      }
    }

    /** Takes the runs that compute out of their slots and cancels them. */
    method Stop(mode: PauseMode) returns (taken: seq<RunId>, put: Option<RunId>)
      requires window == null && !paused
      modifies this
      ensures window == null && paused
      ensures taken == old(Listed(active) + Listed(draining))
              && put == old(if mode == ReleaseAll then finished else None)
      ensures Abstract() == PausedBy(old(Abstract()), mode).(window := None)
    {
      paused := true;
      taken := Listed(active) + Listed(draining);
      active, draining := None, None;
      put := None;
      if mode == ReleaseAll {
        put := finished;
        finished := None;
      }
      cancelled := cancelled + Elements(taken);
    }

    /** Opens a window; the wait for the one before it is over. The stopped run is cancelled outside the lock. */
    method Pause(mode: PauseMode) returns (w: Paused)
      requires Valid() && !paused
      modifies this
      ensures Valid() && fresh(w) && window == w
      ensures Abstract() == PausedBy(old(Abstract()), mode)
    {
      StepKeepsInv(Abstract(), RunSteps.Pause(mode));
      var taken, put := Stop(mode);
      w := new Paused(this, mode, taken, put);
      window := w;
    }
  }

  /** An open maintenance window. */
  class Paused {
    const manager: RunManager
    const mode: PauseMode
    var taken: seq<RunId>
    var finished: Option<RunId>
    var drained: bool

    constructor (manager: RunManager, mode: PauseMode, taken: seq<RunId>, finished: Option<RunId>)
      ensures this.manager == manager && this.mode == mode && this.taken == taken
      ensures this.finished == finished && !drained
    {
      this.manager, this.mode, this.taken, this.finished, drained := manager, mode, taken, finished, false;
    }

    /** Once the stopped run has exited. */
    method Drain()
      requires manager.Valid() && manager.window == this
      requires Elements(taken) !! manager.computing
      modifies this, manager`released
      ensures manager.Valid() && manager.window == this
      ensures manager.Abstract() == Drained(old(manager.Abstract()))
    {
      StepKeepsInv(manager.Abstract(), RunSteps.Drain);
      if mode == ReleaseAll {
        manager.released := manager.released + Elements(taken) + Ids(finished);
        taken := [];
        finished := None;
      }
      drained := true;
    }

    /** Closes the window: gives the stopped run back and starts the queued request. */
    method Drop(launches: bool)
      requires manager.Valid() && manager.window == this
      requires !drained ==> Elements(taken) !! manager.computing
      modifies this, manager
      ensures manager.Valid() && !manager.paused
      ensures manager.Abstract() ==
              Resumed(if old(drained) then old(manager.Abstract()) else Drained(old(manager.Abstract())), launches)
    {
      if !drained {
        Drain();
      }
      Close(launches);
    }

    /** Gives the stopped run back to its slot and takes the window off the manager. */
    method GiveBack()
      requires manager.Valid() && manager.window == this && drained
      modifies this, manager
      ensures !manager.paused && manager.window == null
      ensures manager.Abstract() == WithoutWindow(old(manager.Abstract()))
    {
      if |taken| > 0 {
        manager.finished := Some(taken[|taken| - 1]);
        taken := taken[..|taken| - 1];
      }
      manager.paused := false;
      manager.window := null;
    }

    /** The critical section of the drop. */
    method Close(launches: bool)
      requires manager.Valid() && manager.window == this && drained
      modifies this, manager
      ensures manager.Valid() && !manager.paused
      ensures manager.Abstract() == Resumed(old(manager.Abstract()), launches)
    {
      StepKeepsInv(manager.Abstract(), Resume(launches));
      GiveBack();
      manager.TakePending(launches);
    }
  }
}
