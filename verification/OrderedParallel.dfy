/**
 Running jobs on several threads and handing their results over in order (bridge/src/eval.rs), and the
 group that cancels the runs of such a batch together (bridge/src/cli.rs).

 The workers, the channel and the receiving loop are a state machine whose events are the atomic
 actions of the threads, so an execution is any interleaving of them. What `take` answers may depend on
 everything it was given; what a job yields depends on its index, except where a lemma says otherwise.
 */
module OrderedParallel {
  import opened Outcomes

  datatype Batch<!T, !E, !R> = Batch(start: nat, end: nat, work: nat -> Result<T, E>, take: seq<T> -> Option<R>)

  datatype Worker<+T, +E> =
    | Checking | Claiming | Working(index: nat) | Sending(index: nat, result: Result<T, E>) | Exited

  /** `made` records what each job yielded; `taken` is what `take` was given so far. */
  datatype State<T, E, R> = State(
    next: nat, stop: bool, cancelled: bool, workers: seq<Worker<T, E>>, channel: seq<(nat, Result<T, E>)>,
    ready: map<nat, Result<T, E>>, want: nat, taken: seq<T>, outcome: Option<Result<Option<R>, E>>,
    made: map<nat, Result<T, E>>)

  datatype Event<T, E> =
    | Check(w: nat)
    | Claim(w: nat)
    | Finish(w: nat, result: Result<T, E>)
    | Send(w: nat)
    | Receive
    | Close
    | CancelGroup

  /** What one job after the other would have given. */
  ghost function Sequential<T, E, R>(b: Batch<T, E, R>, k: nat, taken: seq<T>): (seq<T>, Result<Option<R>, E>)
    decreases b.end - k
  {
    if k >= b.end then (taken, Ok(None))
    else
      match b.work(k)
      case Err(e) => (taken, Err(e))
      case Ok(t) =>
        match b.take(taken + [t])
        case Some(r) => (taken + [t], Ok(Some(r)))
        case None => Sequential(b, k + 1, taken + [t])
  }

  // ---------------------------------------------------------------- the receiving loop

  function Rest<V>(ready: map<nat, V>, want: nat): (rest: map<nat, V>)
    requires want in ready
    ensures |rest| < |ready|
  {
    var rest := map k | k in ready && k != want :: ready[k];
    assert ready.Keys == rest.Keys + {want};
    assert |rest.Keys| == |ready.Keys| - 1;
    rest
  }

  /** One turn of the receiving loop: the result that is wanted goes out. */
  function DeliverOne<T, E, R>(b: Batch<T, E, R>, s: State<T, E, R>): (t: State<T, E, R>)
    requires s.want in s.ready
    ensures |t.ready| < |s.ready|
  {
    var t := s.(ready := Rest(s.ready, s.want), want := s.want + 1);
    match s.ready[s.want]
    case Err(e) => t.(stop := true, cancelled := true, outcome := Some(Err(e)))
    case Ok(v) =>
      var u := t.(taken := s.taken + [v]);
      match b.take(u.taken)
      case Some(r) => u.(stop := true, cancelled := true, outcome := Some(Ok(Some(r))))
      case None => u
  }

  /** Hands over what is ready in order, until something is missing or the batch is over. */
  function Deliver<T, E, R>(b: Batch<T, E, R>, s: State<T, E, R>): State<T, E, R>
    decreases |s.ready|
  {
    if s.want !in s.ready then s
    else
      var t := DeliverOne(b, s);
      if t.outcome.Some? then t else Deliver(b, t)
  }

  /** What `Deliver` says of the local variables of the receiving loop. */
  ghost predicate Delivering<T, E, R>(b: Batch<T, E, R>, s: State<T, E, R>, ready: map<nat, Result<T, E>>, want: nat,
                                      taken: seq<T>, outcome: Option<Result<Option<R>, E>>)
  {
    var d := Deliver(b, s);
    if outcome.None? then d == Deliver(b, s.(ready := ready, want := want, taken := taken))
    else d.ready == ready && d.want == want && d.taken == taken && d.outcome == outcome
  }

  lemma DeliverTurn<T, E, R>(b: Batch<T, E, R>, s: State<T, E, R>, ready: map<nat, Result<T, E>>, want: nat,
                             taken: seq<T>)
    requires s.outcome.None? && want in ready && Delivering(b, s, ready, want, taken, None)
    ensures var rest := Rest(ready, want);
            match ready[want]
            case Err(e) => Delivering(b, s, rest, want + 1, taken, Some(Err(e)))
            case Ok(v) =>
              match b.take(taken + [v])
              case Some(r) => Delivering(b, s, rest, want + 1, taken + [v], Some(Ok(Some(r))))
              case None => Delivering(b, s, rest, want + 1, taken + [v], None)
  {
    var u := s.(ready := ready, want := want, taken := taken);
    hide Deliver, Rest;
    DeliverNext(b, u);
  }

  lemma DeliverNext<T, E, R>(b: Batch<T, E, R>, s: State<T, E, R>)
    requires s.want in s.ready
    ensures var t := DeliverOne(b, s);
            Deliver(b, s) == if t.outcome.Some? then t else Deliver(b, t)
  {
    hide DeliverOne;
  }

  /** The loop of the receiving thread for one message. */
  method DeliverReady<T, E, R>(b: Batch<T, E, R>, ready0: map<nat, Result<T, E>>, want0: nat, taken0: seq<T>,
                               ghost s: State<T, E, R>)
    returns (ready: map<nat, Result<T, E>>, want: nat, taken: seq<T>, outcome: Option<Result<Option<R>, E>>)
    requires s.ready == ready0 && s.want == want0 && s.taken == taken0 && s.outcome.None?
    ensures var d := Deliver(b, s);
            d.ready == ready && d.want == want && d.taken == taken && d.outcome == outcome
  {
    ready, want, taken, outcome := ready0, want0, taken0, None;
    while outcome.None? && want in ready
      invariant Delivering(b, s, ready, want, taken, outcome)
      decreases |ready|
    {
      DeliverTurn(b, s, ready, want, taken);
      hide Delivering;
      var result := ready[want];
      ready := Rest(ready, want);
      want := want + 1;
      match result {
        case Err(e) =>
          outcome := Some(Err(e));
        case Ok(v) =>
          taken := taken + [v];
          match b.take(taken) {
            case Some(r) => outcome := Some(Ok(Some(r)));
            case None =>
          }
      }
    }
  }

  // ---------------------------------------------------------------- the state machine

  ghost function Initial<T, E, R>(b: Batch<T, E, R>, jobs: nat): State<T, E, R> {
    var width := if b.start < b.end then b.end - b.start else 0;
    State(b.start, false, false, seq(if jobs < width then jobs else width, _ => Checking), [], map[], b.start, [],
          None, map[])
  }

  ghost predicate Enabled<T, E, R>(b: Batch<T, E, R>, s: State<T, E, R>, e: Event<T, E>) {
    match e
    case Check(w) => w < |s.workers| && s.workers[w].Checking?
    case Claim(w) => w < |s.workers| && s.workers[w].Claiming?
    case Finish(w, _) => w < |s.workers| && s.workers[w].Working?
    case Send(w) => w < |s.workers| && s.workers[w].Sending?
    case Receive => s.outcome.None? && s.channel != []
    case Close => s.outcome.None? && s.channel == [] && forall w <- s.workers :: w.Exited?
    case CancelGroup => !s.cancelled
  }

  ghost function Step<T, E, R>(b: Batch<T, E, R>, s: State<T, E, R>, e: Event<T, E>): State<T, E, R>
    requires Enabled(b, s, e)
  {
    match e
    case Check(w) => s.(workers := s.workers[w := if s.stop || s.cancelled then Exited else Claiming])
    case Claim(w) =>
      s.(next := s.next + 1, workers := s.workers[w := if s.next >= b.end then Exited else Working(s.next)])
    case Finish(w, result) =>
      var k := s.workers[w].index;
      s.(workers := s.workers[w := Sending(k, result)], made := s.made[k := result], stop := s.stop || result.Err?)
    case Send(w) =>
      s.(workers := s.workers[w := Checking], channel := s.channel + [(s.workers[w].index, s.workers[w].result)])
    case Receive =>
      Deliver(b, s.(channel := s.channel[1..], ready := s.ready[s.channel[0].0 := s.channel[0].1]))
    case Close => s.(outcome := Some(Ok(None)))
    case CancelGroup => s.(cancelled := true)
  }

  ghost predicate Leads<T, E, R>(b: Batch<T, E, R>, s: State<T, E, R>, es: seq<Event<T, E>>, t: State<T, E, R>)
    decreases |es|
  {
    if es == [] then s == t
    else Enabled(b, s, es[0]) && Leads(b, Step(b, s, es[0]), es[1..], t)
  }

  // ---------------------------------------------------------------- what every step keeps

  ghost predicate IsBusy<T, E>(w: Worker<T, E>, k: nat) {
    (w.Working? || w.Sending?) && w.index == k
  }

  ghost predicate BusyWith<T, E, R>(s: State<T, E, R>, k: nat) {
    exists w :: 0 <= w < |s.workers| && IsBusy(s.workers[w], k)
  }

  ghost predicate InChannel<T, E, R>(s: State<T, E, R>, k: nat) {
    exists c :: 0 <= c < |s.channel| && s.channel[c].0 == k
  }

  /** Each job is with one worker, and every record of its result is the same. */
  ghost predicate RecordsOk<T, E, R>(b: Batch<T, E, R>, s: State<T, E, R>) {
    && b.start <= s.next
    && (forall k <- s.made :: b.start <= k < s.next && k < b.end)
    && (forall w | 0 <= w < |s.workers| && s.workers[w].Working? ::
          b.start <= s.workers[w].index < s.next && s.workers[w].index < b.end && s.workers[w].index !in s.made)
    && (forall w | 0 <= w < |s.workers| && s.workers[w].Sending? ::
          s.workers[w].index in s.made && s.made[s.workers[w].index] == s.workers[w].result)
    && (forall v, w | 0 <= v < w < |s.workers| && s.workers[v].Working? && s.workers[w].Working? ::
          s.workers[v].index != s.workers[w].index)
    && (forall c | 0 <= c < |s.channel| :: s.channel[c].0 in s.made && s.made[s.channel[c].0] == s.channel[c].1)
    && (forall k <- s.ready :: k in s.made && s.made[k] == s.ready[k])
  }

  /** No claimed job is lost: it is being worked on, in the channel, waiting its turn, or handed over. */
  ghost predicate NothingLost<T, E, R>(b: Batch<T, E, R>, s: State<T, E, R>) {
    forall k | b.start <= k < s.next && k < b.end && s.want <= k :: BusyWith(s, k) || InChannel(s, k) || k in s.ready
  }

  /** `k` jobs in a row, from the first on, yielded the values handed over. */
  ghost predicate HandedOver<T, E, R>(b: Batch<T, E, R>, s: State<T, E, R>, n: nat) {
    && |s.taken| == n
    && (forall k: nat | b.start <= k < b.start + n :: k in s.made && s.made[k] == Ok(s.taken[k - b.start]))
    && (forall i | 0 < i < n :: b.take(s.taken[..i]).None?)
  }

  /** What was handed over is the results from the first job on, without a gap, up to where the batch stands. */
  ghost predicate InOrder<T, E, R>(b: Batch<T, E, R>, s: State<T, E, R>) {
    && b.start <= s.want
    && match s.outcome
       case None => HandedOver(b, s, s.want - b.start) && (s.taken != [] ==> b.take(s.taken).None?)
       case Some(Ok(None)) => HandedOver(b, s, s.want - b.start) && (s.taken != [] ==> b.take(s.taken).None?)
       case Some(Ok(Some(r))) => HandedOver(b, s, s.want - b.start) && s.taken != [] && b.take(s.taken) == Some(r)
       case Some(Err(e)) =>
         && b.start < s.want && HandedOver(b, s, s.want - 1 - b.start) && (s.taken != [] ==> b.take(s.taken).None?)
         && s.want - 1 in s.made && s.made[s.want - 1] == Err(e)
  }

  /** Workers stop only because all is claimed, a job failed, or the group was cancelled. */
  ghost predicate StopsForCause<T, E, R>(b: Batch<T, E, R>, s: State<T, E, R>) {
    && (s.stop && s.outcome.None? ==> exists k :: k in s.made && s.made[k].Err?)
    && (forall w | 0 <= w < |s.workers| && s.workers[w].Exited? :: s.stop || s.cancelled || s.next >= b.end)
    && (s.outcome.Some? && s.outcome.value != Ok(None) ==> s.stop && s.cancelled)
  }

  ghost predicate Kept<T, E, R>(b: Batch<T, E, R>, s: State<T, E, R>) {
    RecordsOk(b, s) && InOrder(b, s) && StopsForCause(b, s) && (s.outcome.None? ==> NothingLost(b, s))
  }

  ghost predicate Inv<T, E, R>(b: Batch<T, E, R>, s: State<T, E, R>) {
    Kept(b, s) && (s.outcome.None? ==> s.want !in s.ready)
  }

  lemma InitialInv<T, E, R>(b: Batch<T, E, R>, jobs: nat)
    ensures Inv(b, Initial(b, jobs))
  {}

  /** One result handed over. */
  lemma HandOne<T, E, R>(b: Batch<T, E, R>, s: State<T, E, R>, v: T)
    requires b.start <= s.want && HandedOver(b, s, s.want - b.start) && (s.taken != [] ==> b.take(s.taken).None?)
    requires s.want in s.made && s.made[s.want] == Ok(v)
    ensures HandedOver(b, s.(taken := s.taken + [v], want := s.want + 1), s.want + 1 - b.start)
  {
    var t := s.(taken := s.taken + [v], want := s.want + 1);
    var n := s.want - b.start;
    forall i | 0 < i < n + 1
      ensures b.take(t.taken[..i]).None?
    {
      assert t.taken[..i] == s.taken[..i];
      if i == n { assert s.taken[..n] == s.taken; }
    }
  }

  lemma DeliverOneInOrder<T, E, R>(b: Batch<T, E, R>, s: State<T, E, R>)
    requires InOrder(b, s) && s.outcome.None? && s.want in s.ready
    requires s.want in s.made && s.made[s.want] == s.ready[s.want]
    ensures InOrder(b, DeliverOne(b, s))
  {
    match s.ready[s.want]
    case Ok(v) =>
      HandOne(b, s, v);
      hide HandedOver;
    case Err(e) =>
      var t := DeliverOne(b, s);
      assert HandedOver(b, t, s.want - b.start);
      hide HandedOver;
  }

  lemma DeliverOneMoves<T, E, R>(b: Batch<T, E, R>, s: State<T, E, R>)
    requires s.want in s.ready
    ensures var t := DeliverOne(b, s);
            && t.want == s.want + 1 && t.ready == Rest(s.ready, s.want)
            && t.workers == s.workers && t.channel == s.channel && t.next == s.next && t.made == s.made
  {}

  lemma DeliverOneKeeps<T, E, R>(b: Batch<T, E, R>, s: State<T, E, R>)
    requires Kept(b, s) && s.outcome.None? && s.want in s.ready
    ensures Kept(b, DeliverOne(b, s))
  {
    DeliverOneInOrder(b, s);
    DeliverOneMoves(b, s);
    hide DeliverOne, RecordsOk, NothingLost;
    SkipsOne(b, s, DeliverOne(b, s));
  }

  lemma {:induction false} DeliverKeeps<T, E, R>(b: Batch<T, E, R>, s: State<T, E, R>)
    requires Kept(b, s) && s.outcome.None?
    ensures Inv(b, Deliver(b, s))
    decreases |s.ready|
  {
    if s.want in s.ready {
      DeliverOneKeeps(b, s);
      if DeliverOne(b, s).outcome.None? { DeliverKeeps(b, DeliverOne(b, s)); }
    }
  }

  lemma SkipsOne<T, E, R>(b: Batch<T, E, R>, s: State<T, E, R>, t: State<T, E, R>)
    requires RecordsOk(b, s) && NothingLost(b, s) && s.want in s.ready && t.want == s.want + 1
    requires t.ready == Rest(s.ready, s.want)
    requires t.workers == s.workers && t.channel == s.channel && t.next == s.next && t.made == s.made
    ensures RecordsOk(b, t) && NothingLost(b, t)
  {
    forall k | b.start <= k < t.next && k < b.end && t.want <= k
      ensures BusyWith(t, k) || InChannel(t, k) || k in t.ready
    {
      assert BusyWith(s, k) || InChannel(s, k) || k in s.ready;
      if BusyWith(s, k) { assert BusyWith(t, k); }
      if InChannel(s, k) { assert InChannel(t, k); }
    }
  }

  lemma ReceiveKeeps<T, E, R>(b: Batch<T, E, R>, s: State<T, E, R>)
    requires Inv(b, s) && Enabled(b, s, Receive)
    ensures Inv(b, Step(b, s, Receive))
  {
    var t := s.(channel := s.channel[1..], ready := s.ready[s.channel[0].0 := s.channel[0].1]);
    assert forall c | 0 <= c < |t.channel| :: t.channel[c] == s.channel[c + 1];
    forall k | b.start <= k < t.next && k < b.end && t.want <= k
      ensures BusyWith(t, k) || InChannel(t, k) || k in t.ready
    {
      if BusyWith(s, k) {
        var w :| 0 <= w < |s.workers| && IsBusy(s.workers[w], k);
        assert IsBusy(t.workers[w], k);
      } else if InChannel(s, k) {
        var c :| 0 <= c < |s.channel| && s.channel[c].0 == k;
        if c > 0 { assert t.channel[c - 1].0 == k; }
      }
    }
    DeliverKeeps(b, t);
  }

  /** A step of one worker, seen from the jobs: those it was not busy with stay where they were. */
  lemma WorkerKeepsOthers<T, E, R>(b: Batch<T, E, R>, s: State<T, E, R>, t: State<T, E, R>, w: nat)
    requires w < |s.workers| == |t.workers|
             && (forall v | 0 <= v < |s.workers| && v != w :: t.workers[v] == s.workers[v])
    requires s.channel <= t.channel && t.ready == s.ready && t.want == s.want
    requires NothingLost(b, s) && s.next <= t.next
    requires forall k | b.start <= k < t.next && k < b.end && s.want <= k && (s.next <= k || IsBusy(s.workers[w], k)) ::
               IsBusy(t.workers[w], k) || InChannel(t, k)
    ensures NothingLost(b, t)
  {
    forall k | b.start <= k < t.next && k < b.end && t.want <= k
      ensures BusyWith(t, k) || InChannel(t, k) || k in t.ready
    {
      if s.next <= k || IsBusy(s.workers[w], k) {
        assert IsBusy(t.workers[w], k) || InChannel(t, k);
      } else if BusyWith(s, k) {
        var v :| 0 <= v < |s.workers| && IsBusy(s.workers[v], k);
        assert IsBusy(t.workers[v], k);
      } else if InChannel(s, k) {
        var c :| 0 <= c < |s.channel| && s.channel[c].0 == k;
        assert t.channel[c].0 == k;
      }
    }
  }

  /** Results once recorded stay, so what was handed over stays what it was. */
  lemma OrderStays<T, E, R>(b: Batch<T, E, R>, s: State<T, E, R>, t: State<T, E, R>)
    requires InOrder(b, s) && t.taken == s.taken && t.want == s.want && t.outcome == s.outcome
    requires forall k <- s.made :: k in t.made && t.made[k] == s.made[k]
    ensures InOrder(b, t)
  {
    forall n | HandedOver(b, s, n)
      ensures HandedOver(b, t, n)
    {
    }
  }

  lemma FinishKeeps<T, E, R>(b: Batch<T, E, R>, s: State<T, E, R>, w: nat, result: Result<T, E>)
    requires Inv(b, s) && Enabled(b, s, Finish(w, result))
    ensures Inv(b, Step(b, s, Finish(w, result)))
  {
    var t := Step(b, s, Finish(w, result));
    if s.outcome.None? { WorkerKeepsOthers(b, s, t, w); }
    OrderStays(b, s, t);
    if result.Err? { assert t.made[s.workers[w].index].Err?; }
    if s.stop && s.outcome.None? {
      var k :| k in s.made && s.made[k].Err?;
      assert k in t.made && t.made[k].Err?;
    }
  }

  lemma SendKeeps<T, E, R>(b: Batch<T, E, R>, s: State<T, E, R>, w: nat)
    requires Inv(b, s) && Enabled(b, s, Send(w))
    ensures Inv(b, Step(b, s, Send(w)))
  {
    var t := Step(b, s, Send(w));
    assert t.channel[|s.channel|].0 == s.workers[w].index;
    assert InChannel(t, s.workers[w].index);
    if s.outcome.None? { WorkerKeepsOthers(b, s, t, w); }
    OrderStays(b, s, t);
  }

  lemma ClaimKeeps<T, E, R>(b: Batch<T, E, R>, s: State<T, E, R>, w: nat)
    requires Inv(b, s) && Enabled(b, s, Claim(w))
    ensures Inv(b, Step(b, s, Claim(w)))
  {
    var t := Step(b, s, Claim(w));
    if s.outcome.None? { WorkerKeepsOthers(b, s, t, w); }
    OrderStays(b, s, t);
  }

  lemma CheckKeeps<T, E, R>(b: Batch<T, E, R>, s: State<T, E, R>, w: nat)
    requires Inv(b, s) && Enabled(b, s, Check(w))
    ensures Inv(b, Step(b, s, Check(w)))
  {
    var t := Step(b, s, Check(w));
    if s.outcome.None? { WorkerKeepsOthers(b, s, t, w); }
    OrderStays(b, s, t);
  }

  lemma StepKeepsInv<T, E, R>(b: Batch<T, E, R>, s: State<T, E, R>, e: Event<T, E>)
    requires Inv(b, s) && Enabled(b, s, e)
    ensures Inv(b, Step(b, s, e))
  {
    match e
    case Check(w) => CheckKeeps(b, s, w);
    case Claim(w) => ClaimKeeps(b, s, w);
    case Finish(w, result) => FinishKeeps(b, s, w, result);
    case Send(w) => SendKeeps(b, s, w);
    case Receive => ReceiveKeeps(b, s);
    case Close =>
    case CancelGroup =>
      var t := Step(b, s, e);
      OrderStays(b, s, t);
      if s.outcome.None? {
        forall k | b.start <= k < t.next && k < b.end && t.want <= k
          ensures BusyWith(t, k) || InChannel(t, k) || k in t.ready
        {
          assert BusyWith(s, k) ==> BusyWith(t, k);
          assert InChannel(s, k) ==> InChannel(t, k);
        }
      }
  }

  lemma {:induction false} LeadsKeepsInv<T, E, R>(b: Batch<T, E, R>, s: State<T, E, R>, es: seq<Event<T, E>>,
                                                  t: State<T, E, R>)
    requires Inv(b, s) && Leads(b, s, es, t)
    ensures Inv(b, t)
    decreases |es|
  {
    if es != [] {
      StepKeepsInv(b, s, es[0]);
      LeadsKeepsInv(b, Step(b, s, es[0]), es[1..], t);
    }
  }

  // ---------------------------------------------------------------- every schedule gives the sequential result

  lemma OrderGivesPrefix<T, E, R>(b: Batch<T, E, R>, s: State<T, E, R>)
    requires InOrder(b, s)
    ensures HandedOver(b, s, |s.taken|)
  {}

  /** In every schedule, cancelled or not, `take` is given the results from the first job on, without gap or repeat. */
  lemma HandedOverInOrder<T, E, R>(b: Batch<T, E, R>, jobs: nat, es: seq<Event<T, E>>, t: State<T, E, R>)
    requires Leads(b, Initial(b, jobs), es, t)
    ensures HandedOver(b, t, |t.taken|) && (|t.taken| > 0 ==> b.start + |t.taken| <= b.end)
  {
    InitialInv(b, jobs);
    LeadsKeepsInv(b, Initial(b, jobs), es, t);
    OrderGivesPrefix(b, t);
    if |t.taken| > 0 { assert b.start + |t.taken| - 1 in t.made; }
  }

  /** A value that ends the batch wherever it comes, as a cancelled row does. */
  ghost predicate Ending<T(!new), E, R>(b: Batch<T, E, R>, v: T) {
    forall taken :: b.take(taken + [v]).Some?
  }

  /** Some job has yielded a value that ends the batch. */
  ghost predicate HasCause<T(!new), E, R>(b: Batch<T, E, R>, s: State<T, E, R>) {
    exists k :: k in s.made && s.made[k].Ok? && Ending(b, s.made[k].value)
  }

  /** The group is cancelled by a worker that has made an ending value, and by nobody else. */
  ghost predicate Own<T(!new), E, R>(b: Batch<T, E, R>, s: State<T, E, R>, e: Event<T, E>) {
    e.CancelGroup? ==> HasCause(b, s)
  }

  ghost predicate LeadsOwn<T(!new), E, R>(b: Batch<T, E, R>, s: State<T, E, R>, es: seq<Event<T, E>>, t: State<T, E, R>)
    decreases |es|
  {
    if es == [] then s == t
    else Enabled(b, s, es[0]) && Own(b, s, es[0]) && LeadsOwn(b, Step(b, s, es[0]), es[1..], t)
  }

  /** The group is cancelled before the end only for cause, and the loop ran dry only when all was handed over. */
  ghost predicate OwnCancels<T(!new), E, R>(b: Batch<T, E, R>, s: State<T, E, R>) {
    && (s.cancelled && s.outcome.None? ==> HasCause(b, s))
    && (s.outcome == Some(Ok(None)) ==> s.want >= b.end)
    && (b.start < b.end ==> s.workers != [])
  }

  /** When all workers are gone and nothing is left to receive, every claimed job has been handed over. */
  lemma DryHandedOver<T, E, R>(b: Batch<T, E, R>, s: State<T, E, R>)
    requires Inv(b, s) && Enabled(b, s, Close)
    ensures s.want >= s.next || s.want >= b.end
    ensures forall k <- s.made :: k < s.want
  {
    forall w | 0 <= w < |s.workers|
      ensures s.workers[w].Exited?
    {
      assert s.workers[w] in s.workers;
    }
    assert s.want < s.next && s.want < b.end ==> BusyWith(s, s.want) || InChannel(s, s.want) || s.want in s.ready;
  }

  /** What has been handed over did not end the batch. */
  lemma HandedOverIsNoCause<T(!new), E, R>(b: Batch<T, E, R>, s: State<T, E, R>)
    requires Inv(b, s) && s.outcome.None? && forall k <- s.made :: k < s.want
    ensures !HasCause(b, s) && forall k <- s.made :: s.made[k].Ok?
  {
    forall k <- s.made
      ensures s.made[k].Ok? && !Ending(b, s.made[k].value)
    {
      var n := k - b.start;
      assert s.made[k] == Ok(s.taken[n]);
      assert s.taken[..n] + [s.taken[n]] == s.taken[..n + 1];
      if n + 1 == |s.taken| { assert s.taken[..n + 1] == s.taken; }
    }
  }

  /** The receiving loop runs dry only when every job has been handed over. */
  lemma DryMeansDone<T(!new), E, R>(b: Batch<T, E, R>, s: State<T, E, R>)
    requires Inv(b, s) && OwnCancels(b, s) && Enabled(b, s, Close)
    ensures s.want >= b.end
  {
    DryHandedOver(b, s);
    HandedOverIsNoCause(b, s);
    if b.start < b.end { assert s.workers[0] in s.workers; }
  }

  lemma {:induction false} DeliverKeepsOwn<T(!new), E, R>(b: Batch<T, E, R>, s: State<T, E, R>)
    requires OwnCancels(b, s) && s.outcome.None?
    ensures OwnCancels(b, Deliver(b, s)) && Deliver(b, s).made == s.made
    decreases |s.ready|
  {
    if s.want in s.ready {
      var t := DeliverOne(b, s);
      assert t.made == s.made;
      if t.outcome.None? {
        assert HasCause(b, s) ==> HasCause(b, t);
        DeliverKeepsOwn(b, t);
      }
    }
  }

  lemma CauseStays<T(!new), E, R>(b: Batch<T, E, R>, s: State<T, E, R>, t: State<T, E, R>)
    requires HasCause(b, s) && forall k <- s.made :: k in t.made && t.made[k] == s.made[k]
    ensures HasCause(b, t)
  {
    var k :| k in s.made && s.made[k].Ok? && Ending(b, s.made[k].value);
    assert k in t.made;
  }

  lemma StepKeepsOwn<T(!new), E, R>(b: Batch<T, E, R>, s: State<T, E, R>, e: Event<T, E>)
    requires Inv(b, s) && OwnCancels(b, s) && Enabled(b, s, e) && Own(b, s, e)
    ensures OwnCancels(b, Step(b, s, e))
  {
    match e
    case Receive =>
      var t := s.(channel := s.channel[1..], ready := s.ready[s.channel[0].0 := s.channel[0].1]);
      if HasCause(b, s) { CauseStays(b, s, t); }
      DeliverKeepsOwn(b, t);
    case Close => DryMeansDone(b, s);
    case _ => if HasCause(b, s) { CauseStays(b, s, Step(b, s, e)); }
  }

  lemma {:induction false} LeadsKeepsOwn<T(!new), E, R>(b: Batch<T, E, R>, s: State<T, E, R>, es: seq<Event<T, E>>,
                                                        t: State<T, E, R>)
    requires Inv(b, s) && OwnCancels(b, s) && LeadsOwn(b, s, es, t)
    ensures Inv(b, t) && OwnCancels(b, t)
    decreases |es|
  {
    if es != [] {
      StepKeepsInv(b, s, es[0]);
      StepKeepsOwn(b, s, es[0]);
      LeadsKeepsOwn(b, Step(b, s, es[0]), es[1..], t);
    }
  }

  /**
   Whatever the jobs yield, a batch whose group only its own workers cancel comes back without an end only
   when every job has been handed over.
   */
  lemma EndlessMeansDone<T(!new), E, R>(b: Batch<T, E, R>, jobs: nat, es: seq<Event<T, E>>, t: State<T, E, R>)
    requires jobs >= 1 && LeadsOwn(b, Initial(b, jobs), es, t) && t.outcome == Some(Ok(None))
    ensures b.start + |t.taken| >= b.end
  {
    InitialInv(b, jobs);
    LeadsKeepsOwn(b, Initial(b, jobs), es, t);
    OrderGivesPrefix(b, t);
  }

  /** The first jobs yield `taken`, and nothing before its last value ends the batch. */
  ghost predicate Yields<T, E, R>(b: Batch<T, E, R>, taken: seq<T>) {
    && (taken != [] ==> b.start + |taken| <= b.end)
    && (forall i | 0 <= i < |taken| :: b.work(b.start + i) == Ok(taken[i]))
    && (forall i | 0 < i < |taken| :: b.take(taken[..i]).None?)
  }

  /** The sequential loop, carried past jobs whose results did not end it. */
  lemma {:induction false} SequentialResumes<T, E, R>(b: Batch<T, E, R>, taken: seq<T>)
    requires Yields(b, taken) && (taken != [] ==> b.take(taken).None?)
    ensures Sequential(b, b.start, []) == Sequential(b, b.start + |taken|, taken)
  {
    hide Yields, Sequential;
    if taken == [] {
      assert taken == [];
    } else {
      var n := |taken| - 1;
      YieldsPrefix(b, taken);
      SequentialResumes(b, taken[..n]);
      SequentialTurn(b, b.start + n, taken[..n], taken[n]);
    }
  }

  lemma SequentialTurn<T, E, R>(b: Batch<T, E, R>, k: nat, taken: seq<T>, v: T)
    requires k < b.end && b.work(k) == Ok(v) && b.take(taken + [v]).None?
    ensures Sequential(b, k, taken) == Sequential(b, k + 1, taken + [v])
  {}

  lemma YieldsPrefix<T, E, R>(b: Batch<T, E, R>, taken: seq<T>)
    requires Yields(b, taken) && taken != []
    ensures var n := |taken| - 1;
            && Yields(b, taken[..n]) && (taken[..n] != [] ==> b.take(taken[..n]).None?)
            && b.start + n < b.end && b.work(b.start + n) == Ok(taken[n]) && taken[..n] + [taken[n]] == taken
  {
    var front := taken[..|taken| - 1];
    forall i | 0 < i < |front|
      ensures b.take(front[..i]).None?
    {
      assert front[..i] == taken[..i];
    }
  }

  /** Jobs yielded what their index says. */
  ghost predicate Faithful<T, E, R>(b: Batch<T, E, R>, s: State<T, E, R>) {
    forall k <- s.made :: s.made[k] == b.work(k)
  }

  lemma ResultsAreWork<T, E, R>(b: Batch<T, E, R>, s: State<T, E, R>)
    requires RecordsOk(b, s) && Faithful(b, s) && HandedOver(b, s, |s.taken|)
    ensures Yields(b, s.taken)
  {
    forall i | 0 <= i < |s.taken|
      ensures b.start + i < b.end && b.work(b.start + i) == Ok(s.taken[i])
    {
      assert b.start + i in s.made;
    }
    if s.taken != [] { assert b.start + (|s.taken| - 1) in s.made; }
  }

  /** How a batch stands after the values in `taken`. */
  ghost predicate EndsWith<T, E, R>(b: Batch<T, E, R>, taken: seq<T>, outcome: Result<Option<R>, E>) {
    match outcome
    case Ok(Some(r)) => taken != [] && b.take(taken) == Some(r)
    case Ok(None) => b.start + |taken| >= b.end && (taken != [] ==> b.take(taken).None?)
    case Err(e) =>
      && b.start + |taken| < b.end && b.work(b.start + |taken|) == Err(e)
      && (taken != [] ==> b.take(taken).None?)
  }

  lemma EndsSequentially<T, E, R>(b: Batch<T, E, R>, taken: seq<T>, outcome: Result<Option<R>, E>)
    requires Yields(b, taken) && EndsWith(b, taken, outcome)
    ensures (taken, outcome) == Sequential(b, b.start, [])
  {
    hide Sequential, Yields;
    if outcome.Ok? && outcome.value.Some? {
      var n := |taken| - 1;
      YieldsPrefix(b, taken);
      SequentialResumes(b, taken[..n]);
      LastTurn(b, b.start + n, taken[..n], taken[n]);
    } else {
      SequentialResumes(b, taken);
      LastTry(b, b.start + |taken|, taken);
    }
  }

  lemma LastTurn<T, E, R>(b: Batch<T, E, R>, k: nat, front: seq<T>, v: T)
    requires k < b.end && b.work(k) == Ok(v) && b.take(front + [v]).Some?
    ensures Sequential(b, k, front) == (front + [v], Ok(b.take(front + [v])))
  {}

  lemma LastTry<T, E, R>(b: Batch<T, E, R>, k: nat, taken: seq<T>)
    ensures k >= b.end ==> Sequential(b, k, taken) == (taken, Ok(None))
    ensures k < b.end && b.work(k).Err? ==> Sequential(b, k, taken) == (taken, Err(b.work(k).error))
  {}

  lemma NextAfterTaken<T(!new), E, R>(b: Batch<T, E, R>, s: State<T, E, R>)
    requires Inv(b, s) && OwnCancels(b, s) && Faithful(b, s) && s.outcome.Some?
    ensures EndsWith(b, s.taken, s.outcome.value)
  {
    OrderGivesPrefix(b, s);
    if |s.taken| > 0 { assert b.start + |s.taken| - 1 in s.made; }
  }

  lemma OutcomeIsSequential<T(!new), E, R>(b: Batch<T, E, R>, s: State<T, E, R>)
    requires Inv(b, s) && OwnCancels(b, s) && Faithful(b, s) && s.outcome.Some?
    ensures (s.taken, s.outcome.value) == Sequential(b, b.start, [])
  {
    OrderGivesPrefix(b, s);
    ResultsAreWork(b, s);
    NextAfterTaken(b, s);
    EndsSequentially(b, s.taken, s.outcome.value);
  }

  /** The batch whose jobs yield what they did yield in `t`. */
  ghost function Replayed<T, E, R>(b: Batch<T, E, R>, t: State<T, E, R>): Batch<T, E, R> {
    b.(work := (k: nat) => if k in t.made then t.made[k] else b.work(k))
  }

  lemma ReplayKeeps<T(!new), E, R>(b: Batch<T, E, R>, t: State<T, E, R>)
    requires Inv(b, t) && OwnCancels(b, t)
    ensures Inv(Replayed(b, t), t) && OwnCancels(Replayed(b, t), t) && Faithful(Replayed(b, t), t)
  {
    SameInv(b, Replayed(b, t), t);
    hide Inv;
    if HasCause(b, t) {
      var k :| k in t.made && t.made[k].Ok? && Ending(b, t.made[k].value);
      assert Ending(Replayed(b, t), t.made[k].value);
    }
  }

  /** The invariant does not depend on what jobs not yet made would yield. */
  lemma SameInv<T, E, R>(b: Batch<T, E, R>, c: Batch<T, E, R>, t: State<T, E, R>)
    requires Inv(b, t) && c == b.(work := c.work)
    ensures Inv(c, t)
  {
    forall n | HandedOver(b, t, n)
      ensures HandedOver(c, t, n)
    {}
    assert RecordsOk(c, t) && StopsForCause(c, t) && InOrder(c, t);
    hide RecordsOk, StopsForCause, InOrder;
    if t.outcome.None? { assert NothingLost(c, t); }
  }

  /**
   Whatever the jobs yield, if only workers that made an ending value cancel the group, the results handed
   over and the outcome are those of a sequential loop over what the jobs did yield.
   */
  lemma SameAsReplayed<T(!new), E, R>(b: Batch<T, E, R>, jobs: nat, es: seq<Event<T, E>>, t: State<T, E, R>)
    requires jobs >= 1 && LeadsOwn(b, Initial(b, jobs), es, t) && t.outcome.Some?
    ensures (t.taken, t.outcome.value) == Sequential(Replayed(b, t), b.start, [])
  {
    InitialInv(b, jobs);
    LeadsKeepsOwn(b, Initial(b, jobs), es, t);
    ReplayKeeps(b, t);
    OutcomeIsSequential(Replayed(b, t), t);
  }

  /** Jobs yield what their index says, and only workers that made an ending value cancel the group. */
  ghost predicate Undisturbed<T(!new), E, R>(b: Batch<T, E, R>, s: State<T, E, R>, e: Event<T, E>)
    requires Enabled(b, s, e)
  {
    Own(b, s, e) && (e.Finish? ==> e.result == b.work(s.workers[e.w].index))
  }

  ghost predicate LeadsUndisturbed<T(!new), E, R>(b: Batch<T, E, R>, s: State<T, E, R>, es: seq<Event<T, E>>,
                                                  t: State<T, E, R>)
    decreases |es|
  {
    if es == [] then s == t
    else
      && Enabled(b, s, es[0]) && Undisturbed(b, s, es[0])
      && LeadsUndisturbed(b, Step(b, s, es[0]), es[1..], t)
  }

  lemma {:induction false} DeliverMakesNothing<T, E, R>(b: Batch<T, E, R>, s: State<T, E, R>)
    ensures Deliver(b, s).made == s.made
    decreases |s.ready|
  {
    if s.want in s.ready {
      var t := DeliverOne(b, s);
      if t.outcome.None? { DeliverMakesNothing(b, t); }
    }
  }

  lemma StepStaysFaithful<T(!new), E, R>(b: Batch<T, E, R>, s: State<T, E, R>, e: Event<T, E>)
    requires Faithful(b, s) && Enabled(b, s, e) && Undisturbed(b, s, e)
    ensures Faithful(b, Step(b, s, e))
  {
    if e.Receive? {
      DeliverMakesNothing(b, s.(channel := s.channel[1..], ready := s.ready[s.channel[0].0 := s.channel[0].1]));
    }
  }

  lemma {:induction false} UndisturbedStaysFaithful<T(!new), E, R>(b: Batch<T, E, R>, s: State<T, E, R>,
                                                                   es: seq<Event<T, E>>, t: State<T, E, R>)
    requires Faithful(b, s) && LeadsUndisturbed(b, s, es, t)
    ensures Faithful(b, t) && LeadsOwn(b, s, es, t)
    decreases |es|
  {
    if es != [] {
      StepStaysFaithful(b, s, es[0]);
      UndisturbedStaysFaithful(b, Step(b, s, es[0]), es[1..], t);
    }
  }

  /**
   Every schedule of every number of workers ends with the results handed over, and the outcome, of doing
   the jobs one after the other, also when the worker that made the ending value cancels the others first.
   */
  lemma SameAsSequential<T(!new), E, R>(b: Batch<T, E, R>, jobs: nat, es: seq<Event<T, E>>, t: State<T, E, R>)
    requires jobs >= 1 && LeadsUndisturbed(b, Initial(b, jobs), es, t) && t.outcome.Some?
    ensures (t.taken, t.outcome.value) == Sequential(b, b.start, [])
  {
    InitialInv(b, jobs);
    UndisturbedStaysFaithful(b, Initial(b, jobs), es, t);
    LeadsKeepsOwn(b, Initial(b, jobs), es, t);
    OutcomeIsSequential(b, t);
  }

  // ---------------------------------------------------------------- nothing starts after the end

  /** How many workers are about to claim a job. */
  function Claimers<T, E>(workers: seq<Worker<T, E>>): nat {
    if workers == [] then 0 else (if workers[0].Claiming? then 1 else 0) + Claimers(workers[1..])
  }

  lemma {:induction false} ClaimersUpdate<T, E>(workers: seq<Worker<T, E>>, w: nat, worker: Worker<T, E>)
    requires w < |workers|
    ensures Claimers(workers[w := worker]) ==
            Claimers(workers) - (if workers[w].Claiming? then 1 else 0) + (if worker.Claiming? then 1 else 0)
  {
    if w > 0 {
      ClaimersUpdate(workers[1..], w - 1, worker);
      assert workers[w := worker][1..] == workers[1..][w - 1 := worker];
    }
  }

  lemma StepAfterStop<T, E, R>(b: Batch<T, E, R>, s: State<T, E, R>, e: Event<T, E>)
    requires Enabled(b, s, e) && (s.stop || s.cancelled)
    ensures var t := Step(b, s, e);
            (t.stop || t.cancelled) && t.next + Claimers(t.workers) <= s.next + Claimers(s.workers)
  {
    match e
    case Check(w) => ClaimersUpdate(s.workers, w, Exited);
    case Claim(w) => ClaimersUpdate(s.workers, w, Step(b, s, e).workers[w]);
    case Finish(w, _) => ClaimersUpdate(s.workers, w, Step(b, s, e).workers[w]);
    case Send(w) => ClaimersUpdate(s.workers, w, Checking);
    case Receive =>
      var u := s.(channel := s.channel[1..], ready := s.ready[s.channel[0].0 := s.channel[0].1]);
      DeliverLeavesWorkers(b, u);
    case _ =>
  }

  /** Once the batch has been told to stop, only workers already past their check claim one more job each. */
  lemma {:induction false} FewStartAfterStop<T, E, R>(b: Batch<T, E, R>, s: State<T, E, R>, es: seq<Event<T, E>>,
                                                      t: State<T, E, R>)
    requires Leads(b, s, es, t) && (s.stop || s.cancelled)
    ensures t.next + Claimers(t.workers) <= s.next + Claimers(s.workers)
    decreases |es|
  {
    if es != [] {
      StepAfterStop(b, s, es[0]);
      FewStartAfterStop(b, Step(b, s, es[0]), es[1..], t);
    }
  }

  ghost predicate FailureStops<T, E, R>(s: State<T, E, R>) {
    && ((exists k <- s.made :: s.made[k].Err?) ==> s.stop)
    && (s.outcome.Some? && s.outcome.value != Ok(None) ==> s.stop && s.cancelled)
  }

  lemma {:induction false} DeliverStops<T, E, R>(b: Batch<T, E, R>, s: State<T, E, R>)
    requires FailureStops(s) && s.outcome.None?
    ensures FailureStops(Deliver(b, s)) && (s.stop ==> Deliver(b, s).stop)
    decreases |s.ready|
  {
    if s.want in s.ready {
      var t := DeliverOne(b, s);
      if t.outcome.None? { DeliverStops(b, t); }
    }
  }

  lemma StepStops<T, E, R>(b: Batch<T, E, R>, s: State<T, E, R>, e: Event<T, E>)
    requires FailureStops(s) && Enabled(b, s, e)
    ensures FailureStops(Step(b, s, e))
  {
    if e.Receive? {
      DeliverStops(b, s.(channel := s.channel[1..], ready := s.ready[s.channel[0].0 := s.channel[0].1]));
    }
  }

  lemma {:induction false} LeadsStops<T, E, R>(b: Batch<T, E, R>, s: State<T, E, R>, es: seq<Event<T, E>>,
                                               t: State<T, E, R>)
    requires FailureStops(s) && Leads(b, s, es, t)
    ensures FailureStops(t)
    decreases |es|
  {
    if es != [] {
      StepStops(b, s, es[0]);
      LeadsStops(b, Step(b, s, es[0]), es[1..], t);
    }
  }

  /**
   On every schedule a job that failed has told the batch to stop, and so has an end; that has cancelled the
   group too.
   */
  lemma FailureHasStopped<T, E, R>(b: Batch<T, E, R>, jobs: nat, es: seq<Event<T, E>>, t: State<T, E, R>)
    requires Leads(b, Initial(b, jobs), es, t)
    ensures (exists k <- t.made :: t.made[k].Err?) ==> t.stop
    ensures t.outcome.Some? && t.outcome.value != Ok(None) ==> t.stop && t.cancelled
  {
    LeadsStops(b, Initial(b, jobs), es, t);
  }

  // ---------------------------------------------------------------- every schedule ends

  function Weight<T, E>(w: Worker<T, E>): nat {
    match w
    case Checking => 2
    case Claiming => 1
    case Working(_) => 5
    case Sending(_, _) => 4
    case Exited => 0
  }

  function Load<T, E>(workers: seq<Worker<T, E>>): nat {
    if workers == [] then 0 else Weight(workers[0]) + Load(workers[1..])
  }

  lemma {:induction false} LoadUpdate<T, E>(workers: seq<Worker<T, E>>, w: nat, worker: Worker<T, E>)
    requires w < |workers|
    ensures Load(workers[w := worker]) == Load(workers) - Weight(workers[w]) + Weight(worker)
  {
    if w > 0 {
      LoadUpdate(workers[1..], w - 1, worker);
      assert workers[w := worker][1..] == workers[1..][w - 1 := worker];
    }
  }

  /** An upper bound on the steps still to come. */
  function Remaining<T, E, R>(b: Batch<T, E, R>, s: State<T, E, R>): nat {
    (if s.next < b.end then 5 * (b.end - s.next) else 0) + Load(s.workers) + |s.channel|
    + (if s.outcome.None? then 1 else 0) + (if s.cancelled then 0 else 1)
  }

  lemma {:induction false} DeliverLeavesWorkers<T, E, R>(b: Batch<T, E, R>, s: State<T, E, R>)
    ensures var t := Deliver(b, s);
            t.next == s.next && t.workers == s.workers && t.channel == s.channel
            && (s.outcome.Some? ==> t.outcome.Some?) && (s.cancelled ==> t.cancelled) && (s.stop ==> t.stop)
    decreases |s.ready|
  {
    if s.want in s.ready {
      var t := DeliverOne(b, s);
      if t.outcome.None? { DeliverLeavesWorkers(b, t); }
    }
  }

  lemma StepsRunOut<T, E, R>(b: Batch<T, E, R>, s: State<T, E, R>, e: Event<T, E>)
    requires Enabled(b, s, e)
    ensures Remaining(b, Step(b, s, e)) < Remaining(b, s)
  {
    var t := Step(b, s, e);
    hide Load, Deliver;
    match e
    case Check(w) => LoadUpdate(s.workers, w, t.workers[w]);
    case Claim(w) => LoadUpdate(s.workers, w, t.workers[w]);
    case Finish(w, _) => LoadUpdate(s.workers, w, t.workers[w]);
    case Send(w) => LoadUpdate(s.workers, w, t.workers[w]);
    case Receive =>
      DeliverLeavesWorkers(b, s.(channel := s.channel[1..], ready := s.ready[s.channel[0].0 := s.channel[0].1]));
    case _ =>
  }

  lemma {:induction false} ScheduleIsFinite<T, E, R>(b: Batch<T, E, R>, s: State<T, E, R>, es: seq<Event<T, E>>,
                                                     t: State<T, E, R>)
    requires Leads(b, s, es, t)
    ensures |es| + Remaining(b, t) <= Remaining(b, s)
    decreases |es|
  {
    if es != [] {
      StepsRunOut(b, s, es[0]);
      ScheduleIsFinite(b, Step(b, s, es[0]), es[1..], t);
    }
  }

  /** Until there is an outcome, some undisturbed step can be taken: with `ScheduleIsFinite`, every schedule ends. */
  lemma NeverStuck<T(!new), E, R>(b: Batch<T, E, R>, s: State<T, E, R>) returns (e: Event<T, E>)
    requires s.outcome.None?
    ensures Enabled(b, s, e) && Undisturbed(b, s, e)
  {
    if s.channel != [] {
      e := Receive;
    } else if w :| 0 <= w < |s.workers| && !s.workers[w].Exited? {
      match s.workers[w]
      case Checking => e := Check(w);
      case Claiming => e := Claim(w);
      case Working(k) => e := Finish(w, b.work(k));
      case Sending(_, _) => e := Send(w);
    } else {
      e := Close;
    }
  }
}

/** The runs of one batch, cancelled together (bridge/src/cli.rs). */
module RunGroups {

  class Run {
    var cancelled: bool

    constructor ()
      ensures !cancelled
    {
      cancelled := false;
    }
  }

  function Without(runs: seq<Run>, run: Run): (r: seq<Run>)
    ensures run !in r
    ensures (forall x <- r :: x in runs) && (forall x <- runs :: x != run ==> x in r)
  {
    if runs == [] then []
    else
      assert runs == [runs[0]] + runs[1..];
      if runs[0] == run then Without(runs[1..], run) else [runs[0]] + Without(runs[1..], run)
  }

  class RunGroup {
    var runs: seq<Run>
    var cancelled: bool

    /** Once the group is cancelled, so is every run in it. */
    ghost predicate Valid()
      reads this, runs
    {
      cancelled ==> forall r <- runs :: r.cancelled
    }

    constructor ()
      ensures Valid() && !cancelled && runs == []
    {
      runs, cancelled := [], false;
    }

    method Cancel()
      requires Valid()
      modifies this, runs
      ensures Valid() && cancelled && runs == old(runs)
      ensures forall r <- runs :: r.cancelled
    {
      cancelled := true;
      for i := 0 to |runs|
        invariant cancelled && runs == old(runs)
        invariant forall k | 0 <= k < i :: runs[k].cancelled
      {
        runs[i].cancelled := true;
      }
    }

    /** A run that enters a cancelled group is cancelled on the spot; one that enters another is left alone. */
    method Enter(run: Run)
      requires Valid()
      modifies this, run
      ensures Valid() && cancelled == old(cancelled) && runs == old(runs) + [run]
      ensures run.cancelled == (old(run.cancelled) || cancelled)
    {
      if cancelled {
        run.cancelled := true;
      }
      runs := runs + [run];
    }

    method Leave(run: Run)
      requires Valid()
      modifies this
      ensures Valid() && cancelled == old(cancelled) && runs == Without(old(runs), run)
    {
      runs := Without(runs, run);
      assert forall r <- runs :: r in old(runs);
    }
  }
}
