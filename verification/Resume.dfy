/**
 Budgeted and resumed sweeps (bridge/src/eval.rs): every pair of a parameter set and a sample is one run,
 a row log is read back to skip what is done, and the remaining runs are taken in order up to a budget.
 Only what decides which pair runs next is kept of a row.
 */
module Resume {
  import opened Outcomes
  import opened Division

  /** How many parameter sets, and the samples by id. */
  datatype Plan = Plan(sets: nat, ids: seq<string>)

  datatype Pair = Pair(params: nat, sample: nat)

  datatype Status = Passed | Invalid | Failed | Cancelled

  datatype Row = Row(pair: Pair, status: Status)

  /** A line of the log; `current` says whether its parameters and metrics are those of the plan. */
  datatype Line = Line(params: nat, id: string, status: Status, current: bool) | OtherLine

  datatype ResumeError = UnknownSample | UnknownSet | Changed | Duplicate

  function Total(plan: Plan): nat {
    plan.sets * |plan.ids|
  }

  ghost predicate DistinctIds(plan: Plan) {
    forall i, j | 0 <= i < j < |plan.ids| :: plan.ids[i] != plan.ids[j]
  }

  // ---------------------------------------------------------------- numbering the runs

  /** Which pair run `k` is: parameter sets outside, samples inside. */
  function Split(plan: Plan, k: nat): Pair
    requires |plan.ids| > 0
  {
    Pair(k / |plan.ids|, k % |plan.ids|)
  }

  function Join(plan: Plan, pair: Pair): nat {
    pair.params * |plan.ids| + pair.sample
  }

  ghost predicate InPlan(plan: Plan, pair: Pair) {
    pair.params < plan.sets && pair.sample < |plan.ids|
  }

  /** Numbering is one to one onto the pairs of the plan. */
  lemma SplitIsBijection(plan: Plan, k: nat, pair: Pair)
    requires |plan.ids| > 0
    ensures Join(plan, Split(plan, k)) == k
    ensures k < Total(plan) <==> InPlan(plan, Split(plan, k))
    ensures pair.sample < |plan.ids| ==> Split(plan, Join(plan, pair)) == pair
    ensures InPlan(plan, pair) ==> Join(plan, pair) < Total(plan)
  {
    var n := |plan.ids|;
    DivisionBounds(k, n);
    if k < Total(plan) {
      Larger(k / n, plan.sets, n);
    } else if k / n < plan.sets {
      RowBelow(k / n, k % n, n, plan.sets);
    }
    if pair.sample < n { DivModOf(pair.params, n, pair.sample); }
    if InPlan(plan, pair) { RowBelow(pair.params, pair.sample, n, plan.sets); }
  }

  lemma RowBelow(q: nat, r: nat, n: nat, sets: nat)
    requires r < n && q < sets
    ensures q * n + r < sets * n
  {
    Scaled(q, sets - 1, n);
    assert (sets - 1) * n == sets * n - n;
  }

  lemma SplitInjective(plan: Plan, a: nat, b: nat)
    requires |plan.ids| > 0 && Split(plan, a) == Split(plan, b)
    ensures a == b
  {
    SplitIsBijection(plan, a, Split(plan, a));
    SplitIsBijection(plan, b, Split(plan, b));
  }

  // ---------------------------------------------------------------- what is left to run

  /** The numbers from `k` on whose pairs are not done, in order. */
  function Missing(plan: Plan, done: set<Pair>, k: nat): (ks: seq<nat>)
    requires |plan.ids| > 0 || k >= Total(plan)
    decreases Total(plan) - k
  {
    if k >= Total(plan) then []
    else if Split(plan, k) in done then Missing(plan, done, k + 1)
    else [k] + Missing(plan, done, k + 1)
  }

  function Least(a: nat, b: nat): nat {
    if a <= b then a else b
  }

  function Wanted(plan: Plan, done: set<Pair>, maxRuns: nat): seq<nat>
  {
    NoSamples(plan);
    var ks := Missing(plan, done, 0);
    ks[..Least(maxRuns, |ks|)]
  }

  lemma NoSamples(plan: Plan)
    ensures |plan.ids| > 0 || Total(plan) == 0
  {}

  lemma {:induction false} MissingExactly(plan: Plan, done: set<Pair>, k: nat, j: nat)
    requires |plan.ids| > 0 || k >= Total(plan)
    ensures j in Missing(plan, done, k) <==> k <= j < Total(plan) && Split(plan, j) !in done
    decreases Total(plan) - k
  {
    if k < Total(plan) { MissingExactly(plan, done, k + 1, j); }
  }

  ghost predicate AscendsFrom(k: nat, ks: seq<nat>) {
    (forall i | 0 <= i < |ks| :: k <= ks[i]) && forall i, j | 0 <= i < j < |ks| :: ks[i] < ks[j]
  }

  lemma AscendsBehind(k: nat, ks: seq<nat>)
    requires AscendsFrom(k + 1, ks)
    ensures AscendsFrom(k, [k] + ks) && AscendsFrom(k, ks)
  {
    var more := [k] + ks;
    forall i, j | 0 <= i < j < |more|
      ensures more[i] < more[j]
    {
      assert more[j] == ks[j - 1];
      if i > 0 { assert more[i] == ks[i - 1]; }
    }
  }

  lemma {:induction false} MissingAscends(plan: Plan, done: set<Pair>, k: nat)
    requires |plan.ids| > 0 || k >= Total(plan)
    ensures AscendsFrom(k, Missing(plan, done, k))
    decreases Total(plan) - k
  {
    if k < Total(plan) {
      MissingAscends(plan, done, k + 1);
      AscendsBehind(k, Missing(plan, done, k + 1));
    }
  }

  /** The wanted runs are the least missing ones, as many as the budget allows. */
  lemma SmallestFirst(plan: Plan, done: set<Pair>, maxRuns: nat)
    ensures var ks := Wanted(plan, done, maxRuns);
            && AscendsFrom(0, ks)
            && (forall k <- ks :: k < Total(plan) && |plan.ids| > 0 && Split(plan, k) !in done)
            && (|ks| < maxRuns ==>
                  forall j: nat | j < Total(plan) && |plan.ids| > 0 && Split(plan, j) !in done :: j in ks)
            && (forall j: nat, i |
                  j < Total(plan) && |plan.ids| > 0 && Split(plan, j) !in done && j !in ks && 0 <= i < |ks| ::
                  ks[i] < j)
            && |ks| <= maxRuns
  {
    NoSamples(plan);
    var all, ks := Missing(plan, done, 0), Wanted(plan, done, maxRuns);
    MissingAscends(plan, done, 0);
    assert forall i | 0 <= i < |ks| :: ks[i] == all[i];
    forall j: nat
      ensures j in all <==> j < Total(plan) && Split(plan, j) !in done
    {
      MissingExactly(plan, done, 0, j);
    }
    forall j: nat, i | j in all && j !in ks && 0 <= i < |ks|
      ensures ks[i] < j
    {
      var p :| 0 <= p < |all| && all[p] == j;
      assert ks == all[..|ks|];
    }
  }

  /** Collects the least missing runs, stopping at the budget. */
  method WantedRuns(plan: Plan, done: set<Pair>, maxRuns: nat) returns (ks: seq<nat>)
    ensures ks == Wanted(plan, done, maxRuns)
  {
    NoSamples(plan);
    ks := [];
    var total := plan.sets * |plan.ids|;
    var k := 0;
    while k < total && |ks| < maxRuns
      invariant k <= total && |ks| <= maxRuns && Missing(plan, done, 0) == ks + Missing(plan, done, k)
    {
      if Split(plan, k) !in done {
        assert ks + ([k] + Missing(plan, done, k + 1)) == (ks + [k]) + Missing(plan, done, k + 1);
        ks := ks + [k];
      }
      k := k + 1;
    }
  }

  // ---------------------------------------------------------------- reading the log back

  /** The first sample with this id. */
  function Position(ids: seq<string>, id: string): (p: Option<nat>)
    ensures p.Some? ==> p.value < |ids| && ids[p.value] == id && id !in ids[..p.value]
    ensures p.None? ==> id !in ids
  {
    if ids == [] then None
    else
      match Position(ids[..|ids| - 1], id)
      case Some(p) => Some(p)
      case None => if ids[|ids| - 1] == id then Some(|ids| - 1) else None
  }

  /** One more line of the log. */
  function ReadLine(plan: Plan, done: map<Pair, Status>, line: Line): Result<map<Pair, Status>, ResumeError> {
    if line.OtherLine? || line.status == Cancelled then Ok(done)
    else
      match Position(plan.ids, line.id)
      case None => Err(UnknownSample)
      case Some(sample) =>
        if line.params >= plan.sets then Err(UnknownSet)
        else if !line.current then Err(Changed)
        else if Pair(line.params, sample) in done then Err(Duplicate)
        else Ok(done[Pair(line.params, sample) := line.status])
  }

  function ReadLog(plan: Plan, log: seq<Line>): Result<map<Pair, Status>, ResumeError> {
    if log == [] then Ok(map[])
    else
      match ReadLog(plan, log[..|log| - 1])
      case Err(e) => Err(e)
      case Ok(done) => ReadLine(plan, done, log[|log| - 1])
  }

  method ResumeRows(plan: Plan, log: seq<Line>) returns (r: Result<map<Pair, Status>, ResumeError>)
    ensures r == ReadLog(plan, log)
  {
    var done := map[];
    var i := 0;
    while i < |log|
      invariant i <= |log| && ReadLog(plan, log[..i]) == Ok(done)
    {
      assert log[..i + 1][..i] == log[..i];
      match ReadLine(plan, done, log[i]) {
        case Err(e) =>
          ReadStops(plan, log, i + 1);
          return Err(e);
        case Ok(more) =>
          done := more;
      }
      i := i + 1;
    }
    assert log[..|log|] == log;
    return Ok(done);
  }

  lemma {:induction false} ReadStops(plan: Plan, log: seq<Line>, i: nat)
    requires i <= |log| && ReadLog(plan, log[..i]).Err?
    ensures ReadLog(plan, log) == ReadLog(plan, log[..i])
    decreases |log| - i
  {
    if i == |log| {
      assert log[..i] == log;
    } else {
      assert log[..i + 1][..i] == log[..i];
      ReadStops(plan, log, i + 1);
    }
  }

  // ---------------------------------------------------------------- which logs can be read

  /** The line stands for a run that was made. */
  predicate Counts(line: Line) {
    line.Line? && line.status != Cancelled
  }

  /**
   Each such line is about a sample and a set of the plan, with unchanged parameters and metrics, and not a
   second time.
   */
  ghost predicate Readable(plan: Plan, log: seq<Line>) {
    forall i | 0 <= i < |log| && Counts(log[i]) ::
      && log[i].id in plan.ids && log[i].params < plan.sets && log[i].current
      && forall j | 0 <= j < i && Counts(log[j]) :: !(log[j].params == log[i].params && log[j].id == log[i].id)
  }

  /** The line says this of this pair. */
  predicate Says(plan: Plan, line: Line, p: Pair, status: Status) {
    && Counts(line) && line.params == p.params && p.sample < |plan.ids| && line.id == plan.ids[p.sample]
    && line.id !in plan.ids[..p.sample] && line.status == status
  }

  /** One of these lines says it. */
  ghost predicate SaidIn(plan: Plan, log: seq<Line>, p: Pair, status: Status) {
    exists i | 0 <= i < |log| :: Says(plan, log[i], p, status)
  }

  predicate Holds(done: map<Pair, Status>, p: Pair, status: Status) {
    p in done && done[p] == status
  }

  /** What one line adds, and why it is refused. */
  lemma LineReads(plan: Plan, done: map<Pair, Status>, line: Line)
    ensures var r := ReadLine(plan, done, line);
            && (!Counts(line) ==> r == Ok(done))
            && (Counts(line) && line.id !in plan.ids ==> r == Err(UnknownSample))
            && (Counts(line) && line.id in plan.ids ==>
                  if line.params >= plan.sets then r == Err(UnknownSet)
                  else if !line.current then r == Err(Changed)
                  else if exists p <- done :: Says(plan, line, p, line.status) then r == Err(Duplicate)
                  else r.Ok? && forall p, status ::
                         Holds(r.value, p, status) <==> Holds(done, p, status) || Says(plan, line, p, status))
  {
    if Counts(line) && line.id in plan.ids {
      var at := Position(plan.ids, line.id).value;
      forall p: Pair, status: Status
        ensures Says(plan, line, p, status) <==> p == Pair(line.params, at) && status == line.status
      {
        assert p.sample < at ==> plan.ids[p.sample] in plan.ids[..at];
        assert at < p.sample < |plan.ids| ==> plan.ids[at] in plan.ids[..p.sample];
      }
    }
  }

  /** A log can be read exactly when no line is in the way, and then what is done is what its lines say. */
  lemma {:induction false} ReadIffReadable(plan: Plan, log: seq<Line>)
    ensures ReadLog(plan, log).Ok? <==> Readable(plan, log)
    ensures ReadLog(plan, log).Ok? ==>
              forall p, status :: Holds(ReadLog(plan, log).value, p, status) <==> SaidIn(plan, log, p, status)
    decreases |log|
  {
    if log != [] {
      var front, last := log[..|log| - 1], log[|log| - 1];
      ReadIffReadable(plan, front);
      ReadableGrows(plan, log);
      forall p, status
        ensures SaidIn(plan, log, p, status) <==> SaidIn(plan, front, p, status) || Says(plan, last, p, status)
      {
        SaidGrows(plan, log, p, status);
      }
      if ReadLog(plan, front).Ok? {
        var done := ReadLog(plan, front).value;
        LineReads(plan, done, last);
        SaidBefore(plan, front, last, done);
        assert !Counts(last) ==> forall p, status :: !Says(plan, last, p, status);
        hide Says, Counts, ReadLine, SaidIn, Readable, Holds;
      }
    }
  }

  lemma SaidGrows(plan: Plan, log: seq<Line>, p: Pair, status: Status)
    requires log != []
    ensures SaidIn(plan, log, p, status)
            <==> SaidIn(plan, log[..|log| - 1], p, status) || Says(plan, log[|log| - 1], p, status)
  {
    var front := log[..|log| - 1];
    if SaidIn(plan, front, p, status) {
      var i :| 0 <= i < |front| && Says(plan, front[i], p, status);
      assert Says(plan, log[i], p, status);
    }
    if SaidIn(plan, log, p, status) {
      var i :| 0 <= i < |log| && Says(plan, log[i], p, status);
      assert i < |front| ==> Says(plan, front[i], p, status);
    }
  }

  /** A later line is in the way of nothing before it. */
  lemma ReadableGrows(plan: Plan, log: seq<Line>)
    requires log != []
    ensures var front, last := log[..|log| - 1], log[|log| - 1];
            Readable(plan, log) <==>
              && Readable(plan, front)
              && (Counts(last) ==>
                    && last.id in plan.ids && last.params < plan.sets && last.current
                    && forall j | 0 <= j < |front| && Counts(front[j]) ::
                         !(front[j].params == last.params && front[j].id == last.id))
  {
    var front := log[..|log| - 1];
    assert forall i | 0 <= i < |front| :: front[i] == log[i];
    hide Counts;
  }

  lemma SaidBefore(plan: Plan, front: seq<Line>, last: Line, done: map<Pair, Status>)
    requires Readable(plan, front)
    requires forall p, status :: Holds(done, p, status) <==> SaidIn(plan, front, p, status)
    ensures Counts(last) && last.id in plan.ids ==>
              ((exists p <- done :: Says(plan, last, p, last.status)) <==>
               exists j :: 0 <= j < |front| && Counts(front[j]) && front[j].params == last.params
                           && front[j].id == last.id)
  {
    if Counts(last) && last.id in plan.ids {
      var at := Position(plan.ids, last.id).value;
      var q := Pair(last.params, at);
      assert Says(plan, last, q, last.status);
      if p :| p in done && Says(plan, last, p, last.status) {
        assert Holds(done, p, done[p]);
        var i :| 0 <= i < |front| && Says(plan, front[i], p, done[p]);
      }
      if j :| 0 <= j < |front| && Counts(front[j]) && front[j].params == last.params && front[j].id == last.id {
        assert Says(plan, front[j], q, front[j].status);
        assert SaidIn(plan, front, q, front[j].status);
        assert Holds(done, q, front[j].status);
      }
    }
  }

  // ---------------------------------------------------------------- one session

  /** What a run turned out to be: a row, or an error that ends the session. */
  datatype Attempted = Ran(status: Status) | Broke

  /**
   One call of the command: its budget, what each run turns out to be, and whether the metrics asked for
   exist; that is only looked at after the session's first run, if it passed.
   */
  datatype Session = Session(maxRuns: nat, attempt: nat -> Attempted, metricsExist: bool)

  datatype Ending = Finished(code: nat) | Interrupted | Error | Usage

  function ExitOf(status: Status): nat {
    match status
    case Passed => 0
    case Invalid => 1
    case Failed => 2
    case Cancelled => 3
  }

  function Worst(a: nat, b: nat): nat {
    if a >= b then a else b
  }

  /** The rows given out when the runs `ks` are made in order: up to the first cancelled one or an error. */
  function Rows(plan: Plan, ks: seq<nat>, attempt: nat -> Attempted): seq<Row>
    requires ks != [] ==> |plan.ids| > 0
  {
    if ks == [] then []
    else
      match attempt(ks[0])
      case Broke => []
      case Ran(status) =>
        [Row(Split(plan, ks[0]), status)] + if status == Cancelled then [] else Rows(plan, ks[1..], attempt)
  }

  predicate Refused(s: Session, ks: seq<nat>) {
    ks != [] && s.attempt(ks[0]) == Ran(Passed) && !s.metricsExist
  }

  function SessionRows(plan: Plan, done: set<Pair>, s: Session): seq<Row> {
    NoSamples(plan);
    var ks := Wanted(plan, done, s.maxRuns);
    if Refused(s, ks) then [] else Rows(plan, ks, s.attempt)
  }

  /** The worst exit code among the rows, 0 if there is none. */
  predicate IsWorst(code: nat, rows: seq<Row>) {
    (forall r <- rows :: ExitOf(r.status) <= code) && (code == 0 || exists r <- rows :: ExitOf(r.status) == code)
  }

  predicate NoneCancelled(rows: seq<Row>) {
    forall r <- rows :: r.status != Cancelled
  }

  lemma OneRowMore(rows: seq<Row>, row: Row, worst: nat)
    requires NoneCancelled(rows) && IsWorst(worst, rows)
    ensures IsWorst(Worst(worst, ExitOf(row.status)), rows + [row])
    ensures NoneCancelled(rows + [row]) <==> row.status != Cancelled
  {
    var more := rows + [row];
    assert row in more && forall r <- rows :: r in more;
  }

  lemma WorstCode(rows: seq<Row>, code: nat)
    requires NoneCancelled(rows) && IsWorst(code, rows)
    ensures code == if exists r <- rows :: r.status == Failed then 2
                    else if exists r <- rows :: r.status == Invalid then 1 else 0
  {
    if code != 0 {
      var r :| r in rows && ExitOf(r.status) == code;
    }
  }

  /**
   Runs what is missing, one after the other, and says how it ended: refused after the first run, stopped at
   a run that was cancelled or could not be made, or through, with the worst exit code.
   */
  method RunRemaining(plan: Plan, done: set<Pair>, s: Session) returns (rows: seq<Row>, end: Ending)
    ensures rows == SessionRows(plan, done, s)
    ensures var ks := Wanted(plan, done, s.maxRuns);
            && (end.Usage? <==> ks != [] && s.attempt(ks[0]) == Ran(Passed) && !s.metricsExist)
            && (end.Interrupted? <==> rows != [] && rows[|rows| - 1].status == Cancelled)
            && (end.Error? <==> !end.Usage? && (forall r <- rows :: r.status != Cancelled) && |rows| < |ks|
                                && s.attempt(ks[|rows|]) == Broke)
            && (end.Finished? <==> !end.Usage? && (forall r <- rows :: r.status != Cancelled) && |rows| == |ks|)
            && (end.Finished? ==>
                  end.code == if exists r <- rows :: r.status == Failed then 2
                              else if exists r <- rows :: r.status == Invalid then 1 else 0)
  {
    NoSamples(plan);
    var ks := WantedRuns(plan, done, s.maxRuns);
    rows := [];
    if Refused(s, ks) {
      return rows, Usage;
    }
    var worst := 0;
    hide IsWorst, Worst, ExitOf, Split;
    for i := 0 to |ks|
      invariant |rows| == i && Rows(plan, ks, s.attempt) == rows + Rows(plan, ks[i..], s.attempt)
      invariant NoneCancelled(rows) && IsWorst(worst, rows)
    {
      assert ks[i..][1..] == ks[i + 1..];
      match s.attempt(ks[i]) {
        case Broke =>
          return rows, Error;
        case Ran(status) =>
          var row := Row(Split(plan, ks[i]), status);
          assert rows + ([row] + Rows(plan, ks[i + 1..], s.attempt))
                 == (rows + [row]) + Rows(plan, ks[i + 1..], s.attempt);
          OneRowMore(rows, row, worst);
          rows := rows + [row];
          if status == Cancelled {
            return rows, Interrupted;
          }
          worst := Worst(worst, ExitOf(status));
      }
    }
    WorstCode(rows, worst);
    end := Finished(worst);
  }

  // ---------------------------------------------------------------- over many sessions

  function LineOf(plan: Plan, r: Row): Line
    requires r.pair.sample < |plan.ids|
  {
    Line(r.pair.params, plan.ids[r.pair.sample], r.status, true)
  }

  /** What the command prints for its rows. */
  function LinesOf(plan: Plan, rows: seq<Row>): seq<Line>
    requires forall r <- rows :: r.pair.sample < |plan.ids|
  {
    seq(|rows|, i requires 0 <= i < |rows| => LineOf(plan, rows[i]))
  }

  /** What is done once these rows are in the log too. */
  function Completed(done: map<Pair, Status>, rows: seq<Row>): map<Pair, Status> {
    if rows == [] then done
    else
      var before, r := Completed(done, rows[..|rows| - 1]), rows[|rows| - 1];
      if r.status == Cancelled then before else before[r.pair := r.status]
  }

  /** Rows of pairs of the plan, none of them done before and none twice. */
  ghost predicate Fresh(plan: Plan, done: set<Pair>, rows: seq<Row>) {
    && (forall i | 0 <= i < |rows| :: InPlan(plan, rows[i].pair) && rows[i].pair !in done)
    && forall i, j | 0 <= i < j < |rows| :: rows[i].pair != rows[j].pair
  }

  lemma {:induction false} CompletedKeys(done: map<Pair, Status>, rows: seq<Row>, p: Pair)
    ensures p in Completed(done, rows)
            <==> p in done || exists i :: 0 <= i < |rows| && rows[i].pair == p && rows[i].status != Cancelled
    decreases |rows|
  {
    if rows != [] {
      var front := rows[..|rows| - 1];
      CompletedKeys(done, front, p);
      if i :| 0 <= i < |rows| && rows[i].pair == p && rows[i].status != Cancelled {
        assert i < |front| ==> front[i] == rows[i];
      }
    }
  }

  lemma PositionIsIndex(plan: Plan, sample: nat)
    requires DistinctIds(plan) && sample < |plan.ids|
    ensures Position(plan.ids, plan.ids[sample]) == Some(sample)
  {
    var p := Position(plan.ids, plan.ids[sample]);
    assert plan.ids[sample] in plan.ids;
    assert p.Some?;
  }

  lemma FreshLineRead(plan: Plan, done: map<Pair, Status>, r: Row)
    requires DistinctIds(plan) && InPlan(plan, r.pair) && r.pair !in done
    ensures ReadLine(plan, done, LineOf(plan, r))
            == Ok(if r.status == Cancelled then done else done[r.pair := r.status])
  {
    PositionIsIndex(plan, r.pair.sample);
  }

  lemma FreshFront(plan: Plan, done: map<Pair, Status>, rows: seq<Row>)
    requires Fresh(plan, done.Keys, rows) && rows != []
    ensures var front, r := rows[..|rows| - 1], rows[|rows| - 1];
            Fresh(plan, done.Keys, front) && InPlan(plan, r.pair) && r.pair !in Completed(done, front)
  {
    CompletedKeys(done, rows[..|rows| - 1], rows[|rows| - 1].pair);
  }

  lemma LastLine(plan: Plan, log: seq<Line>, rows: seq<Row>)
    requires rows != [] && forall r <- rows :: r.pair.sample < |plan.ids|
    ensures var all, front := log + LinesOf(plan, rows), rows[..|rows| - 1];
            && all != [] && all[..|all| - 1] == log + LinesOf(plan, front)
            && all[|all| - 1] == LineOf(plan, rows[|rows| - 1])
  {
    assert LinesOf(plan, rows) == LinesOf(plan, rows[..|rows| - 1]) + [LineOf(plan, rows[|rows| - 1])];
  }

  /** A log stays readable when fresh rows are added, and then these are done too. */
  lemma {:induction false} FreshRowsRead(plan: Plan, log: seq<Line>, done: map<Pair, Status>, rows: seq<Row>)
    requires DistinctIds(plan) && ReadLog(plan, log) == Ok(done) && Fresh(plan, done.Keys, rows)
    ensures ReadLog(plan, log + LinesOf(plan, rows)) == Ok(Completed(done, rows))
    decreases |rows|
  {
    var lines := LinesOf(plan, rows);
    if rows == [] {
      assert log + lines == log;
    } else {
      var front, r := rows[..|rows| - 1], rows[|rows| - 1];
      FreshFront(plan, done, rows);
      FreshLineRead(plan, Completed(done, front), r);
      FreshRowsRead(plan, log, done, front);
      LastLine(plan, log, rows);
      hide Fresh, ReadLine, DistinctIds, InPlan, LineOf, LinesOf;
    }
  }

  lemma {:induction false} RowsFollow(plan: Plan, ks: seq<nat>, attempt: nat -> Attempted)
    requires ks != [] ==> |plan.ids| > 0
    ensures var rows := Rows(plan, ks, attempt);
            && |rows| <= |ks|
            && (forall i | 0 <= i < |rows| ::
               rows[i].pair == Split(plan, ks[i]) && attempt(ks[i]) == Ran(rows[i].status))
            && forall i | 0 <= i < |rows| - 1 :: rows[i].status != Cancelled
    decreases |ks|
  {
    if ks != [] && attempt(ks[0]).Ran? && attempt(ks[0]).status != Cancelled {
      RowsFollow(plan, ks[1..], attempt);
    }
  }

  lemma SessionRowsFresh(plan: Plan, done: set<Pair>, s: Session)
    ensures Fresh(plan, done, SessionRows(plan, done, s))
  {
    NoSamples(plan);
    var ks := Wanted(plan, done, s.maxRuns);
    SmallestFirst(plan, done, s.maxRuns);
    RowsFollow(plan, ks, s.attempt);
    var rows := Rows(plan, ks, s.attempt);
    forall i | 0 <= i < |rows|
      ensures InPlan(plan, rows[i].pair) && rows[i].pair !in done
    {
      assert ks[i] in ks;
      SplitIsBijection(plan, ks[i], rows[i].pair);
    }
    forall i, j | 0 <= i < j < |rows|
      ensures rows[i].pair != rows[j].pair
    {
      if rows[i].pair == rows[j].pair { SplitInjective(plan, ks[i], ks[j]); }
    }
  }

  /** The log after one more session; a log that cannot be read is left alone. */
  function Next(plan: Plan, log: seq<Line>, s: Session): seq<Line> {
    match ReadLog(plan, log)
    case Err(_) => log
    case Ok(done) =>
      SessionRowsFresh(plan, done.Keys, s);
      log + LinesOf(plan, SessionRows(plan, done.Keys, s))
  }

  function After(plan: Plan, log: seq<Line>, sessions: seq<Session>): seq<Line> {
    if sessions == [] then log
    else Next(plan, After(plan, log, sessions[..|sessions| - 1]), sessions[|sessions| - 1])
  }

  /** A readable log stays readable over any sessions: no pair is ever completed twice. */
  lemma {:induction false} SessionsNeverRepeat(plan: Plan, log: seq<Line>, sessions: seq<Session>)
    requires DistinctIds(plan) && ReadLog(plan, log).Ok?
    ensures ReadLog(plan, After(plan, log, sessions)).Ok?
    ensures ReadLog(plan, log).value.Keys <= ReadLog(plan, After(plan, log, sessions)).value.Keys
    decreases |sessions|
  {
    if sessions != [] {
      var before, s := After(plan, log, sessions[..|sessions| - 1]), sessions[|sessions| - 1];
      SessionsNeverRepeat(plan, log, sessions[..|sessions| - 1]);
      var done := ReadLog(plan, before).value;
      SessionRowsFresh(plan, done.Keys, s);
      var rows := SessionRows(plan, done.Keys, s);
      FreshRowsRead(plan, before, done, rows);
      forall p <- done
        ensures p in Completed(done, rows)
      {
        CompletedKeys(done, rows, p);
      }
    }
  }

  // ---------------------------------------------------------------- from an empty log

  /** The pairs of the first `m` runs. */
  ghost function UpTo(plan: Plan, m: nat): set<Pair>
    requires m <= Total(plan)
  {
    NoSamples(plan);
    set k | 0 <= k < m :: Split(plan, k)
  }

  function Range(from: nat, to: nat): (ks: seq<nat>)
    requires from <= to
    ensures |ks| == to - from
  {
    seq(to - from, i requires 0 <= i => from + i)
  }

  lemma InUpTo(plan: Plan, m: nat, k: nat)
    requires m <= Total(plan) && k < Total(plan)
    ensures |plan.ids| > 0
    ensures Split(plan, k) in UpTo(plan, m) <==> k < m
  {
    NoSamples(plan);
    if j :| 0 <= j < m && Split(plan, j) == Split(plan, k) { SplitInjective(plan, j, k); }
  }

  lemma {:induction false} MissingAfterPrefix(plan: Plan, m: nat, k: nat)
    requires m <= Total(plan) && k <= Total(plan)
    ensures |plan.ids| > 0 || k >= Total(plan)
    ensures Missing(plan, UpTo(plan, m), k) == Range(if k <= m then m else k, Total(plan))
    decreases Total(plan) - k
  {
    NoSamples(plan);
    if k < Total(plan) {
      InUpTo(plan, m, k);
      MissingAfterPrefix(plan, m, k + 1);
    }
  }

  lemma WantedAfterPrefix(plan: Plan, m: nat, maxRuns: nat)
    requires m <= Total(plan)
    ensures Wanted(plan, UpTo(plan, m), maxRuns) == Range(m, Least(Total(plan), m + maxRuns))
  {
    MissingAfterPrefix(plan, m, 0);
  }

  /** After one session the completed runs are again the first ones. */
  lemma SessionKeepsPrefix(plan: Plan, log: seq<Line>, m: nat, s: Session) returns (m': nat)
    requires DistinctIds(plan) && m <= Total(plan)
    requires ReadLog(plan, log).Ok? && ReadLog(plan, log).value.Keys == UpTo(plan, m)
    ensures m <= m' <= Least(Total(plan), m + s.maxRuns)
    ensures ReadLog(plan, Next(plan, log, s)).Ok? && ReadLog(plan, Next(plan, log, s)).value.Keys == UpTo(plan, m')
    ensures Undisturbed(s) ==> m' == Least(Total(plan), m + s.maxRuns)
  {
    hide Wanted, SessionRows, ReadLog, Fresh, Completed, UpTo, Undisturbed, DistinctIds;
    var done := ReadLog(plan, log).value;
    var rows := SessionRows(plan, done.Keys, s);
    SessionShape(plan, m, s);
    SessionRowsFresh(plan, done.Keys, s);
    FreshRowsRead(plan, log, done, rows);
    m' := m + |rows| - Cut(rows);
    PrefixGrows(plan, done, rows, m);
  }

  /** The rows of a session after the first `m` runs. */
  lemma SessionShape(plan: Plan, m: nat, s: Session)
    requires m <= Total(plan)
    ensures var rows := SessionRows(plan, UpTo(plan, m), s);
            && m + |rows| <= Least(Total(plan), m + s.maxRuns)
            && (forall i | 0 <= i < |rows| :: |plan.ids| > 0 && rows[i].pair == Split(plan, m + i))
            && (forall i | 0 <= i < |rows| - 1 :: rows[i].status != Cancelled)
            && (Undisturbed(s) ==> m + |rows| == Least(Total(plan), m + s.maxRuns) && Cut(rows) == 0)
            && (Undisturbed(s) ==> forall i | 0 <= i < |rows| :: rows[i].status == s.attempt(m + i).status)
  {
    NoSamples(plan);
    var ks := Wanted(plan, UpTo(plan, m), s.maxRuns);
    WantedAfterPrefix(plan, m, s.maxRuns);
    UndisturbedRows(plan, ks, s);
    RowsFollow(plan, ks, s.attempt);
  }

  /** One for a last row that was cancelled. */
  function Cut(rows: seq<Row>): nat {
    if rows != [] && rows[|rows| - 1].status == Cancelled then 1 else 0
  }

  lemma PrefixGrows(plan: Plan, done: map<Pair, Status>, rows: seq<Row>, m: nat)
    requires m + |rows| <= Total(plan) && done.Keys == UpTo(plan, m) && (rows != [] ==> |plan.ids| > 0)
    requires forall i | 0 <= i < |rows| :: rows[i].pair == Split(plan, m + i)
    requires forall i | 0 <= i < |rows| - 1 :: rows[i].status != Cancelled
    ensures m + |rows| - Cut(rows) <= Total(plan) && Completed(done, rows).Keys == UpTo(plan, m + |rows| - Cut(rows))
  {
    NoSamples(plan);
    var m' := m + |rows| - Cut(rows);
    hide Completed;
    forall p
      ensures p in Completed(done, rows) <==> p in UpTo(plan, m')
    {
      CompletedKeys(done, rows, p);
      if i :| 0 <= i < |rows| && rows[i].pair == p && rows[i].status != Cancelled {
        assert p == Split(plan, m + i) && m + i < m';
      }
      if p in UpTo(plan, m') {
        var k :| 0 <= k < m' && p == Split(plan, k);
        if k >= m { assert rows[k - m].pair == p; }
      }
    }
  }

  ghost predicate Undisturbed(s: Session) {
    s.metricsExist && forall k :: s.attempt(k).Ran? && s.attempt(k).status != Cancelled
  }

  lemma {:induction false} UndisturbedRows(plan: Plan, ks: seq<nat>, s: Session)
    requires ks != [] ==> |plan.ids| > 0
    ensures Undisturbed(s) ==> |Rows(plan, ks, s.attempt)| == |ks| && !Refused(s, ks)
    decreases |ks|
  {
    if Undisturbed(s) && ks != [] { UndisturbedRows(plan, ks[1..], s); }
  }

  /** Over any sessions from an empty log, whatever their runs turn out to be, the completed runs are the first ones. */
  lemma {:induction false} CompletedIsPrefix(plan: Plan, sessions: seq<Session>) returns (m: nat)
    requires DistinctIds(plan)
    ensures m <= Total(plan)
    ensures var log := After(plan, [], sessions);
            ReadLog(plan, log).Ok? && ReadLog(plan, log).value.Keys == UpTo(plan, m)
    ensures (forall s <- sessions :: Undisturbed(s)) ==> m == Least(Total(plan), Budget(sessions))
    decreases |sessions|
  {
    if sessions == [] {
      m := 0;
    } else {
      var front, s := sessions[..|sessions| - 1], sessions[|sessions| - 1];
      var before := CompletedIsPrefix(plan, front);
      m := SessionKeepsPrefix(plan, After(plan, [], front), before, s);
      assert forall t <- front :: t in sessions;
    }
  }

  function Budget(sessions: seq<Session>): nat {
    if sessions == [] then 0 else Budget(sessions[..|sessions| - 1]) + sessions[|sessions| - 1].maxRuns
  }

  /** Undisturbed sessions whose budgets suffice complete every pair of the plan. */
  lemma BudgetsCoverThePlan(plan: Plan, sessions: seq<Session>, pair: Pair)
    requires DistinctIds(plan) && (forall s <- sessions :: Undisturbed(s)) && Budget(sessions) >= Total(plan)
    ensures ReadLog(plan, After(plan, [], sessions)).Ok?
    ensures pair in ReadLog(plan, After(plan, [], sessions)).value <==> InPlan(plan, pair)
  {
    var m := CompletedIsPrefix(plan, sessions);
    NoSamples(plan);
    if InPlan(plan, pair) {
      SplitIsBijection(plan, Join(plan, pair), pair);
    }
    if pair in UpTo(plan, m) {
      var k :| 0 <= k < m && pair == Split(plan, k);
      SplitIsBijection(plan, k, pair);
    }
  }

  /** The lines of the first `m` runs. */
  function FirstLines(plan: Plan, m: nat, attempt: nat -> Attempted): seq<Line>
    requires m <= Total(plan) && forall k :: attempt(k).Ran?
  {
    NoSamples(plan);
    seq(m, k requires 0 <= k < m => LineOf(plan, Row(Split(plan, k), attempt(k).status)))
  }

  lemma NextAddsLines(plan: Plan, log: seq<Line>, m: nat, s: Session)
    requires DistinctIds(plan) && Undisturbed(s) && m <= Total(plan) && log == FirstLines(plan, m, s.attempt)
    requires ReadLog(plan, log).Ok? && ReadLog(plan, log).value.Keys == UpTo(plan, m)
    ensures Next(plan, log, s) == FirstLines(plan, Least(Total(plan), m + s.maxRuns), s.attempt)
  {
    hide UpTo, ReadLog, SessionRows, Fresh, FirstLines, LinesOf, DistinctIds;
    SessionShape(plan, m, s);
    SessionRowsFresh(plan, UpTo(plan, m), s);
    MoreLines(plan, SessionRows(plan, UpTo(plan, m), s), m, s.attempt);
  }

  lemma MoreLines(plan: Plan, rows: seq<Row>, m: nat, attempt: nat -> Attempted)
    requires m + |rows| <= Total(plan) && forall k :: attempt(k).Ran?
    requires forall i | 0 <= i < |rows| ::
               |plan.ids| > 0 && rows[i].pair == Split(plan, m + i) && rows[i].status == attempt(m + i).status
    requires forall r <- rows :: r.pair.sample < |plan.ids|
    ensures FirstLines(plan, m, attempt) + LinesOf(plan, rows) == FirstLines(plan, m + |rows|, attempt)
  {
    var all := FirstLines(plan, m + |rows|, attempt);
    assert FirstLines(plan, m, attempt) == all[..m];
    assert LinesOf(plan, rows) == all[m..];
  }

  /** The log of undisturbed sessions is that of the first runs, as far as the budgets together go. */
  lemma {:induction false} LogIsFirstLines(plan: Plan, sessions: seq<Session>, attempt: nat -> Attempted)
    requires DistinctIds(plan) && (forall k :: attempt(k).Ran?)
    requires forall s <- sessions :: Undisturbed(s) && s.attempt == attempt
    ensures After(plan, [], sessions) == FirstLines(plan, Least(Total(plan), Budget(sessions)), attempt)
    decreases |sessions|
  {
    if sessions != [] {
      var front, s := sessions[..|sessions| - 1], sessions[|sessions| - 1];
      assert s in sessions && forall t <- front :: t in sessions;
      LogIsFirstLines(plan, front, attempt);
      var m := CompletedIsPrefix(plan, front);
      NextAddsLines(plan, After(plan, [], front), m, s);
    }
  }

  /** The log of undisturbed sessions is, line for line, that of a single session with all their budgets. */
  lemma SessionsAreOneSession(plan: Plan, sessions: seq<Session>, attempt: nat -> Attempted)
    requires DistinctIds(plan) && sessions != [] && forall s <- sessions :: Undisturbed(s) && s.attempt == attempt
    ensures After(plan, [], sessions) == After(plan, [], [Session(Budget(sessions), attempt, true)])
  {
    assert sessions[0] in sessions;
    var one := Session(Budget(sessions), attempt, true);
    LogIsFirstLines(plan, sessions, attempt);
    LogIsFirstLines(plan, [one], attempt);
    assert Budget([one]) == Budget(sessions) by { assert [one][..0] == []; }
  }
}
