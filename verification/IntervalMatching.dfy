/**
 Matching annotated breaks against detected ones (bridge/src/eval/quality.rs).

 `Augment` is the recursive augmenting search over two mutable arrays: `owner[j]` is the annotation
 that detection `j` is given to, `seen[j]` marks the detections one search has tried. A matching is
 described by a map from detections to annotations, so that "each detection is used once" is built in.
 Interval ends are reals.
 */
module IntervalMatching {
  import opened Cardinality
  import opened Outcomes

  datatype Interval = Interval(lo: real, hi: real)

  function Min(a: real, b: real): real { if a < b then a else b }

  function Max(a: real, b: real): real { if a < b then b else a }

  function Overlap(e: Interval, g: Interval): real {
    Min(e.hi, g.hi) - Max(e.lo, g.lo)
  }

  function Iou(e: Interval, g: Interval): real
    requires Overlap(e, g) > 0.0
  {
    Overlap(e, g) / (Max(e.hi, g.hi) - Min(e.lo, g.lo))
  }

  predicate Compatible(e: Interval, g: Interval, minIou: real) {
    Overlap(e, g) > 0.0 && Iou(e, g) >= minIou
  }

  // ---------------------------------------------------------------- what the overlap ratio means

  /** `x` lies strictly inside the interval. */
  predicate Inside(x: real, i: Interval) {
    i.lo < x < i.hi
  }

  function Length(i: Interval): real {
    i.hi - i.lo
  }

  /** The points two intervals have in common are those of an interval as long as the overlap, or there are none. */
  lemma OverlapIsCommonPart(e: Interval, g: Interval)
    ensures exists c: Interval ::
              Length(c) == Overlap(e, g) && forall x :: Inside(x, c) <==> Inside(x, e) && Inside(x, g)
    ensures Overlap(e, g) > 0.0 <==> exists x :: Inside(x, e) && Inside(x, g)
  {
    var c := Interval(Max(e.lo, g.lo), Min(e.hi, g.hi));
    assert Length(c) == Overlap(e, g) && forall x :: Inside(x, c) <==> Inside(x, e) && Inside(x, g);
    if Overlap(e, g) > 0.0 {
      assert Inside((c.lo + c.hi) / 2.0, c);
    }
  }

  /** What is common is at least `minIou` times what either covers. */
  predicate Fits(e: Interval, g: Interval, minIou: real) {
    var common := Overlap(e, g);
    common > 0.0 && common >= minIou * (Length(e) + Length(g) - common)
  }

  lemma Quotient(a: real, b: real, q: real)
    requires b > 0.0
    ensures a / b >= q <==> a >= q * b
    ensures a / b * b == a
  {
    var r := a / b;
    assert r * b == a;
    if r >= q { SameSign(r - q, b); assert (r - q) * b == a - q * b; }
    if r < q { SameSign(q - r, b); assert (q - r) * b == q * b - a; }
    if a >= q * b && r < q {
      Strict(q - r, b);
      assert false;
    }
  }

  lemma SameSign(u: real, v: real)
    requires u >= 0.0 && v > 0.0
    ensures u * v >= 0.0
  {}

  lemma Strict(u: real, v: real)
    requires u > 0.0 && v > 0.0
    ensures u * v > 0.0
  {}

  /** The ratio is common length over covered length, the same either way round, and 1 for equal intervals only. */
  lemma IouIsCommonOverCovered(e: Interval, g: Interval)
    requires Overlap(e, g) > 0.0
    ensures Iou(e, g) * (Length(e) + Length(g) - Overlap(e, g)) == Overlap(e, g)
    ensures Overlap(g, e) == Overlap(e, g) && Iou(g, e) == Iou(e, g)
    ensures e.lo < e.hi && g.lo < g.hi ==> 0.0 < Iou(e, g) <= 1.0 && (Iou(e, g) == 1.0 <==> e == g)
  {
    var covered := Max(e.hi, g.hi) - Min(e.lo, g.lo);
    assert covered == Length(e) + Length(g) - Overlap(e, g);
    Quotient(Overlap(e, g), covered, 1.0);
    if Iou(e, g) <= 0.0 { SameSign(-Iou(e, g), covered); }
  }

  lemma CompatibleIffFits(e: Interval, g: Interval, minIou: real)
    ensures Compatible(e, g, minIou) <==> Fits(e, g, minIou)
  {
    if Overlap(e, g) > 0.0 {
      var covered := Max(e.hi, g.hi) - Min(e.lo, g.lo);
      assert covered == Length(e) + Length(g) - Overlap(e, g);
      Quotient(Overlap(e, g), covered, minIou);
    }
  }

  // ---------------------------------------------------------------- candidate lists

  datatype Scored = Scored(index: nat, iou: real)

  /** Detections are tried by falling overlap ratio, equal ratios by index. */
  predicate Before(a: Scored, b: Scored) {
    a.iou > b.iou || (a.iou == b.iou && a.index < b.index)
  }

  ghost predicate Ranked(options: seq<Scored>) {
    forall a, b | 0 <= a < b < |options| :: Before(options[a], options[b])
  }

  /** The place of a detection that comes after all those ranked so far. */
  function Insert(options: seq<Scored>, s: Scored): (r: seq<Scored>)
    requires Ranked(options) && forall o <- options :: o.index < s.index
    ensures Ranked(r)
    ensures forall o :: o in r <==> o in options || o == s
  {
    if options == [] then [s]
    else if Before(options[0], s) then
      var rest := Insert(options[1..], s);
      assert options == [options[0]] + options[1..];
      assert forall o <- rest :: Before(options[0], o);
      [options[0]] + rest
    else
      assert forall o <- options :: Before(s, o);
      [s] + options
  }

  /** The detections below `n` that annotation `e` may take, with their ratios, best first. */
  function ScoredOptions(e: Interval, got: seq<Interval>, minIou: real, n: nat): (options: seq<Scored>)
    requires n <= |got|
    ensures Ranked(options)
    ensures forall o <- options ::
              o.index < n && Compatible(e, got[o.index], minIou) && o.iou == Iou(e, got[o.index])
    ensures forall j: nat | j < n && Compatible(e, got[j], minIou) :: Scored(j, Iou(e, got[j])) in options
  {
    if n == 0 then []
    else
      var options := ScoredOptions(e, got, minIou, n - 1);
      if Compatible(e, got[n - 1], minIou) then Insert(options, Scored(n - 1, Iou(e, got[n - 1]))) else options
  }

  function Candidates(e: Interval, got: seq<Interval>, minIou: real): (js: seq<nat>)
    ensures forall j: nat :: j in js <==> j < |got| && Compatible(e, got[j], minIou)
    ensures forall a | 0 <= a < |js| :: js[a] < |got| && Overlap(e, got[js[a]]) > 0.0
    ensures forall a, b | 0 <= a < b < |js| ::
              var (u, v) := (Iou(e, got[js[a]]), Iou(e, got[js[b]]));
              u > v || (u == v && js[a] < js[b])
  {
    var options := ScoredOptions(e, got, minIou, |got|);
    var js := seq(|options|, k requires 0 <= k < |options| => options[k].index);
    assert forall k | 0 <= k < |options| :: options[k] in options && js[k] == options[k].index;
    js
  }

  // ---------------------------------------------------------------- matchings

  /** `m` gives each of its detections an annotation below `bound` that lists it, no annotation twice. */
  ghost predicate IsMatching(m: map<nat, nat>, edges: seq<seq<nat>>, bound: nat) {
    && bound <= |edges|
    && (forall j <- m :: m[j] < bound && j in edges[m[j]])
    && (forall j, k | j in m && k in m && j != k :: m[j] != m[k])
  }

  ghost predicate IsMaximum(m: map<nat, nat>, edges: seq<seq<nat>>, bound: nat) {
    && IsMatching(m, edges, bound)
    && (forall other | IsMatching(other, edges, bound) :: |other| <= |m|)
  }

  ghost function OwnerMap(owner: seq<Option<nat>>): map<nat, nat> {
    map j: nat | j < |owner| && owner[j].Some? :: owner[j].value
  }

  /** The annotations held by detections that `seen` has not marked. */
  ghost function Holders(owner: seq<Option<nat>>, seen: seq<bool>): set<nat>
    requires |owner| == |seen|
  {
    set j | 0 <= j < |owner| && !seen[j] && owner[j].Some? :: owner[j].value
  }

  ghost predicate DistinctHolders(owner: seq<Option<nat>>, seen: seq<bool>)
    requires |owner| == |seen|
  {
    forall j, k | 0 <= j < k < |owner| && !seen[j] && !seen[k] && owner[j].Some? && owner[k].Some? ::
      owner[j] != owner[k]
  }

  ghost predicate EdgesInRange(edges: seq<seq<nat>>, n: nat) {
    forall i | 0 <= i < |edges| :: forall j <- edges[i] :: j < n
  }

  ghost predicate OwnersListed(owner: seq<Option<nat>>, edges: seq<seq<nat>>) {
    forall j | 0 <= j < |owner| && owner[j].Some? ::
      owner[j].value < |edges| && j in edges[owner[j].value]
  }

  /** Every candidate of every annotation holding a detection in `marked` is in `seen`. */
  ghost predicate ClosedUnder(owner: seq<Option<nat>>, edges: seq<seq<nat>>, before: seq<bool>, seen: seq<bool>)
    requires |owner| == |before| == |seen| && OwnersListed(owner, edges) && EdgesInRange(edges, |owner|)
  {
    forall j | 0 <= j < |owner| && seen[j] && !before[j] ::
      owner[j].Some? && forall k <- edges[owner[j].value] :: seen[k]
  }

  ghost function Unseen(seen: seq<bool>): set<nat> {
    set j: nat | j < |seen| && !seen[j]
  }

  /** Handing detection `j` from `was` to `i`, after `was` found another one among the unseen. */
  lemma HandOver(before: seq<Option<nat>>, mid: seq<Option<nat>>, after: seq<Option<nat>>,
                 seen: seq<bool>, marked: seq<bool>, j: nat, i: nat)
    requires |before| == |mid| == |after| == |seen| == |marked|
    requires j < |before| && !seen[j] && marked[j] && before[j].Some?
    requires forall k | 0 <= k < |seen| && seen[k] :: marked[k]
    requires DistinctHolders(before, seen) && i !in Holders(before, seen)
    requires forall k | 0 <= k < |before| && marked[k] :: mid[k] == before[k]
    requires DistinctHolders(mid, marked)
    requires Holders(mid, marked) == Holders(before, marked) + {before[j].value}
    requires after == mid[j := Some(i)]
    ensures DistinctHolders(after, seen)
    ensures Holders(after, seen) == Holders(before, seen) + {i}
  {
    forall k | 0 <= k < |mid| && !marked[k] && mid[k].Some?
      ensures mid[k].value in Holders(before, marked) || mid[k] == before[j]
      ensures mid[k].value in Holders(before, seen)
      ensures forall l | 0 <= l < |mid| && marked[l] && !seen[l] && l != j :: mid[l] != mid[k]
    {
      assert mid[k].value in Holders(mid, marked);
      if mid[k] == before[j] {
        assert before[j].value in Holders(before, seen);
      } else {
        var w :| 0 <= w < |before| && !marked[w] && before[w] == mid[k];
      }
    }
    forall v
      ensures v in Holders(after, seen) <==> v in Holders(before, seen) + {i}
    {
      if v in Holders(before, seen) {
        var k :| 0 <= k < |before| && !seen[k] && before[k] == Some(v);
        if marked[k] && k != j {
          assert after[k] == before[k];
        } else {
          if k != j { assert v in Holders(before, marked); }
          assert v in Holders(mid, marked);
          var w :| 0 <= w < |mid| && !marked[w] && mid[w] == Some(v);
          assert after[w] == mid[w];
        }
      }
      if v == i { assert after[j] == Some(i); }
      if v in Holders(after, seen) && v != i {
        var k :| 0 <= k < |after| && !seen[k] && after[k] == Some(v);
        assert k != j;
        if marked[k] { assert before[k] == Some(v); }
      }
    }
  }

  /** Giving the free detection `j` to `i`. */
  lemma TakeFree(before: seq<Option<nat>>, seen: seq<bool>, j: nat, i: nat)
    requires |before| == |seen| && j < |before| && !seen[j] && before[j].None?
    requires DistinctHolders(before, seen) && i !in Holders(before, seen)
    ensures DistinctHolders(before[j := Some(i)], seen)
    ensures Holders(before[j := Some(i)], seen) == Holders(before, seen) + {i}
  {
    var after := before[j := Some(i)];
    forall v
      ensures v in Holders(after, seen) <==> v in Holders(before, seen) + {i}
    {
      if v in Holders(before, seen) {
        var k :| 0 <= k < |before| && !seen[k] && before[k] == Some(v);
        assert after[k] == before[k];
      }
      if v == i { assert after[j] == Some(i); }
    }
  }

  /**
   One augmenting search for annotation `i`. On success the unseen detections hold one annotation more,
   `i`; on failure nothing moved, and what was newly seen is closed: all of `i`'s candidates are seen,
   and so are all candidates of whoever holds a newly seen detection.
   */
  method Augment(i: nat, edges: seq<seq<nat>>, owner: array<Option<nat>>, seen: array<bool>) returns (ok: bool)
    requires i < |edges| && owner.Length == seen.Length
    requires EdgesInRange(edges, owner.Length) && OwnersListed(owner[..], edges)
    requires DistinctHolders(owner[..], seen[..]) && i !in Holders(owner[..], seen[..])
    modifies owner, seen
    ensures OwnersListed(owner[..], edges)
    ensures forall j | 0 <= j < seen.Length && old(seen[j]) :: seen[j] && owner[j] == old(owner[j])
    ensures ok ==>
              && DistinctHolders(owner[..], old(seen[..]))
              && Holders(owner[..], old(seen[..])) == Holders(old(owner[..]), old(seen[..])) + {i}
    ensures !ok ==>
              && owner[..] == old(owner[..])
              && (forall j <- edges[i] :: seen[j])
              && ClosedUnder(owner[..], edges, old(seen[..]), seen[..])
    decreases Unseen(seen[..])
  {
    hide DistinctHolders, Holders;
    ghost var owner0, seen0 := owner[..], seen[..];
    var n := 0;
    while n < |edges[i]|
      invariant 0 <= n <= |edges[i]|
      invariant owner[..] == owner0
      invariant forall j | 0 <= j < seen.Length && seen0[j] :: seen[j]
      invariant forall k <- edges[i][..n] :: k < seen.Length && seen[k]
      invariant ClosedUnder(owner[..], edges, seen0, seen[..])
    {
      var j := edges[i][n];
      assert j in edges[i];
      assert edges[i][..n + 1] == edges[i][..n] + [j];
      n := n + 1;
      if seen[j] {
        continue;
      }
      seen[j] := true;
      if owner[j].None? {
        TakeFree(owner0, seen0, j, i);
        owner[j] := Some(i);
        assert owner[..] == owner0[j := Some(i)];
        return true;
      }
      ghost var marked := seen[..];
      var was := owner[j].value;
      assert j in Unseen(seen0) && j !in Unseen(marked);
      assert Unseen(marked) <= Unseen(seen0);
      StillDistinct(owner0, seen0, marked, j);
      var moved := Augment(was, edges, owner, seen);
      if moved {
        ghost var mid := owner[..];
        owner[j] := Some(i);
        assert owner[..] == mid[j := Some(i)];
        HandOver(owner0, mid, owner[..], seen0, marked, j, i);
        return true;
      }
      assert forall k | 0 <= k < seen.Length && seen[k] && !seen0[k] && k != j && marked[k] ::
          owner0[k].Some? && forall l <- edges[owner0[k].value] :: seen[l];
    }
    assert edges[i][..n] == edges[i];
    return false;
  }

  lemma StillDistinct(owner: seq<Option<nat>>, seen: seq<bool>, marked: seq<bool>, j: nat)
    requires |owner| == |seen| == |marked| && j < |owner| && owner[j].Some? && !seen[j] && marked[j]
    requires forall k | 0 <= k < |seen| && seen[k] :: marked[k]
    requires DistinctHolders(owner, seen)
    ensures DistinctHolders(owner, marked) && owner[j].value !in Holders(owner, marked)
  {
    forall k | 0 <= k < |owner| && !marked[k] && owner[k].Some?
      ensures owner[k] != owner[j]
    {
      assert !seen[k] && k != j;
    }
  }

  // ---------------------------------------------------------------- maximum cardinality

  /** `tried` holds all candidates of `i` and of everyone that `m` gives a tried detection. */
  ghost predicate Blocks(m: map<nat, nat>, edges: seq<seq<nat>>, i: nat, tried: set<nat>) {
    && i < |edges| && tried <= m.Keys
    && (forall j <- edges[i] :: j in tried)
    && (forall j <- tried :: m[j] < |edges| && forall k <- edges[m[j]] :: k in tried)
  }

  /**
   A failed search blocks annotation `i` for good. Replacing the part of any larger matching that lies inside `tried`
   by what `m` does there gives a matching that does without `i`, and that one is no larger than `m`.
   */
  lemma BlockedSearch(m: map<nat, nat>, edges: seq<seq<nat>>, i: nat, tried: set<nat>, other: map<nat, nat>)
    requires IsMaximum(m, edges, i) && Blocks(m, edges, i, tried)
    requires IsMatching(other, edges, i + 1)
    ensures |other| <= |m|
  {
    ExchangeIsMatching(m, edges, i, tried, other);
    ExchangeIsNoSmaller(m, tried, other);
  }

  ghost function Exchange(m: map<nat, nat>, tried: set<nat>, other: map<nat, nat>): map<nat, nat>
    requires tried <= m.Keys
  {
    map j | j in (other.Keys - tried) + tried :: if j in tried then m[j] else other[j]
  }

  lemma ExchangeIsNoSmaller(m: map<nat, nat>, tried: set<nat>, other: map<nat, nat>)
    requires tried <= m.Keys
    ensures |other| <= |Exchange(m, tried, other)|
  {
    var mix := Exchange(m, tried, other);
    assert other.Keys <= mix.Keys;
    SubsetSize(other.Keys, mix.Keys);
  }

  lemma ExchangeIsMatching(m: map<nat, nat>, edges: seq<seq<nat>>, i: nat, tried: set<nat>, other: map<nat, nat>)
    requires IsMatching(m, edges, i) && Blocks(m, edges, i, tried)
    requires IsMatching(other, edges, i + 1)
    ensures IsMatching(Exchange(m, tried, other), edges, i)
  {
    var mix := Exchange(m, tried, other);
    forall j <- mix
      ensures mix[j] < i && j in edges[mix[j]]
    {
      if j !in tried { assert other[j] != i; }
    }
  }

  /** A matching is as large as the set of annotations it serves. */
  lemma {:induction false} SizeIsServed(m: map<nat, nat>)
    requires forall j, k | j in m && k in m && j != k :: m[j] != m[k]
    ensures |m| == |m.Values|
    decreases |m|
  {
    if j :| j in m {
      var rest := map k | k in m && k != j :: m[k];
      assert m.Keys == rest.Keys + {j} && |m| == |m.Keys| && |rest| == |rest.Keys|;
      ValuesWithout(m, rest, j);
      SizeIsServed(rest);
    } else {
      assert m == map[];
    }
  }

  lemma ValuesWithout(m: map<nat, nat>, rest: map<nat, nat>, j: nat)
    requires j in m && rest == map k | k in m && k != j :: m[k]
    requires forall k | k in m && k != j :: m[k] != m[j]
    ensures m.Values == rest.Values + {m[j]} && m[j] !in rest.Values
  {
    forall v | v in m.Values
      ensures v in rest.Values + {m[j]}
    {
      var k :| k in m && m[k] == v;
      assert k == j || (k in rest && rest[k] == v);
    }
  }

  /** One more annotation can enlarge a matching by at most one. */
  lemma DropLast(m: map<nat, nat>, edges: seq<seq<nat>>, i: nat) returns (rest: map<nat, nat>)
    requires IsMatching(m, edges, i + 1)
    ensures IsMatching(rest, edges, i) && |m| <= |rest| + 1
  {
    if j :| j in m && m[j] == i {
      rest := map k | k in m && k != j :: m[k];
      assert m.Keys == rest.Keys + {j};
    } else {
      rest := m;
    }
  }

  lemma OwnerMapIsMatching(owner: seq<Option<nat>>, edges: seq<seq<nat>>, seen: seq<bool>, bound: nat)
    requires |owner| == |seen| && (forall j | 0 <= j < |seen| :: !seen[j])
    requires OwnersListed(owner, edges) && bound <= |edges|
    requires DistinctHolders(owner, seen)
    requires forall i <- Holders(owner, seen) :: i < bound
    ensures IsMatching(OwnerMap(owner), edges, bound)
    ensures |OwnerMap(owner)| == |Holders(owner, seen)|
  {
    var m := OwnerMap(owner);
    forall j | j in m
      ensures m[j] < bound
    {
      assert m[j] in Holders(owner, seen);
    }
    forall j, k | j in m && k in m && j != k
      ensures m[j] != m[k]
    {
      if j < k { assert owner[j] != owner[k]; } else { assert owner[k] != owner[j]; }
    }
    SizeIsServed(m);
    forall v
      ensures v in m.Values <==> v in Holders(owner, seen)
    {
      if v in Holders(owner, seen) {
        var j :| 0 <= j < |owner| && owner[j] == Some(v);
        assert j in m && m[j] == v;
      }
    }
    assert m.Values == Holders(owner, seen);
  }

  lemma GrownIsMaximum(before: map<nat, nat>, after: map<nat, nat>, edges: seq<seq<nat>>, i: nat)
    requires IsMaximum(before, edges, i) && IsMatching(after, edges, i + 1)
    requires |after| == |before| + 1
    ensures IsMaximum(after, edges, i + 1)
  {
    forall other | IsMatching(other, edges, i + 1)
      ensures |other| <= |after|
    {
      var rest := DropLast(other, edges, i);
    }
  }

  lemma BlockedIsMaximum(m: map<nat, nat>, edges: seq<seq<nat>>, i: nat, tried: set<nat>)
    requires IsMaximum(m, edges, i) && Blocks(m, edges, i, tried)
    ensures IsMaximum(m, edges, i + 1)
  {
    forall other | IsMatching(other, edges, i + 1)
      ensures |other| <= |m|
    {
      BlockedSearch(m, edges, i, tried, other);
    }
  }

  /** What the outer loop keeps: `owner` is a maximum matching of the first `i` annotations. */
  ghost predicate ServedSoFar(owner: seq<Option<nat>>, edges: seq<seq<nat>>, none: seq<bool>, i: nat) {
    && |owner| == |none| && (forall j | 0 <= j < |none| :: !none[j])
    && OwnersListed(owner, edges)
    && DistinctHolders(owner, none)
    && (forall h <- Holders(owner, none) :: h < i)
    && IsMaximum(OwnerMap(owner), edges, i)
  }

  lemma SearchSucceeded(before: seq<Option<nat>>, after: seq<Option<nat>>, edges: seq<seq<nat>>, none: seq<bool>,
                        i: nat)
    requires ServedSoFar(before, edges, none, i) && i < |edges| && |after| == |before|
    requires OwnersListed(after, edges) && DistinctHolders(after, none)
    requires Holders(after, none) == Holders(before, none) + {i}
    ensures ServedSoFar(after, edges, none, i + 1)
  {
    OwnerMapIsMatching(before, edges, none, i);
    OwnerMapIsMatching(after, edges, none, i + 1);
    GrownIsMaximum(OwnerMap(before), OwnerMap(after), edges, i);
  }

  lemma SearchFailed(owner: seq<Option<nat>>, edges: seq<seq<nat>>, none: seq<bool>, i: nat, seen: seq<bool>)
    requires ServedSoFar(owner, edges, none, i) && i < |edges| && |seen| == |owner|
    requires EdgesInRange(edges, |owner|)
    requires (forall j <- edges[i] :: seen[j]) && ClosedUnder(owner, edges, none, seen)
    ensures ServedSoFar(owner, edges, none, i + 1)
  {
    var tried := set j: nat | j < |seen| && seen[j];
    var m := OwnerMap(owner);
    forall j <- tried
      ensures j in m && m[j] < |edges|
      ensures forall k <- edges[m[j]] :: k in tried
    {
      assert seen[j] && !none[j];
    }
    assert Blocks(m, edges, i, tried);
    BlockedIsMaximum(m, edges, i, tried);
  }

  lemma NobodyServed(owner: seq<Option<nat>>, edges: seq<seq<nat>>, none: seq<bool>)
    requires |owner| == |none| && (forall j | 0 <= j < |none| :: !none[j] && owner[j].None?)
    ensures ServedSoFar(owner, edges, none, 0)
  {
    assert OwnerMap(owner) == map[];
    assert Holders(owner, none) == {};
    forall m | IsMatching(m, edges, 0)
      ensures |m| <= 0
    {
      assert m == map[];
    }
  }

  /** The outer loop: one search an annotation. */
  method Assign(edges: seq<seq<nat>>, n: nat) returns (owner: array<Option<nat>>)
    requires EdgesInRange(edges, n)
    ensures fresh(owner) && owner.Length == n
    ensures IsMaximum(OwnerMap(owner[..]), edges, |edges|)
  {
    owner := new Option<nat>[n](_ => None);
    ghost var none := seq(n, _ => false);
    NobodyServed(owner[..], edges, none);
    for i := 0 to |edges|
      invariant ServedSoFar(owner[..], edges, none, i)
    {
      ghost var before := owner[..];
      var seen := new bool[n](_ => false);
      assert seen[..] == none;
      var ok := Augment(i, edges, owner, seen);
      if ok {
        SearchSucceeded(before, owner[..], edges, none, i);
      } else {
        SearchFailed(before, edges, none, i, seen[..]);
      }
    }
  }

  // ---------------------------------------------------------------- the whole operation

  /** Pairs (annotation, detection) that overlap enough, no annotation and no detection in two of them. */
  ghost predicate IsAssignment(pairs: seq<(nat, nat)>, expected: seq<Interval>, got: seq<Interval>, minIou: real) {
    && (forall p <- pairs :: p.0 < |expected| && p.1 < |got| && Fits(expected[p.0], got[p.1], minIou))
    && (forall a, b | 0 <= a < b < |pairs| :: pairs[a].0 != pairs[b].0 && pairs[a].1 != pairs[b].1)
  }

  function AllCandidates(expected: seq<Interval>, got: seq<Interval>, minIou: real): (edges: seq<seq<nat>>)
    ensures |edges| == |expected| && EdgesInRange(edges, |got|)
    ensures forall i, j: nat | 0 <= i < |expected| ::
              j in edges[i] <==> j < |got| && Compatible(expected[i], got[j], minIou)
  {
    seq(|expected|, i requires 0 <= i < |expected| => Candidates(expected[i], got, minIou))
  }

  lemma {:induction false} AssignmentAsMap(pairs: seq<(nat, nat)>) returns (m: map<nat, nat>)
    requires forall a, b | 0 <= a < b < |pairs| :: pairs[a].1 != pairs[b].1
    ensures forall j, i :: j in m && m[j] == i <==> (i, j) in pairs
    ensures |m| == |pairs|
  {
    if pairs == [] {
      m := map[];
    } else {
      var last := pairs[|pairs| - 1];
      var front := pairs[..|pairs| - 1];
      assert pairs == front + [last];
      var rest := AssignmentAsMap(front);
      assert forall j <- rest :: (rest[j], j) in front;
      assert forall p <- front :: p.1 != last.1;
      m := rest[last.1 := last.0];
      assert m.Keys == rest.Keys + {last.1};
    }
  }

  /** No assignment has more pairs than a maximum matching of the candidate lists has entries. */
  lemma AssignmentBound(pairs: seq<(nat, nat)>, m: map<nat, nat>, expected: seq<Interval>, got: seq<Interval>,
                        minIou: real)
    requires IsMaximum(m, AllCandidates(expected, got, minIou), |expected|)
    requires IsAssignment(pairs, expected, got, minIou)
    ensures |pairs| <= |m|
  {
    var edges := AllCandidates(expected, got, minIou);
    var other := AssignmentAsMap(pairs);
    forall j | j in other
      ensures other[j] < |edges| && j in edges[other[j]]
    {
      assert (other[j], j) in pairs;
      CompatibleIffFits(expected[other[j]], got[j], minIou);
    }
    forall j, k | j in other && k in other && j != k
      ensures other[j] != other[k]
    {
      var a :| 0 <= a < |pairs| && pairs[a] == (other[j], j);
      var b :| 0 <= b < |pairs| && pairs[b] == (other[k], k);
    }
    assert IsMatching(other, edges, |expected|);
  }

  ghost predicate Lists(pairs: seq<(nat, nat)>, m: map<nat, nat>) {
    && (forall a | 0 <= a < |pairs| :: pairs[a].1 in m && m[pairs[a].1] == pairs[a].0)
    && (forall a, b | 0 <= a < b < |pairs| :: pairs[a].1 < pairs[b].1)
    && |pairs| == |m|
  }

  lemma OwnerMapGrows(owner: seq<Option<nat>>, last: Option<nat>)
    ensures OwnerMap(owner + [last]) ==
            if last.Some? then OwnerMap(owner)[|owner| := last.value] else OwnerMap(owner)
  {}

  lemma ListOneMore(pairs: seq<(nat, nat)>, m: map<nat, nat>, j: nat, i: nat)
    requires Lists(pairs, m) && forall k <- m :: k < j
    ensures Lists(pairs + [(i, j)], m[j := i])
  {
    assert m[j := i].Keys == m.Keys + {j};
  }

  /** The owners in the order of the detections. */
  method Collect(owner: array<Option<nat>>) returns (pairs: seq<(nat, nat)>)
    ensures Lists(pairs, OwnerMap(owner[..]))
  {
    pairs := [];
    for j := 0 to owner.Length
      invariant Lists(pairs, OwnerMap(owner[..j]))
    {
      OwnerMapGrows(owner[..j], owner[j]);
      assert owner[..j + 1] == owner[..j] + [owner[j]];
      if owner[j].Some? {
        ListOneMore(pairs, OwnerMap(owner[..j]), j, owner[j].value);
        pairs := pairs + [(owner[j].value, j)];
      }
    }
    assert owner[..owner.Length] == owner[..];
  }

  lemma CollectedIsAssignment(pairs: seq<(nat, nat)>, m: map<nat, nat>, expected: seq<Interval>, got: seq<Interval>,
                              minIou: real)
    requires IsMatching(m, AllCandidates(expected, got, minIou), |expected|)
    requires Lists(pairs, m)
    ensures IsAssignment(pairs, expected, got, minIou)
  {
    forall p <- pairs
      ensures p.0 < |expected| && p.1 < |got| && Fits(expected[p.0], got[p.1], minIou)
    {
      assert p.1 in m && m[p.1] == p.0;
      CompatibleIffFits(expected[p.0], got[p.1], minIou);
    }
    forall a, b | 0 <= a < b < |pairs|
      ensures pairs[a].0 != pairs[b].0
    {
      assert pairs[a] in pairs && pairs[b] in pairs;
    }
  }

  /** As many pairs as any admissible assignment can have, in the order of the detections. */
  method MatchIntervals(expected: seq<Interval>, got: seq<Interval>, minIou: real) returns (pairs: seq<(nat, nat)>)
    ensures IsAssignment(pairs, expected, got, minIou)
    ensures forall other | IsAssignment(other, expected, got, minIou) :: |other| <= |pairs|
    ensures forall a, b | 0 <= a < b < |pairs| :: pairs[a].1 < pairs[b].1
  {
    var owner := Assign(AllCandidates(expected, got, minIou), |got|);
    pairs := Collect(owner);
    ghost var m := OwnerMap(owner[..]);
    CollectedIsAssignment(pairs, m, expected, got, minIou);
    forall other | IsAssignment(other, expected, got, minIou)
      ensures |other| <= |pairs|
    {
      AssignmentBound(other, m, expected, got, minIou);
    }
  }

  // ---------------------------------------------------------------- the counts of the score

  /** The break counts of a score; `None` stands for the JSON null. */
  datatype BreakCounts = BreakCounts(outputMissing: bool, tp: nat, missed: nat, falsePositive: Option<nat>,
                                     recall: Option<real>, missRate: Option<real>, precision: Option<real>)

  /** `i` has the two end points as its ends, the smaller one first. */
  ghost predicate IsSpan(i: Interval, ends: Option<(real, real)>) {
    ends.Some? && i.lo < i.hi && (ends.value == (i.lo, i.hi) || ends.value == (i.hi, i.lo))
  }

  ghost predicate AreSpans(intervals: seq<Interval>, ends: seq<Option<(real, real)>>) {
    |intervals| == |ends| && forall k | 0 <= k < |ends| :: IsSpan(intervals[k], ends[k])
  }

  /** The detections as they stand, each with its start before its end. */
  ghost predicate AreDetections(intervals: seq<Interval>, raw: seq<Option<(real, real)>>) {
    && |intervals| == |raw|
    && forall k | 0 <= k < |raw| ::
         intervals[k].lo < intervals[k].hi && raw[k] == Some((intervals[k].lo, intervals[k].hi))
  }

  /** The end points of an annotation in order; an annotation of no length counts as not projected. */
  function Ordered(ends: Option<(real, real)>): (r: Option<Interval>)
    ensures r.Some? <==> ends.Some? && ends.value.0 != ends.value.1
    ensures r.Some? ==> IsSpan(r.value, ends)
  {
    match ends
    case None => None
    case Some((a, z)) => if a == z then None else Some(Interval(Min(a, z), Max(a, z)))
  }

  function Sequenced(ends: seq<Option<(real, real)>>): (r: Option<seq<Interval>>)
    ensures r.Some? <==> forall e <- ends :: e.Some? && e.value.0 != e.value.1
    ensures r.Some? ==> AreSpans(r.value, ends)
  {
    if ends == [] then Some([])
    else
      assert ends == [ends[0]] + ends[1..];
      match (Ordered(ends[0]), Sequenced(ends[1..]))
      case (Some(i), Some(rest)) => Some([i] + rest)
      case _ => None
  }

  /** The detected intervals that are well formed. */
  function WellFormed(raw: seq<Option<(real, real)>>): (r: seq<Interval>)
    ensures |r| <= |raw|
    ensures |r| == |raw| <==> forall e <- raw :: e.Some? && e.value.0 < e.value.1
    ensures |r| == |raw| ==> AreDetections(r, raw)
  {
    if raw == [] then []
    else
      assert raw == [raw[0]] + raw[1..];
      var rest := WellFormed(raw[1..]);
      if raw[0].Some? && raw[0].value.0 < raw[0].value.1
      then [Interval(raw[0].value.0, raw[0].value.1)] + rest else rest
  }

  /**
   An annotation has no length or no place, the output is missing or has an interval without length, or its path
   failed.
   */
  ghost predicate Unavailable(annotations: seq<Option<(real, real)>>, raw: Option<seq<Option<(real, real)>>>,
                              pathFailed: bool)
  {
    || (exists e <- annotations :: e.None? || e.value.0 == e.value.1)
    || raw.None? || (exists d <- raw.value :: d.None? || d.value.0 >= d.value.1) || pathFailed
  }

  /** `n` pairs can be made of these intervals and no more. */
  ghost predicate IsMost(n: nat, expected: seq<Interval>, got: seq<Interval>, minIou: real) {
    && (exists best :: |best| == n && IsAssignment(best, expected, got, minIou))
    && (forall other | IsAssignment(other, expected, got, minIou) :: |other| <= n)
  }

  /**
   `annotations` are the projected end points (`None` where the projection failed), `raw` the detected ones
   (`None` where the output is missing). In whichever direction an annotation was drawn, what counts is the
   interval between its ends.
   */
  method ScoreBreaks(annotations: seq<Option<(real, real)>>, raw: Option<seq<Option<(real, real)>>>,
                     pathFailed: bool, minIou: real) returns (c: BreakCounts)
    ensures c.outputMissing <==> Unavailable(annotations, raw, pathFailed)
    ensures c.tp + c.missed == |annotations|
    ensures c.falsePositive.Some? <==> !c.outputMissing
    ensures c.outputMissing ==> c.tp == 0
    ensures !c.outputMissing ==>
              && c.tp + c.falsePositive.value == |raw.value|
              && exists expected, got ::
                   && AreSpans(expected, annotations) && AreDetections(got, raw.value)
                   && IsMost(c.tp, expected, got, minIou)
    ensures c.recall == Ratio(c.tp, |annotations|) && c.missRate == Ratio(c.missed, |annotations|)
    ensures c.precision == if c.outputMissing then None else Ratio(c.tp, |raw.value|)
  {
    var projected := Sequenced(annotations);
    var expected := if projected.Some? then projected.value else [];
    var got := if raw.Some? then WellFormed(raw.value) else [];
    var unavailable := projected.None? || raw.None? || |raw.value| != |got| || pathFailed;
    var pairs := [];
    if !unavailable {
      pairs := MatchIntervals(expected, got, minIou);
      AssignmentFits(pairs, expected, got, minIou);
      assert IsMost(|pairs|, expected, got, minIou);
    }
    var tp := |pairs|;
    var missed := |annotations| - tp;
    c := BreakCounts(unavailable, tp, missed,
                     if unavailable then None else Some(|got| - tp),
                     Ratio(tp, |annotations|),
                     Ratio(missed, |annotations|),
                     if unavailable then None else Ratio(tp, |got|));
  }

  /** There is only one way to read the ends. */
  lemma SpansUnique(a: seq<Interval>, b: seq<Interval>, ends: seq<Option<(real, real)>>)
    requires AreSpans(a, ends) && AreSpans(b, ends)
    ensures a == b
  {
    forall k | 0 <= k < |ends|
      ensures a[k] == b[k]
    {
      assert IsSpan(a[k], ends[k]) && IsSpan(b[k], ends[k]);
    }
  }

  function Ratio(a: nat, n: nat): (r: Option<real>)
    requires a <= n
    ensures r.Some? <==> n != 0
    ensures r.Some? ==> 0.0 <= r.value <= 1.0 && r.value * (n as real) == a as real
  {
    if n == 0 then None else Some(a as real / n as real)
  }

  /** An assignment never has more pairs than annotations, nor than detections. */
  lemma AssignmentFits(pairs: seq<(nat, nat)>, expected: seq<Interval>, got: seq<Interval>, minIou: real)
    requires IsAssignment(pairs, expected, got, minIou)
    ensures |pairs| <= |expected| && |pairs| <= |got|
  {
    var m := AssignmentAsMap(pairs);
    forall j <- m
      ensures j < |got| && m[j] < |expected|
    {
      assert (m[j], j) in pairs;
    }
    forall j, k | j in m && k in m && j != k
      ensures m[j] != m[k]
    {
      var a :| 0 <= a < |pairs| && pairs[a] == (m[j], j);
      var b :| 0 <= b < |pairs| && pairs[b] == (m[k], k);
    }
    SizeIsServed(m);
    BelowSize(m.Keys, |got|);
    BelowSize(m.Values, |expected|);
  }

  lemma {:induction false} BelowSize(s: set<nat>, n: nat)
    requires forall x <- s :: x < n
    ensures |s| <= n
  {
    if n == 0 {
      assert s == {};
    } else {
      BelowSize(s - {n - 1}, n - 1);
      SubsetSize(s, (s - {n - 1}) + {n - 1});
    }
  }
}
