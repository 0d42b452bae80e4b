/**
 Parameter sets swept over axes, and their combination with explicitly given sets (bridge/src/eval.rs).
 The first axis turns fastest.
 */
module Sweep {
  import opened Outcomes
  import opened Division
  import opened Graphs

  datatype Axis = Axis(node: string, param: string, values: seq<real>, components: nat)

  datatype Write = Write(node: string, param: string, value: Json)

  datatype ParamSet = ParamSet(display: map<string, Json>, writes: seq<Write>, graph: seq<(string, Json)>)

  const NO_PARAMS := ParamSet(map[], [], [])

  // ---------------------------------------------------------------- counting in mixed radix

  /** How many ways there are to pick one of each. */
  function Total(sizes: seq<nat>): nat {
    if sizes == [] then 1 else sizes[0] * Total(sizes[1..])
  }

  ghost predicate Legal(picks: seq<nat>, sizes: seq<nat>) {
    |picks| == |sizes| && forall i | 0 <= i < |sizes| :: picks[i] < sizes[i]
  }

  /** The picks of place `index`. */
  function Picks(index: nat, sizes: seq<nat>): seq<nat>
    requires 0 !in sizes
    decreases |sizes|
  {
    if sizes == [] then []
    else
      assert sizes[0] in sizes;
      [index % sizes[0]] + Picks(index / sizes[0], sizes[1..])
  }

  /** The place where a choice of picks comes up. */
  function Place(picks: seq<nat>, sizes: seq<nat>): nat
    requires |picks| == |sizes|
  {
    if sizes == [] then 0 else Place(picks[1..], sizes[1..]) * sizes[0] + picks[0]
  }

  lemma ProductIsZero(a: nat, b: nat)
    ensures a * b > 0 <==> a > 0 && b > 0
  {
    if a > 0 && b > 0 { Multiple(a, b); }
  }

  lemma {:induction false} TotalIsZero(sizes: seq<nat>)
    ensures Total(sizes) > 0 <==> 0 !in sizes
  {
    if sizes != [] {
      TotalIsZero(sizes[1..]);
      ProductIsZero(sizes[0], Total(sizes[1..]));
      assert sizes == [sizes[0]] + sizes[1..];
    }
  }

  lemma QuotientFits(index: nat, n: nat, rest: nat)
    requires n > 0 && index < n * rest
    ensures index / n < rest
  {
    DivisionBounds(index, n);
    Larger(index / n, rest, n);
  }

  lemma PlaceFits(head: nat, n: nat, place: nat, rest: nat)
    requires head < n && place < rest
    ensures place * n + head < n * rest
  {
    Scaled(place, rest - 1, n);
    assert (rest - 1) * n == n * rest - n;
  }

  /** Every place below the total gives a legal choice, and a different one. */
  lemma {:induction false} PicksAreLegal(index: nat, sizes: seq<nat>)
    requires index < Total(sizes) && 0 !in sizes
    ensures Legal(Picks(index, sizes), sizes) && Place(Picks(index, sizes), sizes) == index
    decreases |sizes|
  {
    if sizes != [] {
      var n, q := sizes[0], index / sizes[0];
      QuotientFits(index, n, Total(sizes[1..]));
      PicksAreLegal(q, sizes[1..]);
      DivisionBounds(index, n);
      assert Picks(index, sizes)[1..] == Picks(q, sizes[1..]);
    }
  }

  lemma NoneEmpty(picks: seq<nat>, sizes: seq<nat>)
    requires Legal(picks, sizes)
    ensures 0 !in sizes
  {
    assert forall i | 0 <= i < |sizes| :: picks[i] < sizes[i];
  }

  /** Every legal choice comes up at exactly its place. */
  lemma {:induction false} PlaceIsInverse(picks: seq<nat>, sizes: seq<nat>)
    requires Legal(picks, sizes) && 0 !in sizes
    ensures Place(picks, sizes) < Total(sizes) && Picks(Place(picks, sizes), sizes) == picks
    decreases |sizes|
  {
    if sizes != [] {
      PlaceIsInverse(picks[1..], sizes[1..]);
      var q := Place(picks[1..], sizes[1..]);
      PlaceFits(picks[0], sizes[0], q, Total(sizes[1..]));
      DivModOf(q, sizes[0], picks[0]);
      assert picks == [picks[0]] + picks[1..];
    }
  }

  // ---------------------------------------------------------------- the parameter sets of all axes

  function Sizes(axes: seq<Axis>): (sizes: seq<nat>)
    ensures |sizes| == |axes|
  {
    seq(|axes|, i requires 0 <= i < |axes| => |axes[i].values|)
  }

  function Written(axis: Axis, v: real): Json {
    if axis.components > 0 then Arr(seq(axis.components, _ => Num(v))) else Num(v)
  }

  function AddChoice(ps: ParamSet, axis: Axis, v: real): ParamSet {
    ps.(display := ps.display[axis.node + "." + axis.param := Num(v)],
        writes := ps.writes + [Write(axis.node, axis.param, Written(axis, v))])
  }

  /** The parameter set of one choice of values. */
  function SetOf(axes: seq<Axis>, picks: seq<nat>): ParamSet
    requires Legal(picks, Sizes(axes))
  {
    if axes == [] then NO_PARAMS
    else
      var m := |axes| - 1;
      assert Legal(picks[..m], Sizes(axes[..m])) by {
        forall i | 0 <= i < m ensures picks[..m][i] < Sizes(axes[..m])[i] { assert picks[i] < Sizes(axes)[i]; }
      }
      assert picks[m] < Sizes(axes)[m];
      AddChoice(SetOf(axes[..m], picks[..m]), axes[m], axes[m].values[picks[m]])
  }

  /** One parameter set, its picks read off the index axis by axis. */
  method SetAt(axes: seq<Axis>, index: nat) returns (ps: ParamSet)
    requires index < Total(Sizes(axes)) && forall a <- axes :: |a.values| > 0
    ensures 0 !in Sizes(axes)
    ensures Legal(Picks(index, Sizes(axes)), Sizes(axes)) && ps == SetOf(axes, Picks(index, Sizes(axes)))
  {
    ghost var sizes := Sizes(axes);
    ghost var picks := Picks(index, sizes);
    PicksAreLegal(index, sizes);
    ps := NO_PARAMS;
    var rest: nat := index;
    assert sizes[0..] == sizes && picks[0..] == picks;
    PrefixLegal(axes, picks, 0);
    assert SetOf(axes[..0], picks[..0]) == NO_PARAMS;
    hide Picks, AddChoice, Total, SetOf, Legal;
    for i := 0 to |axes|
      invariant Picks(rest, sizes[i..]) == picks[i..]
      invariant Legal(picks[..i], Sizes(axes[..i])) && ps == SetOf(axes[..i], picks[..i])
    {
      var axis := axes[i];
      var pick := rest % |axis.values|;
      PicksStep(rest, sizes, picks, i);
      SetGrows(axes, picks, i);
      QuotientIsNat(rest, |axis.values|);
      rest := rest / |axis.values|;
      ps := AddChoice(ps, axis, axis.values[pick]);
    }
    assert axes[..|axes|] == axes && picks[..|axes|] == picks;
  }

  lemma QuotientIsNat(a: nat, n: nat)
    requires n > 0
    ensures a / n >= 0
  {}

  lemma PicksStep(rest: nat, sizes: seq<nat>, picks: seq<nat>, i: nat)
    requires 0 !in sizes && |picks| == |sizes| && i < |sizes| && Picks(rest, sizes[i..]) == picks[i..]
    ensures sizes[i] in sizes
    ensures picks[i] == rest % sizes[i] && Picks(rest / sizes[i], sizes[i + 1..]) == picks[i + 1..]
  {
    assert sizes[i..][0] == sizes[i] && sizes[i..][1..] == sizes[i + 1..];
    assert picks[i..][0] == picks[i] && picks[i..][1..] == picks[i + 1..];
  }

  lemma SetGrows(axes: seq<Axis>, picks: seq<nat>, i: nat)
    requires Legal(picks, Sizes(axes)) && i < |axes|
    ensures Legal(picks[..i], Sizes(axes[..i])) && Legal(picks[..i + 1], Sizes(axes[..i + 1]))
            && picks[i] < |axes[i].values|
    ensures SetOf(axes[..i + 1], picks[..i + 1])
            == AddChoice(SetOf(axes[..i], picks[..i]), axes[i], axes[i].values[picks[i]])
  {
    PrefixLegal(axes, picks, i);
    PrefixLegal(axes, picks, i + 1);
    assert picks[i] < Sizes(axes)[i];
    assert axes[..i + 1][..i] == axes[..i] && picks[..i + 1][..i] == picks[..i];
  }

  lemma PrefixLegal(axes: seq<Axis>, picks: seq<nat>, m: nat)
    requires Legal(picks, Sizes(axes)) && m <= |axes|
    ensures Legal(picks[..m], Sizes(axes[..m]))
  {
    forall i | 0 <= i < m
      ensures picks[..m][i] < Sizes(axes[..m])[i]
    {
      assert picks[i] < Sizes(axes)[i];
    }
  }

  ghost predicate Sweeps(out: seq<ParamSet>, axes: seq<Axis>) {
    var sizes := Sizes(axes);
    && |out| == Total(sizes)
    && forall k | 0 <= k < |out| ::
         0 !in sizes && Legal(Picks(k, sizes), sizes) && out[k] == SetOf(axes, Picks(k, sizes))
  }

  /** No axes give no sets; otherwise one set for each choice of a value from every axis. */
  method AxisParamSets(axes: seq<Axis>) returns (out: seq<ParamSet>)
    ensures axes == [] ==> out == []
    ensures axes != [] ==> Sweeps(out, axes)
  {
    out := [];
    if axes == [] {
      return;
    }
    ghost var sizes := Sizes(axes);
    var total: nat := 1;
    for i := 0 to |axes|
      invariant total * Total(sizes[i..]) == Total(sizes)
    {
      assert sizes[i..][0] == |axes[i].values| && sizes[i..][1..] == sizes[i + 1..];
      Regroup(total, |axes[i].values|, Total(sizes[i + 1..]));
      total := total * |axes[i].values|;
    }
    assert total == Total(sizes);
    TotalIsZero(sizes);
    for index := 0 to total
      invariant |out| == index
      invariant forall k | 0 <= k < index ::
          0 !in sizes && Legal(Picks(k, sizes), sizes) && out[k] == SetOf(axes, Picks(k, sizes))
    {
      forall a <- axes
        ensures |a.values| > 0
      {
        var i :| 0 <= i < |axes| && axes[i] == a;
        assert sizes[i] in sizes;
      }
      var ps := SetAt(axes, index);
      out := out + [ps];
    }
  }

  lemma Regroup(a: nat, b: nat, c: nat)
    ensures a * (b * c) == a * b * c
  {}

  /** The number itself where one is wanted, or that many copies of it. */
  ghost predicate Spread(value: Json, v: real, components: nat) {
    if components == 0 then value == Num(v)
    else value.Arr? && |value.items| == components && forall x <- value.items :: x == Num(v)
  }

  /** What a sweep writes for one choice: each axis its picked value, in the order of the axes. */
  lemma {:induction false} SetOfWrites(axes: seq<Axis>, picks: seq<nat>, i: nat)
    requires Legal(picks, Sizes(axes)) && i < |axes|
    ensures picks[i] < Sizes(axes)[i]
    ensures |SetOf(axes, picks).writes| == |axes|
    ensures var w := SetOf(axes, picks).writes[i];
            && w.node == axes[i].node && w.param == axes[i].param
            && Spread(w.value, axes[i].values[picks[i]], axes[i].components)
    decreases |axes|
  {
    var m := |axes| - 1;
    assert picks[i] < Sizes(axes)[i] && picks[m] < Sizes(axes)[m];
    PrefixLegal(axes, picks, m);
    if m > 0 { SetOfWrites(axes[..m], picks[..m], if i < m then i else 0); }
  }

  /** The axis is the last one shown under this name. */
  ghost predicate LastNamed(axes: seq<Axis>, i: nat, key: string) {
    && i < |axes| && key == axes[i].node + "." + axes[i].param
    && forall j | i < j < |axes| :: key != axes[j].node + "." + axes[j].param
  }

  /** What is shown of one choice: the number picked, under the name of its axis; no graph parameter is written. */
  lemma {:induction false} SetOfShows(axes: seq<Axis>, picks: seq<nat>, key: string)
    requires Legal(picks, Sizes(axes))
    ensures SetOf(axes, picks).graph == []
    ensures var shown := SetOf(axes, picks).display;
            && (key in shown <==> exists i: nat :: LastNamed(axes, i, key))
            && forall i: nat | LastNamed(axes, i, key) ::
                 picks[i] < Sizes(axes)[i] && shown[key] == Num(axes[i].values[picks[i]])
    decreases |axes|
  {
    assert forall i | 0 <= i < |axes| :: picks[i] < Sizes(axes)[i];
    if axes != [] {
      var m := |axes| - 1;
      PrefixLegal(axes, picks, m);
      SetOfShows(axes[..m], picks[..m], key);
      if key == axes[m].node + "." + axes[m].param {
        assert LastNamed(axes, m, key);
      } else {
        assert forall i: nat :: LastNamed(axes, i, key) <==> LastNamed(axes[..m], i, key);
        forall i: nat | LastNamed(axes, i, key)
          ensures SetOf(axes, picks).display[key] == Num(axes[i].values[picks[i]])
        {
          assert LastNamed(axes[..m], i, key);
          assert picks[..m][i] < Sizes(axes[..m])[i];
        }
      }
    }
  }

  /** Going to the next place moves the first axis on, until it is at its last value; all others stay. */
  lemma FirstTurnsFastest(index: nat, sizes: seq<nat>)
    requires 0 !in sizes && sizes != []
    requires Picks(index, sizes)[0] + 1 < sizes[0]
    ensures Picks(index + 1, sizes) == Picks(index, sizes)[0 := Picks(index, sizes)[0] + 1]
  {
    DivModOf(index / sizes[0], sizes[0], index % sizes[0] + 1);
  }

  /** Every combination of values of the axes is swept, at one place and no other. */
  lemma EveryCombinationOnce(axes: seq<Axis>, out: seq<ParamSet>, picks: seq<nat>)
    requires axes != [] && Sweeps(out, axes) && Legal(picks, Sizes(axes))
    ensures var sizes := Sizes(axes);
            && 0 !in sizes
            && Place(picks, sizes) < |out| && out[Place(picks, sizes)] == SetOf(axes, picks)
            && forall k: nat | k < |out| :: Picks(k, sizes) == picks ==> k == Place(picks, sizes)
  {
    var sizes := Sizes(axes);
    NoneEmpty(picks, sizes);
    PlaceIsInverse(picks, sizes);
    forall k: nat | k < |out| && Picks(k, sizes) == picks
      ensures k == Place(picks, sizes)
    {
      PicksAreLegal(k, sizes);
    }
  }

  // ---------------------------------------------------------------- explicit sets and axes together

  /** The value written last to a parameter, which is the one that holds. */
  function LastWritten(writes: seq<Write>, node: string, param: string): Option<Json> {
    if writes == [] then None
    else
      var w := writes[|writes| - 1];
      if w.node == node && w.param == param then Some(w.value)
      else LastWritten(writes[..|writes| - 1], node, param)
  }

  function Without(writes: seq<Write>, node: string, param: string): seq<Write> {
    if writes == [] then []
    else
      var rest := Without(writes[..|writes| - 1], node, param);
      var w := writes[|writes| - 1];
      if w.node == node && w.param == param then rest else rest + [w]
  }

  /** Each further write takes the place of the earlier ones to the same parameter. */
  function Overwritten(writes: seq<Write>, more: seq<Write>): seq<Write> {
    if more == [] then writes
    else
      var w := more[|more| - 1];
      Without(Overwritten(writes, more[..|more| - 1]), w.node, w.param) + [w]
  }

  function Merged(e: ParamSet, a: ParamSet): ParamSet {
    e.(display := e.display + a.display, writes := Overwritten(e.writes, a.writes))
  }

  /** Explicit sets outside, axes inside; either alone stands for itself, and nothing at all for one empty set. */
  method CombineParamSets(explicit: seq<ParamSet>, axes: seq<ParamSet>) returns (out: seq<ParamSet>)
    ensures explicit == [] && axes == [] ==> out == [NO_PARAMS]
    ensures explicit != [] && axes == [] ==> out == explicit
    ensures explicit == [] && axes != [] ==> out == axes
    ensures explicit != [] && axes != [] ==>
              && |out| == |explicit| * |axes|
              && forall i, j | 0 <= i < |explicit| && 0 <= j < |axes| ::
                   0 <= i * |axes| + j < |out| && out[i * |axes| + j] == Merged(explicit[i], axes[j])
  {
    if explicit == [] && axes == [] {
      return [NO_PARAMS];
    }
    if axes == [] {
      return explicit;
    }
    if explicit == [] {
      return axes;
    }
    out := [];
    for i := 0 to |explicit|
      invariant |out| == i * |axes|
      invariant Filled(out, explicit, axes, i, 0)
    {
      for j := 0 to |axes|
        invariant |out| == i * |axes| + j
        invariant Filled(out, explicit, axes, i, j)
      {
        FilledGrows(out, explicit, axes, i, j);
        var merged := MergeInto(explicit[i], axes[j]);
        out := out + [merged];
      }
      FilledRow(out, explicit, axes, i);
      assert (i + 1) * |axes| == i * |axes| + |axes|;
    }
    forall i, j | 0 <= i < |explicit| && 0 <= j < |axes|
      ensures 0 <= i * |axes| + j < |out| && out[i * |axes| + j] == Merged(explicit[i], axes[j])
    {
      PlaceFits(j, |axes|, i, |explicit|);
      DivModOf(i, |axes|, j);
      assert At(out, explicit, axes, i * |axes| + j);
    }
  }

  ghost predicate At(out: seq<ParamSet>, explicit: seq<ParamSet>, axes: seq<ParamSet>, k: nat)
    requires axes != []
  {
    k < |out| && k / |axes| < |explicit| && out[k] == Merged(explicit[k / |axes|], axes[k % |axes|])
  }

  ghost predicate Filled(out: seq<ParamSet>, explicit: seq<ParamSet>, axes: seq<ParamSet>, i: nat, j: nat)
    requires axes != []
  {
    forall k: nat | k < i * |axes| + j :: At(out, explicit, axes, k)
  }

  lemma FilledGrows(out: seq<ParamSet>, explicit: seq<ParamSet>, axes: seq<ParamSet>, i: nat, j: nat)
    requires axes != [] && i < |explicit| && j < |axes| && |out| == i * |axes| + j && Filled(out, explicit, axes, i, j)
    ensures Filled(out + [Merged(explicit[i], axes[j])], explicit, axes, i, j + 1)
  {
    var more := out + [Merged(explicit[i], axes[j])];
    DivModOf(i, |axes|, j);
    forall k: nat | k < i * |axes| + (j + 1)
      ensures At(more, explicit, axes, k)
    {
      if k < |out| { assert At(out, explicit, axes, k); }
    }
  }

  lemma FilledRow(out: seq<ParamSet>, explicit: seq<ParamSet>, axes: seq<ParamSet>, i: nat)
    requires axes != [] && Filled(out, explicit, axes, i, |axes|)
    ensures Filled(out, explicit, axes, i + 1, 0)
  {
    assert (i + 1) * |axes| + 0 == i * |axes| + |axes|;
  }

  method MergeInto(e: ParamSet, a: ParamSet) returns (merged: ParamSet)
    ensures merged == Merged(e, a)
  {
    var writes := e.writes;
    for i := 0 to |a.writes|
      invariant writes == Overwritten(e.writes, a.writes[..i])
    {
      assert a.writes[..i + 1][..i] == a.writes[..i];
      var w := a.writes[i];
      writes := Without(writes, w.node, w.param) + [w];
    }
    assert a.writes[..|a.writes|] == a.writes;
    merged := e.(display := e.display + a.display, writes := writes);
  }

  lemma {:induction false} WithoutKeepsOthers(writes: seq<Write>, node: string, param: string, n: string, p: string)
    ensures LastWritten(Without(writes, node, param), n, p) ==
            if n == node && p == param then None else LastWritten(writes, n, p)
  {
    if writes != [] {
      WithoutKeepsOthers(writes[..|writes| - 1], node, param, n, p);
      var rest := Without(writes[..|writes| - 1], node, param);
      var w := writes[|writes| - 1];
      assert (rest + [w])[..|rest + [w]| - 1] == rest;
    }
  }

  /** After merging, an axis decides the parameters it writes and the explicit set all others. */
  lemma {:induction false} MergedValue(e: seq<Write>, a: seq<Write>, node: string, param: string)
    ensures LastWritten(Overwritten(e, a), node, param) ==
            if LastWritten(a, node, param).Some? then LastWritten(a, node, param) else LastWritten(e, node, param)
    decreases |a|
  {
    if a != [] {
      var front, w := a[..|a| - 1], a[|a| - 1];
      MergedValue(e, front, node, param);
      WithoutKeepsOthers(Overwritten(e, front), w.node, w.param, node, param);
      var kept := Without(Overwritten(e, front), w.node, w.param);
      assert (kept + [w])[..|kept + [w]| - 1] == kept;
    }
  }

  /** What a merged set means: the axes decide what they show and write, the explicit set everything else. */
  lemma MergedMeans(e: ParamSet, a: ParamSet, key: string, node: string, param: string)
    ensures var m := Merged(e, a);
            && m.graph == e.graph
            && (key in m.display <==> key in e.display || key in a.display)
            && (key in a.display ==> m.display[key] == a.display[key])
            && (key in e.display && key !in a.display ==> m.display[key] == e.display[key])
            && LastWritten(m.writes, node, param) ==
               if LastWritten(a.writes, node, param).Some? then LastWritten(a.writes, node, param)
               else LastWritten(e.writes, node, param)
  {
    MergedValue(e.writes, a.writes, node, param);
  }
}
