/** Code point order of strings, and sorting of keyed sequences by it. */
module Sorting {

  /** `a` is `b` or comes before it. */
  predicate AtMost(a: string, b: string) {
    if a == "" then true
    else if b == "" then false
    else if a[0] == b[0] then AtMost(a[1..], b[1..])
    else a[0] < b[0]
  }

  lemma {:induction false} AtMostTotal(a: string, b: string)
    ensures AtMost(a, b) || AtMost(b, a)
    ensures AtMost(a, b) && AtMost(b, a) ==> a == b
  {
    if a != "" && b != "" && a[0] == b[0] {
      AtMostTotal(a[1..], b[1..]);
      assert a == [a[0]] + a[1..] && b == [b[0]] + b[1..];
    }
  }

  lemma {:induction false} AtMostTransitive(a: string, b: string, c: string)
    requires AtMost(a, b) && AtMost(b, c)
    ensures AtMost(a, c)
  {
    if a != "" && b != "" && c != "" && a[0] == b[0] == c[0] {
      AtMostTransitive(a[1..], b[1..], c[1..]);
    }
  }

  datatype Keyed<+T> = Keyed(key: string, value: T)

  function Mapped<T, U>(f: T -> U, xs: seq<T>): (ys: seq<U>)
    ensures |ys| == |xs|
    ensures forall i | 0 <= i < |xs| :: ys[i] == f(xs[i])
  {
    if xs == [] then [] else [f(xs[0])] + Mapped(f, xs[1..])
  }

  lemma {:induction false} MappedConcat<T, U>(f: T -> U, xs: seq<T>, ys: seq<T>)
    ensures Mapped(f, xs + ys) == Mapped(f, xs) + Mapped(f, ys)
  {
    var a, b := Mapped(f, xs + ys), Mapped(f, xs) + Mapped(f, ys);
    assert forall i | 0 <= i < |a| :: a[i] == b[i];
  }

  /** The first element of `xs` sits somewhere in any reordering, and the rest match up without it. */
  lemma TakeOut<T>(xs: seq<T>, ys: seq<T>) returns (before: seq<T>, after: seq<T>)
    requires multiset(xs) == multiset(ys) && xs != []
    ensures ys == before + [xs[0]] + after
    ensures multiset(xs[1..]) == multiset(before + after)
  {
    assert xs[0] in multiset(ys);
    var k :| 0 <= k < |ys| && ys[k] == xs[0];
    before, after := ys[..k], ys[k + 1..];
    assert ys == before + [xs[0]] + after;
    assert xs == [xs[0]] + xs[1..];
    assert multiset(xs) == multiset{xs[0]} + multiset(xs[1..]);
    assert multiset(ys) == multiset(before) + multiset{xs[0]} + multiset(after);
    assert multiset(xs[1..]) == multiset(xs) - multiset{xs[0]};
    assert multiset(before + after) == multiset(before) + multiset(after) == multiset(ys) - multiset{xs[0]};
  }

  /** A mapped reordering is a reordering of the mapped sequence. */
  lemma {:induction false} MappedMultiset<T, U>(f: T -> U, xs: seq<T>, ys: seq<T>)
    requires multiset(xs) == multiset(ys)
    ensures multiset(Mapped(f, xs)) == multiset(Mapped(f, ys))
    decreases |xs|
  {
    if xs == [] {
      assert |ys| == |multiset(ys)| == |multiset(xs)| == 0;
    } else {
      var before, after := TakeOut(xs, ys);
      MappedMultiset(f, xs[1..], before + after);
      MappedConcat(f, before, after);
      MappedConcat(f, before, [xs[0]]);
      MappedConcat(f, before + [xs[0]], after);
    }
  }

  ghost predicate Sorted<T>(xs: seq<Keyed<T>>) {
    forall i, j | 0 <= i < j < |xs| :: AtMost(xs[i].key, xs[j].key)
  }

  /** Equal keys carry equal values. */
  ghost predicate Functional<T>(xs: seq<Keyed<T>>) {
    forall x <- xs, y <- xs | x.key == y.key :: x == y
  }

  function Insert<T>(xs: seq<Keyed<T>>, x: Keyed<T>): seq<Keyed<T>> {
    if xs == [] || (xs[0].key != x.key && AtMost(x.key, xs[0].key)) then [x] + xs
    else [xs[0]] + Insert(xs[1..], x)
  }

  /** A stable sort by key. */
  function Sort<T>(xs: seq<Keyed<T>>): seq<Keyed<T>> {
    if xs == [] then [] else Insert(Sort(xs[..|xs| - 1]), xs[|xs| - 1])
  }

  lemma {:induction false} InsertAdds<T>(xs: seq<Keyed<T>>, x: Keyed<T>)
    ensures multiset(Insert(xs, x)) == multiset(xs) + multiset{x}
  {
    if !(xs == [] || (xs[0].key != x.key && AtMost(x.key, xs[0].key))) {
      InsertAdds(xs[1..], x);
      assert xs == [xs[0]] + xs[1..];
    }
  }

  /** `k` is at most every key of `xs`. */
  ghost predicate Leads<T>(k: string, xs: seq<Keyed<T>>) {
    forall j | 0 <= j < |xs| :: AtMost(k, xs[j].key)
  }

  lemma Led<T>(x: Keyed<T>, xs: seq<Keyed<T>>)
    requires Sorted(xs) && Leads(x.key, xs)
    ensures Sorted([x] + xs)
  {
    var r := [x] + xs;
    forall i, j | 0 <= i < j < |r|
      ensures AtMost(r[i].key, r[j].key)
    {
      assert r[j] == xs[j - 1];
      if i > 0 { assert r[i] == xs[i - 1]; }
    }
  }

  lemma {:induction false} InsertLeads<T>(k: string, xs: seq<Keyed<T>>, x: Keyed<T>)
    requires Leads(k, xs) && AtMost(k, x.key)
    ensures Leads(k, Insert(xs, x))
  {
    if !(xs == [] || (xs[0].key != x.key && AtMost(x.key, xs[0].key))) {
      assert AtMost(k, xs[0].key);
      InsertLeads(k, xs[1..], x);
    }
  }

  lemma {:induction false} InsertSorted<T>(xs: seq<Keyed<T>>, x: Keyed<T>)
    requires Sorted(xs)
    ensures Sorted(Insert(xs, x))
  {
    if xs != [] {
      AtMostTotal(x.key, xs[0].key);
      AtMostTotal(xs[0].key, xs[0].key);
      if xs[0].key != x.key && AtMost(x.key, xs[0].key) {
        forall j | 0 <= j < |xs|
          ensures AtMost(x.key, xs[j].key)
        {
          AtMostTransitive(x.key, xs[0].key, xs[j].key);
        }
        Led(x, xs);
      } else {
        InsertSorted(xs[1..], x);
        InsertLeads(xs[0].key, xs[1..], x);
        Led(xs[0], Insert(xs[1..], x));
      }
    }
  }

  lemma {:induction false} SortSorts<T>(xs: seq<Keyed<T>>)
    ensures Sorted(Sort(xs)) && multiset(Sort(xs)) == multiset(xs)
  {
    if xs != [] {
      SortSorts(xs[..|xs| - 1]);
      InsertSorted(Sort(xs[..|xs| - 1]), xs[|xs| - 1]);
      InsertAdds(Sort(xs[..|xs| - 1]), xs[|xs| - 1]);
      assert xs == xs[..|xs| - 1] + [xs[|xs| - 1]];
    }
  }

  /** The least key comes first. */
  lemma HeadIsLeast<T>(xs: seq<Keyed<T>>, y: Keyed<T>)
    requires Sorted(xs) && y in multiset(xs)
    ensures xs != [] && AtMost(xs[0].key, y.key)
  {
    var i :| 0 <= i < |xs| && xs[i] == y;
    AtMostTotal(y.key, y.key);
  }

  lemma SameHead<T>(xs: seq<Keyed<T>>, ys: seq<Keyed<T>>)
    requires Sorted(xs) && Sorted(ys) && multiset(xs) == multiset(ys) && Functional(xs) && xs != [] && ys != []
    ensures xs[0] == ys[0]
  {
    var x, y := xs[0], ys[0];
    assert x in multiset(xs) && y in multiset(ys);
    HeadIsLeast(xs, y);
    HeadIsLeast(ys, x);
    AtMostTotal(x.key, y.key);
    assert x in xs && y in xs;
  }

  /** There is only one sorted order of the same elements when equal keys mean equal elements. */
  lemma {:induction false} SortedUnique<T>(xs: seq<Keyed<T>>, ys: seq<Keyed<T>>)
    requires Sorted(xs) && Sorted(ys) && multiset(xs) == multiset(ys) && Functional(xs)
    ensures xs == ys
    decreases |xs|
  {
    assert |xs| == |multiset(xs)| == |multiset(ys)| == |ys|;
    if xs != [] {
      SameHead(xs, ys);
      assert xs == [xs[0]] + xs[1..] && ys == [ys[0]] + ys[1..];
      assert multiset(xs[1..]) == multiset(xs) - multiset{xs[0]} == multiset(ys[1..]);
      TailFacts(xs);
      TailFacts(ys);
      SortedUnique(xs[1..], ys[1..]);
    }
  }

  lemma TailFacts<T>(xs: seq<Keyed<T>>)
    requires xs != []
    ensures Sorted(xs) ==> Sorted(xs[1..])
    ensures Functional(xs) ==> Functional(xs[1..])
  {
    assert forall z <- xs[1..] :: z in xs;
  }

  /** The sorted sequence does not depend on the order the elements come in. */
  lemma SortIgnoresOrder<T>(xs: seq<Keyed<T>>, ys: seq<Keyed<T>>)
    requires multiset(xs) == multiset(ys) && Functional(xs)
    ensures Sort(xs) == Sort(ys)
  {
    SortSorts(xs);
    SortSorts(ys);
    forall x <- Sort(xs)
      ensures x in xs
    {
      assert x in multiset(Sort(xs));
    }
    SortedUnique(Sort(xs), Sort(ys));
  }

  ghost predicate DistinctKeys<T>(xs: seq<Keyed<T>>) {
    forall i, j | 0 <= i < j < |xs| :: xs[i].key != xs[j].key
  }

  lemma {:induction false} DistinctCounts<T>(xs: seq<Keyed<T>>)
    requires DistinctKeys(xs)
    ensures forall x :: multiset(xs)[x] == (if x in xs then 1 else 0)
    decreases |xs|
  {
    if xs != [] {
      var front, last := xs[..|xs| - 1], xs[|xs| - 1];
      assert xs == front + [last];
      DistinctCounts(front);
      assert last !in front;
    }
  }

  lemma SameElements<T>(xs: seq<Keyed<T>>, ys: seq<Keyed<T>>)
    requires DistinctKeys(xs) && DistinctKeys(ys)
    requires forall x <- xs :: x in ys
    requires forall y <- ys :: y in xs
    ensures multiset(xs) == multiset(ys)
  {
    DistinctCounts(xs);
    DistinctCounts(ys);
  }

  lemma CountedTwice<T>(ys: seq<T>, i: nat, j: nat)
    requires i < j < |ys| && ys[i] == ys[j]
    ensures multiset(ys)[ys[j]] >= 2
  {
    assert ys == ys[..j] + [ys[j]] + ys[j + 1..];
    assert ys[..j][i] in ys[..j];
  }

  /** Reordering keeps keys distinct. */
  lemma DistinctSorted<T>(xs: seq<Keyed<T>>, ys: seq<Keyed<T>>)
    requires DistinctKeys(xs) && multiset(xs) == multiset(ys)
    ensures DistinctKeys(ys)
  {
    DistinctCounts(xs);
    forall i, j | 0 <= i < j < |ys|
      ensures ys[i].key != ys[j].key
    {
      assert ys[i] in multiset(ys) && ys[j] in multiset(ys);
      var a :| 0 <= a < |xs| && xs[a] == ys[i];
      var b :| 0 <= b < |xs| && xs[b] == ys[j];
      if ys[i] == ys[j] {
        CountedTwice(ys, i, j);
        assert false;
      }
    }
  }

  lemma SameHeads(a: string, b: string, k: nat)
    requires k <= |a| && k <= |b| && a[..k] == b[..k]
    ensures k > 0 ==> a[0] == b[0]
  {
    if k > 0 { assert a[..k][0] == b[..k][0]; }
  }

  /** The order is that of the first character in which two strings differ; a prefix comes first. */
  lemma {:induction false} AtMostIsLexical(a: string, b: string)
    ensures AtMost(a, b) <==> a <= b || exists k :: 0 <= k < |a| && k < |b| && a[..k] == b[..k] && a[k] < b[k]
  {
    if a != "" && b != "" {
      if a[0] == b[0] {
        AtMostIsLexical(a[1..], b[1..]);
        assert a == [a[0]] + a[1..] && b == [b[0]] + b[1..];
        if k :| 0 <= k < |a[1..]| && k < |b[1..]| && a[1..][..k] == b[1..][..k] && a[1..][k] < b[1..][k] {
          assert a[..k + 1] == [a[0]] + a[1..][..k] && b[..k + 1] == [b[0]] + b[1..][..k];
          assert a[k + 1] < b[k + 1];
        }
        if k :| 0 <= k < |a| && k < |b| && a[..k] == b[..k] && a[k] < b[k] {
          assert k > 0 && a[1..][..k - 1] == a[..k][1..] && b[1..][..k - 1] == b[..k][1..];
          assert a[1..][k - 1] < b[1..][k - 1];
        }
      } else {
        if a[0] < b[0] { assert a[..0] == b[..0]; }
        if k :| 0 <= k < |a| && k < |b| && a[..k] == b[..k] && a[k] < b[k] {
          SameHeads(a, b, k);
        }
      }
    }
  }
}
