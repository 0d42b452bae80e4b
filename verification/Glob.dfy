/**
 The one-star-backtracking wildcard matcher (bridge/src/eval.rs). Pattern and name are character
 sequences that have already been case folded.

 `Matches` is what a wildcard pattern is meant to say. `Accepts` is what the loop decides on every
 input: it differs only in that a star of the pattern standing before a literal star of the name is
 taken for that character, because the loop compares characters before it looks for a star.
 */
module Glob {

  /** `*` stands for any run of characters, `?` for any one character. */
  ghost predicate Matches(p: string, i: nat, n: string, j: nat)
    requires i <= |p| && j <= |n|
    decreases |p| - i, 0
  {
    if i == |p| then j == |n|
    else if p[i] == '*' then MatchesLater(p, i + 1, n, j)
    else j < |n| && (p[i] == '?' || p[i] == n[j]) && Matches(p, i + 1, n, j + 1)
  }

  ghost predicate MatchesLater(p: string, i: nat, n: string, j: nat)
    requires i <= |p| && j <= |n|
    decreases |p| - i, 1
  {
    exists k :: j <= k <= |n| && Matches(p, i, n, k)
  }

  predicate SameChar(c: char, d: char) {
    c == '?' || c == d
  }

  /** As `Matches`, but a star before a literal star stands for exactly that character. */
  ghost predicate Accepts(p: string, i: nat, n: string, j: nat)
    requires i <= |p| && j <= |n|
    decreases |p| - i, 0
  {
    if i == |p| then j == |n|
    else if j < |n| && SameChar(p[i], n[j]) then Accepts(p, i + 1, n, j + 1)
    else p[i] == '*' && AcceptsLater(p, i + 1, n, j)
  }

  ghost predicate AcceptsLater(p: string, i: nat, n: string, j: nat)
    requires i <= |p| && j <= |n|
    decreases |p| - i, 1
  {
    exists k :: j <= k <= |n| && Accepts(p, i, n, k)
  }

  /** `p[a..b]` stands character for character before `n[c..]`. */
  ghost predicate Aligned(p: string, a: nat, b: nat, n: string, c: nat) {
    && a <= b <= |p| && c + (b - a) <= |n|
    && (forall x | a <= x < b :: SameChar(p[x], n[c + x - a]))
  }

  /**
   If a stretch of the pattern is aligned at `c` and the pattern from `a` is accepted somewhere from `c` on,
   then the pattern from the end of the stretch is accepted somewhere from the end of the alignment on.
   */
  lemma {:induction false} LatestStarSuffices(p: string, a: nat, b: nat, n: string, c: nat, k: nat)
    requires Aligned(p, a, b, n, c)
    requires c <= k <= |n| && Accepts(p, a, n, k)
    ensures AcceptsLater(p, b, n, c + (b - a))
    decreases b - a
  {
    if a < b {
      assert SameChar(p[a], n[c + a - a]);
      assert Aligned(p, a + 1, b, n, c + 1);
      if k < |n| && SameChar(p[a], n[k]) {
        LatestStarSuffices(p, a + 1, b, n, c + 1, k + 1);
      } else {
        assert AcceptsLater(p, a + 1, n, k);
        var k' :| k <= k' <= |n| && Accepts(p, a + 1, n, k');
        LatestStarSuffices(p, a + 1, b, n, c + 1, k');
      }
    }
  }

  /** A star that is not before a literal star is accepted from wherever it may be accepted later. */
  lemma StarWaits(p: string, i: nat, n: string, j: nat)
    requires i < |p| && p[i] == '*' && j <= |n| && (j < |n| ==> !SameChar(p[i], n[j]))
    requires AcceptsLater(p, i, n, j)
    ensures AcceptsLater(p, i + 1, n, j)
  {
    var k :| j <= k <= |n| && Accepts(p, i, n, k);
    if k < |n| && SameChar(p[i], n[k]) {
      assert Accepts(p, i + 1, n, k + 1);
    } else {
      assert AcceptsLater(p, i + 1, n, k);
    }
  }

  /** The alternatives still open: to go on from here, or to let the latest star stand for more. */
  ghost predicate StillPossible(p: string, pi: nat, n: string, ni: nat, starred: bool, star: nat, mark: nat)
    requires pi <= |p| && ni <= |n| && (starred ==> star < |p|)
  {
    Accepts(p, pi, n, ni) || (starred && mark < |n| && AcceptsLater(p, star + 1, n, mark + 1))
  }

  lemma LaterUnfolds(p: string, i: nat, n: string, j: nat)
    requires i <= |p| && j < |n|
    ensures AcceptsLater(p, i, n, j) <==> Accepts(p, i, n, j) || AcceptsLater(p, i, n, j + 1)
  {}

  /** Setting a new star may drop the alternatives of the star before it. */
  lemma NewStar(p: string, pi: nat, n: string, ni: nat, starred: bool, star: nat, mark: nat)
    requires pi < |p| && p[pi] == '*' && ni < |n| && !SameChar(p[pi], n[ni])
    requires starred ==> star < pi && mark <= ni && Aligned(p, star + 1, pi, n, mark) && mark + (pi - star - 1) == ni
    ensures StillPossible(p, pi, n, ni, starred, star, mark) <==> StillPossible(p, pi + 1, n, ni, true, pi, ni)
  {
    LaterUnfolds(p, pi + 1, n, ni);
    if starred && mark < |n| && AcceptsLater(p, star + 1, n, mark + 1) {
      var k :| mark + 1 <= k <= |n| && Accepts(p, star + 1, n, k);
      LatestStarSuffices(p, star + 1, pi, n, mark, k);
      StarWaits(p, pi, n, ni);
    }
  }

  /** At the end of the name there is nothing left for the latest star to stand for. */
  lemma NothingLeft(p: string, pi: nat, n: string, starred: bool, star: nat, mark: nat)
    requires pi <= |p| && (starred ==> star < pi && Aligned(p, star + 1, pi, n, mark) && mark + (pi - star - 1) == |n|)
    ensures StillPossible(p, pi, n, |n|, starred, star, mark) <==> Accepts(p, pi, n, |n|)
  {
    if starred && mark < |n| && AcceptsLater(p, star + 1, n, mark + 1) {
      var k :| mark + 1 <= k <= |n| && Accepts(p, star + 1, n, k);
      LatestStarSuffices(p, star + 1, pi, n, mark, k);
    }
  }

  lemma {:induction false} TrailingStars(p: string, i: nat, n: string)
    requires i <= |p|
    ensures Accepts(p, i, n, |n|) <==> forall k | i <= k < |p| :: p[k] == '*'
    decreases |p| - i
  {
    if i < |p| {
      TrailingStars(p, i + 1, n);
      assert AcceptsLater(p, i + 1, n, |n|) <==> Accepts(p, i + 1, n, |n|);
    }
  }

  /** The matcher decides `Accepts`, for every pattern and every name. */
  method GlobMatch(p: string, n: string) returns (r: bool)
    ensures r <==> Accepts(p, 0, n, 0)
  {
    var pi, ni := 0, 0;
    var starred, star, mark := false, 0, 0;
    while ni < |n|
      invariant pi <= |p| && ni <= |n|
      invariant starred ==> star < pi && mark <= ni && p[star] == '*'
      invariant starred ==> Aligned(p, star + 1, pi, n, mark) && mark + (pi - star - 1) == ni
      invariant Accepts(p, 0, n, 0) <==> StillPossible(p, pi, n, ni, starred, star, mark)
      decreases |p| - (if starred then star + 1 else 0), |n| - mark, |n| - ni
    {
      if pi < |p| && (p[pi] == '?' || p[pi] == n[ni]) {
        pi := pi + 1;
        ni := ni + 1;
      } else if pi < |p| && p[pi] == '*' {
        NewStar(p, pi, n, ni, starred, star, mark);
        starred := true;
        star := pi;
        mark := ni;
        pi := pi + 1;
      } else if starred {
        if mark + 1 < |n| { LaterUnfolds(p, star + 1, n, mark + 1); }
        pi := star + 1;
        mark := mark + 1;
        ni := mark;
      } else {
        return false;
      }
    }
    NothingLeft(p, pi, n, starred, star, mark);
    TrailingStars(p, pi, n);
    ghost var rest := pi;
    while pi < |p| && p[pi] == '*'
      invariant rest <= pi <= |p| && forall k | rest <= k < pi :: p[k] == '*'
    {
      pi := pi + 1;
    }
    return pi == |p|;
  }

  // ---------------------------------------------------------------- against the wildcard relation

  /** What the matcher accepts, the pattern does say. */
  lemma {:induction false} AcceptsIsSound(p: string, i: nat, n: string, j: nat)
    requires i <= |p| && j <= |n| && Accepts(p, i, n, j)
    ensures Matches(p, i, n, j)
    decreases |p| - i
  {
    if i < |p| {
      if j < |n| && SameChar(p[i], n[j]) {
        AcceptsIsSound(p, i + 1, n, j + 1);
      } else {
        assert AcceptsLater(p, i + 1, n, j);
        var k :| j <= k <= |n| && Accepts(p, i + 1, n, k);
        AcceptsIsSound(p, i + 1, n, k);
      }
    }
  }

  /** And it accepts all that the pattern says, of a name without stars. */
  lemma {:induction false} AcceptsIsComplete(p: string, i: nat, n: string, j: nat)
    requires i <= |p| && j <= |n| && '*' !in n[j..] && Matches(p, i, n, j)
    ensures Accepts(p, i, n, j)
    decreases |p| - i
  {
    if i < |p| {
      assert j < |n| ==> n[j] in n[j..] && n[j..] == [n[j]] + n[j + 1..];
      if p[i] == '*' {
        assert MatchesLater(p, i + 1, n, j);
        var k :| j <= k <= |n| && Matches(p, i + 1, n, k);
        assert n[j..][k - j..] == n[k..];
        AcceptsIsComplete(p, i + 1, n, k);
        assert AcceptsLater(p, i + 1, n, j);
      } else {
        AcceptsIsComplete(p, i + 1, n, j + 1);
      }
    }
  }

  function Question(k: nat): (q: string)
    ensures |q| == k && forall c <- q :: c == '?'
  {
    seq(k, _ => '?')
  }

  lemma {:induction false} QuestionsMatch(p: string, i: nat, n: string, j: nat)
    requires i <= |p| && j <= |n| && (forall x | i <= x < |p| :: p[x] == '?')
    ensures Matches(p, i, n, j) <==> |p| - i == |n| - j
    ensures Accepts(p, i, n, j) <==> |p| - i == |n| - j
    decreases |p| - i
  {
    if i < |p| && j < |n| { QuestionsMatch(p, i + 1, n, j + 1); }
  }

  /** A star-free prefix that stands before itself can be cut off. */
  lemma {:induction false} CommonPrefix(p: string, n: string, i: nat, s: nat)
    requires i <= s <= |p| && s <= |n| && p[..s] == n[..s] && '*' !in n[..s]
    ensures Matches(p, i, n, i) <==> Matches(p, s, n, s)
    ensures Accepts(p, i, n, i) <==> Accepts(p, s, n, s)
    decreases s - i
  {
    if i < s {
      assert p[i] == p[..s][i] == n[..s][i] == n[i] && n[..s][i] != '*';
      CommonPrefix(p, n, i + 1, s);
    }
  }

  /** A name with a literal star at `s` is missed by the pattern that has the rest of it as question marks. */
  lemma StarredNameIsMissed(n: string, s: nat) returns (p: string)
    requires s < |n| && n[s] == '*' && '*' !in n[..s]
    ensures Matches(p, 0, n, 0) && !Accepts(p, 0, n, 0)
  {
    p := n[..s] + "*" + Question(|n| - s);
    assert p[..s] == n[..s] && p[s] == '*';
    assert forall x | s + 1 <= x < |p| :: p[x] == Question(|n| - s)[x - s - 1];
    CommonPrefix(p, n, 0, s);
    QuestionsMatch(p, s + 1, n, s);
    assert Matches(p, s, n, s);
    QuestionsMatch(p, s + 1, n, s + 1);
  }

  lemma {:induction false} FirstStar(n: string) returns (s: nat)
    requires '*' in n
    ensures s < |n| && n[s] == '*' && '*' !in n[..s]
  {
    if n[0] == '*' {
      s := 0;
    } else {
      assert n == [n[0]] + n[1..];
      var t := FirstStar(n[1..]);
      s := t + 1;
      assert n[..s] == [n[0]] + n[1..][..t];
    }
  }

  /** The matcher agrees with the wildcard relation on a name, for all patterns, exactly if the name has no star. */
  lemma AgreesOnStarFreeNames(n: string)
    ensures (forall p: string :: Accepts(p, 0, n, 0) <==> Matches(p, 0, n, 0)) <==> '*' !in n
  {
    if '*' in n {
      var s := FirstStar(n);
      var p := StarredNameIsMissed(n, s);
    } else {
      assert n[0..] == n;
      forall p: string
        ensures Accepts(p, 0, n, 0) <==> Matches(p, 0, n, 0)
      {
        if Accepts(p, 0, n, 0) { AcceptsIsSound(p, 0, n, 0); }
        if Matches(p, 0, n, 0) { AcceptsIsComplete(p, 0, n, 0); }
      }
    }
  }
}
