/**
 Shrinking an image by block means (core/src/data.cpp) and the preview level that makes an image fit
 (core/src/exec/pixel_scale.cpp). Samples are reals; those of integer depths are whole numbers.
 */
module Shrink {
  import opened Outcomes
  import opened Division
  import opened Rounding

  datatype Depth = U8 | U16 | F32

  datatype Sample = Number(v: real) | NotFinite

  datatype Image = Image(width: int, height: int, channels: int, depth: Depth, pixels: Option<seq<Sample>>, scale: int)

  const EMPTY := Image(0, 0, 0, U8, None, 1)

  predicate Consistent(img: Image) {
    img.width > 0 && img.height > 0 && img.channels in {1, 3, 4} && img.pixels.Some?
  }

  /** The buffer has a sample for every channel of every pixel. */
  predicate Filled(img: Image) {
    Consistent(img) && |img.pixels.value| == img.height * (img.width * img.channels)
  }

  /** Such an image, with whole samples in the integer depths. */
  ghost predicate Sound(img: Image) {
    && Filled(img)
    && (img.depth != F32 ==> forall s <- img.pixels.value :: s.Number? && IsWhole(s.v) && s.v >= 0.0)
  }

  function Pow2(n: nat): (p: nat)
    ensures p > 0
  {
    if n == 0 then 1 else 2 * Pow2(n - 1)
  }

  /** The side of the block of source pixels that becomes one pixel. */
  function Block(level: nat): (b: nat)
    ensures b > 0
  {
    Pow2(if level <= 30 then level else 30)
  }

  /** How many blocks cover `v` pixels. */
  function Ceiling(v: nat, block: nat): nat
    requires block > 0
  {
    (v + block - 1) / block
  }

  // ---------------------------------------------------------------- how many blocks

  /** The ceiling is the least number of blocks that reach `v`. */
  lemma CeilingBounds(v: nat, block: nat)
    requires block > 0
    ensures (Ceiling(v, block) - 1) * block < v <= Ceiling(v, block) * block || (v == 0 && Ceiling(v, block) == 0)
  {
    var q := Ceiling(v, block);
    DivisionBounds(v + block - 1, block);
    assert (q - 1) * block == q * block - block;
    if v == 0 {
      if q > 0 { Multiple(q, block); }
    }
  }

  lemma CeilingIs(v: nat, block: nat, q: nat)
    requires block > 0 && (q - 1) * block < v <= q * block
    ensures Ceiling(v, block) == q
  {
    CeilingBounds(v, block);
    var c := Ceiling(v, block);
    if v > 0 {
      Larger(q - 1, c, block);
      Larger(c - 1, q, block);
    } else {
      Larger(q - 1, 0, block);
      assert q * block >= 0;
    }
  }

  lemma Associates(r: int, b: int, a: int)
    ensures r * b * a == r * (a * b)
  {}

  lemma NestedUpper(v: int, a: int, b: int, q: int, r: int)
    requires a > 0 && v <= q * a && q <= r * b
    ensures v <= r * (a * b)
  {
    Scaled(q, r * b, a);
    Associates(r, b, a);
  }

  lemma NestedLower(v: int, a: int, b: int, q: int, r: int)
    requires a > 0 && (q - 1) * a < v && (r - 1) * b < q
    ensures (r - 1) * (a * b) < v
  {
    Scaled((r - 1) * b, q - 1, a);
    Associates(r - 1, b, a);
  }

  /** Covering with blocks of blocks. */
  lemma CeilingComposes(v: nat, a: nat, b: nat)
    requires a > 0 && b > 0
    ensures a * b > 0 && Ceiling(Ceiling(v, a), b) == Ceiling(v, a * b)
  {
    Multiple(a, b);
    hide Ceiling;
    var q := Ceiling(v, a);
    var r := Ceiling(q, b);
    CeilingBounds(v, a);
    CeilingBounds(q, b);
    if v == 0 {
      NoneNeeded(a);
      NoneNeeded(b);
      NoneNeeded(a * b);
    } else {
      CeilingReaches(v, a);
      NestedUpper(v, a, b, q, r);
      NestedLower(v, a, b, q, r);
      CeilingIs(v, a * b, r);
    }
  }

  lemma NoneNeeded(block: nat)
    requires block > 0
    ensures Ceiling(0, block) == 0
  {}

  lemma CeilingReaches(v: nat, block: nat)
    requires block > 0 && v > 0
    ensures Ceiling(v, block) > 0
  {
    CeilingBounds(v, block);
  }

  /** A pixel falls in one of the blocks that cover the image, and each block has a pixel. */
  lemma BlockInBounds(x: nat, v: nat, block: nat)
    requires block > 0
    ensures x < v ==> x / block < Ceiling(v, block)
    ensures x < Ceiling(v, block) ==> x * block < v
  {
    CeilingBounds(v, block);
    var q := Ceiling(v, block);
    if x < v {
      DivisionBounds(x, block);
      Larger(x / block, q, block);
    }
    if x < q {
      Scaled(x, q - 1, block);
    }
  }

  // ---------------------------------------------------------------- one cell

  datatype Pos = Pos(x: nat, y: nat)

  /** How samples are grouped and which ones count. */
  datatype Cut = Cut(block: nat, skipZero: bool)

  predicate InImage(src: Image, p: Pos, k: nat) {
    p.x < src.width && p.y < src.height && k < src.channels
  }

  lemma IndexInBounds(w: int, h: int, c: int, x: int, y: int, k: int)
    requires 0 <= x < w && 0 <= y < h && 0 <= k < c
    ensures 0 <= x * c + k < w * c
    ensures 0 <= y * (w * c) + (x * c + k) < h * (w * c)
  {
    Scaled(x, w - 1, c);
    assert (w - 1) * c == w * c - c;
    Scaled(0, x, c);
    Scaled(y, h - 1, w * c);
    assert (h - 1) * (w * c) == h * (w * c) - w * c;
    Scaled(0, y, w * c);
  }

  /** The sample of a pixel's channel: row by row, pixel by pixel. */
  function SampleAt(src: Image, p: Pos, k: nat): Sample
    requires Filled(src) && InImage(src, p, k)
  {
    IndexInBounds(src.width, src.height, src.channels, p.x, p.y, k);
    src.pixels.value[p.y * (src.width * src.channels) + (p.x * src.channels + k)]
  }

  predicate Counts(s: Sample, skipZero: bool) {
    s.Number? && !(skipZero && s.v == 0.0)
  }

  /** The positions of one cell that count, met before pixel `x` of row `y`. */
  function Seen(src: Image, cut: Cut, ox: nat, oy: nat, k: nat, y: nat, x: nat): (seen: seq<Pos>)
    requires cut.block > 0 && k < src.channels && x <= src.width && y <= src.height && (x > 0 ==> y < src.height)
    requires Filled(src)
    ensures forall p <- seen :: InImage(src, p, k) && Counts(SampleAt(src, p, k), cut.skipZero)
    decreases y, x
  {
    if x > 0 then
      var before := Seen(src, cut, ox, oy, k, y, x - 1);
      var p := Pos(x - 1, y);
      if p.x / cut.block == ox && Counts(SampleAt(src, p, k), cut.skipZero) then before + [p] else before
    else if y > oy * cut.block then Seen(src, cut, ox, oy, k, y - 1, src.width)
    else []
  }

  function Least(a: nat, b: nat): nat {
    if a <= b then a else b
  }

  /** The positions that make up a cell of the shrunk image, in the order they are added. */
  function Cell(src: Image, cut: Cut, ox: nat, oy: nat, k: nat): (seen: seq<Pos>)
    requires cut.block > 0 && k < src.channels
    requires Filled(src)
    ensures forall p <- seen :: InImage(src, p, k) && Counts(SampleAt(src, p, k), cut.skipZero)
  {
    Seen(src, cut, ox, oy, k, Least(src.height, (oy + 1) * cut.block), 0)
  }

  function SumOf(src: Image, k: nat, seen: seq<Pos>): real
    requires Filled(src)
    requires forall p <- seen :: InImage(src, p, k) && SampleAt(src, p, k).Number?
  {
    if seen == [] then 0.0
    else SumOf(src, k, seen[..|seen| - 1]) + SampleAt(src, seen[|seen| - 1], k).v
  }

  /** What a sum over `n` samples becomes: their mean, rounded in integer depths. */
  function CellSample(sum: real, n: nat, whole: bool): Sample {
    if n == 0 then (if whole then Number(0.0) else NotFinite)
    else Number(if whole then RoundHalfAway(sum / n as real) else sum / n as real)
  }

  function CellValue(src: Image, cut: Cut, ox: nat, oy: nat, k: nat): Sample
    requires cut.block > 0 && k < src.channels
    requires Filled(src)
  {
    var seen := Cell(src, cut, ox, oy, k);
    CellSample(SumOf(src, k, seen), |seen|, src.depth != F32)
  }

  // ---------------------------------------------------------------- the cells partition the image

  ghost predicate Met(src: Image, cut: Cut, ox: nat, oy: nat, k: nat, y: nat, x: nat, p: Pos)
    requires cut.block > 0 && Filled(src)
  {
    && InImage(src, p, k) && Counts(SampleAt(src, p, k), cut.skipZero)
    && p.x / cut.block == ox && oy * cut.block <= p.y && (p.y < y || (p.y == y && p.x < x))
  }

  lemma {:induction false} SeenExactly(src: Image, cut: Cut, ox: nat, oy: nat, k: nat, y: nat, x: nat, p: Pos)
    requires cut.block > 0 && k < src.channels && x <= src.width && y <= src.height && (x > 0 ==> y < src.height)
    requires Filled(src)
    requires x > 0 ==> oy * cut.block <= y
    ensures p in Seen(src, cut, ox, oy, k, y, x) <==> Met(src, cut, ox, oy, k, y, x, p)
    decreases y, x
  {
    if x > 0 {
      SeenExactly(src, cut, ox, oy, k, y, x - 1, p);
    } else if y > oy * cut.block {
      SeenExactly(src, cut, ox, oy, k, y - 1, src.width, p);
    }
  }

  lemma StillOnce(before: seq<Pos>, p: Pos)
    requires p !in before && forall i, j | 0 <= i < j < |before| :: before[i] != before[j]
    ensures var more := before + [p]; forall i, j | 0 <= i < j < |more| :: more[i] != more[j]
  {}

  lemma {:induction false} SeenOnce(src: Image, cut: Cut, ox: nat, oy: nat, k: nat, y: nat, x: nat)
    requires cut.block > 0 && k < src.channels && x <= src.width && y <= src.height && (x > 0 ==> y < src.height)
    requires Filled(src)
    requires x > 0 ==> oy * cut.block <= y
    ensures var seen := Seen(src, cut, ox, oy, k, y, x); forall i, j | 0 <= i < j < |seen| :: seen[i] != seen[j]
    decreases y, x
  {
    hide Filled, SampleAt;
    if x > 0 {
      var before, p := Seen(src, cut, ox, oy, k, y, x - 1), Pos(x - 1, y);
      SeenOnce(src, cut, ox, oy, k, y, x - 1);
      SeenExactly(src, cut, ox, oy, k, y, x - 1, p);
      assert Seen(src, cut, ox, oy, k, y, x) == before || Seen(src, cut, ox, oy, k, y, x) == before + [p];
      StillOnce(before, p);
    } else if y > oy * cut.block {
      SeenOnce(src, cut, ox, oy, k, y - 1, src.width);
      assert Seen(src, cut, ox, oy, k, y, x) == Seen(src, cut, ox, oy, k, y - 1, src.width);
    }
  }

  lemma RowInBand(y: nat, block: nat, oy: nat)
    requires block > 0
    ensures y / block == oy <==> oy * block <= y < (oy + 1) * block
  {
    DivisionBounds(y, block);
    assert (oy + 1) * block == oy * block + block;
    if oy * block <= y < (oy + 1) * block { DivModOf(oy, block, y - oy * block); }
  }

  /** A cell has each sample that counts and whose pixel lies in its block, once, and no other. */
  lemma CellExactly(src: Image, cut: Cut, ox: nat, oy: nat, k: nat, p: Pos)
    requires cut.block > 0 && k < src.channels
    requires Filled(src)
    ensures p in Cell(src, cut, ox, oy, k) <==>
            && InImage(src, p, k) && Counts(SampleAt(src, p, k), cut.skipZero)
            && p.x / cut.block == ox && p.y / cut.block == oy
    ensures var seen := Cell(src, cut, ox, oy, k); forall i, j | 0 <= i < j < |seen| :: seen[i] != seen[j]
  {
    var end := Least(src.height, (oy + 1) * cut.block);
    SeenExactly(src, cut, ox, oy, k, end, 0, p);
    SeenOnce(src, cut, ox, oy, k, end, 0);
    RowInBand(p.y, cut.block, oy);
  }

  /** Every sample that counts is in exactly one cell, and that cell is in the shrunk image. */
  lemma EverySampleInOneCell(src: Image, cut: Cut, p: Pos, k: nat)
    requires cut.block > 0 && Filled(src)
    requires InImage(src, p, k) && Counts(SampleAt(src, p, k), cut.skipZero)
    ensures var ox, oy := p.x / cut.block, p.y / cut.block;
            && ox < Ceiling(src.width, cut.block) && oy < Ceiling(src.height, cut.block)
            && forall cx: nat, cy: nat :: p in Cell(src, cut, cx, cy, k) <==> cx == ox && cy == oy
  {
    BlockInBounds(p.x, src.width, cut.block);
    BlockInBounds(p.y, src.height, cut.block);
    forall cx: nat, cy: nat
      ensures p in Cell(src, cut, cx, cy, k) <==> cx == p.x / cut.block && cy == p.y / cut.block
    {
      CellExactly(src, cut, cx, cy, k, p);
    }
  }

  // ---------------------------------------------------------------- means

  ghost predicate Between(src: Image, k: nat, seen: seq<Pos>, lo: real, hi: real)
    requires Filled(src)
    requires forall p <- seen :: InImage(src, p, k) && SampleAt(src, p, k).Number?
  {
    forall p <- seen :: lo <= SampleAt(src, p, k).v <= hi
  }

  lemma OneMore(n: nat, v: real)
    ensures (n + 1) as real * v == n as real * v + v
  {
    assert (n + 1) as real == n as real + 1.0;
  }

  ghost predicate TotalBetween(n: nat, sum: real, lo: real, hi: real) {
    n as real * lo <= sum <= n as real * hi
  }

  lemma NothingBetween(lo: real, hi: real)
    ensures TotalBetween(0, 0.0, lo, hi)
  {}

  lemma BetweenAdds(n: nat, sum: real, v: real, lo: real, hi: real)
    requires TotalBetween(n, sum, lo, hi) && lo <= v <= hi
    ensures TotalBetween(n + 1, sum + v, lo, hi)
  {
    OneMore(n, lo);
    OneMore(n, hi);
  }

  lemma {:induction false} SumBetween(src: Image, k: nat, seen: seq<Pos>, lo: real, hi: real)
    requires Filled(src)
    requires forall p <- seen :: InImage(src, p, k) && SampleAt(src, p, k).Number?
    requires Between(src, k, seen, lo, hi)
    ensures TotalBetween(|seen|, SumOf(src, k, seen), lo, hi)
  {
    hide SampleAt, InImage, Filled, TotalBetween;
    if seen == [] {
      NothingBetween(lo, hi);
    } else {
      var front, last := seen[..|seen| - 1], seen[|seen| - 1];
      assert seen == front + [last];
      SumBetween(src, k, front, lo, hi);
      assert last in seen;
      BetweenAdds(|front|, SumOf(src, k, front), SampleAt(src, last, k).v, lo, hi);
    }
  }

  lemma MeanBetween(sum: real, n: real, lo: real, hi: real)
    requires n > 0.0 && n * lo <= sum <= n * hi
    ensures lo <= sum / n <= hi
  {
    var m := sum / n;
    assert n * m == sum;
    if m < lo { Smaller(n, m, lo); }
    if m > hi { Smaller(n, hi, m); }
  }

  lemma Smaller(n: real, a: real, b: real)
    requires n > 0.0 && a < b
    ensures n * a < n * b
  {}

  /** A cell's value lies between the least and the greatest of its samples. */
  lemma CellBetween(src: Image, cut: Cut, ox: nat, oy: nat, k: nat, lo: real, hi: real)
    requires cut.block > 0 && Sound(src) && k < src.channels && Cell(src, cut, ox, oy, k) != []
    requires src.depth != F32 ==> IsWhole(lo) && IsWhole(hi)
    requires Between(src, k, Cell(src, cut, ox, oy, k), lo, hi)
    ensures CellValue(src, cut, ox, oy, k).Number? && lo <= CellValue(src, cut, ox, oy, k).v <= hi
  {
    var seen := Cell(src, cut, ox, oy, k);
    SumBetween(src, k, seen, lo, hi);
    MeanBetween(SumOf(src, k, seen), |seen| as real, lo, hi);
    if src.depth != F32 { RoundStaysWithin(SumOf(src, k, seen) / |seen| as real, lo, hi); }
  }

  /** An integer cell differs from the mean of its samples by at most a half. */
  lemma CellIsRoundedMean(src: Image, cut: Cut, ox: nat, oy: nat, k: nat)
    requires cut.block > 0 && Sound(src) && k < src.channels && Cell(src, cut, ox, oy, k) != [] && src.depth != F32
    ensures var seen, v := Cell(src, cut, ox, oy, k), CellValue(src, cut, ox, oy, k);
            var mean := SumOf(src, k, seen) / |seen| as real;
            v.Number? && IsWhole(v.v) && mean - 0.5 <= v.v <= mean + 0.5
  {
    var seen := Cell(src, cut, ox, oy, k);
    RoundIsWhole(SumOf(src, k, seen) / |seen| as real);
  }

  function GreatestOf(src: Image, k: nat, seen: seq<Pos>): (g: real)
    requires Filled(src)
    requires forall p <- seen :: InImage(src, p, k) && SampleAt(src, p, k).Number? && IsWhole(SampleAt(src, p, k).v)
    ensures IsWhole(g) && forall p <- seen :: SampleAt(src, p, k).v <= g
  {
    if seen == [] then WholeInt(0); 0.0
    else
      var last := SampleAt(src, seen[|seen| - 1], k).v;
      var rest := GreatestOf(src, k, seen[..|seen| - 1]);
      assert seen == seen[..|seen| - 1] + [seen[|seen| - 1]];
      if last > rest then last else rest
  }

  /** With zeros skipped, a cell is zero exactly when every sample in its block is. */
  lemma ZeroMeansNoDepth(src: Image, block: nat, ox: nat, oy: nat, k: nat)
    requires block > 0 && Sound(src) && k < src.channels && src.depth != F32
    ensures CellValue(src, Cut(block, true), ox, oy, k) == Number(0.0) <==>
            forall p | InImage(src, p, k) && p.x / block == ox && p.y / block == oy ::
              SampleAt(src, p, k) == Number(0.0)
  {
    var cut := Cut(block, true);
    var seen := Cell(src, cut, ox, oy, k);
    forall p | InImage(src, p, k)
      ensures p in seen <==> p.x / block == ox && p.y / block == oy && SampleAt(src, p, k) != Number(0.0)
      ensures SampleAt(src, p, k).Number? && IsWhole(SampleAt(src, p, k).v) && SampleAt(src, p, k).v >= 0.0
    {
      CellExactly(src, cut, ox, oy, k, p);
      IndexInBounds(src.width, src.height, src.channels, p.x, p.y, k);
    }
    if seen != [] {
      forall p <- seen
        ensures SampleAt(src, p, k).v >= 1.0
      {
        WholeInt(0);
        WholeApart(SampleAt(src, p, k).v, 0.0);
      }
      WholeInt(1);
      CellBetween(src, cut, ox, oy, k, 1.0, GreatestOf(src, k, seen));
      assert seen[0] in seen;
    }
  }
}
