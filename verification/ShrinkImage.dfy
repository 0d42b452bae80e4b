/**
 The block-mean loop, the shrunk image, and the preview level that makes an image fit
 (core/src/data.cpp, core/src/exec/pixel_scale.cpp).
 */
module ShrinkImage {
  import opened Outcomes
  import opened Division
  import opened Rounding
  import opened Shrink

  // ---------------------------------------------------------------- what the shrunk image is

  /** The cell behind place `j` of the shrunk buffer, `ow` pixels wide. */
  function CellAt(src: Image, cut: Cut, ow: nat, j: nat): Sample
    requires cut.block > 0 && Filled(src) && ow > 0 && ow * src.channels > 0
  {
    var i := j % (ow * src.channels);
    CellValue(src, cut, i / src.channels, j / (ow * src.channels), i % src.channels)
  }

  function CutFor(src: Image, level: nat): (cut: Cut)
    ensures cut.block > 0
  {
    Cut(Block(level), src.depth == U16 && src.channels == 1)
  }

  lemma RowIsPositive(ow: int, c: int)
    requires ow > 0 && c > 0
    ensures ow * c > 0
  {}

  function Buffer(src: Image, cut: Cut, ow: nat, oh: nat): (b: seq<Sample>)
    requires cut.block > 0 && Filled(src) && ow > 0
    ensures |b| == oh * (ow * src.channels)
  {
    RowIsPositive(ow, src.channels);
    seq(oh * (ow * src.channels), j requires 0 <= j => CellAt(src, cut, ow, j))
  }

  lemma CoversSome(v: nat, block: nat)
    requires block > 0 && v > 0
    ensures Ceiling(v, block) > 0
  {
    CeilingReaches(v, block);
  }

  /** The image shrunk by 2 to the `level`; level 0 is the image itself, an inconsistent one gives the empty image. */
  function Shrunk(src: Image, level: nat): Image
    requires Consistent(src) ==> Filled(src)
  {
    if !Consistent(src) then EMPTY
    else if level == 0 then src
    else
      var cut := CutFor(src, level);
      var ow, oh := Ceiling(src.width, cut.block), Ceiling(src.height, cut.block);
      CoversSome(src.width, cut.block);
      Image(ow, oh, src.channels, src.depth, Some(Buffer(src, cut, ow, oh)), src.scale * cut.block)
  }

  // ---------------------------------------------------------------- the loops

  /** What the row of sums and counts holds before channel `kk` of pixel (x, y) is added. */
  ghost predicate Tallied(src: Image, cut: Cut, ow: nat, sums: seq<real>, ns: seq<nat>, oy: nat, y: nat, x: nat,
                          kk: nat)
    requires cut.block > 0 && Filled(src)
    requires x <= src.width && y <= src.height && (x > 0 || kk > 0 ==> y < src.height) && (kk > 0 ==> x < src.width)
  {
    && |sums| == |ns| == ow * src.channels
    && forall i | 0 <= i < |sums| :: SlotDone(src, cut, sums[i], ns[i], i, oy, y, x, kk)
  }

  ghost predicate SlotDone(src: Image, cut: Cut, sum: real, n: nat, i: nat, oy: nat, y: nat, x: nat, kk: nat)
    requires cut.block > 0 && Filled(src)
    requires x <= src.width && y <= src.height && (x > 0 || kk > 0 ==> y < src.height) && (kk > 0 ==> x < src.width)
  {
    SlotOk(src, cut, sum, n, i / src.channels, oy, i % src.channels, y, if i % src.channels < kk then x + 1 else x)
  }

  ghost predicate SlotOk(src: Image, cut: Cut, sum: real, n: nat, ox: nat, oy: nat, k: nat, y: nat, x: nat)
    requires cut.block > 0 && Filled(src) && k < src.channels
    requires x <= src.width && y <= src.height && (x > 0 ==> y < src.height)
  {
    var seen := Seen(src, cut, ox, oy, k, y, x);
    sum == SumOf(src, k, seen) && n == |seen|
  }

  lemma SlotAdds(src: Image, cut: Cut, sum: real, n: nat, ox: nat, oy: nat, k: nat, y: nat, x: nat)
    requires cut.block > 0 && Filled(src) && k < src.channels && x < src.width && y < src.height
    requires SlotOk(src, cut, sum, n, ox, oy, k, y, x)
    ensures var s := SampleAt(src, Pos(x, y), k);
            if Counts(s, cut.skipZero) && x / cut.block == ox
            then SlotOk(src, cut, sum + s.v, n + 1, ox, oy, k, y, x + 1)
            else SlotOk(src, cut, sum, n, ox, oy, k, y, x + 1)
  {
    hide Filled, SampleAt, InImage;
    var seen := Seen(src, cut, ox, oy, k, y, x);
    var more := seen + [Pos(x, y)];
    assert more[..|more| - 1] == seen;
  }

  lemma SlotNextRow(src: Image, cut: Cut, sum: real, n: nat, ox: nat, oy: nat, k: nat, y: nat)
    requires cut.block > 0 && Filled(src) && k < src.channels && y < src.height && oy * cut.block <= y
    requires SlotOk(src, cut, sum, n, ox, oy, k, y, src.width)
    ensures SlotOk(src, cut, sum, n, ox, oy, k, y + 1, 0)
  {
    assert Seen(src, cut, ox, oy, k, y + 1, 0) == Seen(src, cut, ox, oy, k, y, src.width);
  }

  lemma SlotStarts(src: Image, cut: Cut, ox: nat, oy: nat, k: nat)
    requires cut.block > 0 && Filled(src) && k < src.channels && oy * cut.block <= src.height
    ensures SlotOk(src, cut, 0.0, 0, ox, oy, k, oy * cut.block, 0)
  {}

  lemma SlotOfCell(i: nat, c: nat, q: nat, k: nat)
    requires k < c
    ensures i == q * c + k <==> i / c == q && i % c == k
  {
    DivisionBounds(i, c);
    DivModOf(q, c, k);
  }

  /** What adding sample `s` makes of a slot, if the slot is the one it is added to. */
  function SumAfter(cut: Cut, s: Sample, mine: bool, sum: real): real {
    if Counts(s, cut.skipZero) && mine then sum + s.v else sum
  }

  function CountAfter(cut: Cut, s: Sample, mine: bool, n: nat): nat {
    if Counts(s, cut.skipZero) && mine then n + 1 else n
  }

  lemma SlotOfChannel(src: Image, cut: Cut, sum: real, n: nat, mine: bool, q: nat, oy: nat, y: nat, x: nat, kk: nat)
    requires cut.block > 0 && Filled(src) && x < src.width && y < src.height && kk < src.channels
    requires SlotOk(src, cut, sum, n, q, oy, kk, y, x) && (mine <==> q == x / cut.block)
    ensures var s := SampleAt(src, Pos(x, y), kk);
            SlotOk(src, cut, SumAfter(cut, s, mine, sum), CountAfter(cut, s, mine, n), q, oy, kk, y, x + 1)
  {
    hide SlotOk, SampleAt, Filled;
    SlotAdds(src, cut, sum, n, q, oy, kk, y, x);
  }

  lemma SlotAfter(src: Image, cut: Cut, sum: real, n: nat, mine: bool, i: nat, oy: nat, y: nat, x: nat, kk: nat)
    requires cut.block > 0 && Filled(src) && x < src.width && y < src.height && kk < src.channels
    requires SlotDone(src, cut, sum, n, i, oy, y, x, kk)
    requires mine <==> i / src.channels == x / cut.block && i % src.channels == kk
    ensures var s := SampleAt(src, Pos(x, y), kk);
            SlotDone(src, cut, SumAfter(cut, s, mine, sum), CountAfter(cut, s, mine, n), i, oy, y, x, kk + 1)
  {
    hide SlotOk, SampleAt, Filled;
    if i % src.channels == kk {
      SlotOfChannel(src, cut, sum, n, mine, i / src.channels, oy, y, x, kk);
    }
  }

  lemma SlotInRow(src: Image, cut: Cut, ow: nat, x: nat, kk: nat)
    requires cut.block > 0 && Consistent(src) && ow == Ceiling(src.width, cut.block) && x < src.width
             && kk < src.channels
    ensures 0 <= x / cut.block * src.channels + kk < ow * src.channels
  {
    BlockInBounds(x, src.width, cut.block);
    IndexInBounds(ow, 1, src.channels, x / cut.block, 0, kk);
  }

  /** Adding channel `kk` of one pixel brings every slot of that channel up to date. */
  lemma TallyAdds(src: Image, cut: Cut, ow: nat, sums: seq<real>, ns: seq<nat>, oy: nat, y: nat, x: nat, kk: nat,
                  at: nat, sums': seq<real>, ns': seq<nat>)
    requires cut.block > 0 && Filled(src) && x < src.width && y < src.height && kk < src.channels
    requires Tallied(src, cut, ow, sums, ns, oy, y, x, kk)
    requires |sums'| == |sums| && |ns'| == |ns| && at == x / cut.block * src.channels + kk
    requires var s := SampleAt(src, Pos(x, y), kk);
             forall i | 0 <= i < |sums| ::
               sums'[i] == SumAfter(cut, s, i == at, sums[i]) && ns'[i] == CountAfter(cut, s, i == at, ns[i])
    ensures Tallied(src, cut, ow, sums', ns', oy, y, x, kk + 1)
  {
    hide SlotDone, SampleAt, Filled, SumAfter, CountAfter;
    forall i | 0 <= i < |sums'|
      ensures SlotDone(src, cut, sums'[i], ns'[i], i, oy, y, x, kk + 1)
    {
      SlotOfCell(i, src.channels, x / cut.block, kk);
      SlotAfter(src, cut, sums[i], ns[i], i == at, i, oy, y, x, kk);
    }
  }

  /** Adds the channels of one pixel to the sums of its cell. */
  method AddPixel(src: Image, cut: Cut, ow: nat, sum: array<real>, n: array<nat>, ghost oy: nat, y: nat, x: nat)
    requires cut.block > 0 && Filled(src) && ow == Ceiling(src.width, cut.block)
    requires x < src.width && y < src.height
    requires sum.Length == n.Length == ow * src.channels && Tallied(src, cut, ow, sum[..], n[..], oy, y, x, 0)
    modifies sum, n
    ensures Tallied(src, cut, ow, sum[..], n[..], oy, y, x + 1, 0)
  {
    hide Tallied, SampleAt;
    var o := (x / cut.block) * src.channels;
    var k := 0;
    while k < src.channels
      invariant 0 <= k <= src.channels && Tallied(src, cut, ow, sum[..], n[..], oy, y, x, k)
    {
      ghost var sums, ns := sum[..], n[..];
      SlotInRow(src, cut, ow, x, k);
      var s := SampleAt(src, Pos(x, y), k);
      if Counts(s, cut.skipZero) {
        sum[o + k] := sum[o + k] + s.v;
        n[o + k] := n[o + k] + 1;
      }
      TallyAdds(src, cut, ow, sums, ns, oy, y, x, k, o + k, sum[..], n[..]);
      k := k + 1;
    }
    AllChannels(src, cut, ow, sum[..], n[..], oy, y, x);
  }

  lemma AllChannels(src: Image, cut: Cut, ow: nat, sums: seq<real>, ns: seq<nat>, oy: nat, y: nat, x: nat)
    requires cut.block > 0 && Filled(src) && x < src.width && y < src.height
    requires Tallied(src, cut, ow, sums, ns, oy, y, x, src.channels)
    ensures Tallied(src, cut, ow, sums, ns, oy, y, x + 1, 0)
  {
    hide SlotOk;
    forall i | 0 <= i < |sums|
      ensures 0 <= i % src.channels < src.channels
    {}
  }

  lemma NextRow(src: Image, cut: Cut, ow: nat, sums: seq<real>, ns: seq<nat>, oy: nat, y: nat)
    requires cut.block > 0 && Filled(src) && y < src.height && oy * cut.block <= y
    requires Tallied(src, cut, ow, sums, ns, oy, y, src.width, 0)
    ensures Tallied(src, cut, ow, sums, ns, oy, y + 1, 0, 0)
  {
    hide SlotOk;
    forall i | 0 <= i < |sums|
      ensures SlotOk(src, cut, sums[i], ns[i], i / src.channels, oy, i % src.channels, y + 1, 0)
    {
      SlotNextRow(src, cut, sums[i], ns[i], i / src.channels, oy, i % src.channels, y);
    }
  }

  lemma Cleared(src: Image, cut: Cut, ow: nat, sums: seq<real>, ns: seq<nat>, oy: nat)
    requires cut.block > 0 && Filled(src) && oy * cut.block <= src.height && |sums| == |ns| == ow * src.channels
    requires forall i | 0 <= i < |sums| :: sums[i] == 0.0 && ns[i] == 0
    ensures Tallied(src, cut, ow, sums, ns, oy, oy * cut.block, 0, 0)
  {
    hide SlotOk;
    forall i | 0 <= i < |sums|
      ensures SlotOk(src, cut, sums[i], ns[i], i / src.channels, oy, i % src.channels, oy * cut.block, 0)
    {
      SlotStarts(src, cut, i / src.channels, oy, i % src.channels);
    }
  }

  /** Adds the pixels of one row of the source. */
  method AddRow(src: Image, cut: Cut, ow: nat, sum: array<real>, n: array<nat>, ghost oy: nat, y: nat)
    requires cut.block > 0 && Filled(src) && ow == Ceiling(src.width, cut.block)
    requires y < src.height && oy * cut.block <= y
    requires sum.Length == n.Length == ow * src.channels && Tallied(src, cut, ow, sum[..], n[..], oy, y, 0, 0)
    modifies sum, n
    ensures Tallied(src, cut, ow, sum[..], n[..], oy, y + 1, 0, 0)
  {
    hide Tallied, Ceiling, CellAt, SlotDone, SampleAt;
    var x := 0;
    while x < src.width
      invariant 0 <= x <= src.width && Tallied(src, cut, ow, sum[..], n[..], oy, y, x, 0)
    {
      AddPixel(src, cut, ow, sum, n, oy, y, x);
      x := x + 1;
    }
    NextRow(src, cut, ow, sum[..], n[..], oy, y);
  }

  /** Sums and counts the samples of every cell in row `oy` of the shrunk image. */
  method AddBand(src: Image, cut: Cut, ow: nat, sum: array<real>, n: array<nat>, oy: nat)
    requires cut.block > 0 && Filled(src) && ow == Ceiling(src.width, cut.block) && oy < Ceiling(src.height, cut.block)
    requires sum.Length == n.Length == ow * src.channels
    modifies sum, n
    ensures Tallied(src, cut, ow, sum[..], n[..], oy, Least(src.height, (oy + 1) * cut.block), 0, 0)
  {
    hide Tallied, Ceiling, CellAt, SlotDone;
    forall i | 0 <= i < sum.Length { sum[i] := 0.0; }
    forall i | 0 <= i < n.Length { n[i] := 0; }
    BlockInBounds(oy, src.height, cut.block);
    assert (oy + 1) * cut.block == oy * cut.block + cut.block;
    var y1 := Least(src.height, (oy + 1) * cut.block);
    Cleared(src, cut, ow, sum[..], n[..], oy);
    var y := oy * cut.block;
    while y < y1
      invariant oy * cut.block <= y <= y1 && Tallied(src, cut, ow, sum[..], n[..], oy, y, 0, 0)
    {
      AddRow(src, cut, ow, sum, n, oy, y);
      y := y + 1;
    }
  }

  lemma SlotIsCell(src: Image, cut: Cut, ow: nat, sums: seq<real>, ns: seq<nat>, oy: nat, i: nat)
    requires cut.block > 0 && Filled(src) && ow > 0 && ow * src.channels > 0 && i < |sums|
    requires Tallied(src, cut, ow, sums, ns, oy, Least(src.height, (oy + 1) * cut.block), 0, 0)
    ensures CellSample(sums[i], ns[i], src.depth != F32) == CellAt(src, cut, ow, oy * (ow * src.channels) + i)
  {
    hide CellSample;
    DivModOf(oy, ow * src.channels, i);
  }

  lemma PlaceInBuffer(oy: nat, oh: nat, row: nat, i: nat)
    requires oy < oh && i < row
    ensures oy * row + i < oh * row && (oy + 1) * row == oy * row + row
  {
    Scaled(oy, oh - 1, row);
    assert (oh - 1) * row == oh * row - row;
  }

  /** Fills `out` with the means of the cells. */
  method ShrinkInto(src: Image, out: array<Sample>, ow: nat, oh: nat, cut: Cut)
    requires cut.block > 0 && Filled(src) && ow == Ceiling(src.width, cut.block) && oh == Ceiling(src.height, cut.block)
    requires ow > 0 && out.Length == oh * (ow * src.channels)
    modifies out
    ensures out[..] == Buffer(src, cut, ow, oh)
  {
    var row := ow * src.channels;
    RowIsPositive(ow, src.channels);
    var sum, n := new real[row], new nat[row];
    var oy := 0;
    while oy < oh
      invariant 0 <= oy <= oh && oy * row <= out.Length
      invariant forall j | 0 <= j < oy * row :: out[j] == CellAt(src, cut, ow, j)
    {
      AddBand(src, cut, ow, sum, n, oy);
      PlaceInBuffer(oy, oh, row, row - 1);
      var i := 0;
      while i < row
        invariant 0 <= i <= row
        invariant Tallied(src, cut, ow, sum[..], n[..], oy, Least(src.height, (oy + 1) * cut.block), 0, 0)
        invariant forall j | 0 <= j < oy * row + i :: out[j] == CellAt(src, cut, ow, j)
      {
        SlotIsCell(src, cut, ow, sum[..], n[..], oy, i);
        out[oy * row + i] := CellSample(sum[i], n[i], src.depth != F32);
        i := i + 1;
      }
      oy := oy + 1;
    }
  }

  method ShrinkImage(src: Image, level: nat) returns (dst: Image)
    requires Consistent(src) ==> Filled(src)
    ensures dst == Shrunk(src, level)
    ensures !(src.width > 0 && src.height > 0 && src.pixels.Some? && (src.channels == 1 || 3 <= src.channels <= 4)) ==>
              dst == Image(0, 0, 0, U8, None, 1)
    ensures Consistent(src) && level == 0 ==> dst == src
    ensures Consistent(src) && level > 0 ==>
              && dst.channels == src.channels && dst.depth == src.depth
              && dst.pixels.Some? && |dst.pixels.value| == dst.height * (dst.width * dst.channels)
  {
    if !Consistent(src) {
      return EMPTY;
    }
    if level == 0 {
      return src;
    }
    var cut := CutFor(src, level);
    var ow, oh := Ceiling(src.width, cut.block), Ceiling(src.height, cut.block);
    CoversSome(src.width, cut.block);
    var out := new Sample[oh * (ow * src.channels)];
    ShrinkInto(src, out, ow, oh, cut);
    dst := Image(ow, oh, src.channels, src.depth, Some(out[..]), src.scale * cut.block);
  }

  // ---------------------------------------------------------------- what the shrunk image holds

  /** The size of the shrunk image, and that its buffer is complete. */
  lemma ShrunkShape(src: Image, level: nat)
    requires Filled(src)
    ensures var dst := Shrunk(src, level);
            && Filled(dst) && dst.channels == src.channels && dst.depth == src.depth
            && dst.width == Ceiling(src.width, Block(level)) && dst.height == Ceiling(src.height, Block(level))
            && dst.scale == src.scale * Block(level)
  {
    if level == 0 {
      assert Block(0) == 1;
    } else {
      CoversSome(src.width, Block(level));
      CoversSome(src.height, Block(level));
    }
  }

  /** Each sample of the shrunk image is the mean of its cell. */
  lemma ShrunkSample(src: Image, level: nat, p: Pos, k: nat)
    requires Filled(src) && level > 0 && Filled(Shrunk(src, level)) && InImage(Shrunk(src, level), p, k)
    ensures k < src.channels && SampleAt(Shrunk(src, level), p, k) == CellValue(src, CutFor(src, level), p.x, p.y, k)
  {
    var cut := CutFor(src, level);
    var ow, oh, c := Ceiling(src.width, cut.block), Ceiling(src.height, cut.block), src.channels;
    hide CellValue, Filled;
    IndexInBounds(ow, oh, c, p.x, p.y, k);
    DivModOf(p.y, ow * c, p.x * c + k);
    DivModOf(p.x, c, k);
  }

  /** The sample stands for something: a finite number, and not a zero of a depth image (16 bits, one channel). */
  predicate IsMeasured(src: Image, s: Sample) {
    s.Number? && !(s.v == 0.0 && src.depth == U16 && src.channels == 1)
  }

  /** The pixel is in the image and in the block. */
  predicate LiesIn(src: Image, block: nat, p: Pos, k: nat, q: Pos)
    requires block > 0
  {
    InImage(src, q, k) && q.x / block == p.x && q.y / block == p.y
  }

  function Total(vs: seq<real>): real {
    if vs == [] then 0.0 else Total(vs[..|vs| - 1]) + vs[|vs| - 1]
  }

  /** `at` are the places of the measured samples in the block behind pixel `p` of the shrunk image, each once. */
  ghost predicate AreMeasured(src: Image, block: nat, p: Pos, k: nat, at: seq<Pos>)
    requires Filled(src) && block > 0
  {
    && (forall q :: q in at <==> LiesIn(src, block, p, k, q) && IsMeasured(src, SampleAt(src, q, k)))
    && forall i, j | 0 <= i < j < |at| :: at[i] != at[j]
  }

  lemma {:induction false} TotalIsSum(src: Image, k: nat, at: seq<Pos>, vs: seq<real>)
    requires Filled(src) && |vs| == |at|
    requires forall p <- at :: InImage(src, p, k) && SampleAt(src, p, k).Number?
    requires forall i | 0 <= i < |at| :: vs[i] == SampleAt(src, at[i], k).v
    ensures Total(vs) == SumOf(src, k, at)
  {
    hide Filled, SampleAt, InImage;
    if at != [] {
      assert at == at[..|at| - 1] + [at[|at| - 1]];
      TotalIsSum(src, k, at[..|at| - 1], vs[..|vs| - 1]);
    }
  }

  /**
   Each sample of the shrunk image is the mean of the measured samples in its block, rounded to the nearest whole
   number in the integer depths; if none is measured, it is no number there are fractions for, else zero.
   */
  lemma ShrunkIsMean(src: Image, level: nat, p: Pos, k: nat) returns (at: seq<Pos>, vs: seq<real>)
    requires Filled(src) && level > 0 && Filled(Shrunk(src, level)) && InImage(Shrunk(src, level), p, k)
    ensures AreMeasured(src, Block(level), p, k, at) && |vs| == |at|
    ensures forall i | 0 <= i < |at| :: at[i] in at && SampleAt(src, at[i], k) == Number(vs[i])
    ensures var s := SampleAt(Shrunk(src, level), p, k);
            if at == [] then s == if src.depth == F32 then NotFinite else Number(0.0)
            else
              s.Number? &&
              if src.depth == F32 then IsMean(s.v, |at| as real, Total(vs)) else IsRounded(s.v, |at| as real, Total(vs))
  {
    ShrunkSample(src, level, p, k);
    var cut := CutFor(src, level);
    at := Cell(src, cut, p.x, p.y, k);
    CellIsMeasured(src, level, p, k);
    hide Shrunk, Filled, SampleAt, AreMeasured, Cell, CutFor, Block, RoundHalfAway, IsMean, IsRounded;
    vs := seq(|at|, i requires 0 <= i < |at| => SampleAt(src, at[i], k).v);
    TotalIsSum(src, k, at, vs);
    assert SampleAt(Shrunk(src, level), p, k) == CellSample(Total(vs), |at|, src.depth != F32);
    if at != [] { MeanOf(Total(vs), |at| as real); }
  }

  lemma CellIsMeasured(src: Image, level: nat, p: Pos, k: nat)
    requires Filled(src) && k < src.channels
    ensures AreMeasured(src, Block(level), p, k, Cell(src, CutFor(src, level), p.x, p.y, k))
  {
    var cut := CutFor(src, level);
    hide Filled, SampleAt, Cell, Block;
    forall q
      ensures q in Cell(src, cut, p.x, p.y, k) <==>
              LiesIn(src, Block(level), p, k, q) && IsMeasured(src, SampleAt(src, q, k))
    {
      CellExactly(src, cut, p.x, p.y, k, q);
    }
    CellExactly(src, cut, p.x, p.y, k, p);
  }

  /** `v` is the mean of `n` numbers that add up to `total`. */
  predicate IsMean(v: real, n: real, total: real) {
    v * n == total
  }

  /** `v` is a whole number within one half of their mean. */
  ghost predicate IsRounded(v: real, n: real, total: real) {
    IsWhole(v) && exists mean: real :: IsMean(mean, n, total) && mean - 0.5 <= v <= mean + 0.5
  }

  lemma MeanOf(total: real, n: real)
    requires n > 0.0
    ensures IsMean(total / n, n, total) && IsRounded(RoundHalfAway(total / n), n, total)
  {
    var mean := total / n;
    assert IsMean(mean, n, total);
    RoundIsWhole(mean);
  }

  lemma CellIsSound(src: Image, cut: Cut, ox: nat, oy: nat, k: nat)
    requires cut.block > 0 && Sound(src) && src.depth != F32 && k < src.channels
    ensures var s := CellValue(src, cut, ox, oy, k); s.Number? && IsWhole(s.v) && s.v >= 0.0
  {
    var seen := Cell(src, cut, ox, oy, k);
    WholeInt(0);
    if seen != [] {
      forall p <- seen
        ensures SampleAt(src, p, k).v >= 0.0 && IsWhole(SampleAt(src, p, k).v)
      {
        IndexInBounds(src.width, src.height, src.channels, p.x, p.y, k);
      }
      CellIsRoundedMean(src, cut, ox, oy, k);
      CellBetween(src, cut, ox, oy, k, 0.0, GreatestOf(src, k, seen));
    }
  }

  lemma CellAtIsSound(src: Image, cut: Cut, ow: nat, j: nat)
    requires cut.block > 0 && Sound(src) && src.depth != F32 && ow > 0 && ow * src.channels > 0
    ensures var s := CellAt(src, cut, ow, j); s.Number? && IsWhole(s.v) && s.v >= 0.0
  {
    hide Sound, CellValue;
    var i := j % (ow * src.channels);
    CellIsSound(src, cut, i / src.channels, j / (ow * src.channels), i % src.channels);
  }

  /** Integer images stay integer images. */
  lemma ShrunkSound(src: Image, level: nat)
    requires Sound(src)
    ensures Sound(Shrunk(src, level))
  {
    ShrunkShape(src, level);
    if level > 0 && src.depth != F32 {
      var cut := CutFor(src, level);
      var ow, oh := Ceiling(src.width, cut.block), Ceiling(src.height, cut.block);
      RowIsPositive(ow, src.channels);
      var buffer := Buffer(src, cut, ow, oh);
      forall j | 0 <= j < |buffer|
        ensures buffer[j].Number? && IsWhole(buffer[j].v) && buffer[j].v >= 0.0
      {
        hide CellAt, Sound;
        CellAtIsSound(src, cut, ow, j);
      }
    }
  }

  // ---------------------------------------------------------------- levels compose

  lemma {:induction false} Pow2Adds(a: nat, b: nat)
    ensures Pow2(a) * Pow2(b) == Pow2(a + b)
  {
    if a > 0 {
      Pow2Adds(a - 1, b);
      assert 2 * Pow2(a - 1) * Pow2(b) == 2 * (Pow2(a - 1) * Pow2(b));
    }
  }

  lemma {:induction false} Pow2Grows(a: nat, b: nat)
    requires a < b
    ensures Pow2(a) < Pow2(b)
  {
    if a + 1 < b { Pow2Grows(a, b - 1); }
  }

  /** The factors of two steps, each capped, multiply to the factor of one step or to at least twice the cap. */
  lemma CappedPowersMultiply(a: nat, b: nat, cap: nat)
    requires cap > 0
    ensures var i, j := if a <= cap then a else cap, if b <= cap then b else cap;
            if a == 0 || b == 0 || a + b <= cap
            then Pow2(i) * Pow2(j) == Pow2(if a + b <= cap then a + b else cap)
            else Pow2(i) * Pow2(j) >= 2 * Pow2(cap)
  {
    var i, j := if a <= cap then a else cap, if b <= cap then b else cap;
    Pow2Adds(i, j);
    if a > 0 && b > 0 && a + b > cap && cap + 1 < i + j { Pow2Grows(cap + 1, i + j); }
  }

  /** Whether shrinking by `a` and then by `b` takes blocks of the size that shrinking by `a + b` takes. */
  predicate UnderCap(a: nat, b: nat) {
    a == 0 || b == 0 || a + b <= 30
  }

  lemma BlocksMultiply(a: nat, b: nat)
    ensures if UnderCap(a, b) then Block(a) * Block(b) == Block(a + b)
            else Block(a + b) == Block(30) && Block(a) * Block(b) >= 2 * Block(30)
  {
    hide Pow2;
    CappedPowersMultiply(a, b, 30);
  }

  lemma BlocksMultiplyIffUnderCap(a: nat, b: nat)
    ensures Block(a) * Block(b) == Block(a + b) <==> UnderCap(a, b)
  {
    hide Block;
    BlocksMultiply(a, b);
  }

  lemma OneBlock(v: nat, block: nat)
    requires block > 0 && 0 < v <= block
    ensures Ceiling(v, block) == 1
  {
    CeilingIs(v, block, 1);
  }

  /** With blocks at least twice as large, as many blocks cover `v` only if one does. */
  lemma FewerLargeBlocks(v: nat, small: nat, large: nat)
    requires small > 0 && v > 0 && large >= 2 * small
    ensures Ceiling(v, large) == Ceiling(v, small) <==> v <= small
  {
    hide Ceiling;
    if v <= small {
      OneBlock(v, small);
      OneBlock(v, large);
    } else {
      var n := Ceiling(v, small);
      CeilingBounds(v, small);
      CeilingBounds(v, large);
      if Ceiling(v, large) == n {
        assert n >= 2;
        TwiceAsLarge(n, small, large);
        assert false;
      }
    }
  }

  lemma TwiceAsLarge(n: nat, small: nat, large: nat)
    requires n >= 2 && large >= 2 * small
    ensures (n - 1) * large >= n * small
  {
    Scaled(2 * small, large, n - 1);
    assert (n - 1) * (2 * small) == n * small + (n - 2) * small;
  }

  lemma SideComposes(v: nat, a: nat, b: nat)
    requires v > 0
    ensures Ceiling(Ceiling(v, Block(a)), Block(b)) == Ceiling(v, Block(a + b)) <==> UnderCap(a, b) || v <= Block(30)
  {
    hide Ceiling, Block, UnderCap;
    CeilingComposes(v, Block(a), Block(b));
    BlocksMultiply(a, b);
    if !UnderCap(a, b) { FewerLargeBlocks(v, Block(30), Block(a) * Block(b)); }
  }

  lemma TimesTwice(s: int, x: int, y: int)
    ensures s * x * y == s * (x * y)
  {}

  /**
   Shrinking twice covers the image as shrinking once by the sum of the levels does, exactly when the level cap
   is not passed or the image fits in one block of the largest size.
   */
  lemma LevelsCompose(src: Image, a: nat, b: nat)
    requires Filled(src)
    ensures Filled(Shrunk(src, a))
    ensures var twice, once := Shrunk(Shrunk(src, a), b), Shrunk(src, a + b);
            twice.width == once.width && twice.height == once.height
            <==> UnderCap(a, b) || (src.width <= Block(30) && src.height <= Block(30))
  {
    hide Shrunk, Ceiling, Block, UnderCap;
    ShrunkShape(src, a);
    ShrunkShape(Shrunk(src, a), b);
    ShrunkShape(src, a + b);
    SideComposes(src.width, a, b);
    SideComposes(src.height, a, b);
  }

  /** An image one pixel wider than the largest block: one column in two steps, two columns in one. */
  lemma TooWideToCompose(pixels: seq<Sample>, depth: Depth, scale: int)
    requires |pixels| == Pow2(30) + 1
    ensures var src := Image(Pow2(30) + 1, 1, 1, depth, Some(pixels), scale);
            && Filled(src) && Filled(Shrunk(src, 15))
            && Shrunk(Shrunk(src, 15), 16).width == 1 && Shrunk(src, 31).width == 2
  {
    var src := Image(Pow2(30) + 1, 1, 1, depth, Some(pixels), scale);
    hide Shrunk, Ceiling, Pow2;
    ShrunkShape(src, 15);
    ShrunkShape(Shrunk(src, 15), 16);
    ShrunkShape(src, 31);
    CeilingComposes(src.width, Block(15), Block(16));
    BlocksMultiply(15, 16);
    OneBlock(src.width, Block(15) * Block(16));
    CeilingIs(src.width, Block(31), 2);
  }

  lemma SameFactor(s: int, x: int, y: int)
    requires s != 0
    ensures s * x == s * y <==> x == y
  {
    if x != y { assert s * (x - y) != 0; }
  }

  /** The recorded scale composes exactly when the level cap is not passed. */
  lemma ScaleComposesIffUnderCap(src: Image, a: nat, b: nat)
    requires Filled(src)
    ensures Filled(Shrunk(src, a))
    ensures Shrunk(Shrunk(src, a), b).scale == Shrunk(src, a + b).scale <==> src.scale == 0 || UnderCap(a, b)
  {
    hide Shrunk, Ceiling, Block, Filled;
    ShrunkShape(src, a);
    ShrunkShape(Shrunk(src, a), b);
    ShrunkShape(src, a + b);
    TimesTwice(src.scale, Block(a), Block(b));
    if src.scale != 0 { SameFactor(src.scale, Block(a) * Block(b), Block(a + b)); }
    BlocksMultiplyIffUnderCap(a, b);
  }

  // ---------------------------------------------------------------- the preview level

  function PixelsAt(img: Image, level: nat): int
    requires Consistent(img)
  {
    Ceiling(img.width, Pow2(level)) * Ceiling(img.height, Pow2(level))
  }

  lemma Halves(v: nat, level: nat)
    ensures (Ceiling(v, Pow2(level)) + 1) / 2 == Ceiling(v, Pow2(level + 1))
  {
    CeilingComposes(v, Pow2(level), 2);
    assert Pow2(level) * 2 == Pow2(level + 1);
  }

  /** The least level at which the shrunk image has at most `maxPixels` pixels; at most 30. */
  method PreviewLevel(img: Image, maxPixels: nat) returns (level: nat)
    ensures !Consistent(img) || maxPixels == 0 ==> level == 0
    ensures Consistent(img) && maxPixels > 0 ==>
              && level <= 30
              && (level < 30 ==> PixelsAt(img, level) <= maxPixels)
              && forall l: nat | l < level :: PixelsAt(img, l) > maxPixels
  {
    if !Consistent(img) || maxPixels == 0 {
      return 0;
    }
    var w, h := img.width, img.height;
    level := 0;
    while w * h > maxPixels && level < 30
      invariant level <= 30
      invariant w == Ceiling(img.width, Pow2(level)) && h == Ceiling(img.height, Pow2(level))
      invariant forall l: nat | l < level :: PixelsAt(img, l) > maxPixels
      decreases 30 - level
    {
      Halves(img.width, level);
      Halves(img.height, level);
      w := (w + 1) / 2;
      h := (h + 1) / 2;
      level := level + 1;
    }
  }

  /** What the preview level counts is the size of the image shrunk by it. */
  lemma PixelsAreShrunkSize(img: Image, level: nat)
    requires Filled(img) && level <= 30
    ensures PixelsAt(img, level) == Shrunk(img, level).width * Shrunk(img, level).height
  {
    ShrunkShape(img, level);
  }
}
