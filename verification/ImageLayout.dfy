/** Sizes of an image and the places of its samples in the buffer (core/src/data.cpp). */
module ImageLayout {
  import opened Division

  /** Width, height and channels as given; bytes a sample. */
  datatype Shape = Shape(width: int, height: int, channels: int, depth: nat)

  function PixelCount(s: Shape): nat {
    if s.width <= 0 || s.height <= 0 then 0 else Area(s.width, s.height)
  }

  function Area(a: nat, b: nat): nat {
    a * b
  }

  function BytesPerPixel(s: Shape): nat {
    if s.channels > 0 then Area(s.channels, s.depth) else 0
  }

  function RowBytes(s: Shape): nat {
    if s.width > 0 then Area(s.width, BytesPerPixel(s)) else 0
  }

  function ByteSize(s: Shape): nat {
    if s.height > 0 then Area(RowBytes(s), s.height) else 0
  }

  datatype Place = Place(x: nat, y: nat, c: nat)

  predicate Inside(s: Shape, p: Place) {
    p.x < s.width && p.y < s.height && p.c < s.channels
  }

  /** Where the sample of a channel of a pixel starts. */
  function Offset(s: Shape, p: Place): int {
    p.y * RowBytes(s) + (p.x * s.channels + p.c) * s.depth
  }

  /** How many samples come before this one. */
  function Index(s: Shape, p: Place): int {
    (p.y * s.width + p.x) * s.channels + p.c
  }

  /** The bytes of all channels of all pixels; none for an image without width, height or channels. */
  lemma SizeIsPixelsTimesBytes(s: Shape)
    ensures ByteSize(s) == PixelCount(s) * BytesPerPixel(s)
    ensures PixelCount(s) == if s.width > 0 && s.height > 0 then s.width * s.height else 0
    ensures ByteSize(s) == if s.width > 0 && s.height > 0 && s.channels > 0
                           then s.width * s.height * (s.channels * s.depth) else 0
  {
    var w, h, b := s.width, s.height, BytesPerPixel(s);
    if w > 0 && h > 0 { assert w * b * h == w * h * b; }
    if w > 0 && h <= 0 { assert 0 * b == 0; }
    if w <= 0 { assert 0 * h == 0; }
  }

  lemma OffsetIsIndex(s: Shape, p: Place)
    requires s.width > 0 && s.channels > 0
    ensures Offset(s, p) == Index(s, p) * s.depth
  {
    var w, c, d := s.width, s.channels, s.depth;
    assert RowBytes(s) == w * (c * d);
    assert p.y * (w * (c * d)) == (p.y * w) * c * d;
    assert (p.y * w + p.x) * c == (p.y * w) * c + p.x * c;
  }

  lemma IndexBelow(a: nat, q: nat, r: nat, n: nat)
    requires q < a && r < n
    ensures 0 <= q * n + r < a * n
  {
    Scaled(q, a - 1, n);
    Scaled(0, q, n);
    assert (a - 1) * n == a * n - n;
  }

  /** Samples are numbered one to one, and the pixel, row and channel can be read back from the number. */
  lemma IndexIsBijection(s: Shape, p: Place)
    requires Inside(s, p)
    ensures 0 <= Index(s, p) < s.width * s.height * s.channels
    ensures Index(s, p) % s.channels == p.c
    ensures Index(s, p) / s.channels % s.width == p.x && Index(s, p) / s.channels / s.width == p.y
  {
    IndexBelow(s.height, p.y, p.x, s.width);
    IndexBelow(s.height * s.width, p.y * s.width + p.x, p.c, s.channels);
    DivModOf(p.y * s.width + p.x, s.channels, p.c);
    DivModOf(p.y, s.width, p.x);
    assert s.height * s.width == s.width * s.height;
  }

  lemma QuotientBelow(n: nat, a: int, c: int) returns (q: nat, r: nat)
    requires c > 0 && n < a * c
    ensures q < a && r < c && q * c + r == n
  {
    DivisionBounds(n, c);
    q, r := n / c, n % c;
    Larger(q, a, c);
  }

  /** Every sample number below the total belongs to a sample of the image. */
  lemma EveryIndexIsSample(s: Shape, n: nat) returns (p: Place)
    requires s.width > 0 && s.height > 0 && s.channels > 0 && n < s.height * s.width * s.channels
    ensures Inside(s, p) && Index(s, p) == n
  {
    var q, c := QuotientBelow(n, s.height * s.width, s.channels);
    var y, x := QuotientBelow(q, s.height, s.width);
    p := Place(x, y, c);
  }

  lemma Apart(a: int, b: int, d: nat)
    requires a < b
    ensures a * d + d <= b * d
  {
    Scaled(a + 1, b, d);
    assert (a + 1) * d == a * d + d;
  }

  /** Each sample lies inside the buffer, and no two samples of the image share a byte. */
  lemma SamplesTileTheBuffer(s: Shape, p: Place, q: Place)
    requires Inside(s, p) && Inside(s, q)
    ensures 0 <= Offset(s, p) && Offset(s, p) + s.depth <= ByteSize(s)
    ensures p != q ==> Offset(s, p) + s.depth <= Offset(s, q) || Offset(s, q) + s.depth <= Offset(s, p)
  {
    var i, j := Index(s, p), Index(s, q);
    OffsetIsIndex(s, p);
    OffsetIsIndex(s, q);
    IndexIsBijection(s, p);
    IndexIsBijection(s, q);
    SizeIsPixelsTimesBytes(s);
    BufferHolds(s);
    Apart(i, s.width * s.height * s.channels, s.depth);
    Scaled(0, i, s.depth);
    hide Offset, Index, ByteSize;
    if i < j { Apart(i, j, s.depth); }
    if j < i { Apart(j, i, s.depth); }
  }

  lemma BufferHolds(s: Shape)
    requires s.width > 0 && s.height > 0 && s.channels > 0
    ensures ByteSize(s) == s.width * s.height * s.channels * s.depth
  {
    SizeIsPixelsTimesBytes(s);
    assert s.width * s.height * (s.channels * s.depth) == s.width * s.height * s.channels * s.depth;
  }
}
