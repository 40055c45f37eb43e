/** Scanline layout of PNG images. */
module PngLayout {
  import opened Common
  import opened Images

  // The seven interlace passes, the number of decoded bytes, and the check of the filter byte that starts every
  // scanline.  Section numbers refer to RFC 2083.

  const MAX_SCANLINE_BYTES := 32 * 1024 * 1024

  datatype ScanlineLayout = ScanlineLayout(height: int, rowLength: int)

  /** Where a pass starts, and how far apart its columns and rows are (section 2.6). */
  datatype Pass = Pass(startX: nat, startY: nat, stepX: nat, stepY: nat)

  const ADAM7: seq<Pass> := [
    Pass(0, 0, 8, 8), Pass(4, 0, 8, 8), Pass(0, 4, 4, 8), Pass(2, 0, 4, 4),
    Pass(0, 2, 2, 4), Pass(1, 0, 2, 2), Pass(0, 1, 1, 2)
  ]

  /** The number of samples at `start`, `start + step`, ... below `size`. */
  function Samples(size: nat, start: nat, step: nat): nat
    requires step > 0
  {
    if size <= start then 0
    else
      assert (size - start + step - 1) / step >= 0;
      (size - start + step - 1) / step
  }

  lemma SamplesBound(size: nat, start: nat, step: nat)
    requires step in {1, 2, 4, 8}
    ensures var n := Samples(size, start, step);
            size <= start + n * step && (n > 0 ==> start + (n - 1) * step < size)
  {
    if size > start {
      var above := size - start + step - 1;
      assert above == step * (above / step) + above % step;
      assert above / step * step - step == (above / step - 1) * step;
    }
  }

  /** The i-th sample exists exactly if it lies below `size`. */
  lemma SampleExists(size: nat, start: nat, step: nat, i: nat)
    requires step in {1, 2, 4, 8}
    ensures i < Samples(size, start, step) <==> start + i * step < size
  {
    var n := Samples(size, start, step);
    SamplesBound(size, start, step);
    if i < n {
      MulMonotone(i, n - 1, step);
    } else {
      MulMonotone(n, i, step);
    }
  }

  lemma MulMonotone(a: int, b: int, c: nat)
    requires a <= b
    ensures a * c <= b * c
  {
  }

  function PassDimensions(d: Dimensions, p: Pass): Dimensions
    requires p.stepX > 0 && p.stepY > 0
  {
    Dimensions(Samples(d.width, p.startX, p.stepX), Samples(d.height, p.startY, p.stepY))
  }

  function Adam7Passes(d: Dimensions): (passes: seq<Dimensions>)
    ensures |passes| == 7
    ensures forall k :: 0 <= k < 7 ==> passes[k] == PassDimensions(d, ADAM7[k])
  {
    seq(7, k requires 0 <= k < 7 => PassDimensions(d, ADAM7[k]))
  }

  // ----- Covering --------------------------------------------------------------------------------------

  /** Row j, column i of pass k is the pixel (x, y) of the image. */
  predicate Samples2D(d: Dimensions, k: nat, i: nat, j: nat, x: nat, y: nat)
    requires k < 7
  {
    var p := ADAM7[k];
    && i < PassDimensions(d, p).width && j < PassDimensions(d, p).height
    && x == p.startX + i * p.stepX && y == p.startY + j * p.stepY
  }

  /** The pass that a pixel belongs to, by its position in its 8 by 8 block. */
  function PassOf(x: nat, y: nat): (k: nat)
    ensures k < 7
  {
    if y % 2 == 1 then 6
    else if x % 2 == 1 then 5
    else if y % 4 == 2 then 4
    else if x % 4 == 2 then 3
    else if y % 8 == 4 then 2
    else if x % 8 == 4 then 1
    else 0
  }

  /** The place of a pixel in its pass. */
  function PlaceOf(x: nat, y: nat): (int, int) {
    var p := ADAM7[PassOf(x, y)];
    ((x - p.startX) / p.stepX, (y - p.startY) / p.stepY)
  }

  lemma SampledAtItsPlace(d: Dimensions, x: nat, y: nat)
    requires x < d.width && y < d.height
    ensures var (i, j) := PlaceOf(x, y); i >= 0 && j >= 0 && Samples2D(d, PassOf(x, y), i, j, x, y)
  {
    var p := ADAM7[PassOf(x, y)];
    var (i, j) := PlaceOf(x, y);
    OnGrid(x, y);
    SampleExists(d.width, p.startX, p.stepX, i);
    SampleExists(d.height, p.startY, p.stepY, j);
  }

  lemma PassTable()
    ensures ADAM7[0] == Pass(0, 0, 8, 8) && ADAM7[1] == Pass(4, 0, 8, 8) && ADAM7[2] == Pass(0, 4, 4, 8)
    ensures ADAM7[3] == Pass(2, 0, 4, 4) && ADAM7[4] == Pass(0, 2, 2, 4) && ADAM7[5] == Pass(1, 0, 2, 2)
    ensures ADAM7[6] == Pass(0, 1, 1, 2)
  {
  }

  lemma OnGrid(x: nat, y: nat)
    ensures var p := ADAM7[PassOf(x, y)];
            var (i, j) := PlaceOf(x, y);
            && p.stepX in {1, 2, 4, 8} && p.stepY in {1, 2, 4, 8}
            && i >= 0 && j >= 0 && x == p.startX + i * p.stepX && y == p.startY + j * p.stepY
  {
    var p := ADAM7[PassOf(x, y)];
    PassTable();
    ResidueOfPass(x, y);
    GridStep(x, p.startX, p.stepX);
    GridStep(y, p.startY, p.stepY);
  }

  lemma ResidueOfPass(x: nat, y: nat)
    ensures var p := ADAM7[PassOf(x, y)];
            p.stepX in {1, 2, 4, 8} && p.stepY in {1, 2, 4, 8} && x % p.stepX == p.startX && y % p.stepY == p.startY
  {
    PassTable();
    Residues(x);
    Residues(y);
    var k := PassOf(x, y);
    if k == 0 { assert x % 8 == 0 && y % 8 == 0; }
    else if k == 1 { assert x % 8 == 4 && y % 8 == 0; }
    else if k == 2 { assert x % 4 == 0 && y % 8 == 4; }
    else if k == 3 { assert x % 4 == 2 && y % 4 == 0; }
    else if k == 4 { assert x % 2 == 0 && y % 4 == 2; }
    else if k == 5 { assert x % 2 == 1 && y % 2 == 0; }
    else { assert x % 1 == 0 && y % 2 == 1; }
  }

  /** Division by one of the steps that occur, of a number given by quotient and remainder. */
  lemma DivideBy(q: int, c: int, r: int)
    requires c in {1, 2, 4, 8} && 0 <= r < c
    ensures (c * q + r) / c == q && (c * q + r) % c == r
  {
    if c == 1 {
    } else if c == 2 {
      assert (2 * q + r) / 2 == q;
    } else if c == 4 {
      assert (4 * q + r) / 4 == q;
    } else {
      assert (8 * q + r) / 8 == q;
    }
  }

  lemma Residues(x: nat)
    ensures x % 2 == (x % 8) % 2 && x % 4 == (x % 8) % 4
  {
    var q, r := x / 8, x % 8;
    assert x == 8 * q + r == 4 * (2 * q + r / 4) + r % 4 == 2 * (4 * q + r / 2) + r % 2;
    DivideBy(2 * q + r / 4, 4, r % 4);
    DivideBy(4 * q + r / 2, 2, r % 2);
  }

  lemma GridStep(x: nat, start: nat, step: nat)
    requires step in {1, 2, 4, 8} && x % step == start
    ensures x >= start && (x - start) / step >= 0 && x == start + ((x - start) / step) * step
  {
    var q := x / step;
    assert x == step * q + start;
    DivideBy(q, step, 0);
  }

  lemma SampledNowhereElse(d: Dimensions, k: nat, i: nat, j: nat, x: nat, y: nat)
    requires k < 7 && Samples2D(d, k, i, j, x, y)
    ensures x < d.width && y < d.height && k == PassOf(x, y) && (i, j) == PlaceOf(x, y)
  {
    var p := ADAM7[k];
    OnlyPass(k, i, j);
    SampleExists(d.width, p.startX, p.stepX, i);
    SampleExists(d.height, p.startY, p.stepY, j);
  }

  lemma OnlyPass(k: nat, i: nat, j: nat)
    requires k < 7
    ensures var p := ADAM7[k];
            var x, y := p.startX + i * p.stepX, p.startY + j * p.stepY;
            p.stepX in {1, 2, 4, 8} && p.stepY in {1, 2, 4, 8} && k == PassOf(x, y) && (i, j) == PlaceOf(x, y)
  {
    PassTable();
    var p := ADAM7[k];
    var x, y := p.startX + i * p.stepX, p.startY + j * p.stepY;
    DivideBy(i, p.stepX, 0);
    DivideBy(j, p.stepY, 0);
    DivideBy(i, p.stepX, p.startX);
    DivideBy(j, p.stepY, p.startY);
    Residues(x);
    Residues(y);
  }

  /** Every pixel of the image is sampled exactly once: by one pass, at one place of that pass. */
  lemma EveryPixelExactlyOnce(d: Dimensions, x: nat, y: nat)
    ensures x < d.width && y < d.height <==>
            exists k: nat, i: nat, j: nat :: k < 7 && Samples2D(d, k, i, j, x, y)
    ensures forall k: nat, i: nat, j: nat, k': nat, i': nat, j': nat ::
              k < 7 && k' < 7 && Samples2D(d, k, i, j, x, y) && Samples2D(d, k', i', j', x, y) ==>
                k == k' && i == i' && j == j'
  {
    forall k: nat, i: nat, j: nat | k < 7 && Samples2D(d, k, i, j, x, y)
      ensures x < d.width && y < d.height && k == PassOf(x, y) && (i, j) == PlaceOf(x, y)
    {
      SampledNowhereElse(d, k, i, j, x, y);
    }
    if x < d.width && y < d.height {
      SampledAtItsPlace(d, x, y);
    }
  }

  /** Two interleaved series of samples make one series of half the step. */
  lemma Interleave(size: nat, step: nat)
    requires step in {1, 2, 4}
    ensures Samples(size, 0, 2 * step) + Samples(size, step, 2 * step) == Samples(size, 0, step)
  {
    SamplesBound(size, 0, 2 * step);
    SamplesBound(size, step, 2 * step);
    SamplesBound(size, 0, step);
    CountsAddUp(size, step, Samples(size, 0, 2 * step), Samples(size, step, 2 * step), Samples(size, 0, step));
  }

  lemma CountsAddUp(size: nat, step: nat, a: nat, b: nat, c: nat)
    requires step in {1, 2, 4}
    requires size <= 0 + a * (2 * step) && (a > 0 ==> 0 + (a - 1) * (2 * step) < size)
    requires size <= step + b * (2 * step) && (b > 0 ==> step + (b - 1) * (2 * step) < size)
    requires size <= 0 + c * step && (c > 0 ==> 0 + (c - 1) * step < size)
    ensures a + b == c
  {
    if step == 1 {
      assert size <= 2 * a && size <= 1 + 2 * b && size <= c;
    } else if step == 2 {
      assert size <= 4 * a && size <= 2 + 4 * b && size <= 2 * c;
    } else {
      assert size <= 8 * a && size <= 4 + 8 * b && size <= 4 * c;
    }
  }

  function Area(d: Dimensions): int {
    d.width * d.height
  }

  function TotalArea(passes: seq<Dimensions>): int {
    if passes == [] then 0 else Area(passes[0]) + TotalArea(passes[1..])
  }

  /** The seven areas, from the counts of columns and rows that the passes have together. */
  lemma SevenAreas(d: Dimensions)
    ensures var w, h := d.width, d.height;
      TotalArea(Adam7Passes(d)) ==
        Samples(w, 0, 8) * Samples(h, 0, 8) + Samples(w, 4, 8) * Samples(h, 0, 8) + Samples(w, 0, 4) * Samples(h, 4, 8)
        + Samples(w, 2, 4) * Samples(h, 0, 4) + Samples(w, 0, 2) * Samples(h, 2, 4)
            + Samples(w, 1, 2) * Samples(h, 0, 2)
        + Samples(w, 0, 1) * Samples(h, 1, 2)
  {
    hide Samples, TotalArea;
    PassTable();
    SevenTerms(Adam7Passes(d));
  }

  /** The passes hold as many pixels as the image. */
  lemma PassAreasSumUp(d: Dimensions)
    ensures TotalArea(Adam7Passes(d)) == d.width * d.height
  {
    var w, h := d.width, d.height;
    Interleave(w, 4); Interleave(w, 2); Interleave(w, 1);
    Interleave(h, 4); Interleave(h, 2); Interleave(h, 1);
    assert Samples(w, 0, 1) == w && Samples(h, 0, 1) == h;
    hide Samples, TotalArea, Adam7Passes;
    SevenAreas(d);
    SevenProducts(Samples(w, 0, 8), Samples(w, 4, 8), Samples(w, 2, 4), Samples(w, 1, 2),
                  Samples(w, 0, 4), Samples(w, 0, 2), w,
                  Samples(h, 0, 8), Samples(h, 4, 8), Samples(h, 2, 4), Samples(h, 1, 2),
                  Samples(h, 0, 4), Samples(h, 0, 2), h);
  }

  lemma SevenProducts(a: int, b: int, c: int, d: int, w4: int, w2: int, w1: int,
                      e: int, f: int, g: int, h: int, h4: int, h2: int, h1: int)
    requires w4 == a + b && w2 == w4 + c && w1 == w2 + d && h4 == e + f && h2 == h4 + g && h1 == h2 + h
    ensures a * e + b * e + w4 * f + c * h4 + w2 * g + d * h2 + w1 * h == w1 * h1
  {
    RefineStepwise(a, b, c, d, e, f, g, h);
  }

  /** A grid that is refined by columns and rows in turn covers, in the end, the whole rectangle. */
  lemma RefineStepwise(a: int, b: int, c: int, d: int, e: int, f: int, g: int, h: int)
    ensures a * e + b * e + (a + b) * f + c * (e + f) + (a + b + c) * g + d * (e + f + g) + (a + b + c + d) * h
            == (a + b + c + d) * (e + f + g + h)
  {
    Distribute(a, b, e);
    Distribute(e, f, a + b);
    Distribute(a + b, c, e + f);
    Distribute(e + f, g, a + b + c);
    Distribute(a + b + c, d, e + f + g);
    Distribute(e + f + g, h, a + b + c + d);
  }

  lemma SevenTerms(p: seq<Dimensions>)
    requires |p| == 7
    ensures TotalArea(p) == Area(p[0]) + Area(p[1]) + Area(p[2]) + Area(p[3]) + Area(p[4]) + Area(p[5]) + Area(p[6])
  {
    assert TotalArea(p) == Area(p[0]) + TotalArea(p[1..]);
    assert p[1..][1..] == p[2..] && p[2..][1..] == p[3..] && p[3..][1..] == p[4..];
    assert p[4..][1..] == p[5..] && p[5..][1..] == p[6..] && p[6..][1..] == [];
    assert TotalArea(p[1..]) == Area(p[1]) + TotalArea(p[2..]);
    assert TotalArea(p[2..]) == Area(p[2]) + TotalArea(p[3..]);
    assert TotalArea(p[3..]) == Area(p[3]) + TotalArea(p[4..]);
    assert TotalArea(p[4..]) == Area(p[4]) + TotalArea(p[5..]);
    assert TotalArea(p[5..]) == Area(p[5]) + TotalArea(p[6..]);
    assert TotalArea(p[6..]) == Area(p[6]) + TotalArea([]);
  }

  lemma Distribute(a: int, b: int, c: int)
    ensures (a + b) * c == a * c + b * c && c * (a + b) == c * a + c * b
  {
  }

  // ----- Decoded size -------------------------------------------------------------------------------------

  function BitsPerPixel(bitDepth: int, colorType: int): int {
    (if colorType == 0 || colorType == 3 then 1
     else if colorType == 2 then 3
     else if colorType == 4 then 2
     else 4) * bitDepth
  }

  /** A scanline is a filter byte and the bits of its pixels, padded to whole bytes. */
  function RowLength(width: int, bitsPerPixel: int): int {
    1 + (width * bitsPerPixel + 7) / 8
  }

  /**
   The samples of a pixel: gray, true color, palette index, gray with alpha, true color with alpha (section
   4.1.1).
   */
  const CHANNELS: map<int, int> := map[0 := 1, 2 := 3, 3 := 1, 4 := 2, 6 := 4]

  /** A scanline has a filter byte and the fewest bytes that hold its pixels. */
  lemma RowLengthExactly(width: nat, bitDepth: nat, colorType: int, length: int)
    requires colorType in CHANNELS && width >= 1 && bitDepth >= 1
    ensures length == RowLength(width, BitsPerPixel(bitDepth, colorType)) <==>
      8 * (length - 2) < width * (CHANNELS[colorType] * bitDepth) <= 8 * (length - 1)
  {
    assert BitsPerPixel(bitDepth, colorType) == CHANNELS[colorType] * bitDepth;
  }

  function Layouts(passes: seq<Dimensions>, bitsPerPixel: int): (layouts: seq<ScanlineLayout>) {
    if passes == [] then []
    else
      var rest := Layouts(passes[1..], bitsPerPixel);
      var d := passes[0];
      if d.width > 0 && d.height > 0
      then [ScanlineLayout(d.height, RowLength(d.width, bitsPerPixel))] + rest
      else rest
  }

  /** Each pass that has pixels has its rows, in the order of the passes. */
  lemma {:induction false} LayoutsInOrder(a: seq<Dimensions>, d: Dimensions, b: seq<Dimensions>, bitsPerPixel: int)
    ensures Layouts(a + [d] + b, bitsPerPixel) ==
      Layouts(a, bitsPerPixel)
      + (if d.width == 0 || d.height == 0 then [] else [ScanlineLayout(d.height, RowLength(d.width, bitsPerPixel))])
      + Layouts(b, bitsPerPixel)
  {
    hide RowLength;
    if a == [] {
      assert ([] + [d] + b)[0] == d && ([] + [d] + b)[1..] == b;
    } else {
      assert (a + [d] + b)[0] == a[0] && (a + [d] + b)[1..] == a[1..] + [d] + b;
      LayoutsInOrder(a[1..], d, b, bitsPerPixel);
    }
  }

  function DecodedBytes(layouts: seq<ScanlineLayout>): int {
    if layouts == [] then 0 else layouts[0].height * layouts[0].rowLength + DecodedBytes(layouts[1..])
  }

  function Scanlines(layouts: seq<ScanlineLayout>): int {
    if layouts == [] then 0 else layouts[0].height + Scanlines(layouts[1..])
  }

  function Passes(d: Dimensions, interlaceMethod: int): seq<Dimensions>
  {
    if interlaceMethod == 0 then [d] else Adam7Passes(d)
  }

  function PngScanlineLayouts(d: Dimensions, bitDepth: int, colorType: int, interlaceMethod: int)
    : Option<seq<ScanlineLayout>>
  {
    var layouts := Layouts(Passes(d, interlaceMethod), BitsPerPixel(bitDepth, colorType));
    if 0 < DecodedBytes(layouts) <= MAX_SCANLINE_BYTES then Some(layouts) else None
  }

  lemma PassBounds(d: Dimensions, bitsPerPixel: int)
    requires d.width > 0 && d.height > 0 && bitsPerPixel > 0
    ensures var row := RowLength(d.width, bitsPerPixel);
            && row >= 1
            && Area(d) * bitsPerPixel + 8 * d.height <= 8 * (d.height * row)
            && 8 * (d.height * row) < Area(d) * bitsPerPixel + 16 * d.height
  {
    var bits := d.width * bitsPerPixel;
    var row := RowLength(d.width, bitsPerPixel);
    assert bits + 8 <= 8 * row < bits + 16;
    assert Area(d) * bitsPerPixel == d.height * bits;
    MulMonotone(bits + 8, 8 * row, d.height);
    MulMonotone(8 * row, bits + 15, d.height);
    assert (bits + 8) * d.height == d.height * bits + 8 * d.height;
    assert (bits + 15) * d.height == d.height * bits + 15 * d.height;
    assert 8 * row * d.height == 8 * (d.height * row);
  }

  /** However the image is cut into passes: each scanline adds at least one and less than two bytes to its bits. */
  lemma {:induction false} LayoutBounds(passes: seq<Dimensions>, bitsPerPixel: int)
    requires bitsPerPixel > 0
    ensures var layouts := Layouts(passes, bitsPerPixel);
            && (forall l :: l in layouts ==> l.height >= 1 && l.rowLength >= 1)
            && Scanlines(layouts) >= |layouts|
            && TotalArea(passes) * bitsPerPixel + 8 * Scanlines(layouts) <= 8 * DecodedBytes(layouts)
            && (layouts != [] ==>
                  8 * DecodedBytes(layouts) < TotalArea(passes) * bitsPerPixel + 16 * Scanlines(layouts))
            && (layouts == [] ==> TotalArea(passes) == 0)
  {
    if passes != [] {
      var d := passes[0];
      LayoutBounds(passes[1..], bitsPerPixel);
      Distribute(Area(d), TotalArea(passes[1..]), bitsPerPixel);
      if d.width > 0 && d.height > 0 {
        PassBounds(d, bitsPerPixel);
      } else {
        assert Area(d) == 0;
      }
    }
  }

  /** The decoded size D of an image with R scanlines: w*h*bpp + 8R <= 8D < w*h*bpp + 16R. */
  lemma DecodedSizeBounds(d: Dimensions, bitDepth: int, colorType: int, interlaceMethod: int)
    requires d.width >= 1 && d.height >= 1 && bitDepth >= 1
    ensures var bpp := BitsPerPixel(bitDepth, colorType);
            var layouts := Layouts(Passes(d, interlaceMethod), bpp);
            && d.width * d.height * bpp + 8 * Scanlines(layouts) <= 8 * DecodedBytes(layouts)
            && 8 * DecodedBytes(layouts) < d.width * d.height * bpp + 16 * Scanlines(layouts)
  {
    var passes := Passes(d, interlaceMethod);
    LayoutBounds(passes, BitsPerPixel(bitDepth, colorType));
    assert TotalArea(passes) == d.width * d.height by {
      if interlaceMethod == 0 {
        assert TotalArea([d]) == Area(d) + TotalArea([]);
      } else {
        PassAreasSumUp(d);
      }
    }
    MulMonotone(1, d.width, d.height);
  }

  // ----- Filter bytes ---------------------------------------------------------------------------------------

  /** Where each scanline starts in the decoded data. */
  function RowStarts(layouts: seq<ScanlineLayout>, offset: int): seq<int>
    decreases |layouts|, if layouts == [] then 0 else layouts[0].height
  {
    if layouts == [] then []
    else if layouts[0].height <= 0 then RowStarts(layouts[1..], offset)
    else [offset] + RowStarts([layouts[0].(height := layouts[0].height - 1)] + layouts[1..],
                              offset + layouts[0].rowLength)
  }

  /** The rows that are left when `row` rows of the first layout are done. */
  function Remaining(layouts: seq<ScanlineLayout>, row: int): seq<ScanlineLayout>
    requires layouts != []
  {
    [layouts[0].(height := layouts[0].height - row)] + layouts[1..]
  }

  /** The rows of one layout follow each other. */
  lemma {:induction false} RowStartsOfOne(l: ScanlineLayout, offset: int)
    requires l.height >= 0
    ensures RowStarts([l], offset) == seq(l.height, row => offset + row * l.rowLength)
    decreases l.height
  {
    if l.height > 0 {
      var rest := l.(height := l.height - 1);
      RowStartsOfOne(rest, offset + l.rowLength);
      assert [rest] + [l][1..] == [rest];
      forall row | 0 <= row < l.height - 1
        ensures offset + l.rowLength + row * l.rowLength == offset + (row + 1) * l.rowLength
      {
      }
    } else {
      assert RowStarts([l][1..], offset) == [];
    }
  }

  lemma RowStartsUnfold(layouts: seq<ScanlineLayout>, offset: int)
    requires layouts != []
    ensures layouts[0].height > 0 ==>
      && RowStarts(layouts, offset) == [offset] + RowStarts(Remaining(layouts, 1), offset + layouts[0].rowLength)
      && DecodedBytes(layouts) == layouts[0].rowLength + DecodedBytes(Remaining(layouts, 1))
    ensures layouts[0].height == 0 ==>
      RowStarts(layouts, offset) == RowStarts(layouts[1..], offset)
      && DecodedBytes(layouts) == DecodedBytes(layouts[1..])
  {
    var l, rest := layouts[0], Remaining(layouts, 1);
    assert rest[1..] == layouts[1..];
    assert l.height * l.rowLength == (l.height - 1) * l.rowLength + l.rowLength;
  }

  lemma PrependToBoth(start: int, p: seq<int>, q: seq<int>)
    ensures [start] + (p + q) == [start] + p + q
  {
  }

  /** And the layouts do so too. */
  lemma {:induction false} RowStartsConcat(a: seq<ScanlineLayout>, b: seq<ScanlineLayout>, offset: int)
    requires forall l :: l in a ==> l.height >= 0
    ensures RowStarts(a + b, offset) == RowStarts(a, offset) + RowStarts(b, offset + DecodedBytes(a))
    decreases |a|, if a == [] then 0 else a[0].height
  {
    hide RowStarts, DecodedBytes;
    if a == [] {
      NoRows(b, offset);
    } else {
      RowStartsUnfold(a, offset);
      RowStartsUnfold(a + b, offset);
      assert (a + b)[0] == a[0] && (a + b)[1..] == a[1..] + b;
      if a[0].height == 0 {
        RowStartsConcat(a[1..], b, offset);
      } else {
        var rest := Remaining(a, 1);
        assert Remaining(a + b, 1) == rest + b;
        RowStartsConcat(rest, b, offset + a[0].rowLength);
        PrependToBoth(offset, RowStarts(rest, offset + a[0].rowLength), RowStarts(b, offset + DecodedBytes(a)));
      }
    }
  }

  lemma NoRows(b: seq<ScanlineLayout>, offset: int)
    ensures RowStarts([] + b, offset) == RowStarts([], offset) + RowStarts(b, offset + DecodedBytes([]))
  {
    assert [] + b == b;
  }

  predicate AllRows(layouts: seq<ScanlineLayout>) {
    forall l :: l in layouts ==> l.height >= 1 && l.rowLength >= 1
  }

  lemma {:induction false} RowStartsInside(layouts: seq<ScanlineLayout>, offset: int)
    requires forall l :: l in layouts ==> l.height >= 0 && l.rowLength >= 1
    ensures forall o :: o in RowStarts(layouts, offset) ==> offset <= o < offset + DecodedBytes(layouts)
    ensures DecodedBytes(layouts) >= 0
    decreases |layouts|, if layouts == [] then 0 else layouts[0].height
  {
    if layouts != [] {
      if layouts[0].height <= 0 {
        RowStartsInside(layouts[1..], offset);
      } else {
        var rest := Remaining(layouts, 1);
        assert rest[1..] == layouts[1..];
        assert (layouts[0].height - 1) * layouts[0].rowLength + layouts[0].rowLength ==
            layouts[0].height * layouts[0].rowLength;
        RowStartsInside(rest, offset + layouts[0].rowLength);
      }
    }
  }

  /**
   The inflated data are accepted exactly when they have the expected length, used up the whole input,
   and every scanline starts with one of the five filter types (section 6).
   */
  method ValidPngImageData(inflated: seq<byte>, bytesWritten: int, compressedLength: int, layouts: seq<ScanlineLayout>)
    returns (valid: bool)
    requires AllRows(layouts)
    ensures valid <==>
            && |inflated| == DecodedBytes(layouts)
            && bytesWritten == compressedLength
            && RowsFine(inflated, layouts, 0)
  {
    if |inflated| != DecodedBytes(layouts) || bytesWritten != compressedLength {
      return false;
    }
    var offset: nat := 0;
    assert layouts[0..] == layouts;
    for k := 0 to |layouts|
      invariant offset + DecodedBytes(layouts[k..]) == |inflated|
      invariant RowsFine(inflated, layouts, 0) <==> RowsFine(inflated, layouts[k..], offset)
    {
      assert AllRows(layouts[k..]) && layouts[k..][1..] == layouts[k + 1..];
      var fine;
      fine, offset := ValidRows(inflated, layouts[k..], offset);
      if !fine {
        return false;
      }
    }
    valid := offset == |inflated|;
  }

  /** The rows of the first layout. */
  method ValidRows(inflated: seq<byte>, layouts: seq<ScanlineLayout>, start: nat) returns (fine: bool, offset: nat)
    requires layouts != [] && AllRows(layouts) && start + DecodedBytes(layouts) == |inflated|
    ensures if fine then offset + DecodedBytes(layouts[1..]) == |inflated|
                         && (RowsFine(inflated, layouts, start) <==> RowsFine(inflated, layouts[1..], offset))
            else !RowsFine(inflated, layouts, start)
  {
    offset := start;
    assert Remaining(layouts, 0) == layouts;
    for row := 0 to layouts[0].height
      invariant offset + DecodedBytes(Remaining(layouts, row)) == |inflated|
      invariant RowsFine(inflated, layouts, start) <==> RowsFine(inflated, Remaining(layouts, row), offset)
    {
      RowDone(inflated, layouts, row, offset);
      if inflated[offset] > 4 {
        return false, offset;
      }
      offset := offset + layouts[0].rowLength;
    }
    LayoutDone(layouts, offset);
    fine := true;
  }

  /** Every scanline from `offset` on starts with a known filter type. */
  ghost predicate RowsFine(inflated: seq<byte>, layouts: seq<ScanlineLayout>, offset: int) {
    forall o :: o in RowStarts(layouts, offset) ==> 0 <= o < |inflated| && inflated[o] <= 4
  }

  lemma LayoutDone(layouts: seq<ScanlineLayout>, offset: int)
    requires layouts != []
    ensures RowStarts(Remaining(layouts, layouts[0].height), offset) == RowStarts(layouts[1..], offset)
    ensures DecodedBytes(Remaining(layouts, layouts[0].height)) == DecodedBytes(layouts[1..])
  {
    assert Remaining(layouts, layouts[0].height)[1..] == layouts[1..];
  }

  lemma RowDone(inflated: seq<byte>, layouts: seq<ScanlineLayout>, row: nat, offset: nat)
    requires layouts != [] && row < layouts[0].height && AllRows(layouts)
    requires offset + DecodedBytes(Remaining(layouts, row)) == |inflated|
    ensures DecodedBytes(Remaining(layouts, row)) == layouts[0].rowLength + DecodedBytes(Remaining(layouts, row + 1))
    ensures offset < |inflated|
    ensures RowsFine(inflated, Remaining(layouts, row), offset) <==>
            inflated[offset] <= 4 && RowsFine(inflated, Remaining(layouts, row + 1), offset + layouts[0].rowLength)
  {
    var now, next := Remaining(layouts, row), Remaining(layouts, row + 1);
    assert now[1..] == layouts[1..] && next[1..] == layouts[1..];
    assert next == [now[0].(height := now[0].height - 1)] + now[1..];
    assert (layouts[0].height - row) * layouts[0].rowLength
           == (layouts[0].height - row - 1) * layouts[0].rowLength + layouts[0].rowLength;
    RowStartsInside(next, offset);
    var later := RowStarts(next, offset + layouts[0].rowLength);
    assert RowStarts(now, offset) == [offset] + later;
    assert forall o :: o in [offset] + later <==> o == offset || o in later;
    assert offset in [offset] + later;
  }
}
