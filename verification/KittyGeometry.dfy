/**
 Clipping a kitty image placement to its pane: which grid cells stay visible and which part
 of the source image they show. Both axes follow the same arithmetic, modelled once.
 */
module KittyGeometry {
  import opened Options
  import opened Arithmetic

  const U32_MAX: nat := 0xffff_ffff
  const U64_MAX: nat := 0xffff_ffff_ffff_ffff
  const I32_MAX: nat := 0x7fff_ffff

  type u16 = x: int | 0 <= x < 0x1_0000
  type u32 = x: int | 0 <= x < 0x1_0000_0000
  type i32 = x: int | -0x8000_0000 <= x < 0x8000_0000

  function SaturatingMul(a: u32, b: u32): (r: u32)
  {
    assert 0 <= a * b;
    Min(a * b, U32_MAX)
  }

  function SaturatingSub(a: u32, b: int): (r: u32)
    requires 0 <= b
  {
    if a < b then 0 else a - b
  }

  /** `value * source / dest` in 64 bits, cut back to 32. */
  function ScalePixels(value: u32, source: u32, dest: u32): u32 {
    ScaleInRange(value, source, dest);
    Min(Min(value * source, U64_MAX) / Max(dest, 1), U32_MAX)
  }

  lemma ScaleInRange(value: u32, source: u32, dest: u32)
    ensures 0 <= Min(value * source, U64_MAX) / Max(dest, 1)
  {
    assert 0 <= value * source;
  }

  /** One axis of a placement: pane length, image grid and its position, cell size, source rectangle, image size. */
  datatype Axis = Axis(
    paneCells: u16,
    gridCells: u32,
    viewport: i32,
    cellPx: u32,
    pixelLen: u32,
    sourceStart: u32,
    sourceLen: u32,
    imageLen: u32)
  {
    /** Cells of the grid before the pane's edge. */
    function ClippedCells(): u32 {
      if viewport < 0 then Min(0 - (viewport as int), I32_MAX) else 0
    }

    function Offset(): u32 {
      Max(viewport, 0)
    }

    function VisibleCells(): u32
      requires Offset() < paneCells
    {
      Min(SaturatingSub(gridCells, ClippedCells()), paneCells - Offset())
    }

    /** The requested source length; zero asks for the whole image. */
    function RequestedLen(): u32 {
      if sourceLen == 0 then imageLen else sourceLen
    }

    /** Pixels the whole grid covers. */
    function GridPixels(): (r: u32)
      ensures 1 <= r
    {
      Max(Max(pixelLen, SaturatingMul(gridCells, cellPx)), 1)
    }
  }

  datatype AxisClip = AxisClip(offset: nat, cells: nat, sourceStart: nat, sourceLen: nat)

  function ClipAxis(a: Axis): Option<AxisClip> {
    if a.paneCells == 0 || a.gridCells == 0 || a.Offset() >= a.paneCells || a.VisibleCells() == 0 then None
    else
      var start := a.sourceStart + ScalePixels(SaturatingMul(a.ClippedCells(), a.cellPx), a.RequestedLen(), a.GridPixels());
      var scaled := ScalePixels(SaturatingMul(a.VisibleCells(), a.cellPx), a.RequestedLen(), a.GridPixels());
      var len := Min(Max(scaled, 1), if a.imageLen < start then 0 else a.imageLen - start);
      if len == 0 then None else Some(AxisClip(a.Offset(), a.VisibleCells(), start, len))
  }

  /** Cell sizes are known and no 32-bit product or sum saturates. */
  predicate FitsU32(a: Axis) {
    && 1 <= a.cellPx
    && a.gridCells * a.cellPx <= U32_MAX
    && a.sourceStart + a.RequestedLen() <= U32_MAX
    && -0x7fff_ffff <= a.viewport
  }

  lemma FloorSplit(x: nat, y: nat, p: nat, s: nat)
    requires p > 0 && x + y <= s * p
    ensures x / p + y / p <= s
  {
    var (i, j) := (x / p, y / p);
    DivBounds(x, p);
    DivBounds(y, p);
    Distribute(i, j, p);
    Distribute(s, 1, p);
    if i + j > s {
      MulMonotone(s + 1, i + j, p);
    }
  }

  lemma Distribute(a: nat, b: nat, p: nat)
    ensures (a + b) * p == a * p + b * p
  {
  }

  lemma DivBounds(x: nat, p: nat)
    requires p > 0
    ensures 0 <= x / p && x / p * p <= x < (x / p + 1) * p
  {
  }

  lemma MulMonotone(a: nat, b: nat, p: nat)
    requires a <= b
    ensures a * p <= b * p
  {
  }

  lemma FloorBelow(x: nat, p: nat, s: nat)
    requires p > 0 && x < s * p
    ensures x / p < s
  {
    DivBounds(x, p);
    if x / p >= s {
      MulMonotone(s, x / p, p);
    }
  }

  /** Without overflow, scaling is the plain quotient for a length that fits the destination. */
  lemma ScaleExact(value: u32, source: u32, dest: u32)
    requires value <= dest && 1 <= dest
    ensures ScalePixels(value, source, dest) == value * source / dest <= source
  {
    MulMonotone(value, dest, source);
    MulBound(value, source);
    assert value * source <= source * dest;
    FloorSplit(value * source, 0, dest, source);
  }

  lemma MulBound(a: u32, b: u32)
    ensures 0 <= a * b <= U64_MAX
  {
    MulMonotone(a, U32_MAX, b);
    MulMonotone(b, U32_MAX, U32_MAX);
  }

  /**
   A clip that succeeds shows a non-empty run of cells inside the pane, namely exactly the grid
   cells that fall in it, cropped to a non-empty part of both the requested source rectangle and
   the image, even where the minimum of one pixel is forced.
   */
  lemma CropStaysInside(a: Axis)
    requires FitsU32(a)
    requires ClipAxis(a).Some?
    ensures var c := ClipAxis(a).value;
            && 1 <= c.cells
            && c.offset == Max(a.viewport, 0)
            && c.offset + c.cells == Min(a.viewport + a.gridCells, a.paneCells)
            && 1 <= c.sourceLen
            && a.sourceStart <= c.sourceStart
            && c.sourceStart + c.sourceLen <= a.sourceStart + a.RequestedLen()
            && c.sourceStart + c.sourceLen <= a.imageLen
  {
    var (clipped, visible, cell) := (a.ClippedCells(), a.VisibleCells(), a.cellPx);
    var (len, pixels) := (a.RequestedLen(), a.GridPixels());
    assert clipped + visible <= a.gridCells;
    MulMonotone(clipped, a.gridCells, cell);
    MulMonotone(visible, a.gridCells, cell);
    MulMonotone(clipped + visible, a.gridCells, cell);
    assert a.gridCells * cell <= pixels;
    assert len == 0 ==> a.imageLen == 0;
    CropArithmetic(clipped, visible, cell, len, pixels);
  }

  /** Two scaled lengths that together fit leave room for the minimum of one pixel. */
  lemma ScaledParts(x: nat, y: nat, len: nat, pixels: nat)
    requires 1 <= y && 1 <= len && x + y <= pixels
    ensures x * len / pixels + Max(y * len / pixels, 1) <= len
  {
    MulMonotone(x + y, pixels, len);
    assert (x + y) * len == x * len + y * len;
    FloorSplit(x * len, y * len, pixels, len);
    MulMonotone(1, y, len);
    assert x * len < len * pixels;
    FloorBelow(x * len, pixels, len);
  }

  lemma CropArithmetic(clipped: nat, visible: nat, cell: nat, len: u32, pixels: u32)
    requires 1 <= visible && 1 <= cell && 1 <= len && 1 <= pixels
    requires (clipped + visible) * cell <= pixels
    requires 0 <= clipped * cell <= U32_MAX && 0 <= visible * cell <= U32_MAX
    ensures ScalePixels(clipped * cell, len, pixels) + Max(ScalePixels(visible * cell, len, pixels), 1) <= len
  {
    hide ScalePixels;
    var (x, y) := (clipped * cell, visible * cell);
    assert x + y == (clipped + visible) * cell;
    MulMonotone(1, visible, cell);
    ScaleExact(x, len, pixels);
    ScaleExact(y, len, pixels);
    ScaledParts(x, y, len, pixels);
  }

  /** A placement that is wholly visible at its natural size is not cropped at all. */
  lemma UnclippedShowsEverything(a: Axis)
    requires FitsU32(a) && 1 <= a.gridCells
    requires 0 <= a.viewport && a.viewport + a.gridCells <= a.paneCells
    requires a.pixelLen <= a.gridCells * a.cellPx
    requires 1 <= a.RequestedLen() && a.sourceStart + a.RequestedLen() <= a.imageLen
    ensures ClipAxis(a) == Some(AxisClip(a.viewport, a.gridCells, a.sourceStart, a.RequestedLen()))
  {
    hide ScalePixels, SaturatingMul;
    MulMonotone(1, a.gridCells, a.cellPx);
    SaturatingExact(0, a.cellPx);
    SaturatingExact(a.gridCells, a.cellPx);
    assert a.ClippedCells() == 0 && a.VisibleCells() == a.gridCells;
    assert a.GridPixels() == SaturatingMul(a.gridCells, a.cellPx);
    ScaleEnds(a.RequestedLen(), a.GridPixels());
  }

  lemma SaturatingExact(a: u32, b: u32)
    requires a * b <= U32_MAX
    ensures SaturatingMul(a, b) == a * b
    ensures a == 0 ==> SaturatingMul(a, b) == 0
  {
  }

  /** Scaling nothing gives nothing, scaling everything everything. */
  lemma ScaleEnds(len: u32, pixels: u32)
    requires 1 <= pixels
    ensures ScalePixels(0, len, pixels) == 0 && ScalePixels(pixels, len, pixels) == len
  {
    hide ScalePixels;
    ScaleExact(0, len, pixels);
    ScaleExact(pixels, len, pixels);
    QuotientOfMultiple(pixels, len);
  }

  lemma QuotientOfMultiple(p: nat, s: nat)
    requires p > 0
    ensures p * s / p == s
  {
    FloorSplit(p * s, 0, p, s);
    var q := p * s / p;
    assert p * s < (q + 1) * p;
    if q < s { MulMonotone(q + 1, s, p); }
  }
}
