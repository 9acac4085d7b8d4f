/** Clipping a placement to its pane: `clipped_placement` and `scale_pixels`. Both axes
    run the same arithmetic, so it is written once per axis. */
module KittyClip {
  import opened Wrappers
  import opened KittyTypes

  function SatMul(a: U32, b: U32): U32 {
    Min(a * b, U32_MAX)
  }

  function SatSub(a: int, b: int): nat {
    Max(a - b, 0)
  }

  /** `saturating_neg`: the least i32 has no negation. */
  function ClippedCells(viewport: I32): U32 {
    if viewport >= 0 then 0 else Min(0 - viewport as int, 0x7FFF_FFFF)
  }

  /** `scale_pixels`. The product of two u32 values fits the u64 it is formed in. */
  function ScalePixels(value: U32, source: U32, dest: U32): U32 {
    QuotientNonNegative(value, source, Max(dest, 1));
    Min(value * source / Max(dest, 1), U32_MAX)
  }

  lemma QuotientNonNegative(a: nat, b: nat, d: int)
    requires d > 0
    ensures a * b / d >= 0
  {
    assert a * b >= 0;
    assert forall x: int :: x >= 0 ==> x / d >= 0;
  }

  /** Cells of the grid that lie left of (above) the pane, the first pane cell used and
      the number of pane cells covered. */
  datatype Window = Window(clipped: U32, start: U32, visible: U32)

  function VisibleCells(viewport: I32, grid: U32, areaLen: U16): Option<Window> {
    var clipped := ClippedCells(viewport);
    var start := Max(viewport, 0);
    if start >= areaLen then None
    else
      var visible := Min(SatSub(grid, clipped), areaLen - start);
      if visible == 0 then None else Some(Window(clipped, start, visible))
  }

  /** The part of the image, in pixels, that the visible cells show. */
  datatype Crop = Crop(start: U32, len: U32)

  /** A requested length of 0 means the whole image. */
  function RequestedLen(requested: U32, imageLen: U32): U32 {
    if requested == 0 then imageLen else requested
  }

  /** The u32 addition wraps, as it does in a release build. */
  function CropSource(w: Window, grid: U32, cellPx: U32, pixelLen: U32,
                      sourceStart: U32, requested: U32, imageLen: U32): Crop
  {
    var sourceLen := RequestedLen(requested, imageLen);
    var pixels := Max(Max(pixelLen, SatMul(grid, cellPx)), 1);
    var start := (sourceStart + ScalePixels(SatMul(w.clipped, cellPx), sourceLen, pixels)) % (U32_MAX + 1);
    var len := Max(ScalePixels(SatMul(w.visible, cellPx), sourceLen, pixels), 1);
    Crop(start, Min(len, SatSub(imageLen, start)))
  }

  /** `clipped_placement`. */
  function Clip(p: HostPlacement): Option<Clipped> {
    var a, r, img := p.area, p.placement.render, p.placement;
    if a.width == 0 || a.height == 0 || r.gridCols == 0 || r.gridRows == 0 then None
    else
      var h := VisibleCells(r.viewportCol, r.gridCols, a.width);
      var v := VisibleCells(r.viewportRow, r.gridRows, a.height);
      if h.None? || v.None? then None
      else
        var sx := CropSource(h.value, r.gridCols, p.cell.widthPx, r.pixelWidth,
                             r.sourceX, r.sourceWidth, img.imageWidth);
        var sy := CropSource(v.value, r.gridRows, p.cell.heightPx, r.pixelHeight,
                             r.sourceY, r.sourceHeight, img.imageHeight);
        if sx.len == 0 || sy.len == 0 then None
        else
          Some(Clipped((a.x + h.value.start) % 0x1_0000, (a.y + v.value.start) % 0x1_0000,
                       h.value.visible, v.value.visible,
                       sx.start, sy.start, sx.len, sy.len,
                       if h.value.clipped == 0 then img.xOffset else 0,
                       if v.value.clipped == 0 then img.yOffset else 0))
  }

  // --- What clipping promises, per axis ---

  /** Cell `c` of the pane is covered by the grid placed at `viewport`. */
  predicate Covered(viewport: int, grid: int, areaLen: int, c: int) {
    0 <= c < areaLen && viewport <= c < viewport + grid
  }

  /** The window is exactly the covered cells, and it exists exactly when there are any. */
  lemma VisibleCellsExact(viewport: I32, grid: U32, areaLen: U16)
    requires viewport > I32_MIN
    ensures VisibleCells(viewport, grid, areaLen).Some? <==> exists c :: Covered(viewport, grid, areaLen, c)
    ensures var w := VisibleCells(viewport, grid, areaLen);
            w.Some? ==> && w.value.visible >= 1
                        && (forall c :: Covered(viewport, grid, areaLen, c)
                                        <==> w.value.start <= c < w.value.start + w.value.visible)
                        && w.value.start - w.value.clipped == viewport
                        && w.value.clipped + w.value.visible <= grid
  {
    var w := VisibleCells(viewport, grid, areaLen);
    if w.Some? {
      assert Covered(viewport, grid, areaLen, w.value.start);
    }
  }

  lemma MulMono(a: int, b: int, c: int)
    requires a <= b && 0 <= c
    ensures a * c <= b * c
  {
  }

  /** Floor division is the greatest integer below the quotient. */
  lemma FloorBound(x: int, d: int, q: int)
    requires d > 0 && q * d <= x
    ensures q <= x / d
  {
    var r := x / d;
    assert r * d + x % d == x;
    assert (r + 1) * d == r * d + d;
    if q > r {
      MulMono(r + 1, q, d);
    }
  }

  lemma FloorBelow(x: int, d: int, q: int)
    requires d > 0 && x < q * d
    ensures x / d < q
  {
    var r := x / d;
    assert r * d + x % d == x;
    if r >= q {
      MulMono(q, r, d);
    }
  }

  /** Two parts of `d` scaled down to `s` and rounded never exceed `s` together. */
  lemma ScaledParts(a: nat, b: nat, s: nat, d: nat)
    requires d > 0 && a + b <= d
    ensures a * s / d + b * s / d <= s
  {
    FloorTimes(a * s, d);
    FloorTimes(b * s, d);
    var p, q := a * s / d, b * s / d;
    Distribute(p, q, d);
    Distribute(a, b, s);
    MulMono(a + b, d, s);
    if p + q > s {
      MulMono(s + 1, p + q, d);
      Distribute(s, 1, d);
    }
  }

  lemma FloorTimes(x: int, d: int)
    requires d > 0
    ensures x / d * d <= x
  {
  }

  lemma Distribute(a: int, b: int, c: int)
    ensures (a + b) * c == a * c + b * c
  {
  }

  /** The scaled offset and the scaled extent, at least one pixel, fit the source. */
  lemma ScaledCropFits(before: U32, shown: U32, s: U32, pixels: U32)
    requires before + shown <= pixels && shown >= 1 && s >= 1
    ensures ScalePixels(before, s, pixels) + Max(ScalePixels(shown, s, pixels), 1) <= s
  {
    ScaledParts(before, shown, s, pixels);
    MulMono(before + 1, pixels, s);
    assert (before + 1) * s == before * s + s;
    assert pixels * s == s * pixels;
    FloorBelow(before * s, pixels, s);
  }

  /** Despite rounding down, the crop is at least one pixel and stays inside the
      requested source rectangle. */
  lemma CropInside(w: Window, grid: U32, cellPx: U32, pixelLen: U32,
                   sourceStart: U32, requested: U32, imageLen: U32)
    requires w.visible >= 1 && w.clipped + w.visible <= grid
    requires cellPx > 0 && grid * cellPx <= U32_MAX
    requires RequestedLen(requested, imageLen) >= 1
    requires sourceStart + RequestedLen(requested, imageLen) <= imageLen
    ensures var c := CropSource(w, grid, cellPx, pixelLen, sourceStart, requested, imageLen);
            && c.len >= 1
            && sourceStart <= c.start
            && c.start + c.len <= sourceStart + RequestedLen(requested, imageLen)
  {
    WindowPixels(w, grid, cellPx);
    var pixels := Max(Max(pixelLen, SatMul(grid, cellPx)), 1);
    hide ScalePixels, SatMul;
    ScaledCropFits(SatMul(w.clipped, cellPx), SatMul(w.visible, cellPx), RequestedLen(requested, imageLen), pixels);
  }

  lemma WindowPixels(w: Window, grid: U32, cellPx: U32)
    requires w.visible >= 1 && w.clipped + w.visible <= grid
    requires cellPx > 0 && grid * cellPx <= U32_MAX
    ensures SatMul(w.clipped, cellPx) + SatMul(w.visible, cellPx) <= SatMul(grid, cellPx)
    ensures SatMul(w.visible, cellPx) >= 1
  {
    MulMono(w.clipped + w.visible, grid, cellPx);
    assert (w.clipped + w.visible) * cellPx == w.clipped * cellPx + w.visible * cellPx;
    MulMono(1, w.visible, cellPx);
    MulMono(0, w.clipped, cellPx);
  }

  /** A placement that is not cut and not shrunk shows its whole source rectangle. */
  lemma UncutShowsEverything(w: Window, grid: U32, cellPx: U32, pixelLen: U32,
                             sourceStart: U32, requested: U32, imageLen: U32)
    requires w.clipped == 0 && w.visible == grid && grid >= 1
    requires cellPx > 0 && grid * cellPx <= U32_MAX && pixelLen <= grid * cellPx
    requires RequestedLen(requested, imageLen) >= 1
    requires sourceStart + RequestedLen(requested, imageLen) <= imageLen
    ensures CropSource(w, grid, cellPx, pixelLen, sourceStart, requested, imageLen)
            == Crop(sourceStart, RequestedLen(requested, imageLen))
  {
    var s := RequestedLen(requested, imageLen);
    var pixels := SatMul(grid, cellPx);
    MulMono(1, grid, cellPx);
    assert pixels == grid * cellPx >= 1 && SatMul(0, cellPx) == 0;
    FullScale(s, pixels);
    hide ScalePixels, SatMul;
  }

  /** Scaling by the whole width is the identity, by nothing is nothing. */
  lemma FullScale(s: U32, pixels: U32)
    requires pixels >= 1
    ensures ScalePixels(pixels, s, pixels) == s && ScalePixels(0, s, pixels) == 0
  {
    ExactQuotient(s, pixels);
    ExactQuotient(0, pixels);
    assert 0 * s == pixels * 0;
  }

  lemma ExactQuotient(s: nat, d: int)
    requires d > 0
    ensures d * s / d == s
  {
    FloorBound(d * s, d, s);
    assert (s + 1) * d == d * s + d;
    FloorBelow(d * s, d, s + 1);
  }

  // --- The whole placement ---

  /** Positive cells, products that fit u32, no offset at i32::MIN, a source rectangle
      inside the image, and a pane whose far corner fits u16. */
  predicate WellPosed(p: HostPlacement) {
    var r, img := p.placement.render, p.placement;
    && p.cell.widthPx > 0 && p.cell.heightPx > 0
    && r.gridCols * p.cell.widthPx <= U32_MAX && r.gridRows * p.cell.heightPx <= U32_MAX
    && r.viewportCol > I32_MIN && r.viewportRow > I32_MIN
    && RequestedLen(r.sourceWidth, img.imageWidth) >= 1
    && RequestedLen(r.sourceHeight, img.imageHeight) >= 1
    && r.sourceX + RequestedLen(r.sourceWidth, img.imageWidth) <= img.imageWidth
    && r.sourceY + RequestedLen(r.sourceHeight, img.imageHeight) <= img.imageHeight
    && p.area.x + p.area.width <= 0xFFFF && p.area.y + p.area.height <= 0xFFFF
  }

  /** Screen cell (x, y) belongs to the pane and to the placed grid. */
  predicate ShowsCell(p: HostPlacement, x: int, y: int) {
    var r := p.placement.render;
    && Covered(r.viewportCol, r.gridCols, p.area.width, x - p.area.x)
    && Covered(r.viewportRow, r.gridRows, p.area.height, y - p.area.y)
  }

  function Columns(p: HostPlacement): Option<Window> {
    VisibleCells(p.placement.render.viewportCol, p.placement.render.gridCols, p.area.width)
  }

  function Rows(p: HostPlacement): Option<Window> {
    VisibleCells(p.placement.render.viewportRow, p.placement.render.gridRows, p.area.height)
  }

  /** The shared cells are those of the two windows. */
  lemma SharedCells(p: HostPlacement)
    requires WellPosed(p)
    ensures Columns(p).Some? && Rows(p).Some? <==> exists x, y :: ShowsCell(p, x, y)
    ensures var h, v := Columns(p), Rows(p);
            h.Some? && v.Some? ==>
              forall x, y :: ShowsCell(p, x, y)
                <==> && h.value.start <= x - p.area.x < h.value.start + h.value.visible
                     && v.value.start <= y - p.area.y < v.value.start + v.value.visible
  {
    var a, r := p.area, p.placement.render;
    VisibleCellsExact(r.viewportCol, r.gridCols, a.width);
    VisibleCellsExact(r.viewportRow, r.gridRows, a.height);
    var h, v := Columns(p), Rows(p);
    hide VisibleCells, Covered;
    if h.Some? && v.Some? {
      assert Covered(r.viewportCol, r.gridCols, a.width, h.value.start);
      assert Covered(r.viewportRow, r.gridRows, a.height, v.value.start);
      assert ShowsCell(p, a.x + h.value.start, a.y + v.value.start);
    }
  }

  /** The clip exists exactly when the placed grid meets the pane; it covers exactly the
      cells they share; its crop is non-empty and inside the requested rectangle. */
  lemma ClipExact(p: HostPlacement)
    requires WellPosed(p)
    ensures Clip(p).Some? <==> exists x, y :: ShowsCell(p, x, y)
    ensures Clip(p).Some? ==>
              var c := Clip(p).value;
              && (forall x, y :: ShowsCell(p, x, y)
                                 <==> (c.x <= x < c.x + c.cols && c.y <= y < c.y + c.rows))
              && c.sourceWidth >= 1 && c.sourceHeight >= 1
              && p.placement.render.sourceX <= c.sourceX
              && p.placement.render.sourceY <= c.sourceY
              && c.sourceX + c.sourceWidth
                 <= p.placement.render.sourceX + RequestedLen(p.placement.render.sourceWidth, p.placement.imageWidth)
              && c.sourceY + c.sourceHeight
                 <= p.placement.render.sourceY + RequestedLen(p.placement.render.sourceHeight, p.placement.imageHeight)
  {
    hide VisibleCells, CropSource, RequestedLen, ShowsCell, Covered;
    var a, r, img := p.area, p.placement.render, p.placement;
    SharedCells(p);
    VisibleCellsExact(r.viewportCol, r.gridCols, a.width);
    VisibleCellsExact(r.viewportRow, r.gridRows, a.height);
    var h, v := Columns(p), Rows(p);
    WindowsNeedCells(p);
    if h.Some? && v.Some? {
      CropInside(h.value, r.gridCols, p.cell.widthPx, r.pixelWidth, r.sourceX, r.sourceWidth, img.imageWidth);
      CropInside(v.value, r.gridRows, p.cell.heightPx, r.pixelHeight, r.sourceY, r.sourceHeight, img.imageHeight);
      assert Clip(p).Some?;
    }
  }

  lemma WindowsNeedCells(p: HostPlacement)
    ensures Columns(p).Some? ==>
              Columns(p).value.start + Columns(p).value.visible <= p.area.width && p.placement.render.gridCols > 0
    ensures Rows(p).Some? ==>
              Rows(p).value.start + Rows(p).value.visible <= p.area.height && p.placement.render.gridRows > 0
  {
  }

  /** At i32::MIN the saturated negation is one short, and a grid of 2^31 columns that
      ends at the pane's edge is drawn one cell too wide. */
  lemma MinimumOffsetIsOffByOne()
    ensures VisibleCells(I32_MIN, 0x8000_0000, 1) == Some(Window(0x7FFF_FFFF, 0, 1))
    ensures !exists c :: Covered(I32_MIN, 0x8000_0000, 1, c)
  {
  }

  lemma StrayColumn()
    ensures CropSource(Window(0x7FFF_FFFF, 0, 1), 0x8000_0000, 1, 0, 0, 0, 1) == Crop(0, 1)
  {
    assert SatMul(0x8000_0000, 1) == 0x8000_0000 && SatMul(0x7FFF_FFFF, 1) == 0x7FFF_FFFF && SatMul(1, 1) == 1;
    assert ScalePixels(0x7FFF_FFFF, 1, 0x8000_0000) == 0 && ScalePixels(1, 1, 0x8000_0000) == 0;
    hide ScalePixels, SatMul;
  }

  lemma SingleRow()
    ensures VisibleCells(0, 1, 1) == Some(Window(0, 0, 1))
    ensures CropSource(Window(0, 0, 1), 1, 1, 0, 0, 0, 1) == Crop(0, 1)
  {
    assert SatMul(0, 1) == 0 && SatMul(1, 1) == 1;
    assert ScalePixels(0, 1, 1) == 0 && ScalePixels(1, 1, 1) == 1;
    hide ScalePixels, SatMul;
  }

  function StrayPlacement(): HostPlacement {
    HostPlacement(0, Rect(0, 0, 1, 1), CellSize(1, 1), Terminal(0, 1),
                  ImagePlacement(1, 1, 0, 0, 0, 1, 1, Rgba, 4, 0, [],
                                 Render(0, 0, 0x8000_0000, 1, I32_MIN, 0, 0, 0, 0, 0)), 0)
  }

  /** The same for a whole placement, in a pane of one cell: no cell of the grid lies in the
      pane, yet a cell of the image is displayed. */
  lemma MinimumOffsetShowsStrayCell()
    ensures Clip(StrayPlacement()) == Some(Clipped(0, 0, 1, 1, 0, 0, 1, 1, 0, 0))
    ensures !exists x, y :: ShowsCell(StrayPlacement(), x, y)
  {
    MinimumOffsetIsOffByOne();
    StrayColumn();
    SingleRow();
    hide VisibleCells, CropSource;
  }

  /** The window is there exactly if some cell is covered, and is then the covered cells. */
  ghost predicate WindowExact(viewport: I32, grid: U32, areaLen: U16) {
    var w := VisibleCells(viewport, grid, areaLen);
    && (w.Some? <==> exists c :: Covered(viewport, grid, areaLen, c))
    && (w.Some? ==> forall c :: Covered(viewport, grid, areaLen, c)
                                <==> w.value.start <= c < w.value.start + w.value.visible)
  }

  /** Exactly when the window is right, for every offset: it goes wrong only at i32::MIN,
      where the grid reaches the pane's first cell but not past its last one. */
  lemma WindowExactIff(viewport: I32, grid: U32, areaLen: U16)
    ensures WindowExact(viewport, grid, areaLen)
            <==> viewport > I32_MIN || grid < 0x8000_0000 || grid - 0x8000_0000 >= areaLen
  {
    if viewport > I32_MIN {
      VisibleCellsExact(viewport, grid, areaLen);
    } else if grid > 0x8000_0000 && areaLen > 0 {
      assert Covered(viewport, grid, areaLen, 0);
      var last := grid - 0x8000_0000;
      assert last < areaLen ==> !Covered(viewport, grid, areaLen, last);
    }
  }
}
