/** Which part of its image a cut placement shows: the part that lies in the cells that are
    left, in proportion, rounded down to whole pixels. */
module KittyCrop {
  import opened Wrappers
  import opened KittyTypes
  import opened KittyClip

  predicate Fits(n: int, x: int, d: int) {
    n * d <= x
  }

  /** `n` is the greatest number with `n * d <= x`. */
  ghost predicate IsWholePart(n: int, x: int, d: int) {
    Fits(n, x, d) && forall m :: Fits(m, x, d) ==> m <= n
  }

  /** `start` is as far into the source as `before` pixels are into the picture; `len` is as
      long in the source as `shown` pixels are in the picture, but not nothing. The picture is
      `picture` pixels long, the source `source`. */
  ghost predicate IsProportional(start: int, len: int, before: int, shown: int, source: int, picture: int) {
    && IsWholePart(start, before * source, picture)
    && (IsWholePart(len, shown * source, picture) || (len == 1 && IsWholePart(0, shown * source, picture)))
  }

  lemma QuotientIsWholePart(x: nat, d: int)
    requires d > 0
    ensures IsWholePart(x / d, x, d)
  {
    FloorTimes(x, d);
    forall m | Fits(m, x, d)
      ensures m <= x / d
    {
      FloorBound(x, d, m);
    }
  }

  lemma OneWholePart(n: int, m: int, x: int, d: int)
    requires IsWholePart(n, x, d) && IsWholePart(m, x, d)
    ensures n == m
  {
  }

  /** Below the 32-bit bound `scale_pixels` is the rounded-down quotient. */
  lemma ScaleIsWholePart(value: U32, source: U32, picture: U32)
    requires picture >= 1 && value <= picture
    ensures IsWholePart(ScalePixels(value, source, picture), value * source, picture)
  {
    assert value * source >= 0;
    QuotientIsWholePart(value * source, picture);
    MulMono(value, picture, source);
    assert (source + 1) * picture == picture * source + picture;
    FloorBelow(value * source, picture, source + 1);
  }

  /** The picture on screen, in pixels along one axis. */
  function PictureLen(grid: U32, cellPx: U32, pixelLen: U32): int {
    Max(pixelLen, grid * cellPx)
  }

  /** One axis: the crop starts and ends where the visible cells start and end. */
  lemma CropIsProportional(w: Window, grid: U32, cellPx: U32, pixelLen: U32,
                           sourceStart: U32, requested: U32, imageLen: U32)
    requires w.visible >= 1 && w.clipped + w.visible <= grid
    requires cellPx > 0 && grid * cellPx <= U32_MAX
    requires RequestedLen(requested, imageLen) >= 1
    requires sourceStart + RequestedLen(requested, imageLen) <= imageLen
    ensures var c := CropSource(w, grid, cellPx, pixelLen, sourceStart, requested, imageLen);
            IsProportional(c.start - sourceStart, c.len, w.clipped * cellPx, w.visible * cellPx,
                           RequestedLen(requested, imageLen), PictureLen(grid, cellPx, pixelLen))
  {
    WindowPixels(w, grid, cellPx);
    CropParts(w, grid, cellPx, pixelLen, sourceStart, requested, imageLen);
    var source, picture := RequestedLen(requested, imageLen), PictureLen(grid, cellPx, pixelLen);
    var before, shown := w.clipped * cellPx, w.visible * cellPx;
    hide CropSource, RequestedLen, IsWholePart, PictureLen, ScalePixels;
    ScaleIsWholePart(before, source, picture);
    ScaleIsWholePart(shown, source, picture);
  }

  /** Neither wrap-around nor the end of the image interferes. */
  lemma CropParts(w: Window, grid: U32, cellPx: U32, pixelLen: U32, sourceStart: U32, requested: U32, imageLen: U32)
    requires w.visible >= 1 && w.clipped + w.visible <= grid
    requires cellPx > 0 && grid * cellPx <= U32_MAX
    requires RequestedLen(requested, imageLen) >= 1
    requires sourceStart + RequestedLen(requested, imageLen) <= imageLen
    ensures var c := CropSource(w, grid, cellPx, pixelLen, sourceStart, requested, imageLen);
            var source, picture := RequestedLen(requested, imageLen), PictureLen(grid, cellPx, pixelLen);
            && 1 <= picture <= U32_MAX && 0 <= w.clipped * cellPx <= picture && 0 <= w.visible * cellPx <= picture
            && c.start - sourceStart == ScalePixels(w.clipped * cellPx, source, picture)
            && c.len == Max(ScalePixels(w.visible * cellPx, source, picture), 1)
  {
    var source, picture := RequestedLen(requested, imageLen), PictureLen(grid, cellPx, pixelLen);
    WindowPixels(w, grid, cellPx);
    MulMono(w.clipped, grid, cellPx);
    MulMono(w.visible, grid, cellPx);
    MulMono(0, w.clipped, cellPx);
    assert SatMul(w.clipped, cellPx) == w.clipped * cellPx && SatMul(w.visible, cellPx) == w.visible * cellPx;
    assert SatMul(grid, cellPx) == grid * cellPx;
    hide ScalePixels, SatMul;
    ScaledCropFits(w.clipped * cellPx, w.visible * cellPx, source, picture);
  }

  // --- The whole placement ---

  /** The source rectangle that was asked for; nothing asked for is the whole image. */
  function Source(requested: U32, imageLen: U32): U32 {
    if requested == 0 then imageLen else requested
  }

  /** Grid cells to the left of (above) the pane. */
  function CutOff(viewport: int): nat {
    if viewport < 0 then 0 - viewport else 0
  }

  /** The displayed crop is the part of the source that the displayed cells cover, on both
      axes; the offset within the first cell only counts where that cell is shown. */
  lemma ClipCropsExactly(p: HostPlacement)
    requires WellPosed(p) && Clip(p).Some?
    ensures var c, r, img := Clip(p).value, p.placement.render, p.placement;
            && IsProportional(c.sourceX - r.sourceX, c.sourceWidth, CutOff(r.viewportCol) * p.cell.widthPx,
                              c.cols * p.cell.widthPx, Source(r.sourceWidth, img.imageWidth),
                              PictureLen(r.gridCols, p.cell.widthPx, r.pixelWidth))
            && IsProportional(c.sourceY - r.sourceY, c.sourceHeight, CutOff(r.viewportRow) * p.cell.heightPx,
                              c.rows * p.cell.heightPx, Source(r.sourceHeight, img.imageHeight),
                              PictureLen(r.gridRows, p.cell.heightPx, r.pixelHeight))
            && c.xOffset == (if r.viewportCol >= 0 then img.xOffset else 0)
            && c.yOffset == (if r.viewportRow >= 0 then img.yOffset else 0)
  {
    var r, img := p.placement.render, p.placement;
    hide CropSource, IsProportional, PictureLen;
    VisibleCellsExact(r.viewportCol, r.gridCols, p.area.width);
    VisibleCellsExact(r.viewportRow, r.gridRows, p.area.height);
    hide VisibleCells;
    var h, v := Columns(p).value, Rows(p).value;
    assert h.clipped == CutOff(r.viewportCol) && v.clipped == CutOff(r.viewportRow) by {
      WindowClips(r.viewportCol, r.gridCols, p.area.width);
      WindowClips(r.viewportRow, r.gridRows, p.area.height);
    }
    CropIsProportional(h, r.gridCols, p.cell.widthPx, r.pixelWidth, r.sourceX, r.sourceWidth, img.imageWidth);
    CropIsProportional(v, r.gridRows, p.cell.heightPx, r.pixelHeight, r.sourceY, r.sourceHeight, img.imageHeight);
  }

  lemma WindowClips(viewport: I32, grid: U32, areaLen: U16)
    requires viewport > I32_MIN && VisibleCells(viewport, grid, areaLen).Some?
    ensures VisibleCells(viewport, grid, areaLen).value.clipped == CutOff(viewport)
  {
  }

  /** Cut in the middle, an axis shows the far half of an even source. */
  lemma HalfCutShowsFarHalf(half: U32, cellPx: U32, sourceStart: U32, farHalf: U32, imageLen: U32)
    requires half >= 1 && cellPx >= 1 && farHalf >= 1 && 2 * half * cellPx <= U32_MAX
    requires 2 * half <= U32_MAX && 2 * farHalf <= U32_MAX && sourceStart + 2 * farHalf <= imageLen
    ensures CropSource(Window(half, 0, half), 2 * half, cellPx, 0, sourceStart, 2 * farHalf, imageLen)
            == Crop(sourceStart + farHalf, farHalf)
  {
    var c := CropSource(Window(half, 0, half), 2 * half, cellPx, 0, sourceStart, 2 * farHalf, imageLen);
    hide CropSource, IsWholePart, IsProportional, PictureLen;
    CropIsProportional(Window(half, 0, half), 2 * half, cellPx, 0, sourceStart, 2 * farHalf, imageLen);
    HalfPicture(half, cellPx);
    var part := half * cellPx;
    HalfIsWholePart(part, farHalf);
    SamePart(c.start - sourceStart, c.len, part, 2 * farHalf, 2 * part, farHalf);
  }

  lemma HalfPicture(half: U32, cellPx: U32)
    requires half >= 1 && cellPx >= 1 && 2 * half <= U32_MAX
    ensures PictureLen(2 * half, cellPx, 0) == 2 * (half * cellPx) && half * cellPx >= 1
  {
    MulMono(1, half, cellPx);
  }

  /** Both halves of the crop are what the whole part says, if that is something. */
  lemma SamePart(start: int, len: int, part: int, source: int, picture: int, n: int)
    requires IsProportional(start, len, part, part, source, picture)
    requires IsWholePart(n, part * source, picture) && n >= 1
    ensures start == n && len == n
  {
    hide IsWholePart;
    OneWholePart(start, n, part * source, picture);
    if IsWholePart(0, part * source, picture) {
      OneWholePart(0, n, part * source, picture);
      assert false;
    }
    OneWholePart(len, n, part * source, picture);
  }

  lemma HalfIsWholePart(a: nat, b: nat)
    requires a >= 1
    ensures IsWholePart(b, a * (2 * b), 2 * a)
  {
    var x, d := a * (2 * b), 2 * a;
    assert b * d == x;
    assert (b + 1) * d == b * d + d;
    forall m | Fits(m, x, d)
      ensures m <= b
    {
      if m > b {
        MulMono(b + 1, m, d);
        assert false;
      }
    }
  }

  /** Five of ten columns are left of the pane: of 100 pixels the last 50 are shown. */
  lemma CutExample()
    ensures VisibleCells(-5, 10, 20) == Some(Window(5, 0, 5))
    ensures CropSource(Window(5, 0, 5), 10, 10, 100, 0, 0, 100) == Crop(50, 50)
  {
    CropIsProportional(Window(5, 0, 5), 10, 10, 100, 0, 0, 100);
    HalfIsWholePart(50, 50);
    hide CropSource, IsWholePart, IsProportional;
    var c := CropSource(Window(5, 0, 5), 10, 10, 100, 0, 0, 100);
    SamePart(c.start, c.len, 50, 100, 100, 50);
  }
}
