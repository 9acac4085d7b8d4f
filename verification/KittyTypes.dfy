/** The values `kitty_graphics.rs` works on, with Rust's integer widths. */
module KittyTypes {
  import opened Wrappers
  import opened Bytes

  const U32_MAX: int := 0xFFFF_FFFF
  const I32_MIN: int := -0x8000_0000

  type U16 = x: int | 0 <= x <= 0xFFFF
  type U32 = x: int | 0 <= x <= U32_MAX
  type I32 = x: int | I32_MIN <= x <= 0x7FFF_FFFF
  type Id = int

  datatype Rect = Rect(x: U16, y: U16, width: U16, height: U16)

  datatype CellSize = CellSize(widthPx: U32, heightPx: U32)

  datatype Format = Rgb | Rgba | Png

  datatype SourceKey = Terminal(pane: int, image: int) | PaneLayer(pane: int)

  datatype ImageSignature = ImageSignature(width: U32, height: U32, formatCode: U32,
                                           dataLen: nat, fingerprint: int)

  datatype Render = Render(pixelWidth: U32, pixelHeight: U32, gridCols: U32, gridRows: U32,
                           viewportCol: I32, viewportRow: I32,
                           sourceX: U32, sourceY: U32, sourceWidth: U32, sourceHeight: U32)

  datatype ImagePlacement = ImagePlacement(imageId: int, placementId: int, z: I32,
                                           xOffset: U32, yOffset: U32,
                                           imageWidth: U32, imageHeight: U32, format: Format,
                                           dataLen: nat, fingerprint: int, data: seq<Byte>,
                                           render: Render)

  datatype HostPlacement = HostPlacement(pane: int, area: Rect, cell: CellSize, source: SourceKey,
                                         placement: ImagePlacement, scrollback: U32)

  /** Where a placement is drawn and which part of its image is shown. */
  datatype Clipped = Clipped(x: U16, y: U16, cols: U32, rows: U32,
                             sourceX: U32, sourceY: U32, sourceWidth: U32, sourceHeight: U32,
                             xOffset: U32, yOffset: U32)

  function FormatCode(f: Format): U32 {
    match f
    case Rgb => 24
    case Rgba => 32
    case Png => 100
  }

  function Min(a: int, b: int): int {
    if a < b then a else b
  }

  function Max(a: int, b: int): int {
    if a > b then a else b
  }
}
