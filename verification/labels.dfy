/** Pixel geometry of a labelled barcode image. The symbol raster comes from
    the GS1-128 renderer and the text extent from the font; both are opaque
    here and enter as plain sizes. The symbol is always pasted at (0, 0). */
module Labels {

  /** Width and height of a raster, in pixels. */
  datatype Size = Size(width: nat, height: nat)

  /** A symbol pasted at the top-left of a white canvas, with `text` drawn with
      its top-left corner at (textX, textY). */
  datatype LabeledImage = LabeledImage(text: string, symbol: Size, canvas: Size, textX: int, textY: int)

  /** Python's `a // 2`, which rounds towards negative infinity. */
  function FloorHalf(a: int): (q: int)
    ensures 2 * q <= a < 2 * q + 2
  {
    a / 2
  }

  /** Extra canvas height below the symbol in the parallel script. */
  const CenteredBand: nat := 15
  /** Gap between the symbol's bottom edge and the text in the parallel script. */
  const CenteredGap: nat := 2

  /** The parallel script's `generate`: canvas as wide as the symbol and 15 px
      taller, text horizontally centred 2 px below the symbol. */
  function ComposeCentered(text: string, symbol: Size, textWidth: nat): (img: LabeledImage)
    ensures img.text == text && img.symbol == symbol
    ensures img.canvas.width == symbol.width
    ensures img.canvas.height - symbol.height == CenteredBand
    ensures symbol.height < img.textY < img.canvas.height
    ensures img.textY - symbol.height == CenteredGap
    // centred: the right margin equals the left one, or exceeds it by one pixel
    ensures 0 <= (img.canvas.width - img.textX - textWidth) - img.textX <= 1
  {
    LabeledImage(text, symbol, Size(symbol.width, symbol.height + CenteredBand),
                 FloorHalf(symbol.width - textWidth), symbol.height + CenteredGap)
  }

  /** The centred text starts left of the canvas exactly when it is wider than
      the symbol; floor division then rounds the offset further left. */
  lemma CenteredTextOverhang(text: string, symbol: Size, textWidth: nat)
    ensures ComposeCentered(text, symbol, textWidth).textX < 0 <==> textWidth > symbol.width
  {
  }

  /** Extra canvas height below the symbol in the sequential script. */
  const BelowBand: nat := 30
  /** Text origin in the sequential script: 10 px from the left, 5 px below the symbol. */
  const BelowTextX: int := 10
  const BelowGap: nat := 5

  /** The sequential script's label: canvas as wide as the symbol and 30 px
      taller, text at a fixed left offset 5 px below the symbol. */
  function ComposeBelow(text: string, symbol: Size): (img: LabeledImage)
    ensures img.text == text && img.symbol == symbol
    ensures img.canvas.width == symbol.width
    ensures img.canvas.height - symbol.height == BelowBand
    ensures img.textX == BelowTextX
    ensures symbol.height < img.textY && img.canvas.height - img.textY == BelowBand - BelowGap
  {
    LabeledImage(text, symbol, Size(symbol.width, symbol.height + BelowBand),
                 BelowTextX, symbol.height + BelowGap)
  }
}
