/**
 * Style tables and the errors the shape engine can raise. Colours are kept
 * opaque: the engine only passes them through to the drawing sink.
 */
module Styles {

  /** An RGBA colour as handed to the drawing sink. */
  datatype Color = Rgba(red: nat, green: nat, blue: nat, alpha: nat)

  /** The sink's opaque black, used for style index 0. */
  const Black: Color := Rgba(0, 0, 0, 255)

  /** A fill style entry: flat colour, or one of the gradient and bitmap kinds the engine rejects. */
  datatype FillStyleRGB = SolidFill(color: Color) | UnsupportedFill

  /** A line style entry: stroke width in twips and colour. */
  datatype LineStyleRGB = LineStyleRGB(width: nat, color: Color)

  /** Exceptions thrown by the engine, one case per throwing site. */
  datatype ShapeError =
    | InvalidRecordType(typeCode: int)
    | FillStyleOutOfRange(fillStyleIdx: nat)
    | LineStyleOutOfRange(lineStyleIdx: nat)
    | UnsupportedFillStyle(fillStyleIdx: nat)
}
