/** RGB colours as the LED strip receives them: three channel intensities 0..255. */
module Colours {

  /** One byte: an RGB channel intensity, or one byte of an ANT payload. */
  type Byte = b: int | 0 <= b < 256

  datatype Colour = Rgb(red: Byte, green: Byte, blue: Byte)

  // The zone colours, in zone order.
  const Grey: Colour := Rgb(132, 132, 130)
  const Blue: Colour := Rgb(0, 0, 255)
  const Green: Colour := Rgb(0, 204, 34)
  const Yellow: Colour := Rgb(255, 255, 0)
  const Orange: Colour := Rgb(255, 128, 0)
  const Red: Colour := Rgb(255, 0, 0)
  const Purple: Colour := Rgb(251, 3, 201)
  const White: Colour := Rgb(255, 255, 255)
}
