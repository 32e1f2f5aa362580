/** Colours as the palette code represents them (src/palette/color.rs). */
module Colors {

  /** `HSLa((hue, saturation, lightness, alpha))` or a hex string such as "#f00". */
  datatype Color = HSLa(hue: int, saturation: real, lightness: real, alpha: real) | Hex(code: string)
}
