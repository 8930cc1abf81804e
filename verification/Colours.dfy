/** Colours, pixels and palettes. */
module Colours {
  import opened Bits

  datatype Rgb = Rgb(r: Byte, g: Byte, b: Byte)

  /** A pixel of a frame buffer. In encoded frames the alpha byte holds the palette index. */
  datatype Pixel = Pixel(rgb: Rgb, a: Byte)

  /** 0, 1, 2 for red, green, blue. */
  type Axis = x: int | 0 <= x < 3

  function Channel(c: Rgb, axis: Axis): Byte
  {
    if axis == 0 then c.r else if axis == 1 then c.g else c.b
  }

  const TRANSPARENT: Byte := 0
  const BLACK := Rgb(0, 0, 0)

  function Colour(pixels: seq<Pixel>): (s: seq<Rgb>)
    ensures |s| == |pixels|
    ensures forall i :: 0 <= i < |s| ==> s[i] == pixels[i].rgb
  {
    seq(|pixels|, i requires 0 <= i < |pixels| => pixels[i].rgb)
  }

  /** The colours of a frame that may not exist; none if it does not. */
  function LastColours(frame: array?<Pixel>): seq<Rgb>
    reads frame
  {
    if frame == null then [] else Colour(frame[..])
  }

  function Indices(pixels: seq<Pixel>): (s: seq<Byte>)
    ensures |s| == |pixels|
    ensures forall i :: 0 <= i < |s| ==> s[i] == pixels[i].a
  {
    seq(|pixels|, i requires 0 <= i < |pixels| => pixels[i].a)
  }

  /** A palette as a value: 2^depth colours and the k-d tree over them, node `i` having
      the children `2 * i` and `2 * i + 1`. */
  datatype Palette = Palette(depth: nat, colours: seq<Rgb>, splitElt: seq<Axis>, split: seq<Byte>)

  predicate WellFormed(p: Palette)
  {
    2 <= p.depth <= 8 && |p.colours| == |p.splitElt| == |p.split| == 256
  }

  /** Where row `yy` starts in row-major order. */
  function RowStart(width: nat, yy: nat): nat
  {
    if yy == 0 then 0 else RowStart(width, yy - 1) + width
  }

  lemma {:induction false} RowStartIs(width: nat, yy: nat)
    ensures RowStart(width, yy) == yy * width
  {
    if yy > 0 {
      RowStartIs(width, yy - 1);
    }
  }

  lemma {:induction false} RowStartMonotonic(width: nat, y: nat, yy: nat)
    requires y <= yy
    ensures RowStart(width, y) <= RowStart(width, yy)
  {
    if y < yy {
      RowStartMonotonic(width, y, yy - 1);
    }
  }
}
