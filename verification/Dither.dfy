/** Floyd-Steinberg error diffusion over a buffer of colours scaled by 256. */
module Dither {
  import opened Arithmetic
  import opened Bits
  import opened Colours
  import opened PaletteSearch
  import opened SplitPalette
  import opened Threshold

  /** One pixel of the working buffer: a scaled colour, later the final colour and index. */
  datatype Quant = Quant(v: Wanted, ind: int)

  /** Division that truncates toward zero, as the program's int32 division does. */
  function Trunc(a: int, b: nat): int
    requires b > 0
  {
    if a >= 0 then a / b else -(-a / b)
  }

  /** Adding a share of the error, but not below zero. */
  function Nudge(x: int, err: int, num: nat): int
  {
    x + Max(-x, Trunc(err * num, 16))
  }

  function Push(v: Wanted, err: Wanted, num: nat): Wanted
  {
    Wanted(Nudge(v.r, err.r, num), Nudge(v.g, err.g, num), Nudge(v.b, err.b, num))
  }

  function Scaled(c: Rgb): Wanted { Wanted(c.r * 256, c.g * 256, c.b * 256) }

  function Rounded(v: Wanted): Wanted
  {
    Wanted(Trunc(v.r + 127, 256), Trunc(v.g + 127, 256), Trunc(v.b + 127, 256))
  }

  function Minus(v: Wanted, c: Rgb): Wanted
  {
    Wanted(v.r - c.r * 256, v.g - c.g * 256, v.b - c.b * 256)
  }

  function Seed(next: seq<Pixel>): (q: seq<Quant>)
    ensures |q| == |next|
    ensures forall i :: 0 <= i < |q| ==> q[i] == Quant(Scaled(next[i].rgb), next[i].a * 256)
  {
    seq(|next|, i requires 0 <= i < |next| => Quant(Scaled(next[i].rgb), next[i].a * 256))
  }

  /** What becomes of a pending colour: keep the previous frame's, or take a palette entry
      and leave an error. The search may come back with the transparent index 0. */
  datatype Choice = Keep(wanted: Wanted) | Take(ind: nat, colour: Rgb, err: Wanted)

  function Choose(p: Palette, last: Previous, v: Wanted): (c: Choice)
    requires WellFormed(p)
    ensures c.Take? ==> c.ind < 256 && c.colour == p.colours[c.ind] && c.err == Minus(v, c.colour)
    ensures c.Keep? ==> last.Shown? && c.wanted == Plain(last.rgb)
  {
    var wanted := Rounded(v);
    if last.Shown? && Plain(last.rgb) == wanted then Keep(wanted)
    else
      TableBound(p.depth);
      CoversRoot(p.depth);
      ClosestIsCandidate(p, wanted, Best(0, FAR), 1, 0, p.depth);
      var best := Closest(p, wanted, Best(0, FAR), 1);
      Take(best.ind, p.colours[best.ind], Minus(v, p.colours[best.ind]))
  }

  function PushAt(q: seq<Quant>, i: int, err: Wanted, num: nat): (r: seq<Quant>)
    requires 0 <= i
    ensures |r| == |q|
  {
    if i < |q| then q[i := q[i].(v := Push(q[i].v, err, num))] else q
  }

  /** Visiting pixel `i`: write the choice, then spread its error to four neighbours. */
  function Visit(p: Palette, last: Previous, q: seq<Quant>, i: nat, width: nat): (r: seq<Quant>)
    requires WellFormed(p) && i < |q| && width > 0
    ensures |r| == |q|
  {
    match Choose(p, last, q[i].v)
    case Keep(wanted) => q[i := Quant(wanted, TRANSPARENT)]
    case Take(ind, colour, err) =>
      var q0 := q[i := Quant(Plain(colour), ind)];
      var q7 := PushAt(q0, i + 1, err, 7);
      var q3 := PushAt(q7, i + width - 1, err, 3);
      var q5 := PushAt(q3, i + width, err, 5);
      PushAt(q5, i + width + 1, err, 1)
  }

  function LastAt(last: seq<Rgb>, i: nat): Previous
  {
    if i < |last| then Shown(last[i]) else Nothing
  }

  /** The buffer after the first `n` pixels have been visited. `last` is empty when there
      is no previous frame. */
  function After(p: Palette, last: seq<Rgb>, q: seq<Quant>, n: nat, width: nat): (r: seq<Quant>)
    requires WellFormed(p) && n <= |q| && width > 0
    ensures |r| == |q|
  {
    if n == 0 then q else Visit(p, LastAt(last, n - 1), After(p, last, q, n - 1, width), n - 1, width)
  }

  lemma AfterNone(p: Palette, last: seq<Rgb>, q: seq<Quant>, width: nat)
    requires WellFormed(p) && width > 0
    ensures After(p, last, q, 0, width) == q
  {
  }

  // ---------------------------------------------------------------- the program

  method Spread(quantPixels: array<Quant>, loc: nat, err: Wanted, num: nat)
    modifies quantPixels
    ensures quantPixels[..] == PushAt(old(quantPixels[..]), loc, err, num)
  {
    if loc < quantPixels.Length {
      quantPixels[loc] := quantPixels[loc].(v := Push(quantPixels[loc].v, err, num));
    }
  }

  /** One pixel of the double loop. */
  method DitherPixel(quantPixels: array<Quant>, lastPix: Previous, i: nat, width: nat, p: Palette)
    requires WellFormed(p) && i < quantPixels.Length && width > 0
    modifies quantPixels
    ensures quantPixels[..] == Visit(p, lastPix, old(quantPixels[..]), i, width)
  {
    hide PushAt;
    match Choose(p, lastPix, quantPixels[i].v) {
      case Keep(wanted) =>
        quantPixels[i] := Quant(wanted, TRANSPARENT);
      case Take(ind, colour, err) =>
        quantPixels[i] := Quant(Plain(colour), ind);
        Spread(quantPixels, i + 1, err, 7);
        Spread(quantPixels, i + width - 1, err, 3);
        Spread(quantPixels, i + width, err, 5);
        Spread(quantPixels, i + width + 1, err, 1);
    }
  }

  function Byte256(x: int): Byte { x % 256 }

  /** The cast of a working pixel to bytes. */
  function Cast(q: Quant): Pixel
  {
    Pixel(Rgb(Byte256(q.v.r), Byte256(q.v.g), Byte256(q.v.b)), Byte256(q.ind))
  }

  /** The output of the whole pass. */
  function Dithered(p: Palette, last: seq<Rgb>, next: seq<Pixel>, width: nat): (out: seq<Pixel>)
    requires WellFormed(p) && width > 0
    ensures |out| == |next|
    ensures forall i :: 0 <= i < |out| ==> out[i] == Cast(After(p, last, Seed(next), |next|, width)[i])
  {
    seq(|next|, i requires 0 <= i < |next| => Cast(After(p, last, Seed(next), |next|, width)[i]))
  }

  method DitherRow(quantPixels: array<Quant>, lastFrame: array?<Pixel>, row: nat, width: nat, p: Palette,
                   ghost seed: seq<Quant>)
    requires WellFormed(p) && width > 0 && row + width <= quantPixels.Length == |seed|
    requires lastFrame != null ==> lastFrame.Length == quantPixels.Length
    requires quantPixels[..] == After(p, LastColours(lastFrame), seed, row, width)
    modifies quantPixels
    ensures quantPixels[..] == After(p, LastColours(lastFrame), seed, row + width, width)
  {
    hide Visit;
    for xx := 0 to width
      invariant quantPixels[..] == After(p, LastColours(lastFrame), seed, row + xx, width)
    {
      var lastPix := PreviousAt(lastFrame, row + xx);
      DitherPixel(quantPixels, lastPix, row + xx, width, p);
    }
  }

  /** Copies the result to the output bytes. */
  method CastPixels(quantPixels: array<Quant>, outFrame: array<Pixel>)
    requires quantPixels.Length == outFrame.Length
    modifies outFrame
    ensures forall i :: 0 <= i < outFrame.Length ==> outFrame[i] == Cast(quantPixels[i])
  {
    hide Cast;
    for ii := 0 to outFrame.Length
      invariant forall i :: 0 <= i < ii ==> outFrame[i] == Cast(quantPixels[i])
    {
      outFrame[ii] := Cast(quantPixels[ii]);
    }
  }

  /** `lastFrame` may be the very buffer that is being written. */
  method DitherImage(lastFrame: array?<Pixel>, nextFrame: array<Pixel>, outFrame: array<Pixel>, width: nat, height: nat,
                     pal: GifPalette)
    requires pal.Valid() && width > 0
    requires nextFrame.Length == outFrame.Length == width * height
    requires lastFrame != null ==> lastFrame.Length == outFrame.Length
    modifies outFrame
    ensures outFrame[..] == Dithered(pal.Value(), old(LastColours(lastFrame)), old(nextFrame[..]), width)
  {
    hide Visit, Cast, After;
    var numPixels := outFrame.Length;
    ghost var p, last, seed := pal.Value(), LastColours(lastFrame), Seed(nextFrame[..]);
    var quantPixels := new Quant[numPixels](i requires 0 <= i < numPixels reads nextFrame =>
                                              Quant(Scaled(nextFrame[i].rgb), nextFrame[i].a * 256));
    assert quantPixels[..] == seed;
    AfterNone(p, last, seed, width);
    RowStartIs(width, height);
    for yy := 0 to height
      invariant RowStart(width, yy) <= numPixels
      invariant quantPixels[..] == After(p, last, seed, RowStart(width, yy), width)
      invariant LastColours(lastFrame) == last
    {
      RowStartMonotonic(width, yy + 1, height);
      DitherRow(quantPixels, lastFrame, RowStart(width, yy), width, pal.Value(), seed);
    }
    CastPixels(quantPixels, outFrame);
    assert forall i :: 0 <= i < numPixels ==> quantPixels[i] == quantPixels[..][i];
  }
}
