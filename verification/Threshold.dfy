/** Choosing palette indices without dithering. */
module Threshold {
  import opened Bits
  import opened Colours
  import opened PaletteSearch
  import opened SplitPalette

  datatype Previous = Nothing | Shown(rgb: Rgb)

  const FAR := 1000000

  function Plain(c: Rgb): Wanted { Wanted(c.r, c.g, c.b) }

  /** The output pixel: transparent if the previous frame already shows the colour,
      otherwise the palette colour the search picks. */
  function Thresholded(p: Palette, last: Previous, next: Rgb): (px: Pixel)
    requires WellFormed(p)
    ensures px.a == TRANSPARENT <==> last == Shown(next)
  {
    if last == Shown(next) then Pixel(next, TRANSPARENT)
    else
      TableBound(p.depth);
      CoversRoot(p.depth);
      ClosestIsCandidate(p, Plain(next), Best(1, FAR), 1, 0, p.depth);
      var best := Closest(p, Plain(next), Best(1, FAR), 1);
      Pixel(p.colours[best.ind], best.ind)
  }

  /** What a decoder that keeps the previous frame shows for a pixel is the pixel's RGB. */
  ghost predicate Faithful(p: Palette, last: Previous, px: Pixel)
    requires WellFormed(p)
  {
    if px.a == TRANSPARENT then last == Shown(px.rgb) else px.a < Pow2(p.depth) && px.rgb == p.colours[px.a]
  }

  lemma ThresholdedFaithful(p: Palette, last: Previous, next: Rgb)
    requires WellFormed(p)
    ensures Faithful(p, last, Thresholded(p, last, next))
  {
    hide Closest, Covers;
    TableBound(p.depth);
    CoversRoot(p.depth);
    ClosestIsCandidate(p, Plain(next), Best(1, FAR), 1, 0, p.depth);
  }

  /** On an ordered palette the chosen colour is a nearest one. */
  lemma ThresholdedNearest(p: Palette, last: Previous, next: Rgb)
    requires WellFormed(p) && OrderedTree(p) && last != Shown(next)
    ensures Pow2(p.depth) <= 256
    ensures forall i :: 0 < i < Pow2(p.depth) ==>
              Distance(Plain(next), Thresholded(p, last, next).rgb) <= Distance(Plain(next), p.colours[i])
  {
    hide Closest, Covers, Distance, Ordered;
    TableBound(p.depth);
    CoversRoot(p.depth);
    var best := Best(1, FAR);
    ClosestIsCandidate(p, Plain(next), best, 1, 0, p.depth);
    ClosestIsNearest(p, Plain(next), best, 1, 0, p.depth);
    ByteDistance(next, p.colours[1]);
  }

  lemma ByteDistance(c: Rgb, d: Rgb)
    ensures Distance(Plain(c), d) <= 765 < FAR
  {
  }

  function PreviousAt(frame: array?<Pixel>, i: nat): Previous
    requires frame != null ==> i < frame.Length
    reads frame
  {
    if frame == null then Nothing else Shown(frame[i].rgb)
  }

  /** `lastFrame` may be the very buffer that is being written. */
  method ThresholdImage(lastFrame: array?<Pixel>, nextFrame: array<Pixel>, outFrame: array<Pixel>, pal: GifPalette)
    requires pal.Valid() && nextFrame != outFrame && nextFrame.Length == outFrame.Length
    requires lastFrame != null ==> lastFrame.Length == outFrame.Length
    modifies outFrame
    ensures forall i :: 0 <= i < outFrame.Length ==>
              outFrame[i] == Thresholded(pal.Value(), old(PreviousAt(lastFrame, i)), nextFrame[i].rgb)
  {
    hide Thresholded;
    var p := pal.Value();
    for ii := 0 to outFrame.Length
      invariant forall i :: 0 <= i < ii ==>
                  outFrame[i] == Thresholded(p, old(PreviousAt(lastFrame, i)), nextFrame[i].rgb)
      invariant forall i :: ii <= i < outFrame.Length ==> outFrame[i] == old(outFrame[i])
      invariant forall i :: ii <= i < outFrame.Length ==> PreviousAt(lastFrame, i) == old(PreviousAt(lastFrame, i))
    {
      outFrame[ii] := Thresholded(p, PreviousAt(lastFrame, ii), nextFrame[ii].rgb);
    }
  }
}
