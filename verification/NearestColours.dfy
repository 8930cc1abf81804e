/** Which colour error diffusion takes: one nearest to the pending colour, rounded to bytes. What
    it could not show is passed on, but for less than a unit a neighbour. */
module NearestColours {
  import opened Arithmetic
  import opened Bits
  import opened Colours
  import opened Diffusion
  import opened Dither
  import opened OneColumn
  import opened PaletteSearch
  import opened TallImages
  import opened Threshold

  /** Entry `k` can be seen, and no entry that can be seen is nearer to the wanted colour. */
  ghost predicate Nearest(p: Palette, w: Wanted, k: nat)
    requires WellFormed(p)
  {
    && 0 < k < Pow2(p.depth) && k < 256
    && forall j :: 0 < j < Pow2(p.depth) && j < 256 ==> Distance(w, p.colours[k]) <= Distance(w, p.colours[j])
  }

  lemma SearchIsNearest(p: Palette, w: Wanted)
    requires WellFormed(p) && OrderedTree(p)
    ensures var k := Closest(p, w, Best(0, FAR), 1).ind; if InReach(p, w) then Nearest(p, w, k) else k == TRANSPARENT
  {
    hide Closest, Covers, Distance, Ordered, Pow2;
    TableBound(p.depth);
    CoversRoot(p.depth);
    FoundIffInReach(p, w);
    ClosestIsCandidate(p, w, Best(0, FAR), 1, 0, p.depth);
    ClosestIsNearest(p, w, Best(0, FAR), 1, 0, p.depth);
  }

  /** On an ordered palette the choice for a pending colour is the screen's colour, if that is the
      one wanted, or else a nearest entry, or the transparent one if none is within reach. */
  lemma ChoiceIsNearest(p: Palette, last: Previous, v: Wanted)
    requires WellFormed(p) && OrderedTree(p)
    ensures var w := Rounded(v);
            match Choose(p, last, v)
            case Keep(wanted) => last.Shown? && Plain(last.rgb) == w == wanted
            case Take(ind, colour, err) =>
              && (last.Shown? ==> Plain(last.rgb) != w)
              && ind < 256 && colour == p.colours[ind] && err == Minus(v, colour)
              && if InReach(p, w) then Nearest(p, w, ind) else ind == TRANSPARENT
  {
    hide Closest, OrderedTree, InReach, Nearest, Rounded;
    SearchIsNearest(p, Rounded(v));
  }

  lemma KeptPixel(wanted: Wanted, rgb: Rgb)
    requires wanted == Plain(rgb)
    ensures Cast(Quant(wanted, TRANSPARENT)) == Pixel(rgb, TRANSPARENT)
  {
  }

  /** For every width: a dithered pixel is transparent with the screen's colour if that is the
      pending colour; or else its index is that of a nearest entry, and with two columns or more
      its colour is that entry's; or it is transparent because no entry is within reach. */
  lemma DitheredNearest(p: Palette, last: seq<Rgb>, next: seq<Pixel>, width: nat, i: nat)
    requires WellFormed(p) && OrderedTree(p) && width > 0 && i < |next|
    ensures var w := Rounded(After(p, last, Seed(next), i, width)[i].v);
            var px, prev := Dithered(p, last, next, width)[i], LastAt(last, i);
            if prev.Shown? && Plain(prev.rgb) == w then px == Pixel(prev.rgb, TRANSPARENT)
            else
              && (if InReach(p, w) then Nearest(p, w, px.a) else px.a == TRANSPARENT)
              && (width >= 2 ==> px.rgb == p.colours[px.a])
  {
    hide After, Choose, Cast, OrderedTree, InReach, Nearest, Rounded;
    var q := Seed(next);
    var c := ChoiceAt(p, last, q, width, i);
    ChoiceIsNearest(p, LastAt(last, i), After(p, last, q, i, width)[i].v);
    if width == 1 {
      ColumnWritten(p, last, q, |next|, width);
      if c.Keep? {
        KeptPixel(c.wanted, LastAt(last, i).rgb);
      } else {
        CastIndex(Returned(c));
      }
    } else {
      AfterWritten(p, last, q, |next|, width);
      CastWritten(c, if c.Keep? then LastAt(last, i).rgb else c.colour);
    }
  }

  /** Half of 256 is all that rounding can be off. */
  lemma RoundedNearest(v: Wanted)
    requires NonNegative(v)
    ensures var w := Rounded(v);
            && -128 <= 256 * w.r - v.r <= 127
            && -128 <= 256 * w.g - v.g <= 127
            && -128 <= 256 * w.b - v.b <= 127
  {
  }

  /** The four shares of an error, each rounded toward zero, make up all of it but for less than
      four units. */
  lemma SharesAddUp(err: int)
    ensures var passed := Trunc(err * 7, 16) + Trunc(err * 3, 16) + Trunc(err * 5, 16) + Trunc(err * 1, 16);
            Abs(err - passed) < 4 && Abs(passed) <= Abs(err)
  {
  }

  /** A share is added, unless it would take a channel below zero. */
  lemma NudgeIs(x: int, err: int, num: nat)
    requires x >= 0
    ensures Nudge(x, err, num) == Max(0, x + Trunc(err * num, 16))
  {
  }
}
