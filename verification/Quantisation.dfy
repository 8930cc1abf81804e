/** The pixels of a frame, dithered or not: when a viewer shows them as written, and when
    they are the colours of the image that was passed in. */
module Quantisation {
  import opened Bits
  import opened Colours
  import opened Diffusion
  import opened Dither
  import opened FramePalette
  import opened Gather
  import opened Lzw
  import opened MedianTree
  import opened PaletteSearch
  import opened TallImages
  import opened Threshold

  /** What the writer makes of an image over the colours shown last. */
  function Quantised(p: Palette, last: seq<Rgb>, next: seq<Pixel>, width: nat, dither: bool): (out: seq<Pixel>)
    requires WellFormed(p) && width > 0
    ensures |out| == |next|
  {
    if dither then Dithered(p, last, next, width)
    else seq(|next|, i requires 0 <= i < |next| => Thresholded(p, LastAt(last, i), next[i].rgb))
  }

  /** A viewer shows every pixel as it was written. */
  ghost predicate AllFaithful(p: Palette, last: seq<Rgb>, out: seq<Pixel>)
  {
    WellFormed(p) && forall i :: 0 <= i < |out| ==> Faithful(p, LastAt(last, i), out[i])
  }

  lemma IndicesFit(p: Palette, last: seq<Rgb>, next: seq<Pixel>, width: nat, dither: bool)
    requires WellFormed(p) && width > 0
    ensures Symbols(p.depth, Indices(Quantised(p, last, next, width, dither)))
  {
    hide After, Cast, Thresholded, Faithful;
    var out := Quantised(p, last, next, width, dither);
    TableBound(p.depth);
    AfterIndices(p, last, Seed(next), |next|, width);
    forall i | 0 <= i < |out|
      ensures out[i].a < Pow2(p.depth)
    {
      if dither {
        CastIndex(After(p, last, Seed(next), |next|, width)[i]);
      } else {
        ThresholdedFaithful(p, LastAt(last, i), next[i].rgb);
        FaithfulIndex(p, LastAt(last, i), out[i]);
      }
    }
  }

  lemma FaithfulIndex(p: Palette, last: Previous, px: Pixel)
    requires WellFormed(p) && Faithful(p, last, px)
    ensures px.a < Pow2(p.depth)
  {
  }

  // ---------------------------------------------------------------- as written

  /** Pixels chosen without dithering are always shown as written; dithered ones always in an
      image of at least two columns and at most 490 rows. */
  lemma QuantisedFaithful(p: Palette, last: seq<Rgb>, next: seq<Pixel>, width: nat, height: nat, dither: bool)
    requires WellFormed(p) && ZeroSplit(p) && width > 0 && |next| == width * height
    requires !dither || (width >= 2 && height <= TALLEST)
    ensures AllFaithful(p, last, Quantised(p, last, next, width, dither))
  {
    hide After, Cast, Thresholded, Faithful, ZeroSplit;
    forall i | 0 <= i < |next|
      ensures Faithful(p, LastAt(last, i), Quantised(p, last, next, width, dither)[i])
    {
      if dither {
        DitheredFaithful(p, last, next, width, height, i);
      } else {
        ThresholdedFaithful(p, LastAt(last, i), next[i].rgb);
      }
    }
  }

  /** For every size, and every palette the builders make, dithered pixels are shown as written
      exactly when all of them meet the condition. */
  lemma QuantisedFaithfulIff(p: Palette, last: seq<Rgb>, next: seq<Pixel>, width: nat, height: nat, dither: bool)
    requires WellFormed(p) && ZeroSplit(p) && width > 0 && |next| == width * height
    requires OrderedTree(p) || |next| < 255 || !dither
    ensures AllFaithful(p, last, Quantised(p, last, next, width, dither)) <==>
            dither ==> AllShown(p, last, next, width)
  {
    hide After, Cast, Thresholded, Faithful, ZeroSplit, OrderedTree, DitherShown;
    if dither {
      forall i | 0 <= i < |next|
        ensures Faithful(p, LastAt(last, i), Dithered(p, last, next, width)[i]) <==>
                DitherShown(p, last, next, width, i)
      {
        DitherShownIff(p, last, next, width, height, i);
      }
    } else {
      QuantisedFaithful(p, last, next, width, height, dither);
    }
  }

  // ---------------------------------------------------------------- as given

  /** The palette can show a colour that was asked for, or the screen shows it already. */
  ghost predicate Available(p: Palette, last: Previous, c: Rgb)
  {
    last == Shown(c) || exists k :: 0 < k < Pow2(p.depth) && k < |p.colours| && p.colours[k] == c
  }

  ghost predicate AllAvailable(p: Palette, last: seq<Rgb>, colours: seq<Rgb>)
  {
    forall i :: 0 <= i < |colours| ==> Available(p, LastAt(last, i), colours[i])
  }

  lemma ZeroDistance(c: Rgb, d: Rgb)
    ensures Distance(Plain(c), d) == 0 <==> c == d
  {
  }

  /** On an ordered palette the search finds a colour that is in the palette. */
  lemma ExactSearch(p: Palette, c: Rgb, best: Best, k: nat)
    requires WellFormed(p) && OrderedTree(p) && best.diff == FAR
    requires 0 < k < Pow2(p.depth) && k < 256 && p.colours[k] == c
    ensures var b := Closest(p, Plain(c), best, 1); 0 < b.ind < Pow2(p.depth) && b.ind < 256 && p.colours[b.ind] == c
  {
    hide Closest, Covers, Distance, Ordered, Pow2;
    TableBound(p.depth);
    CoversRoot(p.depth);
    ClosestIsCandidate(p, Plain(c), best, 1, 0, p.depth);
    ClosestIsNearest(p, Plain(c), best, 1, 0, p.depth);
    ZeroDistance(c, c);
    assert Distance(Plain(c), p.colours[k]) == 0;
    var b := Closest(p, Plain(c), best, 1);
    ZeroDistance(c, p.colours[b.ind]);
  }

  const NO_ERROR := Wanted(0, 0, 0)

  /** A choice that changes nothing: the colour itself, from the screen or the palette. */
  ghost predicate ExactChoice(p: Palette, last: Previous, c: Rgb, choice: Choice)
    requires WellFormed(p)
  {
    match choice
    case Keep(wanted) => last == Shown(c) && wanted == Plain(c)
    case Take(ind, colour, err) =>
      0 < ind < Pow2(p.depth) && ind < 256 && colour == p.colours[ind] == c && err == NO_ERROR
  }

  lemma RoundedScaled(c: Rgb)
    ensures Rounded(Scaled(c)) == Plain(c) && Minus(Scaled(c), c) == NO_ERROR
  {
  }

  lemma AvailableChosen(p: Palette, last: Previous, c: Rgb)
    requires WellFormed(p) && OrderedTree(p) && Available(p, last, c)
    ensures ExactChoice(p, last, c, Choose(p, last, Scaled(c)))
  {
    hide Closest, OrderedTree, Rounded, Minus, Pow2, Scaled;
    RoundedScaled(c);
    if last != Shown(c) {
      var k :| 0 < k < Pow2(p.depth) && k < |p.colours| && p.colours[k] == c;
      ExactSearch(p, c, Best(0, FAR), k);
    }
  }

  lemma NoPush(v: Wanted, num: nat)
    requires NonNegative(v)
    ensures Push(v, NO_ERROR, num) == v
  {
  }

  /** A visit that leaves no error writes its pixel and nothing else, at any width. */
  lemma VisitExact(p: Palette, last: Previous, q: seq<Quant>, i: nat, width: nat)
    requires WellFormed(p) && i < |q| && width > 0
    requires forall j :: 0 <= j < |q| ==> NonNegative(q[j].v)
    requires var c := Choose(p, last, q[i].v); c.Take? ==> c.err == NO_ERROR
    ensures Visit(p, last, q, i, width) == q[i := Written(Choose(p, last, q[i].v))]
  {
    hide Choose, Push;
    forall v, num: nat | NonNegative(v)
      ensures Push(v, NO_ERROR, num) == v
    {
      NoPush(v, num);
    }
  }

  /** Without errors the pass visits every pixel with the colour that was given. */
  lemma {:induction false} NothingSpreads(p: Palette, last: seq<Rgb>, next: seq<Pixel>, width: nat, n: nat)
    requires WellFormed(p) && OrderedTree(p) && width > 0 && n <= |next|
    requires AllAvailable(p, last, Colour(next))
    ensures forall j :: n <= j < |next| ==> After(p, last, Seed(next), n, width)[j] == Seed(next)[j]
    ensures forall j :: 0 <= j < n ==>
              After(p, last, Seed(next), n, width)[j] == Written(Choose(p, LastAt(last, j), Scaled(next[j].rgb)))
  {
    hide Choose, Visit, Written, Scaled, Available, ExactChoice, OrderedTree;
    if n > 0 {
      var k := n - 1;
      NothingSpreads(p, last, next, width, k);
      AfterNonNegative(p, last, next, k, width);
      assert Available(p, LastAt(last, k), Colour(next)[k]);
      AvailableChosen(p, LastAt(last, k), next[k].rgb);
      NoErrorLeft(p, LastAt(last, k), next[k].rgb, Choose(p, LastAt(last, k), Scaled(next[k].rgb)));
      VisitExact(p, LastAt(last, k), After(p, last, Seed(next), k, width), k, width);
    }
  }

  lemma NoErrorLeft(p: Palette, last: Previous, c: Rgb, choice: Choice)
    requires WellFormed(p) && ExactChoice(p, last, c, choice)
    ensures choice.Take? ==> choice.err == NO_ERROR
  {
  }

  lemma ExactWritten(p: Palette, last: Previous, c: Rgb, choice: Choice)
    requires WellFormed(p) && ExactChoice(p, last, c, choice)
    ensures Faithful(p, last, Cast(Written(choice))) && Cast(Written(choice)).rgb == c
  {
    CastWritten(choice, c);
  }

  /** Dithering leaves an image of available colours as it is, whatever its width and height. */
  lemma DitheredExact(p: Palette, last: seq<Rgb>, next: seq<Pixel>, width: nat, i: nat)
    requires WellFormed(p) && OrderedTree(p) && width > 0 && i < |next|
    requires AllAvailable(p, last, Colour(next))
    ensures var px := Dithered(p, last, next, width)[i];
            Faithful(p, LastAt(last, i), px) && px.rgb == next[i].rgb
  {
    hide After, Choose, Written, Cast, Faithful, Available, ExactChoice, OrderedTree, Scaled;
    NothingSpreads(p, last, next, width, |next|);
    assert Available(p, LastAt(last, i), Colour(next)[i]);
    AvailableChosen(p, LastAt(last, i), next[i].rgb);
    ExactWritten(p, LastAt(last, i), next[i].rgb, Choose(p, LastAt(last, i), Scaled(next[i].rgb)));
  }

  lemma ThresholdedExact(p: Palette, last: Previous, c: Rgb)
    requires WellFormed(p) && OrderedTree(p) && Available(p, last, c)
    ensures Faithful(p, last, Thresholded(p, last, c)) && Thresholded(p, last, c).rgb == c
  {
    hide Closest, OrderedTree, Faithful, Pow2;
    ThresholdedFaithful(p, last, c);
    if last != Shown(c) {
      var k :| 0 < k < Pow2(p.depth) && k < |p.colours| && p.colours[k] == c;
      ThresholdedNearest(p, last, c);
      ZeroDistance(c, c);
      ZeroDistance(c, Thresholded(p, last, c).rgb);
    }
  }

  lemma ShownIsAvailable(p: Palette, last: Previous, px: Pixel)
    requires WellFormed(p) && Faithful(p, last, px)
    ensures Available(p, last, px.rgb)
  {
    hide Pow2;
    TableBound(p.depth);
  }

  /** On an ordered palette, dithered or not, a viewer shows exactly the image that was given
      if and only if each of its colours is on the screen already or in the palette. */
  lemma ExactIff(p: Palette, last: seq<Rgb>, next: seq<Pixel>, width: nat, dither: bool)
    requires WellFormed(p) && OrderedTree(p) && width > 0
    ensures var out := Quantised(p, last, next, width, dither);
            AllFaithful(p, last, out) && Colour(out) == Colour(next) <==> AllAvailable(p, last, Colour(next))
  {
    hide After, Cast, Thresholded, Faithful, Available, OrderedTree;
    var out := Quantised(p, last, next, width, dither);
    if AllFaithful(p, last, out) && Colour(out) == Colour(next) {
      forall i | 0 <= i < |next|
        ensures Available(p, LastAt(last, i), Colour(next)[i])
      {
        assert Colour(out)[i] == Colour(next)[i];
        ShownIsAvailable(p, LastAt(last, i), out[i]);
      }
    }
    if AllAvailable(p, last, Colour(next)) {
      forall i | 0 <= i < |next|
        ensures Faithful(p, LastAt(last, i), out[i]) && out[i].rgb == next[i].rgb
      {
        assert Available(p, LastAt(last, i), Colour(next)[i]);
        if dither {
          DitheredExact(p, last, next, width, i);
        } else {
          ThresholdedExact(p, LastAt(last, i), next[i].rgb);
        }
      }
    }
  }

  lemma ListedAvailable(p: Palette, lost: Rgb, listed: seq<Rgb>, last: Previous, c: Rgb)
    requires Lists(p, lost, listed)
    ensures Available(p, last, c) <==> last == Shown(c) || c in multiset(listed) - multiset{lost}
  {
    hide Pow2;
    TableBound(p.depth);
    var entries := p.colours[1..Pow2(p.depth)];
    assert multiset([lost] + entries) - multiset{lost} == multiset(entries);
    if c in entries {
      var j :| 0 <= j < |entries| && entries[j] == c;
      assert p.colours[j + 1] == c;
    }
    if k :| 0 < k < Pow2(p.depth) && k < |p.colours| && p.colours[k] == c {
      assert entries[k - 1] == c;
    }
  }

  ghost predicate AllListed(colours: multiset<Rgb>, last: seq<Rgb>, wanted: seq<Rgb>)
  {
    forall i :: 0 <= i < |wanted| ==> LastAt(last, i) == Shown(wanted[i]) || wanted[i] in colours
  }

  /** With a palette made from a list, the colours to choose from are the listed ones, less the
      one that was lost. */
  lemma AllListedIff(p: Palette, lost: Rgb, listed: seq<Rgb>, last: seq<Rgb>, wanted: seq<Rgb>)
    requires Lists(p, lost, listed)
    ensures AllAvailable(p, last, wanted) <==> AllListed(multiset(listed) - multiset{lost}, last, wanted)
  {
    hide Available, Lists, LastAt;
    forall i | 0 <= i < |wanted|
      ensures Available(p, LastAt(last, i), wanted[i]) <==>
              LastAt(last, i) == Shown(wanted[i]) || wanted[i] in multiset(listed) - multiset{lost}
    {
      ListedAvailable(p, lost, listed, LastAt(last, i), wanted[i]);
    }
  }
}
