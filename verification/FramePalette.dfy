/** The palette of a frame: from its changed pixels, or from a given list of colours. */
module FramePalette {
  import opened Bits
  import opened ColourList
  import opened Colours
  import opened MedianSplit
  import opened MedianTree
  import opened PaletteSearch
  import opened Shares
  import opened SplitPalette

  /** The pixels of `cur` that differ from the pixel at the same place in `last`, in order. */
  function Changed(last: seq<Rgb>, cur: seq<Rgb>): seq<Rgb>
    requires |last| >= |cur|
  {
    if cur == [] then []
    else
      var i := |cur| - 1;
      Changed(last, cur[..i]) + if last[i] != cur[i] then [cur[i]] else []
  }

  lemma ChangedStep(last: seq<Rgb>, cur: seq<Rgb>, i: nat)
    requires i <= |cur| <= |last|
    ensures Changed(last, []) == []
    ensures cur[..0] == []
    ensures i < |cur| ==>
              Changed(last, cur[..i + 1]) == Changed(last, cur[..i]) + if last[i] != cur[i] then [cur[i]] else []
  {
    if i < |cur| {
      assert cur[..i + 1][..i] == cur[..i];
    }
  }

  /** Moves the changed pixels to the front of the buffer. */
  method PickChangedPixels(lastFrame: array<Pixel>, frame: array<Rgb>, numPixels: nat) returns (numChanged: nat)
    requires numPixels <= lastFrame.Length && numPixels == frame.Length
    modifies frame
    ensures numChanged <= numPixels
    ensures frame[..numChanged] == Changed(Colour(lastFrame[..]), old(frame[..]))
    ensures frame[numChanged..] == old(frame[numChanged..])
  {
    hide Changed;
    ghost var last, cur := Colour(lastFrame[..]), frame[..];
    numChanged := 0;
    ChangedStep(last, cur, 0);
    for ii := 0 to numPixels
      invariant numChanged <= ii
      invariant frame[..numChanged] == Changed(last, cur[..ii])
      invariant forall j :: numChanged <= j < frame.Length ==> frame[j] == cur[j]
    {
      ChangedStep(last, cur, ii);
      if lastFrame[ii].rgb != frame[ii] {
        ghost var front := frame[..numChanged];
        frame[numChanged] := frame[ii];
        assert frame[..numChanged + 1] == front + [cur[ii]];
        numChanged := numChanged + 1;
      }
    }
    assert cur[..numPixels] == cur;
  }

  /** The pixels the palette of a frame is built from: those that differ from the screen,
      or all of them when there is no previous frame. */
  function Feeding(screen: seq<Rgb>, next: seq<Rgb>): seq<Rgb>
  {
    if |screen| == |next| then Changed(screen, next) else next
  }

  /** `at` lists, in order, the places below `n` where the colours differ. */
  ghost predicate Differing(last: seq<Rgb>, cur: seq<Rgb>, n: nat, at: seq<nat>)
    requires n <= |cur| <= |last|
  {
    && (forall j, k :: 0 <= j < k < |at| ==> at[j] < at[k])
    && (forall i: nat :: i in at <==> i < n && last[i] != cur[i])
  }

  lemma DifferingNext(last: seq<Rgb>, cur: seq<Rgb>, n: nat, at: seq<nat>)
    requires n < |cur| <= |last| && Differing(last, cur, n, at)
    ensures Differing(last, cur, n + 1, if last[n] != cur[n] then at + [n] else at)
  {
    forall j | 0 <= j < |at|
      ensures at[j] < n
    {
      assert at[j] in at;
    }
  }

  /** They are exactly the pixels whose colour changed, in their order: number `j` of them is pixel
      `at[j]` of the image. */
  lemma {:induction false} ChangedIs(last: seq<Rgb>, cur: seq<Rgb>, n: nat) returns (at: seq<nat>)
    requires n <= |cur| <= |last|
    ensures Differing(last, cur, n, at) && |at| == |Changed(last, cur[..n])|
    ensures forall j :: 0 <= j < |at| ==> at[j] < |cur| && Changed(last, cur[..n])[j] == cur[at[j]]
  {
    hide Differing, Changed;
    ChangedStep(last, cur, if n > 0 then n - 1 else n);
    if n == 0 {
      at := [];
      NoneDiffering(last, cur);
    } else {
      at := ChangedIs(last, cur, n - 1);
      DifferingNext(last, cur, n - 1, at);
      if last[n - 1] != cur[n - 1] {
        at := at + [n - 1];
      }
    }
  }

  lemma NoneDiffering(last: seq<Rgb>, cur: seq<Rgb>)
    requires |cur| <= |last|
    ensures Differing(last, cur, 0, [])
  {
  }

  /** A palette made from these pixels, in some order. */
  ghost predicate MadeFrom(p: Palette, feeding: seq<Rgb>, dither: bool)
  {
    WellFormed(p) && exists pixels: seq<Rgb> :: multiset(pixels) == multiset(feeding) && BuiltTree(p, pixels, dither)
  }

  /** The zero split above the transparent leaf, and a black first entry. */
  method AddTransparent(pal: GifPalette)
    requires pal.Valid()
    modifies pal.colours, pal.treeSplitElt, pal.treeSplit
    ensures var p, h := old(pal.Value()), Pow2Half(pal.bitDepth);
            pal.Value() == Palette(p.depth, p.colours[0 := BLACK], p.splitElt[h := 0], p.split[h := 0])
  {
    PutSplit(pal, Pow2Half(pal.bitDepth), 0, 0);
    PutColour(pal, 0, BLACK);
  }

  lemma TransparentInside(p: Palette)
    requires WellFormed(p)
    ensures var h := Pow2Half(p.depth);
            Inside(p, Palette(p.depth, p.colours[0 := BLACK], p.splitElt[h := 0], p.split[h := 0]), 1, 0, p.depth)
  {
  }

  lemma RootShape(depth: nat)
    requires 2 <= depth <= 8
    ensures var lastElt := Pow2(depth); Shape(1, lastElt, lastElt / 2, lastElt / 2 / 2, 0, depth)
    ensures Covers(depth, 1, 0, depth)
  {
    assert Pow2(depth) == 2 * Pow2(depth - 1) == 4 * Pow2(depth - 2);
  }

  /** A palette for the changed pixels of a frame. If there is at least one pixel per
      colour the tree is ordered. In any case its share colours every leaf, and a leaf, or a
      whole subtree, without a share keeps what the palette held before. */
  method MakePalette(lastFrame: array?<Pixel>, nextFrame: array<Pixel>, bitDepth: nat, buildForDither: bool,
                     pal: GifPalette)
    returns (ghost pixels: seq<Rgb>)
    requires 2 <= bitDepth <= 8 && pal.colours.Length == pal.treeSplitElt.Length == pal.treeSplit.Length == 256
    requires lastFrame != null ==> lastFrame.Length == nextFrame.Length
    modifies pal, pal.colours, pal.treeSplitElt, pal.treeSplit
    ensures pal.Valid() && pal.bitDepth == bitDepth
    ensures var feeding := Feeding(LastColours(lastFrame), Colour(nextFrame[..]));
            && multiset(pixels) == multiset(feeding)
            && BuiltTree(pal.Value(), pixels, buildForDither)
            && (|feeding| >= Pow2(bitDepth) - 1 ==> OrderedTree(pal.Value()))
    ensures ZeroSplit(pal.Value()) && pal.Value().colours[0] == BLACK
    ensures Spared(Palette(bitDepth, old(pal.colours[..]), old(pal.treeSplitElt[..]), old(pal.treeSplit[..])),
                   pal.Value(), |pixels|, 1, 0, bitDepth)
    ensures forall i :: 0 < i < 256 && i < Pow2(bitDepth) ==>
              pal.colours[i] == LeafResult(pixels, bitDepth, buildForDither, i, old(pal.colours[i]))
  {
    hide Built, Covers, Ordered, Pow2Half, Pow2, Spared, LeafResult, LeafSlice, LeafColour;
    pal.bitDepth := bitDepth;
    ghost var held := pal.Value();
    var destroyableImage := new Rgb[nextFrame.Length](i requires 0 <= i < nextFrame.Length reads nextFrame =>
                                                        nextFrame[i].rgb);
    assert destroyableImage[..] == Colour(nextFrame[..]);
    var numPixels := nextFrame.Length;
    if lastFrame != null {
      numPixels := PickChangedPixels(lastFrame, destroyableImage, numPixels);
    }
    var lastElt := Pow2(bitDepth);
    var splitElt := lastElt / 2;
    var splitDist := splitElt / 2;
    RootShape(bitDepth);
    ghost var before := destroyableImage[..];
    Split(destroyableImage, 0, numPixels, 1, lastElt, splitElt, splitDist, 1, buildForDither, pal, 0, bitDepth);
    pixels := destroyableImage[0..numPixels];
    assert before[0..numPixels] ==
           Feeding(LastColours(lastFrame), Colour(nextFrame[..]));
    SameMembers(pixels, before[0..numPixels]);
    TransparentKeeps(held, pal.Value(), pixels, buildForDither);
    AddTransparent(pal);
    LeavesAre(held, pal.Value(), pixels, buildForDither);
  }

  /** Entering the transparent leaf keeps what was built and completes the ordered tree. */
  lemma TransparentKeeps(before: Palette, p: Palette, s: seq<Rgb>, dither: bool)
    requires WellFormed(before) && WellFormed(p) && BuiltTree(p, s, dither) && Spared(before, p, |s|, 1, 0, p.depth)
    requires before.depth == p.depth
    ensures var h := Pow2Half(p.depth);
            var q := Palette(p.depth, p.colours[0 := BLACK], p.splitElt[h := 0], p.split[h := 0]);
            && BuiltTree(q, s, dither) && Spared(before, q, |s|, 1, 0, p.depth)
            && (|s| >= Pow2(p.depth) - 1 ==> OrderedTree(q))
  {
    hide Built, Covers, Inside, Ordered, Pow2, Spared;
    var h := Pow2Half(p.depth);
    var q := Palette(p.depth, p.colours[0 := BLACK], p.splitElt[h := 0], p.split[h := 0]);
    CoversRoot(p.depth);
    TransparentInside(p);
    BuiltFrame(p, q, s, 1, 0, p.depth, dither);
    InsideSelf(before, 1, 0, p.depth);
    SparedFrame(before, p, before, q, |s|, 1, 0, p.depth);
    if |s| >= Pow2(p.depth) - 1 {
      TreeOrdered(q, s, dither);
    }
  }

  /** The palette has a black first entry, and with `lost` in its place it would have exactly
      the listed colours. */
  ghost predicate Lists(p: Palette, lost: Rgb, listed: seq<Rgb>)
  {
    && WellFormed(p) && Pow2(p.depth) <= 256 && p.colours[0] == BLACK
    && multiset([lost] + p.colours[1..Pow2(p.depth)]) == multiset(listed)
  }

  /** A palette from a list of 2^bitDepth colours. Entry 0 becomes black, so one of the
      listed colours is lost; the others all appear, in an ordered tree. */
  method MakePaletteFromColors(colors: array<Rgb>, bitDepth: nat, pal: GifPalette) returns (ghost lost: Rgb)
    requires 2 <= bitDepth <= 8 && pal.colours.Length == pal.treeSplitElt.Length == pal.treeSplit.Length == 256
    requires colors.Length >= Pow2(bitDepth)
    modifies pal, pal.colours, pal.treeSplitElt, pal.treeSplit
    ensures pal.Valid() && pal.bitDepth == bitDepth
    ensures OrderedTree(pal.Value()) && ZeroSplit(pal.Value())
    ensures Lists(pal.Value(), lost, old(colors[..Pow2(bitDepth)]))
  {
    hide Covers, Inside, Ordered, Pow2Half, Pow2, Listed, Differs;
    TableBound(bitDepth);
    pal.bitDepth := bitDepth;
    var n := Pow2(bitDepth);
    ghost var given := colors[..n];
    var tempColors := new Rgb[n](i requires 0 <= i < n reads colors => colors[i]);
    assert tempColors[0..n] == given;
    CoversRoot(bitDepth);
    SplitColorPalette(tempColors, 0, n, 1, n - 1, pal, 0, bitDepth);
    lost := tempColors[0];
    ListedTransparent(pal.Value(), tempColors[0..n]);
    AddTransparent(pal);
  }

  lemma ListedTransparent(p: Palette, listed: seq<Rgb>)
    requires WellFormed(p) && Covers(p.depth, 1, 0, p.depth) && Listed(p, listed, 1, 0, p.depth)
    ensures Pow2(p.depth) <= 256 && |listed| > 0
    ensures var h := Pow2Half(p.depth);
            var q := Palette(p.depth, p.colours[0 := BLACK], p.splitElt[h := 0], p.split[h := 0]);
            && OrderedTree(q) && ZeroSplit(q)
            && multiset([listed[0]] + q.colours[1..Pow2(p.depth)]) == multiset(listed)
  {
    hide Covers, Inside, Ordered, Pow2Half, Pow2;
    var h, n := Pow2Half(p.depth), Pow2(p.depth);
    var q := Palette(p.depth, p.colours[0 := BLACK], p.splitElt[h := 0], p.split[h := 0]);
    assert [listed[0]] + listed[1..] == listed;
    assert q.colours[1..n] == p.colours[0..n][1..] == listed[1..];
    TransparentInside(p);
    OrderedInside(p, q, 1, 0, p.depth);
  }
}
