/** Which pixels reach which leaf of the median split, what becomes of the leaves that none
    reaches, and exactly when the finished tree is sure to be ordered. */
module Shares {
  import opened Bits
  import opened Colours
  import opened MedianSplit
  import opened MedianTree
  import opened PaletteSearch
  import opened SplitPalette

  // ---------------------------------------------------------------- what a leaf gets

  /** The pixels leaf `i` receives, `s` being those of the node over lo .. lo + 2^k. */
  function LeafSlice(s: seq<Rgb>, lo: nat, k: nat, i: nat): (r: seq<Rgb>)
    requires First(lo) <= i < lo + Pow2(k)
    ensures |r| == LeafShare(|s|, lo, k, i)
    decreases k
  {
    if !IsInner(lo, k) then s
    else
      var a := LeftShare(|s|, lo, k);
      if i < lo + Pow2(k - 1) then LeafSlice(s[..a], lo, k - 1, i) else LeafSlice(s[a..], lo + Pow2(k - 1), k - 1, i)
  }

  /** In a built tree a leaf that is reached has the colour of the pixels that reach it. */
  lemma {:induction false} ReachedLeaf(p: Palette, s: seq<Rgb>, node: nat, lo: nat, k: nat, dither: bool, i: nat)
    requires WellFormed(p) && Covers(p.depth, node, lo, k) && Built(p, s, node, lo, k, dither)
    requires First(lo) <= i < lo + Pow2(k) <= 256 && LeafSlice(s, lo, k, i) != []
    ensures p.colours[i] == LeafColour(LeafSlice(s, lo, k, i), i, p.depth, dither)
    decreases k
  {
    hide Covers, Built, Pow2, LeafColour, LeftShare, Cut;
    if s == [] {
      NothingToShare(lo, k, i);
    } else if IsInner(lo, k) {
      InnerShape(lo, k);
      BuiltInner(p, s, node, lo, k, dither);
      var a := LeftShare(|s|, lo, k);
      if i < lo + Pow2(k - 1) {
        ReachedLeaf(p, s[..a], 2 * node, lo, k - 1, dither, i);
      } else {
        ReachedLeaf(p, s[a..], 2 * node + 1, lo + Pow2(k - 1), k - 1, dither, i);
      }
    } else {
      NotInner(lo, k);
      BuiltLeaf(p, s, node, lo, k, dither);
    }
  }

  /** A leaf that no pixel reaches keeps its colour. */
  lemma {:induction false} UnreachedLeaf(p: Palette, q: Palette, n: nat, node: nat, lo: nat, k: nat, i: nat)
    requires WellFormed(p) && WellFormed(q) && Spared(p, q, n, node, lo, k)
    requires First(lo) <= i < lo + Pow2(k) <= 256 && LeafShare(n, lo, k, i) == 0
    ensures q.colours[i] == p.colours[i]
    decreases k
  {
    hide Pow2, LeftShare, Under;
    if n > 0 && IsInner(lo, k) {
      InnerShape(lo, k);
      var a := LeftShare(n, lo, k);
      if i < lo + Pow2(k - 1) {
        UnreachedLeaf(p, q, a, 2 * node, lo, k - 1, i);
      } else {
        UnreachedLeaf(p, q, n - a, 2 * node + 1, lo + Pow2(k - 1), k - 1, i);
      }
    }
  }

  /** The colour of leaf `i` in a tree built over `s`, `before` being the colour it had. */
  function LeafResult(s: seq<Rgb>, depth: nat, dither: bool, i: nat, before: Rgb): Rgb
    requires 0 < i < Pow2(depth)
  {
    var slice := LeafSlice(s, 0, depth, i);
    if slice == [] then before else LeafColour(slice, i, depth, dither)
  }

  lemma LeavesAre(before: Palette, p: Palette, s: seq<Rgb>, dither: bool)
    requires WellFormed(before) && WellFormed(p) && BuiltTree(p, s, dither) && Spared(before, p, |s|, 1, 0, p.depth)
    ensures Pow2(p.depth) <= 256
    ensures forall i :: 0 < i < Pow2(p.depth) ==> p.colours[i] == LeafResult(s, p.depth, dither, i, before.colours[i])
  {
    hide Covers, Built, Pow2, LeafColour, LeafSlice, LeafShare, Spared;
    TableBound(p.depth);
    CoversRoot(p.depth);
    forall i | 0 < i < Pow2(p.depth)
      ensures p.colours[i] == LeafResult(s, p.depth, dither, i, before.colours[i])
    {
      if LeafSlice(s, 0, p.depth, i) == [] {
        UnreachedLeaf(before, p, |s|, 1, 0, p.depth, i);
      } else {
        ReachedLeaf(p, s, 1, 0, p.depth, dither, i);
      }
    }
  }

  /** Without pixels no leaf is reached. */
  lemma {:induction false} NothingToShare(lo: nat, k: nat, i: nat)
    requires First(lo) <= i < lo + Pow2(k)
    ensures LeafShare(0, lo, k, i) == 0
    decreases k
  {
    if IsInner(lo, k) {
      if i < lo + Pow2(k - 1) {
        NothingToShare(lo, k - 1, i);
      } else {
        NothingToShare(lo + Pow2(k - 1), k - 1, i);
      }
    }
  }

  // ---------------------------------------------------------------- trees that are not ordered

  const GREY := Rgb(128, 128, 128)
  const WHITE := Rgb(255, 255, 255)

  ghost predicate AllGrey(s: seq<Rgb>)
  {
    forall j :: 0 <= j < |s| ==> s[j] == GREY
  }

  /** A palette cut at grey everywhere, with one leaf on the wrong side of the root's cut. */
  function Misplaced(depth: nat, i: nat): (p: Palette)
    requires 2 <= depth <= 8
    ensures WellFormed(p)
  {
    var colours := seq(256, j => if j != i then GREY else if i < Pow2Half(depth) then WHITE else BLACK);
    Palette(depth, colours, seq(256, m => if m == Pow2Half(depth) then 0 else 1),
            seq(256, m => if m == Pow2Half(depth) then 0 else 128))
  }

  lemma GreyStatistics(s: seq<Rgb>)
    requires AllGrey(s) && s != []
    ensures LargestAxis(s) == 1 && MinOn(s, 1) == 128
    ensures forall elt, depth, dither :: LeafColour(s, elt, depth, dither) == GREY
  {
    forall axis: Axis
      ensures MinOn(s, axis) == 128 && MaxOn(s, axis) == 128 && Mean(s, axis) == 128
    {
      assert s[0] in s;
      MinOnIs(s, axis);
      MaxOnIs(s, axis);
      MeanBounds(s, axis, 128, 128);
    }
  }

  /** A grey image builds that palette as long as none of its pixels reaches the leaf. */
  lemma {:induction false} GreyBuilds(depth: nat, s: seq<Rgb>, node: nat, lo: nat, k: nat, dither: bool, i: nat)
    requires 2 <= depth <= 8 && AllGrey(s) && Covers(depth, node, lo, k) && lo + Pow2(k) <= 256
    requires First(lo) <= i < lo + Pow2(k) ==> LeafShare(|s|, lo, k, i) == 0
    ensures Built(Misplaced(depth, i), s, node, lo, k, dither)
    decreases k
  {
    hide Covers, Built, Pow2, LeafColour, LeftShare, LargestAxis, MinOn, Pow2Half;
    var p := Misplaced(depth, i);
    if s == [] || lo + Pow2(k) <= First(lo) {
      BuiltNothing(p, s, node, lo, k, dither);
    } else if IsInner(lo, k) {
      InnerShape(lo, k);
      BuiltInner(p, s, node, lo, k, dither);
      InnerIsNotHalf(depth, node, lo, k);
      TableBound(depth);
      var a := LeftShare(|s|, lo, k);
      GreyStatistics(s);
      GreyStatistics(s[a..]);
      GreyBuilds(depth, s[..a], 2 * node, lo, k - 1, dither, i);
      GreyBuilds(depth, s[a..], 2 * node + 1, lo + Pow2(k - 1), k - 1, dither, i);
    } else {
      NotInner(lo, k);
      BuiltLeaf(p, s, node, lo, k, dither);
      GreyStatistics(s);
    }
  }

  /** A leaf on the wrong side of the root's cut disorders the tree. */
  lemma RootDisorders(p: Palette, i: nat, v: Byte)
    requires WellFormed(p) && 0 < i < Pow2(p.depth) <= 256 && p.splitElt[1] == 1 && p.split[1] == v
    requires if i < Pow2Half(p.depth) then p.colours[i].g > v else p.colours[i].g < v
    ensures !OrderedTree(p)
  {
    hide Covers, Ordered, Pow2, AtMost, AtLeast, Pow2Half;
    CoversRoot(p.depth);
    HalfOfAll(p.depth);
    if OrderedTree(p) {
      OrderedParts(p, 1, 0, p.depth);
      AtSides(p, i, v);
    }
  }

  lemma AtSides(p: Palette, i: nat, v: Byte)
    requires WellFormed(p) && 0 < i < Pow2(p.depth) <= 256 && Pow2Half(p.depth) <= 256
    requires AtMost(p.colours, 0, Pow2Half(p.depth), 1, v) && AtLeast(p.colours, Pow2Half(p.depth), Pow2(p.depth), 1, v)
    ensures if i < Pow2Half(p.depth) then p.colours[i].g <= v else p.colours[i].g >= v
  {
    hide Pow2, Pow2Half;
    assert Channel(p.colours[i], 1) == p.colours[i].g;
  }

  lemma HalfOfAll(depth: nat)
    requires 2 <= depth <= 8
    ensures Pow2(depth) <= 256 && 1 < Pow2Half(depth) == Pow2(depth - 1) && Pow2(depth) == 2 * Pow2(depth - 1)
  {
    TableBound(depth);
    assert Pow2(depth - 1) == 2 * Pow2(depth - 2);
  }

  /** Some leaf is not reached when there are fewer pixels than leaves. */
  lemma SomeUnreached(depth: nat, n: nat) returns (i: nat)
    requires 2 <= depth <= 8 && n < Pow2(depth) - 1
    ensures 0 < i < Pow2(depth) && LeafShare(n, 0, depth, i) == 0
  {
    hide Pow2, LeafShare;
    HalfOfAll(depth);
    ServedIff(n, 0, depth);
    i :| First(0) <= i < 0 + Pow2(depth) && LeafShare(n, 0, depth, i) == 0;
  }

  function Greys(n: nat): (s: seq<Rgb>)
    ensures |s| == n && AllGrey(s)
  {
    seq(n, _ => GREY)
  }

  /** With fewer pixels than leaves a tree can be built that is not ordered, with or without
      dithering, also after the zero split above the transparent leaf is entered. */
  lemma UnorderedTree(depth: nat, n: nat, dither: bool) returns (p: Palette)
    requires 2 <= depth <= 8 && n < Pow2(depth) - 1
    ensures WellFormed(p) && p.depth == depth && ZeroSplit(p)
    ensures BuiltTree(p, Greys(n), dither) && !OrderedTree(p)
  {
    hide Covers, Built, Pow2, Pow2Half, OrderedTree, LeafShare;
    var i := SomeUnreached(depth, n);
    HalfOfAll(depth);
    CoversRoot(depth);
    p := Misplaced(depth, i);
    GreyBuilds(depth, Greys(n), 1, 0, depth, dither, i);
    RootDisorders(p, i, 128);
  }

  /** All trees built from so many pixels are ordered. */
  ghost predicate AlwaysOrdered(depth: nat, n: nat, dither: bool)
  {
    forall p: Palette, s: seq<Rgb> ::
      WellFormed(p) && p.depth == depth && |s| == n && ZeroSplit(p) && BuiltTree(p, s, dither) ==> OrderedTree(p)
  }

  /** A pixel per leaf is exactly what it takes for the tree to be ordered whatever the pixels
      are and whatever the palette held. */
  lemma AlwaysOrderedIff(depth: nat, n: nat, dither: bool)
    requires 2 <= depth <= 8
    ensures AlwaysOrdered(depth, n, dither) <==> n >= Pow2(depth) - 1
  {
    hide ZeroSplit, BuiltTree, OrderedTree, Pow2;
    if n >= Pow2(depth) - 1 {
      forall p: Palette, s: seq<Rgb> | WellFormed(p) && p.depth == depth && |s| == n && ZeroSplit(p) &&
                                         BuiltTree(p, s, dither)
        ensures OrderedTree(p)
      {
        ZeroSplitIs(p);
        TreeOrdered(p, s, dither);
      }
    } else {
      var p := UnorderedTree(depth, n, dither);
      assert |Greys(n)| == n;
    }
  }

  lemma ZeroSplitIs(p: Palette)
    requires WellFormed(p) && ZeroSplit(p)
    ensures p.split[Pow2Half(p.depth)] == 0
  {
  }

  /** So it happens in the program: a grey image leaves a colour that the palette held before
      at an unreached leaf, and the tree is not ordered if that colour lies on the wrong side. */
  lemma OldColourDisorders(before: Palette, p: Palette, s: seq<Rgb>, dither: bool, i: nat)
    requires WellFormed(before) && WellFormed(p) && AllGrey(s) && s != [] && BuiltTree(p, s, dither)
    requires 0 < i < Pow2(p.depth) <= 256 && LeafShare(|s|, 0, p.depth, i) == 0
    requires Spared(before, p, |s|, 1, 0, p.depth)
    requires if i < Pow2Half(p.depth) then before.colours[i].g > 128 else before.colours[i].g < 128
    ensures !OrderedTree(p)
  {
    hide Covers, Built, Pow2, Pow2Half, OrderedTree, LeafShare, Spared, LeftShare, LargestAxis, MinOn;
    CoversRoot(p.depth);
    HalfOfAll(p.depth);
    UnreachedLeaf(before, p, |s|, 1, 0, p.depth, i);
    RootCut(p, s, dither);
    RootDisorders(p, i, 128);
  }

  lemma RootCut(p: Palette, s: seq<Rgb>, dither: bool)
    requires WellFormed(p) && AllGrey(s) && s != [] && BuiltTree(p, s, dither)
    ensures p.splitElt[1] == 1 && p.split[1] == 128
  {
    hide Covers, Built, Pow2, LeftShare, LargestAxis, MinOn;
    HalfOfAll(p.depth);
    CoversRoot(p.depth);
    BuiltInner(p, s, 1, 0, p.depth, dither);
    GreyStatistics(s);
    GreyStatistics(s[LeftShare(|s|, 0, p.depth)..]);
  }
}
