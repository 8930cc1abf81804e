/** Building a palette by splitting the pixels of the working copy in place. */
module SplitPalette {
  import opened Arithmetic
  import opened Bits
  import opened Colours
  import opened Median
  import opened MedianSplit
  import opened MedianTree
  import opened PaletteSearch

  /** A palette under construction; nothing is known of its contents at first. */
  class GifPalette {
    var bitDepth: nat
    const colours: array<Rgb>
    const treeSplitElt: array<Axis>
    const treeSplit: array<Byte>

    constructor (bitDepth: nat)
      ensures this.bitDepth == bitDepth
      ensures colours.Length == treeSplitElt.Length == treeSplit.Length == 256
      ensures fresh(colours) && fresh(treeSplitElt) && fresh(treeSplit)
    {
      this.bitDepth := bitDepth;
      colours := new Rgb[256];
      treeSplitElt := new Axis[256];
      treeSplit := new Byte[256];
    }

    predicate Valid()
      reads this
    {
      2 <= bitDepth <= 8 && colours.Length == treeSplitElt.Length == treeSplit.Length == 256
    }

    function Value(): (p: Palette)
      reads this, colours, treeSplitElt, treeSplit
      requires Valid()
      ensures WellFormed(p)
    {
      Palette(bitDepth, colours[..], treeSplitElt[..], treeSplit[..])
    }
  }

  // ---------------------------------------------------------------- which entries a call touches

  /** `m` is `node` or one of its descendants. */
  ghost predicate Under(m: nat, node: nat)
  {
    m == node || (m > node && Under(m / 2, node))
  }

  lemma {:induction false} UnderChild(m: nat, node: nat, child: nat)
    requires node > 0 && (child == 2 * node || child == 2 * node + 1)
    ensures Under(m, child) ==> Under(m, node) && m > node
  {
    if Under(m, child) && m != child {
      UnderChild(m / 2, node, child);
    }
  }

  lemma {:induction false} SiblingsApart(m: nat, node: nat)
    requires node > 0 && Under(m, 2 * node)
    ensures !Under(m, 2 * node + 1)
  {
    if m > 2 * node + 1 {
      SiblingsApart(m / 2, node);
    }
  }

  /** `q` differs from `p` only in the colours from .. to and at nodes below `node`. */
  ghost predicate Differs(p: Palette, q: Palette, node: nat, from: nat, to: nat)
  {
    && WellFormed(p) && WellFormed(q) && p.depth == q.depth
    && (forall i :: 0 <= i < 256 && !(from <= i < to) ==> p.colours[i] == q.colours[i])
    && (forall m :: 0 <= m < 256 && !Under(m, node) ==> p.splitElt[m] == q.splitElt[m] && p.split[m] == q.split[m])
  }

  /** The entries that belong to the coloured leaves of lo .. lo + 2^k. */
  ghost predicate Outside(p: Palette, q: Palette, node: nat, lo: nat, k: nat)
  {
    Differs(p, q, node, First(lo), lo + Pow2(k))
  }

  /** `q` agrees with `p` on those entries. */
  ghost predicate Inside(p: Palette, q: Palette, node: nat, lo: nat, k: nat)
  {
    && WellFormed(p) && WellFormed(q) && p.depth == q.depth
    && (forall i :: 0 <= i < 256 && First(lo) <= i < lo + Pow2(k) ==> p.colours[i] == q.colours[i])
    && (forall m :: 0 <= m < 256 && Under(m, node) && m != Pow2Half(p.depth) ==>
          p.splitElt[m] == q.splitElt[m] && p.split[m] == q.split[m])
  }

  lemma InsideChildren(p: Palette, q: Palette, node: nat, lo: nat, k: nat)
    requires Inside(p, q, node, lo, k) && IsInner(lo, k) && node > 0
    ensures Inside(p, q, 2 * node, lo, k - 1) && Inside(p, q, 2 * node + 1, lo + Pow2(k - 1), k - 1)
  {
    InnerShape(lo, k);
    forall m | 0 <= m < 256
      ensures Under(m, 2 * node) || Under(m, 2 * node + 1) ==> Under(m, node)
    {
      UnderChild(m, node, 2 * node);
      UnderChild(m, node, 2 * node + 1);
    }
  }

  /** Inner nodes of the coloured tree are never the node above the transparent leaf. */
  lemma InnerIsNotHalf(depth: nat, node: nat, lo: nat, k: nat)
    requires 2 <= depth <= 8 && Covers(depth, node, lo, k) && IsInner(lo, k)
    ensures node != Pow2Half(depth)
  {
    var half := Pow2Half(depth);
    assert Pow2(depth) == 2 * half;
    assert Pow2(1) == 2;
    InnerWidth(lo, k);
    hide Pow2;
    if k >= 2 {
      Pow2Monotonic(2, k);
      Pow2Eight();
      MulMonotonic(4, Pow2(k), half);
    }
  }

  lemma InnerWidth(lo: nat, k: nat)
    requires IsInner(lo, k)
    ensures k == 1 ==> lo > 0
  {
  }

  /** What was built stays built while only other entries change. */
  lemma {:induction false} BuiltFrame(p: Palette, q: Palette, s: seq<Rgb>, node: nat, lo: nat, k: nat, dither: bool)
    requires WellFormed(p) && WellFormed(q) && p.depth == q.depth
    requires Inside(p, q, node, lo, k) && Covers(p.depth, node, lo, k)
    requires Built(p, s, node, lo, k, dither)
    ensures Built(q, s, node, lo, k, dither)
    decreases k
  {
    hide Covers, Built, Pow2, Cut, LeafColour, Inside, Under, IsInner;
    if s == [] || lo + Pow2(k) <= First(lo) {
      BuiltNothing(q, s, node, lo, k, dither);
    } else if IsInner(lo, k) {
      InnerShape(lo, k);
      CoversChildren(p.depth, node, lo, k);
      BuiltInner(p, s, node, lo, k, dither);
      BuiltInner(q, s, node, lo, k, dither);
      InsideChildren(p, q, node, lo, k);
      var a := LeftShare(|s|, lo, k);
      SameCut(p, q, s, a, node, lo, k);
      BuiltFrame(p, q, s[..a], 2 * node, lo, k - 1, dither);
      BuiltFrame(p, q, s[a..], 2 * node + 1, lo + Pow2(k - 1), k - 1, dither);
    } else {
      NotInner(lo, k);
      BuiltLeaf(p, s, node, lo, k, dither);
      BuiltLeaf(q, s, node, lo, k, dither);
      SameLeaf(p, q, node, lo, k);
    }
  }

  lemma BuiltNothing(p: Palette, s: seq<Rgb>, node: nat, lo: nat, k: nat, dither: bool)
    requires WellFormed(p) && Covers(p.depth, node, lo, k)
    requires s == [] || lo + Pow2(k) <= First(lo)
    ensures Built(p, s, node, lo, k, dither)
  {
  }

  lemma SameLeaf(p: Palette, q: Palette, node: nat, lo: nat, k: nat)
    requires Inside(p, q, node, lo, k) && First(lo) < lo + Pow2(k) && First(lo) < 256
    ensures WellFormed(p) && WellFormed(q) && p.depth == q.depth && p.colours[First(lo)] == q.colours[First(lo)]
  {
  }

  lemma SameCut(p: Palette, q: Palette, s: seq<Rgb>, a: nat, node: nat, lo: nat, k: nat)
    requires Inside(p, q, node, lo, k) && Covers(p.depth, node, lo, k) && IsInner(lo, k) && node < 256 && a <= |s|
    ensures WellFormed(p) && WellFormed(q)
    ensures Cut(p, s, a, node) <==> Cut(q, s, a, node)
  {
    InnerIsNotHalf(p.depth, node, lo, k);
    assert Under(node, node);
  }

  /** With `n` pixels for the node, the entries of every subtree that no pixel reaches are the
      same in `p` and `q`. */
  ghost predicate Spared(p: Palette, q: Palette, n: nat, node: nat, lo: nat, k: nat)
    decreases k
  {
    if n == 0 then Inside(p, q, node, lo, k)
    else if IsInner(lo, k) then
      && Spared(p, q, LeftShare(n, lo, k), 2 * node, lo, k - 1)
      && Spared(p, q, n - LeftShare(n, lo, k), 2 * node + 1, lo + Pow2(k - 1), k - 1)
    else true
  }

  lemma {:induction false} SparedSelf(p: Palette, n: nat, node: nat, lo: nat, k: nat)
    requires WellFormed(p)
    ensures Spared(p, p, n, node, lo, k)
    decreases k
  {
    hide LeftShare, Pow2;
    if n > 0 && IsInner(lo, k) {
      SparedSelf(p, LeftShare(n, lo, k), 2 * node, lo, k - 1);
      SparedSelf(p, n - LeftShare(n, lo, k), 2 * node + 1, lo + Pow2(k - 1), k - 1);
    }
  }

  lemma InsideSelf(p: Palette, node: nat, lo: nat, k: nat)
    requires WellFormed(p)
    ensures Inside(p, p, node, lo, k)
  {
  }

  lemma InsideBack(p: Palette, q: Palette, node: nat, lo: nat, k: nat)
    requires Inside(p, q, node, lo, k)
    ensures Inside(q, p, node, lo, k)
  {
  }

  lemma InsideTwice(p: Palette, q: Palette, r: Palette, node: nat, lo: nat, k: nat)
    requires Inside(p, q, node, lo, k) && Inside(q, r, node, lo, k)
    ensures Inside(p, r, node, lo, k)
  {
  }

  /** What was spared stays spared while only other entries change. */
  lemma {:induction false} SparedFrame(p: Palette, q: Palette, p': Palette, q': Palette, n: nat, node: nat, lo: nat,
                                       k: nat)
    requires node > 0 && Inside(p, p', node, lo, k) && Inside(q, q', node, lo, k) && Spared(p, q, n, node, lo, k)
    ensures Spared(p', q', n, node, lo, k)
    decreases k
  {
    hide Inside, LeftShare, Pow2, Under, IsInner;
    if n == 0 {
      InsideBack(p, p', node, lo, k);
      InsideTwice(p', p, q, node, lo, k);
      InsideTwice(p', q, q', node, lo, k);
    } else if IsInner(lo, k) {
      InnerShape(lo, k);
      InsideChildren(p, p', node, lo, k);
      InsideChildren(q, q', node, lo, k);
      SparedFrame(p, q, p', q', LeftShare(n, lo, k), 2 * node, lo, k - 1);
      SparedFrame(p, q, p', q', n - LeftShare(n, lo, k), 2 * node + 1, lo + Pow2(k - 1), k - 1);
    }
  }

  // ---------------------------------------------------------------- the program

  /** The range loop: smallest and largest value of every channel, then the axis. */
  method FindAxis(image: array<Rgb>, off: nat, numPixels: nat) returns (splitCom: Axis)
    requires off + numPixels <= image.Length
    ensures splitCom == LargestAxis(image[off..off + numPixels])
    ensures numPixels > 0 ==> SplitAxis(image[off..off + numPixels], splitCom)
  {
    ghost var s := image[off..off + numPixels];
    var minR: int, maxR: int := 255, 0;
    var minG: int, maxG: int := 255, 0;
    var minB: int, maxB: int := 255, 0;
    for ii := 0 to numPixels
      invariant minR == MinOn(s[..ii], 0) && minG == MinOn(s[..ii], 1) && minB == MinOn(s[..ii], 2)
      invariant maxR == MaxOn(s[..ii], 0) && maxG == MaxOn(s[..ii], 1) && maxB == MaxOn(s[..ii], 2)
    {
      assert s[..ii + 1][..ii] == s[..ii];
      var c := image[off + ii];
      if c.r > maxR { maxR := c.r; }
      if c.r < minR { minR := c.r; }
      if c.g > maxG { maxG := c.g; }
      if c.g < minG { minG := c.g; }
      if c.b > maxB { maxB := c.b; }
      if c.b < minB { minB := c.b; }
    }
    assert s[..numPixels] == s;
    var rRange, gRange, bRange := maxR - minR, maxG - minG, maxB - minB;
    splitCom := 1;
    if bRange > gRange { splitCom := 2; }
    if rRange > bRange && rRange > gRange { splitCom := 0; }
    if numPixels > 0 {
      LargestAxisIs(s, splitCom);
    }
  }

  method Darkest(image: array<Rgb>, off: nat, numPixels: nat) returns (c: Rgb)
    requires off + numPixels <= image.Length
    ensures var s := image[off..off + numPixels]; c == Rgb(MinOn(s, 0), MinOn(s, 1), MinOn(s, 2))
  {
    ghost var s := image[off..off + numPixels];
    var r, g, b := 255, 255, 255;
    for ii := 0 to numPixels
      invariant r == MinOn(s[..ii], 0) && g == MinOn(s[..ii], 1) && b == MinOn(s[..ii], 2)
    {
      assert s[..ii + 1][..ii] == s[..ii];
      var p := image[off + ii];
      r, g, b := if p.r < r then p.r else r, if p.g < g then p.g else g, if p.b < b then p.b else b;
    }
    assert s[..numPixels] == s;
    c := Rgb(r, g, b);
  }

  method Lightest(image: array<Rgb>, off: nat, numPixels: nat) returns (c: Rgb)
    requires off + numPixels <= image.Length
    ensures var s := image[off..off + numPixels]; c == Rgb(MaxOn(s, 0), MaxOn(s, 1), MaxOn(s, 2))
  {
    ghost var s := image[off..off + numPixels];
    var r, g, b := 0, 0, 0;
    for ii := 0 to numPixels
      invariant r == MaxOn(s[..ii], 0) && g == MaxOn(s[..ii], 1) && b == MaxOn(s[..ii], 2)
    {
      assert s[..ii + 1][..ii] == s[..ii];
      var p := image[off + ii];
      r, g, b := if p.r > r then p.r else r, if p.g > g then p.g else g, if p.b > b then p.b else b;
    }
    assert s[..numPixels] == s;
    c := Rgb(r, g, b);
  }

  method Average(image: array<Rgb>, off: nat, numPixels: nat) returns (c: Rgb)
    requires off + numPixels <= image.Length && numPixels > 0
    ensures var s := image[off..off + numPixels]; c == Rgb(Mean(s, 0), Mean(s, 1), Mean(s, 2))
  {
    ghost var s := image[off..off + numPixels];
    var r, g, b := 0, 0, 0;
    for ii := 0 to numPixels
      invariant r == Sum(s[..ii], 0) && g == Sum(s[..ii], 1) && b == Sum(s[..ii], 2)
    {
      assert s[..ii + 1][..ii] == s[..ii];
      var p := image[off + ii];
      r, g, b := r + p.r, g + p.g, b + p.b;
    }
    assert s[..numPixels] == s;
    r, g, b := r + numPixels / 2, g + numPixels / 2, b + numPixels / 2;
    assert r / numPixels == Mean(s, 0) && g / numPixels == Mean(s, 1) && b / numPixels == Mean(s, 2);
    c := Rgb(r / numPixels, g / numPixels, b / numPixels);
  }

  /** The bottom of the tree. */
  method FindLeafColour(image: array<Rgb>, off: nat, numPixels: nat, elt: nat, bitDepth: nat, buildForDither: bool)
    returns (c: Rgb)
    requires off + numPixels <= image.Length && numPixels > 0
    ensures c == LeafColour(image[off..off + numPixels], elt, bitDepth, buildForDither)
  {
    if buildForDither {
      if elt == 1 {
        c := Darkest(image, off, numPixels);
        return;
      }
      if elt == Pow2(bitDepth) - 1 {
        c := Lightest(image, off, numPixels);
        return;
      }
    }
    c := Average(image, off, numPixels);
  }

  /** How the loop variables of the recursion describe the subtree lo .. lo + 2^k. */
  ghost predicate Shape(firstElt: nat, lastElt: nat, splitElt: int, splitDist: nat, lo: nat, k: nat)
  {
    && firstElt == First(lo) && lastElt == lo + Pow2(k)
    && (k >= 1 ==> splitElt == lo + Pow2(k - 1))
    && splitDist == if k >= 2 then Pow2(k - 2) else 0
  }

  lemma ShapeChildren(firstElt: nat, lastElt: nat, splitElt: int, splitDist: nat, lo: nat, k: nat)
    requires Shape(firstElt, lastElt, splitElt, splitDist, lo, k) && lastElt > firstElt + 1
    ensures IsInner(lo, k) && firstElt < splitElt < lastElt && splitElt == lo + Pow2(k - 1)
    ensures Shape(firstElt, splitElt, splitElt - splitDist, splitDist / 2, lo, k - 1)
    ensures Shape(splitElt, lastElt, splitElt + splitDist, splitDist / 2, splitElt, k - 1)
  {
    if k >= 3 {
      assert Pow2(k - 2) == 2 * Pow2(k - 3);
    }
    if k >= 2 {
      assert Pow2(k - 1) == 2 * Pow2(k - 2);
    }
  }

  method PutColour(pal: GifPalette, elt: nat, c: Rgb)
    requires pal.Valid() && elt < 256
    modifies pal.colours
    ensures pal.Value() == old(pal.Value()).(colours := old(pal.colours[..])[elt := c])
  {
    pal.colours[elt] := c;
  }

  method PutSplit(pal: GifPalette, node: nat, axis: Axis, v: Byte)
    requires pal.Valid() && node < 256
    modifies pal.treeSplitElt, pal.treeSplit
    ensures pal.Value() ==
            old(pal.Value()).(splitElt := old(pal.treeSplitElt[..])[node := axis],
                              split := old(pal.treeSplit[..])[node := v])
  {
    pal.treeSplitElt[node] := axis;
    pal.treeSplit[node] := v;
  }

  lemma LeafEntered(p: Palette, s: seq<Rgb>, node: nat, lo: nat, k: nat, dither: bool)
    requires WellFormed(p) && Covers(p.depth, node, lo, k) && s != [] && lo + Pow2(k) == First(lo) + 1
    ensures First(lo) < 256
    ensures var q := p.(colours := p.colours[First(lo) := LeafColour(s, First(lo), p.depth, dither)]);
            WellFormed(q) && Built(q, s, node, lo, k, dither) && Outside(p, q, node, lo, k)
  {
    BuiltLeaf(p, s, node, lo, k, dither);
    var q := p.(colours := p.colours[First(lo) := LeafColour(s, First(lo), p.depth, dither)]);
    BuiltLeaf(q, s, node, lo, k, dither);
  }

  /** The four states of the pixels around the two recursive calls. */
  ghost predicate Sorted(i0: seq<Rgb>, i1: seq<Rgb>, i2: seq<Rgb>, i3: seq<Rgb>, off: nat, a: nat, n: nat)
  {
    && off + n <= |i0| && a < n
    && Permuted(i0, i1, off, off + n) && Permuted(i1, i2, off, off + a) && Permuted(i2, i3, off + a, off + n)
  }

  lemma SortedWhole(i0: seq<Rgb>, i1: seq<Rgb>, i2: seq<Rgb>, i3: seq<Rgb>, off: nat, a: nat, n: nat)
    requires Sorted(i0, i1, i2, i3, off, a, n)
    ensures |i1| == |i2| == |i3| == |i0| && Permuted(i0, i3, off, off + n)
  {
    PermutedWiden(i1, i2, off, off + a, off, off + n);
    PermutedWiden(i2, i3, off + a, off + n, off, off + n);
    PermutedTransitive(i0, i1, i2, off, off + n);
    PermutedTransitive(i0, i2, i3, off, off + n);
  }

  lemma SortedParts(i0: seq<Rgb>, i1: seq<Rgb>, i2: seq<Rgb>, i3: seq<Rgb>, off: nat, a: nat, n: nat)
    requires Sorted(i0, i1, i2, i3, off, a, n)
    ensures |i1| == |i2| == |i3| == |i0|
    ensures i3[off..off + n][..a] == i3[off..off + a] == i2[off..off + a]
    ensures i3[off..off + n][a..] == i3[off + a..off + n]
    ensures multiset(i3[off..off + a]) == multiset(i1[off..off + a])
    ensures multiset(i3[off + a..off + n]) == multiset(i1[off + a..off + n])
  {
    SortedWhole(i0, i1, i2, i3, off, a, n);
    PermutedElsewhere(i2, i3, off + a, off + n, off, off + a);
    PermutedElsewhere(i1, i2, off, off + a, off + a, off + n);
  }

  /** The median cut is still a cut after both parts have been rearranged. */
  lemma CutSurvives(p: Palette, node: nat, i0: seq<Rgb>, i1: seq<Rgb>, i2: seq<Rgb>, i3: seq<Rgb>, off: nat, a: nat,
                    n: nat)
    requires Sorted(i0, i1, i2, i3, off, a, n) && |i1| == |i0|
    requires WellFormed(p) && node < 256
    requires p.splitElt[node] == LargestAxis(i0[off..off + n])
    requires SplitAt(i1, off, off + a, off + n, p.splitElt[node]) &&
             p.split[node] == Channel(i1[off + a], p.splitElt[node])
    ensures |i3| == |i0| && Cut(p, i3[off..off + n], a, node)
  {
    SortedParts(i0, i1, i2, i3, off, a, n);
    SortedWhole(i0, i1, i2, i3, off, a, n);
    var s, axis := i3[off..off + n], p.splitElt[node];
    StatisticsPermute(i0[off..off + n], s);
    StatisticsPermute(i1[off + a..off + n], s[a..]);
    SmallestFirst(i1[off + a..off + n], axis);
    SameMembers(i1[off..off + a], s[..a]);
    forall i | 0 <= i < a
      ensures Channel(s[i], axis) <= p.split[node]
    {
      assert s[i] == s[..a][i];
      assert s[i] in i1[off..off + a];
    }
  }

  lemma SmallestFirst(s: seq<Rgb>, axis: Axis)
    requires s != [] && forall i :: 0 <= i < |s| ==> Channel(s[i], axis) >= Channel(s[0], axis)
    ensures MinOn(s, axis) == Channel(s[0], axis)
  {
    MinOnIs(s, axis);
    assert s[0] in s;
  }

  /** A call below one child leaves the other child and the node itself alone. */
  lemma SiblingInside(p: Palette, q: Palette, node: nat, lo: nat, k: nat)
    requires IsInner(lo, k) && node > 0 && Outside(p, q, 2 * node + 1, lo + Pow2(k - 1), k - 1)
    ensures Inside(p, q, 2 * node, lo, k - 1)
  {
    InnerShape(lo, k);
    forall m | 0 <= m < 256 && Under(m, 2 * node)
      ensures !Under(m, 2 * node + 1)
    {
      SiblingsApart(m, node);
    }
  }

  lemma OtherSiblingInside(p: Palette, q: Palette, node: nat, lo: nat, k: nat)
    requires IsInner(lo, k) && node > 0 && Outside(p, q, 2 * node, lo, k - 1)
    ensures Inside(p, q, 2 * node + 1, lo + Pow2(k - 1), k - 1)
  {
    InnerShape(lo, k);
    forall m | 0 <= m < 256 && Under(m, 2 * node + 1)
      ensures !Under(m, 2 * node)
    {
      if Under(m, 2 * node) {
        SiblingsApart(m, node);
      }
    }
  }

  /** A split entered at the node is in neither subtree. */
  lemma NodeApart(p: Palette, q: Palette, node: nat, lo: nat, k: nat)
    requires IsInner(lo, k) && 0 < node < 256
    requires WellFormed(p) && WellFormed(q) && q.depth == p.depth && q.colours == p.colours
    requires q.splitElt == p.splitElt[node := q.splitElt[node]] && q.split == p.split[node := q.split[node]]
    ensures Inside(q, p, 2 * node, lo, k - 1) && Inside(q, p, 2 * node + 1, lo + Pow2(k - 1), k - 1)
  {
    forall m | 0 <= m < 256
      ensures Under(m, 2 * node) || Under(m, 2 * node + 1) ==> m > node
    {
      UnderChild(m, node, 2 * node);
      UnderChild(m, node, 2 * node + 1);
    }
  }

  /** The sparing of a node from that of its parts. */
  lemma NodeSpared(p0: Palette, p1: Palette, p2: Palette, p3: Palette, n: nat, node: nat, lo: nat, k: nat)
    requires IsInner(lo, k) && 0 < node < 256 && n > 0
    requires WellFormed(p0) && WellFormed(p1) && p1.depth == p0.depth && p1.colours == p0.colours
    requires p1.splitElt == p0.splitElt[node := p1.splitElt[node]] && p1.split == p0.split[node := p1.split[node]]
    requires WellFormed(p3) && Outside(p1, p2, 2 * node, lo, k - 1) &&
             Outside(p2, p3, 2 * node + 1, lo + Pow2(k - 1), k - 1)
    requires Spared(p1, p2, LeftShare(n, lo, k), 2 * node, lo, k - 1)
    requires Spared(p2, p3, n - LeftShare(n, lo, k), 2 * node + 1, lo + Pow2(k - 1), k - 1)
    ensures Spared(p0, p3, n, node, lo, k)
  {
    var a, left, right, mid, h := LeftShare(n, lo, k), 2 * node, 2 * node + 1, lo + Pow2(k - 1), k - 1;
    NodeApart(p0, p1, node, lo, k);
    SiblingInside(p2, p3, node, lo, k);
    OtherSiblingInside(p1, p2, node, lo, k);
    hide Inside, Outside, LeftShare, Pow2, Under, IsInner;
    SparedFrame(p1, p2, p0, p3, a, left, lo, h);
    InsideBack(p1, p2, right, mid, h);
    InsideTwice(p2, p1, p0, right, mid, h);
    InsideSelf(p3, right, mid, h);
    SparedFrame(p2, p3, p0, p3, n - a, right, mid, h);
  }

  lemma OutsideTwice(p0: Palette, p1: Palette, p2: Palette, p3: Palette, node: nat, lo: nat, k: nat)
    requires IsInner(lo, k) && 0 < node < 256
    requires WellFormed(p0) && WellFormed(p1) && p1.depth == p0.depth && p1.colours == p0.colours
    requires p1.splitElt == p0.splitElt[node := p1.splitElt[node]] && p1.split == p0.split[node := p1.split[node]]
    requires Outside(p1, p2, 2 * node, lo, k - 1) && Outside(p2, p3, 2 * node + 1, lo + Pow2(k - 1), k - 1)
    ensures Outside(p0, p3, node, lo, k)
    ensures p3.splitElt[node] == p1.splitElt[node] && p3.split[node] == p1.split[node]
  {
    InnerShape(lo, k);
    forall m | 0 <= m < 256
      ensures Under(m, 2 * node) || Under(m, 2 * node + 1) ==> Under(m, node) && m > node
    {
      UnderChild(m, node, 2 * node);
      UnderChild(m, node, 2 * node + 1);
    }
  }

  /** A node of the tree from its parts. */
  lemma NodeBuilt(p0: Palette, p1: Palette, p2: Palette, p3: Palette, s: seq<Rgb>, node: nat, lo: nat, k: nat,
                  dither: bool)
    requires WellFormed(p0) && Covers(p0.depth, node, lo, k) && k > 0 && IsInner(lo, k) && 0 < node < 256 && s != []
    requires WellFormed(p1) && p1.depth == p0.depth && p1.colours == p0.colours
    requires p1.splitElt == p0.splitElt[node := p1.splitElt[node]] && p1.split == p0.split[node := p1.split[node]]
    requires Outside(p1, p2, 2 * node, lo, k - 1) && Outside(p2, p3, 2 * node + 1, lo + Pow2(k - 1), k - 1)
    requires Covers(p0.depth, 2 * node, lo, k - 1) && Covers(p0.depth, 2 * node + 1, lo + Pow2(k - 1), k - 1)
    requires var a := LeftShare(|s|, lo, k);
             && Cut(p1, s, a, node)
             && WellFormed(p2) && p2.depth == p0.depth && WellFormed(p3) && p3.depth == p0.depth
             && Built(p2, s[..a], 2 * node, lo, k - 1, dither)
             && Built(p3, s[a..], 2 * node + 1, lo + Pow2(k - 1), k - 1, dither)
    ensures Outside(p0, p3, node, lo, k) && Built(p3, s, node, lo, k, dither)
  {
    hide Covers, Built, Pow2, LeafColour, Inside, Outside, IsInner, LargestAxis, MinOn;
    OutsideTwice(p0, p1, p2, p3, node, lo, k);
    SiblingInside(p2, p3, node, lo, k);
    BuiltFrame(p2, p3, s[..LeftShare(|s|, lo, k)], 2 * node, lo, k - 1, dither);
    BuiltInner(p3, s, node, lo, k, dither);
  }

  /** Cuts the pixels off .. off + numPixels along their largest axis, colours the leaves
      below the node and enters the splits, rearranging the pixels as it goes. */
  method Split(image: array<Rgb>, off: nat, numPixels: nat, firstElt: nat, lastElt: nat, splitElt: int, splitDist: nat,
               treeNode: nat, buildForDither: bool, pal: GifPalette, ghost lo: nat, ghost k: nat)
    requires pal.Valid() && Covers(pal.bitDepth, treeNode, lo, k)
    requires Shape(firstElt, lastElt, splitElt, splitDist, lo, k)
    requires off + numPixels <= image.Length && image != pal.colours
    modifies image, pal.colours, pal.treeSplitElt, pal.treeSplit
    ensures Permuted(old(image[..]), image[..], off, off + numPixels)
    ensures Built(pal.Value(), image[off..off + numPixels], treeNode, lo, k, buildForDither)
    ensures Outside(old(pal.Value()), pal.Value(), treeNode, lo, k)
    ensures numPixels == 0 ==> pal.Value() == old(pal.Value())
    ensures Spared(old(pal.Value()), pal.Value(), numPixels, treeNode, lo, k)
    decreases k
  {
    hide Covers, Built, Pow2, LeafColour, Outside, IsInner, Permuted, Shape, First, Spared;
    PermutedSelf(image[..], off, off + numPixels);
    ShapeIs(firstElt, lastElt, splitElt, splitDist, lo, k);
    CoversChildren(pal.bitDepth, treeNode, lo, k);
    TableBound(pal.bitDepth);
    if lastElt <= firstElt || numPixels == 0 {
      BuiltNothing(pal.Value(), image[off..off + numPixels], treeNode, lo, k, buildForDither);
      OutsideSelf(pal.Value(), treeNode, lo, k);
      SparedSelf(pal.Value(), numPixels, treeNode, lo, k);
    } else if lastElt == firstElt + 1 {
      LeafEntered(pal.Value(), image[off..off + numPixels], treeNode, lo, k, buildForDither);
      var c := FindLeafColour(image, off, numPixels, firstElt, pal.bitDepth, buildForDither);
      PutColour(pal, firstElt, c);
      LeafSpared(old(pal.Value()), pal.Value(), numPixels, treeNode, lo, k);
    } else {
      ShapeChildren(firstElt, lastElt, splitElt, splitDist, lo, k);
      SplitInner(image, off, numPixels, firstElt, lastElt, splitElt, splitDist, treeNode, buildForDither, pal, lo, k);
    }
  }

  lemma LeafSpared(p: Palette, q: Palette, n: nat, node: nat, lo: nat, k: nat)
    requires n > 0 && lo + Pow2(k) == First(lo) + 1
    ensures Spared(p, q, n, node, lo, k)
  {
  }

  lemma ShapeIs(firstElt: nat, lastElt: nat, splitElt: int, splitDist: nat, lo: nat, k: nat)
    requires Shape(firstElt, lastElt, splitElt, splitDist, lo, k)
    ensures firstElt == First(lo) && lastElt == lo + Pow2(k)
  {
  }

  lemma OutsideSelf(p: Palette, node: nat, lo: nat, k: nat)
    requires WellFormed(p)
    ensures Outside(p, p, node, lo, k)
  {
  }

  /** Partitions the pixels at the proportional share and enters the split. */
  method CutNode(image: array<Rgb>, off: nat, numPixels: nat, firstElt: nat, lastElt: nat, splitElt: nat,
                 treeNode: nat, pal: GifPalette) returns (subPixelsA: nat)
    requires pal.Valid() && treeNode < 256 && firstElt <= splitElt < lastElt
    requires off + numPixels <= image.Length && image != pal.colours && numPixels > 0
    modifies image, pal.treeSplitElt, pal.treeSplit
    ensures subPixelsA == numPixels * (splitElt - firstElt) / (lastElt - firstElt) < numPixels
    ensures Permuted(old(image[..]), image[..], off, off + numPixels)
    ensures var p, axis := pal.Value(), LargestAxis(old(image[off..off + numPixels]));
            && SplitAt(image[..], off, off + subPixelsA, off + numPixels, axis)
            && p.splitElt[treeNode] == axis && p.split[treeNode] == Channel(image[off + subPixelsA], axis)
            && p.splitElt == old(pal.Value()).splitElt[treeNode := p.splitElt[treeNode]]
            && p.split == old(pal.Value()).split[treeNode := p.split[treeNode]]
            && p.colours == old(pal.Value()).colours
  {
    hide Permuted, LargestAxis, SplitAt, SplitAxis;
    var splitCom := FindAxis(image, off, numPixels);
    ShareBounds(numPixels, splitElt - firstElt, lastElt - firstElt);
    subPixelsA := numPixels * (splitElt - firstElt) / (lastElt - firstElt);
    PartitionByMedian(image, off, off + numPixels, splitCom, off + subPixelsA);
    PutSplit(pal, treeNode, splitCom, Channel(image[off + subPixelsA], splitCom));
  }

  /** The two recursive calls after a cut complete the node. */
  lemma NodeDone(p0: Palette, p1: Palette, p2: Palette, p3: Palette, i0: seq<Rgb>, i1: seq<Rgb>, i2: seq<Rgb>,
                 i3: seq<Rgb>, off: nat, a: nat, n: nat, node: nat, lo: nat, k: nat, dither: bool)
    requires Sorted(i0, i1, i2, i3, off, a, n) && |i1| == |i2| == |i3| == |i0|
    requires WellFormed(p0) && Covers(p0.depth, node, lo, k) && k > 0 && IsInner(lo, k) && 0 < node < 256
    requires a == LeftShare(n, lo, k)
    requires WellFormed(p1) && p1.depth == p0.depth && p1.colours == p0.colours
    requires p1.splitElt == p0.splitElt[node := p1.splitElt[node]] && p1.split == p0.split[node := p1.split[node]]
    requires p1.splitElt[node] == LargestAxis(i0[off..off + n])
    requires SplitAt(i1, off, off + a, off + n, p1.splitElt[node]) &&
             p1.split[node] == Channel(i1[off + a], p1.splitElt[node])
    requires Outside(p1, p2, 2 * node, lo, k - 1) && Outside(p2, p3, 2 * node + 1, lo + Pow2(k - 1), k - 1)
    requires Covers(p0.depth, 2 * node, lo, k - 1) && Covers(p0.depth, 2 * node + 1, lo + Pow2(k - 1), k - 1)
    requires WellFormed(p2) && p2.depth == p0.depth && WellFormed(p3) && p3.depth == p0.depth
    requires Built(p2, i2[off..off + a], 2 * node, lo, k - 1, dither)
    requires Built(p3, i3[off + a..off + n], 2 * node + 1, lo + Pow2(k - 1), k - 1, dither)
    ensures Permuted(i0, i3, off, off + n)
    ensures Outside(p0, p3, node, lo, k) && Built(p3, i3[off..off + n], node, lo, k, dither)
  {
    hide Covers, Built, Pow2, Outside, IsInner, Permuted, LargestAxis, SplitAt, Cut;
    SortedWhole(i0, i1, i2, i3, off, a, n);
    SortedParts(i0, i1, i2, i3, off, a, n);
    CutSurvives(p1, node, i0, i1, i2, i3, off, a, n);
    NodeBuilt(p0, p1, p2, p3, i3[off..off + n], node, lo, k, dither);
  }

  /** The inner case: partition by the median, enter the split, recurse on both parts. */
  method SplitInner(image: array<Rgb>, off: nat, numPixels: nat, firstElt: nat, lastElt: nat, splitElt: nat,
                    splitDist: nat, treeNode: nat, buildForDither: bool, pal: GifPalette, ghost lo: nat, ghost k: nat)
    requires pal.Valid() && Covers(pal.bitDepth, treeNode, lo, k) && k > 0 && IsInner(lo, k)
    requires Shape(firstElt, lastElt, splitElt, splitDist, lo, k) && firstElt < splitElt < lastElt
    requires off + numPixels <= image.Length && image != pal.colours && numPixels > 0
    modifies image, pal.colours, pal.treeSplitElt, pal.treeSplit
    ensures Permuted(old(image[..]), image[..], off, off + numPixels)
    ensures Built(pal.Value(), image[off..off + numPixels], treeNode, lo, k, buildForDither)
    ensures Outside(old(pal.Value()), pal.Value(), treeNode, lo, k)
    ensures Spared(old(pal.Value()), pal.Value(), numPixels, treeNode, lo, k)
    decreases k, 0
  {
    hide Covers, Built, Pow2, Outside, IsInner, Permuted, Shape, First, LargestAxis, SplitAt, Spared;
    ShapeIs(firstElt, lastElt, splitElt, splitDist, lo, k);
    ShapeChildren(firstElt, lastElt, splitElt, splitDist, lo, k);
    CoversChildren(pal.bitDepth, treeNode, lo, k);
    TableBound(pal.bitDepth);
    ghost var i0, p0 := image[..], pal.Value();
    var subPixelsA := CutNode(image, off, numPixels, firstElt, lastElt, splitElt, treeNode, pal);
    var subPixelsB := numPixels - subPixelsA;
    ghost var i1, p1 := image[..], pal.Value();
    Split(image, off, subPixelsA, firstElt, splitElt, splitElt - splitDist, splitDist / 2, treeNode * 2,
          buildForDither, pal, lo, k - 1);
    ghost var i2, p2 := image[..], pal.Value();
    Split(image, off + subPixelsA, subPixelsB, splitElt, lastElt, splitElt + splitDist, splitDist / 2, treeNode * 2 + 1,
          buildForDither, pal, lo + Pow2(k - 1), k - 1);
    NodeDone(p0, p1, p2, pal.Value(), i0, i1, i2, image[..], off, subPixelsA, numPixels, treeNode, lo, k,
             buildForDither);
    NodeSpared(p0, p1, p2, pal.Value(), numPixels, treeNode, lo, k);
  }
}
