/** A palette from a known list of colours: sort along the largest axis, halve, repeat. */
module ColourList {
  import opened Bits
  import opened Colours
  import opened Median
  import opened MedianSplit
  import opened MedianTree
  import opened PaletteSearch
  import opened SplitPalette

  ghost predicate SortedOn(s: seq<Rgb>, axis: Axis)
  {
    forall i, j :: 0 <= i < j < |s| ==> Channel(s[i], axis) <= Channel(s[j], axis)
  }

  function Insert(c: Rgb, s: seq<Rgb>, axis: Axis): seq<Rgb>
  {
    if s == [] || Channel(c, axis) <= Channel(s[0], axis) then [c] + s else [s[0]] + Insert(c, s[1..], axis)
  }

  lemma {:induction false} InsertCounts(c: Rgb, s: seq<Rgb>, axis: Axis)
    ensures multiset(Insert(c, s, axis)) == multiset{c} + multiset(s)
    ensures |Insert(c, s, axis)| == |s| + 1
  {
    if s != [] && Channel(c, axis) > Channel(s[0], axis) {
      InsertCounts(c, s[1..], axis);
      assert s == [s[0]] + s[1..];
    }
  }

  lemma {:induction false} InsertSorted(c: Rgb, s: seq<Rgb>, axis: Axis)
    requires SortedOn(s, axis)
    ensures SortedOn(Insert(c, s, axis), axis)
    ensures s != [] && Channel(c, axis) > Channel(s[0], axis) ==> Insert(c, s, axis)[0] == s[0]
    ensures |Insert(c, s, axis)| > 0
  {
    if s != [] && Channel(c, axis) > Channel(s[0], axis) {
      InsertSorted(c, s[1..], axis);
      var rest := Insert(c, s[1..], axis);
      assert Channel(s[0], axis) <= Channel(rest[0], axis);
      HeadSorted(s[0], rest, axis);
    } else {
      HeadSorted(c, s, axis);
    }
  }

  lemma HeadSorted(c: Rgb, s: seq<Rgb>, axis: Axis)
    requires SortedOn(s, axis) && (s != [] ==> Channel(c, axis) <= Channel(s[0], axis))
    ensures SortedOn([c] + s, axis)
  {
    forall j | 0 <= j < |s|
      ensures Channel(c, axis) <= Channel(s[j], axis)
    {
      assert j > 0 ==> Channel(s[0], axis) <= Channel(s[j], axis);
    }
  }

  /** One way to sort. */
  function Sort(s: seq<Rgb>, axis: Axis): seq<Rgb>
  {
    if s == [] then [] else Insert(s[0], Sort(s[1..], axis), axis)
  }

  lemma {:induction false} SortIs(s: seq<Rgb>, axis: Axis)
    ensures SortedOn(Sort(s, axis), axis) && multiset(Sort(s, axis)) == multiset(s) && |Sort(s, axis)| == |s|
  {
    if s != [] {
      SortIs(s[1..], axis);
      InsertCounts(s[0], Sort(s[1..], axis), axis);
      InsertSorted(s[0], Sort(s[1..], axis), axis);
      assert s == [s[0]] + s[1..];
    }
  }

  lemma PutInPlace(before: seq<Rgb>, after: seq<Rgb>, off: nat, sorted: seq<Rgb>)
    requires off + |sorted| <= |before| == |after|
    requires multiset(sorted) == multiset(before[off..off + |sorted|])
    requires forall j :: 0 <= j < |after| ==>
               after[j] == if off <= j < off + |sorted| then sorted[j - off] else before[j]
    ensures after[off..off + |sorted|] == sorted && Permuted(before, after, off, off + |sorted|)
  {
    assert after[off..off + |sorted|] == sorted;
  }

  /** Stands for the library sort of the part off .. off + n; only the contract is used. */
  method SortPart(colors: array<Rgb>, off: nat, n: nat, axis: Axis)
    requires off + n <= colors.Length
    modifies colors
    ensures Permuted(old(colors[..]), colors[..], off, off + n)
    ensures SortedOn(colors[off..off + n], axis)
  {
    hide Sort, SortedOn, Permuted;
    ghost var before := colors[..];
    var sorted := Sort(colors[off..off + n], axis);
    SortIs(colors[off..off + n], axis);
    for i := 0 to n
      invariant forall j :: 0 <= j < colors.Length ==>
                  colors[j] == if off <= j < off + i then sorted[j - off] else before[j]
    {
      colors[off + i] := sorted[i];
    }
    PutInPlace(before, colors[..], off, sorted);
  }

  /** The finished subtree: its leaves are the colours in their final order, and it is ordered. */
  ghost predicate Listed(p: Palette, s: seq<Rgb>, node: nat, lo: nat, k: nat)
    requires WellFormed(p) && Covers(p.depth, node, lo, k)
  {
    && lo + Pow2(k) <= 256 && |s| == Pow2(k)
    && p.colours[lo..lo + Pow2(k)] == s
    && Ordered(p, node, lo, k)
  }

  /** `q` agrees with `p` on the colours from .. to and at all nodes from `node` down. */
  ghost predicate Agrees(p: Palette, q: Palette, node: nat, from: nat, to: nat)
  {
    && WellFormed(p) && WellFormed(q) && p.depth == q.depth
    && (forall i :: 0 <= i < 256 && from <= i < to ==> p.colours[i] == q.colours[i])
    && (forall m :: 0 <= m < 256 && Under(m, node) ==> p.splitElt[m] == q.splitElt[m] && p.split[m] == q.split[m])
  }

  lemma AgreesChildren(p: Palette, q: Palette, node: nat, lo: nat, k: nat)
    requires Agrees(p, q, node, lo, lo + Pow2(k)) && k > 0 && node > 0
    ensures Agrees(p, q, 2 * node, lo, lo + Pow2(k - 1))
    ensures Agrees(p, q, 2 * node + 1, lo + Pow2(k - 1), lo + Pow2(k))
    ensures Under(node, node)
  {
    forall m | 0 <= m < 256
      ensures Under(m, 2 * node) || Under(m, 2 * node + 1) ==> Under(m, node)
    {
      UnderChild(m, node, 2 * node);
      UnderChild(m, node, 2 * node + 1);
    }
  }

  lemma {:induction false} OrderedFrame(p: Palette, q: Palette, node: nat, lo: nat, k: nat)
    requires WellFormed(p) && WellFormed(q) && p.depth == q.depth && Covers(p.depth, node, lo, k) && node > 0
    requires lo + Pow2(k) <= 256 && Agrees(p, q, node, lo, lo + Pow2(k)) && Ordered(p, node, lo, k)
    ensures Ordered(q, node, lo, k)
    decreases k
  {
    hide Covers, Pow2, Ordered, Under;
    if k == 0 {
      OrderedAtLeaf(q, node, lo);
    } else {
      CoversChildren(p.depth, node, lo, k);
      OrderedParts(p, node, lo, k);
      AgreesChildren(p, q, node, lo, k);
      OrderedFrame(p, q, 2 * node, lo, k - 1);
      OrderedFrame(p, q, 2 * node + 1, lo + Pow2(k - 1), k - 1);
      OrderedInner(q, node, lo, k);
    }
  }

  /** The leaves of a node whose halves are listed. */
  lemma ListedColours(p2: Palette, p3: Palette, i2: seq<Rgb>, i3: seq<Rgb>, off: nat, node: nat, lo: nat, mid: nat,
                      hi: nat)
    requires lo <= mid <= hi <= 256 && off + (hi - lo) <= |i3| == |i2|
    requires Differs(p2, p3, 2 * node + 1, mid, hi)
    requires WellFormed(p2) && WellFormed(p3)
    requires p2.colours[lo..mid] == i2[off..off + (mid - lo)] == i3[off..off + (mid - lo)]
    requires p3.colours[mid..hi] == i3[off + (mid - lo)..off + (hi - lo)]
    ensures p3.colours[lo..hi] == i3[off..off + (hi - lo)]
  {
    hide Under;
    assert p3.colours[lo..mid] == p2.colours[lo..mid];
    assert p3.colours[lo..hi] == p3.colours[lo..mid] + p3.colours[mid..hi];
    assert i3[off..off + (hi - lo)] == i3[off..off + (mid - lo)] + i3[off + (mid - lo)..off + (hi - lo)];
  }

  /** Rearranging the two halves of a sorted part keeps them on their sides of the split. */
  lemma HalvesApart(i1: seq<Rgb>, left: seq<Rgb>, right: seq<Rgb>, off: nat, h: nat, n: nat, axis: Axis, v: int)
    requires off + n <= |i1| && h < n && SortedOn(i1[off..off + n], axis) && v == Channel(i1[off + h], axis)
    requires multiset(left) == multiset(i1[off..off + h]) && multiset(right) == multiset(i1[off + h..off + n])
    ensures forall c :: c in left ==> Channel(c, axis) <= v
    ensures forall c :: c in right ==> Channel(c, axis) >= v
  {
    var s := i1[off..off + n];
    SameMembers(left, i1[off..off + h]);
    SameMembers(right, i1[off + h..off + n]);
    assert s[h] == i1[off + h];
    forall c | c in i1[off..off + h]
      ensures Channel(c, axis) <= v
    {
      var j :| 0 <= j < h && c == i1[off..off + h][j];
      assert c == s[j];
    }
    forall c | c in i1[off + h..off + n]
      ensures Channel(c, axis) >= v
    {
      var j :| 0 <= j < n - h && c == i1[off + h..off + n][j];
      assert c == s[h + j];
    }
  }

  lemma BoundsFromParts(colours: seq<Rgb>, lo: nat, mid: nat, hi: nat, left: seq<Rgb>, right: seq<Rgb>, axis: Axis,
                        v: int)
    requires lo <= mid <= hi <= |colours| && colours[lo..mid] == left && colours[mid..hi] == right
    requires (forall c :: c in left ==> Channel(c, axis) <= v) && (forall c :: c in right ==> Channel(c, axis) >= v)
    ensures AtMost(colours, lo, mid, axis, v) && AtLeast(colours, mid, hi, axis, v)
  {
    forall i | lo <= i < mid
      ensures Channel(colours[i], axis) <= v
    {
      assert colours[i] == left[i - lo];
    }
    forall i | mid <= i < hi
      ensures Channel(colours[i], axis) >= v
    {
      assert colours[i] == right[i - mid];
    }
  }

  lemma DiffersTwice(p0: Palette, p1: Palette, p2: Palette, p3: Palette, node: nat, lo: nat, mid: nat, hi: nat)
    requires lo <= mid <= hi && 0 < node < 256
    requires WellFormed(p0) && WellFormed(p1) && p1.depth == p0.depth && p1.colours == p0.colours
    requires p1.splitElt == p0.splitElt[node := p1.splitElt[node]] && p1.split == p0.split[node := p1.split[node]]
    requires Differs(p1, p2, 2 * node, lo, mid) && Differs(p2, p3, 2 * node + 1, mid, hi)
    ensures Differs(p0, p3, node, lo, hi)
    ensures p3.splitElt[node] == p1.splitElt[node] && p3.split[node] == p1.split[node]
    ensures Agrees(p2, p3, 2 * node, lo, mid)
  {
    forall m | 0 <= m < 256
      ensures Under(m, 2 * node) || Under(m, 2 * node + 1) ==> Under(m, node) && m > node
      ensures Under(m, 2 * node) ==> !Under(m, 2 * node + 1)
    {
      UnderChild(m, node, 2 * node);
      UnderChild(m, node, 2 * node + 1);
      if Under(m, 2 * node) {
        SiblingsApart(m, node);
      }
    }
  }

  /** A node from its listed halves. */
  lemma ListDone(p0: Palette, p1: Palette, p2: Palette, p3: Palette, i0: seq<Rgb>, i1: seq<Rgb>, i2: seq<Rgb>,
                 i3: seq<Rgb>, off: nat, h: nat, n: nat, node: nat, lo: nat, k: nat)
    requires Sorted(i0, i1, i2, i3, off, h, n) && |i1| == |i2| == |i3| == |i0|
    requires k > 0 && h == Pow2(k - 1) && n == Pow2(k) == 2 * h && 0 < node < 256 && lo + n <= 256
    requires WellFormed(p0) && Covers(p0.depth, node, lo, k)
    requires WellFormed(p1) && p1.depth == p0.depth && p1.colours == p0.colours
    requires p1.splitElt == p0.splitElt[node := p1.splitElt[node]] && p1.split == p0.split[node := p1.split[node]]
    requires SortedOn(i1[off..off + n], p1.splitElt[node]) && p1.split[node] == Channel(i1[off + h], p1.splitElt[node])
    requires WellFormed(p2) && p2.depth == p0.depth && WellFormed(p3) && p3.depth == p0.depth
    requires Differs(p1, p2, 2 * node, lo, lo + h) && Differs(p2, p3, 2 * node + 1, lo + h, lo + n)
    requires Covers(p0.depth, 2 * node, lo, k - 1) && Covers(p0.depth, 2 * node + 1, lo + h, k - 1)
    requires Listed(p2, i2[off..off + h], 2 * node, lo, k - 1)
    requires Listed(p3, i3[off + h..off + n], 2 * node + 1, lo + h, k - 1)
    ensures Permuted(i0, i3, off, off + n)
    ensures Differs(p0, p3, node, lo, lo + n) && Listed(p3, i3[off..off + n], node, lo, k)
  {
    hide Covers, Pow2, Permuted, Differs, Ordered, AtMost, AtLeast, Agrees, SortedOn, Sorted;
    var mid, hi := lo + h, lo + n;
    SortedWhole(i0, i1, i2, i3, off, h, n);
    SortedParts(i0, i1, i2, i3, off, h, n);
    DiffersTwice(p0, p1, p2, p3, node, lo, mid, hi);
    ListedColours(p2, p3, i2, i3, off, node, lo, mid, hi);
    HalvesApart(i1, i3[off..off + h], i3[off + h..off + n], off, h, n, p1.splitElt[node], p1.split[node]);
    LeftColours(p3, i3, off, lo, mid, hi);
    BoundsFromParts(p3.colours, lo, mid, hi, i3[off..off + h], i3[off + h..off + n], p1.splitElt[node], p1.split[node]);
    OrderedFrame(p2, p3, 2 * node, lo, k - 1);
    OrderedInner(p3, node, lo, k);
  }

  lemma LeftColours(p: Palette, s: seq<Rgb>, off: nat, lo: nat, mid: nat, hi: nat)
    requires lo <= mid <= hi <= |p.colours| && off + (hi - lo) <= |s| && p.colours[lo..hi] == s[off..off + (hi - lo)]
    ensures p.colours[lo..mid] == s[off..off + (mid - lo)]
  {
    assert p.colours[lo..mid] == p.colours[lo..hi][..mid - lo];
  }

  /** Sorts the colours of a node along their largest axis and enters the split. */
  method SortNode(colors: array<Rgb>, off: nat, numColors: nat, treeNode: nat, pal: GifPalette)
    requires pal.Valid() && treeNode < 256 && numColors > 0
    requires off + numColors <= colors.Length && colors != pal.colours
    modifies colors, pal.treeSplitElt, pal.treeSplit
    ensures Permuted(old(colors[..]), colors[..], off, off + numColors)
    ensures var p := pal.Value();
            && p.splitElt[treeNode] == LargestAxis(old(colors[off..off + numColors]))
            && SortedOn(colors[off..off + numColors], p.splitElt[treeNode])
            && p.split[treeNode] == Channel(colors[off + numColors / 2], p.splitElt[treeNode])
            && p.splitElt == old(pal.Value()).splitElt[treeNode := p.splitElt[treeNode]]
            && p.split == old(pal.Value()).split[treeNode := p.split[treeNode]]
            && p.colours == old(pal.Value()).colours
  {
    hide Permuted, SortedOn, LargestAxis, SplitAxis;
    var splitCom := FindAxis(colors, off, numColors);
    SortPart(colors, off, numColors, splitCom);
    PutSplit(pal, treeNode, splitCom, Channel(colors[off + numColors / 2], splitCom));
  }

  method PutLeaf(colors: array<Rgb>, off: nat, treeNode: nat, pal: GifPalette, ghost lo: nat)
    requires pal.Valid() && Covers(pal.bitDepth, treeNode, lo, 0) && lo < 256
    requires off < colors.Length && colors != pal.colours
    modifies pal.colours
    ensures Listed(pal.Value(), colors[off..off + 1], treeNode, lo, 0)
    ensures Differs(old(pal.Value()), pal.Value(), treeNode, lo, lo + 1)
  {
    hide Listed, Differs;
    ghost var p0 := pal.Value();
    PutColour(pal, treeNode - Pow2(pal.bitDepth), colors[off]);
    LeafListed(p0, pal.Value(), colors[off], treeNode, lo);
    assert colors[off..off + 1] == [colors[off]];
  }

  /** Fills the subtree of `treeNode` from the colours off .. off + numColors. */
  method SplitColorPalette(colors: array<Rgb>, off: nat, numColors: nat, treeNode: nat, lastElt: nat, pal: GifPalette,
                           ghost lo: nat, ghost k: nat)
    requires pal.Valid() && Covers(pal.bitDepth, treeNode, lo, k)
    requires numColors == Pow2(k) && lastElt == Pow2(pal.bitDepth) - 1
    requires off + numColors <= colors.Length && colors != pal.colours
    modifies colors, pal.colours, pal.treeSplitElt, pal.treeSplit
    ensures Permuted(old(colors[..]), colors[..], off, off + numColors)
    ensures Listed(pal.Value(), colors[off..off + numColors], treeNode, lo, k)
    ensures Differs(old(pal.Value()), pal.Value(), treeNode, lo, lo + numColors)
    decreases k
  {
    hide Covers, Pow2, Permuted, Differs, Listed, SortedOn, LargestAxis;
    CoversChildren(pal.bitDepth, treeNode, lo, k);
    CoversSize(pal.bitDepth, treeNode, lo, k);
    if treeNode > lastElt {
      PermutedSelf(colors[..], off, off + numColors);
      PutLeaf(colors, off, treeNode, pal, lo);
      return;
    }
    ghost var i0, p0 := colors[..], pal.Value();
    var half := numColors / 2;
    SortNode(colors, off, numColors, treeNode, pal);
    ghost var i1, p1 := colors[..], pal.Value();
    SplitColorPalette(colors, off, half, treeNode * 2, lastElt, pal, lo, k - 1);
    ghost var i2, p2 := colors[..], pal.Value();
    SplitColorPalette(colors, off + half, half, treeNode * 2 + 1, lastElt, pal, lo + half, k - 1);
    ListDone(p0, p1, p2, pal.Value(), i0, i1, i2, colors[..], off, half, numColors, treeNode, lo, k);
  }

  lemma CoversSize(depth: nat, node: nat, lo: nat, k: nat)
    requires 2 <= depth <= 8 && Covers(depth, node, lo, k)
    ensures lo + Pow2(k) <= Pow2(depth) <= 256 && Pow2(k) > 0
  {
    TableBound(depth);
  }

  lemma LeafListed(p: Palette, q: Palette, c: Rgb, node: nat, lo: nat)
    requires WellFormed(p) && Covers(p.depth, node, lo, 0) && lo < 256 && q == p.(colours := p.colours[lo := c])
    ensures Listed(q, [c], node, lo, 0) && Differs(p, q, node, lo, lo + 1)
  {
    OrderedAtLeaf(q, node, lo);
  }

  lemma BoundsInside(p: Palette, q: Palette, node: nat, lo: nat, k: nat, axis: Axis, v: int)
    requires Inside(p, q, node, lo, k) && lo + Pow2(k) <= 256
    ensures WellFormed(p) && WellFormed(q)
    ensures AtMost(p.colours, lo, lo + Pow2(k), axis, v) ==> AtMost(q.colours, lo, lo + Pow2(k), axis, v)
    ensures AtLeast(p.colours, lo, lo + Pow2(k), axis, v) ==> AtLeast(q.colours, lo, lo + Pow2(k), axis, v)
  {
  }

  lemma NodeInside(p: Palette, q: Palette, node: nat, lo: nat, k: nat)
    requires Inside(p, q, node, lo, k) && Covers(p.depth, node, lo, k) && IsInner(lo, k) && node < 256
    ensures WellFormed(p) && WellFormed(q) && p.splitElt[node] == q.splitElt[node] && p.split[node] == q.split[node]
  {
    InnerIsNotHalf(p.depth, node, lo, k);
    assert Under(node, node);
  }

  /** An ordered tree stays ordered when its first leaf and the split above it are reset. */
  lemma {:induction false} OrderedInside(p: Palette, q: Palette, node: nat, lo: nat, k: nat)
    requires WellFormed(p) && WellFormed(q) && p.depth == q.depth && Covers(p.depth, node, lo, k) && node > 0
    requires lo + Pow2(k) <= 256 && Inside(p, q, node, lo, k) && Ordered(p, node, lo, k)
    requires q.split[Pow2Half(q.depth)] == 0
    ensures Ordered(q, node, lo, k)
    decreases k
  {
    hide Covers, Pow2, Ordered, Under, Inside, AtMost, AtLeast, IsInner, Pow2Half;
    if IsInner(lo, k) {
      InnerShape(lo, k);
      var mid := lo + Pow2(k - 1);
      CoversChildren(p.depth, node, lo, k);
      OrderedParts(p, node, lo, k);
      InsideChildren(p, q, node, lo, k);
      NodeInside(p, q, node, lo, k);
      BoundsInside(p, q, 2 * node, lo, k - 1, p.splitElt[node], p.split[node]);
      BoundsInside(p, q, 2 * node + 1, mid, k - 1, p.splitElt[node], p.split[node]);
      OrderedInside(p, q, 2 * node, lo, k - 1);
      OrderedInside(p, q, 2 * node + 1, mid, k - 1);
      OrderedInner(q, node, lo, k);
    } else {
      NotInnerCases(lo, k);
      if k == 0 {
        OrderedAtLeaf(q, node, lo);
      } else {
        OrderedAtTransparent(q, node);
      }
    }
  }
}
