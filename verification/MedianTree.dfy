/** Properties of the tree that median split builds. */
module MedianTree {
  import opened Bits
  import opened Colours
  import opened MedianSplit
  import opened PaletteSearch

  ghost predicate Within(s: seq<Rgb>, axis: Axis, low: int, high: int)
  {
    forall c :: c in s ==> low <= Channel(c, axis) <= high
  }

  lemma InnerShape(lo: nat, k: nat)
    requires IsInner(lo, k)
    ensures k > 0 && Pow2(k) == 2 * Pow2(k - 1) && First(lo) < lo + Pow2(k - 1) < lo + Pow2(k)
    ensures First(lo + Pow2(k - 1)) == lo + Pow2(k - 1)
    ensures !(lo == 0 && k == 1)
  {
  }

  /** The parts of an inner node. */
  lemma BuiltInner(p: Palette, s: seq<Rgb>, node: nat, lo: nat, k: nat, dither: bool)
    requires WellFormed(p) && Covers(p.depth, node, lo, k) && k > 0 && IsInner(lo, k) && s != []
    ensures node < Pow2(p.depth) <= 256
    ensures Covers(p.depth, 2 * node, lo, k - 1) && Covers(p.depth, 2 * node + 1, lo + Pow2(k - 1), k - 1)
    ensures var a := LeftShare(|s|, lo, k);
            Built(p, s, node, lo, k, dither) <==>
            && Cut(p, s, a, node)
            && Built(p, s[..a], 2 * node, lo, k - 1, dither)
            && Built(p, s[a..], 2 * node + 1, lo + Pow2(k - 1), k - 1, dither)
  {
    hide Cut, LeafColour, Pow2, Covers, LeftShare, IsInner;
    CoversChildren(p.depth, node, lo, k);
    TableBound(p.depth);
  }

  /** A node that gets a pixel per leaf passes on a pixel per leaf to both children. */
  lemma SharesSuffice(n: nat, lo: nat, k: nat)
    requires IsInner(lo, k) && n >= lo + Pow2(k) - First(lo)
    ensures LeftShare(n, lo, k) >= lo + Pow2(k - 1) - First(lo)
    ensures n - LeftShare(n, lo, k) >= Pow2(k - 1)
  {
    hide Pow2;
    InnerShape(lo, k);
    ShareBounds(n, lo + Pow2(k - 1) - First(lo), lo + Pow2(k) - First(lo));
  }

  lemma BuiltLeaf(p: Palette, s: seq<Rgb>, node: nat, lo: nat, k: nat, dither: bool)
    requires WellFormed(p) && Covers(p.depth, node, lo, k)
    requires s != [] && lo + Pow2(k) == First(lo) + 1
    ensures First(lo) < 256
    ensures Built(p, s, node, lo, k, dither) <==> p.colours[First(lo)] == LeafColour(s, First(lo), p.depth, dither)
  {
    TableBound(p.depth);
  }

  lemma NotInner(lo: nat, k: nat)
    requires !IsInner(lo, k) && lo + Pow2(k) > First(lo)
    ensures lo + Pow2(k) == First(lo) + 1
  {
  }

  lemma LeafBounds(colours: seq<Rgb>, lo: nat, hi: nat, axis: Axis, low: int, high: int)
    requires lo <= hi <= |colours| &&
             (hi <= First(lo) || (hi == First(lo) + 1 && low <= Channel(colours[First(lo)], axis) <= high))
    ensures AtLeast(colours, lo, hi, axis, low) && AtMost(colours, lo, hi, axis, high)
  {
  }

  lemma JoinBounds(colours: seq<Rgb>, lo: nat, mid: nat, hi: nat, axis: Axis, low: int, high: int)
    requires lo <= mid <= hi <= |colours|
    requires AtLeast(colours, lo, mid, axis, low) && AtMost(colours, lo, mid, axis, high)
    requires AtLeast(colours, mid, hi, axis, low) && AtMost(colours, mid, hi, axis, high)
    ensures AtLeast(colours, lo, hi, axis, low) && AtMost(colours, lo, hi, axis, high)
  {
  }

  /** With at least one pixel per leaf, every leaf colour of a subtree lies in any range
      that holds the subtree's pixels. */
  lemma {:induction false} BuiltWithin(p: Palette, s: seq<Rgb>, node: nat, lo: nat, k: nat, dither: bool,
                                       axis: Axis, low: int, high: int)
    requires WellFormed(p) && Covers(p.depth, node, lo, k) && lo + Pow2(k) <= 256
    requires Built(p, s, node, lo, k, dither) && |s| >= lo + Pow2(k) - First(lo)
    requires Within(s, axis, low, high)
    ensures AtLeast(p.colours, lo, lo + Pow2(k), axis, low) && AtMost(p.colours, lo, lo + Pow2(k), axis, high)
    decreases k
  {
    hide Covers, Built, Cut, LeafColour, Pow2, Channel, AtLeast, AtMost;
    var first, last := First(lo), lo + Pow2(k);
    if IsInner(lo, k) {
      var a, mid := LeftShare(|s|, lo, k), lo + Pow2(k - 1);
      InnerShape(lo, k);
      SharesSuffice(|s|, lo, k);
      BuiltInner(p, s, node, lo, k, dither);
      BuiltWithin(p, s[..a], 2 * node, lo, k - 1, dither, axis, low, high);
      BuiltWithin(p, s[a..], 2 * node + 1, mid, k - 1, dither, axis, low, high);
      JoinBounds(p.colours, lo, mid, last, axis, low, high);
    } else {
      if last > first {
        NotInner(lo, k);
        BuiltLeaf(p, s, node, lo, k, dither);
        LeafInRange(s, first, p.depth, dither, axis, low, high);
      }
      LeafBounds(p.colours, lo, last, axis, low, high);
    }
  }

  lemma OrderedInner(p: Palette, node: nat, lo: nat, k: nat)
    requires WellFormed(p) && k > 0 && Covers(p.depth, node, lo, k) && lo + Pow2(k) <= 256 && node < 256
    requires Pow2(k) == 2 * Pow2(k - 1)
    requires AtMost(p.colours, lo, lo + Pow2(k - 1), p.splitElt[node], p.split[node])
    requires AtLeast(p.colours, lo + Pow2(k - 1), lo + Pow2(k), p.splitElt[node], p.split[node])
    requires Covers(p.depth, 2 * node, lo, k - 1) && Ordered(p, 2 * node, lo, k - 1)
    requires Covers(p.depth, 2 * node + 1, lo + Pow2(k - 1), k - 1) && Ordered(p, 2 * node + 1, lo + Pow2(k - 1), k - 1)
    ensures Ordered(p, node, lo, k)
  {
    hide Covers, Pow2, AtMost, AtLeast;
  }

  /** The node whose left child is the transparent leaf. */
  lemma OrderedAtTransparent(p: Palette, node: nat)
    requires WellFormed(p) && Covers(p.depth, node, 0, 1) && p.split[Pow2Half(p.depth)] == 0
    ensures Ordered(p, node, 0, 1)
  {
    TableBound(p.depth);
    assert Pow2(1) == 2 && Pow2(p.depth) == 2 * Pow2(p.depth - 1);
    assert node == Pow2Half(p.depth);
  }

  /** 2^(depth-1): the node above leaves 0 and 1. */
  function Pow2Half(depth: nat): (h: nat)
    requires 2 <= depth <= 8
    ensures 0 < h < 256
  {
    TableBound(depth);
    Pow2(depth - 1)
  }

  /** The split the palette builders put above the transparent leaf. */
  ghost predicate ZeroSplit(p: Palette)
    requires WellFormed(p)
  {
    p.split[Pow2Half(p.depth)] == 0 && p.splitElt[Pow2Half(p.depth)] == 0
  }

  lemma NotInnerCases(lo: nat, k: nat)
    requires !IsInner(lo, k)
    ensures k == 0 || (lo == 0 && k == 1)
  {
    if k >= 2 {
      Pow2Monotonic(2, k);
      Pow2Eight();
    }
  }

  /** With at least one pixel per leaf the built tree is ordered, for averaged and for
      extreme leaves alike, given a zero split above the transparent leaf. */
  lemma {:induction false} BuiltOrdered(p: Palette, s: seq<Rgb>, node: nat, lo: nat, k: nat, dither: bool)
    requires WellFormed(p) && Covers(p.depth, node, lo, k) && lo + Pow2(k) <= 256
    requires Built(p, s, node, lo, k, dither) && |s| >= lo + Pow2(k) - First(lo)
    requires p.split[Pow2Half(p.depth)] == 0
    ensures Ordered(p, node, lo, k)
    decreases k
  {
    hide Covers, Built, Pow2, Channel, Ordered, IsInner, MinOn, LargestAxis, Pow2Half;
    if IsInner(lo, k) {
      InnerShape(lo, k);
      SharesSuffice(|s|, lo, k);
      BuiltInner(p, s, node, lo, k, dither);
      var a, mid, axis, v := LeftShare(|s|, lo, k), lo + Pow2(k - 1), LargestAxis(s), p.split[node];
      CutWithin(p, s, a, node);
      BuiltWithin(p, s[..a], 2 * node, lo, k - 1, dither, axis, 0, v);
      BuiltWithin(p, s[a..], 2 * node + 1, mid, k - 1, dither, axis, v, 255);
      BuiltOrdered(p, s[..a], 2 * node, lo, k - 1, dither);
      BuiltOrdered(p, s[a..], 2 * node + 1, mid, k - 1, dither);
      OrderedInner(p, node, lo, k);
    } else {
      NotInnerCases(lo, k);
      if k == 0 {
        OrderedAtLeaf(p, node, lo);
      } else {
        OrderedAtTransparent(p, node);
      }
    }
  }

  /** The whole tree over `s`. */
  ghost predicate BuiltTree(p: Palette, s: seq<Rgb>, dither: bool)
    requires WellFormed(p)
  {
    CoversRoot(p.depth);
    Built(p, s, 1, 0, p.depth, dither)
  }

  lemma TreeOrdered(p: Palette, s: seq<Rgb>, dither: bool)
    requires WellFormed(p) && BuiltTree(p, s, dither) && p.split[Pow2Half(p.depth)] == 0
    requires |s| >= Pow2(p.depth) - 1
    ensures OrderedTree(p)
  {
    TableBound(p.depth);
    BuiltOrdered(p, s, 1, 0, p.depth, dither);
  }

  lemma OrderedAtLeaf(p: Palette, node: nat, lo: nat)
    requires WellFormed(p) && Covers(p.depth, node, lo, 0)
    ensures Ordered(p, node, lo, 0)
  {
  }

  /** The cut separates the channels of the two parts. */
  lemma CutWithin(p: Palette, s: seq<Rgb>, a: nat, node: nat)
    requires WellFormed(p) && node < 256 && a <= |s| && Cut(p, s, a, node)
    ensures Within(s[..a], LargestAxis(s), 0, p.split[node])
    ensures Within(s[a..], LargestAxis(s), p.split[node], 255)
  {
    MinOnIs(s[a..], LargestAxis(s));
  }

  /** The number of pixels leaf `i` receives out of `n`. */
  function LeafShare(n: nat, lo: nat, k: nat, i: nat): nat
    requires First(lo) <= i < lo + Pow2(k)
    decreases k
  {
    if !IsInner(lo, k) then n
    else if i < lo + Pow2(k - 1) then LeafShare(LeftShare(n, lo, k), lo, k - 1, i)
    else LeafShare(n - LeftShare(n, lo, k), lo + Pow2(k - 1), k - 1, i)
  }

  ghost predicate AllServed(n: nat, lo: nat, k: nat)
  {
    forall i :: First(lo) <= i < lo + Pow2(k) ==> LeafShare(n, lo, k, i) > 0
  }

  /** Every leaf receives a pixel exactly when there are at least as many pixels as leaves. */
  lemma {:induction false} ServedIff(n: nat, lo: nat, k: nat)
    requires First(lo) < lo + Pow2(k)
    ensures AllServed(n, lo, k) <==> n >= lo + Pow2(k) - First(lo)
    decreases k
  {
    if IsInner(lo, k) {
      InnerShape(lo, k);
      var a, mid := LeftShare(n, lo, k), lo + Pow2(k - 1);
      ServedIff(a, lo, k - 1);
      ServedIff(n - a, mid, k - 1);
      if n >= lo + Pow2(k) - First(lo) {
        SharesSuffice(n, lo, k);
      }
      ServedHalves(n, lo, k);
    } else {
      NotInner(lo, k);
      assert AllServed(n, lo, k) ==> LeafShare(n, lo, k, First(lo)) > 0;
    }
  }

  lemma ServedHalves(n: nat, lo: nat, k: nat)
    requires IsInner(lo, k)
    ensures var a, mid := LeftShare(n, lo, k), lo + Pow2(k - 1);
            AllServed(n, lo, k) <==> AllServed(a, lo, k - 1) && AllServed(n - a, mid, k - 1)
  {
    hide Pow2, LeftShare;
    InnerShape(lo, k);
    var h := k - 1;
    var a, mid := LeftShare(n, lo, k), lo + Pow2(h);
    var b := n - a;
    if AllServed(n, lo, k) {
      forall i | First(lo) <= i < mid
        ensures LeafShare(a, lo, h, i) > 0
      {
        assert LeafShare(n, lo, k, i) > 0;
      }
      forall i | mid <= i < mid + Pow2(h)
        ensures LeafShare(b, mid, h, i) > 0
      {
        assert LeafShare(n, lo, k, i) > 0;
      }
    }
    if AllServed(a, lo, h) && AllServed(b, mid, h) {
      forall i | First(lo) <= i < lo + Pow2(k)
        ensures LeafShare(n, lo, k, i) > 0
      {
        assert if i < mid then LeafShare(a, lo, h, i) > 0 else LeafShare(b, mid, h, i) > 0;
      }
    }
  }
}
