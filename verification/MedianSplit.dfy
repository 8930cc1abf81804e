/** What the "modified median split" builds: the pixels in their final order are cut into
    proportional shares along the k-d tree, and every leaf is coloured from its share. */
module MedianSplit {
  import opened Arithmetic
  import opened Bits
  import opened Colours
  import opened Median
  import opened PaletteSearch

  // ---------------------------------------------------------------- statistics of a share

  function MinOn(s: seq<Rgb>, axis: Axis): Byte
  {
    if s == [] then 255
    else
      var m := MinOn(s[..|s| - 1], axis);
      if Channel(s[|s| - 1], axis) < m then Channel(s[|s| - 1], axis) else m
  }

  function MaxOn(s: seq<Rgb>, axis: Axis): Byte
  {
    if s == [] then 0
    else
      var m := MaxOn(s[..|s| - 1], axis);
      if Channel(s[|s| - 1], axis) > m then Channel(s[|s| - 1], axis) else m
  }

  function Sum(s: seq<Rgb>, axis: Axis): nat
  {
    if s == [] then 0 else Sum(s[..|s| - 1], axis) + Channel(s[|s| - 1], axis)
  }

  lemma {:induction false} MinOnIs(s: seq<Rgb>, axis: Axis)
    ensures forall c :: c in s ==> Channel(c, axis) >= MinOn(s, axis)
    ensures s != [] ==> exists c :: c in s && Channel(c, axis) == MinOn(s, axis)
  {
    if s != [] {
      var init, last := s[..|s| - 1], s[|s| - 1];
      MinOnIs(init, axis);
      assert s == init + [last];
      assert last in s && forall c :: c in init ==> c in s;
      if init == [] {
        assert Channel(last, axis) == MinOn(s, axis);
      }
    }
  }

  lemma {:induction false} MaxOnIs(s: seq<Rgb>, axis: Axis)
    ensures forall c :: c in s ==> Channel(c, axis) <= MaxOn(s, axis)
    ensures s != [] ==> exists c :: c in s && Channel(c, axis) == MaxOn(s, axis)
  {
    if s != [] {
      var init, last := s[..|s| - 1], s[|s| - 1];
      MaxOnIs(init, axis);
      assert s == init + [last];
      assert last in s && forall c :: c in init ==> c in s;
      if init == [] {
        assert Channel(last, axis) == MaxOn(s, axis);
      }
    }
  }

  lemma OneMoreTimes(a: int, n: int)
    ensures a * (n + 1) == a * n + a
  {
  }

  lemma {:induction false} SumBounds(s: seq<Rgb>, axis: Axis, low: int, high: int)
    requires forall c :: c in s ==> low <= Channel(c, axis) <= high
    ensures low * |s| <= Sum(s, axis) <= high * |s|
  {
    if s != [] {
      var init, last := s[..|s| - 1], s[|s| - 1];
      assert s == init + [last];
      assert last in s && forall c :: c in init ==> c in s;
      SumBounds(init, axis, low, high);
      OneMoreTimes(low, |init|);
      OneMoreTimes(high, |init|);
    }
  }

  /** The rounded average of a channel, as a byte. */
  function Mean(s: seq<Rgb>, axis: Axis): (m: Byte)
    requires s != []
  {
    MeanBounds(s, axis, 0, 255);
    (Sum(s, axis) + |s| / 2) / |s|
  }

  /** Rounding to nearest never leaves the range of the averaged values. */
  lemma MeanBounds(s: seq<Rgb>, axis: Axis, low: int, high: int)
    requires s != [] && forall c :: c in s ==> low <= Channel(c, axis) <= high
    ensures low <= (Sum(s, axis) + |s| / 2) / |s| <= high
  {
    SumBounds(s, axis, low, high);
    DivBounds(Sum(s, axis), |s|, low, high);
  }

  lemma DivBounds(total: int, n: int, low: int, high: int)
    requires n > 0 && low * n <= total <= high * n
    ensures low <= (total + n / 2) / n <= high
  {
    var q := (total + n / 2) / n;
    assert q * n <= total + n / 2 < (q + 1) * n;
    LessFactor(low, q + 1, n);
    assert (high + 1) * n == high * n + n;
    LessFactor(q, high + 1, n);
  }

  /** The axis with the largest range; green wins ties with both, blue ties with red. */
  function LargestAxis(s: seq<Rgb>): Axis
  {
    var rRange, gRange, bRange := MaxOn(s, 0) - MinOn(s, 0), MaxOn(s, 1) - MinOn(s, 1), MaxOn(s, 2) - MinOn(s, 2);
    if rRange > bRange && rRange > gRange then 0 else if bRange > gRange then 2 else 1
  }

  /** Some two pixels differ as much on this axis as any two on any axis. */
  ghost predicate Widest(s: seq<Rgb>, axis: Axis)
  {
    exists c, d :: c in s && d in s &&
      forall e, f, other: Axis :: e in s && f in s ==>
        Channel(e, other) - Channel(f, other) <= Channel(c, axis) - Channel(d, axis)
  }

  /** No two pixels differ by `r` or more. */
  ghost predicate AllWithin(s: seq<Rgb>, axis: Axis, r: int)
  {
    forall e, f :: e in s && f in s ==> Channel(e, axis) - Channel(f, axis) < r
  }

  /** Some two pixels differ more on one axis than any two on the other. */
  ghost predicate Wider(s: seq<Rgb>, axis: Axis, other: Axis)
  {
    exists c, d :: c in s && d in s && AllWithin(s, other, Channel(c, axis) - Channel(d, axis))
  }

  /** The axis a part is split on has the largest range of its pixels. Green is taken when no other
      range exceeds its own, red only when its range is the largest alone. */
  ghost predicate SplitAxis(s: seq<Rgb>, axis: Axis)
  {
    && Widest(s, axis)
    && (axis == 1 <==> !Wider(s, 0, 1) && !Wider(s, 2, 1))
    && (axis == 0 <==> Wider(s, 0, 1) && Wider(s, 0, 2))
  }

  function Range(s: seq<Rgb>, axis: Axis): int { MaxOn(s, axis) - MinOn(s, axis) }

  lemma RangeBounds(s: seq<Rgb>, axis: Axis, e: Rgb, f: Rgb)
    requires e in s && f in s
    ensures Channel(e, axis) - Channel(f, axis) <= Range(s, axis)
  {
    hide MaxOn, MinOn, Channel;
    MaxOnIs(s, axis);
    MinOnIs(s, axis);
  }

  /** Two pixels whose difference is the range. */
  lemma RangeEnds(s: seq<Rgb>, axis: Axis) returns (c: Rgb, d: Rgb)
    requires s != []
    ensures c in s && d in s && Channel(c, axis) - Channel(d, axis) == Range(s, axis)
  {
    hide MaxOn, MinOn, Channel;
    MaxOnIs(s, axis);
    MinOnIs(s, axis);
    c :| c in s && Channel(c, axis) == MaxOn(s, axis);
    d :| d in s && Channel(d, axis) == MinOn(s, axis);
  }

  lemma WiderIff(s: seq<Rgb>, axis: Axis, other: Axis)
    requires s != []
    ensures Wider(s, axis, other) <==> Range(s, axis) > Range(s, other)
  {
    hide Range, Channel, AllWithin;
    if Range(s, axis) > Range(s, other) {
      var c, d := RangeEnds(s, axis);
      WithinIff(s, other, Channel(c, axis) - Channel(d, axis));
    }
    if Wider(s, axis, other) {
      var c, d :| c in s && d in s && AllWithin(s, other, Channel(c, axis) - Channel(d, axis));
      WithinIff(s, other, Channel(c, axis) - Channel(d, axis));
      RangeBounds(s, axis, c, d);
    }
  }

  lemma WithinIff(s: seq<Rgb>, axis: Axis, r: int)
    requires s != []
    ensures AllWithin(s, axis, r) <==> Range(s, axis) < r
  {
    hide Range, Channel;
    var c, d := RangeEnds(s, axis);
    forall e, f | e in s && f in s
      ensures Channel(e, axis) - Channel(f, axis) <= Range(s, axis)
    {
      RangeBounds(s, axis, e, f);
    }
  }

  lemma LargestIsWidest(s: seq<Rgb>)
    requires s != []
    ensures Widest(s, LargestAxis(s))
  {
    hide MaxOn, MinOn, Channel;
    var axis := LargestAxis(s);
    var c, d := RangeEnds(s, axis);
    forall e, f, other: Axis | e in s && f in s
      ensures Channel(e, other) - Channel(f, other) <= Channel(c, axis) - Channel(d, axis)
    {
      RangeBounds(s, other, e, f);
      assert other == 0 || other == 1 || other == 2;
    }
  }

  /** What the axis means, and that nothing else would do. */
  lemma LargestAxisIs(s: seq<Rgb>, axis: Axis)
    requires s != []
    ensures SplitAxis(s, axis) <==> axis == LargestAxis(s)
  {
    hide MaxOn, MinOn, Widest, Wider;
    LargestIsWidest(s);
    WiderIff(s, 0, 1);
    WiderIff(s, 0, 2);
    WiderIff(s, 2, 1);
  }

  /** Twice the distance of the mean from the exact average is at most one. */
  lemma MeanNearest(s: seq<Rgb>, axis: Axis)
    requires s != []
    ensures -|s| <= 2 * (Mean(s, axis) * |s| - Sum(s, axis)) <= |s|
  {
    HalfAway(Sum(s, axis), |s|);
  }

  lemma HalfAway(total: nat, n: int)
    requires n > 0
    ensures -n <= 2 * ((total + n / 2) / n * n - total) <= n
  {
    Quotient(total + n / 2, n);
  }

  lemma {:induction false} SumAdds(s: seq<Rgb>, t: seq<Rgb>, c: Rgb, axis: Axis)
    ensures Sum(s + t, axis) == Sum(s, axis) + Sum(t, axis)
    ensures Sum([c], axis) == Channel(c, axis)
    decreases |t|
  {
    assert [c][..0] == [];
    if t == [] {
      assert s + t == s;
    } else {
      assert (s + t)[..|s + t| - 1] == s + t[..|t| - 1];
      SumAdds(s, t[..|t| - 1], c, axis);
    }
  }

  function LeafColour(s: seq<Rgb>, elt: nat, depth: nat, buildForDither: bool): Rgb
    requires s != []
  {
    if buildForDither && elt == 1 then Rgb(MinOn(s, 0), MinOn(s, 1), MinOn(s, 2))
    else if buildForDither && elt == Pow2(depth) - 1 then Rgb(MaxOn(s, 0), MaxOn(s, 1), MaxOn(s, 2))
    else Rgb(Mean(s, 0), Mean(s, 1), Mean(s, 2))
  }

  /** For dithering the first coloured leaf is as dark, the last as light as its pixels get in each
      channel; all other leaves, and all leaves without dithering, are their rounded averages. */
  lemma LeafColourIs(s: seq<Rgb>, elt: nat, depth: nat, dither: bool, axis: Axis)
    requires s != [] && depth >= 2
    ensures var x := Channel(LeafColour(s, elt, depth, dither), axis);
            if dither && elt == 1 then
              (exists c :: c in s && Channel(c, axis) == x) && (forall c :: c in s ==> x <= Channel(c, axis))
            else if dither && elt == Pow2(depth) - 1 then
              (exists c :: c in s && Channel(c, axis) == x) && (forall c :: c in s ==> Channel(c, axis) <= x)
            else -|s| <= 2 * (x * |s| - Sum(s, axis)) <= |s|
  {
    hide MinOn, MaxOn, Sum, Mean;
    MinOnIs(s, axis);
    MaxOnIs(s, axis);
    MeanNearest(s, axis);
    assert axis == 0 || axis == 1 || axis == 2;
  }

  /** A leaf colour, averaged or extreme, lies between the channels of its pixels. */
  lemma LeafInRange(s: seq<Rgb>, elt: nat, depth: nat, buildForDither: bool, axis: Axis, low: int, high: int)
    requires s != [] && forall c :: c in s ==> low <= Channel(c, axis) <= high
    ensures low <= Channel(LeafColour(s, elt, depth, buildForDither), axis) <= high
  {
    MinOnIs(s, axis);
    MaxOnIs(s, axis);
    MeanBounds(s, axis, low, high);
  }

  lemma SameMembers(s: seq<Rgb>, t: seq<Rgb>)
    requires multiset(s) == multiset(t)
    ensures forall c :: c in s <==> c in t
    ensures s == [] <==> t == []
  {
    assert forall c :: c in s <==> c in multiset(s);
    assert forall c :: c in t <==> c in multiset(t);
    assert |multiset(s)| == |s| && |multiset(t)| == |t|;
  }

  lemma StatisticsPermute(s: seq<Rgb>, t: seq<Rgb>)
    requires multiset(s) == multiset(t)
    ensures forall axis :: MinOn(s, axis) == MinOn(t, axis) && MaxOn(s, axis) == MaxOn(t, axis)
    ensures LargestAxis(s) == LargestAxis(t)
  {
    SameMembers(s, t);
    forall axis: Axis
      ensures MinOn(s, axis) == MinOn(t, axis) && MaxOn(s, axis) == MaxOn(t, axis)
    {
      MinOnIs(s, axis);
      MinOnIs(t, axis);
      MaxOnIs(s, axis);
      MaxOnIs(t, axis);
    }
  }

  // ---------------------------------------------------------------- shares along the tree

  function First(lo: nat): nat { if lo == 0 then 1 else lo }

  /** The node over lo .. lo + 2^k has at least two coloured leaves. */
  predicate IsInner(lo: nat, k: nat)
  {
    k > 0 && lo + Pow2(k) > First(lo) + 1
  }

  /** The part of `n` pixels that goes to the left child of the node over lo .. lo + 2^k. */
  function LeftShare(n: nat, lo: nat, k: nat): (a: nat)
    requires IsInner(lo, k)
    ensures a <= n && (n > 0 ==> a < n)
  {
    ShareBounds(n, lo + Pow2(k - 1) - First(lo), lo + Pow2(k) - First(lo));
    n * (lo + Pow2(k - 1) - First(lo)) / (lo + Pow2(k) - First(lo))
  }

  /** The left child's part of the pixels is its part of the coloured leaves, rounded down. */
  lemma ShareProportional(n: nat, lo: nat, k: nat)
    requires IsInner(lo, k)
    ensures var left, all := lo + Pow2(k - 1) - First(lo), lo + Pow2(k) - First(lo);
            LeftShare(n, lo, k) * all <= n * left < LeftShare(n, lo, k) * all + all
  {
    Quotient(n * (lo + Pow2(k - 1) - First(lo)), lo + Pow2(k) - First(lo));
  }

  /** Proportional division serves both sides as soon as there is one pixel per leaf. */
  lemma ShareBounds(n: nat, x: nat, m: nat)
    requires x < m
    ensures 0 <= n * x / m <= n && (n > 0 ==> n * x / m < n)
    ensures n >= m ==> n * x / m >= x && n - n * x / m >= m - x
  {
    var a := n * x / m;
    Quotient(n * x, m);
    if n > 0 {
      Product(n, m - x);
      assert n * x + n * (m - x) == n * m;
      LessFactor(a, n, m);
    }
    if n >= m {
      EnoughForLeft(n, x, m);
      EnoughForRight(n, x, m);
    }
  }

  lemma EnoughForLeft(n: nat, x: nat, m: nat)
    requires x < m <= n
    ensures n * x / m >= x
  {
    Quotient(n * x, m);
    Product(n - m, x);
    assert n * x == m * x + (n - m) * x;
    LessFactor(x, n * x / m + 1, m);
  }

  lemma Crossed(n: int, x: int, m: int)
    ensures (n - m + x) * m == n * x + (n - m) * (m - x)
  {
    assert (n - m) * (m - x) == (n - m) * m - (n - m) * x;
    assert (n - m) * x == n * x - m * x;
    assert (n - m + x) * m == (n - m) * m + x * m;
  }

  lemma EnoughForRight(n: nat, x: nat, m: nat)
    requires x < m <= n
    ensures n - n * x / m >= m - x
  {
    Quotient(n * x, m);
    Product(n - m, m - x);
    Crossed(n, x, m);
    OneMoreTimes(m, n - m + x);
    LessFactor(n * x / m, n - m + x + 1, m);
  }

  /** Node `node` over the leaves lo .. lo + 2^k, with `s` the pixels it received in their
      final order. */
  ghost predicate Built(p: Palette, s: seq<Rgb>, node: nat, lo: nat, k: nat, dither: bool)
    requires WellFormed(p) && Covers(p.depth, node, lo, k)
    decreases k
  {
    CoversChildren(p.depth, node, lo, k);
    TableBound(p.depth);
    if s == [] then true
    else if IsInner(lo, k) then
      var a := LeftShare(|s|, lo, k);
      && Cut(p, s, a, node)
      && Built(p, s[..a], 2 * node, lo, k - 1, dither)
      && Built(p, s[a..], 2 * node + 1, lo + Pow2(k - 1), k - 1, dither)
    else
      First(lo) < lo + Pow2(k) ==> p.colours[First(lo)] == LeafColour(s, First(lo), p.depth, dither)
  }

  /** The cut at a node: along the largest axis, at the smallest value of the right part,
      which nothing on the left exceeds. */
  ghost predicate Cut(p: Palette, s: seq<Rgb>, a: nat, node: nat)
    requires WellFormed(p) && node < 256 && a <= |s|
  {
    && p.splitElt[node] == LargestAxis(s)
    && p.split[node] == MinOn(s[a..], LargestAxis(s))
    && Below(s, 0, a, LargestAxis(s), p.split[node])
  }

  /** What a cut means for the pixels: along an axis of largest range, at a value that some pixel of
      the right part has, which none of them falls below and none of the left part exceeds. */
  lemma CutIs(p: Palette, s: seq<Rgb>, a: nat, node: nat)
    requires WellFormed(p) && node < 256 && a < |s| && Cut(p, s, a, node)
    ensures var axis, v := p.splitElt[node], p.split[node];
            && SplitAxis(s, axis)
            && (exists c :: c in s[a..] && Channel(c, axis) == v)
            && (forall c :: c in s[a..] ==> Channel(c, axis) >= v)
            && (forall c :: c in s[..a] ==> Channel(c, axis) <= v)
  {
    hide SplitAxis, MinOn, LargestAxis, Channel;
    LargestAxisIs(s, p.splitElt[node]);
    MinOnIs(s[a..], p.splitElt[node]);
  }
}
