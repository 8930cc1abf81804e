/** Error diffusion seen from the receiving pixel, and what follows: a bound on every
    pending value, and a palette colour for every pixel of an image that is not too tall. */
module Gather {
  import opened Arithmetic
  import opened Bits
  import opened Colours
  import opened Diffusion
  import opened Dither
  import opened MedianTree
  import opened PaletteSearch
  import opened Threshold

  /** The share of source pixel `s` added to `v`, if `s` is among the first `n` pixels and
      left an error. */
  function From(p: Palette, last: seq<Rgb>, q: seq<Quant>, width: nat, n: nat, v: Wanted, s: int, num: nat): Wanted
    requires WellFormed(p) && n <= |q| && width > 0
  {
    if 0 <= s < n && ChoiceAt(p, last, q, width, s).Take? then Push(v, ChoiceAt(p, last, q, width, s).err, num) else v
  }

  /** Pixel `i` as the sum over its sources: 1/16 from above left, 5/16 from above, 3/16
      from above right, 7/16 from the left. In two columns the last two are one pixel. */
  function Gathered(p: Palette, last: seq<Rgb>, q: seq<Quant>, width: nat, n: nat, i: nat): Wanted
    requires WellFormed(p) && n <= |q| && i < |q| && width > 0
  {
    var v1 := From(p, last, q, width, n, q[i].v, i - width - 1, 1);
    var v5 := From(p, last, q, width, n, v1, i - width, 5);
    if width == 2 then
      From(p, last, q, width, n, From(p, last, q, width, n, v5, i - 1, 7), i - 1, 3)
    else
      From(p, last, q, width, n, From(p, last, q, width, n, v5, i - width + 1, 3), i - 1, 7)
  }

  /** What one visit does to a later pixel. */
  lemma VisitPush(p: Palette, last: Previous, q: seq<Quant>, s: nat, width: nat, i: nat)
    requires WellFormed(p) && s < i < |q| && width >= 2
    ensures var c := Choose(p, last, q[s].v);
            Visit(p, last, q, s, width)[i].v ==
            if c.Keep? then q[i].v
            else if i == s + 1 && width == 2 then Push(Push(q[i].v, c.err, 7), c.err, 3)
            else if i == s + 1 then Push(q[i].v, c.err, 7)
            else if i == s + width - 1 then Push(q[i].v, c.err, 3)
            else if i == s + width then Push(q[i].v, c.err, 5)
            else if i == s + width + 1 then Push(q[i].v, c.err, 1)
            else q[i].v
  {
    hide Choose, Push;
  }

  /** The scattered and the gathered form agree on every pixel not yet visited. */
  lemma {:induction false} AfterIsGathered(p: Palette, last: seq<Rgb>, q: seq<Quant>, width: nat, n: nat, i: nat)
    requires WellFormed(p) && n <= i < |q| && width >= 2
    ensures After(p, last, q, n, width)[i].v == Gathered(p, last, q, width, n, i)
  {
    hide Choose, Push, Visit;
    if n > 0 {
      AfterIsGathered(p, last, q, width, n - 1, i);
      VisitPush(p, LastAt(last, n - 1), After(p, last, q, n - 1, width), n - 1, width, i);
      GatheredNext(p, last, q, width, n - 1, i);
    }
  }

  /** One more source: it contributes to the pixels at its four offsets. */
  lemma GatheredNext(p: Palette, last: seq<Rgb>, q: seq<Quant>, width: nat, s: nat, i: nat)
    requires WellFormed(p) && s < i < |q| && width >= 2
    ensures var c := ChoiceAt(p, last, q, width, s);
            var v := Gathered(p, last, q, width, s, i);
            Gathered(p, last, q, width, s + 1, i) ==
            if c.Keep? then v
            else if i == s + 1 && width == 2 then Push(Push(v, c.err, 7), c.err, 3)
            else if i == s + 1 then Push(v, c.err, 7)
            else if i == s + width - 1 then Push(v, c.err, 3)
            else if i == s + width then Push(v, c.err, 5)
            else if i == s + width + 1 then Push(v, c.err, 1)
            else v
  {
    hide ChoiceAt, Push;
  }

  // ---------------------------------------------------------------- a bound on pending values

  /** 65280 * 16 / 6: with at most 10/16 of its neighbours' errors coming from the same
      row, a pixel gains at most this much per row. */
  const PER_ROW := 174080

  /** Sixteen times every channel is at most `m`. */
  ghost predicate UpTo(v: Wanted, m: int)
  {
    16 * v.r <= m && 16 * v.g <= m && 16 * v.b <= m
  }

  lemma NudgeBound(x: int, err: int, num: nat, m: int, e: nat)
    requires x >= 0 && 16 * x <= m && err <= e
    ensures 16 * Nudge(x, err, num) <= m + num * e
  {
    if err >= 0 {
      assert err * num <= e * num by {
        MulMonotonic(err, e, num);
      }
    } else {
      MulMonotonic(err, 0, num);
      MulMonotonic(0, e, num);
    }
  }

  lemma PushBound(v: Wanted, err: Wanted, num: nat, m: int, e: nat)
    requires NonNegative(v) && UpTo(v, m) && err.r <= e && err.g <= e && err.b <= e
    ensures UpTo(Push(v, err, num), m + num * e) && NonNegative(Push(v, err, num))
  {
    NudgeBound(v.r, err.r, num, m, e);
    NudgeBound(v.g, err.g, num, m, e);
    NudgeBound(v.b, err.b, num, m, e);
    PushNonNegative(v, err, num);
  }

  function Ceiling(width: nat, s: int): nat
    requires width > 0
  {
    if s < 0 then 0 else PER_ROW * (s / width + 1)
  }

  /** Every pixel before `n` stayed under its ceiling when it was visited. */
  ghost predicate Bounded(p: Palette, last: seq<Rgb>, q: seq<Quant>, width: nat, n: nat)
    requires WellFormed(p) && n <= |q| && width > 0
  {
    forall s :: 0 <= s < n ==> UpTo(After(p, last, q, s, width)[s].v, 16 * Ceiling(width, s))
  }

  lemma FromBound(p: Palette, last: seq<Rgb>, q: seq<Quant>, width: nat, n: nat, v: Wanted, s: int, num: nat, m: int)
    requires WellFormed(p) && n <= |q| && width > 0 && Bounded(p, last, q, width, n)
    requires NonNegative(v) && UpTo(v, m)
    ensures NonNegative(From(p, last, q, width, n, v, s, num))
    ensures UpTo(From(p, last, q, width, n, v, s, num), m + num * Ceiling(width, s))
  {
    hide Push, After, Ceiling, Choose;
    MulMonotonic(0, Ceiling(width, s), num);
    if 0 <= s < n && ChoiceAt(p, last, q, width, s).Take? {
      var c := ChoiceAt(p, last, q, width, s);
      assert UpTo(After(p, last, q, s, width)[s].v, 16 * Ceiling(width, s));
      PushBound(v, c.err, num, m, Ceiling(width, s));
    }
  }

  /** The ceilings of the four sources add up to at most the pixel's own. */
  lemma CeilingSum(width: nat, i: nat)
    requires width >= 2
    ensures 16 * 65280 + Ceiling(width, i - width - 1) + 5 * Ceiling(width, i - width) +
            3 * Ceiling(width, i - width + 1) + 7 * Ceiling(width, i - 1) <= 16 * Ceiling(width, i)
    ensures Ceiling(width, i - width + 1) <= Ceiling(width, i - 1) || width == 2
  {
    hide Ceiling;
    CeilingLater(width, i - 1, i);
    CeilingLater(width, i - width + 1, i);
    CeilingAbove(width, i);
    CeilingLater(width, i - width - 1, i - width);
    if width > 2 {
      CeilingLater(width, i - width + 1, i - 1);
    }
  }

  lemma CeilingLater(width: nat, s: int, t: int)
    requires width > 0 && s <= t
    ensures Ceiling(width, s) <= Ceiling(width, t)
  {
    if s >= 0 {
      DivMonotonic(s, t, width);
    }
  }

  lemma CeilingAbove(width: nat, i: nat)
    requires width > 0
    ensures Ceiling(width, i - width) + PER_ROW <= Ceiling(width, i)
  {
    if i >= width {
      DivStep(i - width, width);
    }
  }

  lemma GatheredBound(p: Palette, last: seq<Rgb>, q: seq<Quant>, width: nat, n: nat, i: nat)
    requires WellFormed(p) && n <= |q| && i < |q| && width >= 2 && Bounded(p, last, q, width, n)
    requires NonNegative(q[i].v) && UpTo(q[i].v, 16 * 65280)
    ensures UpTo(Gathered(p, last, q, width, n, i), 16 * Ceiling(width, i))
  {
    hide From, Bounded, Ceiling;
    var m0 := 16 * 65280;
    var v1 := From(p, last, q, width, n, q[i].v, i - width - 1, 1);
    FromBound(p, last, q, width, n, q[i].v, i - width - 1, 1, m0);
    var m1 := m0 + 1 * Ceiling(width, i - width - 1);
    var v5 := From(p, last, q, width, n, v1, i - width, 5);
    FromBound(p, last, q, width, n, v1, i - width, 5, m1);
    var m5 := m1 + 5 * Ceiling(width, i - width);
    CeilingSum(width, i);
    if width == 2 {
      FromBound(p, last, q, width, n, v5, i - 1, 7, m5);
      FromBound(p, last, q, width, n, From(p, last, q, width, n, v5, i - 1, 7), i - 1, 3,
                m5 + 7 * Ceiling(width, i - 1));
    } else {
      FromBound(p, last, q, width, n, v5, i - width + 1, 3, m5);
      FromBound(p, last, q, width, n, From(p, last, q, width, n, v5, i - width + 1, 3), i - 1, 7,
                m5 + 3 * Ceiling(width, i - width + 1));
    }
  }

  /** Over any image and any palette a pending channel of row y is at most
      174080 * (y + 1) when its pixel is visited. */
  lemma {:induction false} PendingBound(p: Palette, last: seq<Rgb>, next: seq<Pixel>, width: nat, n: nat)
    requires WellFormed(p) && n <= |next| && width >= 2
    ensures Bounded(p, last, Seed(next), width, n)
  {
    hide After, Ceiling, Gathered;
    if n > 0 {
      PendingBound(p, last, next, width, n - 1);
      AfterIsGathered(p, last, Seed(next), width, n - 1, n - 1);
      GatheredBound(p, last, Seed(next), width, n - 1, n - 1);
    }
  }

  // ---------------------------------------------------------------- 32-bit arithmetic

  predicate Int32(x: int) { -0x8000_0000 <= x < 0x8000_0000 }

  predicate Fits32(v: Wanted) { Int32(v.r) && Int32(v.g) && Int32(v.b) }

  function Times(v: Wanted, num: nat): Wanted { Wanted(v.r * num, v.g * num, v.b * num) }

  function PlusHalf(v: Wanted): Wanted { Wanted(v.r + 127, v.g + 127, v.b + 127) }

  /** The tallest image for which `PendingBound` rules out an overflow. */
  const TALLEST32 := 1762

  lemma PendingUpTo(p: Palette, last: seq<Rgb>, next: seq<Pixel>, width: nat, height: nat, n: nat, i: nat)
    requires WellFormed(p) && width >= 2 && n <= i < |next| == width * height
    ensures var v := After(p, last, Seed(next), n, width)[i].v;
            NonNegative(v) && UpTo(v, 16 * PER_ROW * height)
  {
    hide After, Gathered, UpTo, NonNegative;
    var q := Seed(next);
    var v := After(p, last, q, n, width)[i].v;
    PendingBound(p, last, next, width, n);
    AfterNonNegative(p, last, next, n, width);
    AfterIsGathered(p, last, q, width, n, i);
    SeedBound(next[i]);
    GatheredBound(p, last, q, width, n, i);
    RowBelow(i, width, height);
    CeilingOf(width, i, height);
    UpToMore(v, 16 * Ceiling(width, i), 16 * PER_ROW * height);
  }

  lemma SeedBound(px: Pixel)
    ensures NonNegative(Scaled(px.rgb)) && UpTo(Scaled(px.rgb), 16 * 65280)
  {
  }

  lemma CeilingOf(width: nat, i: nat, height: nat)
    requires width > 0 && i / width < height
    ensures Ceiling(width, i) <= PER_ROW * height
  {
  }

  lemma UpToMore(v: Wanted, m: int, e: int)
    requires UpTo(v, m) && m <= e
    ensures UpTo(v, e)
  {
  }

  lemma BoundFits(v: Wanted, c: Rgb, height: nat)
    requires NonNegative(v) && UpTo(v, 16 * PER_ROW * height) && height <= TALLEST32
    ensures Fits32(PlusHalf(v)) && Fits32(Minus(v, c)) && Fits32(Times(Minus(v, c), 7))
  {
  }

  /** In an image of at least two columns and at most 1762 rows, pending colours with their
      rounding, errors, and the largest multiple of an error all fit 32 bits, at every moment of
      the pass: there the model's integers are the program's. */
  lemma NoOverflow(p: Palette, last: seq<Rgb>, next: seq<Pixel>, width: nat, height: nat, n: nat, i: nat)
    requires WellFormed(p) && width >= 2 && height <= TALLEST32 && n <= i < |next| == width * height
    ensures var v := After(p, last, Seed(next), n, width)[i].v; NonNegative(v) && Fits32(PlusHalf(v))
    ensures var c := ChoiceAt(p, last, Seed(next), width, i);
            c.Take? ==> Fits32(c.err) && Fits32(Times(c.err, 7))
  {
    hide After, UpTo, NonNegative, Fits32, Times, PlusHalf, Minus, Closest;
    PendingUpTo(p, last, next, width, height, n, i);
    BoundFits(After(p, last, Seed(next), n, width)[i].v, BLACK, height);
    var c := ChoiceAt(p, last, Seed(next), width, i);
    if c.Take? {
      PendingUpTo(p, last, next, width, height, i, i);
      BoundFits(After(p, last, Seed(next), i, width)[i].v, c.colour, height);
    }
  }

  // ---------------------------------------------------------------- the search always answers

  ghost predicate AllNearer(p: Palette, w: Wanted, diff: int, lo: nat, hi: nat)
    requires WellFormed(p) && hi <= 256
  {
    forall i :: lo <= i < hi && i != TRANSPARENT ==> Distance(w, p.colours[i]) < diff
  }

  /** Below any node with a coloured leaf the search improves on a best that every leaf
      improves on, ordered tree or not. */
  lemma {:induction false} SearchAnswers(p: Palette, w: Wanted, best: Best, node: nat, lo: nat, k: nat)
    requires WellFormed(p) && Covers(p.depth, node, lo, k) && node < 2 * Pow2(p.depth) && lo + Pow2(k) <= 256
    requires ZeroSplit(p) && w.r >= 0 && (lo > 0 || k > 0)
    requires AllNearer(p, w, best.diff, lo, lo + Pow2(k))
    ensures Closest(p, w, best, node).diff < best.diff
    decreases k
  {
    hide Covers, Distance, Closest, Pow2, ZeroSplit, LeftFirst;
    CoversChildren(p.depth, node, lo, k);
    TableBound(p.depth);
    if k == 0 {
      LeafAnswers(p, w, best, node, lo);
    } else {
      ClosestUnfold(p, w, best, node);
      var mid := lo + Pow2(k - 1);
      if LeftFirst(p, w, node) {
        RightAtTransparent(p, w, node, lo, k);
        SearchAnswers(p, w, best, 2 * node, lo, k - 1);
        ClosestIsCandidate(p, w, Closest(p, w, best, 2 * node), 2 * node + 1, mid, k - 1);
      } else {
        SearchAnswers(p, w, best, 2 * node + 1, mid, k - 1);
        ClosestIsCandidate(p, w, Closest(p, w, best, 2 * node + 1), 2 * node, lo, k - 1);
      }
    }
  }

  lemma LeafAnswers(p: Palette, w: Wanted, best: Best, node: nat, lo: nat)
    requires WellFormed(p) && node == Pow2(p.depth) + lo < 2 * Pow2(p.depth) <= 512 && lo > 0 && lo < 256
    requires Distance(w, p.colours[lo]) < best.diff
    ensures Closest(p, w, best, node).diff < best.diff
  {
  }

  /** Above the transparent leaf a non-negative colour always turns right first. */
  lemma RightAtTransparent(p: Palette, w: Wanted, node: nat, lo: nat, k: nat)
    requires WellFormed(p) && ZeroSplit(p) && Covers(p.depth, node, lo, k) && w.r >= 0 && node < 256
    ensures lo == 0 && k == 1 ==> !LeftFirst(p, w, node)
  {
    assert Pow2(p.depth) == 2 * Pow2Half(p.depth) && Pow2(1) == 2;
  }

  /** The tallest image for which no pixel can drift out of reach of the search. */
  const TALLEST := 490

  lemma RoundedBound(v: Wanted, y: nat)
    requires NonNegative(v) && UpTo(v, 16 * PER_ROW * (y + 1)) && y < TALLEST
    ensures var w := Rounded(v); 0 <= w.r <= 333200 && 0 <= w.g <= 333200 && 0 <= w.b <= 333200
  {
  }

  lemma WithinReach(w: Wanted, c: Rgb)
    requires 0 <= w.r <= 333200 && 0 <= w.g <= 333200 && 0 <= w.b <= 333200
    ensures Distance(w, c) < FAR
  {
  }

  /** In an image of at most 490 rows every visited pixel is kept or gets a palette index
      other than the transparent one. */
  lemma ChoiceIsVisible(p: Palette, last: seq<Rgb>, next: seq<Pixel>, width: nat, height: nat, i: nat)
    requires WellFormed(p) && ZeroSplit(p) && width >= 2 && height <= TALLEST
    requires i < |next| == width * height
    ensures var c := ChoiceAt(p, last, Seed(next), width, i); c.Take? ==> 0 < c.ind < Pow2(p.depth)
  {
    hide After, Closest, Distance, Covers, Rounded, ZeroSplit;
    var q := Seed(next);
    var v := After(p, last, q, i, width)[i].v;
    PendingBound(p, last, next, width, |next|);
    AfterNonNegative(p, last, next, i, width);
    RowBelow(i, width, height);
    RoundedBound(v, i / width);
    var w := Rounded(v);
    TableBound(p.depth);
    CoversRoot(p.depth);
    forall j | 0 <= j < Pow2(p.depth)
      ensures Distance(w, p.colours[j]) < FAR
    {
      WithinReach(w, p.colours[j]);
    }
    SearchAnswers(p, w, Best(0, FAR), 1, 0, p.depth);
    ClosestIsCandidate(p, w, Best(0, FAR), 1, 0, p.depth);
  }

  lemma RowBelow(i: nat, width: nat, height: nat)
    requires width > 0 && i < width * height
    ensures i / width < height
  {
    Quotient(i, width);
    LessFactor(i / width, height, width);
  }

  /** The whole pass on an image of at most 490 rows: a decoder that keeps the previous
      frame and skips index 0 shows exactly the output colours. */
  lemma DitheredFaithful(p: Palette, last: seq<Rgb>, next: seq<Pixel>, width: nat, height: nat, i: nat)
    requires WellFormed(p) && ZeroSplit(p) && width >= 2 && height <= TALLEST
    requires i < |next| == width * height
    ensures Faithful(p, LastAt(last, i), Cast(After(p, last, Seed(next), |next|, width)[i]))
  {
    hide After, Choose, ZeroSplit, Cast;
    AfterWritten(p, last, Seed(next), |next|, width);
    ChoiceIsVisible(p, last, next, width, height, i);
    WrittenFaithful(p, LastAt(last, i), ChoiceAt(p, last, Seed(next), width, i));
  }

  lemma WrittenFaithful(p: Palette, last: Previous, c: Choice)
    requires WellFormed(p)
    requires if c.Keep? then last.Shown? && c.wanted == Plain(last.rgb)
             else 0 < c.ind < Pow2(p.depth) && c.ind < 256 && c.colour == p.colours[c.ind]
    ensures Faithful(p, last, Cast(Written(c)))
  {
    if c.Keep? {
      CastWritten(c, last.rgb);
    } else {
      CastWritten(c, c.colour);
    }
  }
}
