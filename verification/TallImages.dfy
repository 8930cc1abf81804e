/** How far error diffusion can drift: exactly when a dithered pixel is shown as written, and
    a family of images tall enough that one is not. */
module TallImages {
  import opened Arithmetic
  import opened Bits
  import opened Colours
  import opened Diffusion
  import opened Dither
  import opened Gather
  import opened MedianTree
  import opened OneColumn
  import opened PaletteSearch
  import opened Threshold

  // ---------------------------------------------------------------- the exact condition

  /** Does some colour of the palette lie within the search's reach? */
  ghost predicate InReach(p: Palette, w: Wanted)
    requires WellFormed(p)
  {
    exists k :: 0 < k < Pow2(p.depth) && k < 256 && Distance(w, p.colours[k]) < FAR
  }

  lemma FoundIffInReach(p: Palette, w: Wanted)
    requires WellFormed(p) && OrderedTree(p)
    ensures Closest(p, w, Best(0, FAR), 1).ind != TRANSPARENT <==> InReach(p, w)
  {
    hide Distance, Closest, Pow2, Scan, Ordered, Covers;
    TableBound(p.depth);
    CoversRoot(p.depth);
    ClosestIsCandidate(p, w, Best(0, FAR), 1, 0, p.depth);
    ClosestIsNearest(p, w, Best(0, FAR), 1, 0, p.depth);
  }

  lemma WrittenFaithfulIff(p: Palette, last: Previous, c: Choice)
    requires WellFormed(p)
    requires if c.Keep? then last.Shown? && c.wanted == Plain(last.rgb)
             else c.ind < Pow2(p.depth) && c.ind < 256 && c.colour == p.colours[c.ind]
    ensures Faithful(p, last, Cast(Written(c))) <==> c.Keep? || c.ind != TRANSPARENT || last == Shown(p.colours[0])
  {
    if c.Keep? {
      CastWritten(c, last.rgb);
    } else {
      CastWritten(c, c.colour);
    }
  }

  /** On an ordered palette and an image of two columns or more, of any height, a decoder shows
      the pixel that was written exactly when the previous frame's colour was kept, or a
      palette colour is within reach of the pending colour, or the previous frame shows the
      colour of entry 0. */
  lemma DitheredFaithfulIff(p: Palette, last: seq<Rgb>, next: seq<Pixel>, width: nat, i: nat)
    requires WellFormed(p) && OrderedTree(p) && width >= 2 && i < |next|
    ensures var v := After(p, last, Seed(next), i, width)[i].v;
            Faithful(p, LastAt(last, i), Cast(After(p, last, Seed(next), |next|, width)[i])) <==>
            || (LastAt(last, i).Shown? && Plain(LastAt(last, i).rgb) == Rounded(v))
            || InReach(p, Rounded(v))
            || LastAt(last, i) == Shown(p.colours[0])
  {
    hide After, OrderedTree, Cast, Faithful, InReach, Rounded, Closest;
    var q := Seed(next);
    var v := After(p, last, q, i, width)[i].v;
    AfterWritten(p, last, q, |next|, width);
    ChooseBounds(p, LastAt(last, i), v);
    WrittenFaithfulIff(p, LastAt(last, i), Choose(p, LastAt(last, i), v));
    FoundIffInReach(p, Rounded(v));
  }

  /** The condition for any width: a column needs its colours to survive their errors, a wider
      image needs its pending colours within reach. */
  ghost predicate DitherShown(p: Palette, last: seq<Rgb>, next: seq<Pixel>, width: nat, i: nat)
    requires WellFormed(p) && width > 0 && i < |next|
  {
    if width == 1 then ColumnShown(LastAt(last, i), ChoiceAt(p, last, Seed(next), width, i))
    else
      var w, prev := Rounded(After(p, last, Seed(next), i, width)[i].v), LastAt(last, i);
      (prev.Shown? && Plain(prev.rgb) == w) || InReach(p, w) || prev == Shown(p.colours[0])
  }

  ghost predicate AllShown(p: Palette, last: seq<Rgb>, next: seq<Pixel>, width: nat)
    requires WellFormed(p) && width > 0
  {
    forall i :: 0 <= i < |next| ==> DitherShown(p, last, next, width, i)
  }

  /** In an image of few rows the condition holds, ordered palette or not. */
  lemma LowImagesShown(p: Palette, last: seq<Rgb>, next: seq<Pixel>, width: nat, height: nat, i: nat)
    requires WellFormed(p) && ZeroSplit(p) && width >= 2 && height <= TALLEST && i < |next| == width * height
    ensures DitherShown(p, last, next, width, i)
  {
    hide After, ZeroSplit, Rounded, Closest, Distance, Covers, Pow2;
    var v := After(p, last, Seed(next), i, width)[i].v;
    TableBound(p.depth);
    CoversRoot(p.depth);
    ChoiceIsVisible(p, last, next, width, height, i);
    ClosestIsCandidate(p, Rounded(v), Best(0, FAR), 1, 0, p.depth);
  }

  /** Images with fewer pixels than a palette has colours are low. */
  lemma FewPixels(width: nat, height: nat, n: nat)
    requires n == width * height < 255 && width >= 2
    ensures height <= TALLEST
  {
    if height > TALLEST {
      MulMonotonic(2, width, height);
    }
  }

  /** The exact condition for every image and every palette the builders make: these are
      ordered unless there were fewer pixels than colours. */
  lemma DitherShownIff(p: Palette, last: seq<Rgb>, next: seq<Pixel>, width: nat, height: nat, i: nat)
    requires WellFormed(p) && ZeroSplit(p) && width > 0 && i < |next| == width * height
    requires OrderedTree(p) || |next| < 255
    ensures Faithful(p, LastAt(last, i), Cast(After(p, last, Seed(next), |next|, width)[i])) <==>
            DitherShown(p, last, next, width, i)
  {
    hide After, OrderedTree, Cast, Faithful, InReach, Rounded, ColumnShown, ChoiceAt, ZeroSplit;
    if width == 1 {
      ColumnFaithfulIff(p, last, next, width, i);
    } else if |next| < 255 {
      FewPixels(width, height, |next|);
      DitheredFaithful(p, last, next, width, height, i);
      LowImagesShown(p, last, next, width, height, i);
    } else {
      DitheredFaithfulIff(p, last, next, width, i);
    }
  }

  // ---------------------------------------------------------------- images that are too tall

  /** Sixteen times every channel is at least `m`. */
  ghost predicate AtLeast16(v: Wanted, m: int)
  {
    16 * v.r >= m && 16 * v.g >= m && 16 * v.b >= m
  }

  /** Every channel is at least `e`. */
  ghost predicate Leaves(v: Wanted, e: int)
  {
    v.r >= e && v.g >= e && v.b >= e
  }

  /** What a share of an error of `e` or more adds, sixteenfold. */
  function Gain(e: nat, num: nat): int
  {
    if e == 0 then 0 else num * e - 15
  }

  lemma NudgeGain(x: int, err: int, num: nat, e: nat)
    requires err >= e && x >= 0
    ensures 16 * Nudge(x, err, num) >= 16 * x + Gain(e, num) && Nudge(x, err, num) >= x
  {
    MulMonotonic(e, err, num);
    MulMonotonic(0, err, num);
    Quotient(err * num, 16);
  }

  lemma PushGain(v: Wanted, err: Wanted, num: nat, m: int, e: nat)
    requires NonNegative(v) && AtLeast16(v, m) && Leaves(err, e)
    ensures AtLeast16(Push(v, err, num), m + Gain(e, num)) && NonNegative(Push(v, err, num))
  {
    NudgeGain(v.r, err.r, num, e);
    NudgeGain(v.g, err.g, num, e);
    NudgeGain(v.b, err.b, num, e);
  }

  /** What an image of white pixels has gained at the least when pixel `i` is visited. */
  function Floor(width: nat, i: nat): nat
    requires width > 0
  {
    65276 * (i / (width + 1) + 1)
  }

  ghost predicate AllWhite(next: seq<Pixel>)
  {
    forall j :: 0 <= j < |next| ==> next[j].rgb == Rgb(255, 255, 255)
  }

  /** Before pixel `i` every visited pixel had reached its floor. */
  ghost predicate Grown(p: Palette, q: seq<Quant>, width: nat, i: nat)
    requires WellFormed(p) && i <= |q| && width > 0
  {
    forall s :: 0 <= s < i ==> Leaves(After(p, [], q, s, width)[s].v, Floor(width, s))
  }

  /** The error a source passes on under a black palette is all it had. */
  lemma SourceGain(p: Palette, q: seq<Quant>, width: nat, i: nat, v: Wanted, s: int, num: nat, m: int, e: nat)
    requires AllBlack(p) && i < |q| && width >= 2 && Grown(p, q, width, i) && s < i
    requires NonNegative(v) && AtLeast16(v, m)
    requires e == 0 || (0 <= s && e <= Floor(width, s))
    ensures var u := From(p, [], q, width, i, v, s, num);
            NonNegative(u) && AtLeast16(u, m + Gain(e, num))
  {
    hide After, Push, Choose, Floor;
    if s >= 0 {
      BlackLeavesAll(p, After(p, [], q, s, width)[s].v);
      PushGain(v, ChoiceAt(p, [], q, width, s).err, num, m, e);
    }
  }

  lemma FloorBefore(width: nat, i: nat, s: int)
    requires width > 0 && i / (width + 1) > 0 && i - (width + 1) <= s < i
    ensures s >= 0 && 65276 * (i / (width + 1)) <= Floor(width, s)
  {
    Quotient(i, width + 1);
    DivStep(i - (width + 1), width + 1);
    DivMonotonic(i - (width + 1), s, width + 1);
  }

  /** Sixteen sixteenths of the errors around a pixel reach it, four roundings apart. */
  lemma GatheredGain(p: Palette, q: seq<Quant>, width: nat, i: nat, e: nat)
    requires AllBlack(p) && i < |q| && width >= 2 && Grown(p, q, width, i)
    requires NonNegative(q[i].v) && AtLeast16(q[i].v, 16 * 65280)
    requires e == 0 || forall s :: i - (width + 1) <= s < i ==> s >= 0 && e <= Floor(width, s)
    ensures AtLeast16(Gathered(p, [], q, width, i, i), 16 * 65280 + Gain(e, 1) + Gain(e, 5) + Gain(e, 3) + Gain(e, 7))
  {
    hide From, Gain, Floor, Grown, AtLeast16, NonNegative, AllBlack;
    BlackIsWellFormed(p);
    var m := 16 * 65280;
    if e > 0 {
      assert i - (width + 1) >= 0 && e <= Floor(width, i - width - 1);
    }
    SourceGain(p, q, width, i, q[i].v, i - width - 1, 1, m, e);
    var v1 := From(p, [], q, width, i, q[i].v, i - width - 1, 1);
    SourceGain(p, q, width, i, v1, i - width, 5, m + Gain(e, 1), e);
    var v5 := From(p, [], q, width, i, v1, i - width, 5);
    var m5 := m + Gain(e, 1) + Gain(e, 5);
    if width == 2 {
      SourceGain(p, q, width, i, v5, i - 1, 7, m5, e);
      SourceGain(p, q, width, i, From(p, [], q, width, i, v5, i - 1, 7), i - 1, 3, m5 + Gain(e, 7), e);
    } else {
      SourceGain(p, q, width, i, v5, i - width + 1, 3, m5, e);
      SourceGain(p, q, width, i, From(p, [], q, width, i, v5, i - width + 1, 3), i - 1, 7, m5 + Gain(e, 3), e);
    }
  }

  lemma FloorReached(v: Wanted, width: nat, i: nat, e: nat)
    requires width > 0 && e == 65276 * (i / (width + 1))
    requires AtLeast16(v, 16 * 65280 + Gain(e, 1) + Gain(e, 5) + Gain(e, 3) + Gain(e, 7))
    ensures Leaves(v, Floor(width, i))
  {
    var t := i / (width + 1);
    Quotient(i, width + 1);
    assert Floor(width, i) == e + 65276;
  }

  /** Under a black palette the white of every row adds to the errors of the rows above. */
  lemma {:induction false} WhiteGrows(p: Palette, next: seq<Pixel>, width: nat, i: nat)
    requires AllBlack(p) && AllWhite(next) && width >= 2 && i <= |next|
    ensures Grown(p, Seed(next), width, i)
  {
    hide After, AllBlack, Leaves, Gathered, Floor, Choose;
    var q := Seed(next);
    if i > 0 {
      var k := i - 1;
      WhiteGrows(p, next, width, k);
      var e := 65276 * (k / (width + 1));
      Quotient(k, width + 1);
      forall s | e > 0 && k - (width + 1) <= s < k
        ensures s >= 0 && e <= Floor(width, s)
      {
        FloorBefore(width, k, s);
      }
      GatheredGain(p, q, width, k, e);
      BlackIsWellFormed(p);
      AfterIsGathered(p, [], q, width, k, k);
      FloorReached(After(p, [], q, k, width)[k].v, width, k, e);
    }
  }

  lemma BlackIsWellFormed(p: Palette)
    requires AllBlack(p)
    ensures WellFormed(p)
  {
  }

  lemma OutOfReach(p: Palette, v: Wanted)
    requires AllBlack(p) && Leaves(v, 65276 * 1311)
    ensures Pow2(p.depth) <= 256 && forall k :: 0 <= k < Pow2(p.depth) ==> Distance(Rounded(v), p.colours[k]) >= FAR
  {
    hide Pow2;
  }

  /** Pixel `i` of a white image comes out transparent, with nothing behind it, once 1310
      times width + 1 pixels were visited before it: so there is a height from which an
      image is not shown as written. */
  lemma TallImageFails(p: Palette, next: seq<Pixel>, width: nat, i: nat)
    requires AllBlack(p) && AllWhite(next) && width >= 2 && 1310 * (width + 1) <= i < |next|
    ensures !Faithful(p, LastAt([], i), Cast(After(p, [], Seed(next), |next|, width)[i]))
  {
    hide After, Closest, Distance, Rounded, Leaves, AllBlack, Floor;
    var q := Seed(next);
    WhiteGrows(p, next, width, |next|);
    BlackIsWellFormed(p);
    var v := After(p, [], q, i, width)[i].v;
    FloorHigh(width, i);
    LeavesLess(v, Floor(width, i), 65276 * 1311);
    OutOfReach(p, v);
    NothingFound(p, v);
    AfterWritten(p, [], q, |next|, width);
  }

  lemma FloorHigh(width: nat, i: nat)
    requires width > 0 && 1310 * (width + 1) <= i
    ensures Floor(width, i) >= 65276 * 1311
  {
    Quotient(i, width + 1);
    LessFactor(1309, i / (width + 1), width + 1);
  }

  lemma LeavesLess(v: Wanted, e: int, d: int)
    requires Leaves(v, e) && d <= e
    ensures Leaves(v, d)
  {
  }

  lemma NothingFound(p: Palette, v: Wanted)
    requires WellFormed(p) && Pow2(p.depth) <= 256
    requires forall k :: 0 <= k < Pow2(p.depth) ==> Distance(Rounded(v), p.colours[k]) >= FAR
    ensures var c := Choose(p, Nothing, v); c.Take? && c.ind == TRANSPARENT
  {
    hide Closest, Distance, Rounded;
    TableBound(p.depth);
    CoversRoot(p.depth);
    ClosestIsCandidate(p, Rounded(v), Best(0, FAR), 1, 0, p.depth);
  }

  /** So a tall white image under a black palette is not shown as written. */
  lemma TallImageNotShown(p: Palette, next: seq<Pixel>, width: nat, height: nat)
    requires AllBlack(p) && ZeroSplit(p) && OrderedTree(p) && AllWhite(next)
    requires width >= 2 && 1310 * (width + 1) < |next| == width * height
    ensures !AllShown(p, [], next, width)
  {
    hide AllBlack, ZeroSplit, OrderedTree, AllWhite, DitherShown, Faithful, Cast, After;
    BlackIsWellFormed(p);
    TallImageFails(p, next, width, |next| - 1);
    DitherShownIff(p, [], next, width, height, |next| - 1);
  }
}
