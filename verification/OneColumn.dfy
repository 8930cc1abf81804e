/** Error diffusion over a single column. The share for the pixel below left wraps around to
    the pixel that was just written, so what a decoder shows depends on the error it left. */
module OneColumn {
  import opened Bits
  import opened Colours
  import opened Diffusion
  import opened Dither
  import opened PaletteSearch
  import opened Threshold

  /** In a single column the share for the pixel below left comes back to the pixel
      itself, after its colour has been written. */
  lemma OneColumnReturns(p: Palette, last: Previous, q: seq<Quant>, i: nat, width: nat)
    requires WellFormed(p) && i < |q| && Choose(p, last, q[i].v).Take? && width == 1
    ensures var c := Choose(p, last, q[i].v);
            Visit(p, last, q, i, width)[i] == Quant(Push(Plain(c.colour), c.err, 3), c.ind)
  {
    hide Choose, Push;
  }

  /** What a visit leaves of a choice in a single column. */
  function Returned(c: Choice): Quant
  {
    match c
    case Keep(wanted) => Quant(wanted, TRANSPARENT)
    case Take(ind, colour, err) => Quant(Push(Plain(colour), err, 3), ind)
  }

  lemma VisitColumn(p: Palette, last: Previous, q: seq<Quant>, i: nat, width: nat)
    requires WellFormed(p) && i < |q| && width == 1
    ensures Visit(p, last, q, i, width)[i] == Returned(Choose(p, last, q[i].v))
    ensures forall j :: 0 <= j < i ==> Visit(p, last, q, i, width)[j] == q[j]
  {
    hide Choose, Push;
  }

  /** After its own visit a pixel is final here too. */
  lemma {:induction false} ColumnWritten(p: Palette, last: seq<Rgb>, q: seq<Quant>, n: nat, width: nat)
    requires WellFormed(p) && n <= |q| && width == 1
    ensures forall j :: 0 <= j < n ==> After(p, last, q, n, width)[j] == Returned(ChoiceAt(p, last, q, width, j))
  {
    hide Visit, Returned, Choose;
    if n > 0 {
      ColumnWritten(p, last, q, n - 1, width);
      VisitColumn(p, LastAt(last, n - 1), After(p, last, q, n - 1, width), n - 1, width);
    }
  }

  /** Does a channel come out as it was written, given the error it left? The share must be a
      multiple of 256, or negative where the channel is dark already. */
  predicate Survives(x: Byte, err: int)
  {
    var share := Trunc(err * 3, 16);
    if share < 0 then x == 0 else share % 256 == 0
  }

  lemma SurvivesIff(x: Byte, err: int)
    ensures Byte256(Nudge(x, err, 3)) == x <==> Survives(x, err)
  {
    var share := Trunc(err * 3, 16);
    if share >= 0 {
      assert (x + share) % 256 == (x + share % 256) % 256;
    }
  }

  predicate ColourSurvives(c: Choice)
    requires c.Take?
  {
    Survives(c.colour.r, c.err.r) && Survives(c.colour.g, c.err.g) && Survives(c.colour.b, c.err.b)
  }

  /** The colour that comes out. */
  function Emerging(c: Choice): Rgb
    requires c.Take?
  {
    var v := Push(Plain(c.colour), c.err, 3);
    Rgb(Byte256(v.r), Byte256(v.g), Byte256(v.b))
  }

  /** Whether a decoder shows a pixel of a column as it was written. */
  ghost predicate ColumnShown(last: Previous, c: Choice)
  {
    c.Keep? || if c.ind != TRANSPARENT then ColourSurvives(c) else last == Shown(Emerging(c))
  }

  lemma ColumnShownIff(p: Palette, last: Previous, c: Choice)
    requires WellFormed(p)
    requires if c.Keep? then last.Shown? && c.wanted == Plain(last.rgb)
             else c.ind < Pow2(p.depth) && c.ind < 256 && c.colour == p.colours[c.ind]
    ensures Faithful(p, last, Cast(Returned(c))) <==> ColumnShown(last, c)
  {
    if c.Keep? {
      CastWritten(c, last.rgb);
    } else {
      CastIndex(Returned(c));
      SurvivesIff(c.colour.r, c.err.r);
      SurvivesIff(c.colour.g, c.err.g);
      SurvivesIff(c.colour.b, c.err.b);
    }
  }

  /** For a column of any height and any palette: a decoder shows a pixel as it was written
      exactly when the previous colour was kept, or the chosen colour survives the error it
      left, or, for the transparent index, the previous frame shows what came out. */
  lemma ColumnFaithfulIff(p: Palette, last: seq<Rgb>, next: seq<Pixel>, width: nat, i: nat)
    requires WellFormed(p) && width == 1 && i < |next|
    ensures Faithful(p, LastAt(last, i), Cast(After(p, last, Seed(next), |next|, width)[i])) <==>
            ColumnShown(LastAt(last, i), ChoiceAt(p, last, Seed(next), width, i))
  {
    hide After, Choose, Cast, Faithful, ColumnShown, Returned;
    var q := Seed(next);
    ColumnWritten(p, last, q, |next|, width);
    ChooseBounds(p, LastAt(last, i), After(p, last, q, i, width)[i].v);
    ColumnShownIff(p, LastAt(last, i), ChoiceAt(p, last, q, width, i));
  }

  /** Every entry of the palette is black. */
  ghost predicate AllBlack(p: Palette)
  {
    WellFormed(p) && Pow2(p.depth) <= 256 && forall i :: 0 <= i < Pow2(p.depth) ==> p.colours[i] == BLACK
  }

  const WHITE_SCALED := Wanted(65280, 65280, 65280)
  const GREY_SCALED := Wanted(12240, 12240, 12240)

  lemma ThreeSixteenths(c: Rgb, err: Wanted)
    requires c == BLACK && err == WHITE_SCALED
    ensures Push(Plain(c), err, 3) == GREY_SCALED
  {
    assert Trunc(65280 * 3, 16) == 12240;
  }

  lemma BlackLeavesAll(p: Palette, v: Wanted)
    requires AllBlack(p)
    ensures var c := Choose(p, Nothing, v); c.Take? && c.colour == BLACK && c.err == v
  {
    hide Choose;
    ChooseBounds(p, Nothing, v);
  }

  lemma GreyPixel(x: Quant)
    requires x.v == GREY_SCALED
    ensures Cast(x).rgb == Rgb(208, 208, 208)
  {
  }

  lemma AfterFirst(p: Palette, last: seq<Rgb>, q: seq<Quant>, n: nat, width: nat)
    requires WellFormed(p) && n == 1 <= |q| && width > 0
    ensures After(p, last, q, n, width) == Visit(p, LastAt(last, 0), q, 0, width)
  {
    AfterNone(p, last, q, width);
  }

  lemma OneBlackPixel(p: Palette, last: seq<Rgb>, q: seq<Quant>, n: nat, width: nat)
    requires AllBlack(p) && last == [] && n == |q| == 1 && width == 1
    ensures After(p, last, q, n, width)[0].v == Push(Plain(BLACK), q[0].v, 3)
  {
    hide Choose, Visit, Push, After, Plain;
    BlackLeavesAll(p, q[0].v);
    AfterFirst(p, last, q, n, width);
    OneColumnReturns(p, Nothing, q, 0, width);
  }

  /** An input for which it fails: a white pixel under an all-black palette leaves
      the pass as a grey that is in no entry of the palette. */
  lemma OneColumnFails(p: Palette, last: seq<Rgb>, next: seq<Pixel>, width: nat)
    requires AllBlack(p) && last == [] && |next| == 1 && next[0].rgb == Rgb(255, 255, 255) && width == 1
    ensures Cast(After(p, last, Seed(next), |next|, width)[0]).rgb == Rgb(208, 208, 208)
    ensures !Faithful(p, LastAt(last, 0), Cast(After(p, last, Seed(next), |next|, width)[0]))
  {
    hide Cast, After, Push;
    var q := Seed(next);
    OneBlackPixel(p, last, q, |next|, width);
    ThreeSixteenths(BLACK, q[0].v);
    GreyPixel(After(p, last, q, |next|, width)[0]);
  }
}
