/** Reading and writing rectangles of a terminal's pixel buffer, which may stick out of the
    screen on every side. */
module TermPixels {
  import opened Arithmetic
  import opened Bits
  import opened Options

  /** Trailing zeros of a positive number, else 0. */
  function Log2i(num: int): (r: nat)
    decreases num
  {
    if num <= 0 || num % 2 == 1 then 0 else 1 + Log2i(num / 2)
  }

  /** What a table of numbers or strings can hold for one row. */
  datatype Cell = Num(n: int) | NotNumber
  datatype Row = Text(bytes: seq<Byte>) | Numbers(cells: seq<Cell>) | NoRow

  datatype Shape = Solid(colour: int) | Rows(rows: seq<Row>) | NoShape

  /** The optional last argument of a read: strings or numbers. */
  datatype Flag = Absent | Given(strings: bool) | NotBoolean

  datatype Outcome = Done | BadArgument(n: nat)

  /** A validated drawing: an absent width is the length of each row. */
  datatype Drawing = Drawing(x: int, y: int, shape: Shape, width: Option<int>, height: int, wide: bool)

  /** The byte a colour number is stored as; `wide` is 256-colour mode. */
  function Stored(wide: bool, colour: int): Byte
  {
    if wide then colour % 256 else Log2i(colour) % 256
  }

  // ---------------------------------------------------------------- the screen

  function Area(width: nat, height: nat): nat
  {
    width * height
  }

  lemma RowsFit(width: nat, y: nat, z: nat)
    requires y < z
    ensures y * width + width <= z * width
  {
    assert (y + 1) * width <= z * width;
  }

  /** The place of a pixel in the flat buffer. */
  function At(width: nat, height: nat, x: int, y: int): (i: nat)
    requires 0 <= x < width && 0 <= y < height
    ensures i < Area(width, height)
  {
    RowsFit(width, y, height);
    y * width + x
  }

  /** A run of pixels in one row is a run in the buffer. */
  lemma RunInRow(width: nat, height: nat, x0: int, y0: int, x: int, y: int, n: nat)
    requires 0 <= x0 < width && 0 <= y0 < height && 0 <= x < width && 0 <= y < height && x0 + n <= width
    ensures (At(width, height, x0, y0) <= At(width, height, x, y) < At(width, height, x0, y0) + n) <==>
            (y == y0 && x0 <= x < x0 + n)
    ensures At(width, height, x0, y0) + n <= Area(width, height)
  {
    RowsFit(width, y0, height);
    if y < y0 {
      RowsFit(width, y, y0);
    } else if y0 < y {
      RowsFit(width, y0, y);
    }
  }

  // ---------------------------------------------------------------- what drawing means

  /** The colour a drawing gives to the cell `w` to the right and `h` below its origin. */
  function Colour(d: Drawing, w: int, h: int): Option<Byte>
  {
    if !(0 <= h < d.height) || w < 0 || (d.width.Some? && w >= d.width.value) then None
    else match d.shape
      case Solid(colour) => if colour >= 0 then Some(Stored(d.wide, colour)) else None
      case Rows(rows) => if h < |rows| then RowColour(rows[h], w, d.wide) else None
      case NoShape => None
  }

  function RowColour(row: Row, w: nat, wide: bool): Option<Byte>
  {
    match row
    case Text(bytes) => if w < |bytes| then Some(bytes[w]) else None
    case Numbers(cells) =>
      if w < |cells| && cells[w].Num? && cells[w].n >= 0 then Some(Stored(wide, cells[w].n)) else None
    case NoRow => None
  }

  function Over(colour: Option<Byte>, was: Byte): Byte
  {
    if colour.Some? then colour.value else was
  }

  /** The pixel after a drawing. */
  function Drawn(d: Drawing, x: int, y: int, was: Byte): Byte
  {
    Over(Colour(d, x - d.x, y - d.y), was)
  }

  /** The screen after the first `h` rows of a drawing. */
  ghost predicate Upto(width: nat, height: nat, d: Drawing, before: seq<Byte>, after: seq<Byte>, h: int)
    requires |before| == |after| == Area(width, height)
  {
    forall x, y :: 0 <= x < width && 0 <= y < height ==>
                     after[At(width, height, x, y)] ==
                     if y - d.y < h then Drawn(d, x, y, before[At(width, height, x, y)])
                     else before[At(width, height, x, y)]
  }

  /** One row of a drawing was drawn, nothing else. */
  ghost predicate RowDrawn(width: nat, height: nat, d: Drawing, before: seq<Byte>, after: seq<Byte>, h: int)
    requires |before| == |after| == Area(width, height)
  {
    forall x, y :: 0 <= x < width && 0 <= y < height ==>
                     after[At(width, height, x, y)] ==
                     if y - d.y == h then Drawn(d, x, y, before[At(width, height, x, y)])
                     else before[At(width, height, x, y)]
  }

  lemma RowDone(width: nat, height: nat, d: Drawing, before: seq<Byte>, mid: seq<Byte>, after: seq<Byte>, h: int)
    requires |before| == |mid| == |after| == Area(width, height)
    requires Upto(width, height, d, before, mid, h) && RowDrawn(width, height, d, mid, after, h)
    ensures Upto(width, height, d, before, after, h + 1)
  {
    hide At, Drawn;
  }

  /** Where a whole drawing was put on the screen. */
  ghost predicate Shows(width: nat, height: nat, d: Drawing, before: seq<Byte>, after: seq<Byte>)
    requires |before| == |after| == Area(width, height)
  {
    forall x, y :: 0 <= x < width && 0 <= y < height ==>
                     after[At(width, height, x, y)] == Drawn(d, x, y, before[At(width, height, x, y)])
  }

  lemma AllRows(width: nat, height: nat, d: Drawing, before: seq<Byte>, after: seq<Byte>, h: int)
    requires |before| == |after| == Area(width, height)
    requires Upto(width, height, d, before, after, h) && h >= Min(d.height, height - d.y)
    ensures Shows(width, height, d, before, after)
  {
    hide At;
  }

  lemma NoRows(width: nat, height: nat, d: Drawing, before: seq<Byte>, h: int)
    requires |before| == Area(width, height) && h <= Max(-d.y, 0)
    ensures Upto(width, height, d, before, before, h)
  {
    hide At;
  }

  /** A solid fill without a column on the screen. */
  lemma NothingWide(width: nat, height: nat, d: Drawing, before: seq<Byte>)
    requires |before| == Area(width, height) && d.shape.Solid? && d.width.Some?
    requires Min(d.width.value, width - d.x) + Min(d.x, 0) <= 0
    ensures Shows(width, height, d, before, before)
  {
    hide At;
  }

  lemma EmptyRow(width: nat, height: nat, d: Drawing, before: seq<Byte>, h: int)
    requires |before| == Area(width, height) && d.shape.Rows? && h >= 0 &&
             (h < |d.shape.rows| ==> d.shape.rows[h] == NoRow)
    ensures RowDrawn(width, height, d, before, before, h)
  {
    hide At;
  }

  lemma BeyondScreen(width: nat, height: nat, d: Drawing, before: seq<Byte>)
    requires |before| == Area(width, height) && (d.x >= width || d.y >= height)
    ensures Shows(width, height, d, before, before)
  {
    hide At;
  }

  lemma NegativeColour(width: nat, height: nat, d: Drawing, before: seq<Byte>)
    requires |before| == Area(width, height) && d.shape.Solid? && d.shape.colour < 0
    ensures Shows(width, height, d, before, before)
  {
    hide At;
  }

  /** The drawing a call asks for. */
  function Asked(x: int, y: int, shape: Shape, w: Option<int>, h: Option<int>, wide: bool): Drawing
  {
    var rows := if shape.Rows? then |shape.rows| else 0;
    Drawing(x, y, shape, w, if h.Some? then h.value else rows, wide)
  }

  /** Which calls are refused, and over which argument; `near` calls start left of the right
      edge and above the lower one. */
  function Verdict(near: bool, shape: Shape, w: Option<int>, h: Option<int>, wide: bool): Outcome
  {
    var solid := shape.Solid?;
    if !near then Done
    else if shape.NoShape? then BadArgument(3)
    else if solid && w.None? then BadArgument(4)
    else if solid && h.None? then BadArgument(5)
    else if w.Some? && w.value < 0 then BadArgument(4)
    else if h.Some? && h.value < 0 then BadArgument(5)
    else if solid && shape.colour >= 0 && (if wide then shape.colour > 255 else Log2i(shape.colour) > 15)
    then BadArgument(3)
    else Done
  }

  /** A fill with a colour that the mode has. */
  predicate InMode(colour: int, wide: bool)
  {
    if wide then colour < 256 else colour <= 0 || colour % 65536 != 0
  }

  predicate NotNegative(size: Option<int>) { size.Some? ==> size.value >= 0 }

  /** A call is accepted if and only if it starts beyond the screen, or is a fill with both sizes,
      none negative, and a colour of the mode, or is a table with no negative size. Otherwise the
      argument named is at fault. */
  lemma VerdictIs(near: bool, shape: Shape, w: Option<int>, h: Option<int>, wide: bool)
    ensures Verdict(near, shape, w, h, wide) == Done <==>
            || !near
            || (shape.Rows? && NotNegative(w) && NotNegative(h))
            || (shape.Solid? && w.Some? && h.Some? && NotNegative(w) && NotNegative(h) && InMode(shape.colour, wide))
    ensures var o := Verdict(near, shape, w, h, wide);
            && (o == BadArgument(3) ==> shape.NoShape? || (shape.Solid? && !InMode(shape.colour, wide)))
            && (o == BadArgument(4) ==> w.None? || w.value < 0)
            && (o == BadArgument(5) ==> h.None? || h.value < 0)
            && (o.BadArgument? ==> 3 <= o.n <= 5)
  {
    hide Log2i;
    if shape.Solid? {
      ManyZerosIff(shape.colour);
    }
  }

  lemma {:induction false} PowerDivides(num: int, n: nat) returns (q: nat)
    requires Log2i(num) > n
    ensures num == q * Pow2(n + 1) > 0
    decreases n
  {
    if n == 0 {
      q := num / 2;
    } else {
      q := PowerDivides(num / 2, n - 1);
      assert num == 2 * (q * Pow2(n)) == q * Pow2(n + 1);
    }
  }

  lemma {:induction false} DividedByPower(num: int, n: nat, q: nat)
    requires num == q * Pow2(n + 1) > 0
    ensures Log2i(num) > n
    decreases n
  {
    assert num == 2 * (q * Pow2(n));
    if n > 0 {
      DividedByPower(num / 2, n - 1, q);
    }
  }

  /** A number has more than 15 trailing zeros exactly when 65536 divides it. */
  lemma ManyZerosIff(num: int)
    ensures Log2i(num) > 15 <==> num > 0 && num % 65536 == 0
  {
    hide Log2i;
    Pow2Eight();
    assert Pow2(10) == 1024;
    assert Pow2(12) == 4096;
    assert Pow2(14) == 16384;
    assert Pow2(16) == 65536;
    if Log2i(num) > 15 {
      var q := PowerDivides(num, 15);
    }
    if num > 0 && num % 65536 == 0 {
      DividedByPower(num, 15, num / 65536);
    }
  }

  /** The pixel at a place, if it is on the screen. */
  function Look(width: nat, height: nat, cells: seq<Byte>, x: int, y: int): Option<Byte>
    requires |cells| == Area(width, height)
  {
    if 0 <= x < width && 0 <= y < height then Some(cells[At(width, height, x, y)]) else None
  }

  /** Strings show the world outside the screen in colour 15. */
  function Shade(p: Option<Byte>): Byte
  {
    if p.Some? then p.value else 15
  }

  function Number(wide: bool, p: Option<Byte>): int
  {
    if p.None? then -1 else if wide then p.value else Pow2(p.value)
  }

  ghost predicate TextsOf(width: nat, height: nat, cells: seq<Byte>, x: int, y: int, w: int, h: int, rows: seq<Row>)
    requires |cells| == Area(width, height)
  {
    && |rows| == h
    && forall k :: 0 <= k < h ==>
                     rows[k].Text? && |rows[k].bytes| == w
                     && forall j :: 0 <= j < w ==> rows[k].bytes[j] == Shade(Look(width, height, cells, x + j, y + k))
  }

  ghost predicate NumbersOf(width: nat, height: nat, cells: seq<Byte>, x: int, y: int, w: int, h: int, wide: bool,
                            rows: seq<Row>)
    requires |cells| == Area(width, height)
  {
    && |rows| == h
    && forall k :: 0 <= k < h ==>
                     rows[k].Numbers? && |rows[k].cells| == w
                     && forall j :: 0 <= j < w ==>
                       rows[k].cells[j] == Num(Number(wide, Look(width, height, cells, x + j, y + k)))
  }

  class Screen {
    const width: nat
    const height: nat
    const pixels: array<Byte>
    var wide: bool
    var changed: bool

    constructor (w: nat, h: nat, mode256: bool)
      ensures Valid() && width == w && height == h && wide == mode256 && !changed && fresh(pixels)
      ensures forall i :: 0 <= i < pixels.Length ==> pixels[i] == 15
    {
      width, height, wide, changed := w, h, mode256, false;
      pixels := new Byte[Area(w, h)](_ => 15);
    }

    ghost predicate Valid()
    {
      pixels.Length == Area(width, height)
    }

    method Memset(start: nat, value: Byte, n: nat)
      requires start + n <= pixels.Length
      modifies pixels
      ensures forall i :: 0 <= i < pixels.Length ==>
                pixels[i] == if start <= i < start + n then value else old(pixels[i])
    {
      for k := 0 to n
        invariant forall i :: 0 <= i < pixels.Length ==>
                    pixels[i] == if start <= i < start + k then value else old(pixels[i])
      {
        pixels[start + k] := value;
      }
    }

    method Memcpy(start: nat, bytes: seq<Byte>)
      requires start + |bytes| <= pixels.Length
      modifies pixels
      ensures forall i :: 0 <= i < pixels.Length ==>
                pixels[i] == if start <= i < start + |bytes| then bytes[i - start] else old(pixels[i])
    {
      for k := 0 to |bytes|
        invariant forall i :: 0 <= i < pixels.Length ==>
                    pixels[i] == if start <= i < start + k then bytes[i - start] else old(pixels[i])
      {
        pixels[start + k] := bytes[k];
      }
    }

    /** One row of a solid fill. */
    method FillRow(d: Drawing, h: int, index: Byte, x0: nat, n: nat)
      requires Valid() && 0 <= h < d.height && 0 <= h + d.y < height && n > 0 && x0 + n <= width
      requires d.shape.Solid? && d.shape.colour >= 0 && index == Stored(d.wide, d.shape.colour)
      requires d.width.Some? && x0 == Max(d.x, 0) && x0 + n == Min(d.x + d.width.value, width)
      modifies pixels
      ensures RowDrawn(width, height, d, old(pixels[..]), pixels[..], h)
    {
      RunInRow(width, height, x0, h + d.y, x0, h + d.y, n);
      Memset(At(width, height, x0, h + d.y), index, n);
      forall x, y | 0 <= x < width && 0 <= y < height
        ensures pixels[At(width, height, x, y)] ==
                if y - d.y == h then Drawn(d, x, y, old(pixels[At(width, height, x, y)]))
                else old(pixels[At(width, height, x, y)])
      {
        hide At;
        RunInRow(width, height, x0, h + d.y, x, y, n);
      }
    }

    method FillSolid(d: Drawing)
      requires Valid() && d.x < width && d.y < height && d.shape.Solid? && d.shape.colour >= 0
      requires d.width.Some? && d.width.value >= 0 && d.height >= 0
      modifies pixels, this`changed
      ensures Shows(width, height, d, old(pixels[..]), pixels[..])
      ensures changed || (changed == old(changed) && pixels[..] == old(pixels[..]))
    {
      hide Stored, RowDrawn, Upto, Shows, At, Area;
      var index := Stored(d.wide, d.shape.colour);
      var x0 := Max(d.x, 0);
      var n := Max(Min(d.width.value, Max(width - d.x, 0)) + Min(d.x, 0), 0);
      if n == 0 {
        NothingWide(width, height, d, pixels[..]);
        return;
      }
      var cool := Min(d.height, height - d.y);
      var h := Max(-d.y, 0);
      NoRows(width, height, d, pixels[..], h);
      while h < cool
        invariant h >= Max(-d.y, 0)
        invariant Upto(width, height, d, old(pixels[..]), pixels[..], h)
      {
        ghost var mid := pixels[..];
        FillRow(d, h, index, x0, n);
        RowDone(width, height, d, old(pixels[..]), mid, pixels[..], h);
        h := h + 1;
      }
      AllRows(width, height, d, old(pixels[..]), pixels[..], h);
      changed := true;
    }

    /** A row given as a string. */
    method TextRow(d: Drawing, h: int, bytes: seq<Byte>)
      requires Valid() && d.x < width && 0 <= h < d.height && 0 <= h + d.y < height
      requires d.shape.Rows? && h < |d.shape.rows| && d.shape.rows[h] == Text(bytes)
      requires d.width.Some? ==> d.width.value >= 0
      modifies pixels
      ensures RowDrawn(width, height, d, old(pixels[..]), pixels[..], h)
    {
      var offset, maxLen := Max(-d.x, 0), width - d.x;
      if offset >= maxLen {
        return;
      }
      var len := |bytes|;
      if len > maxLen {
        len := maxLen;
      }
      if d.width.Some? && d.width.value < len {
        len := d.width.value;
      }
      if offset < len {
        RunInRow(width, height, d.x + offset, h + d.y, d.x + offset, h + d.y, len - offset);
        Memcpy(At(width, height, d.x + offset, h + d.y), bytes[offset..len]);
        forall x, y | 0 <= x < width && 0 <= y < height
          ensures pixels[At(width, height, x, y)] ==
                  if y - d.y == h then Drawn(d, x, y, old(pixels[At(width, height, x, y)]))
                  else old(pixels[At(width, height, x, y)])
        {
          RunInRow(width, height, d.x + offset, h + d.y, x, y, len - offset);
        }
      }
    }

    /** A row given as numbers; negative ones and other values leave the pixel alone. */
    method NumbersRow(d: Drawing, h: int, cells: seq<Cell>)
      requires Valid() && d.x < width && 0 <= h < d.height && 0 <= h + d.y < height
      requires d.shape.Rows? && h < |d.shape.rows| && d.shape.rows[h] == Numbers(cells)
      requires d.width.Some? ==> d.width.value >= 0
      modifies pixels
      ensures RowDrawn(width, height, d, old(pixels[..]), pixels[..], h)
    {
      var coolWidth := if d.width.None? then Min(|cells|, Max(width - d.x, 0)) else Min(d.width.value, width - d.x);
      var w := Max(-d.x, 0);
      while w < coolWidth
        invariant w >= Max(-d.x, 0)
        invariant forall x, y :: 0 <= x < width && 0 <= y < height ==>
                                   pixels[At(width, height, x, y)] ==
                                   if y - d.y == h && x - d.x < w
                                   then Drawn(d, x, y, old(pixels[At(width, height, x, y)]))
                                   else old(pixels[At(width, height, x, y)])
      {
        if w < |cells| && cells[w].Num? && cells[w].n >= 0 {
          pixels[At(width, height, d.x + w, d.y + h)] := Stored(d.wide, cells[w].n);
          forall x, y | 0 <= x < width && 0 <= y < height
            ensures At(width, height, x, y) == At(width, height, d.x + w, d.y + h) <==> x == d.x + w && y == d.y + h
          {
            RunInRow(width, height, d.x + w, d.y + h, x, y, 1);
          }
        }
        w := w + 1;
      }
    }

    method DrawRows(d: Drawing)
      requires Valid() && d.x < width && d.y < height && d.shape.Rows?
      requires d.width.Some? ==> d.width.value >= 0
      modifies pixels, this`changed
      ensures Shows(width, height, d, old(pixels[..]), pixels[..]) && changed
    {
      hide RowDrawn, Upto, Shows, At, Area;
      var cool := Min(d.height, height - d.y);
      var h := Max(-d.y, 0);
      NoRows(width, height, d, pixels[..], h);
      while h < cool
        invariant h >= Max(-d.y, 0)
        invariant Upto(width, height, d, old(pixels[..]), pixels[..], h)
      {
        ghost var mid := pixels[..];
        var row := if h < |d.shape.rows| then d.shape.rows[h] else NoRow;
        match row {
          case Text(bytes) => TextRow(d, h, bytes);
          case Numbers(cells) => NumbersRow(d, h, cells);
          case NoRow => EmptyRow(width, height, d, mid, h);
        }
        RowDone(width, height, d, old(pixels[..]), mid, pixels[..], h);
        h := h + 1;
      }
      AllRows(width, height, d, old(pixels[..]), pixels[..], h);
      changed := true;
    }

    /** The call, with its arguments checked in order. Absent sizes: each row's own length, and
        the number of rows. */
    method DrawPixels(x: int, y: int, shape: Shape, w: Option<int>, h: Option<int>) returns (o: Outcome)
      requires Valid()
      modifies pixels, this`changed
      ensures o == Verdict(x < width && y < height, shape, w, h, wide)
      ensures o.Done? ==> Shows(width, height, Asked(x, y, shape, w, h, wide), old(pixels[..]), pixels[..])
      ensures !o.Done? ==> pixels[..] == old(pixels[..])
      ensures changed || (changed == old(changed) && pixels[..] == old(pixels[..]))
    {
      hide Shows, Log2i, Area;
      var d := Asked(x, y, shape, w, h, wide);
      if x >= width || y >= height {
        BeyondScreen(width, height, d, pixels[..]);
        return Done;
      }
      if shape.NoShape? {
        return BadArgument(3);
      }
      if shape.Solid? && w.None? {
        return BadArgument(4);
      }
      if shape.Solid? && h.None? {
        return BadArgument(5);
      }
      if w.Some? && w.value < 0 {
        return BadArgument(4);
      }
      if h.Some? && h.value < 0 {
        return BadArgument(5);
      }
      if shape.Solid? {
        if shape.colour < 0 {
          NegativeColour(width, height, d, pixels[..]);
          return Done;
        }
        if if wide then shape.colour > 255 else Log2i(shape.colour) > 15 {
          return BadArgument(3);
        }
        FillSolid(d);
      } else {
        DrawRows(d);
      }
      o := Done;
    }

    /** One row read as a string. */
    method ReadText(x: int, y: int, h: int, w: nat, minH: int, maxH: int, minW: int, maxW: int)
      returns (bytes: seq<Byte>)
      requires Valid() && 0 <= h && minH == Max(-y, 0) && maxH <= height - y && (h >= maxH ==> h >= height - y)
      requires minW == Max(-x, 0) && maxW == Min(w, width - x)
      ensures |bytes| == w && forall k :: 0 <= k < w ==>
                bytes[k] == Shade(Look(width, height, pixels[..], x + k, y + h))
    {
      var bg: seq<Byte> := seq(w, _ => 15);
      if h < minH || h >= maxH || minW >= maxW {
        bytes := bg;
      } else {
        bytes := [];
        if minW > 0 {
          bytes := bg[..minW];
        }
        RunInRow(width, height, x + minW, y + h, x + minW, y + h, maxW - minW);
        var start := At(width, height, x + minW, y + h);
        bytes := bytes + pixels[start..start + (maxW - minW)];
        if maxW < w {
          bytes := bytes + bg[..w - maxW];
        }
      }
    }

    /** One row read as numbers, -1 outside the screen. */
    method ReadNumbers(x: int, y: int, h: int, w: nat, minH: int, maxH: int, minW: int, maxW: int)
      returns (cells: seq<Cell>)
      requires Valid() && 0 <= h && minH == Max(-y, 0) && maxH <= height - y && (h >= maxH ==> h >= height - y)
      requires minW == Max(-x, 0) && maxW == Min(w, width - x)
      ensures |cells| == w && forall k :: 0 <= k < w ==>
                cells[k] == Num(Number(wide, Look(width, height, pixels[..], x + k, y + h)))
    {
      cells := [];
      for k := 0 to w
        invariant |cells| == k
        invariant forall j :: 0 <= j < k ==>
                    cells[j] == Num(Number(wide, Look(width, height, pixels[..], x + j, y + h)))
      {
        if h < minH || h >= maxH || k < minW || k >= maxW {
          cells := cells + [Num(-1)];
        } else if wide {
          cells := cells + [Num(pixels[At(width, height, x + k, y + h)])];
        } else {
          cells := cells + [Num(Pow2(pixels[At(width, height, x + k, y + h)]))];
        }
      }
    }

    method GetPixels(x: int, y: int, w: int, h: int, flag: Flag) returns (o: Outcome, rows: seq<Row>)
      requires Valid()
      ensures o == if w < 0 then BadArgument(3) else if h < 0 then BadArgument(4)
              else if flag == NotBoolean then BadArgument(5) else Done
      ensures o.Done? && flag == Given(true) ==> TextsOf(width, height, pixels[..], x, y, w, h, rows)
      ensures o.Done? && flag != Given(true) ==> NumbersOf(width, height, pixels[..], x, y, w, h, wide, rows)
    {
      hide Look, Shade, Number, Area;
      rows := [];
      if w < 0 {
        return BadArgument(3), rows;
      }
      if h < 0 {
        return BadArgument(4), rows;
      }
      if flag == NotBoolean {
        return BadArgument(5), rows;
      }
      var strings := flag == Given(true);
      var minH, maxH, minW, maxW := Max(-y, 0), Min(h, height - y), Max(-x, 0), Min(w, width - x);
      for k := 0 to h
        invariant |rows| == k
        invariant strings ==> TextsOf(width, height, pixels[..], x, y, w, k, rows)
        invariant !strings ==> NumbersOf(width, height, pixels[..], x, y, w, k, wide, rows)
      {
        if strings {
          var bytes := ReadText(x, y, k, w, minH, maxH, minW, maxW);
          rows := rows + [Text(bytes)];
        } else {
          var cells := ReadNumbers(x, y, k, w, minH, maxH, minW, maxW);
          rows := rows + [Numbers(cells)];
        }
      }
      o := Done;
    }
  }

  // ---------------------------------------------------------------- reading and writing back

  lemma {:induction false} EveryPlace(width: nat, height: nat, i: nat) returns (x: nat, y: nat)
    requires i < Area(width, height)
    ensures x < width && y < height && At(width, height, x, y) == i
    decreases height
  {
    if i < (height - 1) * width {
      x, y := EveryPlace(width, height - 1, i);
    } else {
      assert height > 0 && height * width == (height - 1) * width + width;
      x, y := i - (height - 1) * width, height - 1;
    }
  }

  lemma SameScreen(width: nat, height: nat, before: seq<Byte>, after: seq<Byte>)
    requires |before| == |after| == Area(width, height)
    requires forall x, y :: 0 <= x < width && 0 <= y < height ==>
               after[At(width, height, x, y)] == before[At(width, height, x, y)]
    ensures after == before
  {
    hide At, Area;
    forall i | 0 <= i < |after|
      ensures after[i] == before[i]
    {
      var x, y := EveryPlace(width, height, i);
    }
  }

  /** Writing back the string rows of any rectangle, wherever it lies and whatever sizes the
      call gives, leaves the screen as it was. */
  lemma WriteBackText(width: nat, height: nat, before: seq<Byte>, after: seq<Byte>, x: int, y: int, w: int, h: int,
                      rows: seq<Row>, dw: Option<int>, dh: Option<int>, wide: bool)
    requires |before| == |after| == Area(width, height)
    requires TextsOf(width, height, before, x, y, w, h, rows)
    requires Shows(width, height, Asked(x, y, Rows(rows), dw, dh, wide), before, after)
    ensures after == before
  {
    hide At, Area, Shows, Stored;
    forall px, py | 0 <= px < width && 0 <= py < height
      ensures after[At(width, height, px, py)] == before[At(width, height, px, py)]
    {
      DrawnRows(width, height, before, after, x, y, rows, dw, dh, wide, py - y, px - x);
      if 0 <= py - y < |rows| && 0 <= px - x < w {
        assert rows[py - y].bytes[px - x] == Shade(Look(width, height, before, x + (px - x), y + (py - y)));
      }
    }
    SameScreen(width, height, before, after);
  }

  lemma {:induction false} Log2iOfPow2(p: nat)
    ensures Log2i(Pow2(p)) == p
  {
    if p > 0 {
      Log2iOfPow2(p - 1);
      assert Pow2(p) == 2 * Pow2(p - 1);
    }
  }

  lemma NumberIsStored(wide: bool, p: Byte)
    ensures Stored(wide, Number(wide, Some(p))) == p
  {
    Log2iOfPow2(p);
  }

  /** So does writing back the rows of numbers. */
  lemma WriteBackNumbers(width: nat, height: nat, before: seq<Byte>, after: seq<Byte>, x: int, y: int, w: int, h: int,
                         rows: seq<Row>, dw: Option<int>, dh: Option<int>, wide: bool)
    requires |before| == |after| == Area(width, height)
    requires NumbersOf(width, height, before, x, y, w, h, wide, rows)
    requires Shows(width, height, Asked(x, y, Rows(rows), dw, dh, wide), before, after)
    ensures after == before
  {
    hide At, Area, Shows, Stored, Number;
    forall px, py | 0 <= px < width && 0 <= py < height
      ensures after[At(width, height, px, py)] == before[At(width, height, px, py)]
    {
      DrawnRows(width, height, before, after, x, y, rows, dw, dh, wide, py - y, px - x);
      if 0 <= py - y < |rows| && 0 <= px - x < w {
        assert rows[py - y].cells[px - x] == Num(Number(wide, Look(width, height, before, x + (px - x), y + (py - y))));
        NumberIsStored(wide, before[At(width, height, px, py)]);
      }
    }
    SameScreen(width, height, before, after);
  }

  /** In either colour mode a solid fill colours the part of its rectangle that is on the
      screen, and nothing else. */
  lemma SolidFill(width: nat, height: nat, before: seq<Byte>, after: seq<Byte>, x: int, y: int, colour: nat, w: nat,
                  h: nat, wide: bool)
    requires |before| == |after| == Area(width, height)
    requires Shows(width, height, Asked(x, y, Solid(colour), Some(w), Some(h), wide), before, after)
    ensures forall px, py :: 0 <= px < width && 0 <= py < height ==>
                               Look(width, height, after, px, py) ==
                               if x <= px < x + w && y <= py < y + h then Some(Stored(wide, colour))
                               else Look(width, height, before, px, py)
  {
    hide At, Area;
  }

  /** What a read returns: on the screen the pixel, as a byte, or as a number that is a power of two
      in 16-colour mode; outside it 15 in strings and -1 in numbers. */
  lemma ReadCells(width: nat, height: nat, cells: seq<Byte>, x: int, y: int, w: int, h: int, wide: bool,
                  texts: seq<Row>, numbers: seq<Row>, j: nat, k: nat)
    requires |cells| == Area(width, height) && j < w && k < h
    requires TextsOf(width, height, cells, x, y, w, h, texts)
    requires NumbersOf(width, height, cells, x, y, w, h, wide, numbers)
    ensures var inside := 0 <= x + j < width && 0 <= y + k < height;
            && texts[k].bytes[j] == (if inside then cells[At(width, height, x + j, y + k)] else 15)
            && numbers[k].cells[j] == Num(if !inside then -1
                                          else if wide then cells[At(width, height, x + j, y + k)]
                                          else Pow2(cells[At(width, height, x + j, y + k)]))
  {
    hide At, Area, Pow2;
  }

  /** Drawing rows of strings and numbers, at any origin and with any sizes: exactly the cells that
      the rows, the sizes and the screen have in common change, to what the rows say. */
  lemma DrawnRows(width: nat, height: nat, before: seq<Byte>, after: seq<Byte>, x: int, y: int, rows: seq<Row>,
                  dw: Option<int>, dh: Option<int>, wide: bool, r: int, k: int)
    requires |before| == |after| == Area(width, height)
    requires Shows(width, height, Asked(x, y, Rows(rows), dw, dh, wide), before, after)
    requires 0 <= x + k < width && 0 <= y + r < height
    ensures var drawn := 0 <= r < |rows| && 0 <= k && (dw.Some? ==> k < dw.value) && (dh.Some? ==> r < dh.value);
            Look(width, height, after, x + k, y + r) ==
            if drawn && rows[r].Text? && k < |rows[r].bytes| then Some(rows[r].bytes[k])
            else if drawn && rows[r].Numbers? && k < |rows[r].cells| && rows[r].cells[k].Num? && rows[r].cells[k].n >= 0
                 then Some(Stored(wide, rows[r].cells[k].n))
            else Look(width, height, before, x + k, y + r)
  {
    hide At, Area, Stored;
    assert after[At(width, height, x + k, y + r)] ==
           Drawn(Asked(x, y, Rows(rows), dw, dh, wide), x + k, y + r, before[At(width, height, x + k, y + r)]);
  }

  /** What a number put on the screen is what is read there: a byte in 256-colour mode, or a power
      of two in 16-colour mode. */
  lemma DrawnNumberIsRead(width: nat, height: nat, before: seq<Byte>, after: seq<Byte>, x: int, y: int,
                          rows: seq<Row>, wide: bool, r: nat, k: nat, p: Byte)
    requires |before| == |after| == Area(width, height)
    requires Shows(width, height, Asked(x, y, Rows(rows), None, None, wide), before, after)
    requires r < |rows| && rows[r].Numbers? && k < |rows[r].cells| && 0 <= x + k < width && 0 <= y + r < height
    requires rows[r].cells[k] == Num(if wide then p else Pow2(p))
    ensures Num(Number(wide, Look(width, height, after, x + k, y + r))) == rows[r].cells[k]
  {
    hide Shows, At, Area, Stored, Pow2;
    Pow2Positive(p);
    DrawnRows(width, height, before, after, x, y, rows, None, None, wide, r, k);
    NumberIsStored(wide, p);
  }

  lemma {:induction false} Pow2Positive(n: nat)
    ensures Pow2(n) > 0
  {
    if n > 0 {
      Pow2Positive(n - 1);
    }
  }

  /** What a string row put on the screen is what is read there. */
  lemma DrawnIsRead(width: nat, height: nat, before: seq<Byte>, after: seq<Byte>, x: int, y: int, rows: seq<Row>,
                    wide: bool, h: nat, k: nat)
    requires |before| == |after| == Area(width, height)
    requires Shows(width, height, Asked(x, y, Rows(rows), None, None, wide), before, after)
    requires h < |rows| && rows[h].Text? && k < |rows[h].bytes| && 0 <= x + k < width && 0 <= y + h < height
    ensures Look(width, height, after, x + k, y + h) == Some(rows[h].bytes[k])
  {
    hide At, Area;
    assert after[At(width, height, x + k, y + h)] ==
           Drawn(Asked(x, y, Rows(rows), None, None, wide), x + k, y + h, before[At(width, height, x + k, y + h)]);
  }
}
