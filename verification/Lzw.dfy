/** Variable-length-code LZW (GIF89a Appendix F). The decoder follows the standard: it
    keeps a table of strings and works one entry behind the encoder. The encoder is the
    greedy longest-match one, stated over the strings themselves. */
module Lzw {
  import opened Bits

  const MAX_CODES := 4096

  datatype Code = Code(value: nat, width: nat)

  /** The first code that is not yet assigned to a string. */
  function NextCode(depth: nat, table: seq<seq<Byte>>): nat
  {
    Pow2(depth) + 2 + |table|
  }

  // ---------------------------------------------------------------- decoder

  datatype Decoder = Decoder(table: seq<seq<Byte>>, width: nat, prev: seq<Byte>, out: seq<Byte>)

  datatype Outcome = More(dec: Decoder) | Done(out: seq<Byte>) | Bad

  function FreshDecoder(depth: nat, out: seq<Byte>): Decoder
  {
    Decoder([], depth + 1, [], out)
  }

  /** The string a code stands for; the code one past the table is the previous string
      followed by its own first symbol. */
  function Meaning(depth: nat, d: Decoder, code: nat): seq<Byte>
    requires d.prev != []
  {
    if code < Pow2(depth) && code < 256 then [code]
    else if Pow2(depth) + 2 <= code < NextCode(depth, d.table) then d.table[code - Pow2(depth) - 2]
    else if code == NextCode(depth, d.table) then d.prev + [d.prev[0]]
    else []
  }

  function Learn(depth: nat, d: Decoder, entry: seq<Byte>): Decoder
  {
    if NextCode(depth, d.table) >= MAX_CODES then d
    else
      var table := d.table + [entry];
      var grow := NextCode(depth, table) == Pow2(d.width) && d.width < 12;
      d.(table := table, width := if grow then d.width + 1 else d.width)
  }

  function Step(depth: nat, d: Decoder, code: nat): Outcome
  {
    if code == Pow2(depth) then More(FreshDecoder(depth, d.out))
    else if code == Pow2(depth) + 1 then Done(d.out)
    else if d.prev == [] then
      if code < Pow2(depth) && code < 256 then More(d.(prev := [code], out := d.out + [code])) else Bad
    else
      var s := Meaning(depth, d, code);
      if s == [] then Bad
      else More(Learn(depth, d, d.prev + [s[0]]).(prev := s, out := d.out + s))
  }

  datatype Decoded = Pixels(values: seq<Byte>) | Failed

  /** Reads codes of the decoder's current width until `n` symbols are known. */
  function Decode(depth: nat, d: Decoder, bits: seq<Bit>, n: nat): Decoded
    decreases |bits|
  {
    if |d.out| >= n then Pixels(d.out[..n])
    else if d.width == 0 || |bits| < d.width then Failed
    else
      match Step(depth, d, FromBits(bits[..d.width]))
      case More(next) => Decode(depth, next, bits[d.width..], n)
      case Done(_) => Failed
      case Bad => Failed
  }

  /** Reads codes up to the end-of-information code. */
  function DecodeToEnd(depth: nat, d: Decoder, bits: seq<Bit>): Decoded
    decreases |bits|
  {
    if d.width == 0 || |bits| < d.width then Failed
    else
      match Step(depth, d, FromBits(bits[..d.width]))
      case More(next) => DecodeToEnd(depth, next, bits[d.width..])
      case Done(out) => Pixels(out)
      case Bad => Failed
  }

  // ---------------------------------------------------------------- encoder

  datatype Encoder = Encoder(table: seq<seq<Byte>>, width: nat, run: seq<Byte>, codes: seq<Code>)

  ghost predicate Known(table: seq<seq<Byte>>, s: seq<Byte>)
  {
    |s| == 1 || s in table
  }

  /** The code of a known string; zero for any other. */
  ghost function CodeFor(depth: nat, table: seq<seq<Byte>>, s: seq<Byte>): nat
  {
    if |s| == 1 then s[0]
    else if s in table then
      var i :| 0 <= i < |table| && table[i] == s;
      Pow2(depth) + 2 + i
    else 0
  }

  ghost predicate Below(depth: nat, s: seq<Byte>)
  {
    forall k :: 0 <= k < |s| ==> s[k] < Pow2(depth)
  }

  /** Entry `i` is a known string followed by one more symbol. */
  ghost predicate Extends(table: seq<seq<Byte>>, i: nat)
    requires i < |table|
  {
    |table[i]| >= 2 && Known(table, table[i][..|table[i]| - 1])
  }

  /** Every string of the table extends a known string by one symbol; none occurs twice. */
  ghost predicate Dictionary(depth: nat, table: seq<seq<Byte>>)
  {
    && (forall i {:trigger Extends(table, i)} :: 0 <= i < |table| ==> Extends(table, i))
    && (forall i, j :: 0 <= i < j < |table| ==> table[i] != table[j])
    && (forall i :: 0 <= i < |table| ==> Below(depth, table[i]))
  }

  ghost predicate EncoderInv(depth: nat, e: Encoder)
  {
    && 2 <= depth <= 8
    && Dictionary(depth, e.table)
    && NextCode(depth, e.table) < MAX_CODES
    && NextCode(depth, e.table) - 1 < Pow2(e.width)
    && depth + 1 <= e.width <= 12
    && Below(depth, e.run)
    && (if e.run == [] then e.table == [] && e.codes == [] && e.width == depth + 1 else Known(e.table, e.run))
  }

  function EncoderStart(depth: nat): Encoder
  {
    Encoder([], depth + 1, [], [])
  }

  /** One symbol of input: extend the current run while it is known, otherwise write its
      code, learn the extended run and start over with the new symbol. */
  ghost function Feed(depth: nat, e: Encoder, v: Byte): Encoder
  {
    if e.run == [] then e.(run := [v])
    else if e.run + [v] in e.table then e.(run := e.run + [v])
    else
      var codes := e.codes + [Code(CodeFor(depth, e.table, e.run), e.width)];
      var table := e.table + [e.run + [v]];
      var width := if NextCode(depth, table) - 1 >= Pow2(e.width) then e.width + 1 else e.width;
      if NextCode(depth, table) - 1 == MAX_CODES - 1
      then Encoder([], depth + 1, [v], codes + [Code(Pow2(depth), width)])
      else Encoder(table, width, [v], codes)
  }

  /** One code is written when the extended run is unknown, and only then; a clear code follows when
      the run took the last of the 4096 codes, and only then. */
  lemma FeedWrites(depth: nat, e: Encoder, v: Byte)
    ensures var t, unknown := Feed(depth, e, v), e.run != [] && e.run + [v] !in e.table;
            && |t.codes| == |e.codes| + (if !unknown then 0 else if Pow2(depth) + 2 + |e.table| == 4095 then 2 else 1)
            && (unknown ==> t.run == [v] && t.codes[|e.codes|] == Code(CodeFor(depth, e.table, e.run), e.width))
            && (!unknown ==> t.run == e.run + [v])
  {
    hide Pow2;
  }

  ghost predicate Symbols(depth: nat, data: seq<Byte>)
  {
    2 <= depth <= 8 && Below(depth, data)
  }

  ghost function Encode(depth: nat, data: seq<Byte>): Encoder
  {
    if data == [] then EncoderStart(depth)
    else Feed(depth, Encode(depth, data[..|data| - 1]), data[|data| - 1])
  }

  lemma {:induction false} EncodeInv(depth: nat, data: seq<Byte>)
    requires Symbols(depth, data)
    ensures EncoderInv(depth, Encode(depth, data))
    ensures Encode(depth, data).run == [] <==> data == []
  {
    if data == [] {
      Pow2Bounds(depth);
    } else {
      EncodeInv(depth, data[..|data| - 1]);
      FeedInv(depth, Encode(depth, data[..|data| - 1]), data[|data| - 1]);
    }
  }

  lemma DictionaryAppend(depth: nat, table: seq<seq<Byte>>, run: seq<Byte>, v: Byte)
    requires Dictionary(depth, table) && Known(table, run)
    requires Below(depth, run) && v < Pow2(depth)
    requires run != [] && run + [v] !in table
    ensures Dictionary(depth, table + [run + [v]])
  {
    var longer := table + [run + [v]];
    forall i | 0 <= i < |longer|
      ensures Extends(longer, i)
    {
      if i < |table| {
        assert Extends(table, i);
      } else {
        assert (run + [v])[..|run|] == run;
      }
    }
    forall i, j | 0 <= i < j < |longer|
      ensures longer[i] != longer[j]
    {
      if j == |table| {
        assert table[i] in table;
      }
    }
  }

  lemma FeedInv(depth: nat, e: Encoder, v: Byte)
    requires EncoderInv(depth, e) && v < Pow2(depth)
    ensures EncoderInv(depth, Feed(depth, e, v)) && Feed(depth, e, v).run != []
  {
    hide Dictionary, Pow2;
    Pow2Bounds(depth);
    NoEntries(depth);
    if e.run != [] && e.run + [v] !in e.table {
      DictionaryAppend(depth, e.table, e.run, v);
      WidthStays(depth, e);
    }
  }

  lemma NoEntries(depth: nat)
    ensures Dictionary(depth, [])
  {
  }

  /** Adding one entry needs at most one more bit, and never a thirteenth. */
  lemma WidthStays(depth: nat, e: Encoder)
    requires EncoderInv(depth, e)
    ensures e.width == 12 ==> NextCode(depth, e.table) < Pow2(e.width)
    ensures NextCode(depth, e.table) < Pow2(e.width + 1)
  {
    Pow2Bounds(depth);
  }

  lemma Pow2Bounds(depth: nat)
    requires 2 <= depth <= 8
    ensures 4 <= Pow2(depth) <= 256 && Pow2(depth + 1) == 2 * Pow2(depth)
    ensures Pow2(12) == 4096
  {
    Pow2Monotonic(2, depth);
    Pow2Monotonic(depth, 8);
    Pow2Eight();
    assert Pow2(10) == 1024;
    assert Pow2(12) == 4096;
  }
}
