/** The decoder of GIF89a Appendix F undoes the encoder, code by code and bit by bit. */
module LzwRoundTrip {
  import opened Bits
  import opened Lzw

  /** Feeding whole codes to the decoder. A code written with a width other than the one
      the decoder is at makes the replay fail. */
  function Replay(depth: nat, d: Decoder, codes: seq<Code>): Outcome
    decreases |codes|
  {
    if codes == [] then More(d)
    else if codes[0].width != d.width || codes[0].value >= Pow2(d.width) || d.width == 0 then Bad
    else
      match Step(depth, d, codes[0].value)
      case More(next) => Replay(depth, next, codes[1..])
      case Done(out) => Done(out)
      case Bad => Bad
  }

  lemma {:induction false} ReplayConcat(depth: nat, d: Decoder, a: seq<Code>, b: seq<Code>)
    requires Replay(depth, d, a).More?
    ensures Replay(depth, d, a + b) == Replay(depth, Replay(depth, d, a).dec, b)
    decreases |a|
  {
    if a == [] {
      assert a + b == b;
    } else {
      assert (a + b)[1..] == a[1..] + b;
      ReplayConcat(depth, Step(depth, d, a[0].value).dec, a[1..], b);
    }
  }

  lemma ReplaySnoc(depth: nat, d: Decoder, a: seq<Code>, c: Code)
    requires Replay(depth, d, a).More?
    ensures var d' := Replay(depth, d, a).dec;
            c.width == d'.width > 0 && c.value < Pow2(c.width) ==> Replay(depth, d, a + [c]) == Step(depth, d', c.value)
  {
    ReplayConcat(depth, d, a, [c]);
    assert [c][1..] == [];
  }

  /** The decoder lags one entry behind: the last string the encoder learned is the
      decoder's previous string followed by the first symbol of the current run. */
  ghost predicate Lagging(depth: nat, e: Encoder, d: Decoder, data: seq<Byte>)
  {
    && EncoderInv(depth, e)
    && d.width == e.width
    && d.out + e.run == data
    && if d.prev == [] then e.table == d.table == []
       else e.table != [] && e.run != [] && e.table == d.table + [d.prev + [e.run[0]]]
  }

  lemma RunCode(depth: nat, e: Encoder)
    requires EncoderInv(depth, e) && e.run != []
    ensures var code := CodeFor(depth, e.table, e.run);
            && code < NextCode(depth, e.table) && code < Pow2(e.width)
            && code != Pow2(depth) && code != Pow2(depth) + 1
            && (code < Pow2(depth) ==> e.run == [code])
            && (code >= Pow2(depth) ==> code >= Pow2(depth) + 2 && e.run == e.table[code - Pow2(depth) - 2])
  {
    Pow2Bounds(depth);
    Pow2Monotonic(depth + 1, e.width);
    if |e.run| == 1 {
      assert e.run[0] < Pow2(depth);
    }
  }

  /** The code of the current run always means the current run to the decoder. */
  lemma RunMeaning(depth: nat, e: Encoder, d: Decoder, data: seq<Byte>)
    requires Lagging(depth, e, d, data) && e.run != [] && d.prev != []
    ensures Meaning(depth, d, CodeFor(depth, e.table, e.run)) == e.run
  {
    Pow2Bounds(depth);
    RunCode(depth, e);
    var code := CodeFor(depth, e.table, e.run);
    if code == NextCode(depth, d.table) {
      assert e.run == d.prev + [e.run[0]];
      assert e.run[0] == d.prev[0];
    }
  }

  lemma StepRun(depth: nat, e: Encoder, d: Decoder, data: seq<Byte>)
    requires Lagging(depth, e, d, data) && e.run != []
    ensures Step(depth, d, CodeFor(depth, e.table, e.run)) ==
            More((if d.prev == [] then d else Learn(depth, d, d.prev + [e.run[0]])).(prev := e.run, out := data))
  {
    Pow2Bounds(depth);
    RunCode(depth, e);
    if d.prev != [] {
      RunMeaning(depth, e, d, data);
    }
  }

  /** Writing the current run and learning its extension keeps the lag at one entry. */
  lemma EmitLagging(depth: nat, e: Encoder, d: Decoder, data: seq<Byte>, v: Byte) returns (d': Decoder)
    requires Lagging(depth, e, d, data) && v < Pow2(depth)
    requires e.run != [] && e.run + [v] !in e.table && NextCode(depth, e.table) != MAX_CODES - 1
    ensures Step(depth, d, CodeFor(depth, e.table, e.run)) == More(d')
    ensures Lagging(depth, Feed(depth, e, v), d', data + [v])
  {
    hide Dictionary, Step, CodeFor;
    FeedInv(depth, e, v);
    Pow2Bounds(depth);
    StepRun(depth, e, d, data);
    d' := Step(depth, d, CodeFor(depth, e.table, e.run)).dec;
  }

  /** The entry that fills the table makes the encoder write a clear code at width 12,
      which the decoder, one entry short of full, also expects at width 12. */
  lemma EmitClear(depth: nat, e: Encoder, d: Decoder, data: seq<Byte>, v: Byte) returns (d': Decoder)
    requires Lagging(depth, e, d, data) && v < Pow2(depth)
    requires e.run != [] && e.run + [v] !in e.table && NextCode(depth, e.table) == MAX_CODES - 1
    ensures Step(depth, d, CodeFor(depth, e.table, e.run)) == More(d') && d'.width == e.width == 12
    ensures Feed(depth, e, v).codes ==
            e.codes + [Code(CodeFor(depth, e.table, e.run), e.width)] + [Code(Pow2(depth), 12)]
    ensures Lagging(depth, Feed(depth, e, v), FreshDecoder(depth, d'.out), data + [v])
  {
    FeedInv(depth, e, v);
    Pow2Bounds(depth);
    StepRun(depth, e, d, data);
    if e.width < 12 {
      Pow2Monotonic(e.width, 11);
    }
    d' := Step(depth, d, CodeFor(depth, e.table, e.run)).dec;
  }

  /** One symbol of input keeps encoder and decoder in step. */
  lemma FeedLagging(depth: nat, e: Encoder, d: Decoder, data: seq<Byte>, v: Byte, start: Decoder) returns (d': Decoder)
    requires Lagging(depth, e, d, data) && v < Pow2(depth)
    requires Replay(depth, start, e.codes) == More(d)
    ensures Lagging(depth, Feed(depth, e, v), d', data + [v])
    ensures Replay(depth, start, Feed(depth, e, v).codes) == More(d')
  {
    FeedInv(depth, e, v);
    if e.run == [] || e.run + [v] in e.table {
      d' := d;
      assert d.out + (e.run + [v]) == data + [v];
    } else {
      var code := Code(CodeFor(depth, e.table, e.run), e.width);
      RunCode(depth, e);
      ReplaySnoc(depth, start, e.codes, code);
      if NextCode(depth, e.table) == MAX_CODES - 1 {
        var last := EmitClear(depth, e, d, data, v);
        Pow2Bounds(depth);
        ReplaySnoc(depth, start, e.codes + [code], Code(Pow2(depth), 12));
        d' := FreshDecoder(depth, last.out);
      } else {
        d' := EmitLagging(depth, e, d, data, v);
      }
    }
  }

  lemma {:induction false} EncodeLagging(depth: nat, data: seq<Byte>) returns (d: Decoder)
    requires Symbols(depth, data)
    ensures Lagging(depth, Encode(depth, data), d, data)
    ensures Replay(depth, FreshDecoder(depth, []), Encode(depth, data).codes) == More(d)
  {
    hide EncoderInv;
    EncodeInv(depth, data);
    if data == [] {
      d := FreshDecoder(depth, []);
      assert Encode(depth, data) == EncoderStart(depth);
    } else {
      var init, v := data[..|data| - 1], data[|data| - 1];
      var before := EncodeLagging(depth, init);
      d := FeedLagging(depth, Encode(depth, init), before, init, v, FreshDecoder(depth, []));
      assert init + [v] == data;
    }
  }

  // ------------------------------------------------------------ codes as bits

  function Pack(codes: seq<Code>): seq<Bit>
  {
    if codes == [] then [] else ToBits(codes[0].value, codes[0].width) + Pack(codes[1..])
  }

  lemma {:induction false} PackConcat(a: seq<Code>, b: seq<Code>)
    ensures Pack(a + b) == Pack(a) + Pack(b)
  {
    if a == [] {
      assert a + b == b;
    } else {
      assert (a + b)[1..] == a[1..] + b;
      PackConcat(a[1..], b);
    }
  }

  lemma PackSnoc(a: seq<Code>, c: Code)
    ensures Pack(a + [c]) == Pack(a) + ToBits(c.value, c.width)
  {
    PackConcat(a, [c]);
    assert [c][1..] == [];
  }

  /** Reading the bits of one code at the right width recovers the code. */
  lemma ReadCode(code: Code, rest: seq<Bit>)
    requires code.value < Pow2(code.width)
    ensures var bits := ToBits(code.value, code.width) + rest;
            FromBits(bits[..code.width]) == code.value && bits[code.width..] == rest
  {
    FromToBits(code.value, code.width);
    var bits := ToBits(code.value, code.width) + rest;
    assert bits[..code.width] == ToBits(code.value, code.width);
  }

  lemma {:induction false} ReplayGrows(depth: nat, d: Decoder, codes: seq<Code>)
    requires Replay(depth, d, codes).More?
    ensures |d.out| <= |Replay(depth, d, codes).dec.out|
    decreases |codes|
  {
    if codes != [] {
      ReplayGrows(depth, Step(depth, d, codes[0].value).dec, codes[1..]);
    }
  }

  /** The bit reader sees through packed codes as long as the image is not complete. */
  lemma {:induction false} DecodeReplay(depth: nat, d: Decoder, codes: seq<Code>, rest: seq<Bit>, n: nat)
    requires Replay(depth, d, codes).More? && |Replay(depth, d, codes).dec.out| < n
    ensures Decode(depth, d, Pack(codes) + rest, n) == Decode(depth, Replay(depth, d, codes).dec, rest, n)
    decreases |codes|
  {
    if codes == [] {
      assert Pack(codes) + rest == rest;
    } else {
      ReplayGrows(depth, d, codes);
      var next := Step(depth, d, codes[0].value).dec;
      ReadCode(codes[0], Pack(codes[1..]) + rest);
      assert Pack(codes) + rest == ToBits(codes[0].value, codes[0].width) + (Pack(codes[1..]) + rest);
      DecodeReplay(depth, next, codes[1..], rest, n);
    }
  }

  lemma {:induction false} DecodeToEndReplay(depth: nat, d: Decoder, codes: seq<Code>, rest: seq<Bit>)
    requires Replay(depth, d, codes).More?
    ensures DecodeToEnd(depth, d, Pack(codes) + rest) == DecodeToEnd(depth, Replay(depth, d, codes).dec, rest)
    decreases |codes|
  {
    if codes == [] {
      assert Pack(codes) + rest == rest;
    } else {
      var next := Step(depth, d, codes[0].value).dec;
      ReadCode(codes[0], Pack(codes[1..]) + rest);
      assert Pack(codes) + rest == ToBits(codes[0].value, codes[0].width) + (Pack(codes[1..]) + rest);
      DecodeToEndReplay(depth, next, codes[1..], rest);
    }
  }

  /** The three codes that close an image: the last run, a clear code at the same width
      and the end code at the initial width. */
  ghost function Footer(depth: nat, e: Encoder): seq<Code>
  {
    [Code(CodeFor(depth, e.table, e.run), e.width), Code(Pow2(depth), e.width), Code(Pow2(depth) + 1, depth + 1)]
  }

  /** The whole code stream of an image: a clear code, the codes of the runs, the footer. */
  ghost function Stream(depth: nat, data: seq<Byte>): seq<Code>
  {
    [Code(Pow2(depth), depth + 1)] + Encode(depth, data).codes + Footer(depth, Encode(depth, data))
  }

  /** Every code fits the width it is written with, and no width exceeds twelve bits. */
  lemma {:induction false} CodesFit(depth: nat, data: seq<Byte>)
    requires Symbols(depth, data)
    ensures forall c :: c in Encode(depth, data).codes ==> c.value < Pow2(c.width) && depth + 1 <= c.width <= 12
  {
    hide EncoderInv, CodeFor, Pow2, NextCode;
    if data != [] {
      var init, v := data[..|data| - 1], data[|data| - 1];
      var e := Encode(depth, init);
      CodesFit(depth, init);
      EncodeInv(depth, init);
      if e.run != [] && e.run + [v] !in e.table {
        RunCode(depth, e);
        Pow2Bounds(depth);
        Pow2Monotonic(depth, e.width);
        Pow2Monotonic(depth, e.width + 1);
        FeedInv(depth, e, v);
        WidthStays(depth, e);
      }
    }
  }

  lemma StartReplay(depth: nat, codes: seq<Code>)
    requires 2 <= depth <= 8
    ensures Replay(depth, FreshDecoder(depth, []), [Code(Pow2(depth), depth + 1)] + codes) ==
            Replay(depth, FreshDecoder(depth, []), codes)
  {
    var all := [Code(Pow2(depth), depth + 1)] + codes;
    assert all[1..] == codes;
    Pow2Bounds(depth);
  }

  /** The stream up to the last run. */
  ghost function Body(depth: nat, data: seq<Byte>): seq<Code>
  {
    [Code(Pow2(depth), depth + 1)] + Encode(depth, data).codes
  }

  /** The state in which the decoder reads the last run, and the state after it: the image
      is complete and the decoder has caught up with the encoder's table. */
  lemma LastRun(depth: nat, data: seq<Byte>) returns (d: Decoder, final: Decoder)
    requires Symbols(depth, data) && data != []
    ensures Replay(depth, FreshDecoder(depth, []), Body(depth, data)) == More(d)
    ensures var e := Encode(depth, data);
            && d.width == e.width > 0 && |d.out| < |data|
            && CodeFor(depth, e.table, e.run) < Pow2(e.width)
            && Step(depth, d, CodeFor(depth, e.table, e.run)) == More(final)
            && final.out == data && final.prev != [] && final.table == e.table
            && final.width == if NextCode(depth, e.table) == Pow2(e.width) then e.width + 1 else e.width
  {
    hide Encode, Dictionary, Step, CodeFor, Replay;
    var e := Encode(depth, data);
    EncodeInv(depth, data);
    d := EncodeLagging(depth, data);
    StartReplay(depth, e.codes);
    RunCode(depth, e);
    StepRun(depth, e, d, data);
    Pow2Bounds(depth);
    final := Step(depth, d, CodeFor(depth, e.table, e.run)).dec;
  }

  lemma DecodeOne(depth: nat, d: Decoder, code: Code, rest: seq<Bit>, n: nat)
    requires |d.out| < n && code.width == d.width > 0 && code.value < Pow2(d.width)
    requires Step(depth, d, code.value).More?
    ensures Decode(depth, d, ToBits(code.value, code.width) + rest, n) ==
            Decode(depth, Step(depth, d, code.value).dec, rest, n)
  {
    ReadCode(code, rest);
  }

  lemma PackStream(depth: nat, data: seq<Byte>)
    requires Symbols(depth, data) && data != []
    ensures var e := Encode(depth, data);
            Pack(Stream(depth, data)) ==
            Pack(Body(depth, data)) + ToBits(CodeFor(depth, e.table, e.run), e.width) +
            ToBits(Pow2(depth), e.width) + ToBits(Pow2(depth) + 1, depth + 1)
  {
    var e := Encode(depth, data);
    var f := Footer(depth, e);
    var b := Body(depth, data);
    PackSnoc(b, f[0]);
    PackSnoc(b + [f[0]], f[1]);
    PackSnoc(b + [f[0]] + [f[1]], f[2]);
    assert Stream(depth, data) == b + [f[0]] + [f[1]] + [f[2]];
  }

  lemma Regroup(a: seq<Bit>, b: seq<Bit>, c: seq<Bit>, d: seq<Bit>, rest: seq<Bit>)
    ensures a + b + c + d + rest == a + (b + (c + d + rest))
  {
  }

  /** LZW round trip: whatever follows the code stream, a decoder that stops when the image
      is complete gets the image back, across any number of dictionary resets. */
  lemma RoundTrip(depth: nat, data: seq<Byte>, rest: seq<Bit>)
    requires Symbols(depth, data) && data != []
    ensures Decode(depth, FreshDecoder(depth, []), Pack(Stream(depth, data)) + rest, |data|) == Pixels(data)
  {
    hide Encode, Step, Stream, Body, Pack, ToBits;
    var e := Encode(depth, data);
    var d, final := LastRun(depth, data);
    var last := Code(CodeFor(depth, e.table, e.run), e.width);
    var tail := ToBits(Pow2(depth), e.width) + ToBits(Pow2(depth) + 1, depth + 1) + rest;
    PackStream(depth, data);
    Regroup(Pack(Body(depth, data)), ToBits(last.value, last.width), ToBits(Pow2(depth), e.width),
            ToBits(Pow2(depth) + 1, depth + 1), rest);
    DecodeReplay(depth, FreshDecoder(depth, []), Body(depth, data), ToBits(last.value, last.width) + tail, |data|);
    DecodeOne(depth, d, last, tail, |data|);
    assert data[..|data|] == data;
  }

  /** A footer read at the width it was written with ends the stream cleanly. */
  lemma FooterAtWidth(depth: nat, d: Decoder, rest: seq<Bit>)
    requires 2 <= depth <= 8 && depth + 1 <= d.width
    ensures DecodeToEnd(depth, d, ToBits(Pow2(depth), d.width) + (ToBits(Pow2(depth) + 1, depth + 1) + rest)) ==
            Pixels(d.out)
  {
    Pow2Bounds(depth);
    Pow2Monotonic(depth + 1, d.width);
    var second := ToBits(Pow2(depth) + 1, depth + 1) + rest;
    ReadCode(Code(Pow2(depth), d.width), second);
    ReadCode(Code(Pow2(depth) + 1, depth + 1), rest);
    assert Step(depth, d, Pow2(depth)) == More(FreshDecoder(depth, d.out));
    assert DecodeToEnd(depth, FreshDecoder(depth, d.out), second) == Pixels(d.out);
  }

  lemma CodePastTable(depth: nat, d: Decoder, code: nat)
    requires d.prev != [] && code > Pow2(depth) + 1 && code > NextCode(depth, d.table)
    ensures Step(depth, d, code) == Bad
  {
    assert Meaning(depth, d, code) == [];
  }

  /** The low bits of a code and the first bit behind it, read as one wider code. */
  lemma ReadOneMore(low: nat, width: nat, second: seq<Bit>, rest: seq<Bit>)
    requires low < Pow2(width) && second != [] && second[0] == 1
    ensures low + Pow2(width) < Pow2(width + 1)
    ensures ToBits(low, width) + (second + rest) == ToBits(low + Pow2(width), width + 1) + (second[1..] + rest)
  {
    ToBitsAppend(low, width, 1);
    assert second == [1] + second[1..];
  }

  lemma DecodeToEndBad(depth: nat, d: Decoder, code: Code, rest: seq<Bit>)
    requires code.width == d.width > 0 && code.value < Pow2(d.width) && Step(depth, d, code.value) == Bad
    ensures DecodeToEnd(depth, d, ToBits(code.value, code.width) + rest) == Failed
  {
    ReadCode(code, rest);
  }

  lemma EndCodeIsOdd(depth: nat)
    requires depth >= 1
    ensures ToBits(Pow2(depth) + 1, depth + 1)[0] == 1
  {
    Pow2IsEven(depth);
    hide Pow2;
    LowBitFirst(Pow2(depth) + 1, depth + 1);
  }

  lemma Pow2IsEven(depth: nat)
    requires depth >= 1
    ensures Pow2(depth) % 2 == 0
  {
    var half := Pow2(depth - 1);
    assert Pow2(depth) == 2 * half;
    hide Pow2;
  }

  lemma LowBitFirst(value: nat, width: nat)
    requires width > 0
    ensures ToBits(value, width)[0] == value % 2
  {
  }

  /** A decoder that has moved on to a wider code also takes the low bit of the end code,
      a one, and sees a code past its table. */
  lemma FooterOneWider(depth: nat, d: Decoder, width: nat, rest: seq<Bit>, tail: seq<Bit>)
    requires 2 <= depth <= 8 && depth + 1 <= width && d.width == width + 1
    requires d.prev != [] && NextCode(depth, d.table) == Pow2(width)
    requires tail == ToBits(Pow2(depth), width) + (ToBits(Pow2(depth) + 1, depth + 1) + rest)
    ensures DecodeToEnd(depth, d, tail) == Failed
  {
    hide ToBits, Step, DecodeToEnd;
    var code := Pow2(depth) + Pow2(width);
    assert Pow2(depth) + 1 < Pow2(width) by {
      Pow2Bounds(depth);
      Pow2Monotonic(depth + 1, width);
    }
    EndCodeIsOdd(depth);
    var second := ToBits(Pow2(depth) + 1, depth + 1);
    ReadOneMore(Pow2(depth), width, second, rest);
    CodePastTable(depth, d, code);
    DecodeToEndBad(depth, d, Code(code, width + 1), second[1..] + rest);
  }

  /** Reading all data codes leaves the complete image and the footer. */
  lemma BeforeFooter(depth: nat, data: seq<Byte>, rest: seq<Bit>) returns (final: Decoder, tail: seq<Bit>)
    requires Symbols(depth, data) && data != []
    ensures DecodeToEnd(depth, FreshDecoder(depth, []), Pack(Stream(depth, data)) + rest) ==
            DecodeToEnd(depth, final, tail)
    ensures var e := Encode(depth, data);
            && final.out == data && final.prev != [] && final.table == e.table
            && final.width == (if NextCode(depth, e.table) == Pow2(e.width) then e.width + 1 else e.width)
            && tail == ToBits(Pow2(depth), e.width) + (ToBits(Pow2(depth) + 1, depth + 1) + rest)
  {
    hide Encode, EncoderInv, DecodeToEnd, Step, Stream, Body, Pack, ToBits;
    var start, e := FreshDecoder(depth, []), Encode(depth, data);
    var d;
    d, final := LastRun(depth, data);
    var last := Code(CodeFor(depth, e.table, e.run), e.width);
    var body := Body(depth, data);
    assert Replay(depth, start, body + [last]) == More(final) by {
      ReplaySnoc(depth, start, body, last);
    }
    tail := ToBits(Pow2(depth), e.width) + (ToBits(Pow2(depth) + 1, depth + 1) + rest);
    assert Pack(Stream(depth, data)) + rest == Pack(body + [last]) + tail by {
      PackSnoc(body, last);
      PackStream(depth, data);
    }
    DecodeToEndReplay(depth, start, body + [last], tail);
  }

  /** After the last run the decoder learns one more entry than the encoder accounts for.
      The clear code of the footer is therefore read at its width, and the stream is
      well-formed to its end, exactly when that entry does not fill the current width. */
  lemma StreamToEnd(depth: nat, data: seq<Byte>, rest: seq<Bit>)
    requires Symbols(depth, data) && data != []
    ensures DecodeToEnd(depth, FreshDecoder(depth, []), Pack(Stream(depth, data)) + rest) == Pixels(data)
            <==> NextCode(depth, Encode(depth, data).table) != Pow2(Encode(depth, data).width)
  {
    EncodeInv(depth, data);
    var final, tail := BeforeFooter(depth, data, rest);
    FooterEither(depth, Encode(depth, data), final, rest, tail);
  }

  lemma FooterEither(depth: nat, e: Encoder, final: Decoder, rest: seq<Bit>, tail: seq<Bit>)
    requires EncoderInv(depth, e) && final.prev != [] && final.table == e.table
    requires final.width == if NextCode(depth, e.table) == Pow2(e.width) then e.width + 1 else e.width
    requires tail == ToBits(Pow2(depth), e.width) + (ToBits(Pow2(depth) + 1, depth + 1) + rest)
    ensures DecodeToEnd(depth, final, tail) ==
            if NextCode(depth, e.table) == Pow2(e.width) then Failed else Pixels(final.out)
  {
    if NextCode(depth, e.table) == Pow2(e.width) {
      FooterOneWider(depth, final, e.width, rest, tail);
    } else {
      FooterAtWidth(depth, final, rest);
    }
  }

  /** The symbols 0 .. n - 1 in rising order. */
  function Ramp(n: nat): (data: seq<Byte>)
    requires n <= 256
    ensures |data| == n
  {
    seq(n, i requires 0 <= i < n => i)
  }

  /** Every symbol but the first of a rising image ends a run of one and enters a pair. */
  lemma {:induction false} RampEncoded(depth: nat, n: nat)
    requires 2 <= depth <= 8 && 0 < n < Pow2(depth) && n <= 256
    ensures var e := Encode(depth, Ramp(n));
            && e.run == [n - 1] && e.width == depth + 1 && |e.table| == n - 1
            && forall i :: 0 <= i < |e.table| ==> |e.table[i]| == 2 && e.table[i][1] < n
  {
    hide Pow2;
    Pow2Bounds(depth);
    assert Ramp(n)[..n - 1] == Ramp(n - 1);
    if n > 1 {
      RampEncoded(depth, n - 1);
      var e := Encode(depth, Ramp(n - 1));
      assert (e.run + [n - 1])[1] == n - 1;
      assert e.run + [n - 1] !in e.table;
    } else {
      assert Encode(depth, Ramp(0)) == EncoderStart(depth);
    }
  }

  /** At every depth there is an image whose footer is written too narrow: a reader that goes
      on to the end code fails on it. */
  lemma FooterFails(depth: nat, rest: seq<Bit>)
    requires 2 <= depth <= 8
    ensures 3 <= Pow2(depth) - 1 <= 255
    ensures var data := Ramp(Pow2(depth) - 1);
            && Symbols(depth, data)
            && DecodeToEnd(depth, FreshDecoder(depth, []), Pack(Stream(depth, data)) + rest) != Pixels(data)
  {
    hide Pow2, Encode, DecodeToEnd, Pack, Stream;
    Pow2Bounds(depth);
    var data := Ramp(Pow2(depth) - 1);
    RampEncoded(depth, |data|);
    StreamToEnd(depth, data, rest);
  }
}
