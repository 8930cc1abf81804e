/** Writing one image block (GIF89a sections 20 to 23): extension, descriptor, local
    colour table and LZW data. */
module GifImage {
  import opened Bits
  import opened BitStream
  import opened Colours
  import opened Lzw
  import opened LzwRoundTrip
  import opened LzwWriter
  import opened SubBlocks

  /** The bytes whose bits are the code stream of an image, zero-padded. */
  ghost function LzwBytes(depth: nat, data: seq<Byte>): seq<Byte>
  {
    var bits := Pack(Stream(depth, data));
    BitsToBytes(bits + Padding(|bits|))
  }

  /** The table-based image data of GIF89a section 22. */
  ghost function ImageData(depth: nat, data: seq<Byte>): seq<Byte>
    requires depth < 256
  {
    [depth] + Blocks(LzwBytes(depth, data)) + [0]
  }

  lemma EncodeNext(depth: nat, data: seq<Byte>, k: nat)
    requires Symbols(depth, data) && k < |data|
    ensures Encode(depth, data[..k + 1]) == Feed(depth, Encode(depth, data[..k]), data[k])
    ensures data[k] < Pow2(depth) && EncoderInv(depth, Encode(depth, data[..k]))
  {
    EncodeInv(depth, data[..k]);
    assert data[..k + 1][..k] == data[..k];
  }

  lemma EncodeNone(depth: nat, data: seq<Byte>)
    ensures Encode(depth, data[..0]) == EncoderStart(depth)
  {
  }

  /** Everything that is known after `k` pixels. */
  ghost predicate Encoded(f: GifFile, stat: BitStatus, state: LzwState, depth: nat, data: seq<Byte>, k: nat,
                          origin: seq<Byte>, before: seq<Bit>)
    reads f, stat, stat.chunk, state, state.codetree
  {
    && k <= |data| && Symbols(depth, data)
    && state.Tracks(depth, Encode(depth, data[..k]))
    && Framing(f, stat, origin) && stat.Stream() == before + Pack(Encode(depth, data[..k]).codes)
  }

  method EncodePixel(f: GifFile, stat: BitStatus, state: LzwState, nextValue: Byte, depth: nat,
                     ghost data: seq<Byte>, ghost k: nat, ghost origin: seq<Byte>, ghost before: seq<Bit>)
    requires Encoded(f, stat, state, depth, data, k, origin, before)
    requires k < |data| && nextValue == data[k]
    modifies f, stat, stat.chunk, state, state.codetree
    ensures Encoded(f, stat, state, depth, data, k + 1, origin, before)
  {
    EncodeNext(depth, data, k);
    state.Pixel(f, stat, depth, nextValue, Encode(depth, data[..k]), origin, before);
  }

  /** One row of pixels, the row starting at index `row`. */
  method EncodeRow(f: GifFile, stat: BitStatus, state: LzwState, image: seq<Pixel>, row: nat, width: nat,
                   depth: nat, ghost origin: seq<Byte>, ghost before: seq<Bit>)
    requires row + width <= |image|
    requires Encoded(f, stat, state, depth, Indices(image), row, origin, before)
    modifies f, stat, stat.chunk, state, state.codetree
    ensures Encoded(f, stat, state, depth, Indices(image), row + width, origin, before)
  {
    for xx := 0 to width
      invariant Encoded(f, stat, state, depth, Indices(image), row + xx, origin, before)
    {
      EncodePixel(f, stat, state, image[row + xx].a, depth, Indices(image), row + xx, origin, before);
    }
  }

  /** All pixels, row by row. */
  method EncodePixels(f: GifFile, stat: BitStatus, state: LzwState, image: seq<Pixel>, width: nat, height: nat,
                      depth: nat, ghost origin: seq<Byte>, ghost before: seq<Bit>)
    requires |image| == RowStart(width, height)
    requires Encoded(f, stat, state, depth, Indices(image), 0, origin, before)
    modifies f, stat, stat.chunk, state, state.codetree
    ensures Encoded(f, stat, state, depth, Indices(image), |image|, origin, before)
  {
    hide Encode;
    for yy := 0 to height
      invariant RowStart(width, yy) <= |image|
      invariant Encoded(f, stat, state, depth, Indices(image), RowStart(width, yy), origin, before)
    {
      RowStartMonotonic(width, yy + 1, height);
      EncodeRow(f, stat, state, image, RowStart(width, yy), width, depth, origin, before);
    }
  }

  lemma PackFooter(depth: nat, e: Encoder, body: seq<Code>)
    ensures Pack(body + Footer(depth, e)) ==
            Pack(body) + ToBits(CodeFor(depth, e.table, e.run), e.width) +
            ToBits(Pow2(depth), e.width) + ToBits(Pow2(depth) + 1, depth + 1)
  {
    hide Pack, ToBits;
    var footer := Footer(depth, e);
    PackSnoc(body, footer[0]);
    PackSnoc(body + [footer[0]], footer[1]);
    PackSnoc(body + [footer[0]] + [footer[1]], footer[2]);
    assert body + footer == body + [footer[0]] + [footer[1]] + [footer[2]];
  }

  /** The footer and the end of the sub-blocks. */
  method WriteFooter(f: GifFile, stat: BitStatus, state: LzwState, depth: nat, ghost e: Encoder,
                     ghost origin: seq<Byte>, ghost body: seq<Code>)
    requires state.curCode == CodeFor(depth, e.table, e.run) && state.codeSize == e.width
    requires Framing(f, stat, origin) && stat.Stream() == Pack(body)
    modifies f, stat, stat.chunk
    ensures var bits := Pack(body + Footer(depth, e));
            f.bytes == origin + Blocks(BitsToBytes(bits + Padding(|bits|))) + [0]
  {
    hide ToBits, BytesToBits, BitsToBytes, Blocks, Pack, Padding, CodeFor;
    WriteCode(f, stat, state.curCode, state.codeSize, origin);
    WriteCode(f, stat, Pow2(depth), state.codeSize, origin);
    WriteCode(f, stat, Pow2(depth) + 1, depth + 1, origin);
    PackFooter(depth, e, body);
    ghost var bytes := Finish(f, stat, origin);
    BitsToBytesToBits(bytes);
  }

  /** The minimum code size and the first code, a clear code. */
  method StartData(f: GifFile, depth: nat, ghost data: seq<Byte>)
    returns (stat: BitStatus, state: LzwState, ghost origin: seq<Byte>, ghost before: seq<Bit>)
    requires Symbols(depth, data)
    modifies f
    ensures fresh(stat) && fresh(stat.chunk) && fresh(state) && fresh(state.codetree)
    ensures origin == old(f.bytes) + [depth] && before == Pack([Code(Pow2(depth), depth + 1)])
    ensures Encoded(f, stat, state, depth, data, 0, origin, before)
  {
    hide Encode, ToBits, BytesToBits, Pack;
    f.Put(depth);
    origin := f.bytes;
    state := new LzwState(depth);
    stat := new BitStatus();
    WriteCode(f, stat, Pow2(depth), depth + 1, origin);
    before := stat.Stream();
    PackOne(Code(Pow2(depth), depth + 1));
    EncodeNone(depth, data);
  }

  lemma PackOne(c: Code)
    ensures Pack([]) == [] && Pack([c]) == ToBits(c.value, c.width)
  {
    assert [c][1..] == [];
  }

  method WriteImageData(f: GifFile, image: array<Pixel>, width: nat, height: nat, depth: nat)
    requires image.Length == width * height > 0
    requires Symbols(depth, Indices(image[..]))
    modifies f
    ensures f.bytes == old(f.bytes) + ImageData(depth, Indices(image[..]))
  {
    hide Encode, ToBits, BytesToBits, BitsToBytes, EncoderInv, Pack, Mirrors;
    ghost var data := Indices(image[..]);
    var stat, state, origin, before := StartData(f, depth, data);
    RowStartIs(width, height);
    EncodePixels(f, stat, state, image[..], width, height, depth, origin, before);
    assert data[..|data|] == data;
    PackConcat([Code(Pow2(depth), depth + 1)], Encode(depth, data).codes);
    EncodeInv(depth, data);
    WriteFooter(f, stat, state, depth, Encode(depth, data), origin, Body(depth, data));
  }
}
