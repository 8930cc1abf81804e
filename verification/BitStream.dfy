/** The bit writer of the GIF encoder: single bits are collected into bytes, bytes into
    a chunk of up to 255, and full chunks go to the file as data sub-blocks. */
module BitStream {
  import opened Bits
  import opened SubBlocks

  /** A file opened for writing, as far as the encoder uses it: bytes are appended. */
  class GifFile {
    var bytes: seq<Byte>

    constructor ()
      ensures bytes == []
    {
      bytes := [];
    }

    method Put(b: Byte)
      modifies this
      ensures bytes == old(bytes) + [b]
    {
      bytes := bytes + [b];
    }

    method Write(data: seq<Byte>)
      modifies this
      ensures bytes == old(bytes) + data
    {
      bytes := bytes + data;
    }
  }

  class BitStatus {
    var bitIndex: nat           // bits in the partial byte
    var byte: Byte              // the partial byte
    var chunkIndex: nat         // bytes waiting in the chunk
    const chunk: array<Byte>

    ghost var flushed: seq<Byte>  // data bytes that already are in the file

    ghost predicate Valid()
      reads this, chunk
    {
      && chunk.Length == 256
      && bitIndex < 8
      && byte < Pow2(bitIndex)
      && chunkIndex <= 255
      && |flushed| % 255 == 0
    }

    /** Every whole byte produced so far, in the file or still in the chunk. */
    ghost function Bytes(): seq<Byte>
      reads this, chunk
      requires Valid()
    {
      flushed + chunk[..chunkIndex]
    }

    /** Every bit produced so far. */
    ghost function Stream(): seq<Bit>
      reads this, chunk
      requires Valid()
    {
      BytesToBits(Bytes()) + ToBits(byte, bitIndex)
    }

    constructor ()
      ensures Valid() && fresh(chunk)
      ensures Stream() == [] && chunkIndex == 0 && flushed == []
    {
      bitIndex, byte, chunkIndex := 0, 0, 0;
      chunk := new Byte[256](_ => 0);
      flushed := [];
    }

    method WriteBit(code: nat)
      requires Valid() && chunkIndex < 255
      modifies this, chunk
      ensures Valid() && flushed == old(flushed)
      ensures Stream() == old(Stream()) + [code % 2]
      ensures bitIndex == (old(bitIndex) + 1) % 8
      ensures chunkIndex == if old(bitIndex) == 7 then old(chunkIndex) + 1 else old(chunkIndex)
    {
      hide ToBits, BytesToBits, Pow2, OrBit;
      var bit := code % 2;
      ghost var whole := Bytes();
      BitEnters(whole, byte, bitIndex, bit);
      byte := OrBit(byte, bitIndex, bit);
      bitIndex := bitIndex + 1;
      if bitIndex > 7 {
        ByteComplete(whole, byte);
        chunk[chunkIndex] := byte;
        chunkIndex := chunkIndex + 1;
        assert flushed + chunk[..chunkIndex] == whole + [byte];
        bitIndex := 0;
        byte := 0;
      }
    }
  }

  /** A bit joins the partial byte at its high end. */
  lemma BitEnters(whole: seq<Byte>, byte: Byte, i: nat, bit: Bit)
    requires i < 8 && byte < Pow2(i)
    ensures OrBit(byte, i, bit) < Pow2(i + 1)
    ensures BytesToBits(whole) + ToBits(OrBit(byte, i, bit), i + 1) == BytesToBits(whole) + ToBits(byte, i) + [bit]
  {
    hide ToBits, BytesToBits, Pow2, OrBit;
    OrIsPlus(byte, i, bit);
    ToBitsAppend(byte, i, bit);
  }

  lemma ByteComplete(whole: seq<Byte>, byte: Byte)
    ensures BytesToBits(whole + [byte]) + ToBits(0, 0) == BytesToBits(whole) + ToBits(byte, 8)
  {
    hide BytesToBits;
    BytesToBitsSnoc(whole, byte);
    assert ToBits(0, 0) == [];
  }

  /** Writes the chunk as one sub-block. The partial byte is dropped, so no bit is lost
      exactly when there is none. */
  method WriteChunk(f: GifFile, stat: BitStatus)
    requires stat.Valid() && stat.chunkIndex > 0
    modifies f, stat
    ensures f.bytes == old(f.bytes) + [old(stat.chunkIndex)] + old(stat.chunk[..stat.chunkIndex])
    ensures stat.bitIndex == 0 && stat.byte == 0 && stat.chunkIndex == 0
    ensures stat.flushed == old(stat.Bytes())
    ensures old(stat.chunkIndex) == 255 ==> stat.Valid()
    ensures old(stat.chunkIndex) == 255 ==> (stat.Stream() == old(stat.Stream()) <==> old(stat.bitIndex) == 0)
  {
    f.Put(stat.chunkIndex);
    f.Write(stat.chunk[..stat.chunkIndex]);
    stat.flushed := stat.Bytes();
    stat.bitIndex := 0;
    stat.byte := 0;
    stat.chunkIndex := 0;
    assert stat.flushed + stat.chunk[..0] == stat.flushed;
  }

  /** What the file holds while a series of sub-blocks is being written after `origin`. */
  ghost predicate Framing(f: GifFile, stat: BitStatus, origin: seq<Byte>)
    reads f, stat, stat.chunk
  {
    stat.Valid() && stat.chunkIndex < 255 && f.bytes == origin + Blocks(stat.flushed)
  }

  /** The lowest bit of a code moves over to the stream. */
  lemma BitLeaves(stream: seq<Bit>, code: nat, length: nat)
    requires length > 0
    ensures stream + [code % 2] + ToBits(code / 2, length - 1) == stream + ToBits(code, length)
  {
    assert ToBits(code, length) == [code % 2] + ToBits(code / 2, length - 1);
  }

  lemma OneMoreBlock(origin: seq<Byte>, flushed: seq<Byte>, chunk: seq<Byte>)
    requires |flushed| % 255 == 0 && 0 < |chunk| <= 255
    ensures origin + Blocks(flushed) + [|chunk|] + chunk == origin + Blocks(flushed + chunk)
  {
    hide Blocks;
    BlocksAppend(flushed, chunk);
  }

  /** A full chunk goes to the file; no bit is pending then. */
  method FlushChunk(f: GifFile, stat: BitStatus, ghost origin: seq<Byte>)
    requires stat.Valid() && stat.chunkIndex == 255 && stat.bitIndex == 0
    requires f.bytes == origin + Blocks(stat.flushed)
    modifies f, stat
    ensures Framing(f, stat, origin) && stat.bitIndex == 0
    ensures stat.Stream() == old(stat.Stream())
  {
    hide Blocks, ToBits, BytesToBits, Pow2;
    OneMoreBlock(origin, stat.flushed, stat.chunk[..255]);
    WriteChunk(f, stat);
  }

  method WriteCode(f: GifFile, stat: BitStatus, code: nat, length: nat, ghost origin: seq<Byte>)
    requires Framing(f, stat, origin)
    modifies f, stat, stat.chunk
    ensures Framing(f, stat, origin)
    ensures stat.Stream() == old(stat.Stream()) + ToBits(code, length)
  {
    hide Blocks, BytesToBits, Pow2;
    var rest := code;
    for ii := 0 to length
      invariant Framing(f, stat, origin)
      invariant stat.Stream() + ToBits(rest, length - ii) == old(stat.Stream()) + ToBits(code, length)
    {
      BitLeaves(stat.Stream(), rest, length - ii);
      stat.WriteBit(rest);
      rest := rest / 2;
      if stat.chunkIndex == 255 {
        FlushChunk(f, stat, origin);
      }
    }
  }

  /** Zero bits that complete the last byte. */
  function Padding(bits: nat): (pad: seq<Bit>)
    ensures (bits + |pad|) % 8 == 0 && |pad| < 8
    ensures forall i :: 0 <= i < |pad| ==> pad[i] == 0
  {
    seq((8 - bits % 8) % 8, _ => 0)
  }

  lemma PaddingIs(bits: nat, pad: seq<Bit>)
    requires |pad| < 8 && (bits + |pad|) % 8 == 0
    requires forall i :: 0 <= i < |pad| ==> pad[i] == 0
    ensures pad == Padding(bits)
  {
    assert |pad| == |Padding(bits)|;
  }

  /** Completes the last byte with zero bits. */
  method PadByte(stat: BitStatus)
    requires stat.Valid() && stat.chunkIndex < 255
    modifies stat, stat.chunk
    ensures stat.Valid() && stat.bitIndex == 0 && stat.flushed == old(stat.flushed)
    ensures stat.Stream() == old(stat.Stream()) + Padding(|old(stat.Stream())|)
  {
    ghost var stream, start := stat.Stream(), stat.bitIndex;
    assert |stream| == 8 * |stat.Bytes()| + start;
    ghost var pad: seq<Bit> := [];
    while stat.bitIndex != 0
      invariant stat.Valid() && stat.flushed == old(stat.flushed)
      invariant stat.bitIndex != 0 ==> stat.chunkIndex < 255 && stat.bitIndex == start + |pad|
      invariant stat.bitIndex == 0 ==> start + |pad| == 0 || start + |pad| == 8
      invariant |pad| > 0 ==> start > 0
      invariant forall i :: 0 <= i < |pad| ==> pad[i] == 0
      invariant stat.Stream() == stream + pad
      decreases 8 - start - |pad|
    {
      stat.WriteBit(0);
      pad := pad + [0];
    }
    PaddingIs(|stream|, pad);
  }

  /** Pads the last byte, writes the last chunk and the block terminator. The file then
      holds the framing of bytes whose bits are the whole stream and its padding. */
  method Finish(f: GifFile, stat: BitStatus, ghost origin: seq<Byte>) returns (ghost data: seq<Byte>)
    requires Framing(f, stat, origin)
    modifies f, stat, stat.chunk
    ensures f.bytes == origin + Blocks(data) + [0]
    ensures BytesToBits(data) == old(stat.Stream()) + Padding(|old(stat.Stream())|)
  {
    PadByte(stat);
    data := stat.Bytes();
    assert stat.Stream() == BytesToBits(data);
    if stat.chunkIndex != 0 {
      OneMoreBlock(origin, stat.flushed, stat.chunk[..stat.chunkIndex]);
      WriteChunk(f, stat);
    } else {
      assert data == stat.flushed;
    }
    f.Put(0);
  }
}
