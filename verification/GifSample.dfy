/** One small file, byte by byte: three equal pixels, shown for 306 hundredths of a
    second, again and again. */
module GifSample {
  import opened Bits
  import opened BitStream
  import opened Colours
  import opened GifFormat
  import opened GifHeader
  import opened GifImage
  import opened GifPlayer
  import opened Lzw
  import opened LzwRoundTrip

  const THREE: seq<Byte> := [1, 1, 1]

  /** The second pixel writes the code of the first and enters the pair; the third only makes the
      run a pair. */
  lemma SampleEncode()
    ensures Encode(2, THREE) == Encoder([[1, 1]], 3, [1, 1], [Code(1, 3)])
  {
    var one: seq<Byte>, two: seq<Byte> := [1], [1, 1];
    assert THREE[..2] == two && two[..1] == one && one[..0] == [];
    assert Encode(2, one) == Encoder([], 3, [1], []);
    Pow2Eight();
    assert two[..|two| - 1] == one;
    assert [1 as Byte] + [1] == two;
    assert Encode(2, two) == Encoder([two], 3, [1], [Code(1, 3)]);
    assert THREE[..|THREE| - 1] == two;
  }

  lemma SampleStream()
    ensures Stream(2, THREE) == [Code(4, 3), Code(1, 3), Code(6, 3), Code(4, 3), Code(5, 3)]
  {
    SampleEncode();
    Pow2Eight();
    var pair: seq<Byte> := [1, 1];
    assert pair in [pair];
    assert CodeFor(2, [pair], pair) == 6;
  }

  lemma ThreeBits()
    ensures ToBits(4, 3) == [0, 0, 1] && ToBits(1, 3) == [1, 0, 0] && ToBits(6, 3) == [0, 1, 1]
    ensures ToBits(5, 3) == [1, 0, 1]
  {
  }

  lemma SampleBits()
    ensures Pack(Stream(2, THREE)) == [0, 0, 1, 1, 0, 0, 0, 1] + [1, 0, 0, 1, 1, 0, 1]
  {
    SampleStream();
    ThreeBits();
    var c1, c2, c3, c4, c5 := Code(4, 3), Code(1, 3), Code(6, 3), Code(4, 3), Code(5, 3);
    assert Stream(2, THREE) == [c1] + ([c2] + ([c3] + ([c4] + [c5])));
    PackConcat([c1], [c2] + ([c3] + ([c4] + [c5])));
    PackConcat([c2], [c3] + ([c4] + [c5]));
    PackConcat([c3], [c4] + [c5]);
    PackConcat([c4], [c5]);
    PackOne(c1);
    PackOne(c2);
    PackOne(c3);
    PackOne(c4);
    PackOne(c5);
  }

  lemma PackOne(c: Code)
    ensures Pack([c]) == ToBits(c.value, c.width)
  {
    assert [c][1..] == [];
  }

  lemma LowByte()
    ensures FromBits([0, 0, 1, 1, 0, 0, 0, 1]) == 0x8c
  {
    assert ToBits(0x8, 4) == [0, 0, 0, 1];
    assert ToBits(0x8c, 8) == [0, 0, 1, 1] + ToBits(0x8, 4);
    Pow2Eight();
    FromToBits(0x8c, 8);
  }

  lemma HighByte()
    ensures FromBits([1, 0, 0, 1, 1, 0, 1, 0]) == 0x59
  {
    assert ToBits(0x5, 4) == [1, 0, 1, 0];
    assert ToBits(0x59, 8) == [1, 0, 0, 1] + ToBits(0x5, 4);
    Pow2Eight();
    FromToBits(0x59, 8);
  }

  lemma SampleBytes()
    ensures LzwBytes(2, THREE) == [0x8c, 0x59]
  {
    hide Pack, Stream, FromBits;
    SampleBits();
    LowByte();
    HighByte();
    var low: seq<Bit>, high: seq<Bit> := [0, 0, 1, 1, 0, 0, 0, 1], [1, 0, 0, 1, 1, 0, 1, 0];
    assert Padding(15) == [0];
    assert Pack(Stream(2, THREE)) + Padding(15) == low + high;
    assert (low + high)[..8] == low && (low + high)[8..] == high && high[..8] == high && high[8..] == [];
    assert BitsToBytes([]) == [];
    assert BitsToBytes(high) == [0x59];
  }

  lemma SampleData()
    ensures ImageData(2, THREE) == [2, 2, 0x8c, 0x59, 0]
  {
    hide LzwBytes;
    SampleBytes();
  }

  lemma SampleHead()
    ensures HeadBytes(3, 1, true) ==
            [0x47, 0x49, 0x46, 0x38, 0x39, 0x61, 3, 0, 1, 0, 0xf0, 0, 0, 0, 0, 0, 0, 0, 0] +
            [0x21, 0xff, 11, 0x4e, 0x45, 0x54, 0x53, 0x43, 0x41, 0x50, 0x45, 0x32, 0x2e, 0x30, 3, 1, 0, 0, 0]
  {
  }

  lemma SampleTable(p: Palette)
    requires WellFormed(p) && p.depth == 2
    requires p.colours[1] == Rgb(1, 2, 3) && p.colours[2] == Rgb(4, 5, 6) && p.colours[3] == Rgb(7, 8, 9)
    ensures Flatten(Table(p)) == [0, 0, 0, 1, 2, 3, 4, 5, 6, 7, 8, 9]
  {
    Pow2Eight();
    var t := Table(p);
    assert t == [Rgb(0, 0, 0), Rgb(1, 2, 3), Rgb(4, 5, 6), Rgb(7, 8, 9)];
    assert t[..3][..2] == t[..2] && t[..2][..1] == t[..1] && t[..1][..0] == [];
    assert Flatten(t[..1]) == [0, 0, 0];
    assert Flatten(t[..2]) == [0, 0, 0, 1, 2, 3];
    assert Flatten(t[..3]) == [0, 0, 0, 1, 2, 3, 4, 5, 6];
    assert t[..|t| - 1] == t[..3];
  }

  lemma SampleFrame(p: Palette)
    requires WellFormed(p) && p.depth == 2
    requires p.colours[1] == Rgb(1, 2, 3) && p.colours[2] == Rgb(4, 5, 6) && p.colours[3] == Rgb(7, 8, 9)
    ensures FrameBytes(p, THREE, ORIGIN, 3, 1, 306) ==
            [0x21, 0xf9, 4, 5, 0x32, 1, 0, 0] + [0x2c, 0, 0, 0, 0, 3, 0, 1, 0, 0x81] +
            [0, 0, 0, 1, 2, 3, 4, 5, 6, 7, 8, 9] + [2, 2, 0x8c, 0x59, 0]
  {
    hide Table, Flatten, ImageData;
    SampleTable(p);
    SampleData();
  }

  /** The whole file: header, repetition, one frame, trailer. */
  lemma SampleFile(fr: Frame)
    requires Writable(fr, 3) && fr.p.depth == 2 && Indices(fr.pixels) == THREE && fr.delay == 306
    requires fr.p.colours[1] == Rgb(1, 2, 3) && fr.p.colours[2] == Rgb(4, 5, 6) && fr.p.colours[3] == Rgb(7, 8, 9)
    ensures WholeFile([fr], 3, 1, true) ==
            [0x47, 0x49, 0x46, 0x38, 0x39, 0x61, 3, 0, 1, 0, 0xf0, 0, 0, 0, 0, 0, 0, 0, 0] +
            [0x21, 0xff, 11, 0x4e, 0x45, 0x54, 0x53, 0x43, 0x41, 0x50, 0x45, 0x32, 0x2e, 0x30, 3, 1, 0, 0, 0] +
            [0x21, 0xf9, 4, 5, 0x32, 1, 0, 0] + [0x2c, 0, 0, 0, 0, 3, 0, 1, 0, 0x81] +
            [0, 0, 0, 1, 2, 3, 4, 5, 6, 7, 8, 9] + [2, 2, 0x8c, 0x59, 0] + [0x3b]
  {
    hide HeadBytes, FrameBytes, Symbols;
    SampleHead();
    SampleFrame(fr.p);
    assert [fr][..0] == [];
    assert FileOf([], 3, 1) == [];
    assert FileOf([fr], 3, 1) == BytesOf(fr, 3, 1);
  }
}
