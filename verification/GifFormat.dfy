/** A GIF89a reader for the blocks the encoder writes: graphic control extension
    (section 23), image descriptor (20), local colour table (21), image data (22). */
module GifFormat {
  import opened Bits
  import opened BitStream
  import opened Colours
  import opened GifImage
  import opened Lzw
  import opened LzwRoundTrip
  import opened Options
  import opened SubBlocks

  /** Where the upper left corner of an image lies on the screen. */
  datatype Place = Place(left: nat, top: nat)

  const ORIGIN := Place(0, 0)

  /** One image of the stream, as a reader sees it. */
  datatype Image = Image(place: Place, width: nat, height: nat, delay: nat, disposal: nat, transparent: Option<Byte>,
                         table: seq<Rgb>, indices: seq<Byte>)

  datatype Parsed = Parsed(image: Image, rest: seq<Byte>) | Malformed

  const CONTROL := 8
  const DESCRIPTOR := 10

  function Low(n: nat): Byte { n % 256 }

  function High(n: nat): Byte { n / 256 % 256 }

  function Word(low: Byte, high: Byte): nat { low + 256 * high }

  function ReadTable(bytes: seq<Byte>, n: nat): (t: seq<Rgb>)
    requires |bytes| >= 3 * n
    ensures |t| == n
    ensures forall i :: 0 <= i < n ==> t[i] == Rgb(bytes[3 * i], bytes[3 * i + 1], bytes[3 * i + 2])
  {
    seq(n, i requires 0 <= i < n => Rgb(bytes[3 * i], bytes[3 * i + 1], bytes[3 * i + 2]))
  }

  /** Reads the minimum code size, the sub-blocks and the LZW codes of `n` pixels. */
  function ReadData(bytes: seq<Byte>, image: Image, n: nat): Parsed
  {
    if bytes == [] || bytes[0] > 11 then Malformed
    else
      match Unblock(bytes[1..])
      case Truncated => Malformed
      case Unframed(data, rest) =>
        match Decode(bytes[0], FreshDecoder(bytes[0], []), BytesToBits(data), n)
        case Failed => Malformed
        case Pixels(values) => Parsed(image.(indices := values), rest)
  }

  datatype Timing = Timing(delay: nat, disposal: nat, transparent: Option<Byte>)

  /** A graphic control extension. */
  function ReadControl(h: seq<Byte>): Option<Timing>
    requires |h| == CONTROL
  {
    if h[0] != 0x21 || h[1] != 0xf9 || h[2] != 4 || h[7] != 0 then None
    else Some(Timing(Word(h[4], h[5]), h[3] / 4 % 8, if h[3] % 2 == 1 then Some(h[6]) else None))
  }

  datatype Extent = Extent(place: Place, width: nat, height: nat, tableBits: nat)

  /** The descriptor of an image that is not interlaced, with a local colour table. */
  function ReadDescriptor(h: seq<Byte>): Option<Extent>
    requires |h| == DESCRIPTOR
  {
    if h[0] != 0x2c || h[9] < 0x80 || h[9] / 64 % 2 != 0 then None
    else Some(Extent(Place(Word(h[1], h[2]), Word(h[3], h[4])), Word(h[5], h[6]), Word(h[7], h[8]), h[9] % 8 + 1))
  }

  function ReadBody(t: Timing, e: Extent, bytes: seq<Byte>): Parsed
  {
    var size := Pow2(e.tableBits);
    if |bytes| < 3 * size then Malformed
    else
      var image := Image(e.place, e.width, e.height, t.delay, t.disposal, t.transparent, ReadTable(bytes, size), []);
      ReadData(bytes[3 * size..], image, e.width * e.height)
  }

  function ReadImage(bytes: seq<Byte>): Parsed
  {
    if |bytes| < CONTROL + DESCRIPTOR then Malformed
    else
      match (ReadControl(bytes[..CONTROL]), ReadDescriptor(bytes[CONTROL..][..DESCRIPTOR]))
      case (Some(t), Some(e)) => ReadBody(t, e, bytes[CONTROL..][DESCRIPTOR..])
      case _ => Malformed
  }

  // ---------------------------------------------------------------- the encoder's bytes

  function Control(delay: nat): (h: seq<Byte>)
    ensures |h| == CONTROL
  {
    [0x21, 0xf9, 0x04, 0x05, Low(delay), High(delay), TRANSPARENT, 0]
  }

  function Descriptor(depth: nat, at: Place, width: nat, height: nat): (h: seq<Byte>)
    requires 1 <= depth <= 8
    ensures |h| == DESCRIPTOR
  {
    [0x2c, Low(at.left), High(at.left), Low(at.top), High(at.top), Low(width), High(width), Low(height), High(height),
     0x80 + depth - 1]
  }

  /** The local colour table: black for the transparent index, then the palette. */
  function Table(p: Palette): (t: seq<Rgb>)
    requires WellFormed(p)
    ensures |t| == Pow2(p.depth)
  {
    TableSize(p.depth);
    [BLACK] + p.colours[1..Pow2(p.depth)]
  }

  lemma TableSize(depth: nat)
    requires 2 <= depth <= 8
    ensures 4 <= Pow2(depth) <= 256
  {
    Pow2Bounds(depth);
  }

  function Flatten(t: seq<Rgb>): (bytes: seq<Byte>)
    ensures |bytes| == 3 * |t|
  {
    if t == [] then [] else Flatten(t[..|t| - 1]) + [t[|t| - 1].r, t[|t| - 1].g, t[|t| - 1].b]
  }

  ghost function FrameBytes(p: Palette, indices: seq<Byte>, at: Place, width: nat, height: nat, delay: nat): seq<Byte>
    requires WellFormed(p)
  {
    Control(delay) + Descriptor(p.depth, at, width, height) + Flatten(Table(p)) + ImageData(p.depth, indices)
  }

  lemma {:induction false} FlattenAt(t: seq<Rgb>, i: nat)
    requires i < |t|
    ensures Flatten(t)[3 * i] == t[i].r && Flatten(t)[3 * i + 1] == t[i].g && Flatten(t)[3 * i + 2] == t[i].b
  {
    if i < |t| - 1 {
      FlattenAt(t[..|t| - 1], i);
    }
  }

  lemma ReadFlattened(t: seq<Rgb>, rest: seq<Byte>)
    ensures ReadTable(Flatten(t) + rest, |t|) == t
  {
    forall i | 0 <= i < |t|
      ensures ReadTable(Flatten(t) + rest, |t|)[i] == t[i]
    {
      FlattenAt(t, i);
    }
  }

  /** Reading the image data block gives back the indices and stops behind the block. */
  lemma ReadImageData(depth: nat, indices: seq<Byte>, rest: seq<Byte>, image: Image)
    requires Symbols(depth, indices) && indices != []
    ensures ReadData(ImageData(depth, indices) + rest, image, |indices|) == Parsed(image.(indices := indices), rest)
  {
    hide Decode, Unblock, Blocks;
    var bytes := ImageData(depth, indices) + rest;
    assert bytes[1..] == Blocks(LzwBytes(depth, indices)) + ([0] + rest);
    UnblockBlocks(LzwBytes(depth, indices), rest);
    var bits := Pack(Stream(depth, indices));
    BytesToBitsToBytes(bits + Padding(|bits|));
    RoundTrip(depth, indices, Padding(|bits|));
  }

  lemma WordOf(n: nat)
    ensures Word(Low(n), High(n)) == n % 65536
  {
    assert n == 256 * (n / 256) + n % 256;
    assert n / 256 == 256 * (n / 65536) + n / 256 % 256;
  }

  lemma PackedByte(depth: nat)
    requires 2 <= depth <= 8
    ensures var b := 0x80 + depth - 1; b >= 0x80 && b / 64 % 2 == 0 && b % 8 + 1 == depth
  {
    assert (0x80 + depth - 1) / 64 == 2;
  }

  lemma ReadWrittenDescriptor(depth: nat, at: Place, width: nat, height: nat)
    requires 2 <= depth <= 8 && width < 65536 && height < 65536
    ensures ReadDescriptor(Descriptor(depth, at, width, height)) ==
            Some(Extent(Place(at.left % 65536, at.top % 65536), width, height, depth))
  {
    hide Low, High, Word;
    WordOf(at.left);
    WordOf(at.top);
    WordOf(width);
    WordOf(height);
    PackedByte(depth);
  }

  lemma ReadWrittenControl(delay: nat)
    ensures ReadControl(Control(delay)) == Some(Timing(delay % 65536, 1, Some(TRANSPARENT)))
  {
    WordOf(delay);
  }

  /** Reading a frame the encoder wrote gives back its place, its size, its colour table and its
      indices, and stops right behind it. */
  lemma ReadFrame(p: Palette, indices: seq<Byte>, at: Place, width: nat, height: nat, delay: nat, rest: seq<Byte>)
    requires WellFormed(p) && Symbols(p.depth, indices)
    requires 0 < width < 65536 && 0 < height < 65536 && |indices| == width * height
    ensures ReadImage(FrameBytes(p, indices, at, width, height, delay) + rest) ==
            Parsed(Image(Place(at.left % 65536, at.top % 65536), width, height,
                         delay % 65536, 1, Some(TRANSPARENT), Table(p), indices), rest)
  {
    hide ReadData, ImageData, Flatten, Pow2, Control, Descriptor, ReadControl, ReadDescriptor, Symbols, Table;
    var c, d := Control(delay), Descriptor(p.depth, at, width, height);
    var table, data := Flatten(Table(p)), ImageData(p.depth, indices);
    ReadWrittenControl(delay);
    ReadWrittenDescriptor(p.depth, at, width, height);
    var bytes := FrameBytes(p, indices, at, width, height, delay) + rest;
    var body := table + (data + rest);
    assert bytes == c + (d + body);
    assert bytes[..CONTROL] == c && bytes[CONTROL..] == d + body;
    assert (d + body)[..DESCRIPTOR] == d && (d + body)[DESCRIPTOR..] == body;
    assert body[|table|..] == data + rest;
    ReadFlattened(Table(p), data + rest);
    ReadImageData(p.depth, indices, rest,
                  Image(Place(at.left % 65536, at.top % 65536), width, height, delay % 65536, 1, Some(TRANSPARENT),
                        Table(p), []));
  }
}
