/** Writing a whole frame: control extension, descriptor, colour table, image data. */
module GifFrame {
  import opened Bits
  import opened BitStream
  import opened Colours
  import opened GifFormat
  import opened GifImage
  import opened Lzw
  import opened SplitPalette

  method WriteControl(f: GifFile, delay: nat)
    modifies f
    ensures f.bytes == old(f.bytes) + Control(delay)
  {
    hide Low, High;
    f.Put(0x21);
    f.Put(0xf9);
    f.Put(0x04);
    f.Put(0x05); // leave the previous frame in place; this frame has transparency
    f.Put(Low(delay));
    f.Put(High(delay));
    f.Put(TRANSPARENT);
    f.Put(0);
    assert f.bytes == old(f.bytes) + Control(delay);
  }

  method WriteDescriptor(f: GifFile, bitDepth: nat, at: Place, width: nat, height: nat)
    requires 1 <= bitDepth <= 8
    modifies f
    ensures f.bytes == old(f.bytes) + Descriptor(bitDepth, at, width, height)
  {
    hide Low, High;
    f.Put(0x2c);
    f.Put(Low(at.left));
    f.Put(High(at.left));
    f.Put(Low(at.top));
    f.Put(High(at.top));
    f.Put(Low(width));
    f.Put(High(width));
    f.Put(Low(height));
    f.Put(High(height));
    f.Put(0x80 + bitDepth - 1);
    assert f.bytes == old(f.bytes) + Descriptor(bitDepth, at, width, height);
  }

  method PutColourBytes(f: GifFile, c: Rgb)
    modifies f
    ensures f.bytes == old(f.bytes) + [c.r, c.g, c.b]
  {
    f.Put(c.r);
    f.Put(c.g);
    f.Put(c.b);
  }

  lemma FlattenNext(t: seq<Rgb>, i: nat)
    requires i < |t|
    ensures Flatten(t[..i + 1]) == Flatten(t[..i]) + [t[i].r, t[i].g, t[i].b]
  {
    assert t[..i + 1][..i] == t[..i];
  }

  /** The local colour table, with black in place of the transparent entry. */
  method WritePalette(f: GifFile, pal: GifPalette)
    requires pal.Valid()
    modifies f
    ensures f.bytes == old(f.bytes) + Flatten(Table(pal.Value()))
  {
    hide Table, Flatten;
    ghost var t := Table(pal.Value());
    TableIs(pal.Value());
    PutColourBytes(f, BLACK);
    FlattenFirst(t);
    for ii := 1 to Pow2(pal.bitDepth)
      invariant f.bytes == old(f.bytes) + Flatten(t[..ii])
      invariant t == Table(pal.Value())
    {
      FlattenNext(t, ii);
      PutColourBytes(f, pal.colours[ii]);
    }
    assert t[..|t|] == t;
  }

  lemma TableIs(p: Palette)
    requires WellFormed(p)
    ensures 4 <= Pow2(p.depth) <= 256 && |Table(p)| == Pow2(p.depth) && Table(p)[0] == BLACK
    ensures forall i :: 0 < i < Pow2(p.depth) ==> Table(p)[i] == p.colours[i]
  {
    TableSize(p.depth);
  }

  lemma FlattenFirst(t: seq<Rgb>)
    requires t != []
    ensures Flatten(t[..1]) == [t[0].r, t[0].g, t[0].b]
  {
    FlattenNext(t, 0);
    assert t[..0] == [];
  }

  /** One frame at the given place. */
  method WriteLzwImage(f: GifFile, image: array<Pixel>, at: Place, width: nat, height: nat, delay: nat, pal: GifPalette)
    requires pal.Valid() && image.Length == width * height > 0
    requires Symbols(pal.bitDepth, Indices(image[..]))
    modifies f
    ensures f.bytes == old(f.bytes) + FrameBytes(pal.Value(), Indices(image[..]), at, width, height, delay)
  {
    hide Control, Descriptor, Table, Flatten, ImageData, Symbols;
    WriteControl(f, delay);
    WriteDescriptor(f, pal.bitDepth, at, width, height);
    WritePalette(f, pal);
    WriteImageData(f, image, width, height, pal.bitDepth);
  }
}
