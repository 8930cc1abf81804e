/** The GIF in progress: frames appended to the file, and the buffer that holds the frame
    shown last. */
module GifWriter {
  import opened Arithmetic
  import opened Bits
  import opened BitStream
  import opened Colours
  import opened Dither
  import opened FramePalette
  import opened Gather
  import opened GifFormat
  import opened GifFrame
  import opened GifHeader
  import opened GifPlayer
  import opened Lzw
  import opened MedianTree
  import opened OneColumn
  import opened Options
  import opened PaletteSearch
  import opened Quantisation
  import opened SplitPalette
  import opened TallImages
  import opened Threshold

  // ---------------------------------------------------------------- the writer

  class GifWriter {
    const f: GifFile
    const oldImage: array<Pixel>
    const width: nat
    const height: nat
    var firstFrame: bool

    ghost const start: seq<Byte>   // what the file held before
    ghost const loops: bool        // whether the header asks for repetition
    ghost var frames: seq<Frame>   // the frames written so far

    ghost predicate Valid()
      reads this, f, oldImage
    {
      && 0 < width < 65536 && 0 < height < 65536 && oldImage.Length == width * height
      && AllWritable(frames, width * height) && AllMade(frames, width)
      && f.bytes == start + HeadBytes(width, height, loops) + FileOf(frames, width, height)
      && firstFrame == (frames == [])
      && (frames != [] ==> frames[|frames| - 1].pixels == oldImage[..])
    }

    /** The colours on screen: those of the buffer, or none before the first frame. */
    ghost function Screen(): seq<Rgb>
      reads this, oldImage
    {
      if firstFrame then [] else Colour(oldImage[..])
    }

    lemma ScreenIsBefore()
      requires Valid()
      ensures Screen() == Before(frames, |frames|)
    {
    }

    /** Begins a file with its header. */
    constructor (f: GifFile, width: nat, height: nat, delay: nat)
      requires 0 < width < 65536 && 0 < height < 65536
      modifies f
      ensures Valid() && this.f == f && this.width == width && this.height == height
      ensures frames == [] && start == old(f.bytes) && loops == (delay != 0) && fresh(oldImage)
      ensures f.bytes == old(f.bytes) + HeadBytes(width, height, delay != 0)
    {
      hide HeadBytes;
      this.f := f;
      this.width, this.height := width, height;
      oldImage := new Pixel[width * height](_ => Pixel(BLACK, 0));
      firstFrame := true;
      start, loops := f.bytes, delay != 0;
      frames := [];
      new;
      WriteHead(f, width, height, delay);
    }

    /** Adds a frame: builds its palette, quantises it into the buffer and appends it to the
        file. The file keeps playing back exactly when a dithered frame meets the condition,
        which it always does with at least two columns and at most 490 rows. On an ordered
        palette the frame is shown as it was given exactly when each of its colours is on the
        screen or in the palette. */
    method WriteFrame(image: array<Pixel>, delay: nat, bitDepth: nat, dither: bool, palette: array?<Rgb>)
      returns (ghost fr: Frame, ghost lost: Rgb)
      requires Valid() && image != oldImage && image.Length == oldImage.Length && 2 <= bitDepth <= 8
      requires palette != null ==> palette.Length >= Pow2(bitDepth)
      modifies this`firstFrame, this`frames, f, oldImage
      ensures Valid() && !firstFrame && frames == old(frames) + [fr]
      ensures fr.delay == delay && fr.image == old(image[..]) && fr.dither == dither
      ensures WellFormed(fr.p) && fr.p.depth == bitDepth && ZeroSplit(fr.p)
      ensures fr.pixels == oldImage[..] == Quantised(fr.p, old(Screen()), old(image[..]), width, dither)
      ensures palette != null ==> OrderedTree(fr.p) && Lists(fr.p, lost, old(palette[..Pow2(bitDepth)]))
      ensures palette != null && old(forall k :: 0 <= k < Pow2(bitDepth) ==> palette[k] == BLACK) ==> AllBlack(fr.p)
      ensures palette == null ==>
                MadeFrom(fr.p, Feeding(if dither then [] else old(Screen()), old(Colour(image[..]))), dither)
      ensures |Feeding(if dither then [] else old(Screen()), old(Colour(image[..])))| >= Pow2(bitDepth) - 1
              ==> OrderedTree(fr.p)
      ensures FaithfulRun(frames) <==>
              FaithfulRun(old(frames)) && (dither ==> AllShown(fr.p, old(Screen()), old(image[..]), width))
      ensures FaithfulRun(old(frames)) && (!dither || (width >= 2 && height <= TALLEST)) ==> FaithfulRun(frames)
      ensures OrderedTree(fr.p) ==>
                (FaithfulRun(frames) && Colour(oldImage[..]) == old(Colour(image[..])) <==>
                 FaithfulRun(old(frames)) && AllAvailable(fr.p, old(Screen()), old(Colour(image[..]))))
      ensures palette != null ==>
                (FaithfulRun(frames) && Colour(oldImage[..]) == old(Colour(image[..])) <==>
                 && FaithfulRun(old(frames))
                 && AllListed(multiset(old(palette[..Pow2(bitDepth)])) - multiset{lost}, old(Screen()),
                              old(Colour(image[..]))))
    {
      hide FaithfulFrame, FaithfulRun, Symbols, BytesOf, OrderedTree, ZeroSplit, Changed, FileOf, AllShown, AllBlack,
           Pow2, HeadBytes, Quantised, Lists, MadeFrom, AllMade, AllWritable, Before, AllAvailable, AllListed,
           AllFaithful;
      var last := if firstFrame then null else oldImage;
      ScreenIsBefore();
      ghost var screen, next := Screen(), image[..];
      var pal;
      pal, lost := ChoosePalette(last, image, bitDepth, dither, palette);
      Quantise(last, image, oldImage, width, height, dither, pal);
      fr := Append(delay, pal, next, dither);
      FeedingAll(next, bitDepth);
      FrameShown(fr, screen, next, width, height, dither);
      if palette != null {
        AllListedIff(fr.p, lost, palette[..Pow2(bitDepth)], screen, Colour(next));
      }
    }

    /** Ends the file: a viewer, whatever it showed before, shows the frames as the buffer had
        them, if and only if every frame is faithful to the one before it. On ordered palettes it
        shows the images as they were given if and only if all their colours are available. */
    method End()
      requires Valid()
      modifies f
      ensures f.bytes == old(f.bytes) + [TRAILER] && |start| <= |f.bytes| && f.bytes[..|start|] == start
      ensures var head := ReadHead(f.bytes[|start|..]);
              head.Head? && head.width == width && head.height == height && head.loop == if loops then Some(0) else None
      ensures Timed(f.bytes[|start|..], frames, width * height)
      ensures PlaysBack(f.bytes[|start|..], frames, width * height) <==> FaithfulRun(frames)
      ensures AllOrdered(frames) ==>
                (PlaysAs(f.bytes[|start|..], Given(frames), width * height) <==> ImagesAvailable(frames))
    {
      hide FaithfulRun, AllWritable, FileOf, HeadBytes, PlaysBack, PlaysAs, Timed, ReadHead, AllMade, AllOrdered,
           ImagesAvailable;
      f.Put(TRAILER);
      FileHead(frames, width, height, loops, []);
      FileIsTimed(frames, width, height, loops, []);
      PlaysBackIff(frames, width, height, loops, []);
      if AllOrdered(frames) {
        PlaysImagesIff(frames, width, height, loops, []);
      }
      assert f.bytes[|start|..] == WholeFile(frames, width, height, loops) + [];
    }

    /** Writes the buffer as the next frame. */
    method Append(delay: nat, pal: GifPalette, ghost image: seq<Pixel>, ghost dither: bool) returns (ghost fr: Frame)
      requires 0 < width < 65536 && 0 < height < 65536 && oldImage.Length == width * height
      requires AllWritable(frames, width * height) && AllMade(frames, width) &&
               f.bytes == start + HeadBytes(width, height, loops) + FileOf(frames, width, height)
      requires pal.Valid() && Symbols(pal.bitDepth, Indices(oldImage[..]))
      requires Made(Frame(pal.Value(), oldImage[..], delay, image, dither), Before(frames, |frames|), width)
      modifies this`firstFrame, this`frames, f
      ensures Valid() && !firstFrame && frames == old(frames) + [fr]
      ensures fr == Frame(pal.Value(), oldImage[..], delay, image, dither)
      ensures FaithfulRun(frames) <==> FaithfulRun(old(frames)) && FaithfulFrame(Before(old(frames), |old(frames)|), fr)
    {
      hide FaithfulFrame, FaithfulRun, AllWritable, Before, Symbols, FrameBytes, FileOf, AllMade, Made, HeadBytes;
      Product(width, height);
      firstFrame := false;
      fr := Frame(pal.Value(), oldImage[..], delay, image, dither);
      WriteLzwImage(f, oldImage, ORIGIN, width, height, delay, pal);
      RunGrows(frames, fr, width, height);
      ghost var before := start + HeadBytes(width, height, loops);
      assert before + FileOf(frames, width, height) + BytesOf(fr, width, height) ==
             before + (FileOf(frames, width, height) + BytesOf(fr, width, height));
      frames := frames + [fr];
    }
  }

  /** When a frame the writer made is shown as written, and when it is shown as given. */
  lemma FrameShown(fr: Frame, screen: seq<Rgb>, next: seq<Pixel>, width: nat, height: nat, dither: bool)
    requires WellFormed(fr.p) && ZeroSplit(fr.p) && width > 0 && |next| == width * height
    requires OrderedTree(fr.p) || |next| < 255 || !dither
    requires fr.pixels == Quantised(fr.p, screen, next, width, dither)
    ensures FaithfulFrame(screen, fr) <==> dither ==> AllShown(fr.p, screen, next, width)
    ensures !dither || (width >= 2 && height <= TALLEST) ==> FaithfulFrame(screen, fr)
    ensures OrderedTree(fr.p) ==>
              (FaithfulFrame(screen, fr) && Colour(fr.pixels) == Colour(next) <==>
               AllAvailable(fr.p, screen, Colour(next)))
  {
    hide AllFaithful, AllShown, AllAvailable, OrderedTree, ZeroSplit, Quantised;
    QuantisedFaithfulIff(fr.p, screen, next, width, height, dither);
    if !dither || (width >= 2 && height <= TALLEST) {
      QuantisedFaithful(fr.p, screen, next, width, height, dither);
    }
    if OrderedTree(fr.p) {
      ExactIff(fr.p, screen, next, width, dither);
    }
  }

  /** Dithering feeds every pixel to the palette, so that few pixels means a small image. */
  lemma FeedingAll(next: seq<Pixel>, bitDepth: nat)
    requires 2 <= bitDepth <= 8
    ensures |Feeding([], Colour(next))| < Pow2(bitDepth) - 1 ==> |next| < 255
  {
    hide Pow2;
    Pow2Bounds(bitDepth);
  }

  /** Of a list of black colours only black entries can come. */
  lemma BlackList(p: Palette, lost: Rgb, listed: seq<Rgb>)
    requires Lists(p, lost, listed)
    requires forall k :: 0 <= k < |listed| ==> listed[k] == BLACK
    ensures AllBlack(p)
  {
    hide Pow2;
    forall i | 0 < i < Pow2(p.depth)
      ensures p.colours[i] == BLACK
    {
      var all := [lost] + p.colours[1..Pow2(p.depth)];
      assert all[i] == p.colours[i] && all[i] in multiset(all);
      assert all[i] in multiset(listed);
    }
  }

  method ChoosePalette(last: array?<Pixel>, image: array<Pixel>, bitDepth: nat, dither: bool, palette: array?<Rgb>)
    returns (pal: GifPalette, ghost lost: Rgb)
    requires 2 <= bitDepth <= 8 && (palette != null ==> palette.Length >= Pow2(bitDepth))
    requires last != null ==> last.Length == image.Length > 0
    ensures fresh(pal) && fresh(pal.colours) && fresh(pal.treeSplitElt) && fresh(pal.treeSplit)
    ensures pal.Valid() && pal.bitDepth == bitDepth && ZeroSplit(pal.Value())
    ensures palette != null ==> OrderedTree(pal.Value()) && Lists(pal.Value(), lost, palette[..Pow2(bitDepth)])
    ensures palette != null && (forall k :: 0 <= k < Pow2(bitDepth) ==> palette[k] == BLACK) ==> AllBlack(pal.Value())
    ensures palette == null ==>
              MadeFrom(pal.Value(), Feeding(if dither then [] else LastColours(last), Colour(image[..])), dither)
    ensures |Feeding(if dither then [] else LastColours(last), Colour(image[..]))| >= Pow2(bitDepth) - 1
            ==> OrderedTree(pal.Value())
  {
    hide OrderedTree, ZeroSplit, BuiltTree, Changed, AllBlack, Pow2, Lists;
    pal := new GifPalette(bitDepth);
    lost := BLACK;
    if palette != null {
      lost := MakePaletteFromColors(palette, bitDepth, pal);
      if forall k :: 0 <= k < Pow2(bitDepth) ==> palette[k] == BLACK {
        BlackList(pal.Value(), lost, palette[..Pow2(bitDepth)]);
      }
    } else {
      ghost var pixels := MakePalette(if dither then null else last, image, bitDepth, dither, pal);
    }
  }

  /** Chooses an index for every pixel, in the buffer that also holds the last frame. */
  method Quantise(last: array?<Pixel>, image: array<Pixel>, out: array<Pixel>, width: nat, height: nat, dither: bool,
                  pal: GifPalette)
    requires pal.Valid() && image != out && 0 < width
    requires image.Length == out.Length == width * height && (last != null ==> last.Length == out.Length)
    modifies out
    ensures Symbols(pal.bitDepth, Indices(out[..]))
    ensures out[..] == Quantised(pal.Value(), old(LastColours(last)), old(image[..]), width, dither)
  {
    hide Thresholded, Dithered;
    ghost var p, prev := pal.Value(), LastColours(last);
    if dither {
      DitherImage(last, image, out, width, height, pal);
    } else {
      ThresholdImage(last, image, out, pal);
      assert forall i :: 0 <= i < out.Length ==> out[i] == Thresholded(p, LastAt(prev, i), image[..][i].rgb);
    }
    assert out[..] == Quantised(p, prev, image[..], width, dither);
    IndicesFit(p, prev, image[..], width, dither);
  }

  // ---------------------------------------------------------------- files that do not play back

  /** A file whose first frame is not shown as written does not play back, whatever comes after. */
  lemma FirstFrameFails(frames: seq<Frame>, width: nat, height: nat, loops: bool, rest: seq<Byte>, i: nat)
    requires 0 < width < 65536 && 0 < height < 65536 && AllWritable(frames, width * height) && frames != []
    requires i < |frames[0].pixels| && WellFormed(frames[0].p)
    requires !Faithful(frames[0].p, LastAt([], i), frames[0].pixels[i])
    ensures !PlaysBack(WholeFile(frames, width, height, loops) + rest, frames, width * height)
  {
    hide PlaysBack, WholeFile, AllWritable, Faithful;
    PlaysBackIff(frames, width, height, loops, rest);
    assert !FaithfulFrame(Before(frames, 0), frames[0]);
  }

  /** A file that starts with a tall white image, dithered under a black palette, does not
      show what was written. */
  lemma TallFileFails(frames: seq<Frame>, next: seq<Pixel>, width: nat, height: nat, loops: bool, rest: seq<Byte>)
    requires 2 <= width < 65536 && 0 < height < 65536 && AllWritable(frames, width * height) && frames != []
    requires AllBlack(frames[0].p) && AllWhite(next) && 1310 * (width + 1) < |next| == width * height
    requires frames[0].pixels == Quantised(frames[0].p, [], next, width, true)
    ensures !PlaysBack(WholeFile(frames, width, height, loops) + rest, frames, width * height)
  {
    hide PlaysBack, WholeFile, AllWritable, Faithful, After, Cast, AllBlack, AllWhite;
    BlackIsWellFormed(frames[0].p);
    TallImageFails(frames[0].p, next, width, |next| - 1);
    FirstFrameFails(frames, width, height, loops, rest, |next| - 1);
  }

  /** Neither does a file that starts with a single white pixel. */
  lemma OnePixelFileFails(frames: seq<Frame>, next: seq<Pixel>, width: nat, height: nat, loops: bool, rest: seq<Byte>)
    requires width == height == 1 && AllWritable(frames, width * height) && frames != []
    requires AllBlack(frames[0].p) && AllWhite(next) && |next| == 1
    requires frames[0].pixels == Quantised(frames[0].p, [], next, width, true)
    ensures !PlaysBack(WholeFile(frames, width, height, loops) + rest, frames, width * height)
  {
    hide PlaysBack, WholeFile, AllWritable, Faithful, After, Cast, AllBlack;
    BlackIsWellFormed(frames[0].p);
    OneColumnFails(frames[0].p, [], next, width);
    FirstFrameFails(frames, width, height, loops, rest, 0);
  }
}
