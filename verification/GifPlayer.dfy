/** A viewer that plays a GIF, and the frames of a file: when it shows them as they were. */
module GifPlayer {
  import opened Bits
  import opened Colours
  import opened Dither
  import opened GifFormat
  import opened GifHeader
  import opened GifImage
  import opened Lzw
  import opened Options
  import opened PaletteSearch
  import opened Quantisation
  import opened Threshold

  // ---------------------------------------------------------------- playing a file

  const TRAILER: Byte := 0x3b

  /** Drawing an image over the canvas: the transparent index leaves a pixel as it was. */
  function Paint(image: Image, canvas: seq<Rgb>): (c: seq<Rgb>)
    requires |image.indices| == |canvas|
    ensures |c| == |canvas|
  {
    seq(|canvas|, i requires 0 <= i < |canvas| =>
      var index := image.indices[i];
      if Some(index) == image.transparent || index >= |image.table| then canvas[i] else image.table[index])
  }

  /** Does the image cover a screen of width x height and stay in place (disposal 1)? */
  predicate Covering(image: Image, width: nat, height: nat)
  {
    image.place == ORIGIN && image.width == width && image.height == height && image.disposal == 1
  }

  /** What is on the screen after an image, and for how long, in hundredths of a second. */
  datatype Scene = Scene(canvas: seq<Rgb>, delay: nat)

  datatype Played = Played(scenes: seq<Scene>) | Broken

  /** What a viewer shows, image by image, of images that cover the screen, up to the trailer. */
  function Play(bytes: seq<Byte>, canvas: seq<Rgb>, width: nat, height: nat): Played
    decreases |bytes|
  {
    if bytes == [] then Broken
    else if bytes[0] == TRAILER then Played([])
    else
      match ReadImage(bytes)
      case Malformed => Broken
      case Parsed(image, rest) =>
        if |rest| >= |bytes| || !Covering(image, width, height) || |image.indices| != |canvas| then Broken
        else
          var next := Paint(image, canvas);
          match Play(rest, next, width, height)
          case Broken => Broken
          case Played(scenes) => Played([Scene(next, image.delay)] + scenes)
  }

  /** Playing a whole file, header included. */
  function PlayFile(bytes: seq<Byte>, canvas: seq<Rgb>): Played
  {
    match ReadHead(bytes)
    case BadHead => Broken
    case Head(width, height, _, rest) =>
      if |canvas| != width * height then Broken else Play(rest, canvas, width, height)
  }

  // ---------------------------------------------------------------- the frames of a file

  /** A written frame, and the image it was made from. */
  datatype Frame = Frame(p: Palette, pixels: seq<Pixel>, delay: nat, image: seq<Pixel>, dither: bool)

  /** A frame that can be written: indices below the size of its colour table. */
  ghost predicate Writable(fr: Frame, n: nat)
  {
    WellFormed(fr.p) && |fr.pixels| == n && Symbols(fr.p.depth, Indices(fr.pixels))
  }

  ghost predicate AllWritable(frames: seq<Frame>, n: nat)
  {
    forall j :: 0 <= j < |frames| ==> Writable(frames[j], n)
  }

  ghost function BytesOf(fr: Frame, width: nat, height: nat): seq<Byte>
    requires WellFormed(fr.p)
  {
    FrameBytes(fr.p, Indices(fr.pixels), ORIGIN, width, height, fr.delay)
  }

  ghost function FileOf(frames: seq<Frame>, width: nat, height: nat): seq<Byte>
    requires AllWritable(frames, width * height)
  {
    if frames == [] then []
    else FileOf(frames[..|frames| - 1], width, height) + BytesOf(frames[|frames| - 1], width, height)
  }

  /** The header, the frames, and the trailer. */
  ghost function WholeFile(frames: seq<Frame>, width: nat, height: nat, loops: bool): seq<Byte>
    requires AllWritable(frames, width * height)
  {
    HeadBytes(width, height, loops) + FileOf(frames, width, height) + [TRAILER]
  }

  /** The colours on screen before frame `j`; none before the first. */
  ghost function Before(frames: seq<Frame>, j: nat): seq<Rgb>
    requires j <= |frames|
  {
    if j == 0 then [] else Colour(frames[j - 1].pixels)
  }

  /** Every pixel is the previous colour at index 0 or the palette colour of its index. */
  ghost predicate FaithfulFrame(prev: seq<Rgb>, fr: Frame)
  {
    AllFaithful(fr.p, prev, fr.pixels)
  }

  ghost predicate FaithfulRun(frames: seq<Frame>)
  {
    forall j :: 0 <= j < |frames| ==> FaithfulFrame(Before(frames, j), frames[j])
  }

  /** The delay of a frame in the two bytes the format has for it. */
  function Pause(fr: Frame): nat { fr.delay % 65536 }

  /** The colours of every frame, and its delay. */
  function Shows(frames: seq<Frame>): (s: seq<Scene>)
    ensures |s| == |frames|
    ensures forall j :: 0 <= j < |s| ==> s[j] == Scene(Colour(frames[j].pixels), Pause(frames[j]))
  {
    seq(|frames|, j requires 0 <= j < |frames| => Scene(Colour(frames[j].pixels), Pause(frames[j])))
  }

  /** A viewer, whatever it showed before, shows these scenes. */
  ghost predicate PlaysAs(bytes: seq<Byte>, scenes: seq<Scene>, size: nat)
  {
    forall canvas: seq<Rgb> :: |canvas| == size ==> PlayFile(bytes, canvas) == Played(scenes)
  }

  /** A viewer, whatever it shows, finds one image for each frame, with the frame's delay. */
  ghost predicate Timed(bytes: seq<Byte>, frames: seq<Frame>, size: nat)
  {
    forall canvas: seq<Rgb> :: |canvas| == size ==>
      var played := PlayFile(bytes, canvas);
      && played.Played? && |played.scenes| == |frames|
      && forall j :: 0 <= j < |frames| ==> played.scenes[j].delay == Pause(frames[j])
  }

  /** The file shows every frame with the colours of its pixels, for as long as it should. */
  ghost predicate PlaysBack(bytes: seq<Byte>, frames: seq<Frame>, size: nat)
  {
    PlaysAs(bytes, Shows(frames), size)
  }

  // ---------------------------------------------------------------- playing paints frame by frame

  function Seen(fr: Frame, width: nat, height: nat): (image: Image)
    requires WellFormed(fr.p)
    ensures |image.indices| == |fr.pixels|
  {
    Image(ORIGIN, width, height, Pause(fr), 1, Some(TRANSPARENT), Table(fr.p), Indices(fr.pixels))
  }

  /** The scenes that painting the frames over one another makes. */
  ghost function PaintAll(frames: seq<Frame>, canvas: seq<Rgb>, width: nat, height: nat): (s: seq<Scene>)
    requires AllWritable(frames, |canvas|)
    ensures |s| == |frames|
    ensures forall j :: 0 <= j < |s| ==> s[j].delay == Pause(frames[j])
    decreases |frames|
  {
    if frames == [] then []
    else
      assert Writable(frames[0], |canvas|);
      var next := Paint(Seen(frames[0], width, height), canvas);
      [Scene(next, Pause(frames[0]))] + PaintAll(frames[1..], next, width, height)
  }

  /** A file starts with its first frame. */
  lemma {:induction false} FileOfFront(frames: seq<Frame>, width: nat, height: nat)
    requires AllWritable(frames, width * height) && frames != []
    ensures AllWritable(frames[1..], width * height) && WellFormed(frames[0].p)
    ensures FileOf(frames, width, height) == BytesOf(frames[0], width, height) + FileOf(frames[1..], width, height)
  {
    hide BytesOf, Symbols;
    assert Writable(frames[0], width * height) && Writable(frames[|frames| - 1], width * height);
    hide Writable;
    var init, last := frames[..|frames| - 1], frames[|frames| - 1];
    if init == [] {
      assert frames[1..] == [] && FileOf(init, width, height) == [];
    } else {
      FileOfFront(init, width, height);
      assert frames[1..][..|frames| - 2] == init[1..];
      RegroupBytes(BytesOf(frames[0], width, height), FileOf(init[1..], width, height), BytesOf(last, width, height));
    }
  }

  lemma RegroupBytes(a: seq<Byte>, b: seq<Byte>, c: seq<Byte>)
    ensures (a + b) + c == a + (b + c)
  {
  }

  lemma PlayOne(fr: Frame, canvas: seq<Rgb>, width: nat, height: nat, tail: seq<Byte>)
    requires 0 < width < 65536 && 0 < height < 65536 && Writable(fr, width * height) && |canvas| == width * height
    ensures var next := Paint(Seen(fr, width, height), canvas);
            Play(BytesOf(fr, width, height) + tail, canvas, width, height) ==
            match Play(tail, next, width, height)
            case Broken => Broken
            case Played(scenes) => Played([Scene(next, Pause(fr))] + scenes)
  {
    hide ReadImage, Table, Paint, Symbols, ImageData, Flatten;
    var bytes := BytesOf(fr, width, height) + tail;
    ReadFrame(fr.p, Indices(fr.pixels), ORIGIN, width, height, fr.delay, tail);
    assert bytes[0] == 0x21;
  }

  lemma PlayEnd(frames: seq<Frame>, canvas: seq<Rgb>, width: nat, height: nat, rest: seq<Byte>)
    requires frames == [] && |canvas| == width * height
    ensures Play(FileOf(frames, width, height) + [TRAILER] + rest, canvas, width, height) ==
            Played([]) == Played(PaintAll(frames, canvas, width, height))
  {
    assert ([] + [TRAILER] + rest)[0] == TRAILER;
  }

  /** A viewer of any frames paints them over one another and stops at the trailer,
      whatever follows. */
  lemma {:induction false} PlayPaints(frames: seq<Frame>, canvas: seq<Rgb>, width: nat, height: nat, rest: seq<Byte>)
    requires 0 < width < 65536 && 0 < height < 65536 && AllWritable(frames, width * height) &&
             |canvas| == width * height
    ensures Play(FileOf(frames, width, height) + [TRAILER] + rest, canvas, width, height) ==
            Played(PaintAll(frames, canvas, width, height))
    decreases |frames|
  {
    hide BytesOf, Play, FileOf, Symbols, Paint;
    if frames == [] {
      PlayEnd(frames, canvas, width, height, rest);
    } else {
      FileOfFront(frames, width, height);
      assert Writable(frames[0], width * height);
      var tail := FileOf(frames[1..], width, height) + [TRAILER] + rest;
      PlayOne(frames[0], canvas, width, height, tail);
      assert FileOf(frames, width, height) + [TRAILER] + rest == BytesOf(frames[0], width, height) + tail;
      PlayPaints(frames[1..], Paint(Seen(frames[0], width, height), canvas), width, height, rest);
    }
  }

  /** A reader of the file learns the size of the screen, and whether to repeat. */
  lemma FileHead(frames: seq<Frame>, width: nat, height: nat, loops: bool, rest: seq<Byte>)
    requires 0 < width < 65536 && 0 < height < 65536 && AllWritable(frames, width * height)
    ensures ReadHead(WholeFile(frames, width, height, loops) + rest) ==
            Head(width, height, if loops then Some(0) else None, FileOf(frames, width, height) + [TRAILER] + rest)
  {
    hide HeadBytes, ReadHead, BytesOf, FileOf;
    var images := FileOf(frames, width, height) + [TRAILER] + rest;
    NoExtensionInFront(frames, width, height, rest);
    ReadWrittenHead(width, height, loops, images);
    assert WholeFile(frames, width, height, loops) + rest == HeadBytes(width, height, loops) + images;
  }

  /** The images start right behind the header. */
  lemma PlaySplit(frames: seq<Frame>, canvas: seq<Rgb>, width: nat, height: nat, loops: bool, rest: seq<Byte>)
    requires 0 < width < 65536 && 0 < height < 65536 && AllWritable(frames, width * height)
    requires |canvas| == width * height
    ensures PlayFile(WholeFile(frames, width, height, loops) + rest, canvas) ==
            Play(FileOf(frames, width, height) + [TRAILER] + rest, canvas, width, height)
  {
    hide WholeFile, ReadHead, FileOf, Play;
    FileHead(frames, width, height, loops, rest);
  }

  lemma NoExtensionInFront(frames: seq<Frame>, width: nat, height: nat, rest: seq<Byte>)
    requires AllWritable(frames, width * height)
    ensures NoExtension(FileOf(frames, width, height) + [TRAILER] + rest)
  {
    hide FileOf, Table, Flatten, ImageData, Descriptor;
    if frames == [] {
      NoFrames(frames, width, height);
    } else {
      FileOfFront(frames, width, height);
      assert BytesOf(frames[0], width, height)[..2] == [0x21, 0xf9];
    }
  }

  lemma NoFrames(frames: seq<Frame>, width: nat, height: nat)
    requires frames == []
    ensures FileOf(frames, width, height) == []
  {
  }

  /** A viewer of a whole file paints its frames over one another. */
  lemma PlayFilePaints(frames: seq<Frame>, canvas: seq<Rgb>, width: nat, height: nat, loops: bool, rest: seq<Byte>)
    requires 0 < width < 65536 && 0 < height < 65536 && AllWritable(frames, width * height)
    requires |canvas| == width * height
    ensures PlayFile(WholeFile(frames, width, height, loops) + rest, canvas) ==
            Played(PaintAll(frames, canvas, width, height))
  {
    hide PlayFile, Play, WholeFile, FileOf, PaintAll;
    PlaySplit(frames, canvas, width, height, loops, rest);
    PlayPaints(frames, canvas, width, height, rest);
  }

  // ---------------------------------------------------------------- when that shows the frames

  lemma TableAt(p: Palette, index: nat)
    requires WellFormed(p) && 0 < index < Pow2(p.depth)
    ensures index < |Table(p)| && index < 256 && Table(p)[index] == p.colours[index]
  {
    TableSize(p.depth);
  }

  lemma PaintPixelIff(canvas: seq<Rgb>, fr: Frame, width: nat, height: nat, i: nat)
    requires Writable(fr, |canvas|) && i < |canvas|
    ensures Paint(Seen(fr, width, height), canvas)[i] == fr.pixels[i].rgb <==>
            Faithful(fr.p, LastAt(canvas, i), fr.pixels[i])
  {
    hide Table;
    assert Indices(fr.pixels)[i] < Pow2(fr.p.depth);
    if fr.pixels[i].a != TRANSPARENT {
      TableAt(fr.p, fr.pixels[i].a);
    }
  }

  /** Painting a frame shows its own colours if and only if it is faithful to the canvas. */
  lemma PaintIff(canvas: seq<Rgb>, fr: Frame, width: nat, height: nat)
    requires Writable(fr, |canvas|)
    ensures Paint(Seen(fr, width, height), canvas) == Colour(fr.pixels) <==> FaithfulFrame(canvas, fr)
  {
    hide Paint, Seen, Faithful;
    var painted := Paint(Seen(fr, width, height), canvas);
    forall i | 0 <= i < |canvas|
      ensures painted[i] == fr.pixels[i].rgb <==> Faithful(fr.p, LastAt(canvas, i), fr.pixels[i])
    {
      PaintPixelIff(canvas, fr, width, height, i);
    }
    if painted == Colour(fr.pixels) {
      forall i | 0 <= i < |fr.pixels|
        ensures Faithful(fr.p, LastAt(canvas, i), fr.pixels[i])
      {
        assert painted[i] == Colour(fr.pixels)[i];
      }
    }
  }

  /** Faithful frames, the first one to the given canvas. */
  ghost predicate FaithfulFrom(canvas: seq<Rgb>, frames: seq<Frame>)
    decreases |frames|
  {
    frames == [] || (FaithfulFrame(canvas, frames[0]) && FaithfulFrom(Colour(frames[0].pixels), frames[1..]))
  }

  /** The frames painted over a canvas are as they should be if and only if each is faithful
      to the one before. */
  lemma {:induction false} PaintAllIff(frames: seq<Frame>, canvas: seq<Rgb>, width: nat, height: nat)
    requires AllWritable(frames, |canvas|)
    ensures PaintAll(frames, canvas, width, height) == Shows(frames) <==> FaithfulFrom(canvas, frames)
    decreases |frames|
  {
    hide Paint, FaithfulFrame, Symbols;
    if frames != [] {
      assert Writable(frames[0], |canvas|);
      var next := Paint(Seen(frames[0], width, height), canvas);
      PaintIff(canvas, frames[0], width, height);
      PaintAllIff(frames[1..], next, width, height);
      var all, shown := PaintAll(frames, canvas, width, height), Shows(frames);
      assert all[0] == Scene(next, Pause(frames[0])) && shown[0] == Scene(Colour(frames[0].pixels), Pause(frames[0]));
      assert all[1..] == PaintAll(frames[1..], next, width, height) && shown[1..] == Shows(frames[1..]);
      assert all == [all[0]] + all[1..] && shown == [shown[0]] + shown[1..];
    }
  }

  lemma {:induction false} FaithfulFromIs(canvas: seq<Rgb>, frames: seq<Frame>)
    ensures FaithfulFrom(canvas, frames) <==>
            && (frames != [] ==> FaithfulFrame(canvas, frames[0]))
            && forall j :: 0 < j < |frames| ==> FaithfulFrame(Colour(frames[j - 1].pixels), frames[j])
    decreases |frames|
  {
    hide FaithfulFrame;
    if frames != [] {
      var tail := frames[1..];
      FaithfulFromIs(Colour(frames[0].pixels), tail);
      if forall j :: 0 < j < |tail| ==> FaithfulFrame(Colour(tail[j - 1].pixels), tail[j]) {
        forall j | 1 < j < |frames|
          ensures FaithfulFrame(Colour(frames[j - 1].pixels), frames[j])
        {
          assert FaithfulFrame(Colour(tail[j - 2].pixels), tail[j - 1]);
        }
      }
      if forall j :: 0 < j < |frames| ==> FaithfulFrame(Colour(frames[j - 1].pixels), frames[j]) {
        forall j | 0 < j < |tail|
          ensures FaithfulFrame(Colour(tail[j - 1].pixels), tail[j])
        {
          assert FaithfulFrame(Colour(frames[j].pixels), frames[j + 1]);
        }
      }
    }
  }

  /** A frame is faithful to every canvas, that is, to a black and to a white one, if and only
      if it needs none. */
  lemma FirstFrameIff(fr: Frame, n: nat)
    requires Writable(fr, n)
    ensures (forall canvas: seq<Rgb> :: |canvas| == n ==> FaithfulFrame(canvas, fr)) <==> FaithfulFrame([], fr)
  {
    var black := seq(n, _ => BLACK);
    var white := seq(n, _ => Rgb(255, 255, 255));
    if FaithfulFrame(black, fr) && FaithfulFrame(white, fr) {
      forall i | 0 <= i < n
        ensures Faithful(fr.p, LastAt([], i), fr.pixels[i])
      {
        assert Faithful(fr.p, LastAt(black, i), fr.pixels[i]);
        assert Faithful(fr.p, LastAt(white, i), fr.pixels[i]);
      }
    }
    if FaithfulFrame([], fr) {
      forall canvas: seq<Rgb>, i | |canvas| == n && 0 <= i < n
        ensures Faithful(fr.p, LastAt(canvas, i), fr.pixels[i])
      {
        assert Faithful(fr.p, LastAt([], i), fr.pixels[i]);
      }
    }
  }

  lemma FaithfulRunIff(frames: seq<Frame>, n: nat)
    requires AllWritable(frames, n)
    ensures (forall canvas: seq<Rgb> :: |canvas| == n ==> FaithfulFrom(canvas, frames)) <==> FaithfulRun(frames)
  {
    hide FaithfulFrame, FaithfulFrom, Writable;
    forall canvas: seq<Rgb>
      ensures FaithfulFrom(canvas, frames) <==>
              && (frames != [] ==> FaithfulFrame(canvas, frames[0]))
              && forall j :: 0 < j < |frames| ==> FaithfulFrame(Colour(frames[j - 1].pixels), frames[j])
    {
      FaithfulFromIs(canvas, frames);
    }
    var some := seq(n, _ => BLACK);
    if frames != [] {
      FirstFrameIff(frames[0], n);
    }
    RunParts(frames);
    assert |some| == n;
  }

  lemma RunParts(frames: seq<Frame>)
    ensures FaithfulRun(frames) <==>
            && (frames != [] ==> FaithfulFrame([], frames[0]))
            && forall j :: 0 < j < |frames| ==> FaithfulFrame(Colour(frames[j - 1].pixels), frames[j])
  {
    hide FaithfulFrame;
    if FaithfulRun(frames) {
      assert frames != [] ==> FaithfulFrame(Before(frames, 0), frames[0]);
      forall j | 0 < j < |frames|
        ensures FaithfulFrame(Colour(frames[j - 1].pixels), frames[j])
      {
        assert FaithfulFrame(Before(frames, j), frames[j]);
      }
    }
  }

  /** A viewer of any finished file, faithful or not, finds the delay of every frame. */
  lemma FileIsTimed(frames: seq<Frame>, width: nat, height: nat, loops: bool, rest: seq<Byte>)
    requires 0 < width < 65536 && 0 < height < 65536 && AllWritable(frames, width * height)
    ensures Timed(WholeFile(frames, width, height, loops) + rest, frames, width * height)
  {
    hide AllWritable, WholeFile, PlayFile;
    forall canvas: seq<Rgb> | |canvas| == width * height
      ensures PlayFile(WholeFile(frames, width, height, loops) + rest, canvas) ==
              Played(PaintAll(frames, canvas, width, height))
    {
      PlayFilePaints(frames, canvas, width, height, loops, rest);
    }
  }

  /** A viewer of the finished file shows every frame as its pixels say, whatever was on the
      screen before, if and only if every frame is faithful to the one before it. */
  lemma PlaysBackIff(frames: seq<Frame>, width: nat, height: nat, loops: bool, rest: seq<Byte>)
    requires 0 < width < 65536 && 0 < height < 65536 && AllWritable(frames, width * height)
    ensures PlaysBack(WholeFile(frames, width, height, loops) + rest, frames, width * height) <==> FaithfulRun(frames)
  {
    hide FaithfulFrom, FaithfulRun, AllWritable, WholeFile, PlayFile, PaintAll, Shows;
    var bytes := WholeFile(frames, width, height, loops) + rest;
    forall canvas: seq<Rgb> | |canvas| == width * height
      ensures PlayFile(bytes, canvas) == Played(Shows(frames)) <==> FaithfulFrom(canvas, frames)
    {
      PlayFilePaints(frames, canvas, width, height, loops, rest);
      PaintAllIff(frames, canvas, width, height);
    }
    FaithfulRunIff(frames, width * height);
  }

  /** The first frame of a file that plays back has no transparent pixel. */
  lemma FirstFrameOpaque(frames: seq<Frame>, width: nat, height: nat, loops: bool, rest: seq<Byte>, i: nat)
    requires 0 < width < 65536 && 0 < height < 65536 && AllWritable(frames, width * height)
    requires PlaysBack(WholeFile(frames, width, height, loops) + rest, frames, width * height)
    requires frames != [] && i < |frames[0].pixels|
    ensures frames[0].pixels[i].a != TRANSPARENT
  {
    hide PlaysBack, WholeFile, AllWritable;
    PlaysBackIff(frames, width, height, loops, rest);
    assert FaithfulFrame(Before(frames, 0), frames[0]);
    assert Faithful(frames[0].p, LastAt([], i), frames[0].pixels[i]);
  }

  // ---------------------------------------------------------------- when that shows the images

  /** The colours of the images the frames were made from, and the delays. */
  function Given(frames: seq<Frame>): (s: seq<Scene>)
    ensures |s| == |frames|
    ensures forall j :: 0 <= j < |s| ==> s[j] == Scene(Colour(frames[j].image), Pause(frames[j]))
  {
    seq(|frames|, j requires 0 <= j < |frames| => Scene(Colour(frames[j].image), Pause(frames[j])))
  }

  /** The frame is what the writer makes of its image over the colours on screen. */
  ghost predicate Made(fr: Frame, screen: seq<Rgb>, width: nat)
  {
    WellFormed(fr.p) && width > 0 && fr.pixels == Quantised(fr.p, screen, fr.image, width, fr.dither)
  }

  ghost predicate AllMade(frames: seq<Frame>, width: nat)
  {
    forall j :: 0 <= j < |frames| ==> Made(frames[j], Before(frames, j), width)
  }

  ghost predicate AllOrdered(frames: seq<Frame>)
  {
    forall j :: 0 <= j < |frames| ==> WellFormed(frames[j].p) && OrderedTree(frames[j].p)
  }

  /** The image before image `j`; none before the first. */
  ghost function GivenBefore(frames: seq<Frame>, j: nat): seq<Rgb>
    requires j <= |frames|
  {
    if j == 0 then [] else Colour(frames[j - 1].image)
  }

  /** Every colour of every image is in the palette of its frame, or at the same place in
      the image before. */
  ghost predicate ImagesAvailable(frames: seq<Frame>)
  {
    forall j :: 0 <= j < |frames| ==> AllAvailable(frames[j].p, GivenBefore(frames, j), Colour(frames[j].image))
  }

  /** The frame is shown as written, and as given. */
  ghost predicate Exact(fr: Frame, screen: seq<Rgb>)
  {
    FaithfulFrame(screen, fr) && Colour(fr.pixels) == Colour(fr.image)
  }

  lemma ExactFrame(fr: Frame, screen: seq<Rgb>, width: nat)
    requires Made(fr, screen, width) && OrderedTree(fr.p) && AllAvailable(fr.p, screen, Colour(fr.image))
    ensures Exact(fr, screen)
  {
    hide Quantised, AllFaithful, AllAvailable, OrderedTree;
    ExactIff(fr.p, screen, fr.image, width, fr.dither);
  }

  /** Frames of available colours carry their images' colours, one after the other. */
  lemma {:induction false} AvailableCarried(frames: seq<Frame>, width: nat, n: nat)
    requires AllMade(frames, width) && AllOrdered(frames) && ImagesAvailable(frames) && n <= |frames|
    ensures forall j :: 0 <= j < n ==> Exact(frames[j], Before(frames, j))
  {
    hide Exact, AllAvailable, OrderedTree, Made, Before, GivenBefore;
    if n > 0 {
      var fr := frames[n - 1];
      AvailableCarried(frames, width, n - 1);
      CarriedBefore(frames, n - 1);
      assert Made(fr, Before(frames, n - 1), width);
      assert AllAvailable(fr.p, GivenBefore(frames, n - 1), Colour(fr.image));
      ExactFrame(fr, Before(frames, n - 1), width);
    }
  }

  lemma CarriedBefore(frames: seq<Frame>, j: nat)
    requires j < |frames| && forall i :: 0 <= i < j ==> Exact(frames[i], Before(frames, i))
    ensures Before(frames, j) == GivenBefore(frames, j)
  {
    if j > 0 {
      assert Exact(frames[j - 1], Before(frames, j - 1));
    }
  }

  lemma PaintedAvailable(canvas: seq<Rgb>, fr: Frame, width: nat, height: nat)
    requires Writable(fr, |canvas|)
    ensures AllAvailable(fr.p, canvas, Paint(Seen(fr, width, height), canvas))
  {
    hide Table;
    var painted := Paint(Seen(fr, width, height), canvas);
    forall i | 0 <= i < |canvas|
      ensures Available(fr.p, LastAt(canvas, i), painted[i])
    {
      assert Indices(fr.pixels)[i] < Pow2(fr.p.depth);
      if fr.pixels[i].a != TRANSPARENT {
        TableAt(fr.p, fr.pixels[i].a);
      }
    }
  }

  /** What is painted over a canvas can only be made of colours that are available. */
  lemma {:induction false} AllPaintedAvailable(frames: seq<Frame>, canvas: seq<Rgb>, width: nat, height: nat)
    requires AllWritable(frames, |canvas|) && PaintAll(frames, canvas, width, height) == Given(frames)
    ensures frames != [] ==> AllAvailable(frames[0].p, canvas, Colour(frames[0].image))
    ensures forall j :: 0 < j < |frames| ==>
              AllAvailable(frames[j].p, Colour(frames[j - 1].image), Colour(frames[j].image))
    decreases |frames|
  {
    hide Paint, AllAvailable, Symbols, Seen;
    if frames != [] {
      var tail, all := frames[1..], PaintAll(frames, canvas, width, height);
      assert Writable(frames[0], |canvas|);
      var next := Paint(Seen(frames[0], width, height), canvas);
      PaintedAvailable(canvas, frames[0], width, height);
      assert all == Given(frames) && all[0].canvas == next == Colour(frames[0].image);
      assert all[1..] == PaintAll(tail, next, width, height) == Given(tail);
      AllPaintedAvailable(tail, next, width, height);
      forall j | 0 < j < |frames|
        ensures AllAvailable(frames[j].p, Colour(frames[j - 1].image), Colour(frames[j].image))
      {
        assert frames[j] == tail[j - 1] && (j > 1 ==> frames[j - 1] == tail[j - 2]);
      }
    }
  }

  /** Colours that are available over a black and over a white canvas are in the palette. */
  lemma AvailableAnywhere(p: Palette, black: seq<Rgb>, white: seq<Rgb>, colours: seq<Rgb>)
    requires |black| == |white| == |colours|
    requires forall i :: 0 <= i < |black| ==> black[i] == BLACK && white[i] == Rgb(255, 255, 255)
    requires AllAvailable(p, black, colours) && AllAvailable(p, white, colours)
    ensures AllAvailable(p, [], colours)
  {
    forall i | 0 <= i < |colours|
      ensures Available(p, LastAt([], i), colours[i])
    {
      assert Available(p, LastAt(black, i), colours[i]);
      assert Available(p, LastAt(white, i), colours[i]);
    }
  }

  lemma ShownAvailable(frames: seq<Frame>, width: nat, height: nat, loops: bool, rest: seq<Byte>)
    requires 0 < width < 65536 && 0 < height < 65536 && AllWritable(frames, width * height) && AllMade(frames, width)
    requires PlaysAs(WholeFile(frames, width, height, loops) + rest, Given(frames), width * height)
    ensures ImagesAvailable(frames)
  {
    hide AllAvailable, PlayFile, PaintAll, AllWritable, WholeFile, AllMade, ImagesAvailable, Given;
    var black, white := seq(width * height, _ => BLACK), seq(width * height, _ => Rgb(255, 255, 255));
    PlayFilePaints(frames, black, width, height, loops, rest);
    PlayFilePaints(frames, white, width, height, loops, rest);
    AllPaintedAvailable(frames, black, width, height);
    AllPaintedAvailable(frames, white, width, height);
    if frames != [] {
      FirstSize(frames, width, width * height);
      AvailableAnywhere(frames[0].p, black, white, Colour(frames[0].image));
    }
    ImagesParts(frames);
  }

  lemma ImagesParts(frames: seq<Frame>)
    requires frames != [] ==> AllAvailable(frames[0].p, [], Colour(frames[0].image))
    requires forall j :: 0 < j < |frames| ==>
               AllAvailable(frames[j].p, Colour(frames[j - 1].image), Colour(frames[j].image))
    ensures ImagesAvailable(frames)
  {
    hide AllAvailable;
  }

  lemma FirstSize(frames: seq<Frame>, width: nat, n: nat)
    requires frames != [] && AllWritable(frames, n) && AllMade(frames, width)
    ensures |frames[0].image| == n
  {
    hide Made, Writable;
    assert Made(frames[0], Before(frames, 0), width) && Writable(frames[0], n);
    MadeSize(frames[0], Before(frames, 0), width, n);
  }

  lemma MadeSize(fr: Frame, screen: seq<Rgb>, width: nat, n: nat)
    requires Writable(fr, n) && Made(fr, screen, width)
    ensures |fr.image| == n
  {
  }

  /** On ordered palettes a viewer of the finished file shows exactly the images that were given
      if and only if every colour of every image is in the palette of its frame or at the same
      place in the image before. */
  lemma PlaysImagesIff(frames: seq<Frame>, width: nat, height: nat, loops: bool, rest: seq<Byte>)
    requires 0 < width < 65536 && 0 < height < 65536 && AllWritable(frames, width * height)
    requires AllMade(frames, width) && AllOrdered(frames)
    ensures PlaysAs(WholeFile(frames, width, height, loops) + rest, Given(frames), width * height) <==>
            ImagesAvailable(frames)
  {
    hide AllMade, AllOrdered, PlaysAs, AllWritable, FaithfulFrame, WholeFile;
    if ImagesAvailable(frames) {
      AvailableCarried(frames, width, |frames|);
      PlaysBackIff(frames, width, height, loops, rest);
      assert Shows(frames) == Given(frames);
    }
    if PlaysAs(WholeFile(frames, width, height, loops) + rest, Given(frames), width * height) {
      ShownAvailable(frames, width, height, loops, rest);
    }
  }

  // ---------------------------------------------------------------- one more frame

  lemma RunGrows(frames: seq<Frame>, fr: Frame, width: nat, height: nat)
    requires AllWritable(frames, width * height) && Writable(fr, width * height)
    requires AllMade(frames, width) && Made(fr, Before(frames, |frames|), width)
    ensures AllWritable(frames + [fr], width * height)
    ensures FileOf(frames + [fr], width, height) == FileOf(frames, width, height) + BytesOf(fr, width, height)
    ensures FaithfulRun(frames + [fr]) <==> FaithfulRun(frames) && FaithfulFrame(Before(frames, |frames|), fr)
    ensures AllMade(frames + [fr], width)
  {
    hide BytesOf, FaithfulFrame, Writable, FaithfulRun, AllMade, Made;
    assert (frames + [fr])[..|frames|] == frames;
    FaithfulGrows(frames, fr);
    MadeGrows(frames, fr, width);
  }

  lemma MadeGrows(frames: seq<Frame>, fr: Frame, width: nat)
    requires AllMade(frames, width) && Made(fr, Before(frames, |frames|), width)
    ensures AllMade(frames + [fr], width)
  {
    hide Made, Before;
    forall j | 0 <= j <= |frames|
      ensures Made((frames + [fr])[j], Before(frames + [fr], j), width)
    {
      BeforeSame(frames, fr, j);
    }
  }

  lemma BeforeSame(frames: seq<Frame>, fr: Frame, j: nat)
    requires j <= |frames|
    ensures Before(frames + [fr], j) == Before(frames, j)
    ensures (frames + [fr])[|frames|] == fr && (j < |frames| ==> (frames + [fr])[j] == frames[j])
  {
  }

  lemma FaithfulGrows(frames: seq<Frame>, fr: Frame)
    ensures FaithfulRun(frames + [fr]) <==> FaithfulRun(frames) && FaithfulFrame(Before(frames, |frames|), fr)
  {
    hide FaithfulFrame, Before;
    var more := frames + [fr];
    BeforeSame(frames, fr, |frames|);
    if FaithfulRun(more) {
      assert FaithfulFrame(Before(more, |frames|), more[|frames|]);
      forall j | 0 <= j < |frames|
        ensures FaithfulFrame(Before(frames, j), frames[j])
      {
        BeforeSame(frames, fr, j);
        assert FaithfulFrame(Before(more, j), more[j]);
      }
    }
    if FaithfulRun(frames) && FaithfulFrame(Before(frames, |frames|), fr) {
      forall j | 0 <= j < |more|
        ensures FaithfulFrame(Before(more, j), more[j])
      {
        BeforeSame(frames, fr, j);
      }
    }
  }
}
