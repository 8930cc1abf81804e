/** The start of a GIF file: signature, logical screen descriptor (section 18), global colour
    table (19), and the application extension that asks for endless repetition. */
module GifHeader {
  import opened Bits
  import opened BitStream
  import opened GifFormat
  import opened Options
  import opened SubBlocks

  const SIGNATURE: seq<Byte> := [0x47, 0x49, 0x46, 0x38, 0x39, 0x61]
  const NETSCAPE: seq<Byte> := [0x4e, 0x45, 0x54, 0x53, 0x43, 0x41, 0x50, 0x45, 0x32, 0x2e, 0x30]

  /** What a reader learns: the size of the screen, how often to repeat (0 is endlessly), and
      where the images begin. */
  datatype Head = Head(width: nat, height: nat, loop: Option<nat>, rest: seq<Byte>) | BadHead

  /** An application extension with the repetition count, if there is one. */
  function ReadLoop(width: nat, height: nat, bytes: seq<Byte>): Head
  {
    if |bytes| < 14 || bytes[..3] != [0x21, 0xff, 11] || bytes[3..14] != NETSCAPE then Head(width, height, None, bytes)
    else
      match Unblock(bytes[14..])
      case Truncated => BadHead
      case Unframed(data, rest) =>
        if |data| != 3 || data[0] != 1 then BadHead
        else Head(width, height, Some(Word(data[1], data[2])), rest)
  }

  function ReadHead(bytes: seq<Byte>): Head
  {
    if |bytes| < 13 || bytes[..6] != SIGNATURE then BadHead
    else
      var table := if bytes[10] < 0x80 then 0 else 3 * Pow2(bytes[10] % 8 + 1);
      if |bytes| < 13 + table then BadHead
      else ReadLoop(Word(bytes[6], bytes[7]), Word(bytes[8], bytes[9]), bytes[13 + table..])
  }

  // ---------------------------------------------------------------- the encoder's bytes

  function LoopBytes(loops: bool): seq<Byte>
  {
    if loops then [0x21, 0xff, 11] + NETSCAPE + [3, 1, 0, 0, 0] else []
  }

  /** The screen, with a dummy global table of two black entries. */
  function ScreenBytes(width: nat, height: nat): (s: seq<Byte>)
    ensures |s| == 19
  {
    SIGNATURE + [Low(width), High(width), Low(height), High(height), 0xf0, 0, 0] + [0, 0, 0] + [0, 0, 0]
  }

  function HeadBytes(width: nat, height: nat, loops: bool): seq<Byte>
  {
    ScreenBytes(width, height) + LoopBytes(loops)
  }

  /** No application extension follows. */
  predicate NoExtension(bytes: seq<Byte>) { |bytes| < 2 || bytes[0] != 0x21 || bytes[1] != 0xff }

  lemma ReadWrittenLoop(width: nat, height: nat, loops: bool, rest: seq<Byte>)
    requires NoExtension(rest)
    ensures ReadLoop(width, height, LoopBytes(loops) + rest) ==
            Head(width, height, if loops then Some(0) else None, rest)
  {
    var bytes := LoopBytes(loops) + rest;
    if loops {
      assert bytes[..3] == [0x21, 0xff, 11] && bytes[3..14] == NETSCAPE;
      var data: seq<Byte> := [1, 0, 0];
      assert bytes[14..] == Blocks(data) + ([0] + rest);
      UnblockBlocks(data, rest);
    } else {
      assert bytes == rest;
      if |rest| >= 3 {
        assert rest[..3][0] == rest[0] && rest[..3][1] == rest[1];
      }
    }
  }

  /** Reading the header gives back the size, and endless repetition exactly when asked for. */
  lemma ReadWrittenHead(width: nat, height: nat, loops: bool, rest: seq<Byte>)
    requires width < 65536 && height < 65536 && NoExtension(rest)
    ensures ReadHead(HeadBytes(width, height, loops) + rest) ==
            Head(width, height, if loops then Some(0) else None, rest)
  {
    hide ReadLoop, LoopBytes, Low, High, Word;
    var screen := ScreenBytes(width, height);
    var bytes := HeadBytes(width, height, loops) + rest;
    assert bytes == screen + (LoopBytes(loops) + rest);
    assert bytes[..6] == SIGNATURE;
    assert bytes[10] == 0xf0 && Pow2(1) == 2;
    assert bytes[19..] == LoopBytes(loops) + rest;
    WordOf(width);
    WordOf(height);
    ReadWrittenLoop(width, height, loops, rest);
  }

  // ---------------------------------------------------------------- the program

  method WriteScreen(f: GifFile, width: nat, height: nat)
    modifies f
    ensures f.bytes == old(f.bytes) + ScreenBytes(width, height)
  {
    hide Low, High;
    f.Write(SIGNATURE);
    f.Put(Low(width));
    f.Put(High(width));
    f.Put(Low(height));
    f.Put(High(height));
    f.Put(0xf0);   // there is a global colour table of two entries
    f.Put(0);
    f.Put(0);
    f.Write([0, 0, 0]);
    f.Write([0, 0, 0]);
    assert f.bytes == old(f.bytes) + ScreenBytes(width, height);
  }

  method WriteHead(f: GifFile, width: nat, height: nat, delay: nat)
    modifies f
    ensures f.bytes == old(f.bytes) + HeadBytes(width, height, delay != 0)
  {
    hide ScreenBytes;
    WriteScreen(f, width, height);
    if delay != 0 {
      f.Put(0x21);
      f.Put(0xff);
      f.Put(11);
      f.Write(NETSCAPE);
      f.Put(3);
      f.Put(1);
      f.Put(0);
      f.Put(0);
      f.Put(0);
    }
    assert f.bytes == old(f.bytes) + HeadBytes(width, height, delay != 0);
  }
}
