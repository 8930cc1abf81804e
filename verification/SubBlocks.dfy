/** Data sub-blocks (GIF89a section 15): a length byte followed by that many data bytes,
    the series ending with a zero length byte. */
module SubBlocks {
  import opened Bits

  /** The framing the writer produces: blocks of 255 bytes, then one shorter block. */
  function Blocks(data: seq<Byte>): seq<Byte>
  {
    if data == [] then []
    else if |data| <= 255 then [|data|] + data
    else [255] + data[..255] + Blocks(data[255..])
  }

  datatype Unframed = Unframed(data: seq<Byte>, rest: seq<Byte>) | Truncated

  /** What a reader does: follow the length bytes until it meets a zero. */
  function Unblock(bytes: seq<Byte>): Unframed
    decreases |bytes|
  {
    if bytes == [] then Truncated
    else if bytes[0] == 0 then Unframed([], bytes[1..])
    else if |bytes| <= bytes[0] then Truncated
    else
      match Unblock(bytes[1 + bytes[0]..])
      case Truncated => Truncated
      case Unframed(data, rest) => Unframed(bytes[1..1 + bytes[0]] + data, rest)
  }

  /** A reader takes off one block at a time. */
  lemma UnblockOne(block: seq<Byte>, bytes: seq<Byte>)
    requires 0 < |block| <= 255
    ensures Unblock([|block|] + block + bytes) ==
            match Unblock(bytes)
            case Truncated => Truncated
            case Unframed(data, rest) => Unframed(block + data, rest)
  {
    var all := [|block|] + block + bytes;
    assert all[1..1 + all[0]] == block && all[1 + all[0]..] == bytes;
  }

  lemma BlocksLong(front: seq<Byte>, tail: seq<Byte>)
    requires |front| == 255 && tail != []
    ensures Blocks(front + tail) == [255] + front + Blocks(tail)
  {
    assert (front + tail)[..255] == front && (front + tail)[255..] == tail;
  }

  lemma Regroup(a: seq<Byte>, b: seq<Byte>, c: seq<Byte>)
    ensures (a + b) + c == a + (b + c)
  {
  }

  /** Reading the framed form gives back exactly the data and stops right behind it. */
  lemma {:induction false} UnblockBlocks(data: seq<Byte>, rest: seq<Byte>)
    ensures Unblock(Blocks(data) + ([0] + rest)) == Unframed(data, rest)
    decreases |data|
  {
    if data == [] {
      NoBlocks(rest);
    } else if |data| <= 255 {
      NoBlocks(rest);
      hide Unblock;
      UnblockOne(data, [0] + rest);
      assert data + [] == data;
    } else {
      var front, tail := data[..255], data[255..];
      assert front + tail == data;
      hide Unblock, Blocks;
      UnblockBlocks(tail, rest);
      BlocksLong(front, tail);
      UnblockOne(front, Blocks(tail) + ([0] + rest));
      Regroup([255] + front, Blocks(tail), [0] + rest);
    }
  }

  lemma NoBlocks(rest: seq<Byte>)
    ensures Blocks([]) + ([0] + rest) == [0] + rest && Unblock([0] + rest) == Unframed([], rest)
  {
    assert ([0] + rest)[1..] == rest;
  }

  lemma BlocksShort(data: seq<Byte>)
    requires 0 < |data| <= 255
    ensures Blocks(data) == [|data|] + data
  {
  }

  /** After whole blocks of 255 bytes, one more block extends the framing on the right. */
  lemma {:induction false} BlocksAppend(data: seq<Byte>, chunk: seq<Byte>)
    requires |data| % 255 == 0
    requires 0 < |chunk| <= 255
    ensures Blocks(data + chunk) == Blocks(data) + ([|chunk|] + chunk)
    decreases |data|
  {
    BlocksShort(chunk);
    if data == [] {
      assert data + chunk == chunk;
      assert Blocks(data) == [];
    } else {
      hide Blocks;
      var front, tail := data[..255], data[255..];
      Regroup(front, tail, chunk);
      assert front + tail == data;
      BlocksLong(front, tail + chunk);
      if tail == [] {
        assert tail + chunk == chunk && front == data;
        BlocksShort(data);
      } else {
        BlocksAppend(tail, chunk);
        BlocksLong(front, tail);
        Regroup([255] + front, Blocks(tail), [|chunk|] + chunk);
      }
    }
  }
}
