/** One word of the bitmap where an unsigned long has 64 bits. The program shifts an int, so that
    setting bit 31 sets all bits above it too: the word then serves 32 slots out of its 64,
    exactly as a 32-bit word does. */
module WideBitmap {
  const WIDE_ONES: bv64 := 0xFFFF_FFFF_FFFF_FFFF

  /** The allocator's population count. */
  function Count(v: bv64): bv64
  {
    var v1 := v - ((v >> 1) & (WIDE_ONES / 3));
    var v2 := (v1 & (WIDE_ONES / 15 * 3)) + ((v1 >> 2) & (WIDE_ONES / 15 * 3));
    var v3 := (v2 + (v2 >> 4)) & (WIDE_ONES / 255 * 15);
    (v3 * (WIDE_ONES / 255)) >> 56
  }

  function WideLowestZero(word: bv64): bv64
  {
    Count((word ^ (word + 1)) >> 1)
  }

  predicate WideBit(word: bv64, j: bv64)
    requires j < 64
  {
    (word >> j) & 1 == 1
  }

  /** The int `1 << j` as an unsigned long: for 31 it is negative, and its sign extends. */
  function IntBit(j: bv64): bv64
    requires j < 32
  {
    if j == 31 then 0xFFFF_FFFF_8000_0000 else 1 << j
  }

  function WithBit(word: bv64, j: bv64): bv64
    requires j < 32
  {
    word | IntBit(j)
  }

  function WithoutBit(word: bv64, j: bv64): bv64
    requires j < 32
  {
    word & !IntBit(j)
  }

  /** The upper half repeats bit 31. */
  predicate Narrow(word: bv64)
  {
    word >> 31 == 0 || word >> 31 == 0x1_FFFF_FFFF
  }

  // ---------------------------------------------------------------- single words

  lemma LowestInRange(word: bv64)
    requires Narrow(word) && word != WIDE_ONES
    ensures WideLowestZero(word) < 32
  {
  }

  lemma LowestIsZero(word: bv64)
    requires word != WIDE_ONES && WideLowestZero(word) < 32
    ensures !WideBit(word, WideLowestZero(word))
  {
  }

  lemma BelowIsOne(word: bv64, k: bv64)
    requires k < WideLowestZero(word) < 32
    ensures WideBit(word, k)
  {
  }

  lemma StaysNarrow(word: bv64, j: bv64)
    requires j < 32 && Narrow(word)
    ensures Narrow(WithBit(word, j)) && Narrow(WithoutBit(word, j))
  {
  }

  lemma WideSet(word: bv64, j: bv64, k: bv64)
    requires j < 32 && k < 32
    ensures WideBit(WithBit(word, j), k) <==> WideBit(word, k) || k == j
  {
  }

  lemma WideClear(word: bv64, j: bv64, k: bv64)
    requires j < 32 && k < 32
    ensures WideBit(WithoutBit(word, j), k) <==> WideBit(word, k) && k != j
  {
  }

  lemma FullWord(word: bv64, k: bv64)
    requires word == WIDE_ONES && k < 32
    ensures WideBit(word, k)
  {
  }

  lemma EmptyWord(word: bv64, k: bv64)
    requires word == 0 && k < 32
    ensures !WideBit(word, k)
  {
  }

  // ---------------------------------------------------------------- runs

  /** A word and the slots that were handed out of it and not given back. */
  datatype Word = Word(bits: bv64, live: set<bv64>)

  /** Exactly the live slots, all among the first 32, have their bit set. */
  ghost predicate Inv(s: Word)
  {
    Narrow(s.bits) && forall k: bv64 :: k in s.live <==> k < 32 && WideBit(s.bits, k)
  }

  /** `alloc` on a word with room, or `free` of a slot that was handed out. */
  datatype Op = Claim | Drop(slot: bv64)

  ghost predicate Applies(s: Word, op: Op)
  {
    if op.Claim? then s.bits != WIDE_ONES else op.slot in s.live
  }

  ghost function Step(s: Word, op: Op): (t: Word)
    requires Inv(s) && Applies(s, op)
  {
    match op
    case Claim => LowestInRange(s.bits); var j := WideLowestZero(s.bits); Word(WithBit(s.bits, j), s.live + {j})
    case Drop(j) => Word(WithoutBit(s.bits, j), s.live - {j})
  }

  lemma ClaimInv(s: Word, j: bv64)
    requires Inv(s) && j < 32 && j !in s.live
    ensures Inv(Word(WithBit(s.bits, j), s.live + {j}))
  {
    hide Narrow, WithBit, WideBit, WideLowestZero;
    StaysNarrow(s.bits, j);
    var bits, live := WithBit(s.bits, j), s.live + {j};
    forall k: bv64
      ensures k in live <==> k < 32 && WideBit(bits, k)
    {
      if k < 32 {
        WideSet(s.bits, j, k);
      }
    }
  }

  lemma DropInv(s: Word, j: bv64)
    requires Inv(s) && j in s.live
    ensures Inv(Word(WithoutBit(s.bits, j), s.live - {j}))
  {
    hide Narrow, WithoutBit, WideBit, WideLowestZero;
    StaysNarrow(s.bits, j);
    var bits, live := WithoutBit(s.bits, j), s.live - {j};
    forall k: bv64
      ensures k in live <==> k < 32 && WideBit(bits, k)
    {
      if k < 32 {
        WideClear(s.bits, j, k);
      }
    }
  }

  /** A claim hands out the first of the 32 slots that is not live; no shift reaches 32. */
  lemma FirstSlot(s: Word)
    requires Inv(s) && s.bits != WIDE_ONES
    ensures var j := WideLowestZero(s.bits); j < 32 && j !in s.live && forall k: bv64 :: k < j ==> k in s.live
  {
    hide Narrow, WideBit, WideLowestZero;
    LowestInRange(s.bits);
    LowestIsZero(s.bits);
    forall k: bv64 | k < WideLowestZero(s.bits)
      ensures k in s.live
    {
      BelowIsOne(s.bits, k);
    }
  }

  lemma StepInv(s: Word, op: Op)
    requires Inv(s) && Applies(s, op)
    ensures Inv(Step(s, op))
  {
    hide Inv, WithBit, WithoutBit, WideLowestZero;
    match op
    case Claim =>
      FirstSlot(s);
      ClaimInv(s, WideLowestZero(s.bits));
    case Drop(j) =>
      DropInv(s, j);
  }

  /** The word has no room exactly when all 32 slots are live, and is zero exactly when none is. */
  lemma RoomIff(s: Word)
    requires Inv(s)
    ensures s.bits == WIDE_ONES <==> forall k: bv64 :: k < 32 ==> k in s.live
    ensures s.bits == 0 <==> s.live == {}
  {
    hide Narrow, WideBit, WideLowestZero;
    forall k: bv64 | k < 32
      ensures s.bits == WIDE_ONES ==> k in s.live
      ensures s.bits == 0 ==> k !in s.live
    {
      if s.bits == WIDE_ONES {
        FullWord(s.bits, k);
      } else if s.bits == 0 {
        EmptyWord(s.bits, k);
      }
    }
    if s.bits != WIDE_ONES {
      LowestInRange(s.bits);
      LowestIsZero(s.bits);
    }
    if s.bits != 0 {
      SomeBit(s.bits);
      var k: bv64 :| k < 32 && WideBit(s.bits, k);
      assert k in s.live;
    }
  }

  lemma SomeBit(word: bv64)
    requires Narrow(word) && word != 0
    ensures exists k: bv64 :: k < 32 && WideBit(word, k)
  {
    hide WideBit, WideLowestZero;
    ComplementNarrow(word);
    LowestInRange(!word);
    LowestIsZero(!word);
    var j := WideLowestZero(!word);
    ComplementBit(word, j);
    assert WideBit(word, j);
  }

  lemma ComplementNarrow(word: bv64)
    requires Narrow(word)
    ensures Narrow(!word) && (word != 0 <==> !word != WIDE_ONES)
  {
  }

  lemma ComplementBit(word: bv64, j: bv64)
    requires j < 32
    ensures WideBit(!word, j) <==> !WideBit(word, j)
  {
  }

  /** Every run from an empty word, as far as its steps apply. */
  ghost function Run(ops: seq<Op>): (s: Word)
    ensures Inv(s)
  {
    if ops == [] then
      EmptyInv();
      Word(0, {})
    else
      var before := Run(ops[..|ops| - 1]);
      if Applies(before, ops[|ops| - 1]) then
        StepInv(before, ops[|ops| - 1]);
        Step(before, ops[|ops| - 1])
      else before
  }

  lemma EmptyInv()
    ensures Inv(Word(0, {}))
  {
    hide WideBit;
    forall k: bv64 | k < 32
      ensures !WideBit(0, k)
    {
      EmptyWord(0, k);
    }
  }
}
