/** The occupancy bitmap of a cluster: 32-bit words, one bit per slot. */
module Bitmap {

  const CLUSTER_SIZE := 4096
  const UNIT := 32
  const BITMAP_SIZE := CLUSTER_SIZE / UNIT
  const ONES: bv32 := 0xFFFFFFFF

  /** The xor, shift and population count expression of the allocator. */
  function LowestZero(word: bv32): bv32
  {
    var v0 := (word ^ (word + 1)) >> 1;
    var v1 := v0 - ((v0 >> 1) & (ONES / 3));
    var v2 := (v1 & (ONES / 15 * 3)) + ((v1 >> 2) & (ONES / 15 * 3));
    var v3 := (v2 + (v2 >> 4)) & (ONES / 255 * 15);
    (v3 * (ONES / 255)) >> 24
  }

  predicate BitSet(word: bv32, j: bv32)
    requires j < 32
  {
    (word >> j) & 1 == 1
  }

  /** It yields the index of the lowest zero bit of every word that has one. */
  lemma LowestZeroIs(word: bv32)
    requires word != ONES
    ensures LowestZero(word) < 32 && !BitSet(word, LowestZero(word))
    ensures forall k: bv32 :: k < LowestZero(word) ==> k < 32 && BitSet(word, k)
  {
    var j := LowestZero(word);
    forall k: bv32 | k < j
      ensures k < 32 && BitSet(word, k)
    {
      LowerBits(word, k);
    }
  }

  lemma LowerBits(word: bv32, k: bv32)
    requires word != ONES && k < LowestZero(word)
    ensures k < 32 && BitSet(word, k)
  {
  }

  function Set(word: bv32, j: bv32): bv32
    requires j < 32
  {
    word | (1 << j)
  }

  function Clear(word: bv32, j: bv32): bv32
    requires j < 32
  {
    word & !(1 << j)
  }

  lemma SetOne(word: bv32, j: bv32, k: bv32)
    requires j < 32 && k < 32
    ensures BitSet(word | (1 << j), k) <==> BitSet(word, k) || k == j
  {
  }

  lemma ClearOne(word: bv32, j: bv32, k: bv32)
    requires j < 32 && k < 32
    ensures BitSet(word & !(1 << j), k) <==> BitSet(word, k) && k != j
  {
  }

  lemma SetAndClear(word: bv32, j: bv32, k: bv32)
    requires j < 32 && k < 32
    ensures BitSet(Set(word, j), k) <==> BitSet(word, k) || k == j
    ensures BitSet(Clear(word, j), k) <==> BitSet(word, k) && k != j
  {
    hide BitSet;
    SetOne(word, j, k);
    ClearOne(word, j, k);
  }

  lemma OnesAndZero(word: bv32, k: bv32)
    requires k < 32
    ensures word == ONES ==> BitSet(word, k)
    ensures word == 0 ==> !BitSet(word, k)
    ensures word != 0 ==> exists i: bv32 :: i < 32 && BitSet(word, i)
  {
    if word != 0 {
      var low := LowestZero(!word);
      LowestZeroIs(!word);
      Complement(word, low);
    }
  }

  lemma Complement(word: bv32, j: bv32)
    requires j < 32
    ensures BitSet(!word, j) <==> !BitSet(word, j)
  {
  }

  // ---------------------------------------------------------------- slots

  /** The same number as a word, for shifting. */
  function Shift(k: nat): (j: bv32)
    requires k < UNIT
    ensures j < 32 && j as int == k
  {
    if k == 0 then 0 else Shift(k - 1) + 1
  }

  predicate Used(bitmap: seq<bv32>, slot: nat)
    requires |bitmap| == BITMAP_SIZE && slot < CLUSTER_SIZE
  {
    BitSet(bitmap[slot / UNIT], Shift(slot % UNIT))
  }

  function Take(bitmap: seq<bv32>, i: nat, j: bv32): (r: seq<bv32>)
    requires |bitmap| == BITMAP_SIZE && i < BITMAP_SIZE && j < 32
    ensures |r| == BITMAP_SIZE
  {
    bitmap[i := Set(bitmap[i], j)]
  }

  function Release(bitmap: seq<bv32>, i: nat, j: bv32): (r: seq<bv32>)
    requires |bitmap| == BITMAP_SIZE && i < BITMAP_SIZE && j < 32
    ensures |r| == BITMAP_SIZE
  {
    bitmap[i := Clear(bitmap[i], j)]
  }

  lemma SameShift(k: nat, j: bv32)
    requires k < UNIT && j < 32
    ensures 0 <= j as int < UNIT
    ensures Shift(k) == j <==> k == j as int
  {
    ShiftOrder(Shift(k), j);
  }

  lemma ShiftOrder(k: bv32, j: bv32)
    requires k < 32 && j < 32
    ensures 0 <= k as int < 32 && 0 <= j as int < 32
    ensures k < j <==> k as int < j as int
    ensures k == j <==> k as int == j as int
  {
  }

  lemma SplitSlot(slot: nat, i: nat, n: nat)
    requires n < UNIT
    ensures slot == i * UNIT + n <==> slot / UNIT == i && slot % UNIT == n
  {
  }

  lemma TakeBit(bitmap: seq<bv32>, i: nat, j: bv32, w: nat, k: bv32)
    requires |bitmap| == BITMAP_SIZE && i < BITMAP_SIZE && w < BITMAP_SIZE && j < 32 && k < 32
    ensures BitSet(Take(bitmap, i, j)[w], k) <==> BitSet(bitmap[w], k) || (w == i && k == j)
    ensures BitSet(Release(bitmap, i, j)[w], k) <==> BitSet(bitmap[w], k) && !(w == i && k == j)
  {
    hide BitSet, Set, Clear;
    SetAndClear(bitmap[w], j, k);
  }

  /** Setting or clearing a bit changes the occupancy of one slot. */
  lemma TakeSlot(bitmap: seq<bv32>, i: nat, j: bv32, slot: nat)
    requires |bitmap| == BITMAP_SIZE && i < BITMAP_SIZE && j < 32 && slot < CLUSTER_SIZE
    ensures 0 <= j as int < UNIT
    ensures Used(Take(bitmap, i, j), slot) <==> Used(bitmap, slot) || slot == i * UNIT + j as int
    ensures Used(Release(bitmap, i, j), slot) <==> Used(bitmap, slot) && slot != i * UNIT + j as int
  {
    hide BitSet, Shift, Take, Release;
    SameShift(slot % UNIT, j);
    SplitSlot(slot, i, j as int);
    TakeBit(bitmap, i, j, slot / UNIT, Shift(slot % UNIT));
  }

  predicate Full(bitmap: seq<bv32>)
  {
    forall i :: 0 <= i < |bitmap| ==> bitmap[i] == ONES
  }

  predicate Empty(bitmap: seq<bv32>)
  {
    forall i :: 0 <= i < |bitmap| ==> bitmap[i] == 0
  }

  lemma FullMeansUsed(bitmap: seq<bv32>, slot: nat)
    requires |bitmap| == BITMAP_SIZE && slot < CLUSTER_SIZE && bitmap[slot / UNIT] == ONES
    ensures Used(bitmap, slot)
  {
    OnesAndZero(bitmap[slot / UNIT], Shift(slot % UNIT));
  }

  /** The words are all zero exactly when no slot is used. */
  lemma EmptyMeansUnused(bitmap: seq<bv32>)
    requires |bitmap| == BITMAP_SIZE
    ensures Empty(bitmap) <==> forall slot :: 0 <= slot < CLUSTER_SIZE ==> !Used(bitmap, slot)
  {
    hide BitSet;
    forall slot | 0 <= slot < CLUSTER_SIZE && Empty(bitmap)
      ensures !Used(bitmap, slot)
    {
      OnesAndZero(bitmap[slot / UNIT], Shift(slot % UNIT));
    }
    if !Empty(bitmap) {
      var i :| 0 <= i < |bitmap| && bitmap[i] != 0;
      OnesAndZero(bitmap[i], 0);
      var j: bv32 :| j < 32 && BitSet(bitmap[i], j);
      SlotOf(bitmap, i, j);
    }
  }

  lemma SlotOf(bitmap: seq<bv32>, i: nat, j: bv32)
    requires |bitmap| == BITMAP_SIZE && i < BITMAP_SIZE && j < 32
    ensures 0 <= j as int < UNIT && i * UNIT + j as int < CLUSTER_SIZE
    ensures Used(bitmap, i * UNIT + j as int) <==> BitSet(bitmap[i], j)
  {
    hide BitSet;
    SameShift(j as int, j);
    assert (i * UNIT + j as int) / UNIT == i && (i * UNIT + j as int) % UNIT == j as int;
  }

  /** The first free slot of a bitmap that is not full. */
  lemma FirstFree(bitmap: seq<bv32>, i: nat)
    requires |bitmap| == BITMAP_SIZE && i < BITMAP_SIZE && bitmap[i] != ONES
    requires forall w :: 0 <= w < i ==> bitmap[w] == ONES
    ensures LowestZero(bitmap[i]) < 32
    ensures var slot := i * UNIT + LowestZero(bitmap[i]) as int;
            && 0 <= slot < CLUSTER_SIZE && !Used(bitmap, slot)
            && forall s :: 0 <= s < slot ==> Used(bitmap, s)
  {
    hide BitSet, LowestZero;
    LowestZeroIs(bitmap[i]);
    var j := LowestZero(bitmap[i]);
    SlotOf(bitmap, i, j);
    var slot := i * UNIT + j as int;
    forall s | 0 <= s < slot
      ensures Used(bitmap, s)
    {
      if s / UNIT < i {
        FullMeansUsed(bitmap, s);
      } else {
        var k := Shift(s % UNIT);
        ShiftOrder(k, j);
        assert BitSet(bitmap[i], k);
      }
    }
  }
}
