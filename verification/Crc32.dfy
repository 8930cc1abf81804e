/** The checksum of a raw frame: table-driven CRC-32 against division bit by bit
    (section 8 of RFC 1952). */
module Crc32 {

  /** Kept apart so that the division is not taken bit by bit. */
  function Xor(x: bv32, y: bv32): bv32
  {
    x ^ y
  }

  function Flip(x: bv32): bv32
  {
    !x
  }

  /** One bit of the reflected division by the polynomial: the bit enters at the low end. */
  function DivideBit(r: bv32, bit: bv32): bv32
  {
    if Xor(r, bit) & 1 == 1 then Xor(r >> 1, 0xedb88320) else r >> 1
  }

  /** The lowest `n` bits of a word, lowest first. */
  function DivideBits(r: bv32, bits: bv32, n: nat): bv32
    decreases n
  {
    if n == 0 then r else DivideBits(DivideBit(r, bits), bits >> 1, n - 1)
  }

  function DivideOctet(r: bv32, octet: bv8): bv32
  {
    DivideBits(r, octet as bv32, 8)
  }

  /** The register after all octets. */
  function Divide(r: bv32, octets: seq<bv8>): bv32
    decreases |octets|
  {
    if octets == [] then r else Divide(DivideOctet(r, octets[0]), octets[1..])
  }

  /** The checksum, continuing from the checksum of what came before. */
  function Checksum(crc: bv32, octets: seq<bv8>): bv32
  {
    Flip(Divide(Flip(crc), octets))
  }

  // ---------------------------------------------------------------- the table

  /** One round of filling in a table entry. */
  function Round(rem: bv32): bv32
  {
    if rem & 1 == 1 then Xor(rem >> 1, 0xedb88320) else rem >> 1
  }

  function Rounds(rem: bv32, n: nat): bv32
    decreases n
  {
    if n == 0 then rem else Rounds(Round(rem), n - 1)
  }

  function Shifts(x: bv32, n: nat): bv32
    decreases n
  {
    if n == 0 then x else Shifts(x >> 1, n - 1)
  }

  lemma ShiftSplits(x: bv32, y: bv32, u: bv32, w: bv32)
    requires u == x ^ y && w == (x >> 1) ^ (y >> 1)
    ensures u >> 1 == w
  {
  }

  lemma XorShift(x: bv32, y: bv32)
    ensures Xor(x, y) >> 1 == Xor(x >> 1, y >> 1)
  {
    ShiftSplits(x, y, x ^ y, (x >> 1) ^ (y >> 1));
  }

  lemma XorLow(x: bv32, y: bv32)
    ensures Xor(x, y) & 1 == 1 <==> (x & 1 == 1) != (y & 1 == 1)
  {
  }

  lemma XorMoves(a: bv32, b: bv32, p: bv32)
    ensures Xor(Xor(a, b), p) == Xor(Xor(a, p), b) == Xor(a, Xor(b, p))
  {
  }

  lemma XorSelf(p: bv32)
    ensures Xor(p, p) == 0 && Xor(p, 0) == p
  {
  }

  lemma XorCancels(a: bv32, b: bv32, p: bv32)
    ensures Xor(Xor(a, p), Xor(b, p)) == Xor(a, b)
  {
    hide Xor;
    XorMoves(a, p, Xor(b, p));
    XorMoves(b, p, p);
    XorSelf(p);
    XorMoves(a, Xor(b, p), p);
    XorSelf(b);
  }

  lemma RoundIsLinear(x: bv32, y: bv32)
    ensures Round(Xor(x, y)) == Xor(Round(x), Round(y))
  {
    hide Xor;
    XorShift(x, y);
    XorLow(x, y);
    XorMoves(x >> 1, y >> 1, 0xedb88320);
    XorCancels(x >> 1, y >> 1, 0xedb88320);
  }

  lemma {:induction false} RoundsAreLinear(x: bv32, y: bv32, n: nat)
    ensures Rounds(Xor(x, y), n) == Xor(Rounds(x, n), Rounds(y, n))
    decreases n
  {
    hide Round, Xor;
    if n > 0 {
      RoundIsLinear(x, y);
      RoundsAreLinear(Round(x), Round(y), n - 1);
    }
  }

  lemma BitIsRound(r: bv32, bits: bv32)
    ensures Round(Xor(r, bits)) == Xor(DivideBit(r, bits), bits >> 1)
  {
    hide Xor;
    XorShift(r, bits);
    XorMoves(r >> 1, bits >> 1, 0xedb88320);
  }

  /** The bits may enter all at once. */
  lemma {:induction false} BitsAreRounds(r: bv32, bits: bv32, n: nat)
    ensures Rounds(Xor(r, bits), n) == Xor(DivideBits(r, bits, n), Shifts(bits, n))
    decreases n
  {
    hide Round, Xor, DivideBit;
    if n > 0 {
      BitIsRound(r, bits);
      BitsAreRounds(DivideBit(r, bits), bits >> 1, n - 1);
    }
  }

  lemma EightShifts(x: bv32)
    ensures Shifts(x, 8) == x >> 8
  {
  }

  lemma HighRounds(x: bv32)
    requires x & 0xff == 0
    ensures Rounds(x, 8) == x >> 8
  {
  }

  lemma OctetIsLow(octet: bv8)
    ensures (octet as bv32) & 0xffffff00 == 0 && (octet as bv32) >> 8 == 0
  {
  }

  lemma LowIsSmall(x: bv32)
    requires x & 0xffffff00 == 0
    ensures x <= 0xff
  {
  }

  lemma LowXor(crc: bv32, octet: bv32)
    requires octet & 0xffffff00 == 0
    ensures ((crc & 0xff) ^ octet) & 0xffffff00 == 0
  {
  }

  lemma HighAndLow(crc: bv32)
    ensures Xor(crc & 0xffffff00, crc & 0xff) == crc
  {
  }

  lemma HighPart(crc: bv32)
    ensures (crc & 0xffffff00) & 0xff == 0 && (crc & 0xffffff00) >> 8 == crc >> 8
  {
  }

  /** One step by table is one octet of the division. */
  lemma TableStep(crc: bv32, octet: bv8)
    ensures ((crc & 0xff) ^ (octet as bv32)) <= 0xff
    ensures DivideOctet(crc, octet) == Xor(crc >> 8, Rounds((crc & 0xff) ^ (octet as bv32), 8))
  {
    hide Xor, Rounds, DivideBits, Shifts;
    var b := octet as bv32;
    OctetIsLow(octet);
    LowXor(crc, b);
    LowIsSmall((crc & 0xff) ^ b);
    HighAndLow(crc);
    HighPart(crc);
    XorIs(crc & 0xff, b);
    XorMoves(crc & 0xffffff00, crc & 0xff, b);
    BitsAreRounds(crc, b, 8);
    EightShifts(b);
    XorZero(DivideBits(crc, b, 8));
    RoundsAreLinear(crc & 0xffffff00, (crc & 0xff) ^ b, 8);
    HighRounds(crc & 0xffffff00);
  }

  function TableIndex(crc: bv32, octet: bv8): bv32
  {
    (crc & 0xff) ^ (octet as bv32)
  }

  lemma IndexInRange(x: bv32)
    requires x <= 0xff
    ensures 0 <= x as int < 256 && (x as int) as bv32 == x
  {
  }

  lemma TableStepAt(crc: bv32, octet: bv8)
    ensures TableIndex(crc, octet) <= 0xff
    ensures DivideOctet(crc, octet) == Xor(crc >> 8, Rounds(TableIndex(crc, octet), 8))
  {
    hide Xor, Rounds, DivideOctet;
    TableStep(crc, octet);
  }

  lemma XorIs(x: bv32, y: bv32)
    ensures Xor(x, y) == x ^ y
  {
  }

  lemma XorZero(x: bv32)
    ensures Xor(x, 0) == x
  {
  }

  lemma {:induction false} DivideAppend(r: bv32, a: seq<bv8>, b: seq<bv8>)
    ensures Divide(r, a + b) == Divide(Divide(r, a), b)
    decreases |a|
  {
    hide DivideOctet;
    if a == [] {
      assert a + b == b;
    } else {
      assert (a + b)[0] == a[0] && (a + b)[1..] == a[1..] + b;
      DivideAppend(DivideOctet(r, a[0]), a[1..], b);
    }
  }

  lemma FlipTwice(x: bv32)
    ensures Flip(Flip(x)) == x
  {
  }

  /** Two chunks in turn are their concatenation. */
  lemma ChunksCompose(crc: bv32, a: seq<bv8>, b: seq<bv8>)
    ensures Checksum(Checksum(crc, a), b) == Checksum(crc, a + b)
  {
    hide Divide, Flip;
    DivideAppend(Flip(crc), a, b);
    FlipTwice(Divide(Flip(crc), a));
  }

  // ---------------------------------------------------------------- the check value

  /** The checksum of "123456789" is the check value of this CRC. */
  lemma CheckValue()
    ensures Checksum(0, [0x31, 0x32, 0x33, 0x34, 0x35, 0x36, 0x37, 0x38, 0x39]) == 0xcbf43926
  {
    assert DivideOctet(0xffffffff, 0x31) == 0x7c231048;
    assert DivideOctet(0x7c231048, 0x32) == 0xb0acbb32;
    assert DivideOctet(0xb0acbb32, 0x33) == 0x77b79c2d;
    assert DivideOctet(0x77b79c2d, 0x34) == 0x641c1f5c;
    assert DivideOctet(0x641c1f5c, 0x35) == 0x340ac5e3;
    assert DivideOctet(0x340ac5e3, 0x36) == 0xf68d2c9e;
    assert DivideOctet(0xf68d2c9e, 0x37) == 0xaffc9660;
    assert DivideOctet(0xaffc9660, 0x38) == 0x651f2550;
    assert DivideOctet(0x651f2550, 0x39) == 0x340bc6d9;
  }

  // ---------------------------------------------------------------- the function

  class Crc {
    const table: array<bv32>
    var haveTable: bool

    constructor ()
      ensures Valid() && !haveTable && fresh(table)
    {
      table := new bv32[256](_ => 0);
      haveTable := false;
    }

    ghost predicate Valid()
      reads this, table
    {
      table.Length == 256 && (haveTable ==> Filled(table[..]))
    }

    /** The table is filled by the first call. */
    method FillTable()
      requires Valid() && !haveTable
      modifies this, table
      ensures Valid() && haveTable
    {
      hide Round;
      for i := 0 to 256
        invariant forall k :: 0 <= k < i ==> table[k] == Rounds(k as bv32, 8)
      {
        var rem := i as bv32;
        for j := 0 to 8
          invariant Rounds(rem, 8 - j) == Rounds(i as bv32, 8)
          invariant forall k :: 0 <= k < i ==> table[k] == Rounds(k as bv32, 8)
        {
          rem := Round(rem);
        }
        table[i] := rem;
      }
      haveTable := true;
    }

    /** One octet by the table. */
    method Step(c: bv32, octet: bv8) returns (r: bv32)
      requires Valid() && haveTable
      ensures r == DivideOctet(c, octet)
    {
      hide DivideOctet, Rounds, TableIndex, Xor;
      var index := TableIndex(c, octet);
      TableStepAt(c, octet);
      IndexInRange(index);
      r := Xor(c >> 8, table[index as int]);
    }

    method Update(crc: bv32, buf: seq<bv8>) returns (r: bv32)
      requires Valid()
      modifies this, table
      ensures Valid() && r == Checksum(crc, buf)
    {
      hide DivideOctet, Rounds, Flip, Filled;
      if !haveTable {
        FillTable();
      }
      var c := Flip(crc);
      for i := 0 to |buf|
        invariant Valid() && haveTable
        invariant Divide(c, buf[i..]) == Divide(Flip(crc), buf)
      {
        c := Step(c, buf[i]);
      }
      r := Flip(c);
    }
  }

  ghost predicate Filled(table: seq<bv32>)
    requires |table| == 256
  {
    forall k :: 0 <= k < 256 ==> table[k] == Rounds(k as bv32, 8)
  }
}
