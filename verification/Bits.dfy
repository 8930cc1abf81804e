/** Bytes, bits and powers of two. Bits are listed least significant first,
    the order in which section "Appendix F" of GIF89a packs codes into bytes. */
module Bits {

  type Byte = x: int | 0 <= x < 256

  type Bit = x: int | 0 <= x < 2

  function Pow2(n: nat): (p: nat)
    ensures p >= 1
  {
    if n == 0 then 1 else 2 * Pow2(n - 1)
  }

  lemma {:induction false} Pow2Monotonic(m: nat, n: nat)
    requires m <= n
    ensures Pow2(m) <= Pow2(n)
    ensures m < n ==> 2 * Pow2(m) <= Pow2(n)
  {
    if m < n {
      Pow2Monotonic(m, n - 1);
    }
  }

  lemma Pow2Eight()
    ensures Pow2(2) == 4 && Pow2(3) == 8 && Pow2(4) == 16 && Pow2(5) == 32 && Pow2(6) == 64
    ensures Pow2(7) == 128 && Pow2(8) == 256
  {
    assert Pow2(3) == 8;
    assert Pow2(5) == 32;
    assert Pow2(7) == 128;
  }

  /** The low `width` bits of `value`. */
  function ToBits(value: nat, width: nat): (s: seq<Bit>)
    ensures |s| == width
  {
    if width == 0 then [] else [value % 2] + ToBits(value / 2, width - 1)
  }

  /** The number whose binary digits are `s`. */
  function FromBits(s: seq<Bit>): nat
  {
    if s == [] then 0 else s[0] + 2 * FromBits(s[1..])
  }

  lemma {:induction false} FromToBits(value: nat, width: nat)
    requires value < Pow2(width)
    ensures FromBits(ToBits(value, width)) == value
  {
    if width > 0 {
      FromToBits(value / 2, width - 1);
      assert ToBits(value, width)[1..] == ToBits(value / 2, width - 1);
    }
  }

  lemma {:induction false} ToFromBits(s: seq<Bit>)
    ensures FromBits(s) < Pow2(|s|)
    ensures ToBits(FromBits(s), |s|) == s
  {
    if s != [] {
      ToFromBits(s[1..]);
      assert FromBits(s) % 2 == s[0] && FromBits(s) / 2 == FromBits(s[1..]);
      assert s == [s[0]] + s[1..];
    }
  }

  lemma Halved(value: nat, width: nat, bit: Bit)
    requires width > 0
    ensures var whole := value + bit * Pow2(width);
            whole % 2 == value % 2 && whole / 2 == value / 2 + bit * Pow2(width - 1)
    ensures value < Pow2(width) ==> value / 2 < Pow2(width - 1)
    ensures value / 2 + bit * Pow2(width - 1) < Pow2(width) ==> value + bit * Pow2(width) < Pow2(width + 1)
  {
    assert bit == 0 || bit == 1;
    assert Pow2(width) == 2 * Pow2(width - 1) && Pow2(width + 1) == 2 * Pow2(width);
  }

  /** Appending one bit on the high side of a partial number. */
  lemma {:induction false} ToBitsAppend(value: nat, width: nat, bit: Bit)
    requires value < Pow2(width)
    ensures value + bit * Pow2(width) < Pow2(width + 1)
    ensures ToBits(value + bit * Pow2(width), width + 1) == ToBits(value, width) + [bit]
  {
    if width == 0 {
      assert ToBits(bit, 1) == [bit] + ToBits(bit / 2, 0);
    } else {
      Halved(value, width, bit);
      ToBitsAppend(value / 2, width - 1, bit);
      assert ToBits(value, width) + [bit] == [value % 2] + (ToBits(value / 2, width - 1) + [bit]);
    }
  }

  /** The bits of a byte string, each byte contributing its eight bits. */
  function BytesToBits(bytes: seq<Byte>): (s: seq<Bit>)
    ensures |s| == 8 * |bytes|
  {
    if bytes == [] then [] else ToBits(bytes[0], 8) + BytesToBits(bytes[1..])
  }

  lemma {:induction false} BytesToBitsConcat(a: seq<Byte>, b: seq<Byte>)
    ensures BytesToBits(a + b) == BytesToBits(a) + BytesToBits(b)
  {
    if a == [] {
      assert a + b == b;
    } else {
      assert (a + b)[1..] == a[1..] + b;
      BytesToBitsConcat(a[1..], b);
    }
  }

  lemma BytesToBitsSnoc(a: seq<Byte>, b: Byte)
    ensures BytesToBits(a + [b]) == BytesToBits(a) + ToBits(b, 8)
  {
    BytesToBitsConcat(a, [b]);
    assert BytesToBits([b]) == ToBits(b, 8) + BytesToBits([]);
  }

  /** Cutting a bit string into bytes. */
  function BitsToBytes(bits: seq<Bit>): seq<Byte>
    requires |bits| % 8 == 0
  {
    if bits == [] then []
    else
      ToFromBits(bits[..8]);
      Pow2Eight();
      [FromBits(bits[..8])] + BitsToBytes(bits[8..])
  }

  lemma {:induction false} BitsToBytesToBits(bytes: seq<Byte>)
    ensures BitsToBytes(BytesToBits(bytes)) == bytes
  {
    if bytes != [] {
      var bits := BytesToBits(bytes);
      Pow2Eight();
      FromToBits(bytes[0], 8);
      assert bits[..8] == ToBits(bytes[0], 8) && bits[8..] == BytesToBits(bytes[1..]);
      BitsToBytesToBits(bytes[1..]);
    }
  }

  lemma {:induction false} BytesToBitsToBytes(bits: seq<Bit>)
    requires |bits| % 8 == 0
    ensures BytesToBits(BitsToBytes(bits)) == bits
  {
    if bits != [] {
      var bytes := BitsToBytes(bits);
      ToFromBits(bits[..8]);
      assert bytes[1..] == BitsToBytes(bits[8..]);
      BytesToBitsToBytes(bits[8..]);
      assert bits == bits[..8] + bits[8..];
    }
  }

  /** Or-ing a bit into a byte that has none so high is adding it. */
  lemma OrLow(x: Byte)
    ensures x < 1 ==> ((x as bv8) | 1) as int == x + 1
    ensures x < 2 ==> ((x as bv8) | 2) as int == x + 2
    ensures x < 4 ==> ((x as bv8) | 4) as int == x + 4
    ensures x < 8 ==> ((x as bv8) | 8) as int == x + 8
  {
  }

  lemma OrHigh(x: Byte)
    ensures x < 16 ==> ((x as bv8) | 16) as int == x + 16
    ensures x < 32 ==> ((x as bv8) | 32) as int == x + 32
    ensures x < 64 ==> ((x as bv8) | 64) as int == x + 64
    ensures x < 128 ==> ((x as bv8) | 128) as int == x + 128
    ensures ((x as bv8) | 0) as int == x
  {
  }

  lemma ShiftedBit(bit: Bit, i: nat)
    requires i < 8
    ensures bit == 0 ==> (bit as bv8) << i == 0
    ensures bit == 1 ==>
              (bit as bv8) << i == if i == 0 then 1 else if i == 1 then 2 else if i == 2 then 4 else if i == 3 then 8
                                   else if i == 4 then 16 else if i == 5 then 32 else if i == 6 then 64 else 128
  {
  }

  /** The byte after the shifted bit is or-ed in, as the writer does it. */
  function OrBit(byte: Byte, i: nat, bit: Bit): Byte
    requires i < 8
  {
    ((byte as bv8) | ((bit as bv8) << i)) as int
  }

  lemma OrIsPlus(byte: Byte, i: nat, bit: Bit)
    requires i < 8 && byte < Pow2(i)
    ensures OrBit(byte, i, bit) == byte + bit * Pow2(i)
  {
    hide Pow2;
    Pow2Eight();
    Pow2Small();
    ShiftedBit(bit, i);
    OrLow(byte);
    OrHigh(byte);
  }

  lemma Pow2Small()
    ensures Pow2(0) == 1 && Pow2(1) == 2
  {
  }
}
