/** The text form of a raw frame: base64 with its padding (sections 3.2 and 4 of RFC 4648). */
module Base64 {
  import opened Bits

  type Sextet = x: int | 0 <= x < 64

  function Letter(v: Sextet): char
  {
    if v < 26 then (65 + v) as char
    else if v < 52 then (71 + v) as char
    else if v < 62 then (v - 4) as char
    else if v == 62 then '+'
    else '/'
  }

  predicate IsLetter(c: char)
  {
    'A' <= c <= 'Z' || 'a' <= c <= 'z' || '0' <= c <= '9' || c == '+' || c == '/'
  }

  function Find(c: char): Sextet
    requires IsLetter(c)
  {
    if 'A' <= c <= 'Z' then c as int - 65
    else if 'a' <= c <= 'z' then c as int - 71
    else if '0' <= c <= '9' then c as int + 4
    else if c == '+' then 62
    else 63
  }

  lemma FindLetter(v: Sextet)
    ensures IsLetter(Letter(v)) && Find(Letter(v)) == v
  {
  }

  /** The alphabet of section 4, in order. */
  const UPPER: string := "ABCDEFGHIJKLMNOPQRSTUVWXYZ"
  const LOWER: string := "abcdefghijklmnopqrstuvwxyz"
  const DIGITS: string := "0123456789"
  const ALPHABET: string := UPPER + LOWER + DIGITS + "+/"

  /** The letters are the alphabet, in both directions, and nothing else is a letter. */
  lemma AlphabetIs(v: Sextet, c: char)
    ensures |ALPHABET| == 64 && Letter(v) == ALPHABET[v]
    ensures IsLetter(c) <==> c in ALPHABET
    ensures IsLetter(c) ==> ALPHABET[Find(c)] == c
  {
    LetterAt(v);
    if IsLetter(c) {
      LetterAt(Find(c));
    }
    if k :| 0 <= k < |ALPHABET| && ALPHABET[k] == c {
      LetterAt(k);
    }
  }

  /** `from` and the characters after it. */
  function Following(from: char, n: nat): (s: string)
    requires from as int + n <= 128
    ensures |s| == n && forall i :: 0 <= i < n ==> s[i] == (from as int + i) as char
  {
    if n == 0 then "" else Following(from, n - 1) + [(from as int + n - 1) as char]
  }

  lemma UpperInOrder()
    ensures UPPER == Following('A', 26)
  {
    assert Following('A', 9) == "ABCDEFGHI";
    assert Following('A', 18) == "ABCDEFGHIJKLMNOPQR";
  }

  lemma LowerInOrder()
    ensures LOWER == Following('a', 26)
  {
    assert Following('a', 9) == "abcdefghi";
    assert Following('a', 18) == "abcdefghijklmnopqr";
  }

  lemma DigitsInOrder()
    ensures DIGITS == Following('0', 10)
  {
  }

  lemma LetterAt(v: Sextet)
    ensures |ALPHABET| == 64 && Letter(v) == ALPHABET[v]
  {
    UpperInOrder();
    LowerInOrder();
    DigitsInOrder();
  }

  // ---------------------------------------------------------------- groups

  function Letters(a: Byte, b: Byte, c: Byte): (s: string)
    ensures |s| == 4
  {
    [Letter(a / 4), Letter(a % 4 * 16 + b / 16), Letter(b % 16 * 4 + c / 64), Letter(c % 64)]
  }

  function Octets(w: Sextet, x: Sextet, y: Sextet, z: Sextet): (s: seq<Byte>)
    ensures |s| == 3
  {
    [w * 4 + x / 16, x % 16 * 16 + y / 4, y % 4 * 64 + z]
  }

  /** The text of an octet string. */
  function Encoded(s: seq<Byte>): string
  {
    if s == [] then ""
    else if |s| == 1 then Letters(s[0], 0, 0)[..2] + "=="
    else if |s| == 2 then Letters(s[0], s[1], 0)[..3] + "="
    else Letters(s[0], s[1], s[2]) + Encoded(s[3..])
  }

  /** What is left when the letters end: a group of two or three stands for one or two octets,
      a single letter for none. */
  function Leftover(group: string): seq<Byte>
    requires |group| < 4 && forall c :: c in group ==> IsLetter(c)
  {
    if |group| == 3 then Octets(Find(group[0]), Find(group[1]), Find(group[2]), 0)[..2]
    else if |group| == 2 then Octets(Find(group[0]), Find(group[1]), 0, 0)[..1]
    else []
  }

  /** The octets of a text, up to its first character that is not a letter, given the letters
      of an unfinished group in front. */
  function Decoded(group: string, t: string): seq<Byte>
    requires |group| < 4 && forall c :: c in group ==> IsLetter(c)
    decreases |t|
  {
    if t == "" || !IsLetter(t[0]) then Leftover(group)
    else if |group| < 3 then Decoded(group + [t[0]], t[1..])
    else Octets(Find(group[0]), Find(group[1]), Find(group[2]), Find(t[0])) + Decoded("", t[1..])
  }

  /** Test vectors of section 10: "foobar", "fooba" and "foob". */
  lemma Vectors()
    ensures Encoded([0x66, 0x6f, 0x6f, 0x62, 0x61, 0x72]) == "Zm9vYmFy"
    ensures Encoded([0x66, 0x6f, 0x6f, 0x62, 0x61]) == "Zm9vYmE="
    ensures Encoded([0x66, 0x6f, 0x6f, 0x62]) == "Zm9vYg=="
  {
    var foo: seq<Byte> := [0x66, 0x6f, 0x6f];
    var bar: seq<Byte> := [0x62, 0x61, 0x72];
    assert Letters(0x66, 0x6f, 0x6f) == "Zm9v";
    assert Encoded([]) == "";
    assert bar[3..] == [] && Encoded(bar) == "YmFy";
    assert (foo + bar)[3..] == bar && (foo + bar[..2])[3..] == bar[..2] && (foo + bar[..1])[3..] == bar[..1];
    assert foo + bar == [0x66, 0x6f, 0x6f, 0x62, 0x61, 0x72];
    assert foo + bar[..2] == [0x66, 0x6f, 0x6f, 0x62, 0x61] && foo + bar[..1] == [0x66, 0x6f, 0x6f, 0x62];
  }

  // ---------------------------------------------------------------- round trip

  lemma FirstOctet(a: Byte, x: nat)
    requires x < 16
    ensures a / 4 * 4 + (a % 4 * 16 + x) / 16 == a
  {
  }

  lemma SecondOctet(high: nat, b: Byte, x: nat)
    requires high < 4 && x < 4
    ensures (high * 16 + b / 16) % 16 * 16 + (b % 16 * 4 + x) / 4 == b
  {
  }

  lemma ThirdOctet(high: nat, c: Byte)
    requires high < 16
    ensures (high * 4 + c / 64) % 4 * 64 + c % 64 == c
  {
  }

  lemma OctetsOfSextets(a: Byte, b: Byte, c: Byte, w: Sextet, x: Sextet, y: Sextet, z: Sextet)
    requires w == a / 4 && x == a % 4 * 16 + b / 16 && y == b % 16 * 4 + c / 64 && z == c % 64
    ensures Octets(w, x, y, z) == [a, b, c]
  {
    FirstOctet(a, b / 16);
    SecondOctet(a % 4, b, c / 64);
    ThirdOctet(b % 16, c);
  }

  lemma OctetsOfLetters(a: Byte, b: Byte, c: Byte)
    ensures var s := Letters(a, b, c);
            (forall k :: 0 <= k < 4 ==> IsLetter(s[k])) &&
            Octets(Find(s[0]), Find(s[1]), Find(s[2]), Find(s[3])) == [a, b, c]
  {
    hide Letter, Find, IsLetter, Octets;
    var w: Sextet, x: Sextet, y: Sextet, z: Sextet := a / 4, a % 4 * 16 + b / 16, b % 16 * 4 + c / 64, c % 64;
    FindLetter(w);
    FindLetter(x);
    FindLetter(y);
    FindLetter(z);
    OctetsOfSextets(a, b, c, w, x, y, z);
  }

  /** Letters join an unfinished group. */
  lemma {:induction false} Gather(group: string, more: string, rest: string)
    requires |group| + |more| < 4 && forall c :: c in group + more ==> IsLetter(c)
    ensures Decoded(group, more + rest) == Decoded(group + more, rest)
    decreases |more|
  {
    if more == "" {
      assert more + rest == rest && group + more == group;
    } else {
      assert (more + rest)[0] == more[0] && (more + rest)[1..] == more[1..] + rest;
      assert group + [more[0]] + more[1..] == group + more;
      assert more[0] in group + more;
      Gather(group + [more[0]], more[1..], rest);
    }
  }

  lemma WholeGroup(a: Byte, b: Byte, c: Byte, rest: string)
    ensures Decoded("", Letters(a, b, c) + rest) == [a, b, c] + Decoded("", rest)
  {
    hide Letters, Octets, IsLetter, Find;
    OctetsOfLetters(a, b, c);
    var s := Letters(a, b, c);
    assert s + rest == s[..3] + ([s[3]] + rest);
    Gather("", s[..3], [s[3]] + rest);
    assert "" + s[..3] == s[..3] && ([s[3]] + rest)[1..] == rest;
  }

  lemma Ending(group: string, rest: string)
    requires |group| < 4 && (forall c :: c in group ==> IsLetter(c)) && rest != "" && !IsLetter(rest[0])
    ensures Decoded("", group + rest) == Leftover(group)
  {
    Gather("", group, rest);
    assert "" + group == group;
  }

  /** Decoding an encoded octet string gives it back. */
  lemma {:induction false} RoundTrip(s: seq<Byte>)
    ensures Decoded("", Encoded(s)) == s
    decreases |s|
  {
    hide Letters, IsLetter, Find, Octets;
    if s == [] {
      NothingLeft();
    } else if |s| == 1 {
      OctetsOfLetters(s[0], 0, 0);
      PadIsNoLetter();
      Ending(Letters(s[0], 0, 0)[..2], "==");
      ShortGroup(s[0], 0, 0);
    } else if |s| == 2 {
      OctetsOfLetters(s[0], s[1], 0);
      PadIsNoLetter();
      Ending(Letters(s[0], s[1], 0)[..3], "=");
      ShortGroup(s[0], s[1], 0);
    } else {
      WholeGroup(s[0], s[1], s[2], Encoded(s[3..]));
      RoundTrip(s[3..]);
      assert s == [s[0], s[1], s[2]] + s[3..];
    }
  }

  lemma NothingLeft()
    ensures Decoded("", "") == []
  {
  }

  lemma PadIsNoLetter()
    ensures !IsLetter('=')
  {
  }

  /** The octets of a short group do not depend on the letters left out. */
  lemma ShortGroup(a: Byte, b: Byte, c: Byte)
    ensures var s := Letters(a, b, c);
            (forall k :: 0 <= k < 4 ==> IsLetter(s[k]))
            && Octets(Find(s[0]), Find(s[1]), 0, 0)[..1] == [a]
            && Octets(Find(s[0]), Find(s[1]), Find(s[2]), 0)[..2] == [a, b]
  {
    hide Letter, IsLetter, Find;
    OctetsOfLetters(a, b, c);
  }

  // ---------------------------------------------------------------- the two functions

  lemma EncodedGroup(a: Byte, b: Byte, c: Byte, rest: seq<Byte>)
    ensures Encoded([a, b, c] + rest) == Letters(a, b, c) + Encoded(rest)
  {
    hide Letters;
    assert ([a, b, c] + rest)[3..] == rest;
  }

  /** The end of an encoding: a group of one or two octets, padded. */
  lemma EncodedEnd(group: seq<Byte>)
    requires 0 < |group| < 3
    ensures Encoded(group + []) ==
            Letters(group[0], if |group| == 2 then group[1] else 0, 0)[..|group| + 1]
            + if |group| == 1 then "==" else "="
  {
    hide Letters;
    assert group + [] == group;
  }

  lemma EncodedNone(nothing: seq<Byte>)
    requires nothing == []
    ensures Encoded(nothing + []) == ""
  {
  }

  method Encode(bytes: seq<Byte>) returns (text: string)
    ensures text == Encoded(bytes)
  {
    hide Letters, Encoded;
    var group := new Byte[3](_ => 0);
    var i := 0;
    text := "";
    assert group[..0] + bytes[0..] == bytes;
    for k := 0 to |bytes|
      invariant 0 <= i < 3
      invariant Encoded(bytes) == text + Encoded(group[..i] + bytes[k..])
    {
      ghost var pending := group[..i];
      group[i] := bytes[k];
      i := i + 1;
      assert group[..i] + bytes[k + 1..] == pending + bytes[k..];
      if i == 3 {
        EncodedGroup(group[0], group[1], group[2], bytes[k + 1..]);
        assert group[..3] == [group[0], group[1], group[2]];
        text := text + Letters(group[0], group[1], group[2]);
        i := 0;
        assert group[..0] + bytes[k + 1..] == bytes[k + 1..];
      }
    }
    assert bytes[|bytes|..] == [];
    if i != 0 {
      EncodedEnd(group[..i]);
      ghost var rest := group[..i];
      for j := i to 3
        invariant group[..i] == rest
        invariant forall m :: i <= m < j ==> group[m] == 0
      {
        group[j] := 0;
      }
      text := text + Letters(group[0], group[1], group[2])[..i + 1];
      ghost var pads := if i == 1 then "==" else "=";
      while i < 3
        invariant i <= 3 && |pads| == 3 - i && (pads == "==" || pads == "=" || pads == "")
        invariant Encoded(bytes) == text + pads
      {
        text := text + "=";
        pads := pads[1..];
        i := i + 1;
      }
    } else {
      EncodedNone(group[..0]);
    }
  }

  method Decode(text: string) returns (bytes: seq<Byte>)
    ensures bytes == Decoded("", text)
  {
    hide Octets, IsLetter, Find;
    var group := new char[4](_ => 'A');
    var i, k := 0, 0;
    bytes := [];
    PadIsNoLetter();
    assert group[..0] == "" && text[0..] == text;
    while k < |text| && text[k] != '=' && IsLetter(text[k])
      invariant k <= |text| && 0 <= i < 4 && forall m :: 0 <= m < i ==> IsLetter(group[m])
      invariant Decoded("", text) == bytes + Decoded(group[..i], text[k..])
      decreases |text| - k
    {
      ghost var pending := group[..i];
      group[i] := text[k];
      i, k := i + 1, k + 1;
      assert group[..i] == pending + [text[k - 1]];
      if i == 4 {
        bytes := bytes + Octets(Find(group[0]), Find(group[1]), Find(group[2]), Find(group[3]));
        i := 0;
        assert group[..0] == "";
      }
    }
    bytes := bytes + Leftover(group[..i]);
  }
}
