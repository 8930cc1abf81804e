/** The encoder as the program runs it: a 256-ary tree of codes instead of strings, and
    codes written to the bit stream as soon as a run ends. */
module LzwWriter {
  import opened Bits
  import opened BitStream
  import opened Lzw
  import opened LzwRoundTrip

  ghost predicate IsCode(depth: nat, table: seq<seq<Byte>>, c: nat)
  {
    2 <= depth <= 8 && (c < Pow2(depth) <= 256 || Pow2(depth) + 2 <= c < NextCode(depth, table))
  }

  ghost function StringOf(depth: nat, table: seq<seq<Byte>>, c: nat): seq<Byte>
    requires IsCode(depth, table, c)
  {
    if c < Pow2(depth) then [c] else table[c - Pow2(depth) - 2]
  }

  /** What the tree should hold at node `c` under symbol `v`: the code of the extended
      string, or zero if that string is not in the table. */
  ghost function Child(depth: nat, table: seq<seq<Byte>>, c: nat, v: Byte): nat
  {
    if IsCode(depth, table, c) && StringOf(depth, table, c) + [v] in table && StringOf(depth, table, c) != []
    then CodeFor(depth, table, StringOf(depth, table, c) + [v])
    else 0
  }

  lemma CodeForIs(depth: nat, table: seq<seq<Byte>>, i: nat)
    requires Dictionary(depth, table) && i < |table|
    ensures table[i] in table && CodeFor(depth, table, table[i]) == Pow2(depth) + 2 + i
  {
    assert Extends(table, i);
  }

  lemma StringOfCodeFor(depth: nat, table: seq<seq<Byte>>, s: seq<Byte>)
    requires 2 <= depth <= 8 && Dictionary(depth, table) && Known(table, s) && Below(depth, s)
    ensures IsCode(depth, table, CodeFor(depth, table, s))
    ensures StringOf(depth, table, CodeFor(depth, table, s)) == s
  {
    Pow2Bounds(depth);
    if |s| == 1 {
      assert s == [s[0]];
    }
  }

  lemma StringOfInjective(depth: nat, table: seq<seq<Byte>>, c: nat, c': nat)
    requires Dictionary(depth, table) && IsCode(depth, table, c) && IsCode(depth, table, c')
    requires StringOf(depth, table, c) == StringOf(depth, table, c')
    ensures c == c'
  {
    if c >= Pow2(depth) {
      assert Extends(table, c - Pow2(depth) - 2);
    }
    if c' >= Pow2(depth) {
      assert Extends(table, c' - Pow2(depth) - 2);
    }
  }

  /** A string just learned has no extension in the table yet. */
  lemma NoGrandchild(depth: nat, table: seq<seq<Byte>>, run: seq<Byte>, v: Byte, w: Byte)
    requires Dictionary(depth, table) && run != [] && run + [v] !in table
    ensures run + [v] + [w] !in table + [run + [v]]
  {
    var s := run + [v] + [w];
    assert s[..|s| - 1] == run + [v];
    forall i | 0 <= i < |table|
      ensures table[i] != s
    {
      assert Extends(table, i);
    }
  }

  /** Appending one string to the table changes one entry of the tree. */
  lemma ChildAfterLearning(depth: nat, table: seq<seq<Byte>>, run: seq<Byte>, v: Byte, c: nat, w: Byte)
    requires 2 <= depth <= 8 && Dictionary(depth, table) && Known(table, run) && Below(depth, run)
    requires run != [] && run + [v] !in table && v < Pow2(depth)
    ensures Child(depth, table + [run + [v]], c, w) ==
            if c == CodeFor(depth, table, run) && w == v then NextCode(depth, table) else Child(depth, table, c, w)
  {
    var longer := table + [run + [v]];
    DictionaryAppend(depth, table, run, v);
    StringOfCodeFor(depth, table, run);
    if IsCode(depth, table, c) {
      var s := StringOf(depth, table, c);
      assert StringOf(depth, longer, c) == s;
      if s + [w] == run + [v] {
        assert s == (s + [w])[..|s|] == (run + [v])[..|run|] == run;
        assert w == (s + [w])[|s|] == v;
        StringOfInjective(depth, table, c, CodeFor(depth, table, run));
        CodeForIs(depth, longer, |table|);
      } else {
        assert c == CodeFor(depth, table, run) ==> s == run;
        if s + [w] in table {
          var i :| 0 <= i < |table| && table[i] == s + [w];
          CodeForIs(depth, table, i);
          CodeForIs(depth, longer, i);
        }
      }
    } else if IsCode(depth, longer, c) {
      assert StringOf(depth, longer, c) == run + [v];
      NoGrandchild(depth, table, run, v, w);
    }
  }

  lemma AppendCode(before: seq<Bit>, codes: seq<Code>, c: Code)
    ensures before + Pack(codes + [c]) == before + Pack(codes) + ToBits(c.value, c.width)
  {
    PackSnoc(codes, c);
  }

  ghost predicate Mirrors(tree: array2<nat>, depth: nat, table: seq<seq<Byte>>)
    reads tree
  {
    && tree.Length0 == MAX_CODES && tree.Length1 == 256
    && forall c, v: Byte :: 0 <= c < MAX_CODES ==> tree[c, v] == Child(depth, table, c, v)
  }

  /** The local state of the encoder loop. */
  class LzwState {
    const codetree: array2<nat>
    var curCode: int
    var maxCode: nat
    var codeSize: nat

    constructor (depth: nat)
      requires 2 <= depth <= 8
      ensures Tracks(depth, EncoderStart(depth)) && fresh(codetree)
    {
      codetree := new nat[MAX_CODES, 256]((_, _) => 0);
      curCode := -1;
      codeSize := depth + 1;
      maxCode := Pow2(depth) + 1;
    }

    ghost predicate Tracks(depth: nat, e: Encoder)
      reads this, codetree
    {
      && Mirrors(codetree, depth, e.table)
      && (e.run != [] ==> Known(e.table, e.run))
      && curCode == (if e.run == [] then -1 else CodeFor(depth, e.table, e.run))
      && maxCode == NextCode(depth, e.table) - 1
      && codeSize == e.width
    }

    /** Empties the dictionary. */
    method Clear(depth: nat)
      requires codetree.Length0 == MAX_CODES && codetree.Length1 == 256
      modifies this, codetree
      ensures Mirrors(codetree, depth, []) && curCode == old(curCode)
      ensures codeSize == depth + 1 && maxCode == NextCode(depth, []) - 1
    {
      forall c, v | 0 <= c < MAX_CODES && 0 <= v < 256 {
        codetree[c, v] := 0;
      }
      codeSize := depth + 1;
      maxCode := Pow2(depth) + 1;
    }

    /** Enters the run extended by `v` under the next free code and widens the codes when
        that code no longer fits. */
    method Learn(depth: nat, v: Byte, ghost e: Encoder)
      requires EncoderInv(depth, e) && Tracks(depth, e) && v < Pow2(depth)
      requires e.run != [] && e.run + [v] !in e.table
      modifies this, codetree
      ensures Mirrors(codetree, depth, e.table + [e.run + [v]])
      ensures maxCode == NextCode(depth, e.table)
      ensures codeSize == if maxCode >= Pow2(e.width) then e.width + 1 else e.width
    {
      RunCode(depth, e);
      maxCode := maxCode + 1;
      forall c, w: Byte | 0 <= c < MAX_CODES
        ensures Child(depth, e.table + [e.run + [v]], c, w) ==
                if c == curCode && w == v then maxCode else Child(depth, e.table, c, w)
      {
        ChildAfterLearning(depth, e.table, e.run, v, c, w);
      }
      codetree[curCode, v] := maxCode;
      if maxCode >= Pow2(codeSize) {
        codeSize := codeSize + 1;
      }
    }

    /** After the code of the finished run: learns the extended run, and clears the
        dictionary when that took its last free code. */
    method NextRun(f: GifFile, stat: BitStatus, depth: nat, v: Byte, ghost e: Encoder, ghost origin: seq<Byte>,
                   ghost before: seq<Bit>)
      requires EncoderInv(depth, e) && Tracks(depth, e) && v < Pow2(depth)
      requires e.run != [] && e.run + [v] !in e.table && Framing(f, stat, origin)
      requires stat.Stream() == before + Pack(e.codes + [Code(CodeFor(depth, e.table, e.run), e.width)])
      modifies this, codetree, f, stat, stat.chunk
      ensures Tracks(depth, Feed(depth, e, v)) && Framing(f, stat, origin)
      ensures stat.Stream() == before + Pack(Feed(depth, e, v).codes)
    {
      hide Mirrors, Pack, Dictionary, ToBits, BytesToBits;
      Learn(depth, v, e);
      if maxCode == 4095 {
        AppendCode(before, e.codes + [Code(CodeFor(depth, e.table, e.run), e.width)], Code(Pow2(depth), codeSize));
        WriteCode(f, stat, Pow2(depth), codeSize, origin);
        Clear(depth);
      }
      curCode := v;
    }

    /** One index value of the image. */
    method Pixel(f: GifFile, stat: BitStatus, depth: nat, v: Byte, ghost e: Encoder, ghost origin: seq<Byte>,
                 ghost before: seq<Bit>)
      requires EncoderInv(depth, e) && Tracks(depth, e) && v < Pow2(depth)
      requires Framing(f, stat, origin) && stat.Stream() == before + Pack(e.codes)
      modifies this, codetree, f, stat, stat.chunk
      ensures Tracks(depth, Feed(depth, e, v))
      ensures Framing(f, stat, origin) && stat.Stream() == before + Pack(Feed(depth, e, v).codes)
    {
      if curCode >= 0 {
        RunCode(depth, e);
        StringOfCodeFor(depth, e.table, e.run);
        assert codetree[curCode, v] == Child(depth, e.table, curCode, v);
      }
      if curCode < 0 {
        curCode := v;
      } else if codetree[curCode, v] != 0 {
        curCode := codetree[curCode, v];
      } else {
        AppendCode(before, e.codes, Code(curCode, codeSize));
        WriteCode(f, stat, curCode, codeSize, origin);
        NextRun(f, stat, depth, v, e, origin, before);
      }
    }
  }
}
