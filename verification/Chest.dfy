/** Chests and the transfer of items between them. */
module Chest {
  import opened Arithmetic
  import opened Bits
  import opened Options

  datatype Slot = Slot(name: string, count: Byte)

  const EMPTY := Slot("", 0)

  /** The slots of a chest as a value. Slots are numbered from 1. */
  datatype Contents = Contents(size: nat, items: seq<Slot>)

  predicate SlotOk(s: Slot)
  {
    s.count <= 64 && (s.count == 0 <==> s.name == "")
  }

  ghost predicate Ok(c: Contents)
  {
    && c.size <= |c.items|
    && (forall k :: 0 <= k < |c.items| ==> SlotOk(c.items[k]))
  }

  /** The first slot from `slot` on that is empty or holds the item; one past the last if none does. */
  function Seek(c: Contents, name: string, slot: nat): (r: nat)
    requires c.size <= |c.items| && 1 <= slot <= c.size + 1
    ensures slot <= r <= c.size + 1
    decreases c.size + 1 - slot
  {
    if slot <= c.size && c.items[slot - 1].count > 0 && c.items[slot - 1].name != name then Seek(c, name, slot + 1)
    else slot
  }

  /** The slot an item goes to; 0 asks for a search. */
  function Target(c: Contents, name: string, slot: int): int
    requires c.size <= |c.items|
  {
    if slot == 0 then Seek(c, name, 1) else slot
  }

  predicate Takes(c: Contents, name: string, slot: int)
    requires c.size <= |c.items|
  {
    1 <= slot <= c.size && (c.items[slot - 1].name == name || c.items[slot - 1].name == "")
  }

  /** How many of `n` items a slot takes. */
  function Fits(c: Contents, name: string, slot: int, n: nat): (r: nat)
    requires Ok(c)
    ensures r <= n && (r > 0 ==> 1 <= slot <= c.size && c.items[slot - 1].count + r <= 64)
  {
    if !Takes(c, name, slot) then 0
    else if c.items[slot - 1].count + n < 64 then n else 64 - c.items[slot - 1].count
  }

  /** Puts items, all of which fit, into a slot. */
  function Put(c: Contents, name: string, slot: int, n: nat): Contents
    requires n > 0 ==> 1 <= slot <= |c.items| && c.items[slot - 1].count + n < 256
  {
    if n == 0 then c else c.(items := c.items[slot - 1 := Slot(name, c.items[slot - 1].count + n)])
  }

  /** Takes items, all of which are there, out of a slot. */
  function Take(c: Contents, slot: int, n: nat): Contents
    requires 1 <= slot <= |c.items| && n <= c.items[slot - 1].count
  {
    var left := c.items[slot - 1].count - n;
    c.(items := c.items[slot - 1 := if left == 0 then EMPTY else Slot(c.items[slot - 1].name, left)])
  }

  // ---------------------------------------------------------------- any count

  /** What a slot of `was` items holds after `count` more, or fewer: at most 64, in a byte. */
  function NewCount(was: Byte, count: int): Byte
  {
    Min(was + count, 64) % 256
  }

  /** What adding items does: `d` is the difference in byte arithmetic, and the slot gets name
      and count only if there is one. */
  ghost predicate Adds(c: Contents, name: string, t: int, count: int, d: Byte, after: Contents)
    requires c.size <= |c.items|
  {
    if Takes(c, name, t) then
      var was, n := c.items[t - 1].count, NewCount(c.items[t - 1].count, count);
      d == (n - was) % 256 && after == if n == was then c else c.(items := c.items[t - 1 := Slot(name, n)])
    else d == 0 && after == c
  }

  /** When that leaves the slots in order: the slot does not take the item, nothing changes, or
      the item has a name and the new count is from 1 to 64. */
  predicate Keeps(c: Contents, name: string, t: int, count: int)
    requires c.size <= |c.items|
  {
    Takes(c, name, t) ==>
      var was, n := c.items[t - 1].count, NewCount(c.items[t - 1].count, count);
      n == was || (name != "" && 1 <= n <= 64)
  }

  lemma ChangeIs(was: Byte, count: int)
    ensures var d := (Min(was + count, 64) - was) % 256;
            && d == (NewCount(was, count) - was) % 256
            && (d == 0 <==> NewCount(was, count) == was) && (was + d) % 256 == NewCount(was, count)
  {
  }

  lemma KeepsIff(c: Contents, name: string, t: int, count: int, d: Byte, after: Contents)
    requires Ok(c) && Adds(c, name, t, count, d, after)
    ensures Ok(after) <==> Keeps(c, name, t, count)
  {
    hide NewCount;
    if Takes(c, name, t) {
      assert SlotOk(c.items[t - 1]);
      assert |after.items| == |c.items|;
      assert Ok(after) ==> SlotOk(after.items[t - 1]);
    }
  }

  /** Named items in counts of zero or more always keep it. */
  lemma NamedKeep(c: Contents, name: string, t: int, count: nat)
    requires Ok(c) && name != ""
    ensures Keeps(c, name, t, count)
  {
    if Takes(c, name, t) {
      assert SlotOk(c.items[t - 1]);
    }
  }

  /** Inputs that do not, at any empty slot: a count of -1, and an item without a name. */
  lemma SomeBreak(c: Contents, t: int, stone: string)
    requires Ok(c) && 1 <= t <= c.size && c.items[t - 1].count == 0 && stone != ""
    ensures !Keeps(c, stone, t, -1) && !Keeps(c, "", t, 1)
  {
    assert SlotOk(c.items[t - 1]);
  }

  lemma AddsFits(c: Contents, name: string, t: int, count: nat, d: Byte)
    requires Ok(c) && Takes(c, name, t) && d == (Min(c.items[t - 1].count + count, 64) - c.items[t - 1].count) % 256
    ensures d == Fits(c, name, t, count)
  {
    assert SlotOk(c.items[t - 1]);
  }

  /** The search passes over exactly the slots that hold other items. */
  lemma {:induction false} SeekIsFirst(c: Contents, name: string, slot: nat)
    requires Ok(c) && name != "" && 1 <= slot <= c.size + 1
    ensures forall k :: slot - 1 <= k < Seek(c, name, slot) - 1 ==> c.items[k].name != "" && c.items[k].name != name
    ensures Seek(c, name, slot) <= c.size ==> Takes(c, name, Seek(c, name, slot))
    decreases c.size + 1 - slot
  {
    if slot <= c.size {
      assert SlotOk(c.items[slot - 1]);
      if c.items[slot - 1].count > 0 && c.items[slot - 1].name != name {
        SeekIsFirst(c, name, slot + 1);
      }
    }
  }

  /** A search takes nothing exactly when it finds no slot, or finds a full one first: room in
      a later slot does not help. */
  lemma SearchTakesNone(c: Contents, name: string, n: nat)
    requires Ok(c) && name != "" && n > 0
    ensures var r := Seek(c, name, 1);
            Fits(c, name, Target(c, name, 0), n) == 0 <==> r == c.size + 1 || c.items[r - 1].count == 64
  {
    SeekIsFirst(c, name, 1);
  }

  // ---------------------------------------------------------------- totals

  function Of(s: Slot, name: string): nat
  {
    if s.name == name then s.count else 0
  }

  function Total(items: seq<Slot>, name: string): nat
  {
    if items == [] then 0 else Of(items[0], name) + Total(items[1..], name)
  }

  lemma {:induction false} TotalAfter(items: seq<Slot>, k: nat, s: Slot, name: string)
    requires k < |items|
    ensures Total(items[k := s], name) == Total(items, name) - Of(items[k], name) + Of(s, name)
  {
    if k == 0 {
      assert items[k := s][1..] == items[1..];
    } else {
      assert items[k := s][1..] == items[1..][k - 1 := s];
      TotalAfter(items[1..], k - 1, s, name);
    }
  }

  // ---------------------------------------------------------------- transfers among chests

  function WorldTotal(w: seq<Contents>, name: string): nat
  {
    if w == [] then 0 else Total(w[0].items, name) + WorldTotal(w[1..], name)
  }

  lemma {:induction false} WorldTotalAfter(w: seq<Contents>, i: nat, c: Contents, name: string)
    requires i < |w|
    ensures WorldTotal(w[i := c], name) == WorldTotal(w, name) - Total(w[i].items, name) + Total(c.items, name)
  {
    if i == 0 {
      assert w[i := c][1..] == w[1..];
    } else {
      assert w[i := c][1..] == w[1..][i - 1 := c];
      WorldTotalAfter(w[1..], i - 1, c, name);
    }
  }

  ghost predicate AllOk(w: seq<Contents>)
  {
    forall i :: 0 <= i < |w| ==> Ok(w[i])
  }

  lemma PutOk(c: Contents, name: string, slot: int, n: nat)
    requires Ok(c) && n <= Fits(c, name, slot, n)
    ensures name != "" ==> Ok(Put(c, name, slot, n))
    ensures forall x :: Total(Put(c, name, slot, n).items, x) == Total(c.items, x) + if x == name then n else 0
  {
    hide Total;
    if n > 0 {
      forall x
        ensures Total(Put(c, name, slot, n).items, x) == Total(c.items, x) + if x == name then n else 0
      {
        TotalAfter(c.items, slot - 1, Slot(name, c.items[slot - 1].count + n), x);
      }
    }
  }

  lemma TakeOk(c: Contents, slot: int, n: nat)
    requires Ok(c) && 1 <= slot <= |c.items| && n <= c.items[slot - 1].count
    ensures Ok(Take(c, slot, n))
    ensures forall x ::
              Total(Take(c, slot, n).items, x) == Total(c.items, x) - if x == c.items[slot - 1].name then n else 0
  {
    hide Total;
    forall x
      ensures Total(Take(c, slot, n).items, x) == Total(c.items, x) - if x == c.items[slot - 1].name then n else 0
    {
      TotalAfter(c.items, slot - 1, Take(c, slot, n).items[slot - 1], x);
    }
  }

  datatype Moved = Moved(world: seq<Contents>, n: nat)

  /** The steps of a transfer of at most `limit` items from slot `from` of chest `i` to slot
      `to`, or any slot, of chest `j`, which may be the same one: all are taken out, what fits
      goes in, and what does not fit goes back. */
  function Transfer(w: seq<Contents>, i: nat, from: int, limit: int, j: nat, to: int): Moved
    requires AllOk(w) && i < |w| && j < |w| && 1 <= from <= w[i].size
  {
    var s := w[i].items[from - 1];
    if limit <= 0 || s.count == 0 then Moved(w, 0)
    else
      var n := Min(limit, s.count);
      var w1 := w[i := Take(w[i], from, n)];
      TakeOk(w[i], from, n);
      var slot := Target(w1[j], s.name, to);
      var added := Fits(w1[j], s.name, slot, n);
      var w2 := w1[j := Put(w1[j], s.name, slot, added)];
      if added == n then Moved(w2, added)
      else
        PutOk(w1[j], s.name, slot, added);
        Moved(w2[i := Put(w2[i], s.name, from, Fits(w2[i], s.name, from, n - added))], added)
  }

  /** What a transfer comes to: the number of items is moved from slot to slot. */
  function Shifted(w: seq<Contents>, i: nat, from: int, j: nat, slot: int, n: nat): seq<Contents>
    requires i < |w| && j < |w| && 1 <= from <= |w[i].items| && n <= w[i].items[from - 1].count
    requires n > 0 ==> 1 <= slot <= |w[j].items| && w[j].items[slot - 1].count + n < 256
  {
    if n == 0 then w
    else
      var w1 := w[i := Take(w[i], from, n)];
      w1[j := Put(w1[j], w[i].items[from - 1].name, slot, n)]
  }

  lemma PutBack(c: Contents, from: int, n: nat, m: nat)
    requires Ok(c) && 1 <= from <= c.size && m < n <= c.items[from - 1].count
    ensures var t, name := Take(c, from, n), c.items[from - 1].name;
            Ok(t) && Fits(t, name, from, n - m) == n - m && Put(t, name, from, n - m) == Take(c, from, m)
  {
    TakeOk(c, from, n);
    var t, name := Take(c, from, n), c.items[from - 1].name;
    assert Put(t, name, from, n - m).items == Take(c, from, m).items;
  }

  /** Putting items into another slot in between changes nothing. */
  lemma PutBackAround(c: Contents, from: int, n: nat, m: nat, slot: int)
    requires Ok(c) && 1 <= from <= c.size && m < n <= c.items[from - 1].count
    requires 1 <= slot <= c.size && slot != from && c.items[slot - 1].count + m < 256
    ensures var t, name := Take(c, from, n), c.items[from - 1].name;
            var u := Put(t, name, slot, m);
            u.size == c.size && u.items[from - 1] == t.items[from - 1]
            && Put(u, name, from, n - m) == Put(Take(c, from, m), name, slot, m)
  {
    var t, name := Take(c, from, n), c.items[from - 1].name;
    var u := Put(t, name, slot, m);
    assert Put(u, name, from, n - m).items == Put(Take(c, from, m), name, slot, m).items;
  }

  lemma TakeNone(c: Contents, from: int)
    requires Ok(c) && 1 <= from <= c.size
    ensures Take(c, from, 0) == c
  {
    assert Take(c, from, 0).items == c.items;
  }

  /** The chest that gets what did not fit back, when it is not the one that took the rest. */
  lemma BackElsewhere(w: seq<Contents>, i: nat, from: int, n: nat, j: nat, slot: int, m: nat)
    requires AllOk(w) && i < |w| && j < |w| && 1 <= from <= w[i].size && m < n <= w[i].items[from - 1].count
    requires m > 0 ==> i != j && 1 <= slot <= w[j].size && w[j].items[slot - 1].count + m < 256
    ensures var name, w1 := w[i].items[from - 1].name, w[i := Take(w[i], from, n)];
            (m > 0 ==> w1[j] == w[j]) &&
            var w2 := w1[j := Put(w1[j], name, slot, m)];
            Ok(w2[i]) && Fits(w2[i], name, from, n - m) == n - m
            && w2[i := Put(w2[i], name, from, n - m)] == Shifted(w, i, from, j, slot, m)
  {
    hide Fits;
    PutBack(w[i], from, n, m);
    TakeNone(w[i], from);
    var name, w1 := w[i].items[from - 1].name, w[i := Take(w[i], from, n)];
    var w2 := w1[j := Put(w1[j], name, slot, m)];
    assert w2[i] == Take(w[i], from, n);
    assert w2[i := Put(w2[i], name, from, n - m)] == Shifted(w, i, from, j, slot, m);
  }

  lemma BackHere(w: seq<Contents>, i: nat, from: int, n: nat, slot: int, m: nat)
    requires AllOk(w) && i < |w| && 1 <= from <= w[i].size && 0 < m < n <= w[i].items[from - 1].count
    requires 1 <= slot <= w[i].size && slot != from && w[i].items[slot - 1].count + m < 256
    ensures var name, w1 := w[i].items[from - 1].name, w[i := Take(w[i], from, n)];
            var w2 := w1[i := Put(w1[i], name, slot, m)];
            (Ok(w2[i]) ==> Fits(w2[i], name, from, n - m) == n - m)
            && w2[i := Put(w2[i], name, from, n - m)] == Shifted(w, i, from, i, slot, m)
  {
    PutBack(w[i], from, n, m);
    PutBackAround(w[i], from, n, m, slot);
  }

  /** The emptied slot itself takes everything. */
  lemma OwnSlotFits(c: Contents, from: int, n: nat)
    requires Ok(c) && 1 <= from <= c.size && 0 < n <= c.items[from - 1].count
    ensures Ok(Take(c, from, n)) && Fits(Take(c, from, n), c.items[from - 1].name, from, n) == n
  {
    TakeOk(c, from, n);
  }

  /** The slot a transfer puts items into, found after they were taken out. */
  function Destination(w: seq<Contents>, i: nat, from: int, limit: int, j: nat, to: int): int
    requires AllOk(w) && i < |w| && j < |w| && 1 <= from <= w[i].size && limit > 0
  {
    var s := w[i].items[from - 1];
    TakeOk(w[i], from, Min(limit, s.count));
    Target(w[i := Take(w[i], from, Min(limit, s.count))][j], s.name, to)
  }

  /** What is put back always fits, so that exactly the items that found a place have moved. */
  lemma TransferIsShift(w: seq<Contents>, i: nat, from: int, limit: int, j: nat, to: int)
    requires AllOk(w) && i < |w| && j < |w| && 1 <= from <= w[i].size
    ensures var s, r := w[i].items[from - 1], Transfer(w, i, from, limit, j, to);
            r.n <= s.count
            && (r.n == 0 ==> r.world == w)
            && (r.n > 0 ==>
                  r.n <= limit
                  && var slot := Destination(w, i, from, limit, j, to);
                     1 <= slot <= w[j].size
                     && w[j].items[slot - 1].count + r.n < 256
                     && r.world == Shifted(w, i, from, j, slot, r.n))
  {
    hide Put, Take, Target;
    var s := w[i].items[from - 1];
    if limit > 0 && s.count > 0 {
      var n := Min(limit, s.count);
      TakeOk(w[i], from, n);
      OwnSlotFits(w[i], from, n);
      var w1 := w[i := Take(w[i], from, n)];
      var slot := Target(w1[j], s.name, to);
      var added := Fits(w1[j], s.name, slot, n);
      PutOk(w1[j], s.name, slot, added);
      TakeLess(w[i], from, n, slot);
      if added < n {
        if i == j && added > 0 {
          BackHere(w, i, from, n, slot, added);
        } else {
          BackElsewhere(w, i, from, n, j, slot, added);
        }
      }
    }
  }

  lemma TakeLess(c: Contents, from: int, n: nat, slot: int)
    requires Ok(c) && 1 <= from <= c.size && n <= c.items[from - 1].count
    ensures Take(c, from, n).size == c.size && |Take(c, from, n).items| == |c.items|
    ensures 1 <= slot <= c.size ==> c.items[slot - 1].count <= 64
    ensures 1 <= slot <= c.size && slot != from ==> Take(c, from, n).items[slot - 1] == c.items[slot - 1]
  {
  }

  lemma StepTotal(w: seq<Contents>, i: nat, c: Contents)
    requires AllOk(w) && i < |w| && Ok(c)
    ensures AllOk(w[i := c])
    ensures forall x :: WorldTotal(w[i := c], x) == WorldTotal(w, x) - Total(w[i].items, x) + Total(c.items, x)
  {
    hide WorldTotal, Total, Ok;
    forall x
      ensures WorldTotal(w[i := c], x) == WorldTotal(w, x) - Total(w[i].items, x) + Total(c.items, x)
    {
      WorldTotalAfter(w, i, c, x);
    }
  }

  lemma PutTotal(w: seq<Contents>, i: nat, name: string, slot: int, n: nat)
    requires AllOk(w) && i < |w| && name != "" && n <= Fits(w[i], name, slot, n)
    ensures AllOk(w[i := Put(w[i], name, slot, n)])
    ensures forall x :: WorldTotal(w[i := Put(w[i], name, slot, n)], x) == WorldTotal(w, x) + if x == name then n else 0
  {
    hide WorldTotal, Total, Put;
    PutOk(w[i], name, slot, n);
    StepTotal(w, i, Put(w[i], name, slot, n));
  }

  lemma TakeTotal(w: seq<Contents>, i: nat, from: int, n: nat)
    requires AllOk(w) && i < |w| && 1 <= from <= w[i].size && n <= w[i].items[from - 1].count
    ensures AllOk(w[i := Take(w[i], from, n)])
    ensures forall x ::
              WorldTotal(w[i := Take(w[i], from, n)], x) ==
              WorldTotal(w, x) - if x == w[i].items[from - 1].name then n else 0
  {
    TakeOk(w[i], from, n);
    hide WorldTotal, Total, Take;
    StepTotal(w, i, Take(w[i], from, n));
  }

  lemma FitsItself(c: Contents, name: string, slot: int, n: nat)
    requires Ok(c)
    ensures Fits(c, name, slot, n) <= n && Fits(c, name, slot, Fits(c, name, slot, n)) == Fits(c, name, slot, n)
  {
  }

  /** A transfer keeps the number of items of every kind, and every slot in order. */
  lemma TransferConserves(w: seq<Contents>, i: nat, from: int, limit: int, j: nat, to: int)
    requires AllOk(w) && i < |w| && j < |w| && 1 <= from <= w[i].size
    ensures var r := Transfer(w, i, from, limit, j, to).world;
            |r| == |w| && AllOk(r)
            && (forall k :: 0 <= k < |w| ==> r[k].size == w[k].size)
            && forall x :: WorldTotal(r, x) == WorldTotal(w, x)
  {
    hide WorldTotal, Take, Put, Target;
    var s := w[i].items[from - 1];
    assert SlotOk(s) by { SlotIsOk(w[i], from); }
    if limit > 0 && s.count > 0 {
      var n := Min(limit, s.count);
      TakeTotal(w, i, from, n);
      TakeSize(w[i], from, n);
      var w1 := w[i := Take(w[i], from, n)];
      var slot := Target(w1[j], s.name, to);
      var added := Fits(w1[j], s.name, slot, n);
      FitsItself(w1[j], s.name, slot, n);
      PutTotal(w1, j, s.name, slot, added);
      PutSize(w1[j], s.name, slot, added);
      var w2 := w1[j := Put(w1[j], s.name, slot, added)];
      if added < n {
        BackFits(w, i, from, n, j, slot);
        PutTotal(w2, i, s.name, from, n - added);
        PutSize(w2[i], s.name, from, n - added);
      }
    }
  }

  lemma SlotIsOk(c: Contents, from: int)
    requires Ok(c) && 1 <= from <= c.size
    ensures from <= |c.items| && SlotOk(c.items[from - 1])
  {
  }

  lemma TakeSize(c: Contents, from: int, n: nat)
    requires Ok(c) && 1 <= from <= c.size && n <= c.items[from - 1].count
    ensures Take(c, from, n).size == c.size
  {
  }

  lemma PutSize(c: Contents, name: string, slot: int, n: nat)
    requires Ok(c) && n <= Fits(c, name, slot, n)
    ensures Put(c, name, slot, n).size == c.size
  {
  }

  /** The put-back finds room. */
  lemma BackFits(w: seq<Contents>, i: nat, from: int, n: nat, j: nat, slot: int)
    requires AllOk(w) && i < |w| && j < |w| && 1 <= from <= w[i].size && 0 < n <= w[i].items[from - 1].count
    ensures Ok(Take(w[i], from, n))
    ensures var name, w1 := w[i].items[from - 1].name, w[i := Take(w[i], from, n)];
            var added := Fits(w1[j], name, slot, n);
            added < n ==>
              var w2 := w1[j := Put(w1[j], name, slot, added)];
              Ok(w2[i]) && Fits(w2[i], name, from, n - added) == n - added
  {
    hide Put, Take;
    TakeOk(w[i], from, n);
    OwnSlotFits(w[i], from, n);
    var name, w1 := w[i].items[from - 1].name, w[i := Take(w[i], from, n)];
    var added := Fits(w1[j], name, slot, n);
    PutOk(w1[j], name, slot, added);
    TakeLess(w[i], from, n, slot);
    if added < n {
      if i == j && added > 0 {
        BackHere(w, i, from, n, slot, added);
      } else {
        BackElsewhere(w, i, from, n, j, slot, added);
      }
    }
  }

  // ---------------------------------------------------------------- runs

  /** A call of pushItems or pullItems; a `to` of 0 leaves the slot open. */
  datatype Call = Call(i: nat, from: int, limit: int, j: nat, to: int)

  /** Calls with a chest or slot that does not exist are refused. */
  function Performed(w: seq<Contents>, c: Call): seq<Contents>
    requires AllOk(w)
  {
    if c.i < |w| && c.j < |w| && 1 <= c.from <= w[c.i].size && 0 <= c.to <= w[c.j].size
    then Transfer(w, c.i, c.from, c.limit, c.j, c.to).world else w
  }

  function PerformAll(w: seq<Contents>, calls: seq<Call>): seq<Contents>
    requires AllOk(w)
    decreases |calls|
  {
    if calls == [] then w
    else
      PerformedOk(w, calls[0]);
      PerformAll(Performed(w, calls[0]), calls[1..])
  }

  lemma PerformedOk(w: seq<Contents>, c: Call)
    requires AllOk(w)
    ensures AllOk(Performed(w, c))
    ensures forall x :: WorldTotal(Performed(w, c), x) == WorldTotal(w, x)
  {
    hide AllOk, WorldTotal, Transfer;
    if c.i < |w| && c.j < |w| && 1 <= c.from <= w[c.i].size && 0 <= c.to <= w[c.j].size {
      TransferConserves(w, c.i, c.from, c.limit, c.j, c.to);
    }
  }

  /** Any run of transfers among any chests keeps every kind's number of items. */
  lemma {:induction false} RunConserves(w: seq<Contents>, calls: seq<Call>, x: string)
    requires AllOk(w)
    ensures AllOk(PerformAll(w, calls)) && WorldTotal(PerformAll(w, calls), x) == WorldTotal(w, x)
    decreases |calls|
  {
    hide AllOk, WorldTotal, Performed;
    if calls != [] {
      PerformedOk(w, calls[0]);
      RunConserves(Performed(w, calls[0]), calls[1..], x);
    }
  }

  // ---------------------------------------------------------------- the peripheral

  datatype Reply = BadSlot(argument: nat) | Count(n: nat)

  class Chest {
    const double: bool
    const items: array<Slot>

    constructor (isDouble: bool)
      ensures Valid() && double == isDouble && fresh(items) && Size() == if isDouble then 54 else 27
      ensures forall k :: 0 <= k < 54 ==> items[k] == EMPTY
    {
      double := isDouble;
      items := new Slot[54](_ => EMPTY);
    }

    function Size(): (n: nat)
      ensures n <= 54
    {
      if double then 54 else 27
    }

    ghost function Now(): Contents
      reads items
    {
      Contents(Size(), items[..])
    }

    ghost predicate Valid()
      reads items
    {
      items.Length == 54 && Ok(Now())
    }

    /** The slot an item goes to. */
    method FindSlot(name: string, slot: int) returns (s: int)
      requires Valid()
      ensures s == Target(Now(), name, slot)
    {
      s := slot;
      if slot == 0 {
        s := 1;
        while s <= Size() && items[s - 1].count > 0 && items[s - 1].name != name
          invariant 1 <= s <= Size() + 1
          invariant Seek(Now(), name, s) == Seek(Now(), name, 1)
        {
          s := s + 1;
        }
      }
    }

    /** Adds items of a kind to a slot, or where the search stops. */
    method AddItems(name: string, slot: int, count: int) returns (d: Byte)
      requires Valid()
      modifies items
      ensures Adds(old(Now()), name, Target(old(Now()), name, slot), count, d, Now())
      ensures Valid() <==> Keeps(old(Now()), name, Target(old(Now()), name, slot), count)
      ensures count >= 0 ==>
                d == Fits(old(Now()), name, Target(old(Now()), name, slot), count) &&
                Now() == Put(old(Now()), name, Target(old(Now()), name, slot), d)
    {
      hide Target;
      ghost var before := Now();
      var s := FindSlot(name, slot);
      if s < 1 || s > Size() || (items[s - 1].name != name && items[s - 1].name != "") {
        return 0;
      }
      var c := items[s - 1].count;
      d := (Min(c + count, 64) - c) % 256;
      ChangeIs(c, count);
      if d > 0 {
        items[s - 1] := items[s - 1].(name := name);
      }
      items[s - 1] := items[s - 1].(count := (c + d) % 256);
      KeepsIff(before, name, s, count, d, Now());
      if count >= 0 {
        AddsFits(before, name, s, count, d);
      }
    }

    /** The program reaches slot 0 only past the guard of its one caller. */
    method RemoveItems(slot: int, count: int) returns (n: nat)
      requires Valid() && slot != 0
      modifies items
      ensures Valid()
      ensures n == if 1 <= slot <= Size() && count > 0 then Min(count, old(Now()).items[slot - 1].count) else 0
      ensures Now() == if n > 0 then Take(old(Now()), slot, n) else old(Now())
    {
      if slot < 0 || slot > Size() || count <= 0 {
        return 0;
      }
      n := Min(count, items[slot - 1].count);
      TakeOk(Now(), slot, n);
      TakeNone(Now(), slot);
      items[slot - 1] := items[slot - 1].(count := items[slot - 1].count - n);
      if items[slot - 1].count == 0 {
        items[slot - 1] := items[slot - 1].(name := "");
      }
    }

    /** Items from nowhere. */
    method SetItem(slot: int, name: string, count: int) returns (d: Byte)
      requires Valid()
      modifies items
      ensures Adds(old(Now()), name, Target(old(Now()), name, slot), count, d, Now())
      ensures Valid() <==> Keeps(old(Now()), name, Target(old(Now()), name, slot), count)
      ensures count >= 0 ==> d <= count
      ensures count >= 0 ==>
                forall x :: Total(Now().items, x) == Total(old(Now()).items, x) + if x == name then d else 0
    {
      hide Total, Put, Target, Adds, Keeps;
      ghost var before := Now();
      d := AddItems(name, slot, count);
      if count >= 0 {
        FitsItself(before, name, Target(before, name, slot), count);
        PutOk(before, name, Target(before, name, slot), d);
      }
    }

    /** What a slot holds, if anything. */
    method GetItemDetail(slot: int) returns (r: Option<Slot>)
      requires Valid()
      ensures r == if 1 <= slot <= Size() && items[slot - 1].name != "" then Some(items[slot - 1]) else None
    {
      if slot < 1 || slot > Size() || items[slot - 1].count == 0 {
        return None;
      }
      r := Some(items[slot - 1]);
    }
  }

  ghost function World(src: Chest, dest: Chest): seq<Contents>
    reads src.items, dest.items
  {
    if src == dest then [src.Now()] else [src.Now(), dest.Now()]
  }

  /** The one or two chests that a transfer is about. */
  function Pair(w: seq<Contents>, i: nat, j: nat): seq<Contents>
    requires i < |w| && j < |w|
  {
    if i == j then [w[i]] else [w[i], w[j]]
  }

  /** A transfer among any number of chests is the transfer between its two; no other chest
      plays a part. */
  lemma TransferIsLocal(w: seq<Contents>, i: nat, from: int, limit: int, j: nat, to: int)
    requires AllOk(w) && i < |w| && j < |w| && 1 <= from <= w[i].size
    ensures AllOk(Pair(w, i, j))
    ensures var r := Transfer(w, i, from, limit, j, to);
            var t := Transfer(Pair(w, i, j), 0, from, limit, if i == j then 0 else 1, to);
            r.n == t.n && |r.world| == |w| && Pair(r.world, i, j) == t.world
            && forall k :: 0 <= k < |w| && k != i && k != j ==> r.world[k] == w[k]
  {
    hide Target, Take, Put, Fits;
    var s, v := w[i].items[from - 1], Pair(w, i, j);
    if limit > 0 && s.count > 0 {
      var n, jj := Min(limit, s.count), if i == j then 0 else 1;
      TakeOk(w[i], from, n);
      var w1, v1 := w[i := Take(w[i], from, n)], v[0 := Take(v[0], from, n)];
      assert v1[jj] == w1[j];
      var slot := Target(w1[j], s.name, to);
      var added := Fits(w1[j], s.name, slot, n);
      FitsItself(w1[j], s.name, slot, n);
      PutOk(w1[j], s.name, slot, added);
      var w2, v2 := w1[j := Put(w1[j], s.name, slot, added)], v1[jj := Put(v1[jj], s.name, slot, added)];
      assert v2[0] == w2[i];
    }
  }

  lemma TransferNothing(w: seq<Contents>, i: nat, from: int, limit: int, j: nat, to: int)
    requires AllOk(w) && i < |w| && j < |w| && 1 <= from <= w[i].size
    requires limit <= 0 || w[i].items[from - 1].count == 0
    ensures Transfer(w, i, from, limit, j, to) == Moved(w, 0)
  {
  }

  lemma TargetNamed(c: Contents, name: string, slot: int)
    requires c.size <= |c.items| && slot != 0
    ensures Target(c, name, slot) == slot
  {
  }

  /** A transfer from the states its steps lead through. */
  lemma TransferSteps(w: seq<Contents>, i: nat, from: int, limit: int, j: nat, to: int, n: nat, added: nat,
                      w1: seq<Contents>, w2: seq<Contents>, w3: seq<Contents>)
    requires AllOk(w) && i < |w| && j < |w| && 1 <= from <= w[i].size && limit > 0
    requires 0 < n == Min(limit, w[i].items[from - 1].count) && w1 == w[i := Take(w[i], from, n)] && AllOk(w1)
    requires var name := w[i].items[from - 1].name;
             var slot := Target(w1[j], name, to);
             added == Fits(w1[j], name, slot, n) && w2 == w1[j := Put(w1[j], name, slot, added)] && AllOk(w2) &&
             w3 == if added == n then w2 else w2[i := Put(w2[i], name, from, Fits(w2[i], name, from, n - added))]
    ensures Transfer(w, i, from, limit, j, to) == Moved(w3, added)
  {
    hide Take, Put, Fits, Target;
  }

  /** The shared branch of pushItems and pullItems. */
  method MoveItems(src: Chest, dest: Chest, from: int, limit: int, to: Option<int>) returns (r: Reply)
    requires src.Valid() && dest.Valid() && (src != dest ==> src.items != dest.items)
    modifies src.items, dest.items
    ensures src.Valid() && dest.Valid()
    ensures !(1 <= from <= src.Size()) ==> r == BadSlot(2)
    ensures 1 <= from <= src.Size() && to.Some? && !(1 <= to.value <= dest.Size()) ==> r == BadSlot(4)
    ensures r.Count? <==> 1 <= from <= src.Size() && (to.None? || 1 <= to.value <= dest.Size())
    ensures r.BadSlot? ==> src.Now() == old(src.Now()) && dest.Now() == old(dest.Now())
    ensures r.Count? ==>
              1 <= from <= src.Size() && AllOk(old(World(src, dest))) &&
              var j := if src == dest then 0 else 1;
              var t := Transfer(old(World(src, dest)), 0, from, limit, j, if to.Some? then to.value else 0);
              r.n == t.n && World(src, dest) == t.world
  {
    hide Take, Put, Fits, Target, Transfer, Adds, Keeps;
    if from < 1 || from > src.Size() {
      return BadSlot(2);
    }
    if to.Some? && (to.value < 1 || to.value > dest.Size()) {
      return BadSlot(4);
    }
    ghost var w, j := World(src, dest), if src == dest then 0 else 1;
    ghost var slot := if to.Some? then to.value else 0;
    if limit <= 0 {
      TransferNothing(w, 0, from, limit, j, slot);
      return Count(0);
    }
    var item := src.GetItemDetail(from);
    var removed := src.RemoveItems(from, limit);
    if removed == 0 {
      TransferNothing(w, 0, from, limit, j, slot);
      return Count(0);
    }
    ghost var w1 := World(src, dest);
    assert w1 == w[0 := Take(w[0], from, removed)];
    NamedKeep(w1[j], item.value.name, Target(w1[j], item.value.name, slot), removed);
    var added := dest.AddItems(item.value.name, if to.Some? then to.value else 0, removed);
    ghost var w2 := World(src, dest);
    assert w2 == w1[j := Put(w1[j], item.value.name, Target(w1[j], item.value.name, slot), added)];
    if added < removed {
      TargetNamed(src.Now(), item.value.name, from);
      NamedKeep(src.Now(), item.value.name, from, removed - added);
      var back := src.AddItems(item.value.name, from, removed - added);
      assert World(src, dest) == w2[0 := Put(w2[0], item.value.name, from, back)];
    }
    TransferSteps(w, 0, from, limit, j, slot, removed, added, w1, w2, World(src, dest));
    r := Count(added);
  }
}
