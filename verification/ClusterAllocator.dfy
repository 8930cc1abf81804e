/** The cluster allocator: a list of clusters of 4096 slots, with a hint to the first
    cluster that may have room. Clusters that become empty are unlinked, except the last. */
module ClusterAllocator {
  import opened Arithmetic
  import opened Bitmap

  class Cluster {
    var next: Cluster?
    const id: nat
    const base: nat   // the address of its slots
    var bitmap: seq<bv32>

    constructor (id: nat, base: nat)
      ensures this.id == id && this.base == base && next == null && Blank()
    {
      this.id, this.base := id, base;
      next := null;
      bitmap := seq(BITMAP_SIZE, _ => 0);
    }

    ghost predicate Blank()
      reads this
    {
      |bitmap| == BITMAP_SIZE && Empty(bitmap)
    }
  }

  /** The size of the word in front of every slot, which holds the owning cluster. */
  const HEADER := 8

  /** Where `alloc` points for a slot of a cluster, given the element size with its header word. */
  function SlotOffset(slot: nat, elemSize: nat): nat
  {
    slot * elemSize + HEADER
  }

  /** The division in `free` recovers the slot exactly when elements are not empty. */
  lemma OffsetRecoversSlot(slot: nat, elemSize: nat)
    requires elemSize >= HEADER
    ensures elemSize > HEADER <==> SlotOffset(slot, elemSize) / elemSize == slot
  {
    if elemSize > HEADER {
      Quotient(SlotOffset(slot, elemSize), elemSize);
      assert (slot + 1) * elemSize == slot * elemSize + elemSize;
      LessFactor(slot, SlotOffset(slot, elemSize) / elemSize + 1, elemSize);
      LessFactor(SlotOffset(slot, elemSize) / elemSize, slot + 1, elemSize);
    }
  }

  /** The payload of a slot ends before the header word of any later slot begins. */
  lemma SlotsApart(slot: nat, later: nat, elemSize: nat)
    requires slot < later && elemSize > HEADER
    ensures SlotOffset(slot, elemSize) + (elemSize - HEADER) <= SlotOffset(later, elemSize) - HEADER
  {
    MulMonotonic(slot + 1, later, elemSize);
    assert (slot + 1) * elemSize == slot * elemSize + elemSize;
  }

  /** One slot of one cluster. */
  datatype Slot = Slot(owner: Cluster, index: nat)

  // ---------------------------------------------------------------- header words

  function AddressOf(x: Slot, elemSize: nat): nat
  {
    x.owner.base + SlotOffset(x.index, elemSize)
  }

  function HeaderAt(base: nat, i: nat, elemSize: nat): nat
  {
    base + i * elemSize
  }

  /** The first `n` slots of a cluster have it in their header words. */
  ghost predicate Headed(words: map<nat, Cluster>, cluster: Cluster, elemSize: nat, n: nat)
  {
    forall i :: 0 <= i < n ==>
      HeaderAt(cluster.base, i, elemSize) in words && words[HeaderAt(cluster.base, i, elemSize)] == cluster
  }

  /** Two stretches of `size` bytes that do not meet. */
  predicate Disjoint(a: nat, b: nat, size: nat) { a + size <= b || b + size <= a }

  function Span(elemSize: nat): nat { CLUSTER_SIZE * elemSize }

  /** Is there room for one more cluster at this address? */
  ghost predicate RoomAt(spine: seq<Cluster>, room: nat, elemSize: nat)
  {
    forall k :: 0 <= k < |spine| ==> Disjoint(spine[k].base, room, Span(elemSize))
  }

  /** The clusters lie apart, and every slot has its cluster in its header word. */
  ghost predicate StoredAt(words: map<nat, Cluster>, spine: seq<Cluster>, elemSize: nat)
  {
    && (forall k :: 0 <= k < |spine| ==> Headed(words, spine[k], elemSize, CLUSTER_SIZE))
    && (forall j, k :: 0 <= j < k < |spine| ==> Disjoint(spine[j].base, spine[k].base, Span(elemSize)))
  }

  lemma HeaderInside(base: nat, i: nat, elemSize: nat)
    requires i < CLUSTER_SIZE && elemSize > 0
    ensures base <= HeaderAt(base, i, elemSize) < base + Span(elemSize)
    ensures forall j :: 0 <= j < i ==> HeaderAt(base, j, elemSize) != HeaderAt(base, i, elemSize)
  {
    assert (i + 1) * elemSize == i * elemSize + elemSize;
    MulMonotonic(i + 1, CLUSTER_SIZE, elemSize);
    forall j | 0 <= j < i
      ensures HeaderAt(base, j, elemSize) < HeaderAt(base, i, elemSize)
    {
      MulMonotonic(j + 1, i, elemSize);
      assert (j + 1) * elemSize == j * elemSize + elemSize;
    }
  }

  /** The header words after those of a new cluster were written. */
  ghost predicate WroteOnly(before: map<nat, Cluster>, words: map<nat, Cluster>, room: nat, elemSize: nat)
  {
    forall a :: a in before && !(room <= a < room + Span(elemSize)) ==> a in words && words[a] == before[a]
  }

  lemma HeadedFrame(before: map<nat, Cluster>, words: map<nat, Cluster>, cluster: Cluster, room: nat, elemSize: nat)
    requires Headed(before, cluster, elemSize, CLUSTER_SIZE) && elemSize > 0
    requires WroteOnly(before, words, room, elemSize) && Disjoint(cluster.base, room, Span(elemSize))
    ensures Headed(words, cluster, elemSize, CLUSTER_SIZE)
  {
    forall i | 0 <= i < CLUSTER_SIZE
      ensures var a := HeaderAt(cluster.base, i, elemSize); a in words && words[a] == cluster
    {
      HeaderInside(cluster.base, i, elemSize);
    }
  }

  lemma StoredGrows(before: map<nat, Cluster>, words: map<nat, Cluster>, spine: seq<Cluster>, next: Cluster,
                    elemSize: nat)
    requires StoredAt(before, spine, elemSize) && elemSize > 0 && RoomAt(spine, next.base, elemSize)
    requires WroteOnly(before, words, next.base, elemSize) && Headed(words, next, elemSize, CLUSTER_SIZE)
    ensures StoredAt(words, spine + [next], elemSize)
  {
    hide Headed, WroteOnly, Disjoint;
    forall k | 0 <= k < |spine|
      ensures Headed(words, spine[k], elemSize, CLUSTER_SIZE)
    {
      HeadedFrame(before, words, spine[k], next.base, elemSize);
    }
  }

  lemma StoredWithout(words: map<nat, Cluster>, spine: seq<Cluster>, elemSize: nat, k: nat)
    requires StoredAt(words, spine, elemSize) && k < |spine|
    ensures StoredAt(words, spine[..k] + spine[k + 1..], elemSize)
  {
    hide Headed, Disjoint;
    var shorter := spine[..k] + spine[k + 1..];
    assert forall m :: 0 <= m < |shorter| ==> shorter[m] == spine[if m < k then m else m + 1];
  }

  /** The header word in front of the address of a slot names its cluster. */
  lemma OwnerFound(words: map<nat, Cluster>, spine: seq<Cluster>, elemSize: nat, x: Slot)
    requires StoredAt(words, spine, elemSize) && x.owner in spine && x.index < CLUSTER_SIZE
    ensures AddressOf(x, elemSize) >= HEADER && AddressOf(x, elemSize) - HEADER in words
    ensures words[AddressOf(x, elemSize) - HEADER] == x.owner
  {
    var k :| 0 <= k < |spine| && spine[k] == x.owner;
    assert Headed(words, spine[k], elemSize, CLUSTER_SIZE);
    assert HeaderAt(x.owner.base, x.index, elemSize) == AddressOf(x, elemSize) - HEADER;
  }

  lemma SpansApart(words: map<nat, Cluster>, spine: seq<Cluster>, elemSize: nat, a: Cluster, b: Cluster)
    requires StoredAt(words, spine, elemSize) && a in spine && b in spine && a != b
    ensures Disjoint(a.base, b.base, Span(elemSize))
  {
    hide Headed, Span, HeaderAt;
    var j :| 0 <= j < |spine| && spine[j] == a;
    var k :| 0 <= k < |spine| && spine[k] == b;
    assert Disjoint(spine[if j < k then j else k].base, spine[if j < k then k else j].base, Span(elemSize));
  }

  /** Different slots share no byte, header words included. */
  lemma PayloadsApart(words: map<nat, Cluster>, spine: seq<Cluster>, elemSize: nat, x: Slot, y: Slot)
    requires StoredAt(words, spine, elemSize) && elemSize > HEADER && x != y
    requires x.owner in spine && y.owner in spine && x.index < CLUSTER_SIZE && y.index < CLUSTER_SIZE
    ensures AddressOf(x, elemSize) >= HEADER && AddressOf(y, elemSize) >= HEADER
    ensures Disjoint(AddressOf(x, elemSize) - HEADER, AddressOf(y, elemSize) - HEADER, elemSize)
  {
    hide StoredAt, Span;
    SlotInside(x, elemSize);
    SlotInside(y, elemSize);
    if x.owner != y.owner {
      hide SlotOffset;
      SpansApart(words, spine, elemSize, x.owner, y.owner);
    } else if x.index < y.index {
      SlotsApart(x.index, y.index, elemSize);
    } else {
      SlotsApart(y.index, x.index, elemSize);
    }
  }

  lemma SlotInside(x: Slot, elemSize: nat)
    requires x.index < CLUSTER_SIZE
    ensures x.owner.base + HEADER <= AddressOf(x, elemSize)
    ensures AddressOf(x, elemSize) - HEADER + elemSize <= x.owner.base + Span(elemSize)
  {
    assert (x.index + 1) * elemSize == x.index * elemSize + elemSize;
    MulMonotonic(x.index + 1, CLUSTER_SIZE, elemSize);
  }

  // ---------------------------------------------------------------- live slots

  ghost predicate Distinct(spine: seq<Cluster>)
  {
    forall j, k :: 0 <= j < k < |spine| ==> spine[j] != spine[k]
  }

  ghost predicate Sized(maps: seq<seq<bv32>>)
  {
    forall k :: 0 <= k < |maps| ==> |maps[k]| == BITMAP_SIZE
  }

  /** The slots in use, given the clusters of the list and their bitmaps. */
  ghost function LiveOf(spine: seq<Cluster>, maps: seq<seq<bv32>>): set<Slot>
    requires |spine| == |maps| && Sized(maps)
  {
    set k, i | 0 <= k < |spine| && 0 <= i < CLUSTER_SIZE && Used(maps[k], i) :: Slot(spine[k], i)
  }

  lemma LiveAt(spine: seq<Cluster>, maps: seq<seq<bv32>>, k: nat, i: nat)
    requires |spine| == |maps| && Sized(maps) && Distinct(spine) && k < |spine| && i < CLUSTER_SIZE
    ensures Slot(spine[k], i) in LiveOf(spine, maps) <==> Used(maps[k], i)
  {
    hide Used;
  }

  lemma LiveOrigin(spine: seq<Cluster>, maps: seq<seq<bv32>>, x: Slot) returns (k: nat, i: nat)
    requires |spine| == |maps| && Sized(maps) && x in LiveOf(spine, maps)
    ensures k < |spine| && i < CLUSTER_SIZE && x == Slot(spine[k], i) && Used(maps[k], i)
  {
    hide Used;
    k, i :| 0 <= k < |spine| && 0 <= i < CLUSTER_SIZE && Used(maps[k], i) && x == Slot(spine[k], i);
  }

  lemma DeadCluster(spine: seq<Cluster>, maps: seq<seq<bv32>>, k: nat)
    requires |spine| == |maps| && Sized(maps) && Distinct(spine) && k < |spine|
    ensures (forall y :: y in LiveOf(spine, maps) ==> y.owner != spine[k]) <==>
            forall i :: 0 <= i < CLUSTER_SIZE ==> !Used(maps[k], i)
  {
    hide Used;
    if i :| 0 <= i < CLUSTER_SIZE && Used(maps[k], i) {
      assert Slot(spine[k], i) in LiveOf(spine, maps);
    }
  }

  /** Changing one bit of one cluster changes one slot. */
  lemma LiveAfterTake(spine: seq<Cluster>, maps: seq<seq<bv32>>, k: nat, i: nat, j: bv32)
    requires |spine| == |maps| && Sized(maps) && Distinct(spine) && k < |spine| && i < BITMAP_SIZE && j < 32
    ensures 0 <= j as int < UNIT && Sized(maps[k := Take(maps[k], i, j)]) && Sized(maps[k := Release(maps[k], i, j)])
    ensures var x := Slot(spine[k], i * UNIT + j as int);
            && LiveOf(spine, maps[k := Take(maps[k], i, j)]) == LiveOf(spine, maps) + {x}
            && LiveOf(spine, maps[k := Release(maps[k], i, j)]) == LiveOf(spine, maps) - {x}
  {
    hide Used, Take, Release;
    forall s | 0 <= s < CLUSTER_SIZE
      ensures 0 <= j as int < UNIT
      ensures Used(Take(maps[k], i, j), s) <==> Used(maps[k], s) || s == i * UNIT + j as int
      ensures Used(Release(maps[k], i, j), s) <==> Used(maps[k], s) && s != i * UNIT + j as int
    {
      TakeSlot(maps[k], i, j, s);
    }
    SlotOf(maps[k], i, j);
  }

  /** A cluster without used slots adds and removes nothing. */
  lemma LiveWithoutEmpty(spine: seq<Cluster>, maps: seq<seq<bv32>>, k: nat)
    requires |spine| == |maps| && Sized(maps) && k < |spine| && Empty(maps[k])
    ensures Sized(maps[..k] + maps[k + 1..])
    ensures LiveOf(spine[..k] + spine[k + 1..], maps[..k] + maps[k + 1..]) == LiveOf(spine, maps)
  {
    hide Used;
    EmptyMeansUnused(maps[k]);
    var shorter, kept := spine[..k] + spine[k + 1..], maps[..k] + maps[k + 1..];
    forall m | 0 <= m < |spine| && m != k
      ensures var m' := if m < k then m else m - 1; shorter[m'] == spine[m] && kept[m'] == maps[m]
    {
    }
    forall x | x in LiveOf(spine, maps)
      ensures x in LiveOf(shorter, kept)
    {
      var m, i :| 0 <= m < |spine| && 0 <= i < CLUSTER_SIZE && Used(maps[m], i) && x == Slot(spine[m], i);
      var m' := if m < k then m else m - 1;
      assert kept[m'] == maps[m] && shorter[m'] == spine[m];
    }
  }

  ghost function MapsOf(spine: seq<Cluster>): (maps: seq<seq<bv32>>)
    reads spine`bitmap
    ensures |maps| == |spine| && forall k :: 0 <= k < |spine| ==> maps[k] == spine[k].bitmap
  {
    if spine == [] then [] else MapsOf(spine[..|spine| - 1]) + [spine[|spine| - 1].bitmap]
  }

  ghost function NextsOf(spine: seq<Cluster>): (nexts: seq<Cluster?>)
    reads spine`next
    ensures |nexts| == |spine| && forall k :: 0 <= k < |spine| ==> nexts[k] == spine[k].next
  {
    if spine == [] then [] else NextsOf(spine[..|spine| - 1]) + [spine[|spine| - 1].next]
  }

  /** `spine` is the list that starts at `head`, given the next fields of its clusters. */
  ghost predicate Chain(head: Cluster, spine: seq<Cluster>, nexts: seq<Cluster?>)
  {
    && |spine| == |nexts| > 0 && head == spine[0] && nexts[|spine| - 1] == null
    && (forall k {:trigger nexts[k]} :: 0 <= k < |spine| - 1 ==> nexts[k] == spine[k + 1])
    && (forall j, k :: 0 <= j < k < |spine| ==> spine[j].id < spine[k].id)
  }

  /** Linking around a cluster that is not the last gives the list without it. */
  function WithoutAt<T>(s: seq<T>, k: nat): seq<T>
    requires k < |s|
  {
    s[..k] + s[k + 1..]
  }

  /** The links of a list once cluster `k`, not the last one, is bypassed. */
  function Bypassed(spine: seq<Cluster>, nexts: seq<Cluster?>, k: nat): seq<Cluster?>
    requires |nexts| == |spine| && k + 1 < |spine|
  {
    WithoutAt(if k == 0 then nexts else nexts[k - 1 := spine[k + 1]], k)
  }

  lemma BypassedIs(spine: seq<Cluster>, nexts: seq<Cluster?>, k: nat)
    requires |nexts| == |spine| && k + 1 < |spine|
    ensures Bypassed(spine, nexts, k) == if k == 0 then nexts[1..] else nexts[..k - 1] + [spine[k + 1]] + nexts[k + 1..]
  {
  }

  lemma ChainBypassed(head: Cluster, spine: seq<Cluster>, nexts: seq<Cluster?>, k: nat)
    requires Chain(head, spine, nexts) && k + 1 < |spine|
    ensures |nexts| == |spine|
    ensures Chain(if k == 0 then spine[1] else head, WithoutAt(spine, k), Bypassed(spine, nexts, k))
  {
    ChainLength(head, spine, nexts);
    hide Distinct, Chain, Bypassed;
    ChainWithout(head, spine, nexts, k);
    BypassedIs(spine, nexts, k);
  }

  lemma ChainLength(head: Cluster, spine: seq<Cluster>, nexts: seq<Cluster?>)
    requires Chain(head, spine, nexts)
    ensures |nexts| == |spine|
  {
  }

  lemma ChainWithout(head: Cluster, spine: seq<Cluster>, nexts: seq<Cluster?>, k: nat)
    requires Chain(head, spine, nexts) && k + 1 < |spine|
    ensures Distinct(spine)
    ensures var shorter := spine[..k] + spine[k + 1..];
            var bypass := if k == 0 then nexts[1..] else nexts[..k - 1] + [spine[k + 1]] + nexts[k + 1..];
            Chain(if k == 0 then spine[1] else head, shorter, bypass)
  {
    var shorter := spine[..k] + spine[k + 1..];
    var bypass := if k == 0 then nexts[1..] else nexts[..k - 1] + [spine[k + 1]] + nexts[k + 1..];
    SkipOne(spine, k);
    forall m {:trigger bypass[m]} | 0 <= m < |shorter| - 1
      ensures bypass[m] == shorter[m + 1]
    {
      if m + 1 < k {
        assert bypass[m] == nexts[m];
      } else if m + 1 > k {
        assert bypass[m] == nexts[m + 1];
      }
    }
  }

  class ClusterAllocator {
    const elemSize: nat             // with the header word
    var head: Cluster
    var freecluster: Cluster
    var words: map<nat, Cluster>    // the header words in memory, by their address
    ghost var spine: seq<Cluster>   // the list from `head` on
    ghost var hint: nat             // where `freecluster` is in it

    ghost function Maps(): seq<seq<bv32>>
      reads this`spine, spine`bitmap
    {
      MapsOf(spine)
    }

    /** The list: linked in order from `head` to null, ids strictly increasing. */
    ghost predicate Chained()
      reads this`spine, this`head, spine`next
    {
      Chain(head, spine, NextsOf(spine))
    }

    ghost predicate Linked()
      reads this`spine, this`head, spine`next, spine`bitmap
    {
      elemSize > HEADER && Chained() && Sized(Maps())
    }

    /** The hint is in the list and every cluster before it is full. */
    ghost predicate Hinted()
      reads this`spine, this`hint, this`freecluster, spine`bitmap
    {
      hint < |spine| && freecluster == spine[hint] && forall j :: 0 <= j < hint ==> Full(Maps()[j])
    }

    ghost predicate Stored()
      reads this`words, this`spine
    {
      StoredAt(words, spine, elemSize)
    }

    ghost predicate Valid()
      reads this, spine
    {
      Linked() && Hinted() && Stored()
    }

    lemma ListDistinct()
      requires Chained()
      ensures Distinct(spine) && spine != []
    {
      hide NextsOf;
    }

    lemma ListHead()
      requires Chained()
      ensures spine != [] && head == spine[0]
    {
    }

    lemma NextIs(k: nat)
      requires Chained() && k < |spine|
      ensures spine[k].next == if k + 1 < |spine| then spine[k + 1] else null
    {
      assert NextsOf(spine)[k] == spine[k].next;
    }

    lemma MapIs(k: nat)
      requires Linked() && k < |spine|
      ensures Maps()[k] == spine[k].bitmap && |spine[k].bitmap| == BITMAP_SIZE
    {
    }

    ghost function Live(): set<Slot>
      reads this`spine, this`head, spine`next, spine`bitmap
      requires Linked()
    {
      LiveOf(spine, Maps())
    }

    ghost predicate AllFull()
      reads this`spine, spine`bitmap
    {
      forall k :: 0 <= k < |spine| ==> Full(Maps()[k])
    }

    /** `room` is where the first cluster is placed. */
    constructor (elemSize: nat, room: nat)
      requires elemSize > 0
      ensures Valid() && this.elemSize == elemSize + HEADER
      ensures fresh(spine) && |spine| == 1 && Live() == {}
    {
      var cluster := new Cluster(0, room);
      this.elemSize := elemSize + HEADER;
      head := cluster;
      freecluster := cluster;
      spine := [cluster];
      hint := 0;
      words := map[];
      new;
      WriteHeaders(cluster);
      EmptyMeansUnused(cluster.bitmap);
    }

    /** Writes the header words of a new cluster. */
    method WriteHeaders(cluster: Cluster)
      requires elemSize > 0
      modifies this`words
      ensures Headed(words, cluster, elemSize, CLUSTER_SIZE)
      ensures WroteOnly(old(words), words, cluster.base, elemSize)
    {
      hide HeaderAt, Span;
      for i := 0 to CLUSTER_SIZE
        invariant Headed(words, cluster, elemSize, i)
        invariant WroteOnly(old(words), words, cluster.base, elemSize)
      {
        HeaderInside(cluster.base, i, elemSize);
        words := words[HeaderAt(cluster.base, i, elemSize) := cluster];
      }
    }

    /** The first word of a bitmap with a zero bit, or the number of words. */
    method FindWord(cluster: Cluster) returns (i: nat)
      requires |cluster.bitmap| == BITMAP_SIZE
      ensures i <= BITMAP_SIZE && forall w :: 0 <= w < i ==> cluster.bitmap[w] == ONES
      ensures i < BITMAP_SIZE ==> cluster.bitmap[i] != ONES
    {
      i := 0;
      while i < BITMAP_SIZE && cluster.bitmap[i] == ONES
        invariant i <= BITMAP_SIZE && forall w :: 0 <= w < i ==> cluster.bitmap[w] == ONES
      {
        i := i + 1;
      }
    }

    /** Claims the lowest zero bit of word `i`. */
    method Claim(cluster: Cluster, i: nat, ghost k: nat) returns (slot: nat)
      requires Linked() && k < |spine| && cluster == spine[k]
      requires |cluster.bitmap| == BITMAP_SIZE && i < BITMAP_SIZE && cluster.bitmap[i] != ONES
      requires forall w :: 0 <= w < i ==> cluster.bitmap[w] == ONES
      modifies cluster`bitmap
      ensures Linked()
      ensures slot < CLUSTER_SIZE
      ensures Slot(cluster, slot) !in old(Live()) && Live() == old(Live()) + {Slot(cluster, slot)}
      ensures forall s :: 0 <= s < slot ==> Slot(cluster, s) in old(Live())
      ensures Maps() == old(Maps())[k := cluster.bitmap]
    {
      hide LowestZero, Used, Set, Chain, NextsOf, MapsOf;
      ghost var maps := Maps();
      ListDistinct();
      FirstFree(cluster.bitmap, i);
      SlotOf(cluster.bitmap, i, LowestZero(cluster.bitmap[i]));
      var j := LowestZero(cluster.bitmap[i]);
      LiveAfterTake(spine, maps, k, i, j);
      slot := i * UNIT + j as int;
      forall s | 0 <= s <= slot
        ensures Slot(spine[k], s) in LiveOf(spine, maps) <==> Used(maps[k], s)
      {
        LiveAt(spine, maps, k, s);
      }
      cluster.bitmap := cluster.bitmap[i := Set(cluster.bitmap[i], j)];
      assert Maps() == maps[k := Take(maps[k], i, j)];
    }

    /** A new, empty cluster with its header words; not in the list yet. */
    method NewCluster(id: nat, room: nat) returns (cluster: Cluster)
      requires elemSize > 0 && Stored() && RoomAt(spine, room, elemSize)
      modifies this`words
      ensures fresh(cluster) && cluster.id == id && cluster.next == null && cluster.Blank()
      ensures StoredAt(words, spine + [cluster], elemSize)
    {
      hide StoredAt, Headed, WroteOnly, Empty;
      cluster := new Cluster(id, room);
      WriteHeaders(cluster);
      StoredGrows(old(words), words, spine, cluster, elemSize);
    }

    /** Chains a new, empty cluster behind the last one. */
    method Grow(cluster: Cluster, room: nat)
      requires Linked() && cluster == spine[|spine| - 1] && Stored() && RoomAt(spine, room, elemSize)
      modifies this`spine, this`words, cluster`next
      ensures Linked() && Stored() && |spine| == |old(spine)| + 1 && spine[..|old(spine)|] == old(spine)
      ensures fresh(spine[|old(spine)|]) && Maps()[..|old(spine)|] == old(Maps())
      ensures Empty(Maps()[|old(spine)|]) && Live() == old(Live())
    {
      hide Chain, NextsOf, MapsOf, LiveOf, Empty, StoredAt, RoomAt;
      ghost var before, maps, nexts := spine, Maps(), NextsOf(spine);
      var next := NewCluster(cluster.id + 1, room);
      ListDistinct();
      MapIs(|before| - 1);
      ChainGrows(head, before, nexts, next);
      cluster.next := next;
      spine := spine + [next];
      assert spine[..|before|] == before;
      assert NextsOf(before) == nexts[|before| - 1 := next];
      assert NextsOf(spine) == nexts[|before| - 1 := next] + [null];
      assert Maps() == maps + [next.bitmap];
      LiveWithoutEmpty(spine, Maps(), |before|);
      assert spine[..|before|] + spine[|before| + 1..] == before;
      assert Maps()[..|before|] + Maps()[|before| + 1..] == maps;
    }

    /** Walks from the hint to the first cluster with room, or to the last cluster. */
    method FindRoom() returns (cluster: Cluster, i: nat, ghost k: nat)
      requires Valid()
      ensures k < |spine| && cluster == spine[k] && |cluster.bitmap| == BITMAP_SIZE
      ensures i <= BITMAP_SIZE && forall w :: 0 <= w < i ==> cluster.bitmap[w] == ONES
      ensures i < BITMAP_SIZE ==> cluster.bitmap[i] != ONES && !AllFull()
      ensures i == BITMAP_SIZE ==> k == |spine| - 1 && AllFull()
      ensures forall j :: 0 <= j < k ==> Full(Maps()[j])
    {
      hide Full, Chain, NextsOf, MapsOf, LiveOf;
      cluster := freecluster;
      k := hint;
      MapIs(k);
      NextIs(k);
      i := FindWord(cluster);
      while i == BITMAP_SIZE && cluster.next != null
        invariant k < |spine| && cluster == spine[k] && |cluster.bitmap| == BITMAP_SIZE
        invariant i <= BITMAP_SIZE && forall w :: 0 <= w < i ==> cluster.bitmap[w] == ONES
        invariant i < BITMAP_SIZE ==> cluster.bitmap[i] != ONES
        invariant cluster.next == if k + 1 < |spine| then spine[k + 1] else null
        invariant forall j :: 0 <= j < k ==> Full(Maps()[j])
        decreases |spine| - k
      {
        AllOnes(cluster.bitmap);
        MapIs(k);
        cluster := cluster.next;
        k := k + 1;
        MapIs(k);
        NextIs(k);
        i := FindWord(cluster);
      }
      AllOnes(cluster.bitmap);
      MapIs(k);
    }

    /** The first word with room in the first cluster with room, adding a cluster if all
        are full. */
    method EnsureRoom(room: nat) returns (cluster: Cluster, i: nat, ghost k: nat)
      requires Valid() && (AllFull() ==> RoomAt(spine, room, elemSize))
      modifies this`spine, this`words, spine`next
      ensures Linked() && Stored() && k < |spine| && cluster == spine[k] && |cluster.bitmap| == BITMAP_SIZE
      ensures i < BITMAP_SIZE && cluster.bitmap[i] != ONES && forall w :: 0 <= w < i ==> cluster.bitmap[w] == ONES
      ensures forall j :: 0 <= j < k ==> Full(Maps()[j])
      ensures Live() == old(Live())
      ensures if old(AllFull())
              then |spine| == |old(spine)| + 1 && spine[..|old(spine)|] == old(spine) && fresh(cluster)
              else spine == old(spine)
    {
      hide Full, Empty, LiveOf, Hinted, Chain, MapsOf, NextsOf, StoredAt;
      cluster, i, k := FindRoom();
      if i == BITMAP_SIZE {
        ghost var maps := Maps();
        Grow(cluster, room);
        NextIs(k);
        cluster := cluster.next;
        k := k + 1;
        i := 0;
        MapIs(k);
        EmptyHasRoom(cluster.bitmap);
        assert forall j :: 0 <= j < k ==> Maps()[j] == maps[j];
      }
    }

    method PointHint(cluster: Cluster, ghost k: nat)
      requires Linked() && Stored() && k < |spine| && cluster == spine[k]
      requires forall j :: 0 <= j < k ==> Full(Maps()[j])
      modifies this`freecluster, this`hint
      ensures Valid() && Live() == old(Live()) && hint == k
    {
      hide Full, Live, MapsOf, NextsOf, StoredAt, Chain;
      freecluster := cluster;
      hint := k;
    }

    /** Hands out a slot that is not in use: the first free one of the first cluster with
        room. A cluster is added only when all of them are full; `room` is where that one
        would be placed. */
    method Alloc(room: nat) returns (p: nat, ghost x: Slot)
      requires Valid() && (AllFull() ==> RoomAt(spine, room, elemSize))
      modifies this`spine, this`words, this`hint, this`freecluster, spine`next, spine`bitmap
      ensures Valid()
      ensures x !in old(Live()) && Live() == old(Live()) + {x}
      ensures x.index < CLUSTER_SIZE && p == AddressOf(x, elemSize)
      ensures if old(AllFull())
              then |spine| == |old(spine)| + 1 && spine[..|old(spine)|] == old(spine) && fresh(x.owner)
              else spine == old(spine)
      ensures x.owner == spine[hint] && forall s :: 0 <= s < x.index ==> Slot(x.owner, s) in Live()
    {
      hide Full, Empty, Live, Linked, MapsOf, NextsOf, AllFull, SlotOffset, StoredAt, RoomAt, Chain;
      var cluster, i, k := EnsureRoom(room);
      var slot := Claim(cluster, i, k);
      x := Slot(cluster, slot);
      p := cluster.base + SlotOffset(slot, elemSize);
      PointHint(cluster, k);
    }

    /** Gives a slot back. Its cluster leaves the list exactly when none of its slots is in
        use any more and it is not the last cluster. */
    method Free(p: nat, ghost x: Slot)
      requires Valid() && x in Live() && p == AddressOf(x, elemSize)
      modifies this`head, this`spine, this`hint, this`freecluster, spine`next, spine`bitmap
      ensures Valid() && Live() == old(Live()) - {x}
      ensures x.owner in old(spine)
      ensures if x.owner != old(spine)[|old(spine)| - 1] && Empty(x.owner.bitmap)
              then x.owner !in spine &&
                   exists k :: 0 <= k < |old(spine)| && old(spine)[k] == x.owner &&
                               spine == old(spine)[..k] + old(spine)[k + 1..]
              else spine == old(spine)
      ensures Empty(x.owner.bitmap) <==> forall y :: y in Live() ==> y.owner != x.owner
    {
      hide Full, Empty, Live, Chain, MapsOf, NextsOf, SlotOffset, StoredAt;
      ghost var k := Locate(x);
      OwnerFound(words, spine, elemSize, x);
      var cluster := words[p - HEADER];
      OffsetRecoversSlot(x.index, elemSize);
      var idx := (p - cluster.base) / elemSize;
      MapIs(k);
      Unclaim(cluster, idx, k);
      EmptyIffDead(k);
      ReleaseCluster(cluster, k);
    }

    /** A bitmap is all zeros exactly when its cluster owns no live slot. */
    lemma EmptyIffDead(k: nat)
      requires Linked() && k < |spine|
      ensures Empty(spine[k].bitmap) <==> forall y :: y in Live() ==> y.owner != spine[k]
    {
      hide Chain, MapsOf, NextsOf, Used, Empty;
      MapIs(k);
      ListDistinct();
      EmptyMeansUnused(spine[k].bitmap);
      DeadCluster(spine, Maps(), k);
    }

    /** The storage of live slots never overlaps. */
    lemma LiveApart(x: Slot, y: Slot)
      requires Valid() && x in Live() && y in Live() && x != y
      ensures AddressOf(x, elemSize) >= HEADER && AddressOf(y, elemSize) >= HEADER
      ensures Disjoint(AddressOf(x, elemSize) - HEADER, AddressOf(y, elemSize) - HEADER, elemSize)
    {
      hide Live, Chain, MapsOf, NextsOf, StoredAt, Sized;
      var j := Locate(x);
      var k := Locate(y);
      PayloadsApart(words, spine, elemSize, x, y);
    }

    /** Where the cluster of a live slot is in the list. */
    lemma Locate(x: Slot) returns (k: nat)
      requires Linked() && x in Live()
      ensures k < |spine| && spine[k] == x.owner && x.index < CLUSTER_SIZE
    {
      hide Chain, MapsOf, NextsOf, Used;
      var i;
      k, i := LiveOrigin(spine, Maps(), x);
    }

    /** Moves the hint back and unlinks the cluster if it is empty. */
    method ReleaseCluster(cluster: Cluster, ghost k: nat)
      requires Linked() && Stored() && k < |spine| && cluster == spine[k]
      requires hint < |spine| && freecluster == spine[hint] && forall j :: 0 <= j < hint && j != k ==> Full(Maps()[j])
      modifies this`head, this`spine, this`hint, this`freecluster, spine`next
      ensures Valid() && Live() == old(Live())
      ensures if k + 1 < |old(spine)| && Empty(cluster.bitmap)
              then spine == old(spine)[..k] + old(spine)[k + 1..] else spine == old(spine)
    {
      hide Full, Empty, Live, Chain, MapsOf, NextsOf, StoredAt;
      NextIs(k);
      MapIs(k);
      IdOrder(k, hint);
      if cluster.id < freecluster.id {
        freecluster := cluster;
        hint := k;
      }
      var empty, full := Inspect(cluster);
      if empty && cluster.next != null {
        Unlink(cluster, k);
      } else {
        // the program tests the comparison above once more here; it can no longer hold
        assert !(!full && cluster.id < freecluster.id);
      }
    }

    lemma IdOrder(j: nat, k: nat)
      requires Chained() && j < |spine| && k < |spine|
      ensures spine[j].id < spine[k].id <==> j < k
    {
      hide NextsOf;
    }

    /** Clears the bit of a slot. */
    method Unclaim(cluster: Cluster, idx: nat, ghost k: nat)
      requires Linked() && k < |spine| && cluster == spine[k] && |cluster.bitmap| == BITMAP_SIZE && idx < CLUSTER_SIZE
      modifies cluster`bitmap
      ensures Linked() && Maps() == old(Maps())[k := cluster.bitmap]
      ensures Live() == old(Live()) - {Slot(cluster, idx)}
    {
      hide Used, Clear, Shift, Chain, NextsOf, MapsOf;
      ghost var maps := Maps();
      ListDistinct();
      var i, j := idx / UNIT, Shift(idx % UNIT);
      LiveAfterTake(spine, maps, k, i, j);
      cluster.bitmap := cluster.bitmap[i := Clear(cluster.bitmap[i], j)];
      assert Maps() == maps[k := Release(maps[k], i, j)];
    }

    /** Whether all words are zero, and whether all are ones. */
    method Inspect(cluster: Cluster) returns (empty: bool, full: bool)
      requires |cluster.bitmap| == BITMAP_SIZE
      ensures empty == Empty(cluster.bitmap) && full == Full(cluster.bitmap)
    {
      empty := cluster.bitmap[0] == 0;
      full := cluster.bitmap[0] == ONES;
      var i := 1;
      while i < BITMAP_SIZE && (empty || full)
        invariant 1 <= i <= BITMAP_SIZE
        invariant empty == forall w :: 0 <= w < i ==> cluster.bitmap[w] == 0
        invariant full == forall w :: 0 <= w < i ==> cluster.bitmap[w] == ONES
      {
        if cluster.bitmap[i] != 0 {
          empty := false;
        }
        if cluster.bitmap[i] != ONES {
          full := false;
        }
        i := i + 1;
      }
    }

    /** Points the predecessor of `cluster`, or the head, at its successor. */
    method Relink(cluster: Cluster, ghost k: nat)
      requires Linked() && k + 1 < |spine| && cluster == spine[k]
      modifies this`head, spine`next
      ensures head == if k == 0 then spine[1] else old(head)
      ensures NextsOf(spine) == if k == 0 then old(NextsOf(spine)) else old(NextsOf(spine))[k - 1 := spine[k + 1]]
      ensures cluster.next == old(cluster.next)
    {
      hide Sized, MapsOf, NextsOf, Chain;
      ListDistinct();
      NextIs(k);
      ListHead();
      if head != cluster {
        var last := Predecessor(cluster, k);
        last.next := cluster.next;
      } else {
        head := cluster.next;
      }
    }

    /** Links around a cluster that is not the last one. */
    method Bypass(cluster: Cluster, ghost k: nat)
      requires Linked() && k + 1 < |spine| && cluster == spine[k]
      modifies this`head, this`spine, spine`next
      ensures Chained() && spine == WithoutAt(old(spine), k)
      ensures cluster.next == old(cluster.next)
    {
      hide Sized, MapsOf, NextsOf, Chain, Distinct, WithoutAt;
      ghost var before, nexts := spine, NextsOf(spine);
      ghost var shorter := WithoutAt(before, k);
      ChainBypassed(head, before, nexts, k);
      Relink(cluster, k);
      NextsWithout(before, k);
      assert NextsOf(shorter) == Bypassed(before, nexts, k);
      spine := shorter;
    }

    /** Removing an empty cluster from the list removes no used slot. */
    method Drop(cluster: Cluster, ghost k: nat)
      requires Linked() && k + 1 < |spine| && cluster == spine[k] && Empty(cluster.bitmap)
      modifies this`head, this`spine, spine`next
      ensures Linked() && spine == old(spine)[..k] + old(spine)[k + 1..]
      ensures cluster.next == old(cluster.next)
      ensures Maps() == old(Maps())[..k] + old(Maps())[k + 1..] && Live() == old(Live())
    {
      hide Full, Empty, LiveOf, Chained;
      LiveWithoutEmpty(spine, Maps(), k);
      Bypass(cluster, k);
      MapsWithout(old(spine), k);
    }

    /** Takes an empty cluster, not the last one, out of the list. */
    method Unlink(cluster: Cluster, ghost k: nat)
      requires Valid() && k + 1 < |spine| && cluster == spine[k] && Empty(cluster.bitmap) && hint <= k
      modifies this`head, this`spine, this`freecluster, spine`next
      ensures Valid() && spine == old(spine)[..k] + old(spine)[k + 1..]
      ensures Live() == old(Live())
    {
      hide Full, Empty, Live, Chain, MapsOf, NextsOf, StoredAt;
      SameHint(spine, Maps(), k);
      StoredWithout(words, spine, elemSize, k);
      ListDistinct();
      NextIs(k);
      Drop(cluster, k);
      if freecluster == cluster {
        freecluster := cluster.next;
      }
    }

    /** Walks the list to the cluster in front of `cluster`. */
    method Predecessor(cluster: Cluster, ghost k: nat) returns (last: Cluster)
      requires Linked() && 0 < k < |spine| && cluster == spine[k]
      ensures last == spine[k - 1]
    {
      hide Chain, NextsOf, MapsOf;
      ListHead();
      ListDistinct();
      NextIs(0);
      last := head;
      ghost var m := 0;
      while last.next != cluster && last.next != null
        invariant m < k && last == spine[m] && last.next == spine[m + 1]
        decreases k - m
      {
        last := last.next;
        m := m + 1;
        NextIs(m);
      }
    }
  }

  /** The list without position `k`, position by position; it keeps the order of ids. */
  lemma SkipOne(before: seq<Cluster>, k: nat)
    requires k < |before|
    ensures var shorter := before[..k] + before[k + 1..];
            && |shorter| == |before| - 1
            && (forall m :: 0 <= m < |shorter| ==> shorter[m] == before[if m < k then m else m + 1])
            && ((forall i, j :: 0 <= i < j < |before| ==> before[i].id < before[j].id) ==>
                (forall i, j :: 0 <= i < j < |shorter| ==> shorter[i].id < shorter[j].id))
  {
  }

  lemma SameHint(before: seq<Cluster>, maps: seq<seq<bv32>>, k: nat)
    requires k < |before| == |maps|
    ensures forall m :: 0 <= m < k ==> (maps[..k] + maps[k + 1..])[m] == maps[m]
    ensures forall m :: 0 <= m < k ==> (before[..k] + before[k + 1..])[m] == before[m]
    ensures k + 1 < |before| ==> (before[..k] + before[k + 1..])[k] == before[k + 1]
  {
  }

  lemma ChainGrows(head: Cluster, spine: seq<Cluster>, nexts: seq<Cluster?>, next: Cluster)
    requires Chain(head, spine, nexts) && next.id == spine[|spine| - 1].id + 1
    ensures Chain(head, spine + [next], nexts[|spine| - 1 := next] + [null])
  {
  }

  lemma NextsWithout(spine: seq<Cluster>, k: nat)
    requires k < |spine|
    ensures NextsOf(WithoutAt(spine, k)) == WithoutAt(NextsOf(spine), k)
  {
    hide NextsOf;
    var shorter := WithoutAt(spine, k);
    forall m | 0 <= m < |shorter|
      ensures NextsOf(shorter)[m] == WithoutAt(NextsOf(spine), k)[m]
    {
      assert shorter[m] == spine[if m < k then m else m + 1];
    }
  }

  lemma MapsWithout(spine: seq<Cluster>, k: nat)
    requires k < |spine|
    ensures MapsOf(spine[..k] + spine[k + 1..]) == MapsOf(spine)[..k] + MapsOf(spine)[k + 1..]
  {
    hide MapsOf;
    var shorter := spine[..k] + spine[k + 1..];
    forall m | 0 <= m < |shorter|
      ensures MapsOf(shorter)[m] == (MapsOf(spine)[..k] + MapsOf(spine)[k + 1..])[m]
    {
      assert shorter[m] == spine[if m < k then m else m + 1];
    }
  }

  lemma AllOnes(bitmap: seq<bv32>)
    ensures Full(bitmap) <==> forall w :: 0 <= w < |bitmap| ==> bitmap[w] == ONES
  {
  }

  lemma EmptyHasRoom(bitmap: seq<bv32>)
    requires Empty(bitmap) && |bitmap| == BITMAP_SIZE
    ensures bitmap[0] != ONES
  {
  }
}
