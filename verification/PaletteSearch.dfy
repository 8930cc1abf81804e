/** Nearest-colour search in the k-d tree of a palette, with pruning. */
module PaletteSearch {
  import opened Bits
  import opened Colours

  /** A wanted colour; error diffusion may ask for channels outside a byte. */
  datatype Wanted = Wanted(r: int, g: int, b: int)

  datatype Best = Best(ind: nat, diff: int)

  function Component(w: Wanted, axis: Axis): int
  {
    if axis == 0 then w.r else if axis == 1 then w.g else w.b
  }

  function Abs(i: int): nat { if i < 0 then -i else i }

  function Distance(w: Wanted, c: Rgb): nat
  {
    Abs(w.r - c.r) + Abs(w.g - c.g) + Abs(w.b - c.b)
  }

  /** A distance is the sum of what the three channels differ by. */
  lemma DistanceIs(w: Wanted, c: Rgb, d: int)
    ensures Distance(w, Rgb(c.r, c.g, c.b)) ==
            Distance(Wanted(w.r, c.g, c.b), c) + Distance(Wanted(c.r, w.g, c.b), c) + Distance(Wanted(c.r, c.g, w.b), c)
    ensures d >= 0 ==>
              && Distance(Wanted(c.r + d, c.g, c.b), c) == Distance(Wanted(c.r - d, c.g, c.b), c) == d
              && Distance(Wanted(c.r, c.g + d, c.b), c) == Distance(Wanted(c.r, c.g - d, c.b), c) == d
              && Distance(Wanted(c.r, c.g, c.b + d), c) == Distance(Wanted(c.r, c.g, c.b - d), c) == d
  {
  }

  /** The search below node `root`: the child on the wanted colour's side first, the other
      one only if the splitting plane is nearer than the best colour so far. */
  function Closest(p: Palette, w: Wanted, best: Best, root: nat): Best
    requires WellFormed(p) && 0 < root < 2 * Pow2(p.depth)
    decreases 2 * Pow2(p.depth) - root
  {
    TableBound(p.depth);
    if root > Pow2(p.depth) - 1 then
      var ind := root - Pow2(p.depth);
      if ind == TRANSPARENT then best
      else
        var diff := Distance(w, p.colours[ind]);
        if diff < best.diff then Best(ind, diff) else best
    else
      var splitComp := Component(w, p.splitElt[root]);
      var splitPos := p.split[root];
      if splitPos > splitComp then
        var left := Closest(p, w, best, root * 2);
        if left.diff > splitPos - splitComp then Closest(p, w, left, root * 2 + 1) else left
      else
        var right := Closest(p, w, best, root * 2 + 1);
        if right.diff > splitComp - splitPos then Closest(p, w, right, root * 2) else right
  }

  lemma TableBound(depth: nat)
    requires 2 <= depth <= 8
    ensures 4 <= Pow2(depth) <= 256
  {
    Pow2Monotonic(2, depth);
    Pow2Monotonic(depth, 8);
    Pow2Eight();
  }

  /** Node `node` stands for the leaves `lo .. lo + 2^k`. */
  ghost predicate Covers(depth: nat, node: nat, lo: nat, k: nat)
  {
    k <= depth && node * Pow2(k) == Pow2(depth) + lo && lo + Pow2(k) <= Pow2(depth)
  }

  lemma Doubled(n: nat, m: nat)
    requires m >= 2
    ensures n * m >= 2 * n
  {
  }

  lemma CoversChildren(depth: nat, node: nat, lo: nat, k: nat)
    requires Covers(depth, node, lo, k)
    ensures 0 < node && (k == 0 ==> Pow2(k) == 1) && (k > 0 ==> Pow2(k) == 2 * Pow2(k - 1))
    ensures k == 0 <==> node >= Pow2(depth)
    ensures k == 0 ==> node == Pow2(depth) + lo
    ensures k > 0 ==> Covers(depth, 2 * node, lo, k - 1)
    ensures k > 0 ==> Covers(depth, 2 * node + 1, lo + Pow2(k - 1), k - 1)
  {
    if k > 0 {
      var half := Pow2(k - 1);
      assert 2 * node * half == node * Pow2(k);
      assert (2 * node + 1) * half == node * Pow2(k) + half;
      Doubled(node, Pow2(k));
    }
  }

  /** The root stands for all leaves. */
  lemma CoversRoot(depth: nat)
    ensures Covers(depth, 1, 0, depth)
  {
  }

  ghost predicate AtMost(colours: seq<Rgb>, lo: nat, hi: nat, axis: Axis, v: int)
    requires hi <= |colours|
  {
    forall i :: lo <= i < hi && i != TRANSPARENT ==> Channel(colours[i], axis) <= v
  }

  ghost predicate AtLeast(colours: seq<Rgb>, lo: nat, hi: nat, axis: Axis, v: int)
    requires hi <= |colours|
  {
    forall i :: lo <= i < hi && i != TRANSPARENT ==> Channel(colours[i], axis) >= v
  }

  /** The tree property: at every node the left colours are at most, and the right colours
      at least, the split value on the split axis. The transparent index does not count. */
  ghost predicate Ordered(p: Palette, node: nat, lo: nat, k: nat)
    requires WellFormed(p) && Covers(p.depth, node, lo, k)
    decreases k
  {
    k == 0 ||
    (CoversChildren(p.depth, node, lo, k);
     TableBound(p.depth);
     var mid := lo + Pow2(k - 1);
     && AtMost(p.colours, lo, mid, p.splitElt[node], p.split[node])
     && AtLeast(p.colours, mid, lo + Pow2(k), p.splitElt[node], p.split[node])
     && Ordered(p, 2 * node, lo, k - 1)
     && Ordered(p, 2 * node + 1, mid, k - 1))
  }

  /** `res` is `best`, or names a strictly nearer colour among the leaves lo .. hi. */
  ghost predicate Candidate(p: Palette, w: Wanted, best: Best, res: Best, lo: nat, hi: nat)
    requires WellFormed(p)
  {
    res == best ||
    (lo <= res.ind < hi && res.ind < 256 && res.ind != TRANSPARENT &&
     res.diff == Distance(w, p.colours[res.ind]) < best.diff)
  }

  /** No leaf in lo .. hi, other than the transparent one, is nearer than `diff`. */
  ghost predicate NoneNearer(p: Palette, w: Wanted, diff: int, lo: nat, hi: nat)
    requires WellFormed(p) && hi <= 256
  {
    forall i :: lo <= i < hi && i != TRANSPARENT ==> Distance(w, p.colours[i]) >= diff
  }

  // The two children as the search takes them: the wanted colour's side first.

  ghost predicate LeftFirst(p: Palette, w: Wanted, node: nat)
    requires WellFormed(p) && node < 256
  {
    p.split[node] > Component(w, p.splitElt[node])
  }

  ghost function Gap(p: Palette, w: Wanted, node: nat): int
    requires WellFormed(p) && node < 256
  {
    Abs(p.split[node] - Component(w, p.splitElt[node]))
  }

  lemma ClosestUnfold(p: Palette, w: Wanted, best: Best, node: nat)
    requires WellFormed(p) && 0 < node < Pow2(p.depth) <= 256
    ensures var near := if LeftFirst(p, w, node) then 2 * node else 2 * node + 1;
            var far := if LeftFirst(p, w, node) then 2 * node + 1 else 2 * node;
            var first := Closest(p, w, best, near);
            Closest(p, w, best, node) == if first.diff > Gap(p, w, node) then Closest(p, w, first, far) else first
  {
  }

  lemma ClosestLeaf(p: Palette, w: Wanted, best: Best, node: nat, lo: nat)
    requires WellFormed(p) && node == Pow2(p.depth) + lo < 2 * Pow2(p.depth) <= 512
    ensures Candidate(p, w, best, Closest(p, w, best, node), lo, lo + 1)
    ensures Closest(p, w, best, node).diff <= best.diff
    ensures NoneNearer(p, w, Closest(p, w, best, node).diff, lo, lo + 1)
  {
  }

  lemma CandidateJoin(p: Palette, w: Wanted, best: Best, first: Best, second: Best,
                      a: nat, b: nat, c: nat, d: nat, lo: nat, hi: nat)
    requires WellFormed(p) && Candidate(p, w, best, first, a, b) && Candidate(p, w, first, second, c, d)
    requires lo <= a && b <= hi && lo <= c && d <= hi
    ensures Candidate(p, w, best, first, lo, hi) && Candidate(p, w, best, second, lo, hi)
  {
    hide Distance;
  }

  /** On any tree the search either keeps the best it was given or names a colour of the
      subtree, other than the transparent one, that is strictly nearer. */
  lemma {:induction false} ClosestIsCandidate(p: Palette, w: Wanted, best: Best, node: nat, lo: nat, k: nat)
    requires WellFormed(p) && Covers(p.depth, node, lo, k) && node < 2 * Pow2(p.depth)
    ensures Candidate(p, w, best, Closest(p, w, best, node), lo, lo + Pow2(k))
    decreases k
  {
    hide Covers, Distance, Closest, LeftFirst, Gap, Pow2, Abs, Candidate;
    CoversChildren(p.depth, node, lo, k);
    TableBound(p.depth);
    if k == 0 {
      ClosestLeaf(p, w, best, node, lo);
    } else {
      ClosestUnfold(p, w, best, node);
      var mid, hi := lo + Pow2(k - 1), lo + Pow2(k);
      var near, far := Closest(p, w, best, 2 * node), Closest(p, w, best, 2 * node + 1);
      if LeftFirst(p, w, node) {
        ClosestIsCandidate(p, w, best, 2 * node, lo, k - 1);
        ClosestIsCandidate(p, w, near, 2 * node + 1, mid, k - 1);
        CandidateJoin(p, w, best, near, Closest(p, w, near, 2 * node + 1), lo, mid, mid, hi, lo, hi);
      } else {
        ClosestIsCandidate(p, w, best, 2 * node + 1, mid, k - 1);
        ClosestIsCandidate(p, w, far, 2 * node, lo, k - 1);
        CandidateJoin(p, w, best, far, Closest(p, w, far, 2 * node), mid, hi, lo, mid, lo, hi);
      }
    }
  }

  lemma AxisDistance(w: Wanted, c: Rgb, axis: Axis)
    ensures Distance(w, c) >= Component(w, axis) - Channel(c, axis)
    ensures Distance(w, c) >= Channel(c, axis) - Component(w, axis)
  {
  }

  /** A half that lies beyond a plane at distance `diff` or more holds nothing nearer. */
  lemma BeyondPlane(p: Palette, w: Wanted, diff: int, axis: Axis, plane: int, lo: nat, hi: nat)
    requires WellFormed(p) && hi <= 256
    requires (AtLeast(p.colours, lo, hi, axis, plane) && diff <= plane - Component(w, axis)) ||
             (AtMost(p.colours, lo, hi, axis, plane) && diff <= Component(w, axis) - plane)
    ensures NoneNearer(p, w, diff, lo, hi)
  {
    forall i | lo <= i < hi && i != TRANSPARENT
      ensures Distance(w, p.colours[i]) >= diff
    {
      AxisDistance(w, p.colours[i], axis);
    }
  }

  lemma JoinHalves(p: Palette, w: Wanted, near: int, diff: int, lo: nat, mid: nat, hi: nat)
    requires WellFormed(p) && lo <= mid <= hi <= 256 && diff <= near
    requires (NoneNearer(p, w, near, lo, mid) && NoneNearer(p, w, diff, mid, hi)) ||
             (NoneNearer(p, w, near, mid, hi) && NoneNearer(p, w, diff, lo, mid))
    ensures NoneNearer(p, w, diff, lo, hi)
  {
  }

  lemma OrderedParts(p: Palette, node: nat, lo: nat, k: nat)
    requires WellFormed(p) && Covers(p.depth, node, lo, k) && k > 0 && Ordered(p, node, lo, k)
    ensures node < 256 && lo + Pow2(k) <= 256
    ensures AtMost(p.colours, lo, lo + Pow2(k - 1), p.splitElt[node], p.split[node])
    ensures AtLeast(p.colours, lo + Pow2(k - 1), lo + Pow2(k), p.splitElt[node], p.split[node])
    ensures Covers(p.depth, 2 * node, lo, k - 1) && Ordered(p, 2 * node, lo, k - 1)
    ensures Covers(p.depth, 2 * node + 1, lo + Pow2(k - 1), k - 1) && Ordered(p, 2 * node + 1, lo + Pow2(k - 1), k - 1)
  {
    hide Covers, Pow2, AtMost, AtLeast;
    CoversChildren(p.depth, node, lo, k);
    TableBound(p.depth);
  }

  /** On an ordered tree pruning loses nothing: the result is the minimum over the whole
      subtree and the incoming best. */
  lemma {:induction false} ClosestIsNearest(p: Palette, w: Wanted, best: Best, node: nat, lo: nat, k: nat)
    requires WellFormed(p) && Covers(p.depth, node, lo, k) && node < 2 * Pow2(p.depth)
    requires lo + Pow2(k) <= 256 && Ordered(p, node, lo, k)
    ensures Closest(p, w, best, node).diff <= best.diff
    ensures NoneNearer(p, w, Closest(p, w, best, node).diff, lo, lo + Pow2(k))
    decreases k
  {
    hide Covers, Distance, Closest, Component, Pow2, NoneNearer, AtMost, AtLeast, Ordered;
    CoversChildren(p.depth, node, lo, k);
    TableBound(p.depth);
    if k == 0 {
      ClosestLeaf(p, w, best, node, lo);
    } else {
      ClosestUnfold(p, w, best, node);
      OrderedParts(p, node, lo, k);
      var mid, hi, axis, plane := lo + Pow2(k - 1), lo + Pow2(k), p.splitElt[node], p.split[node];
      var res := Closest(p, w, best, node);
      if LeftFirst(p, w, node) {
        var first := Closest(p, w, best, 2 * node);
        ClosestIsNearest(p, w, best, 2 * node, lo, k - 1);
        if first.diff > Gap(p, w, node) {
          ClosestIsNearest(p, w, first, 2 * node + 1, mid, k - 1);
        } else {
          BeyondPlane(p, w, first.diff, axis, plane, mid, hi);
        }
        JoinHalves(p, w, first.diff, res.diff, lo, mid, hi);
      } else {
        var first := Closest(p, w, best, 2 * node + 1);
        ClosestIsNearest(p, w, best, 2 * node + 1, mid, k - 1);
        if first.diff > Gap(p, w, node) {
          ClosestIsNearest(p, w, first, 2 * node, lo, k - 1);
        } else {
          BeyondPlane(p, w, first.diff, axis, plane, lo, mid);
        }
        JoinHalves(p, w, first.diff, res.diff, lo, mid, hi);
      }
    }
  }

  ghost predicate OrderedTree(p: Palette)
    requires WellFormed(p)
  {
    CoversRoot(p.depth);
    Ordered(p, 1, 0, p.depth)
  }

  /** Plain linear scan over the colours 1 .. n. */
  function Scan(p: Palette, w: Wanted, best: Best, n: nat): Best
    requires WellFormed(p) && n <= 256
  {
    if n <= 1 then best
    else
      var b := Scan(p, w, best, n - 1);
      if Distance(w, p.colours[n - 1]) < b.diff then Best(n - 1, Distance(w, p.colours[n - 1])) else b
  }

  lemma {:induction false} ScanIsMinimum(p: Palette, w: Wanted, best: Best, n: nat)
    requires WellFormed(p) && n <= 256
    ensures Candidate(p, w, best, Scan(p, w, best, n), 1, n)
    ensures NoneNearer(p, w, Scan(p, w, best, n).diff, 0, n)
  {
    hide Distance;
    if n > 1 {
      ScanIsMinimum(p, w, best, n - 1);
    }
  }

  /** From the root of an ordered tree the pruned search finds the same distance as the
      linear scan, at a non-transparent index that has it. */
  lemma SearchEqualsScan(p: Palette, w: Wanted, best: Best)
    requires WellFormed(p) && OrderedTree(p)
    ensures Pow2(p.depth) <= 256
    ensures var n, res := Pow2(p.depth), Closest(p, w, best, 1);
            res.diff == Scan(p, w, best, n).diff && Candidate(p, w, best, res, 1, n)
  {
    hide Distance, Closest, Pow2, Scan, Ordered, Covers;
    var n := Pow2(p.depth);
    TableBound(p.depth);
    CoversRoot(p.depth);
    ClosestIsCandidate(p, w, best, 1, 0, p.depth);
    ClosestIsNearest(p, w, best, 1, 0, p.depth);
    ScanIsMinimum(p, w, best, n);
  }
}
