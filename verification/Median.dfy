/** The incomplete sort that finds a median: one partition step and quickselect, in place
    on the working copy of the pixels. */
module Median {
  import opened Colours

  /** `after` is `before` with the part lo .. hi rearranged. */
  ghost predicate Permuted(before: seq<Rgb>, after: seq<Rgb>, lo: nat, hi: nat)
  {
    && lo <= hi <= |before| == |after|
    && after[..lo] == before[..lo] && after[hi..] == before[hi..]
    && multiset(after[lo..hi]) == multiset(before[lo..hi])
  }

  lemma PermutedTransitive(a: seq<Rgb>, b: seq<Rgb>, c: seq<Rgb>, lo: nat, hi: nat)
    requires Permuted(a, b, lo, hi) && Permuted(b, c, lo, hi)
    ensures Permuted(a, c, lo, hi)
  {
  }

  lemma PermutedSelf(s: seq<Rgb>, lo: nat, hi: nat)
    requires lo <= hi <= |s|
    ensures Permuted(s, s, lo, hi)
  {
  }

  /** A rearrangement of a part is one of any larger part. */
  lemma PermutedWiden(before: seq<Rgb>, after: seq<Rgb>, lo: nat, hi: nat, lo': nat, hi': nat)
    requires Permuted(before, after, lo, hi) && lo' <= lo && hi <= hi' <= |before|
    ensures Permuted(before, after, lo', hi')
  {
    var left, right := before[lo'..lo], before[hi..hi'];
    assert after[lo'..lo] == after[..lo][lo'..] == before[..lo][lo'..] == left;
    assert after[hi..hi'] == after[hi..][..hi' - hi] == before[hi..][..hi' - hi] == right;
    assert after[lo'..hi'] == left + after[lo..hi] + right;
    assert before[lo'..hi'] == left + before[lo..hi] + right;
    assert after[..lo'] == after[..lo][..lo'] == before[..lo][..lo'] == before[..lo'];
    assert after[hi'..] == after[hi..][hi' - hi..] == before[hi..][hi' - hi..] == before[hi'..];
  }

  /** Elsewhere nothing moves. */
  lemma PermutedElsewhere(before: seq<Rgb>, after: seq<Rgb>, lo: nat, hi: nat, x: nat, y: nat)
    requires Permuted(before, after, lo, hi) && x <= y <= |before| && (y <= lo || hi <= x)
    ensures after[x..y] == before[x..y]
  {
    if y <= lo {
      assert after[x..y] == after[..lo][x..y] == before[..lo][x..y] == before[x..y];
    } else {
      assert after[x..y] == after[hi..][x - hi..y - hi] == before[hi..][x - hi..y - hi] == before[x..y];
    }
  }

  ghost predicate AllIn(s: seq<Rgb>, lo: nat, hi: nat, P: Rgb -> bool)
    requires lo <= hi <= |s|
  {
    forall i :: lo <= i < hi ==> P(s[i])
  }

  /** What holds of every colour of the part still holds after rearranging it. */
  lemma PermutedKeeps(before: seq<Rgb>, after: seq<Rgb>, lo: nat, hi: nat, P: Rgb -> bool)
    requires Permuted(before, after, lo, hi) && AllIn(before, lo, hi, P)
    ensures AllIn(after, lo, hi, P)
  {
    forall i | lo <= i < hi
      ensures P(after[i])
    {
      assert after[i] == after[lo..hi][i - lo];
      assert after[i] in multiset(after[lo..hi]);
      assert after[i] in before[lo..hi];
    }
  }

  function Swapped(s: seq<Rgb>, i: nat, j: nat): seq<Rgb>
    requires i < |s| && j < |s|
  {
    s[i := s[j]][j := s[i]]
  }

  lemma SwapPermutes(s: seq<Rgb>, i: nat, j: nat, lo: nat, hi: nat)
    requires lo <= i < hi <= |s| && lo <= j < hi
    ensures Permuted(s, Swapped(s, i, j), lo, hi)
  {
    var t := Swapped(s, i, j);
    assert t[lo..hi] == s[lo..hi][i - lo := s[j]][j - lo := s[i]];
  }

  method SwapPixels(image: array<Rgb>, pixA: nat, pixB: nat, ghost lo: nat, ghost hi: nat)
    requires lo <= pixA < hi <= image.Length && lo <= pixB < hi
    modifies image
    ensures image[..] == Swapped(old(image[..]), pixA, pixB)
    ensures Permuted(old(image[..]), image[..], lo, hi)
  {
    SwapPermutes(image[..], pixA, pixB, lo, hi);
    image[pixA], image[pixB] := image[pixB], image[pixA];
  }

  /** How many colours of `s` are below, and how many equal to, `v` on the axis. */
  function CountLess(s: seq<Rgb>, axis: Axis, v: int): nat
  {
    if s == [] then 0
    else CountLess(s[..|s| - 1], axis, v) + if Channel(s[|s| - 1], axis) < v then 1 else 0
  }

  function CountEqual(s: seq<Rgb>, axis: Axis, v: int): nat
  {
    if s == [] then 0
    else CountEqual(s[..|s| - 1], axis, v) + if Channel(s[|s| - 1], axis) == v then 1 else 0
  }

  ghost predicate Below(s: seq<Rgb>, lo: nat, hi: nat, axis: Axis, v: int)
    requires lo <= hi <= |s|
  {
    forall i :: lo <= i < hi ==> Channel(s[i], axis) <= v
  }

  ghost predicate Above(s: seq<Rgb>, lo: nat, hi: nat, axis: Axis, v: int)
    requires lo <= hi <= |s|
  {
    forall i :: lo <= i < hi ==> Channel(s[i], axis) >= v
  }

  /** Position `p` splits the part lo .. hi: nothing larger before it, nothing smaller after. */
  ghost predicate SplitAt(s: seq<Rgb>, lo: nat, p: nat, hi: nat, axis: Axis)
    requires lo <= p < hi <= |s|
  {
    Below(s, lo, p, axis, Channel(s[p], axis)) && Above(s, p, hi, axis, Channel(s[p], axis))
  }

  /** The place of the next pixel of the scan, and whether an equal pixel goes left. */
  ghost predicate Scanned(start: seq<Rgb>, s: seq<Rgb>, left: nat, store: nat, ii: nat, right: nat, axis: Axis, v: int,
                          split: bool)
  {
    && left <= store <= ii <= right < |start| == |s|
    && s[ii..right + 1] == start[ii..right + 1]
    && Below(s, left, store, axis, v) && Above(s, store, ii, axis, v)
    && store == left + CountLess(start[left..ii], axis, v) + CountEqual(start[left..ii], axis, v) / 2
    && split == (CountEqual(start[left..ii], axis, v) % 2 == 1)
  }

  lemma ScanStart(start: seq<Rgb>, left: nat, right: nat, axis: Axis, v: int)
    requires left <= right < |start|
    ensures Scanned(start, start, left, left, left, right, axis, v, false)
  {
  }

  lemma ScanEnd(start: seq<Rgb>, s: seq<Rgb>, left: nat, store: nat, right: nat, axis: Axis, v: int, split: bool)
    requires Scanned(start, s, left, store, right, right, axis, v, split)
    ensures Below(s, left, store, axis, v) && Above(s, store, right, axis, v) && s[right] == start[right]
    ensures store == left + CountLess(start[left..right], axis, v) + CountEqual(start[left..right], axis, v) / 2
  {
    assert s[right] == s[right..right + 1][0];
  }

  /** Putting the pivot at the store position completes the split. */
  lemma PivotInPlace(s: seq<Rgb>, left: nat, store: nat, right: nat, axis: Axis)
    requires left <= store < right <= |s|
    requires Below(s, left, store, axis, Channel(s[right - 1], axis))
    requires Above(s, store, right - 1, axis, Channel(s[right - 1], axis))
    ensures SplitAt(Swapped(s, store, right - 1), left, store, right, axis)
    ensures Swapped(s, store, right - 1)[store] == s[right - 1]
  {
  }

  /** One step of the scan: the pixel at `ii` is swapped to the store position when it is
      smaller than the pivot, or equal and its turn. */
  lemma ScanStep(start: seq<Rgb>, s: seq<Rgb>, left: nat, store: nat, ii: nat, right: nat, axis: Axis, v: int,
                 split: bool)
    requires Scanned(start, s, left, store, ii, right, axis, v, split) && ii < right
    ensures var c := Channel(s[ii], axis);
            var goesLeft := c < v || (c == v && split);
            Scanned(start, if goesLeft then Swapped(s, ii, store) else s, left,
                    if goesLeft then store + 1 else store, ii + 1, right, axis, v, if c == v then !split else split)
  {
    assert s[ii] == s[ii..right + 1][0] == start[ii];
    var seen := start[left..ii + 1];
    assert seen[..|seen| - 1] == start[left..ii];
    assert s[ii + 1..right + 1] == s[ii..right + 1][1..] == start[ii + 1..right + 1];
    var t := Swapped(s, ii, store);
    assert t[ii + 1..right + 1] == s[ii + 1..right + 1];
  }

  /** One partition step. Pixels below the pivot go left; of those equal to it every
      second one does. */
  method Partition(image: array<Rgb>, left: nat, right: nat, elt: Axis, pivotIndex: nat) returns (storeIndex: nat)
    requires left <= pivotIndex < right <= image.Length
    modifies image
    ensures left <= storeIndex < right
    ensures Permuted(old(image[..]), image[..], left, right)
    ensures SplitAt(image[..], left, storeIndex, right, elt)
    ensures image[storeIndex] == old(image[pivotIndex])
    ensures var others := Swapped(old(image[..]), pivotIndex, right - 1)[left..right - 1];
            var v := Channel(old(image[pivotIndex]), elt);
            storeIndex == left + CountLess(others, elt, v) + CountEqual(others, elt, v) / 2
  {
    hide Permuted, Below, Above, SplitAt, CountLess, CountEqual;
    var pivotValue := Channel(image[pivotIndex], elt);
    SwapPixels(image, pivotIndex, right - 1, left, right);
    ghost var start := image[..];
    storeIndex := PartitionScan(image, left, right, elt, pivotValue);
    ghost var before := image[..];
    PivotInPlace(before, left, storeIndex, right, elt);
    SwapPixels(image, storeIndex, right - 1, left, right);
    PermutedTransitive(start, before, image[..], left, right);
    PermutedTransitive(old(image[..]), start, image[..], left, right);
  }

  /** The body of the scan. */
  method PlacePixel(image: array<Rgb>, left: nat, right: nat, elt: Axis, pivotValue: int, ii: nat, storeIndex: nat,
                    split: bool, ghost start: seq<Rgb>) returns (store': nat, split': bool)
    requires left <= storeIndex <= ii < right - 1 < image.Length
    requires Scanned(start, image[..], left, storeIndex, ii, right - 1, elt, pivotValue, split)
    modifies image
    ensures left <= store' <= ii + 1
    ensures Scanned(start, image[..], left, store', ii + 1, right - 1, elt, pivotValue, split')
    ensures Permuted(old(image[..]), image[..], left, right)
  {
    hide Permuted, Scanned, Swapped;
    ScanStep(start, image[..], left, storeIndex, ii, right - 1, elt, pivotValue, split);
    PermutedSelf(image[..], left, right);
    store', split' := storeIndex, split;
    var arrayVal := Channel(image[ii], elt);
    if arrayVal < pivotValue {
      SwapPixels(image, ii, storeIndex, left, right);
      store' := store' + 1;
    } else if arrayVal == pivotValue {
      if split {
        SwapPixels(image, ii, storeIndex, left, right);
        store' := store' + 1;
      }
      split' := !split';
    }
  }

  /** The loop of the partition step, the pivot resting at `right - 1`. */
  method PartitionScan(image: array<Rgb>, left: nat, right: nat, elt: Axis, pivotValue: int) returns (storeIndex: nat)
    requires left < right <= image.Length
    modifies image
    ensures left <= storeIndex < right && image[right - 1] == old(image[right - 1])
    ensures Permuted(old(image[..]), image[..], left, right)
    ensures Below(image[..], left, storeIndex, elt, pivotValue) &&
            Above(image[..], storeIndex, right - 1, elt, pivotValue)
    ensures var others := old(image[..])[left..right - 1];
            storeIndex == left + CountLess(others, elt, pivotValue) + CountEqual(others, elt, pivotValue) / 2
  {
    hide Permuted, CountLess, CountEqual, Below, Above, Scanned;
    ghost var start := image[..];
    PermutedSelf(start, left, right);
    ScanStart(start, left, right - 1, elt, pivotValue);
    storeIndex := left;
    var split := false;
    for ii := left to right - 1
      invariant left <= storeIndex <= ii
      invariant Scanned(start, image[..], left, storeIndex, ii, right - 1, elt, pivotValue, split)
      invariant Permuted(start, image[..], left, right)
    {
      ghost var before := image[..];
      storeIndex, split := PlacePixel(image, left, right, elt, pivotValue, ii, storeIndex, split, start);
      PermutedTransitive(start, before, image[..], left, right);
    }
    ScanEnd(start, image[..], left, storeIndex, right - 1, elt, pivotValue, split);
  }

  /** Quickselect: after the call nothing before `neededCenter` is larger and nothing
      after it smaller, on the chosen channel. */
  method PartitionByMedian(image: array<Rgb>, left: nat, right: nat, com: Axis, neededCenter: nat)
    requires left <= right <= image.Length
    modifies image
    ensures Permuted(old(image[..]), image[..], left, right)
    ensures left <= neededCenter < right ==> SplitAt(image[..], left, neededCenter, right, com)
    decreases right - left
  {
    hide Permuted, CountLess, CountEqual;
    ghost var start := image[..];
    PermutedSelf(start, left, right);
    if left + 1 < right {
      var pivotIndex := left + (right - left) / 2;
      pivotIndex := Partition(image, left, right, com, pivotIndex);
      ghost var before := image[..];
      if pivotIndex > neededCenter {
        PartitionByMedian(image, left, pivotIndex, com, neededCenter);
        Narrowed(start, before, image[..], left, pivotIndex, right, left, pivotIndex, com, neededCenter);
      }
      if pivotIndex < neededCenter {
        PartitionByMedian(image, pivotIndex + 1, right, com, neededCenter);
        Narrowed(start, before, image[..], left, pivotIndex, right, pivotIndex + 1, right, com, neededCenter);
      }
    }
  }

  /** Selecting within the side of the pivot that holds the centre selects within the whole. */
  lemma Narrowed(start: seq<Rgb>, before: seq<Rgb>, after: seq<Rgb>, left: nat, pivot: nat, right: nat,
                 lo: nat, hi: nat, axis: Axis, center: nat)
    requires left <= pivot < right <= |start| && Permuted(start, before, left, right)
    requires SplitAt(before, left, pivot, right, axis)
    requires (lo == left && hi == pivot && center < pivot) || (lo == pivot + 1 && hi == right && center > pivot)
    requires Permuted(before, after, lo, hi) && (lo <= center < hi ==> SplitAt(after, lo, center, hi, axis))
    ensures Permuted(start, after, left, right)
    ensures left <= center < right ==> SplitAt(after, left, center, right, axis)
  {
    var v := Channel(before[pivot], axis);
    PermutedWiden(before, after, lo, hi, left, right);
    PermutedTransitive(start, before, after, left, right);
    if lo == left {
      PermutedKeeps(before, after, lo, hi, c => Channel(c, axis) <= v);
    } else {
      PermutedKeeps(before, after, lo, hi, c => Channel(c, axis) >= v);
    }
  }
}
