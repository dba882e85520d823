/**
 The Bentley-McIlroy quicksort that orders the blocks before a scan, on an array segment.  For every comparator it
 permutes the segment; it sorts it if the comparator is a total preorder on the values.
 */
module QuickSort {

  /** Antisymmetric in sign and transitive on the values of `dom`; those that compare 0 need not be equal. */
  ghost predicate TotalPreorder<T>(cmp: (T, T) -> int, dom: set<T>) {
    && (forall x, y :: x in dom && y in dom ==> (cmp(x, y) < 0 <==> cmp(y, x) > 0))
    && (forall x, y, z :: x in dom && y in dom && z in dom && cmp(x, y) <= 0 && cmp(y, z) <= 0 ==> cmp(x, z) <= 0)
  }

  /** Every value of `dom` compares equal to itself. */
  ghost predicate Reflexive<T>(cmp: (T, T) -> int, dom: set<T>) { forall x :: x in dom ==> cmp(x, x) == 0 }

  /** The elements from `lo` up to `hi` are among the values of `dom`. */
  ghost predicate Among<T>(s: seq<T>, lo: int, hi: int, dom: set<T>)
    requires 0 <= lo && hi <= |s|
  {
    forall k :: lo <= k < hi ==> s[k] in dom
  }

  ghost predicate Sorted<T>(cmp: (T, T) -> int, s: seq<T>) {
    forall i, j :: 0 <= i < j < |s| ==> cmp(s[i], s[j]) <= 0
  }

  /** Segment `lo..hi` of an array that went from `s` to `t` was permuted, the rest is as it was. */
  ghost predicate PermutedWithin<T>(s: seq<T>, t: seq<T>, lo: int, hi: int) {
    && |s| == |t|
    && (forall k :: 0 <= k < |s| && !(lo <= k < hi) ==> t[k] == s[k])
    && multiset(s) == multiset(t)
  }

  lemma Unmoved<T>(s: seq<T>, lo: int, hi: int)
    ensures PermutedWithin(s, s, lo, hi)
  {
  }

  lemma Then<T>(s: seq<T>, t: seq<T>, u: seq<T>, lo: int, hi: int)
    requires PermutedWithin(s, t, lo, hi) && PermutedWithin(t, u, lo, hi)
    ensures PermutedWithin(s, u, lo, hi)
  {
  }

  lemma Flip<T>(cmp: (T, T) -> int, dom: set<T>, x: T, y: T)
    requires TotalPreorder(cmp, dom) && x in dom && y in dom && cmp(x, y) > 0
    ensures cmp(y, x) < 0
  {
  }

  lemma SameMiddle<T>(x: seq<T>, u: seq<T>, v: seq<T>, z: seq<T>)
    requires multiset(x + u + z) == multiset(x + v + z)
    ensures multiset(u) == multiset(v)
  {
    assert multiset(u) == multiset(x + u + z) - multiset(x) - multiset(z);
    assert multiset(v) == multiset(x + v + z) - multiset(x) - multiset(z);
  }

  /** What held of all elements of a permuted segment still does. */
  lemma Carry<T(!new)>(s: seq<T>, t: seq<T>, lo: nat, hi: nat, p: T -> bool)
    requires PermutedWithin(s, t, lo, hi) && lo <= hi <= |s|
    requires forall k :: lo <= k < hi ==> p(s[k])
    ensures forall k :: lo <= k < hi ==> p(t[k])
  {
    assert s == s[..lo] + s[lo..hi] + s[hi..] && t == s[..lo] + t[lo..hi] + s[hi..];
    SameMiddle(s[..lo], s[lo..hi], t[lo..hi], s[hi..]);
    forall k | lo <= k < hi ensures p(t[k]) {
      assert t[k] == t[lo..hi][k - lo];
      assert t[k] in multiset(s[lo..hi]);
    }
  }

  lemma StillAmong<T(!new)>(s: seq<T>, t: seq<T>, lo: nat, hi: nat, dom: set<T>)
    requires PermutedWithin(s, t, lo, hi) && lo <= hi <= |s| && Among(s, lo, hi, dom)
    ensures Among(t, lo, hi, dom)
  {
    Carry(s, t, lo, hi, x => x in dom);
  }

  method Swap<T>(a: array<T>, i: nat, j: nat, ghost lo: nat, ghost hi: nat)
    requires lo <= i < hi <= a.Length && lo <= j < hi
    modifies a
    ensures a[i] == old(a[j]) && a[j] == old(a[i])
    ensures forall k :: 0 <= k < a.Length && k != i && k != j ==> a[k] == old(a[k])
    ensures PermutedWithin(old(a[..]), a[..], lo, hi)
  {
    a[i], a[j] := a[j], a[i];
    assert a[..] == old(a[..])[i := old(a[j])][j := old(a[i])];
  }

  /** Exchanges the segments of length `r` starting at `i` and at `j`. */
  method VecSwap<T>(a: array<T>, i: nat, j: nat, r: nat, ghost lo: nat, ghost hi: nat)
    requires lo <= i && i + r <= j && j + r <= hi <= a.Length
    modifies a
    ensures forall k :: i <= k < i + r ==> a[k] == old(a[j + (k - i)])
    ensures forall k :: j <= k < j + r ==> a[k] == old(a[i + (k - j)])
    ensures forall k :: 0 <= k < a.Length && !(i <= k < i + r) && !(j <= k < j + r) ==> a[k] == old(a[k])
    ensures PermutedWithin(old(a[..]), a[..], lo, hi)
  {
    for m := 0 to r
      invariant forall k :: i <= k < i + m ==> a[k] == old(a[j + (k - i)])
      invariant forall k :: j <= k < j + m ==> a[k] == old(a[i + (k - j)])
      invariant forall k :: 0 <= k < a.Length && !(i <= k < i + m) && !(j <= k < j + m) ==> a[k] == old(a[k])
      invariant PermutedWithin(old(a[..]), a[..], lo, hi)
    {
      Swap(a, i + m, j + m, lo, hi);
    }
  }

  /** The index, among three, of an element that compares between the other two. */
  method Med3<T(!new)>(a: array<T>, i: nat, j: nat, k: nat, cmp: (T, T) -> int, ghost dom: set<T>)
    returns (m: nat)
    requires i < a.Length && j < a.Length && k < a.Length
    requires a[i] in dom && a[j] in dom && a[k] in dom
    ensures m == i || m == j || m == k
    ensures TotalPreorder(cmp, dom) ==> IsMedian(cmp, a[..], i, j, k, m)
  {
    m := if cmp(a[i], a[j]) < 0 then
           if cmp(a[j], a[k]) < 0 then j else if cmp(a[i], a[k]) < 0 then k else i
         else
           if cmp(a[j], a[k]) > 0 then j else if cmp(a[i], a[k]) < 0 then i else k;
    assert {i, j, k} == {i, k, j} == {j, i, k} == {j, k, i} == {k, i, j} == {k, j, i};
  }

  /** Neighbours are in order. */
  ghost predicate Ascending<T>(cmp: (T, T) -> int, a: array<T>, lo: nat, hi: nat)
    requires hi <= a.Length
    reads a
  {
    forall i, j :: lo <= i < hi && j == i + 1 && j < hi ==> cmp(a[i], a[j]) <= 0
  }

  lemma AllAmong<T>(a: array<T>, lo: nat, hi: nat, dom: set<T>)
    requires lo <= hi <= a.Length && Among(a[..], lo, hi, dom)
    ensures forall k :: lo <= k < hi ==> a[k] in dom
  {
    assert forall k :: lo <= k < hi ==> a[..][k] == a[k];
  }

  lemma Chained<T>(cmp: (T, T) -> int, dom: set<T>, x: T, y: T, z: T)
    requires TotalPreorder(cmp, dom) && x in dom && y in dom && z in dom && cmp(x, y) <= 0 && cmp(y, z) <= 0
    ensures cmp(x, z) <= 0
  {
  }

  lemma {:induction false} AscendingIsSorted<T>(cmp: (T, T) -> int, dom: set<T>, a: array<T>, lo: nat, hi: nat)
    requires lo <= hi <= a.Length && TotalPreorder(cmp, dom) && Among(a[..], lo, hi, dom) && Ascending(cmp, a, lo, hi)
    ensures SortedSegment(cmp, a, lo, hi)
  {
    hide TotalPreorder;
    if lo < hi {
      AscendingIsSorted(cmp, dom, a, lo, hi - 1);
      AllAmong(a, lo, hi, dom);
      hide Among;
      forall i | lo <= i < hi - 1 ensures cmp(a[i], a[hi - 1]) <= 0 {
        if i < hi - 2 { Chained(cmp, dom, a[i], a[hi - 2], a[hi - 1]); }
      }
    }
  }

  /** Ascending up to `m`, except that element `l` may have to move further down. */
  ghost predicate Sinking<T>(cmp: (T, T) -> int, a: array<T>, lo: nat, l: nat, m: nat)
    requires lo <= l <= m < a.Length
    reads a
  {
    && (forall i, j :: lo <= i < m && j == i + 1 && j != l ==> cmp(a[i], a[j]) <= 0)
    && (lo < l < m ==> cmp(a[l - 1], a[l + 1]) <= 0)
  }

  lemma StartsSinking<T>(cmp: (T, T) -> int, a: array<T>, lo: nat, m: nat)
    requires lo <= m < a.Length && Ascending(cmp, a, lo, m)
    ensures Sinking(cmp, a, lo, m, m)
  {
  }

  /** The element has arrived where nothing before it is greater. */
  lemma HasSunk<T>(cmp: (T, T) -> int, a: array<T>, lo: nat, l: nat, m: nat)
    requires lo <= l <= m < a.Length && Sinking(cmp, a, lo, l, m) && !(l > lo && cmp(a[l - 1], a[l]) > 0)
    ensures Ascending(cmp, a, lo, m + 1)
  {
  }

  method Sink<T(!new)>(a: array<T>, lo: nat, l: nat, m: nat, cmp: (T, T) -> int, ghost dom: set<T>)
    requires lo < l <= m < a.Length && a[l - 1] in dom && a[l] in dom && cmp(a[l - 1], a[l]) > 0
    modifies a
    ensures TotalPreorder(cmp, dom) && old(Sinking(cmp, a, lo, l, m)) ==> Sinking(cmp, a, lo, l - 1, m)
    ensures PermutedWithin(old(a[..]), a[..], lo, m + 1)
  {
    hide TotalPreorder, PermutedWithin;
    if TotalPreorder(cmp, dom) { Flip(cmp, dom, a[l - 1], a[l]); }
    Swap(a, l, l - 1, lo, m + 1);
  }

  /** Moves element `m` down into the ascending segment before it. */
  method Insert<T(!new)>(a: array<T>, lo: nat, m: nat, cmp: (T, T) -> int, ghost dom: set<T>)
    requires lo <= m < a.Length && Among(a[..], lo, m + 1, dom)
    requires TotalPreorder(cmp, dom) ==> Ascending(cmp, a, lo, m)
    modifies a
    ensures TotalPreorder(cmp, dom) ==> Ascending(cmp, a, lo, m + 1)
    ensures PermutedWithin(old(a[..]), a[..], lo, m + 1)
  {
    hide TotalPreorder, PermutedWithin, Sinking, Ascending, Among;
    var l := m;
    Unmoved(a[..], lo, m + 1);
    ghost var good := TotalPreorder(cmp, dom);
    if good { StartsSinking(cmp, a, lo, m); }
    while l > lo && cmp(a[l - 1], a[l]) > 0
      invariant lo <= l <= m && (good ==> Sinking(cmp, a, lo, l, m))
      invariant PermutedWithin(old(a[..]), a[..], lo, m + 1)
    {
      ghost var before := a[..];
      StillAmong(old(a[..]), before, lo, m + 1, dom);
      AmongAt(before, lo, m + 1, dom, l);
      Sink(a, lo, l, m, cmp, dom);
      Then(old(a[..]), before, a[..], lo, m + 1);
      l := l - 1;
    }
    if good { HasSunk(cmp, a, lo, l, m); }
  }

  lemma AmongAt<T>(s: seq<T>, lo: int, hi: int, dom: set<T>, l: int)
    requires 0 <= lo < l < hi <= |s| && Among(s, lo, hi, dom)
    ensures s[l - 1] in dom && s[l] in dom
  {
  }

  ghost predicate SortedSegment<T>(cmp: (T, T) -> int, a: array<T>, lo: nat, hi: nat)
    requires hi <= a.Length
    reads a
  {
    forall i, j :: lo <= i < j < hi ==> cmp(a[i], a[j]) <= 0
  }

  method InsertionSort<T(!new)>(a: array<T>, lo: nat, n: nat, cmp: (T, T) -> int, ghost dom: set<T>)
    requires lo + n <= a.Length && Among(a[..], lo, lo + n, dom)
    modifies a
    ensures TotalPreorder(cmp, dom) ==> SortedSegment(cmp, a, lo, lo + n)
    ensures PermutedWithin(old(a[..]), a[..], lo, lo + n)
  {
    hide TotalPreorder;
    var m := lo + 1;
    while m < lo + n
      invariant lo < m <= lo + n || n == 0
      invariant n != 0 && TotalPreorder(cmp, dom) ==> Ascending(cmp, a, lo, m)
      invariant PermutedWithin(old(a[..]), a[..], lo, lo + n)
    {
      StillAmong(old(a[..]), a[..], lo, lo + n, dom);
      Insert(a, lo, m, cmp, dom);
      m := m + 1;
    }
    StillAmong(old(a[..]), a[..], lo, lo + n, dom);
    if TotalPreorder(cmp, dom) { AscendingIsSorted(cmp, dom, a, lo, lo + n); }
  }

  // ---------- Three-way partition ----------

  /** Positions from `l` up to `h` compare with the pivot at `lo` as `r` says. */
  ghost predicate Band<T>(cmp: (T, T) -> int, a: array<T>, l: int, h: int, lo: nat, r: int)
    requires 0 <= l && h <= a.Length && lo < a.Length
    reads a
  {
    forall k :: l <= k < h ==>
      if r < 0 then cmp(a[k], a[lo]) < 0 else if r > 0 then cmp(a[k], a[lo]) > 0 else cmp(a[k], a[lo]) == 0
  }

  /** Equal, smaller, not yet seen, greater, equal: the five bands of a partition under way. */
  ghost predicate Parted<T>(cmp: (T, T) -> int, a: array<T>, lo: nat, hi: nat, pa: nat, pb: nat, pc: int, pd: int)
    reads a
  {
    && lo < pa <= pb && pb - 1 <= pc <= pd < hi <= a.Length
    && Band(cmp, a, lo, pa, lo, 0) && Band(cmp, a, pa, pb, lo, -1)
    && Band(cmp, a, pc + 1, pd + 1, lo, 1) && Band(cmp, a, pd + 1, hi, lo, 0)
  }

  method ScanUp<T(!new)>(a: array<T>, lo: nat, hi: nat, pa0: nat, pb0: nat, pc: int, pd: int, cmp: (T, T) -> int)
    returns (pa: nat, pb: nat)
    requires Parted(cmp, a, lo, hi, pa0, pb0, pc, pd)
    modifies a
    ensures Parted(cmp, a, lo, hi, pa, pb, pc, pd)
    ensures pb0 <= pb && pa0 <= pa && a[lo] == old(a[lo]) && (pb <= pc ==> cmp(a[pb], a[lo]) > 0)
    ensures pa == pa0 ==> a[..] == old(a[..])
    ensures PermutedWithin(old(a[..]), a[..], lo, hi)
  {
    pa, pb := pa0, pb0;
    while pb <= pc && cmp(a[pb], a[lo]) <= 0
      invariant Parted(cmp, a, lo, hi, pa, pb, pc, pd)
      invariant pb0 <= pb && pa0 <= pa && a[lo] == old(a[lo]) && (pa == pa0 ==> a[..] == old(a[..]))
      invariant PermutedWithin(old(a[..]), a[..], lo, hi)
    {
      if cmp(a[pb], a[lo]) == 0 {
        Swap(a, pa, pb, lo, hi);
        pa := pa + 1;
      }
      pb := pb + 1;
    }
  }

  method ScanDown<T(!new)>(a: array<T>, lo: nat, hi: nat, pa: nat, pb: nat, pc0: int, pd0: int, cmp: (T, T) -> int)
    returns (pc: int, pd: int)
    requires Parted(cmp, a, lo, hi, pa, pb, pc0, pd0)
    requires pb <= pc0 ==> cmp(a[pb], a[lo]) > 0
    modifies a
    ensures Parted(cmp, a, lo, hi, pa, pb, pc, pd)
    ensures pc <= pc0 && pd <= pd0 && a[lo] == old(a[lo]) && (pd == pd0 ==> a[..] == old(a[..]))
    ensures pb <= pc ==> cmp(a[pb], a[lo]) > 0 && cmp(a[pc], a[lo]) < 0
    ensures PermutedWithin(old(a[..]), a[..], lo, hi)
  {
    pc, pd := pc0, pd0;
    while pb <= pc && cmp(a[pc], a[lo]) >= 0
      invariant Parted(cmp, a, lo, hi, pa, pb, pc, pd)
      invariant pc <= pc0 && pd <= pd0 && a[lo] == old(a[lo]) && (pd == pd0 ==> a[..] == old(a[..]))
      invariant pb <= pc ==> cmp(a[pb], a[lo]) > 0
      invariant PermutedWithin(old(a[..]), a[..], lo, hi)
    {
      if cmp(a[pc], a[lo]) == 0 {
        Swap(a, pc, pd, lo, hi);
        pd := pd - 1;
      }
      pc := pc - 1;
    }
  }

  method Cross<T(!new)>(a: array<T>, lo: nat, hi: nat, pa: nat, pb: nat, pc: int, pd: int, cmp: (T, T) -> int)
    requires Parted(cmp, a, lo, hi, pa, pb, pc, pd) && pb < pc
    requires cmp(a[pb], a[lo]) > 0 && cmp(a[pc], a[lo]) < 0
    modifies a
    ensures Parted(cmp, a, lo, hi, pa, pb + 1, pc - 1, pd) && a[lo] == old(a[lo])
    ensures PermutedWithin(old(a[..]), a[..], lo, hi)
  {
    Swap(a, pb, pc, lo, hi);
  }

  method Partition<T(!new)>(a: array<T>, lo: nat, hi: nat, cmp: (T, T) -> int)
    returns (pa: nat, pb: nat, pc: int, pd: int, swapped: bool)
    requires lo + 1 < hi <= a.Length && cmp(a[lo], a[lo]) == 0
    modifies a
    ensures pb == pc + 1 && (!swapped ==> a[..] == old(a[..]) && pa == lo + 1 && pd == hi - 1)
    ensures Parted(cmp, a, lo, hi, pa, pb, pc, pd) && a[lo] == old(a[lo])
    ensures PermutedWithin(old(a[..]), a[..], lo, hi)
  {
    pa, pb, pc, pd, swapped := lo + 1, lo + 1, hi - 1, hi - 1, false;
    while true
      invariant Parted(cmp, a, lo, hi, pa, pb, pc, pd) && a[lo] == old(a[lo])
      invariant !swapped ==> a[..] == old(a[..]) && pa == lo + 1 && pd == hi - 1
      invariant PermutedWithin(old(a[..]), a[..], lo, hi)
      decreases pc - pb
    {
      var pa', pb' := ScanUp(a, lo, hi, pa, pb, pc, pd, cmp);
      swapped := swapped || pa' != pa;
      pa, pb := pa', pb';
      var pc', pd' := ScanDown(a, lo, hi, pa, pb, pc, pd, cmp);
      swapped := swapped || pd' != pd;
      pc, pd := pc', pd';
      if pb > pc { break; }
      Cross(a, lo, hi, pa, pb, pc, pd, cmp);
      swapped := true;
      pb, pc := pb + 1, pc - 1;
    }
  }

  /** Segment `l..h` compares with `v` below (-1), equal (0) or above (1). */
  ghost predicate Against<T>(cmp: (T, T) -> int, a: array<T>, l: int, h: int, v: T, r: int)
    requires 0 <= l && h <= a.Length
    reads a
  {
    forall k :: l <= k < h ==>
      if r < 0 then cmp(a[k], v) < 0 else if r > 0 then cmp(a[k], v) > 0 else cmp(a[k], v) == 0
  }

  /** Smaller elements in front, equal ones in the middle, greater ones behind. */
  ghost predicate ThreeWay<T>(cmp: (T, T) -> int, a: array<T>, lo: nat, hi: nat, l: nat, r: nat, v: T)
    reads a
  {
    && lo + l < hi - r && hi <= a.Length
    && Against(cmp, a, lo, lo + l, v, -1) && Against(cmp, a, lo + l, hi - r, v, 0) && Against(cmp, a, hi - r, hi, v, 1)
  }

  /** The two end blocks of elements equal to the pivot are swapped into the middle. */
  method GatherFront<T(!new)>(a: array<T>, lo: nat, hi: nat, pa: nat, pb: nat, cmp: (T, T) -> int)
    requires lo < pa <= pb <= hi <= a.Length
    requires Band(cmp, a, lo, pa, lo, 0) && Band(cmp, a, pa, pb, lo, -1)
    modifies a
    ensures Against(cmp, a, lo, lo + (pb - pa), old(a[lo]), -1) && Against(cmp, a, lo + (pb - pa), pb, old(a[lo]), 0)
    ensures forall k :: pb <= k < a.Length ==> a[k] == old(a[k])
    ensures PermutedWithin(old(a[..]), a[..], lo, hi)
  {
    hide PermutedWithin;
    var r := if pa - lo < pb - pa then pa - lo else pb - pa;
    VecSwap(a, lo, pb - r, r, lo, hi);
  }

  method GatherBack<T(!new)>(a: array<T>, lo: nat, hi: nat, pc: int, pd: int, ghost v: T, cmp: (T, T) -> int)
    requires lo <= pc + 1 && pc <= pd < hi <= a.Length
    requires Against(cmp, a, pc + 1, pd + 1, v, 1) && Against(cmp, a, pd + 1, hi, v, 0)
    modifies a
    ensures Against(cmp, a, pc + 1, hi - (pd - pc), v, 0) && Against(cmp, a, hi - (pd - pc), hi, v, 1)
    ensures forall k :: 0 <= k <= pc ==> a[k] == old(a[k])
    ensures PermutedWithin(old(a[..]), a[..], lo, hi)
  {
    hide PermutedWithin;
    var r := if pd - pc < hi - pd - 1 then pd - pc else hi - pd - 1;
    VecSwap(a, pc + 1, hi - r, r, lo, hi);
  }

  method Gather<T(!new)>(a: array<T>, lo: nat, hi: nat, pa: nat, pb: nat, pc: int, pd: int, cmp: (T, T) -> int)
    requires Parted(cmp, a, lo, hi, pa, pb, pc, pd) && pb == pc + 1
    modifies a
    ensures ThreeWay(cmp, a, lo, hi, pb - pa, pd - pc, old(a[lo]))
    ensures PermutedWithin(old(a[..]), a[..], lo, hi)
  {
    hide PermutedWithin;
    ghost var v := a[lo];
    GatherFront(a, lo, hi, pa, pb, cmp);
    label L:
    assert Against(cmp, a, pc + 1, pd + 1, v, 1) && Against(cmp, a, pd + 1, hi, v, 0);
    GatherBack(a, lo, hi, pc, pd, v, cmp);
    Then(old(a[..]), old@L(a[..]), a[..], lo, hi);
  }

  /** Element `m` is one of three, and compares between the other two. */
  ghost predicate IsMedian<T>(cmp: (T, T) -> int, s: seq<T>, i: nat, j: nat, k: nat, m: nat)
    requires i < |s| && j < |s| && k < |s|
  {
    (m == i || m == j || m == k) &&
    exists l: nat, h: nat :: {l, m, h} == {i, j, k} && cmp(s[l], s[m]) <= 0 && cmp(s[m], s[h]) <= 0
  }

  /** Element `m` of a segment of `n` is its middle one, the median of the first, the middle and the last one, or the
      median of three such medians. */
  ghost predicate IsPivot<T>(cmp: (T, T) -> int, s: seq<T>, lo: nat, n: nat, m: nat)
    requires 7 <= n && lo + n <= |s|
  {
    if n == 7 then m == lo + 3
    else if n <= 40 then IsMedian(cmp, s, lo, lo + n / 2, lo + n - 1, m)
    else exists p: nat, q: nat, r: nat :: IsMedianOfMedians(cmp, s, lo, n, p, q, r, m)
  }

  ghost predicate IsMedianOfMedians<T>(cmp: (T, T) -> int, s: seq<T>, lo: nat, n: nat, p: nat, q: nat, r: nat, m: nat)
    requires 7 <= n && lo + n <= |s|
  {
    var d, mid, last := n / 8, lo + n / 2, lo + n - 1;
    && IsMedian(cmp, s, lo, lo + d, lo + 2 * d, p) && IsMedian(cmp, s, mid - d, mid, mid + d, q)
    && IsMedian(cmp, s, last - 2 * d, last - d, last, r) && IsMedian(cmp, s, p, q, r, m)
  }

  /** Index of the middle element, of the median of three, or of the median of three medians. */
  method ChoosePivot<T(!new)>(a: array<T>, lo: nat, n: nat, cmp: (T, T) -> int, ghost dom: set<T>)
    returns (pm: nat)
    requires 7 <= n && lo + n <= a.Length && Among(a[..], lo, lo + n, dom)
    ensures lo <= pm < lo + n && (TotalPreorder(cmp, dom) ==> IsPivot(cmp, a[..], lo, n, pm))
  {
    hide TotalPreorder, Among, IsMedian;
    AllAmong(a, lo, lo + n, dom);
    pm := lo + n / 2;
    if n > 7 {
      var pl, pn := lo, lo + n - 1;
      if n > 40 { pl, pm, pn := ThreeMedians(a, lo, n, cmp, dom); }
      ghost var p, q, r := pl, pm, pn;
      pm := Med3(a, pl, pm, pn, cmp, dom);
      if n > 40 && TotalPreorder(cmp, dom) { assert IsMedianOfMedians(cmp, a[..], lo, n, p, q, r, pm); }
    }
  }

  /** The medians of three elements at the beginning, in the middle, and at the end of a segment. */
  method ThreeMedians<T(!new)>(a: array<T>, lo: nat, n: nat, cmp: (T, T) -> int, ghost dom: set<T>)
    returns (p: nat, q: nat, r: nat)
    requires 40 < n && lo + n <= a.Length && forall k :: lo <= k < lo + n ==> a[k] in dom
    ensures lo <= p < lo + n && lo <= q < lo + n && lo <= r < lo + n
    ensures TotalPreorder(cmp, dom) ==>
              var d, mid, last := n / 8, lo + n / 2, lo + n - 1;
              && IsMedian(cmp, a[..], lo, lo + d, lo + 2 * d, p) && IsMedian(cmp, a[..], mid - d, mid, mid + d, q)
              && IsMedian(cmp, a[..], last - 2 * d, last - d, last, r)
  {
    hide TotalPreorder, IsMedian;
    var d, mid, last := n / 8, lo + n / 2, lo + n - 1;
    p := Med3(a, lo, lo + d, lo + 2 * d, cmp, dom);
    q := Med3(a, mid - d, mid, mid + d, cmp, dom);
    r := Med3(a, last - 2 * d, last - d, last, cmp, dom);
  }

  /** One pass over a segment: it is sorted outright, or split into `l` smaller elements, `r` greater
      elements, and at least one equal to the pivot `v` between them. */
  method Pass<T(!new)>(a: array<T>, lo: nat, n: nat, cmp: (T, T) -> int, ghost dom: set<T>)
    returns (done: bool, l: nat, r: nat, ghost v: T)
    requires lo + n <= a.Length && Reflexive(cmp, dom) && Among(a[..], lo, lo + n, dom) && 0 < n
    modifies a
    ensures done && TotalPreorder(cmp, dom) ==> SortedSegment(cmp, a, lo, lo + n)
    ensures !done ==> ThreeWay(cmp, a, lo, lo + n, l, r, v) && v in dom && 7 <= n
    ensures !done && TotalPreorder(cmp, dom) ==>
              exists pm: nat :: lo <= pm < lo + n && IsPivot(cmp, old(a[..]), lo, n, pm) && v == old(a[..])[pm]
    ensures PermutedWithin(old(a[..]), a[..], lo, lo + n)
  {
    hide IsPivot, ThreeWay, Parted, PermutedWithin, SortedSegment, TotalPreorder;
    done, l, r, v := true, 0, 0, a[lo];
    if n < 7 {
      InsertionSort(a, lo, n, cmp, dom);
      return;
    }
    var pm := ChoosePivot(a, lo, n, cmp, dom);
    Swap(a, lo, pm, lo, lo + n);
    StillAmong(old(a[..]), a[..], lo, lo + n, dom);
    v := a[lo];
    assert v == a[..][lo] && cmp(v, v) == 0;
    label Swapped:
    var pa, pb, pc, pd, swapped := Partition(a, lo, lo + n, cmp);
    StillAmong(old@Swapped(a[..]), a[..], lo, lo + n, dom);
    Then(old(a[..]), old@Swapped(a[..]), a[..], lo, lo + n);
    label Parted:
    if !swapped {
      InsertionSort(a, lo, n, cmp, dom);
      Then(old(a[..]), old@Parted(a[..]), a[..], lo, lo + n);
      return;
    }
    v := a[lo];
    assert v == a[..][lo];
    Gather(a, lo, lo + n, pa, pb, pc, pd, cmp);
    Then(old(a[..]), old@Parted(a[..]), a[..], lo, lo + n);
    done, l, r := false, pb - pa, pd - pc;
  }

  lemma Triple<T>(cmp: (T, T) -> int, dom: set<T>, x: T, v: T, y: T)
    requires TotalPreorder(cmp, dom) && x in dom && v in dom && y in dom && cmp(x, v) <= 0 && cmp(y, v) >= 0
    ensures cmp(x, y) <= 0
  {
    assert cmp(v, y) <= 0;
  }

  /** With its smaller part sorted, a three-way segment is sorted up to its greater part, which is above it. */
  lemma FrontSorted<T>(cmp: (T, T) -> int, dom: set<T>, a: array<T>, lo: nat, hi: nat, l: nat, r: nat, v: T)
    requires TotalPreorder(cmp, dom) && ThreeWay(cmp, a, lo, hi, l, r, v) && SortedSegment(cmp, a, lo, lo + l)
    requires Among(a[..], lo, hi, dom) && v in dom
    ensures SortedSegment(cmp, a, lo, hi - r)
    ensures forall i, j :: lo <= i < hi - r <= j < hi ==> cmp(a[i], a[j]) <= 0
  {
    forall i, j | lo <= i < j < hi && (i < hi - r <= j || lo + l <= j < hi - r) ensures cmp(a[i], a[j]) <= 0 {
      assert a[..][i] in dom && a[..][j] in dom;
      Triple(cmp, dom, a[i], v, a[j]);
    }
  }

  /** Everything before `p` compares at most everything from `p` on. */
  ghost predicate Split<T>(cmp: (T, T) -> int, s: seq<T>, lo: int, p: int, hi: int)
    requires 0 <= lo && hi <= |s|
  {
    forall i, j :: lo <= i < p <= j < hi ==> cmp(s[i], s[j]) <= 0
  }

  lemma SplitCarried<T(!new)>(cmp: (T, T) -> int, s: seq<T>, t: seq<T>, lo: nat, p: nat, hi: nat)
    requires lo <= p <= hi <= |s| && PermutedWithin(s, t, p, hi)
    requires Split(cmp, s, lo, p, hi)
    ensures Split(cmp, t, lo, p, hi)
  {
    forall i | lo <= i < p ensures forall j :: p <= j < hi ==> cmp(t[i], t[j]) <= 0 {
      Carry(s, t, p, hi, x => cmp(s[i], x) <= 0);
    }
  }

  lemma AgainstCarried<T(!new)>(cmp: (T, T) -> int, s: seq<T>, t: seq<T>, l: nat, h: nat, v: T)
    requires l <= h <= |s| && PermutedWithin(s, t, l, h)
    requires forall k :: l <= k < h ==> cmp(s[k], v) < 0
    ensures forall k :: l <= k < h ==> cmp(t[k], v) < 0
  {
    Carry(s, t, l, h, x => cmp(x, v) < 0);
  }

  /** The smaller part of a split segment is sorted in place; the rest of the split stays. */
  method SortFront<T(!new)>(a: array<T>, lo: nat, hi: nat, l: nat, r: nat, ghost v: T, cmp: (T, T) -> int,
                            ghost dom: set<T>)
    requires Reflexive(cmp, dom) && ThreeWay(cmp, a, lo, hi, l, r, v) && Among(a[..], lo, hi, dom) && v in dom
    modifies a
    ensures TotalPreorder(cmp, dom) ==> SortedSegment(cmp, a, lo, hi - r) && Split(cmp, a[..], lo, hi - r, hi)
    ensures PermutedWithin(old(a[..]), a[..], lo, hi)
    decreases l, 2
  {
    hide TotalPreorder;
    if l > 1 { Sort(a, lo, l, cmp, dom); }
    AgainstCarried(cmp, old(a[..]), a[..], lo, lo + l, v);
    assert Against(cmp, a, lo + l, hi - r, v, 0) && Against(cmp, a, hi - r, hi, v, 1);
    StillAmong(old(a[..]), a[..], lo, hi, dom);
    if TotalPreorder(cmp, dom) { FrontSorted(cmp, dom, a, lo, hi, l, r, v); }
  }

  lemma Extended<T(!new)>(cmp: (T, T) -> int, a: array<T>, lo: nat, p: nat, q: nat, hi: nat)
    requires lo <= p <= q <= hi <= a.Length
    requires SortedSegment(cmp, a, lo, p) && Split(cmp, a[..], lo, p, hi)
    requires SortedSegment(cmp, a, p, q) && Split(cmp, a[..], p, q, hi)
    ensures SortedSegment(cmp, a, lo, q) && Split(cmp, a[..], lo, q, hi)
  {
    forall i, j | lo <= i < j < hi && (j < q || i < q <= j) ensures cmp(a[i], a[j]) <= 0 {
      assert a[..][i] == a[i] && a[..][j] == a[j];
    }
  }

  /** One turn of the sorting loop: the sorted front grows from `p` to `q`. */
  method Round<T(!new)>(a: array<T>, lo: nat, p: nat, hi: nat, cmp: (T, T) -> int, ghost dom: set<T>)
    returns (q: nat)
    requires lo <= p < hi <= a.Length && Reflexive(cmp, dom) && Among(a[..], p, hi, dom)
    requires TotalPreorder(cmp, dom) ==> SortedSegment(cmp, a, lo, p) && Split(cmp, a[..], lo, p, hi)
    modifies a
    ensures p < q <= hi
    ensures TotalPreorder(cmp, dom) ==> SortedSegment(cmp, a, lo, q) && Split(cmp, a[..], lo, q, hi)
    ensures PermutedWithin(old(a[..]), a[..], p, hi)
    decreases hi - p, 0
  {
    hide TotalPreorder;
    var done, l, r, v := Pass(a, p, hi - p, cmp, dom);
    StillAmong(old(a[..]), a[..], p, hi, dom);
    if done {
      q := hi;
    } else {
      SortFront(a, p, hi, l, r, v, cmp, dom);
      q := hi - r;
    }
    if TotalPreorder(cmp, dom) {
      SplitCarried(cmp, old(a[..]), a[..], lo, p, hi);
      Extended(cmp, a, lo, p, q, hi);
    }
  }

  /** Sorts the `n` elements from `lo` on.  The smaller part of each pass is sorted by a recursive call, the
      greater part by the next turn of the loop. */
  method Sort<T(!new)>(a: array<T>, lo: nat, n: nat, cmp: (T, T) -> int, ghost dom: set<T>)
    requires lo + n <= a.Length && Reflexive(cmp, dom) && Among(a[..], lo, lo + n, dom)
    modifies a
    ensures TotalPreorder(cmp, dom) ==> SortedSegment(cmp, a, lo, lo + n)
    ensures PermutedWithin(old(a[..]), a[..], lo, lo + n)
    decreases n, 1
  {
    var p := lo;
    while p < lo + n
      invariant lo <= p <= lo + n
      invariant TotalPreorder(cmp, dom) ==> SortedSegment(cmp, a, lo, p) && Split(cmp, a[..], lo, p, lo + n)
      invariant PermutedWithin(old(a[..]), a[..], lo, lo + n)
    {
      StillAmong(old(a[..]), a[..], lo, lo + n, dom);
      p := Round(a, lo, p, lo + n, cmp, dom);
    }
  }
}
