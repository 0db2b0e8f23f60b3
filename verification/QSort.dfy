/** The three-way quicksort that the Android build uses for `qsort_r`.
    Elements are abstract; pointers become indices into one array, and the
    range being sorted is `a[lo..lo + n]`. */
module QSort {

  /** What the C standard asks of a comparator. Reflexivity follows from the first part. */
  ghost predicate TotalPreorder<T(!new)>(cmp: (T, T) -> int) {
    && (forall x, y :: cmp(x, y) > 0 <==> cmp(y, x) < 0)
    && (forall x, y, z :: cmp(x, y) <= 0 && cmp(y, z) <= 0 ==> cmp(x, z) <= 0)
  }

  ghost predicate SortedRange<T>(cmp: (T, T) -> int, s: seq<T>, lo: nat, hi: nat) {
    hi <= |s| && forall i, j :: lo <= i < j < hi ==> cmp(s[i], s[j]) <= 0
  }

  /** `t` rearranges the part of `s` inside `[lo, hi)` and keeps the rest. */
  ghost predicate PermutedWithin<T>(s: seq<T>, t: seq<T>, lo: nat, hi: nat) {
    && lo <= hi <= |s| == |t|
    && multiset(s) == multiset(t)
    && s[..lo] == t[..lo] && s[hi..] == t[hi..]
  }

  lemma PermutedRange<T>(s: seq<T>, t: seq<T>, lo: nat, hi: nat)
    requires PermutedWithin(s, t, lo, hi)
    ensures multiset(s[lo..hi]) == multiset(t[lo..hi])
    ensures forall k :: lo <= k < hi ==> t[k] in s[lo..hi]
  {
    assert s == s[..lo] + s[lo..hi] + s[hi..];
    assert t == t[..lo] + t[lo..hi] + t[hi..];
    calc {
      multiset(s[lo..hi]);
      multiset(s) - multiset(s[..lo]) - multiset(s[hi..]);
      multiset(t) - multiset(t[..lo]) - multiset(t[hi..]);
      multiset(t[lo..hi]);
    }
    forall k | lo <= k < hi ensures t[k] in s[lo..hi] {
      assert t[lo..hi][k - lo] == t[k];
      assert t[k] in multiset(t[lo..hi]);
    }
  }

  lemma PermutedWiden<T>(s: seq<T>, t: seq<T>, lo: nat, hi: nat, lo': nat, hi': nat)
    requires PermutedWithin(s, t, lo, hi)
    requires lo' <= lo && hi <= hi' <= |s|
    ensures PermutedWithin(s, t, lo', hi')
  {
    assert s[..lo'] == s[..lo][..lo'];
    assert t[..lo'] == t[..lo][..lo'];
    assert s[hi'..] == s[hi..][hi' - hi..];
    assert t[hi'..] == t[hi..][hi' - hi..];
  }

  lemma PermutedRefl<T>(s: seq<T>, lo: nat, hi: nat)
    requires lo <= hi <= |s|
    ensures PermutedWithin(s, s, lo, hi)
  {}

  lemma PermutedTrans<T>(s: seq<T>, t: seq<T>, u: seq<T>, lo: nat, hi: nat)
    requires PermutedWithin(s, t, lo, hi) && PermutedWithin(t, u, lo, hi)
    ensures PermutedWithin(s, u, lo, hi)
  {}

  function Swapped<T>(s: seq<T>, i: nat, j: nat): (t: seq<T>)
    requires i < |s| && j < |s|
    ensures |t| == |s|
  {
    s[i := s[j]][j := s[i]]
  }

  lemma SwappedPermutes<T>(s: seq<T>, i: nat, j: nat, lo: nat, hi: nat)
    requires lo <= i < hi && lo <= j < hi <= |s|
    ensures PermutedWithin(s, Swapped(s, i, j), lo, hi)
  {}

  lemma SwappedStep<T>(s: seq<T>, t: seq<T>, i: nat, j: nat, lo: nat, hi: nat)
    requires PermutedWithin(s, t, lo, hi) && lo <= i < hi && lo <= j < hi
    ensures PermutedWithin(s, Swapped(t, i, j), lo, hi)
  {
    SwappedPermutes(t, i, j, lo, hi);
    PermutedTrans(s, t, Swapped(t, i, j), lo, hi);
  }

  method Swap<T>(a: array<T>, i: nat, j: nat)
    requires i < a.Length && j < a.Length
    modifies a
    ensures a[..] == Swapped(old(a[..]), i, j)
  {
    a[i], a[j] := a[j], a[i];
  }

  method SwapWithin<T>(a: array<T>, i: nat, j: nat, ghost lo: nat, ghost hi: nat)
    requires lo <= i < hi && lo <= j < hi <= a.Length
    modifies a
    ensures PermutedWithin(old(a[..]), a[..], lo, hi)
  {
    Swap(a, i, j);
    SwappedPermutes(old(a[..]), i, j, lo, hi);
  }

  /** `Swap`, seen as one more step of a rearrangement of `s0`. */
  method SwapStep<T>(a: array<T>, i: nat, j: nat, ghost s0: seq<T>, ghost lo: nat, ghost hi: nat)
    requires lo <= i < hi && lo <= j < hi <= a.Length
    requires PermutedWithin(s0, a[..], lo, hi)
    modifies a
    ensures a[i] == old(a[j]) && a[j] == old(a[i])
    ensures forall k :: 0 <= k < a.Length && k != i && k != j ==> a[k] == old(a[k])
    ensures PermutedWithin(s0, a[..], lo, hi)
  {
    ghost var before := a[..];
    Swap(a, i, j);
    assert a[..] == Swapped(before, i, j);
    assert forall k :: 0 <= k < a.Length ==> a[k] == a[..][k];
    SwappedStep(s0, before, i, j, lo, hi);
  }

  /** `t` is `s` with the blocks of `r` elements at `i` and at `j` exchanged. */
  ghost predicate BlocksSwapped<T>(s: seq<T>, t: seq<T>, i: nat, j: nat, r: nat) {
    && i + r <= j && j + r <= |s| == |t|
    && (forall k :: i <= k < i + r ==> t[k] == s[k + (j - i)])
    && (forall k :: j <= k < j + r ==> t[k] == s[k - (j - i)])
    && (forall k :: 0 <= k < |s| && !(i <= k < i + r) && !(j <= k < j + r) ==> t[k] == s[k])
  }

  method VecSwap<T>(a: array<T>, i: nat, j: nat, r: nat, ghost lo: nat, ghost hi: nat)
    requires lo <= i && i + r <= j && j + r <= hi <= a.Length
    modifies a
    ensures BlocksSwapped(old(a[..]), a[..], i, j, r)
    ensures PermutedWithin(old(a[..]), a[..], lo, hi)
  {
    hide PermutedWithin;
    PermutedRefl(a[..], lo, hi);
    var k: nat := 0;
    while k < r
      invariant 0 <= k <= r
      invariant forall m :: i <= m < i + k ==> a[m] == old(a[m + (j - i)])
      invariant forall m :: j <= m < j + k ==> a[m] == old(a[m - (j - i)])
      invariant forall m :: 0 <= m < a.Length && !(i <= m < i + k) && !(j <= m < j + k) ==> a[m] == old(a[m])
      invariant PermutedWithin(old(a[..]), a[..], lo, hi)
    {
      SwapStep(a, i + k, j + k, old(a[..]), lo, hi);
      k := k + 1;
    }
  }

  /** The index, among three, of a median element. */
  function Med3<T>(s: seq<T>, i: nat, j: nat, k: nat, cmp: (T, T) -> int): (m: nat)
    requires i < |s| && j < |s| && k < |s|
    ensures m == i || m == j || m == k
  {
    if cmp(s[i], s[j]) < 0 then
      if cmp(s[j], s[k]) < 0 then j else if cmp(s[i], s[k]) < 0 then k else i
    else
      if cmp(s[j], s[k]) > 0 then j else if cmp(s[i], s[k]) < 0 then i else k
  }

  /** `lower`, `m`, `upper` are the positions `i`, `j`, `k` in some order, and their elements ascend. */
  ghost predicate Ascending<T>(s: seq<T>, i: nat, j: nat, k: nat, cmp: (T, T) -> int, lower: nat, m: nat, upper: nat) {
    && multiset{lower, m, upper} == multiset{i, j, k}
    && lower < |s| && m < |s| && upper < |s|
    && cmp(s[lower], s[m]) <= 0 && cmp(s[m], s[upper]) <= 0
  }

  lemma Med3IsMedian<T(!new)>(s: seq<T>, i: nat, j: nat, k: nat, cmp: (T, T) -> int)
    requires i < |s| && j < |s| && k < |s| && TotalPreorder(cmp)
    ensures exists lower, upper :: Ascending(s, i, j, k, cmp, lower, Med3(s, i, j, k, cmp), upper)
  {
    var m := Med3(s, i, j, k, cmp);
    if cmp(s[i], s[j]) < 0 {
      if cmp(s[j], s[k]) < 0 {
        assert m == j && Ascending(s, i, j, k, cmp, i, m, k);
      } else if cmp(s[i], s[k]) < 0 {
        assert m == k && Ascending(s, i, j, k, cmp, i, m, j);
      } else {
        assert m == i && Ascending(s, i, j, k, cmp, k, m, j);
      }
    } else if cmp(s[j], s[k]) > 0 {
      assert m == j && Ascending(s, i, j, k, cmp, k, m, i);
    } else if cmp(s[i], s[k]) < 0 {
      assert m == i && Ascending(s, i, j, k, cmp, j, m, k);
    } else {
      assert m == k && Ascending(s, i, j, k, cmp, j, m, i);
    }
  }

  /** Every element of `a[p..q]` compares to `v` with the given sign (-1, 0 or 1). */
  ghost predicate Side<T>(cmp: (T, T) -> int, s: seq<T>, p: nat, q: nat, v: T, sign: int) {
    q <= |s| && forall k :: p <= k < q ==>
      var c := cmp(s[k], v);
      if sign < 0 then c < 0 else if sign == 0 then c == 0 else c > 0
  }

  /** In `s[lo..pm + 1]` every two elements are in order, but for the one at `pl` and what precedes it. */
  ghost predicate SortedBut<T>(cmp: (T, T) -> int, s: seq<T>, lo: nat, pm: nat, pl: nat) {
    pm < |s| && forall i, j :: lo <= i < j <= pm && j != pl ==> cmp(s[i], s[j]) <= 0
  }

  lemma SiftStart<T>(cmp: (T, T) -> int, s: seq<T>, lo: nat, pm: nat)
    requires pm < |s|
    ensures SortedRange(cmp, s, lo, pm) ==> SortedBut(cmp, s, lo, pm, pm)
  {}

  lemma SiftStep<T(!new)>(cmp: (T, T) -> int, s: seq<T>, lo: nat, pm: nat, pl: nat)
    requires lo < pl <= pm < |s|
    requires SortedBut(cmp, s, lo, pm, pl) && cmp(s[pl - 1], s[pl]) > 0
    requires TotalPreorder(cmp)
    ensures SortedBut(cmp, Swapped(s, pl, pl - 1), lo, pm, pl - 1)
  {}

  lemma SiftStop<T(!new)>(cmp: (T, T) -> int, s: seq<T>, lo: nat, pm: nat, pl: nat)
    requires lo <= pl <= pm < |s|
    requires SortedBut(cmp, s, lo, pm, pl) && (pl == lo || cmp(s[pl - 1], s[pl]) <= 0)
    requires TotalPreorder(cmp)
    ensures SortedRange(cmp, s, lo, pm + 1)
  {
    forall i, j | lo <= i < j <= pm ensures cmp(s[i], s[j]) <= 0 {
      if j == pl && i < pl - 1 {
        assert cmp(s[i], s[pl - 1]) <= 0;
      }
    }
  }

  /** The inner loop of the insertion sort: moves `a[pm]` down to its place. */
  method Sift<T(!new)>(a: array<T>, lo: nat, pm: nat, ghost hi: nat, cmp: (T, T) -> int)
    requires lo < pm < hi <= a.Length
    requires TotalPreorder(cmp) ==> SortedRange(cmp, a[..], lo, pm)
    modifies a
    ensures PermutedWithin(old(a[..]), a[..], lo, hi)
    ensures TotalPreorder(cmp) ==> SortedRange(cmp, a[..], lo, pm + 1)
  {
    hide PermutedWithin, TotalPreorder, SortedBut, SortedRange, Swapped;
    PermutedRefl(a[..], lo, hi);
    SiftStart(cmp, a[..], lo, pm);
    var pl: nat := pm;
    ghost var ord := TotalPreorder(cmp);
    while pl > lo && cmp(a[pl - 1], a[pl]) > 0
      invariant lo <= pl <= pm
      invariant PermutedWithin(old(a[..]), a[..], lo, hi)
      invariant ord ==> SortedBut(cmp, a[..], lo, pm, pl)
      decreases pl
    {
      ghost var before := a[..];
      Swap(a, pl, pl - 1);
      SwappedStep(old(a[..]), before, pl, pl - 1, lo, hi);
      if ord {
        SiftStep(cmp, before, lo, pm, pl);
      }
      pl := pl - 1;
    }
    if ord {
      SiftStop(cmp, a[..], lo, pm, pl);
    }
  }

  method InsertionSort<T(!new)>(a: array<T>, lo: nat, n: nat, cmp: (T, T) -> int)
    requires lo + n <= a.Length
    modifies a
    ensures Sorted(cmp, old(a[..]), a[..], lo, lo + n)
  {
    var hi := lo + n;
    PermutedRefl(a[..], lo, hi);
    hide PermutedWithin, TotalPreorder;
    if n == 0 { return; }
    var pm: nat := lo + 1;
    while pm < hi
      invariant lo < pm <= hi
      invariant PermutedWithin(old(a[..]), a[..], lo, hi)
      invariant TotalPreorder(cmp) ==> SortedRange(cmp, a[..], lo, pm)
    {
      ghost var before := a[..];
      Sift(a, lo, pm, hi, cmp);
      PermutedTrans(old(a[..]), before, a[..], lo, hi);
      pm := pm + 1;
    }
  }

  /** The range being partitioned reads, in order: equal to the pivot `s[lo]`, less,
      not yet looked at (`s[pb..pc]`), greater, equal. `pc` is one past the last unseen element. */
  ghost predicate Fat<T>(cmp: (T, T) -> int, s: seq<T>, lo: nat, hi: nat, pa: nat, pb: nat, pc: nat, pd: nat) {
    && lo < pa <= pb <= pc <= pd <= hi <= |s|
    && Side(cmp, s, lo + 1, pa, s[lo], 0) && Side(cmp, s, pa, pb, s[lo], -1)
    && Side(cmp, s, pc, pd, s[lo], 1) && Side(cmp, s, pd, hi, s[lo], 0)
  }

  lemma FatStart<T>(cmp: (T, T) -> int, s: seq<T>, lo: nat, hi: nat)
    requires lo < hi <= |s|
    ensures Fat(cmp, s, lo, hi, lo + 1, lo + 1, hi, hi)
  {}

  lemma FatUp<T>(cmp: (T, T) -> int, s: seq<T>, lo: nat, hi: nat, pa: nat, pb: nat, pc: nat, pd: nat)
    requires Fat(cmp, s, lo, hi, pa, pb, pc, pd) && pb < pc
    ensures cmp(s[pb], s[lo]) < 0 ==> Fat(cmp, s, lo, hi, pa, pb + 1, pc, pd)
    ensures cmp(s[pb], s[lo]) == 0 ==> Swapped(s, pa, pb)[lo] == s[lo] && Fat(cmp, Swapped(s, pa, pb), lo, hi, pa + 1, pb + 1, pc, pd)
  {}

  lemma FatDown<T>(cmp: (T, T) -> int, s: seq<T>, lo: nat, hi: nat, pa: nat, pb: nat, pc: nat, pd: nat)
    requires pc < pd && Fat(cmp, s, lo, hi, pa, pb, pc + 1, pd) && pb <= pc
    ensures cmp(s[pc], s[lo]) > 0 ==> Fat(cmp, s, lo, hi, pa, pb, pc, pd)
    ensures cmp(s[pc], s[lo]) == 0 ==>
      Swapped(s, pc, pd - 1)[lo] == s[lo] && Fat(cmp, Swapped(s, pc, pd - 1), lo, hi, pa, pb, pc, pd - 1)
    ensures pb < pc ==> Swapped(s, pc, pd - 1)[pb] == s[pb]
  {}

  lemma FatCross<T>(cmp: (T, T) -> int, s: seq<T>, lo: nat, hi: nat, pa: nat, pb: nat, pc: nat, pd: nat)
    requires Fat(cmp, s, lo, hi, pa, pb, pc, pd) && pb + 1 < pc
    requires cmp(s[pb], s[lo]) > 0 && cmp(s[pc - 1], s[lo]) < 0
    ensures Swapped(s, pb, pc - 1)[lo] == s[lo] && Fat(cmp, Swapped(s, pb, pc - 1), lo, hi, pa, pb + 1, pc - 1, pd)
  {}

  method ScanUp<T>(a: array<T>, lo: nat, ghost hi: nat, cmp: (T, T) -> int, pa0: nat, pb0: nat, pc: nat, ghost pd: nat)
    returns (pa: nat, pb: nat, swapped: bool)
    requires lo < pa0 <= pb0 <= pc <= pd <= hi <= a.Length && Fat(cmp, a[..], lo, hi, pa0, pb0, pc, pd)
    modifies a
    ensures PermutedWithin(old(a[..]), a[..], lo, hi)
    ensures lo < pa <= pb <= pc <= pd <= hi
    ensures Fat(cmp, a[..], lo, hi, pa, pb, pc, pd) && pb0 <= pb && a[lo] == old(a[lo])
    ensures pb < pc ==> cmp(a[pb], a[lo]) > 0
    ensures !swapped ==> pa == pa0 && a[..] == old(a[..])
  {
    hide *;
    PermutedRefl(a[..], lo, hi);
    pa, pb, swapped := pa0, pb0, false;
    while pb < pc && cmp(a[pb], a[lo]) <= 0
      invariant PermutedWithin(old(a[..]), a[..], lo, hi)
      invariant lo < pa <= pb <= pc <= pd <= hi
      invariant Fat(cmp, a[..], lo, hi, pa, pb, pc, pd) && pb0 <= pb && a[lo] == old(a[lo])
      invariant !swapped ==> pa == pa0 && a[..] == old(a[..])
    {
      ghost var before := a[..];
      if cmp(a[pb], a[lo]) == 0 {
        swapped := true;
        Swap(a, pa, pb);
        SwappedStep(old(a[..]), before, pa, pb, lo, hi);
        FatUp(cmp, before, lo, hi, pa, pb, pc, pd);
        pa := pa + 1;
      } else {
        FatUp(cmp, before, lo, hi, pa, pb, pc, pd);
      }
      pb := pb + 1;
    }
  }

  method ScanDown<T>(a: array<T>, lo: nat, ghost hi: nat, cmp: (T, T) -> int, ghost pa: nat, pb: nat, pc0: nat, pd0: nat)
    returns (pc: nat, pd: nat, swapped: bool)
    requires lo < pa <= pb <= pc0 <= pd0 <= hi <= a.Length && Fat(cmp, a[..], lo, hi, pa, pb, pc0, pd0)
    requires pb < pc0 ==> cmp(a[pb], a[lo]) > 0
    modifies a
    ensures PermutedWithin(old(a[..]), a[..], lo, hi)
    ensures lo < pa <= pb <= pc <= pd <= hi
    ensures Fat(cmp, a[..], lo, hi, pa, pb, pc, pd) && pc <= pc0 && a[lo] == old(a[lo])
    ensures pb < pc ==> cmp(a[pb], a[lo]) > 0 && cmp(a[pc - 1], a[lo]) < 0
    ensures !swapped ==> pd == pd0 && a[..] == old(a[..])
  {
    hide *;
    PermutedRefl(a[..], lo, hi);
    pc, pd, swapped := pc0, pd0, false;
    while pb < pc && cmp(a[pc - 1], a[lo]) >= 0
      invariant PermutedWithin(old(a[..]), a[..], lo, hi)
      invariant lo < pa <= pb <= pc <= pd <= hi
      invariant Fat(cmp, a[..], lo, hi, pa, pb, pc, pd) && pc <= pc0 && a[lo] == old(a[lo])
      invariant pb < pc ==> cmp(a[pb], a[lo]) > 0
      invariant !swapped ==> pd == pd0 && a[..] == old(a[..])
      decreases pc
    {
      ghost var before := a[..];
      pc := pc - 1;
      FatDown(cmp, before, lo, hi, pa, pb, pc, pd);
      if cmp(a[pc], a[lo]) == 0 {
        swapped := true;
        pd := pd - 1;
        Swap(a, pc, pd);
        SwappedStep(old(a[..]), before, pc, pd, lo, hi);
      }
    }
  }

  method FatPartition<T>(a: array<T>, lo: nat, n: nat, cmp: (T, T) -> int)
    returns (pa: nat, pb: nat, pd: nat, swapped: bool)
    requires n >= 1 && lo + n <= a.Length
    modifies a
    ensures PermutedWithin(old(a[..]), a[..], lo, lo + n)
    ensures lo < pa <= pb <= pd <= lo + n
    ensures Fat(cmp, a[..], lo, lo + n, pa, pb, pb, pd) && a[lo] == old(a[lo])
    ensures !swapped ==> pa == lo + 1 && pd == lo + n && a[..] == old(a[..])
  {
    hide *;
    ghost var hi := lo + n;
    PermutedRefl(a[..], lo, hi);
    FatStart(cmp, a[..], lo, hi);
    pa, pb, pd, swapped := lo + 1, lo + 1, lo + n, false;
    var pc: nat := pd;
    while true
      invariant PermutedWithin(old(a[..]), a[..], lo, hi)
      invariant lo < pa <= pb <= pc <= pd <= hi
      invariant Fat(cmp, a[..], lo, hi, pa, pb, pc, pd) && a[lo] == old(a[lo])
      invariant !swapped ==> pa == lo + 1 && pd == hi && a[..] == old(a[..])
      decreases pc - pb
    {
      ghost var before := a[..];
      var up, down;
      pa, pb, up := ScanUp(a, lo, hi, cmp, pa, pb, pc, pd);
      PermutedTrans(old(a[..]), before, a[..], lo, hi);
      before := a[..];
      pc, pd, down := ScanDown(a, lo, hi, cmp, pa, pb, pc, pd);
      PermutedTrans(old(a[..]), before, a[..], lo, hi);
      swapped := swapped || up || down;
      if pb >= pc { break; }
      before := a[..];
      Swap(a, pb, pc - 1);
      SwappedStep(old(a[..]), before, pb, pc - 1, lo, hi);
      FatCross(cmp, before, lo, hi, pa, pb, pc, pd);
      swapped := true;
      pb := pb + 1;
      pc := pc - 1;
    }
  }

  /** `s[lo..hi]` reads less than `v`, equal to it, greater than it. */
  ghost predicate Banded<T>(cmp: (T, T) -> int, s: seq<T>, lo: nat, m1: nat, m2: nat, hi: nat, v: T) {
    lo <= m1 <= m2 <= hi <= |s| && Side(cmp, s, lo, m1, v, -1) && Side(cmp, s, m1, m2, v, 0) && Side(cmp, s, m2, hi, v, 1)
  }

  lemma GatherLow<T>(cmp: (T, T) -> int, s: seq<T>, t: seq<T>, lo: nat, pa: nat, pb: nat, r: nat, v: T)
    requires lo <= pa <= pb && r == Min(pa - lo, pb - pa) && BlocksSwapped(s, t, lo, pb - r, r)
    requires Side(cmp, s, lo, pa, v, 0) && Side(cmp, s, pa, pb, v, -1)
    ensures Side(cmp, t, lo, lo + (pb - pa), v, -1) && Side(cmp, t, lo + (pb - pa), pb, v, 0)
  {}

  lemma GatherHigh<T>(cmp: (T, T) -> int, s: seq<T>, t: seq<T>, pb: nat, pd: nat, hi: nat, r: nat, v: T)
    requires pb <= pd <= hi && r == Min(pd - pb, hi - pd) && BlocksSwapped(s, t, pb, hi - r, r)
    requires Side(cmp, s, pb, pd, v, 1) && Side(cmp, s, pd, hi, v, 0)
    ensures Side(cmp, t, pb, hi - (pd - pb), v, 0) && Side(cmp, t, hi - (pd - pb), hi, v, 1)
  {}

  lemma SideFrame<T>(cmp: (T, T) -> int, s: seq<T>, t: seq<T>, p: nat, q: nat, v: T, sign: int)
    requires Side(cmp, s, p, q, v, sign) && |t| == |s| && forall k :: p <= k < q ==> t[k] == s[k]
    ensures Side(cmp, t, p, q, v, sign)
  {}

  lemma SideJoin<T>(cmp: (T, T) -> int, s: seq<T>, p: nat, m: nat, q: nat, v: T, sign: int)
    requires p <= m <= q && Side(cmp, s, p, m, v, sign) && Side(cmp, s, m, q, v, sign)
    ensures Side(cmp, s, p, q, v, sign)
  {}

  function Min(x: nat, y: nat): nat { if x < y then x else y }

  /** The two block swaps that bring the elements equal to the pivot to the middle. */
  method Gather<T>(a: array<T>, lo: nat, n: nat, cmp: (T, T) -> int, pa: nat, pb: nat, pd: nat)
    requires lo < pa <= pb <= pd <= lo + n <= a.Length
    requires Fat(cmp, a[..], lo, lo + n, pa, pb, pb, pd)
    modifies a
    ensures PermutedWithin(old(a[..]), a[..], lo, lo + n)
    ensures cmp(old(a[lo]), old(a[lo])) == 0 ==>
      Banded(cmp, a[..], lo, lo + (pb - pa), lo + n - (pd - pb), lo + n, old(a[lo]))
  {
    hide PermutedWithin, Side, BlocksSwapped;
    var hi := lo + n;
    ghost var s, v := a[..], a[lo];
    var r := Min(pa - lo, pb - pa);
    VecSwap(a, lo, pb - r, r, lo, hi);
    ghost var t := a[..];
    var q := Min(pd - pb, hi - pd);
    VecSwap(a, pb, hi - q, q, lo, hi);
    PermutedTrans(s, t, a[..], lo, hi);
    if cmp(v, v) == 0 {
      GatherBands(cmp, s, t, a[..], lo, hi, pa, pb, pd, r, q);
    }
  }

  lemma GatherBands<T>(cmp: (T, T) -> int, s: seq<T>, t: seq<T>, u: seq<T>, lo: nat, hi: nat,
                       pa: nat, pb: nat, pd: nat, r: nat, q: nat)
    requires Fat(cmp, s, lo, hi, pa, pb, pb, pd) && cmp(s[lo], s[lo]) == 0
    requires r == Min(pa - lo, pb - pa) && BlocksSwapped(s, t, lo, pb - r, r)
    requires q == Min(pd - pb, hi - pd) && BlocksSwapped(t, u, pb, hi - q, q)
    ensures Banded(cmp, u, lo, lo + (pb - pa), hi - (pd - pb), hi, s[lo])
  {
    var v := s[lo];
    GatherLow(cmp, s, t, lo, pa, pb, r, v);
    SideFrame(cmp, s, t, pb, pd, v, 1);
    SideFrame(cmp, s, t, pd, hi, v, 0);
    GatherHigh(cmp, t, u, pb, pd, hi, q, v);
    SideFrame(cmp, t, u, lo, lo + (pb - pa), v, -1);
    SideFrame(cmp, t, u, lo + (pb - pa), pb, v, 0);
    SideJoin(cmp, u, lo + (pb - pa), pb, hi - (pd - pb), v, 0);
  }

  /** `s[lo0..lo]` is in order and nothing after it belongs before any of it. */
  ghost predicate PrefixDone<T>(cmp: (T, T) -> int, s: seq<T>, lo0: nat, lo: nat, hi: nat) {
    && lo0 <= lo <= hi <= |s|
    && SortedRange(cmp, s, lo0, lo)
    && forall i, j :: lo0 <= i < lo <= j < hi ==> cmp(s[i], s[j]) <= 0
  }

  lemma PrefixKept<T>(cmp: (T, T) -> int, s: seq<T>, t: seq<T>, lo0: nat, lo: nat, hi: nat)
    requires PrefixDone(cmp, s, lo0, lo, hi) && PermutedWithin(s, t, lo, hi)
    ensures PrefixDone(cmp, t, lo0, lo, hi)
  {
    PermutedRange(s, t, lo, hi);
    assert forall i :: 0 <= i < lo ==> t[i] == t[..lo][i] == s[..lo][i] == s[i];
    forall i, j | lo0 <= i < lo <= j < hi ensures cmp(t[i], t[j]) <= 0 {
      var m :| 0 <= m < hi - lo && s[lo..hi][m] == t[j];
      assert cmp(s[i], s[lo + m]) <= 0;
    }
  }

  lemma PrefixEnd<T>(cmp: (T, T) -> int, s: seq<T>, lo0: nat, lo: nat, hi: nat)
    requires PrefixDone(cmp, s, lo0, lo, hi) && (hi - lo <= 1 || SortedRange(cmp, s, lo, hi))
    ensures SortedRange(cmp, s, lo0, hi)
  {}

  lemma BandsKept<T>(cmp: (T, T) -> int, s: seq<T>, t: seq<T>, lo: nat, m1: nat, m2: nat, hi: nat, v: T)
    requires Banded(cmp, s, lo, m1, m2, hi, v) && PermutedWithin(s, t, lo, m1)
    ensures Banded(cmp, t, lo, m1, m2, hi, v)
  {
    PermutedRange(s, t, lo, m1);
    forall k | lo <= k < m1 ensures cmp(t[k], v) < 0 {
      var m :| 0 <= m < m1 - lo && s[lo..m1][m] == t[k];
      assert cmp(s[lo + m], v) < 0;
    }
    assert forall k :: m1 <= k < hi ==> t[k] == t[m1..][k - m1] == s[m1..][k - m1] == s[k];
  }

  lemma BandedPairs<T(!new)>(cmp: (T, T) -> int, x: T, y: T, v: T)
    requires TotalPreorder(cmp) && cmp(x, v) <= 0 && cmp(y, v) >= 0
    ensures cmp(x, y) <= 0
  {
    assert cmp(v, y) <= 0;
  }

  /** With the low band in order, the sorted prefix grows over it and the middle band. */
  lemma BandsAdvance<T(!new)>(cmp: (T, T) -> int, s: seq<T>, lo0: nat, lo: nat, m1: nat, m2: nat, hi: nat, v: T)
    requires TotalPreorder(cmp)
    requires PrefixDone(cmp, s, lo0, lo, hi) && Banded(cmp, s, lo, m1, m2, hi, v) && SortedRange(cmp, s, lo, m1)
    ensures PrefixDone(cmp, s, lo0, m2, hi)
  {
    hide TotalPreorder;
    forall i, j | lo0 <= i < j < hi && i < m2 ensures cmp(s[i], s[j]) <= 0 {
      if lo <= i && m1 <= j { BandedPairs(cmp, s[i], s[j], v); }
    }
  }

  /** The middle element, the median of three, or of nine spread over a large range. */
  function PivotIndex<T>(s: seq<T>, lo: nat, n: nat, cmp: (T, T) -> int): (m: nat)
    requires 7 <= n && lo + n <= |s|
    ensures lo <= m < lo + n
  {
    var mid := lo + n / 2;
    if n == 7 then mid
    else if n <= 40 then Med3(s, lo, mid, lo + n - 1, cmp)
    else
      var d := n / 8;
      Med3(s,
           Med3(s, lo, lo + d, lo + 2 * d, cmp),
           Med3(s, mid - d, mid, mid + d, cmp),
           Med3(s, lo + n - 1 - 2 * d, lo + n - 1 - d, lo + n - 1, cmp),
           cmp)
  }

  /** The sort of `s0[lo0..hi]` has come to `s`, with only `s[lo..hi]` left to do. */
  ghost predicate Sorting<T(!new)>(cmp: (T, T) -> int, s0: seq<T>, s: seq<T>, lo0: nat, lo: nat, hi: nat) {
    && lo0 <= lo && PermutedWithin(s0, s, lo0, hi)
    && (TotalPreorder(cmp) ==> PrefixDone(cmp, s, lo0, lo, hi))
  }

  ghost predicate Sorted<T(!new)>(cmp: (T, T) -> int, s0: seq<T>, s: seq<T>, lo: nat, hi: nat) {
    PermutedWithin(s0, s, lo, hi) && (TotalPreorder(cmp) ==> SortedRange(cmp, s, lo, hi))
  }

  lemma SortingStart<T(!new)>(cmp: (T, T) -> int, s: seq<T>, lo: nat, hi: nat)
    requires lo <= hi <= |s|
    ensures Sorting(cmp, s, s, lo, lo, hi)
  {}

  lemma SortingStep<T(!new)>(cmp: (T, T) -> int, s0: seq<T>, s: seq<T>, t: seq<T>, lo0: nat, lo: nat, hi: nat)
    requires Sorting(cmp, s0, s, lo0, lo, hi) && PermutedWithin(s, t, lo, hi)
    ensures Sorting(cmp, s0, t, lo0, lo, hi)
  {
    hide TotalPreorder;
    PermutedWiden(s, t, lo, hi, lo0, hi);
    PermutedTrans(s0, s, t, lo0, hi);
    if TotalPreorder(cmp) { PrefixKept(cmp, s, t, lo0, lo, hi); }
  }

  lemma SortingEnd<T(!new)>(cmp: (T, T) -> int, s0: seq<T>, s: seq<T>, t: seq<T>, lo0: nat, lo: nat, hi: nat)
    requires Sorting(cmp, s0, s, lo0, lo, hi) && Sorted(cmp, s, t, lo, hi)
    ensures Sorted(cmp, s0, t, lo0, hi)
  {
    hide TotalPreorder;
    SortingStep(cmp, s0, s, t, lo0, lo, hi);
    if TotalPreorder(cmp) { PrefixEnd(cmp, t, lo0, lo, hi); }
  }

  lemma SortingShort<T(!new)>(cmp: (T, T) -> int, s0: seq<T>, s: seq<T>, lo0: nat, lo: nat, hi: nat)
    requires Sorting(cmp, s0, s, lo0, lo, hi) && hi - lo <= 1
    ensures Sorted(cmp, s0, s, lo0, hi)
  {
    hide TotalPreorder;
    if TotalPreorder(cmp) { PrefixEnd(cmp, s, lo0, lo, hi); }
  }

  /** The low band `s[lo..m1]` has been sorted into `t`. */
  lemma SortingAdvance<T(!new)>(cmp: (T, T) -> int, s0: seq<T>, s: seq<T>, t: seq<T>,
                                lo0: nat, lo: nat, m1: nat, m2: nat, hi: nat, v: T)
    requires lo <= m1 <= m2 <= hi && Sorting(cmp, s0, s, lo0, lo, hi)
    requires TotalPreorder(cmp) ==> Banded(cmp, s, lo, m1, m2, hi, v)
    requires Sorted(cmp, s, t, lo, m1)
    ensures Sorting(cmp, s0, t, lo0, m2, hi)
  {
    hide TotalPreorder;
    PermutedWiden(s, t, lo, m1, lo, hi);
    SortingStep(cmp, s0, s, t, lo0, lo, hi);
    if TotalPreorder(cmp) {
      BandsKept(cmp, s, t, lo, m1, m2, hi, v);
      BandsAdvance(cmp, t, lo0, lo, m1, m2, hi, v);
    }
  }

  lemma SelfEqual<T(!new)>(cmp: (T, T) -> int, v: T)
    requires TotalPreorder(cmp)
    ensures cmp(v, v) == 0
  {}

  method QSort<T(!new)>(a: array<T>, lo0: nat, n0: nat, cmp: (T, T) -> int)
    requires lo0 + n0 <= a.Length
    modifies a
    ensures Sorted(cmp, old(a[..]), a[..], lo0, lo0 + n0)
    decreases n0
  {
    hide *;
    var lo, n: nat := lo0, n0;
    ghost var hi: nat := lo0 + n0;
    ghost var s0 := a[..];
    SortingStart(cmp, s0, lo, hi);
    while true
      invariant lo0 <= lo && lo + n == hi && n <= n0
      invariant Sorting(cmp, s0, a[..], lo0, lo, hi)
      decreases n
    {
      ghost var s := a[..];
      if n < 7 {
        InsertionSort(a, lo, n, cmp);
        SortingEnd(cmp, s0, s, a[..], lo0, lo, hi);
        return;
      }
      SwapWithin(a, lo, PivotIndex(a[..], lo, n, cmp), lo, hi);
      SortingStep(cmp, s0, s, a[..], lo0, lo, hi);
      s := a[..];
      var pa, pb, pd, swapped := FatPartition(a, lo, n, cmp);
      SortingStep(cmp, s0, s, a[..], lo0, lo, hi);
      s := a[..];
      if !swapped {
        InsertionSort(a, lo, n, cmp);
        SortingEnd(cmp, s0, s, a[..], lo0, lo, hi);
        return;
      }
      ghost var v := a[lo];
      Gather(a, lo, n, cmp, pa, pb, pd);
      SortingStep(cmp, s0, s, a[..], lo0, lo, hi);
      if TotalPreorder(cmp) { SelfEqual(cmp, v); }
      s := a[..];
      var less, greater := pb - pa, pd - pb;
      if less > 1 {
        QSort(a, lo, less, cmp);
      } else {
        SortingStart(cmp, s, lo, lo + less);
        SortingShort(cmp, s, s, lo, lo, lo + less);
      }
      SortingAdvance(cmp, s0, s, a[..], lo0, lo, lo + less, hi - greater, hi, v);
      if greater <= 1 {
        SortingShort(cmp, s0, a[..], lo0, hi - greater, hi);
        return;
      }
      lo, n := lo + n - greater, greater;
    }
  }
}
