/** A pool cut up by boundary tags, seen as the list of its blocks, and what each heap operation
    makes of that list. */
module BlockPool {

  const MARK: nat := 8

  /** A block of the pool without the mark in front of it. */
  datatype Piece = Piece(size: nat, fill: bool)

  /** Where the mark of piece `i` stands. */
  function Off(bs: seq<Piece>, i: nat): (r: nat)
    requires i <= |bs|
    ensures r >= i * MARK
  {
    if i == 0 then 0 else Off(bs, i - 1) + MARK + bs[i - 1].size
  }

  function Extent(bs: seq<Piece>): nat { Off(bs, |bs|) }

  lemma {:induction false} OffPrefix(a: seq<Piece>, b: seq<Piece>, i: nat)
    requires i <= |a|
    ensures Off(a + b, i) == Off(a, i)
  {
    if i > 0 {
      OffPrefix(a, b, i - 1);
      assert (a + b)[i - 1] == a[i - 1];
    }
  }

  lemma {:induction false} OffSuffix(a: seq<Piece>, b: seq<Piece>, i: nat)
    requires i <= |b|
    ensures Off(a + b, |a| + i) == Extent(a) + Off(b, i)
  {
    if i == 0 {
      OffPrefix(a, b, |a|);
    } else {
      OffSuffix(a, b, i - 1);
      assert (a + b)[|a| + i - 1] == b[i - 1];
    }
  }

  lemma ExtentSum(a: seq<Piece>, b: seq<Piece>)
    ensures Extent(a + b) == Extent(a) + Extent(b)
  {
    OffSuffix(a, b, |b|);
  }

  lemma {:induction false} OffMonotone(bs: seq<Piece>, i: nat, j: nat)
    requires i < j <= |bs|
    ensures Off(bs, i) + MARK + bs[i].size <= Off(bs, j)
    decreases j
  {
    if i < j - 1 { OffMonotone(bs, i, j - 1); }
  }

  // ---- the list after each operation

  predicate NoTwins(bs: seq<Piece>) {
    forall i :: 0 < i < |bs| ==> bs[i - 1].fill || bs[i].fill
  }

  /** No piece is empty: a free one of no bytes would read as the end of the pool. */
  predicate NoneEmpty(bs: seq<Piece>) {
    forall i :: 0 <= i < |bs| ==> bs[i].size > 0
  }

  ghost predicate WellTiled(bs: seq<Piece>) { |bs| > 0 && NoTwins(bs) && NoneEmpty(bs) }

  /** Taking `size` bytes from free piece `i`; the rest is split off when a second mark is worth it. */
  function Alloc(bs: seq<Piece>, i: nat, size: nat): seq<Piece>
    requires i < |bs| && size <= bs[i].size
  {
    if bs[i].size > size + 2 * MARK then
      bs[..i] + [Piece(size, true), Piece(bs[i].size - size - MARK, false)] + bs[i + 1..]
    else
      bs[..i] + [Piece(bs[i].size, true)] + bs[i + 1..]
  }

  predicate FreeAt(bs: seq<Piece>, i: int) { 0 <= i < |bs| && !bs[i].fill }

  /** Giving piece `i` back: it joins a free piece before it and a free piece after it. */
  function Release(bs: seq<Piece>, i: nat): seq<Piece>
    requires i < |bs|
  {
    bs[..JoinLo(bs, i)] + [Piece(Joined(bs, i), false)] + bs[JoinHi(bs, i)..]
  }

  /** The pieces that become one when piece `i` is given back are those of `[JoinLo, JoinHi)`. */
  function JoinLo(bs: seq<Piece>, i: nat): (lo: nat)
    requires i < |bs|
    ensures lo <= i
  {
    if FreeAt(bs, i - 1) then i - 1 else i
  }

  function JoinHi(bs: seq<Piece>, i: nat): (hi: nat)
    requires i < |bs|
    ensures i < hi <= |bs|
  {
    if FreeAt(bs, i + 1) then i + 2 else i + 1
  }

  function Joined(bs: seq<Piece>, i: nat): nat
    requires i < |bs|
  {
    bs[i].size + (if FreeAt(bs, i - 1) then bs[i - 1].size + MARK else 0)
               + (if FreeAt(bs, i + 1) then bs[i + 1].size + MARK else 0)
  }

  lemma Whole(bs: seq<Piece>, lo: nat, hi: nat)
    requires lo <= hi <= |bs|
    ensures bs == bs[..lo] + bs[lo..hi] + bs[hi..]
    ensures Extent(bs) == Extent(bs[..lo]) + Extent(bs[lo..hi]) + Extent(bs[hi..])
  {
    ExtentSum(bs[..lo], bs[lo..hi]);
    ExtentSum(bs[..lo] + bs[lo..hi], bs[hi..]);
  }

  lemma Extent1(p: Piece)
    ensures Extent([p]) == MARK + p.size
  {
    assert Off([p], 1) == Off([p], 0) + MARK + p.size;
  }

  lemma Extent2(p: Piece, q: Piece)
    ensures Extent([p, q]) == 2 * MARK + p.size + q.size
  {
    assert [p, q] == [p] + [q];
    Extent1(p); Extent1(q);
    ExtentSum([p], [q]);
  }

  lemma Extent3(p: Piece, q: Piece, r: Piece)
    ensures Extent([p, q, r]) == 3 * MARK + p.size + q.size + r.size
  {
    assert [p, q, r] == [p, q] + [r];
    Extent2(p, q); Extent1(r);
    ExtentSum([p, q], [r]);
  }

  /** Putting `mid` for `bs[lo..hi]` keeps the pool exactly covered when the two cover as much. */
  lemma SpliceExtent(bs: seq<Piece>, lo: nat, hi: nat, mid: seq<Piece>)
    requires lo <= hi <= |bs| && Extent(mid) == Extent(bs[lo..hi])
    ensures Extent(bs[..lo] + mid + bs[hi..]) == Extent(bs)
  {
    Whole(bs, lo, hi);
    ExtentSum(bs[..lo], mid);
    ExtentSum(bs[..lo] + mid, bs[hi..]);
  }

  lemma AllocExtent(bs: seq<Piece>, i: nat, size: nat)
    requires i < |bs| && size <= bs[i].size
    ensures Extent(Alloc(bs, i, size)) == Extent(bs)
  {
    assert bs[i..i + 1] == [bs[i]];
    Extent1(bs[i]);
    if bs[i].size > size + 2 * MARK {
      Extent2(Piece(size, true), Piece(bs[i].size - size - MARK, false));
      SpliceExtent(bs, i, i + 1, [Piece(size, true), Piece(bs[i].size - size - MARK, false)]);
    } else {
      Extent1(Piece(bs[i].size, true));
      SpliceExtent(bs, i, i + 1, [Piece(bs[i].size, true)]);
    }
  }

  lemma AllocKeeps(bs: seq<Piece>, i: nat, size: nat)
    requires WellTiled(bs) && FreeAt(bs, i) && 0 < size <= bs[i].size
    ensures WellTiled(Alloc(bs, i, size)) && Extent(Alloc(bs, i, size)) == Extent(bs)
  {
    hide Extent;
    AllocExtent(bs, i, size);
    var r := Alloc(bs, i, size);
    var n := |r| - |bs|;
    assert forall k :: 0 <= k < |r| && k != i && k != i + n ==> r[k] == bs[if k < i then k else k - n];
  }

  lemma ReleaseExtent(bs: seq<Piece>, i: nat)
    requires i < |bs|
    ensures Extent(Release(bs, i)) == Extent(bs)
  {
    var lo, hi := JoinLo(bs, i), JoinHi(bs, i);
    Extent1(Piece(Joined(bs, i), false));
    Extent1(bs[i]);
    if lo < i && i + 1 < hi {
      assert bs[lo..hi] == [bs[i - 1], bs[i], bs[i + 1]];
      Extent3(bs[i - 1], bs[i], bs[i + 1]);
    } else if lo < i {
      assert bs[lo..hi] == [bs[i - 1], bs[i]];
      Extent2(bs[i - 1], bs[i]);
    } else if i + 1 < hi {
      assert bs[lo..hi] == [bs[i], bs[i + 1]];
      Extent2(bs[i], bs[i + 1]);
    } else {
      assert bs[lo..hi] == [bs[i]];
    }
    SpliceExtent(bs, lo, hi, [Piece(Joined(bs, i), false)]);
  }

  lemma ReleaseKeeps(bs: seq<Piece>, i: nat)
    requires WellTiled(bs) && i < |bs| && bs[i].fill
    ensures WellTiled(Release(bs, i)) && Extent(Release(bs, i)) == Extent(bs)
  {
    ReleaseExtent(bs, i);
  }

  /** Freeing a piece makes an end mark in the middle of the pool exactly when the piece is empty
      and has no free neighbour to join: requests of no bytes are what the heap cannot take. */
  lemma ReleaseForgesEnd(bs: seq<Piece>, i: nat)
    requires i < |bs| && bs[i].fill && forall k :: 0 <= k < |bs| && !bs[k].fill ==> bs[k].size > 0
    ensures (exists k :: 0 <= k < |Release(bs, i)| && Release(bs, i)[k] == Piece(0, false))
      <==> bs[i].size == 0 && !FreeAt(bs, i - 1) && !FreeAt(bs, i + 1)
  {
    var lo, hi := JoinLo(bs, i), JoinHi(bs, i);
    var r := Release(bs, i);
    assert r[lo] == Piece(Joined(bs, i), false);
    forall k | 0 <= k < |r| && k != lo ensures r[k] != Piece(0, false) {
      assert r[k] == if k < lo then bs[k] else bs[k - lo - 1 + hi];
    }
  }

  // ---- payloads

  /** The bytes handed out and not given back, as start and length. */
  function Payloads(bs: seq<Piece>): set<(nat, nat)> {
    set i | 0 <= i < |bs| && bs[i].fill :: (Off(bs, i) + MARK, bs[i].size)
  }

  predicate Apart(p: (nat, nat), q: (nat, nat)) { p.0 + p.1 <= q.0 || q.0 + q.1 <= p.0 }

  /** Payloads do not overlap each other, any mark, or the end of the pool. */
  lemma PayloadsApart(bs: seq<Piece>, p: (nat, nat))
    requires p in Payloads(bs)
    ensures forall q :: q in Payloads(bs) && q != p ==> Apart(p, q)
    ensures forall k :: 0 <= k <= |bs| ==> Apart(p, (Off(bs, k), MARK))
    ensures p.0 + p.1 <= Extent(bs)
  {
    var i :| 0 <= i < |bs| && bs[i].fill && p == (Off(bs, i) + MARK, bs[i].size);
    OffMonotone(bs, i, |bs|);
    forall q | q in Payloads(bs) && q != p ensures Apart(p, q) {
      var j :| 0 <= j < |bs| && bs[j].fill && q == (Off(bs, j) + MARK, bs[j].size);
      if i < j { OffMonotone(bs, i, j); } else if j < i { OffMonotone(bs, j, i); }
    }
    forall k | 0 <= k <= |bs| ensures Apart(p, (Off(bs, k), MARK)) {
      if i < k { OffMonotone(bs, i, k); } else if k < i { OffMonotone(bs, k, i); }
    }
  }

  lemma PayloadsSplit(a: seq<Piece>, b: seq<Piece>, p: (nat, nat))
    ensures p in Payloads(a + b) <==> p in Payloads(a) || (p.0 >= Extent(a) && (p.0 - Extent(a), p.1) in Payloads(b))
  {
    hide Payloads;
    if p in Payloads(a + b) { PayloadsOfSum(a, b, p); }
    if p in Payloads(a) { PayloadsLeft(a, b, p); }
    if p.0 >= Extent(a) && (p.0 - Extent(a), p.1) in Payloads(b) { PayloadsRight(a, b, p); }
  }

  lemma PayloadsOfSum(a: seq<Piece>, b: seq<Piece>, p: (nat, nat))
    requires p in Payloads(a + b)
    ensures p in Payloads(a) || (p.0 >= Extent(a) && (p.0 - Extent(a), p.1) in Payloads(b))
  {
    var i :| 0 <= i < |a + b| && (a + b)[i].fill && p == (Off(a + b, i) + MARK, (a + b)[i].size);
    if i < |a| {
      OffPrefix(a, b, i);
      assert (a + b)[i] == a[i];
    } else {
      OffSuffix(a, b, i - |a|);
      assert (a + b)[i] == b[i - |a|];
      assert (p.0 - Extent(a), p.1) == (Off(b, i - |a|) + MARK, b[i - |a|].size);
    }
  }

  lemma PayloadsLeft(a: seq<Piece>, b: seq<Piece>, p: (nat, nat))
    requires p in Payloads(a)
    ensures p in Payloads(a + b)
  {
    var i :| 0 <= i < |a| && a[i].fill && p == (Off(a, i) + MARK, a[i].size);
    OffPrefix(a, b, i);
    assert (a + b)[i] == a[i];
  }

  lemma PayloadsRight(a: seq<Piece>, b: seq<Piece>, p: (nat, nat))
    requires p.0 >= Extent(a) && (p.0 - Extent(a), p.1) in Payloads(b)
    ensures p in Payloads(a + b)
  {
    var i :| 0 <= i < |b| && b[i].fill && (p.0 - Extent(a), p.1) == (Off(b, i) + MARK, b[i].size);
    OffSuffix(a, b, i);
    assert (a + b)[|a| + i] == b[i];
  }

  lemma SplicePayloads(bs: seq<Piece>, lo: nat, hi: nat, mid: seq<Piece>, p: (nat, nat))
    requires lo <= hi <= |bs| && Extent(mid) == Extent(bs[lo..hi])
    ensures p in Payloads(bs[..lo] + mid + bs[hi..]) <==>
      || p in Payloads(bs[..lo])
      || (p.0 >= Off(bs, lo) && (p.0 - Off(bs, lo), p.1) in Payloads(mid))
      || (p.0 >= Off(bs, hi) && (p.0 - Off(bs, hi), p.1) in Payloads(bs[hi..]))
  {
    OffWhole(bs, lo, hi);
    PayloadsSplit(bs[..lo] + mid, bs[hi..], p);
    PayloadsSplit(bs[..lo], mid, p);
    ExtentSum(bs[..lo], mid);
  }

  lemma OffWhole(bs: seq<Piece>, lo: nat, hi: nat)
    requires lo <= hi <= |bs|
    ensures Off(bs, lo) == Extent(bs[..lo]) && Off(bs, hi) == Extent(bs[..lo]) + Extent(bs[lo..hi])
  {
    assert bs == bs[..lo] + bs[lo..];
    OffPrefix(bs[..lo], bs[lo..], lo);
    assert bs == bs[..hi] + bs[hi..];
    OffPrefix(bs[..hi], bs[hi..], hi);
    assert bs[..hi] == bs[..lo] + bs[lo..hi];
    ExtentSum(bs[..lo], bs[lo..hi]);
  }

  lemma Payloads1(a: Piece)
    ensures Payloads([a]) == if a.fill then {(MARK, a.size)} else {}
  {
    assert Off([a], 0) == 0;
    assert [a][0] == a;
  }

  lemma Payloads2(a: Piece, b: Piece)
    ensures Payloads([a, b]) == (if a.fill then {(MARK, a.size)} else {}) + (if b.fill then {(2 * MARK + a.size, b.size)} else {})
  {
    assert [a, b] == [a] + [b];
    Payloads1(a); Payloads1(b); Extent1(a);
    forall p ensures p in Payloads([a, b]) <==> (a.fill && p == (MARK, a.size)) || (b.fill && p == (2 * MARK + a.size, b.size)) {
      PayloadsSplit([a], [b], p);
    }
  }

  lemma Payloads3(a: Piece, b: Piece, c: Piece)
    requires !a.fill && !c.fill
    ensures Payloads([a, b, c]) == if b.fill then {(2 * MARK + a.size, b.size)} else {}
  {
    assert [a, b, c] == [a, b] + [c];
    Payloads2(a, b); Payloads1(c);
    forall p ensures p in Payloads([a, b, c]) <==> b.fill && p == (2 * MARK + a.size, b.size) {
      PayloadsSplit([a, b], [c], p);
    }
  }

  /** How many bytes an allocation of `size` bytes from a piece gets: the rest may not be worth a mark. */
  function Granted(p: Piece, size: nat): (r: nat)
    ensures size <= p.size ==> size <= r <= p.size
  {
    if p.size > size + 2 * MARK then size else p.size
  }

  /** An allocation adds one payload, large enough, at the piece it took, and touches no other. */
  lemma AllocPayloads(bs: seq<Piece>, i: nat, size: nat)
    requires i < |bs| && FreeAt(bs, i) && size <= bs[i].size
    ensures Granted(bs[i], size) >= size
    ensures (Off(bs, i) + MARK, Granted(bs[i], size)) !in Payloads(bs)
    ensures Payloads(Alloc(bs, i, size)) == Payloads(bs) + {(Off(bs, i) + MARK, Granted(bs[i], size))}
  {
    hide *;
    var taken := (Off(bs, i) + MARK, Granted(bs[i], size));
    forall p ensures p in Payloads(Alloc(bs, i, size)) <==> p in Payloads(bs) || p == taken {
      AllocPayload(bs, i, size, p);
    }
    FreeHasNoPayload(bs, i, taken.1);
  }

  /** What is granted is what was asked for, or the whole piece where no more than two marks would be left. */
  lemma GrantedTight(x: Piece, size: nat)
    requires size <= x.size
    ensures size <= Granted(x, size) <= size + 2 * MARK
    ensures x.size > size + 2 * MARK <==> Granted(x, size) < x.size
    ensures Granted(x, size) < x.size ==> Granted(x, size) == size
  {}

  lemma FreeHasNoPayload(bs: seq<Piece>, i: nat, n: nat)
    requires FreeAt(bs, i)
    ensures (Off(bs, i) + MARK, n) !in Payloads(bs)
  {
    hide Payloads, Off;
    if (Off(bs, i) + MARK, n) in Payloads(bs) { PayloadOfFilled(bs, i, n); }
  }

  lemma AllocPayload(bs: seq<Piece>, i: nat, size: nat, p: (nat, nat))
    requires FreeAt(bs, i) && size <= bs[i].size
    ensures p in Payloads(Alloc(bs, i, size)) <==> p in Payloads(bs) || p == (Off(bs, i) + MARK, Granted(bs[i], size))
  {
    hide Off, Payloads, Extent;
    var mid := if bs[i].size > size + 2 * MARK then [Piece(size, true), Piece(bs[i].size - size - MARK, false)]
               else [Piece(bs[i].size, true)];
    MiddleAlloc(bs, i, size, mid);
    SplicePayloads(bs, i, i + 1, mid, p);
    SplicePayloads(bs, i, i + 1, bs[i..i + 1], p);
    Whole(bs, i, i + 1);
  }

  lemma MiddleAlloc(bs: seq<Piece>, i: nat, size: nat, mid: seq<Piece>)
    requires FreeAt(bs, i) && size <= bs[i].size
    requires mid == if bs[i].size > size + 2 * MARK then [Piece(size, true), Piece(bs[i].size - size - MARK, false)]
                    else [Piece(bs[i].size, true)]
    ensures Payloads(mid) == {(MARK, Granted(bs[i], size))}
    ensures Payloads(bs[i..i + 1]) == {} && Extent(mid) == Extent(bs[i..i + 1])
  {
    assert bs[i..i + 1] == [bs[i]];
    Extent1(bs[i]); Payloads1(bs[i]);
    if bs[i].size > size + 2 * MARK {
      Extent2(mid[0], mid[1]);
      Payloads2(mid[0], mid[1]);
    } else {
      Extent1(mid[0]);
      Payloads1(mid[0]);
    }
  }

  lemma PayloadOfFilled(bs: seq<Piece>, i: nat, n: nat)
    requires i < |bs| && (Off(bs, i) + MARK, n) in Payloads(bs)
    ensures bs[i].fill
  {
    var j :| 0 <= j < |bs| && bs[j].fill && Off(bs, j) == Off(bs, i);
    if i < j { OffMonotone(bs, i, j); } else if j < i { OffMonotone(bs, j, i); }
  }

  /** Giving a piece back removes its payload and no other. */
  lemma ReleasePayloads(bs: seq<Piece>, i: nat)
    requires i < |bs| && bs[i].fill
    ensures (Off(bs, i) + MARK, bs[i].size) in Payloads(bs)
    ensures Payloads(Release(bs, i)) == Payloads(bs) - {(Off(bs, i) + MARK, bs[i].size)}
  {
    hide *;
    var lo, hi := JoinLo(bs, i), JoinHi(bs, i);
    var mid := [Piece(Joined(bs, i), false)];
    var gone := (Off(bs, i) + MARK, bs[i].size);
    MiddleRelease(bs, i, lo, hi);
    SpliceRelease(bs, i, lo, hi, mid);
    FilledHasPayload(bs, i);
    forall p ensures p in Payloads(Release(bs, i)) <==> p in Payloads(bs) && p != gone {
      ReleasePayload(bs, i, lo, hi, mid, p);
    }
  }

  lemma MiddleRelease(bs: seq<Piece>, i: nat, lo: nat, hi: nat)
    requires i < |bs| && bs[i].fill
    requires lo == JoinLo(bs, i) && hi == JoinHi(bs, i)
    ensures Off(bs, lo) <= Off(bs, i)
    ensures Payloads(bs[lo..hi]) == {(Off(bs, i) - Off(bs, lo) + MARK, bs[i].size)}
  {
    if lo < i && i + 1 < hi {
      assert bs[lo..hi] == [bs[i - 1], bs[i], bs[i + 1]];
      Payloads3(bs[i - 1], bs[i], bs[i + 1]);
    } else if lo < i {
      assert bs[lo..hi] == [bs[i - 1], bs[i]];
      Payloads2(bs[i - 1], bs[i]);
    } else if i + 1 < hi {
      assert bs[lo..hi] == [bs[i], bs[i + 1]];
      Payloads2(bs[i], bs[i + 1]);
    } else {
      assert bs[lo..hi] == [bs[i]];
      Payloads1(bs[i]);
    }
  }

  lemma SpliceRelease(bs: seq<Piece>, i: nat, lo: nat, hi: nat, mid: seq<Piece>)
    requires i < |bs| && mid == [Piece(Joined(bs, i), false)]
    requires lo == JoinLo(bs, i) && hi == JoinHi(bs, i)
    ensures Extent(mid) == Extent(bs[lo..hi]) && Payloads(mid) == {}
  {
    ReleaseExtent(bs, i);
    Payloads1(mid[0]);
    Whole(bs, lo, hi);
    ExtentSum(bs[..lo], mid);
    ExtentSum(bs[..lo] + mid, bs[hi..]);
  }

  lemma ReleasePayload(bs: seq<Piece>, i: nat, lo: nat, hi: nat, mid: seq<Piece>, p: (nat, nat))
    requires i < |bs| && bs[i].fill && mid == [Piece(Joined(bs, i), false)]
    requires lo == JoinLo(bs, i) && hi == JoinHi(bs, i)
    requires Extent(mid) == Extent(bs[lo..hi]) && Payloads(mid) == {} && Off(bs, lo) <= Off(bs, i)
    requires Payloads(bs[lo..hi]) == {(Off(bs, i) - Off(bs, lo) + MARK, bs[i].size)}
    ensures p in Payloads(Release(bs, i)) <==> p in Payloads(bs) && p != (Off(bs, i) + MARK, bs[i].size)
  {
    hide Off, Payloads, Extent;
    SplicePayloads(bs, lo, hi, mid, p);
    SplicePayloads(bs, lo, hi, bs[lo..hi], p);
    Whole(bs, lo, hi);
    OutsidePayloads(bs, i, lo, hi);
  }

  /** Pieces before `lo` and from `hi` on have other payloads than piece `i`. */
  lemma OutsidePayloads(bs: seq<Piece>, i: nat, lo: nat, hi: nat)
    requires lo <= i < hi <= |bs|
    ensures (Off(bs, i) + MARK, bs[i].size) !in Payloads(bs[..lo])
    ensures Off(bs, i) + MARK >= Off(bs, hi) ==> (Off(bs, i) + MARK - Off(bs, hi), bs[i].size) !in Payloads(bs[hi..])
  {
    hide Payloads;
    OffWhole(bs, lo, hi);
    PayloadsEnd(bs[..lo]);
    if lo < i { OffMonotone(bs, lo, i); }
    OffMonotone(bs, i, hi);
    PayloadsStart(bs[hi..]);
  }

  lemma PayloadsEnd(bs: seq<Piece>)
    ensures forall p :: p in Payloads(bs) ==> p.0 + p.1 <= Extent(bs)
  {
    forall p | p in Payloads(bs) ensures p.0 + p.1 <= Extent(bs) { PayloadsApart(bs, p); }
  }

  lemma PayloadsStart(bs: seq<Piece>)
    ensures forall p :: p in Payloads(bs) ==> p.0 >= MARK
  {}

  lemma FilledHasPayload(bs: seq<Piece>, i: nat)
    requires i < |bs| && bs[i].fill
    ensures (Off(bs, i) + MARK, bs[i].size) in Payloads(bs)
  {}
}
