/** The marks themselves: what the two-way links between neighbours look like in memory. */
module BlockMarks {
  import opened BlockPool

  const END := Piece(0, false)

  /** A mark describes the piece in front of it and the piece behind it. */
  datatype BlockMark = BlockMark(prev: Piece, next: Piece)

  /** Piece `x` lies behind the mark at `p`, and both marks around it describe it. */
  predicate Linked(m: seq<BlockMark>, p: nat, x: Piece) {
    p + MARK + x.size < |m| && m[p].next == x && m[p + MARK + x.size].prev == x
  }

  predicate LinkedAt(m: seq<BlockMark>, base: nat, bs: seq<Piece>, i: nat)
    requires i < |bs|
  {
    Linked(m, base + Off(bs, i), bs[i])
  }

  /** The pieces `bs` lie in memory from the mark at `base` on. */
  ghost predicate Seg(m: seq<BlockMark>, base: nat, bs: seq<Piece>) {
    base + Extent(bs) < |m| && forall i :: 0 <= i < |bs| ==> LinkedAt(m, base, bs, i)
  }

  /** Memory is exactly covered: a start mark, the pieces, an end mark in the last `MARK` bytes. */
  ghost predicate Tiled(m: seq<BlockMark>, bs: seq<Piece>) {
    && Extent(bs) + MARK == |m|
    && m[0].prev == END && m[Extent(bs)].next == END
    && Seg(m, 0, bs)
  }

  /** Two memories agree on the marks of a segment, seen from inside it. */
  ghost predicate Agree(m: seq<BlockMark>, w: seq<BlockMark>, lo: nat, hi: nat) {
    && |m| == |w|
    && (forall o :: lo <= o < hi && o < |m| ==> m[o].next == w[o].next)
    && (forall o :: lo < o <= hi && o < |m| ==> m[o].prev == w[o].prev)
  }

  lemma AgreeLength(m: seq<BlockMark>, w: seq<BlockMark>, lo: nat, hi: nat)
    requires Agree(m, w, lo, hi)
    ensures |m| == |w|
  {}

  lemma SegAgree(m: seq<BlockMark>, w: seq<BlockMark>, base: nat, bs: seq<Piece>)
    requires Seg(m, base, bs) && Agree(m, w, base, base + Extent(bs))
    ensures Seg(w, base, bs)
  {
    forall i | 0 <= i < |bs| ensures LinkedAt(w, base, bs, i) {
      assert LinkedAt(m, base, bs, i);
      OffMonotone(bs, i, |bs|);
    }
  }

  lemma SegJoin(m: seq<BlockMark>, base: nat, a: seq<Piece>, b: seq<Piece>)
    requires Seg(m, base, a) && Seg(m, base + Extent(a), b)
    ensures Seg(m, base, a + b)
  {
    hide Off, Linked;
    ExtentSum(a, b);
    var c := a + b;
    forall i | 0 <= i < |c| ensures LinkedAt(m, base, c, i) {
      if i < |a| {
        OffPrefix(a, b, i);
        assert LinkedAt(m, base, a, i);
      } else {
        OffSuffix(a, b, i - |a|);
        assert LinkedAt(m, base + Extent(a), b, i - |a|);
      }
    }
  }

  lemma SegSplit(m: seq<BlockMark>, base: nat, a: seq<Piece>, b: seq<Piece>)
    requires Seg(m, base, a + b)
    ensures Seg(m, base, a) && Seg(m, base + Extent(a), b)
  {
    hide Off, Linked;
    ExtentSum(a, b);
    var c := a + b;
    forall i | 0 <= i < |a| ensures LinkedAt(m, base, a, i) {
      OffPrefix(a, b, i);
      assert LinkedAt(m, base, c, i);
    }
    var at := base + Extent(a);
    forall i | 0 <= i < |b| ensures LinkedAt(m, at, b, i) {
      OffSuffix(a, b, i);
      assert LinkedAt(m, base, c, |a| + i);
    }
  }

  /** Replacing the pieces of `[lo, hi)` by `mid`, when only marks from `lo` to `hi` were written. */
  lemma TiledSplice(m: seq<BlockMark>, w: seq<BlockMark>, bs: seq<Piece>, lo: nat, hi: nat, mid: seq<Piece>)
    requires lo < hi <= |bs| && Tiled(m, bs) && |w| == |m|
    requires Extent(mid) == Extent(bs[lo..hi]) && Seg(w, Off(bs, lo), mid)
    requires Agree(m, w, 0, Off(bs, lo)) && Agree(m, w, Off(bs, hi), Extent(bs))
    requires w[0].prev == END && w[Extent(bs)].next == END
    ensures Tiled(w, bs[..lo] + mid + bs[hi..])
  {
    hide Seg, Agree, Off, Extent;
    OffWhole(bs, lo, hi);
    Whole(bs, lo, hi);
    AgreeLength(m, w, 0, Off(bs, lo));
    SegSplit(m, 0, bs[..lo] + bs[lo..hi], bs[hi..]);
    SegSplit(m, 0, bs[..lo], bs[lo..hi]);
    ExtentSum(bs[..lo], bs[lo..hi]);
    SegAgree(m, w, 0, bs[..lo]);
    SegAgree(m, w, Off(bs, hi), bs[hi..]);
    SegJoin(w, 0, bs[..lo], mid);
    ExtentSum(bs[..lo], mid);
    SegJoin(w, 0, bs[..lo] + mid, bs[hi..]);
    ExtentSum(bs[..lo] + mid, bs[hi..]);
  }

  lemma Seg1(m: seq<BlockMark>, base: nat, p: Piece)
    requires Linked(m, base, p)
    ensures Seg(m, base, [p])
  {
    Extent1(p);
    assert Off([p], 0) == 0;
  }

  lemma Seg2(m: seq<BlockMark>, base: nat, p: Piece, q: Piece)
    requires Linked(m, base, p) && Linked(m, base + MARK + p.size, q)
    ensures Seg(m, base, [p, q])
  {
    Extent1(p);
    Seg1(m, base, p);
    Seg1(m, base + MARK + p.size, q);
    SegJoin(m, base, [p], [q]);
    assert [p] + [q] == [p, q];
  }

  /** What the mark of piece `i` says, and where the next and the previous mark are. */
  lemma At(m: seq<BlockMark>, bs: seq<Piece>, i: nat)
    requires Tiled(m, bs) && i <= |bs|
    ensures Off(bs, i) < |m|
    ensures i < |bs| ==> m[Off(bs, i)].next == bs[i] && Off(bs, i + 1) == Off(bs, i) + MARK + bs[i].size < |m|
    ensures i > 0 ==> m[Off(bs, i)].prev == bs[i - 1] && Off(bs, i - 1) == Off(bs, i) - bs[i - 1].size - MARK
    ensures i == |bs| ==> m[Off(bs, i)].next == END
    ensures i == 0 ==> m[Off(bs, i)].prev == END
  {
    if i < |bs| {
      assert LinkedAt(m, 0, bs, i);
    }
    if i > 0 {
      assert LinkedAt(m, 0, bs, i - 1);
    }
  }

  /** A mark reads as the end only at the end. */
  lemma EndOnlyAtEnd(m: seq<BlockMark>, bs: seq<Piece>, i: nat)
    requires Tiled(m, bs) && NoneEmpty(bs) && i <= |bs|
    ensures Off(bs, i) < |m| && (m[Off(bs, i)].next == END <==> i == |bs|) && (m[Off(bs, i)].prev == END <==> i == 0)
  {
    At(m, bs, i);
  }

  // ---- searching

  /** The first free piece of at least `size` bytes, from `i` on. */
  function FirstFit(bs: seq<Piece>, i: nat, size: nat): (r: nat)
    requires i <= |bs|
    ensures i <= r <= |bs|
    ensures r < |bs| ==> !bs[r].fill && bs[r].size >= size
    ensures forall j :: i <= j < r ==> bs[j].fill || bs[j].size < size
    decreases |bs| - i
  {
    if i == |bs| then i else if !bs[i].fill && bs[i].size >= size then i else FirstFit(bs, i + 1, size)
  }

  predicate AllFilled(bs: seq<Piece>, i: nat)
    requires i <= |bs|
  {
    forall j :: 0 <= j < i ==> bs[j].fill
  }

  /** The largest free piece of `bs[lo..hi]`, in bytes. */
  function Largest(bs: seq<Piece>, lo: nat, hi: nat): (r: nat)
    requires lo <= hi <= |bs|
    ensures forall j :: lo <= j < hi && !bs[j].fill ==> bs[j].size <= r
    ensures r > 0 ==> exists j :: lo <= j < hi && !bs[j].fill && bs[j].size == r
  {
    if lo == hi then 0
    else
      var rest := Largest(bs, lo, hi - 1);
      if !bs[hi - 1].fill && bs[hi - 1].size > rest then bs[hi - 1].size else rest
  }

  /** What the summary of a pool should be: free pieces smaller than a mark do not count. */
  function MaxFree(bs: seq<Piece>): nat {
    var r := Largest(bs, 0, |bs|);
    if r >= MARK then r else 0
  }

  // ---- the writes of one operation

  lemma LinkAt(m: seq<BlockMark>, bs: seq<Piece>, i: nat)
    requires Tiled(m, bs) && i < |bs|
    ensures Linked(m, Off(bs, i), bs[i])
  {
    assert LinkedAt(m, 0, bs, i);
  }

  /** `allocBlock`: the piece at `p` is filled, and split when the rest is worth a mark. */
  function AllocMarks(m: seq<BlockMark>, p: nat, x: Piece, size: nat): seq<BlockMark>
    requires Linked(m, p, x) && size <= x.size
  {
    var n := p + MARK + x.size;
    if x.size > size + 2 * MARK then
      var taken, rest := Piece(size, true), Piece(x.size - size - MARK, false);
      m[p := m[p].(next := taken)][p + MARK + size := BlockMark(taken, rest)][n := m[n].(prev := rest)]
    else
      var taken := x.(fill := true);
      m[p := m[p].(next := taken)][n := m[n].(prev := taken)]
  }

  lemma AllocTiles(m: seq<BlockMark>, bs: seq<Piece>, i: nat, size: nat)
    requires Tiled(m, bs) && i < |bs| && size <= bs[i].size
    ensures Linked(m, Off(bs, i), bs[i])
    ensures Tiled(AllocMarks(m, Off(bs, i), bs[i], size), Alloc(bs, i, size))
  {
    hide *;
    LinkAt(m, bs, i);
    var w := AllocMarks(m, Off(bs, i), bs[i], size);
    AllocAgrees(m, bs, i, size, w);
    AllocLinks(m, Off(bs, i), bs[i], size);
    AllocShape(bs, i, size);
    TiledSplice(m, w, bs, i, i + 1, Cut(bs[i], size));
  }

  /** What becomes of the piece that is taken. */
  function Cut(x: Piece, size: nat): seq<Piece>
    requires size <= x.size
  {
    if x.size > size + 2 * MARK then [Piece(size, true), Piece(x.size - size - MARK, false)] else [x.(fill := true)]
  }

  lemma AllocShape(bs: seq<Piece>, i: nat, size: nat)
    requires i < |bs| && size <= bs[i].size
    ensures Alloc(bs, i, size) == bs[..i] + Cut(bs[i], size) + bs[i + 1..]
    ensures Extent(Cut(bs[i], size)) == Extent(bs[i..i + 1])
  {
    hide Extent;
    assert bs[i..i + 1] == [bs[i]];
    Extent1(bs[i]);
    Extent1(bs[i].(fill := true));
    if bs[i].size > size + 2 * MARK {
      Extent2(Piece(size, true), Piece(bs[i].size - size - MARK, false));
    }
  }

  lemma AllocLinks(m: seq<BlockMark>, p: nat, x: Piece, size: nat)
    requires Linked(m, p, x) && size <= x.size
    ensures Seg(AllocMarks(m, p, x, size), p, Cut(x, size))
  {
    hide Seg, Off;
    var w := AllocMarks(m, p, x, size);
    if x.size > size + 2 * MARK {
      Seg2(w, p, Piece(size, true), Piece(x.size - size - MARK, false));
    } else {
      Seg1(w, p, x.(fill := true));
    }
  }

  lemma AllocAgrees(m: seq<BlockMark>, bs: seq<Piece>, i: nat, size: nat, w: seq<BlockMark>)
    requires Tiled(m, bs) && i < |bs| && size <= bs[i].size && Linked(m, Off(bs, i), bs[i])
    requires w == AllocMarks(m, Off(bs, i), bs[i], size)
    ensures |w| == |m| && Off(bs, i + 1) <= Extent(bs) < |m| && i + 1 <= |bs|
    ensures Agree(m, w, 0, Off(bs, i)) && Agree(m, w, Off(bs, i + 1), Extent(bs))
    ensures w[0].prev == END && w[Extent(bs)].next == END
  {
    if i + 1 < |bs| { OffMonotone(bs, i + 1, |bs|); }
  }

  /** Memory `w` is `m` with the marks from `p` to `q` made to enclose one free piece of `n` bytes. */
  ghost predicate Enclosed(m: seq<BlockMark>, w: seq<BlockMark>, p: nat, q: nat, n: nat) {
    && |w| == |m| && q == p + MARK + n < |m|
    && w[p].next == Piece(n, false) && w[q].prev == Piece(n, false)
    && w[p].prev == m[p].prev && w[q].next == m[q].next
    && forall o :: 0 <= o < |m| && !(p <= o <= q) ==> w[o] == m[o]
  }

  /** `freeBlock`: the pieces of `[JoinLo, JoinHi)` have become one free piece. */
  lemma JoinTiles(m: seq<BlockMark>, w: seq<BlockMark>, bs: seq<Piece>, i: nat)
    requires i < |bs| && Tiled(m, bs)
    requires Enclosed(m, w, Off(bs, JoinLo(bs, i)), Off(bs, JoinHi(bs, i)), Joined(bs, i))
    ensures Tiled(w, Release(bs, i))
  {
    hide *;
    var lo, hi := JoinLo(bs, i), JoinHi(bs, i);
    JoinedExtent(bs, i);
    JoinAgrees(m, w, bs, lo, hi, Joined(bs, i));
    TiledSplice(m, w, bs, lo, hi, [Piece(Joined(bs, i), false)]);
    ReleaseShape(bs, i);
  }

  lemma ReleaseShape(bs: seq<Piece>, i: nat)
    requires i < |bs|
    ensures Release(bs, i) == bs[..JoinLo(bs, i)] + [Piece(Joined(bs, i), false)] + bs[JoinHi(bs, i)..]
  {}

  lemma JoinAgrees(m: seq<BlockMark>, w: seq<BlockMark>, bs: seq<Piece>, lo: nat, hi: nat, n: nat)
    requires Tiled(m, bs) && lo < hi <= |bs| && Enclosed(m, w, Off(bs, lo), Off(bs, hi), n)
    ensures |w| == |m| && Extent(bs) < |m|
    ensures Agree(m, w, 0, Off(bs, lo)) && Agree(m, w, Off(bs, hi), Extent(bs))
    ensures w[0].prev == END && w[Extent(bs)].next == END
    ensures Seg(w, Off(bs, lo), [Piece(n, false)])
  {
    Seg1(w, Off(bs, lo), Piece(n, false));
    if hi < |bs| { OffMonotone(bs, hi, |bs|); }
    if 0 < lo { OffMonotone(bs, 0, lo); }
  }

  lemma JoinedExtent(bs: seq<Piece>, i: nat)
    requires i < |bs|
    ensures var lo, hi := JoinLo(bs, i), JoinHi(bs, i);
      && Extent([Piece(Joined(bs, i), false)]) == Extent(bs[lo..hi])
      && Off(bs, lo) + MARK + Joined(bs, i) == Off(bs, hi)
  {
    var lo, hi := JoinLo(bs, i), JoinHi(bs, i);
    SpliceRelease(bs, i, lo, hi, [Piece(Joined(bs, i), false)]);
    OffWhole(bs, lo, hi);
    Extent1(Piece(Joined(bs, i), false));
  }
}
