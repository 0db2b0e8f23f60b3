/** The pools and the heap as the program keeps them: marks written in place, searched by walking. */
module CustomHeap {
  import opened BlockPool
  import opened BlockMarks
  import opened HeapSpec

  /** Piece `f` is the first that is not filled, or the end of the pool if there is none. */
  predicate FirstFree(bs: seq<Piece>, f: nat) {
    f <= |bs| && AllFilled(bs, f) && (f < |bs| ==> !bs[f].fill)
  }

  ghost predicate IsMark(bs: seq<Piece>, o: nat) { exists k :: 0 <= k <= |bs| && o == Off(bs, k) }

  lemma OffZero(bs: seq<Piece>)
    ensures Off(bs, 0) == 0
  {}

  lemma OffInjective(bs: seq<Piece>, i: nat, j: nat)
    requires i <= |bs| && j <= |bs| && Off(bs, i) == Off(bs, j)
    ensures i == j
  {
    if i < j { OffMonotone(bs, i, j); } else if j < i { OffMonotone(bs, j, i); }
  }

  lemma OffOrder(bs: seq<Piece>, i: nat, j: nat)
    requires i <= |bs| && j <= |bs|
    ensures Off(bs, i) < Off(bs, j) <==> i < j
  {
    if i < j { OffMonotone(bs, i, j); } else if j < i { OffMonotone(bs, j, i); }
  }

  lemma AllFilledNone(bs: seq<Piece>, k: nat)
    requires k <= |bs| && AllFilled(bs, k)
    ensures Largest(bs, 0, k) == 0
  {
    if k > 0 { AllFilledNone(bs, k - 1); }
  }

  lemma LargestNone(bs: seq<Piece>, k: nat)
    requires k <= |bs|
    ensures Largest(bs, k, k) == 0
  {}

  /** The largest free piece can be accumulated from the back as well. */
  lemma {:induction false} LargestBack(bs: seq<Piece>, lo: nat, hi: nat)
    requires lo < hi <= |bs|
    ensures Largest(bs, lo, hi)
      == if !bs[lo].fill && bs[lo].size > Largest(bs, lo + 1, hi) then bs[lo].size else Largest(bs, lo + 1, hi)
    decreases hi
  {
    if lo + 1 < hi {
      LargestBack(bs, lo, hi - 1);
    } else {
      assert Largest(bs, lo, lo) == 0;
    }
  }

  /** One step of the backward walk. */
  lemma BackStep(m: seq<BlockMark>, bs: seq<Piece>, k: nat)
    requires Tiled(m, bs) && NoneEmpty(bs) && 0 < k <= |bs|
    ensures Off(bs, k) < |m| && m[Off(bs, k)].prev == bs[k - 1]
    ensures Off(bs, k - 1) == Off(bs, k) - bs[k - 1].size - MARK && Off(bs, k - 1) < |m|
    ensures m[Off(bs, k - 1)].prev == END <==> k - 1 == 0
    ensures Largest(bs, k - 1, |bs|)
      == if !bs[k - 1].fill && bs[k - 1].size > Largest(bs, k, |bs|) then bs[k - 1].size else Largest(bs, k, |bs|)
  {
    hide Off, Largest, Tiled;
    At(m, bs, k);
    EndOnlyAtEnd(m, bs, k - 1);
    LargestBack(bs, k - 1, |bs|);
  }

  lemma LengthIsExtent(m: seq<BlockMark>, bs: seq<Piece>)
    requires Tiled(m, bs)
    ensures |m| == Extent(bs) + MARK && Extent(bs) == Off(bs, |bs|)
  {}

  lemma AllocPrefix(bs: seq<Piece>, i: nat, size: nat, k: nat)
    requires i < |bs| && size <= bs[i].size && k <= i
    ensures k <= |Alloc(bs, i, size)| && Off(Alloc(bs, i, size), k) == Off(bs, k)
    ensures Alloc(bs, i, size)[..k] == bs[..k]
  {
    hide Off;
    var r := Alloc(bs, i, size);
    assert r == bs[..k] + r[k..] && bs == bs[..k] + bs[k..];
    OffPrefix(bs[..k], r[k..], k);
    OffPrefix(bs[..k], bs[k..], k);
  }

  // ---- the marks that freeing writes

  /** The marks at `p` and `q` enclose one free piece of `n` bytes. */
  function CloseUp(m: seq<BlockMark>, p: nat, q: nat, n: nat): seq<BlockMark>
    requires p < q < |m|
  {
    m[p := m[p].(next := Piece(n, false))][q := m[q].(prev := Piece(n, false))]
  }

  /** The piece from `sub` to `n` is in order, and so is a free one before it. */
  predicate BackFits(m: seq<BlockMark>, sub: nat, n: nat) {
    && sub < n < |m| && n == sub + MARK + m[sub].next.size && m[n].prev == m[sub].next
    && (IsFree(m[sub].prev) ==>
          sub >= m[sub].prev.size + MARK && m[sub - m[sub].prev.size - MARK].next == m[sub].prev)
  }

  function BackTo(m: seq<BlockMark>, sub: nat): nat
    requires sub < |m| && (IsFree(m[sub].prev) ==> sub >= m[sub].prev.size + MARK)
  {
    if IsFree(m[sub].prev) then sub - m[sub].prev.size - MARK else sub
  }

  function JoinBack(m: seq<BlockMark>, sub: nat, n: nat): seq<BlockMark>
    requires BackFits(m, sub, n)
  {
    var p, x := m[sub].prev, m[sub].next;
    if IsFree(p) then
      CloseUp(m[sub := m[sub].(next := x.(fill := false))], BackTo(m, sub), n, p.size + MARK + x.size)
    else CloseUp(m, sub, n, x.size)
  }

  predicate AheadFits(w: seq<BlockMark>, s: nat, n: nat) {
    && s < n < |w| && !w[s].next.fill
    && (w[n].next != END ==> n + MARK + w[n].next.size < |w| && w[n + MARK + w[n].next.size].prev == w[n].next)
  }

  function JoinAhead(w: seq<BlockMark>, s: nat, n: nat): seq<BlockMark>
    requires AheadFits(w, s, n)
  {
    var y := w[n].next;
    if IsFree(y) then CloseUp(w, s, n + MARK + y.size, w[s].next.size + y.size + MARK) else w
  }

  lemma OffNext(bs: seq<Piece>, k: nat)
    requires k < |bs|
    ensures Off(bs, k + 1) == Off(bs, k) + MARK + bs[k].size
  {}

  lemma MarkAt(bs: seq<Piece>, k: nat)
    requires k <= |bs|
    ensures IsMark(bs, Off(bs, k))
  {}

  /** Where an allocation writes. */
  lemma AllocPlaces(m: seq<BlockMark>, p: nat, x: Piece, size: nat)
    requires Linked(m, p, x) && size <= x.size
    ensures var w := AllocMarks(m, p, x, size);
      |w| == |m| && forall o :: 0 <= o < |w| && w[o] != m[o] ==>
        o == p || o == p + MARK + x.size || (x.size > size + 2 * MARK && o == p + MARK + size)
  {}

  /** The marks an allocation writes are marks of the pool afterwards. */
  lemma AllocWrites(m: seq<BlockMark>, bs: seq<Piece>, i: nat, size: nat)
    requires i < |bs| && size <= bs[i].size && Linked(m, Off(bs, i), bs[i])
    ensures var w := AllocMarks(m, Off(bs, i), bs[i], size);
      |w| == |m| && forall o :: 0 <= o < |w| && w[o] != m[o] ==> IsMark(Alloc(bs, i, size), o)
  {
    hide *;
    AllocPlaces(m, Off(bs, i), bs[i], size);
    AllocIsMarked(bs, i, size);
  }

  lemma AllocSizes(bs: seq<Piece>, i: nat, size: nat)
    requires i < |bs| && size <= bs[i].size
    ensures var r := Alloc(bs, i, size);
      && i < |r|
      && (if bs[i].size > size + 2 * MARK then
            i + 1 < |r| && r[i].size == size && r[i + 1].size == bs[i].size - size - MARK
          else r[i].size == bs[i].size)
  {}

  lemma AllocIsMarked(bs: seq<Piece>, i: nat, size: nat)
    requires i < |bs| && size <= bs[i].size
    ensures var r, p := Alloc(bs, i, size), Off(bs, i);
      && IsMark(r, p) && IsMark(r, p + MARK + bs[i].size)
      && (bs[i].size > size + 2 * MARK ==> IsMark(r, p + MARK + size))
  {
    hide Off, IsMark, Alloc;
    var r := Alloc(bs, i, size);
    AllocPrefix(bs, i, size, i);
    AllocSizes(bs, i, size);
    OffNext(r, i);
    MarkAt(r, i);
    MarkAt(r, i + 1);
    if bs[i].size > size + 2 * MARK {
      OffNext(r, i + 1);
      MarkAt(r, i + 2);
    }
  }

  lemma FirstIsTaken(bs: seq<Piece>, i: nat, size: nat, first: nat)
    requires i < |bs| && size <= bs[i].size && Off(bs, i) == first
    requires exists f :: FirstFree(bs, f) && first == Off(bs, f)
    ensures i <= |Alloc(bs, i, size)| && AllFilled(Alloc(bs, i, size), i) && Off(Alloc(bs, i, size), i) == first
  {
    var f :| FirstFree(bs, f) && first == Off(bs, f);
    OffInjective(bs, i, f);
    AllocPrefix(bs, i, size, i);
  }

  lemma FirstStays(bs: seq<Piece>, i: nat, size: nat, first: nat)
    requires FreeAt(bs, i) && size <= bs[i].size && Off(bs, i) != first
    requires exists f :: FirstFree(bs, f) && first == Off(bs, f)
    ensures exists f :: FirstFree(Alloc(bs, i, size), f) && first == Off(Alloc(bs, i, size), f)
  {
    hide Off, Alloc;
    var f :| FirstFree(bs, f) && first == Off(bs, f);
    AllocPrefix(bs, i, size, f);
    AllocPrefix(bs, i, size, i);
    var r := Alloc(bs, i, size);
    assert forall k :: 0 <= k < i ==> r[k] == r[..i][k] == bs[..i][k];
    assert FirstFree(r, f);
  }

  predicate IsFree(x: Piece) { x != END && !x.fill }

  /** The marks at both ends of a piece. */
  lemma Around(m: seq<BlockMark>, bs: seq<Piece>, i: nat)
    requires Tiled(m, bs) && i < |bs|
    ensures var s := Off(bs, i);
      var n := s + MARK + bs[i].size;
      s < n < |m| && m[s].next == bs[i] == m[n].prev && Off(bs, i + 1) == n && IsMark(bs, s) && IsMark(bs, n)
  {
    hide Tiled;
    At(m, bs, i);
    At(m, bs, i + 1);
  }

  /** What the mark before piece `i` says, and where freeing it starts. */
  lemma Before(m: seq<BlockMark>, bs: seq<Piece>, i: nat)
    requires Tiled(m, bs) && NoneEmpty(bs) && i < |bs|
    ensures var s := Off(bs, i);
      && s < |m| && (s == 0 ==> m[s].prev == END)
      && (s > 0 ==> m[s].prev != END && s >= m[s].prev.size + MARK
                    && m[s - m[s].prev.size - MARK].next == m[s].prev && IsMark(bs, s - m[s].prev.size - MARK))
      && IsFree(m[s].prev) == FreeAt(bs, i - 1)
      && (IsFree(m[s].prev) ==> m[s].prev == bs[i - 1] && Off(bs, i - 1) == s - m[s].prev.size - MARK)
  {
    hide Tiled;
    At(m, bs, i);
    if i > 0 {
      hide Off;
      Around(m, bs, i - 1);
    }
  }

  /** What the mark after piece `i` says, and where freeing it ends. */
  lemma After(m: seq<BlockMark>, bs: seq<Piece>, i: nat)
    requires Tiled(m, bs) && NoneEmpty(bs) && i < |bs|
    ensures var n := Off(bs, i + 1);
      && n < |m|
      && (m[n].next != END ==>
            var q := n + MARK + m[n].next.size;
            q < |m| && m[q].prev == m[n].next && IsMark(bs, q))
      && IsFree(m[n].next) == FreeAt(bs, i + 1)
      && (IsFree(m[n].next) ==> m[n].next == bs[i + 1] && Off(bs, i + 2) == n + MARK + m[n].next.size)
  {
    hide Tiled;
    At(m, bs, i + 1);
    if i + 1 < |bs| {
      hide Off;
      Around(m, bs, i + 1);
    }
  }

  /** What the marks around a filled piece say about the piece that freeing it makes. */
  lemma JoinMeans(m: seq<BlockMark>, bs: seq<Piece>, i: nat)
    requires Tiled(m, bs) && NoneEmpty(bs) && i < |bs|
    ensures var s, n := Off(bs, i), Off(bs, i + 1);
      && s < |m| && n < |m|
      && Off(bs, JoinLo(bs, i)) == (if IsFree(m[s].prev) then s - m[s].prev.size - MARK else s)
      && Off(bs, JoinHi(bs, i)) == (if IsFree(m[n].next) then n + MARK + m[n].next.size else n)
      && Joined(bs, i) == bs[i].size + (if IsFree(m[s].prev) then m[s].prev.size + MARK else 0)
                                     + (if IsFree(m[n].next) then m[n].next.size + MARK else 0)
  {
    hide Tiled, Off, IsMark, NoneEmpty, IsFree;
    Before(m, bs, i);
    After(m, bs, i);
  }

  function Grown(x: Piece, y: Piece): Piece { Piece(x.size + (if IsFree(y) then y.size + MARK else 0), false) }

  lemma BackEncloses(m: seq<BlockMark>, sub: nat, n: nat)
    requires BackFits(m, sub, n)
    ensures var w, s := JoinBack(m, sub, n), BackTo(m, sub);
      && |w| == |m| && s <= sub && Enclosed(m, w, s, n, w[s].next.size)
      && w[s].next == Grown(m[sub].next, m[sub].prev) && w[n].next == m[n].next
      && (forall o :: n < o < |m| ==> w[o] == m[o])
      && forall o :: 0 <= o < |m| && w[o] != m[o] ==> o == s || o == sub || o == n
  {}

  lemma AheadEncloses(m: seq<BlockMark>, w: seq<BlockMark>, s: nat, n: nat)
    requires AheadFits(w, s, n) && Enclosed(m, w, s, n, w[s].next.size)
    ensures var y, v := w[n].next, JoinAhead(w, s, n);
      && |v| == |w| && v[s].next == Grown(w[s].next, y)
      && Enclosed(m, v, s, if IsFree(y) then n + MARK + y.size else n, v[s].next.size)
      && forall o :: 0 <= o < |w| && v[o] != w[o] ==> o == s || (IsFree(y) && o == n + MARK + y.size)
  {}

  lemma BackFitsAt(m: seq<BlockMark>, bs: seq<Piece>, i: nat)
    requires Tiled(m, bs) && NoneEmpty(bs) && i < |bs|
    ensures var s, n := Off(bs, i), Off(bs, i + 1);
      && BackFits(m, s, n) && m[s].next == bs[i] && n == s + MARK + bs[i].size
      && (s == 0 ==> m[s].prev == END) && (s > 0 ==> m[s].prev != END && s >= m[s].prev.size + MARK)
  {
    hide Tiled, Off, NoneEmpty, IsMark, FreeAt;
    Around(m, bs, i);
    Before(m, bs, i);
  }

  /** The piece from `s` to `n` is free, and what comes after is as it was. */
  lemma AheadFitsAt(m: seq<BlockMark>, w: seq<BlockMark>, bs: seq<Piece>, i: nat, s: nat)
    requires Tiled(m, bs) && NoneEmpty(bs) && i < |bs| && |w| == |m|
    requires var n := Off(bs, i + 1);
      s < n < |m| && !w[s].next.fill && w[n].next == m[n].next && forall o :: n < o < |m| ==> w[o] == m[o]
    ensures AheadFits(w, s, Off(bs, i + 1))
  {
    hide Tiled, Off, NoneEmpty, IsMark, FreeAt, IsFree;
    After(m, bs, i);
  }

  lemma JoinFits(m: seq<BlockMark>, bs: seq<Piece>, i: nat)
    requires Tiled(m, bs) && NoneEmpty(bs) && i < |bs|
    ensures var s, n := Off(bs, i), Off(bs, i + 1);
      BackFits(m, s, n) && AheadFits(JoinBack(m, s, n), BackTo(m, s), n)
  {
    hide *;
    var s, n := Off(bs, i), Off(bs, i + 1);
    BackFitsAt(m, bs, i);
    BackBounds(m, s, n);
    BackEncloses(m, s, n);
    AheadFitsAt(m, JoinBack(m, s, n), bs, i, BackTo(m, s));
  }

  lemma BackBounds(m: seq<BlockMark>, sub: nat, n: nat)
    requires BackFits(m, sub, n)
    ensures sub < n < |m| && (IsFree(m[sub].prev) ==> sub >= m[sub].prev.size + MARK)
    ensures BackTo(m, sub) <= sub && !Grown(m[sub].next, m[sub].prev).fill
  {}

  lemma JoinWrites(m: seq<BlockMark>, bs: seq<Piece>, i: nat)
    requires Tiled(m, bs) && NoneEmpty(bs) && i < |bs|
    ensures var sub, n, s := Off(bs, i), Off(bs, i + 1), Off(bs, JoinLo(bs, i));
      && BackFits(m, sub, n) && s == BackTo(m, sub) && AheadFits(JoinBack(m, sub, n), s, n)
      && var w := JoinAhead(JoinBack(m, sub, n), s, n);
      && |w| == |m| && w[s].next == Piece(Joined(bs, i), false)
      && Enclosed(m, w, s, Off(bs, JoinHi(bs, i)), Joined(bs, i))
      && forall o :: 0 <= o < |m| && w[o] != m[o] ==> IsMark(bs, o)
  {
    hide *;
    var sub, n := Off(bs, i), Off(bs, i + 1);
    BackFitsAt(m, bs, i);
    BackBounds(m, sub, n);
    JoinFits(m, bs, i);
    BackEncloses(m, sub, n);
    AheadEncloses(m, JoinBack(m, sub, n), BackTo(m, sub), n);
    JoinMeans(m, bs, i);
    JoinEndsMark(m, bs, i);
    BackToIs(m, sub);
    GrownTwice(m[sub].next, m[sub].prev, m[n].next);
  }

  lemma BackToIs(m: seq<BlockMark>, sub: nat)
    requires sub < |m| && (IsFree(m[sub].prev) ==> sub >= m[sub].prev.size + MARK)
    ensures BackTo(m, sub) == if IsFree(m[sub].prev) then sub - m[sub].prev.size - MARK else sub
  {}

  lemma GrownTwice(x: Piece, p: Piece, y: Piece)
    ensures Grown(Grown(x, p), y)
      == Piece(x.size + (if IsFree(p) then p.size + MARK else 0) + (if IsFree(y) then y.size + MARK else 0), false)
  {}

  lemma JoinEndsMark(m: seq<BlockMark>, bs: seq<Piece>, i: nat)
    requires Tiled(m, bs) && NoneEmpty(bs) && i < |bs|
    ensures IsMark(bs, Off(bs, i)) && IsMark(bs, Off(bs, i + 1))
    ensures IsMark(bs, Off(bs, JoinLo(bs, i))) && IsMark(bs, Off(bs, JoinHi(bs, i)))
  {
    hide Off;
  }

  lemma ReleasePrefix(bs: seq<Piece>, i: nat, k: nat)
    requires i < |bs| && k <= JoinLo(bs, i)
    ensures k <= |Release(bs, i)| && Off(Release(bs, i), k) == Off(bs, k)
    ensures Release(bs, i)[..k] == bs[..k]
    ensures JoinLo(bs, i) < |Release(bs, i)| && !Release(bs, i)[JoinLo(bs, i)].fill
  {
    hide Off;
    var r := Release(bs, i);
    assert r == bs[..k] + r[k..] && bs == bs[..k] + bs[k..];
    OffPrefix(bs[..k], r[k..], k);
    OffPrefix(bs[..k], bs[k..], k);
  }

  lemma FirstAfterRelease(bs: seq<Piece>, i: nat, first: nat, s: nat)
    requires i < |bs| && bs[i].fill && s == Off(bs, JoinLo(bs, i))
    requires exists f :: FirstFree(bs, f) && first == Off(bs, f)
    ensures var after := if first > Off(bs, i) then s else first;
      exists f :: FirstFree(Release(bs, i), f) && after == Off(Release(bs, i), f)
  {
    hide Off, Release;
    var f: nat :| FirstFree(bs, f) && first == Off(bs, f);
    OffOrder(bs, i, f);
    var lo := JoinLo(bs, i);
    var g: nat := if f > i then lo else f;
    FirstBefore(bs, i, f);
    ReleasePrefix(bs, i, g);
    FirstFreeAfter(bs, i, g);
  }

  lemma FirstBefore(bs: seq<Piece>, i: nat, f: nat)
    requires i < |bs| && bs[i].fill && FirstFree(bs, f)
    ensures f != i && (f > i ==> JoinLo(bs, i) == i) && (f < i ==> f <= JoinLo(bs, i))
  {}

  lemma FirstFreeAfter(bs: seq<Piece>, i: nat, g: nat)
    requires i < |bs| && g <= JoinLo(bs, i) && AllFilled(bs, g)
    requires g < JoinLo(bs, i) ==> !bs[g].fill
    ensures FirstFree(Release(bs, i), g)
  {
    var lo, r := JoinLo(bs, i), Release(bs, i);
    assert forall k :: 0 <= k < lo ==> r[k] == bs[k];
  }

  /** Whatever an operation writes, it writes marks of the pool as it was or as it becomes: what stays
      live does not share a byte with any of them. */
  lemma WritesSpareLive(before: seq<Piece>, after: seq<Piece>, p: (nat, nat), o: nat)
    requires p in Payloads(before) && p in Payloads(after)
    requires IsMark(before, o) || IsMark(after, o)
    ensures Apart(p, (o, MARK))
  {
    hide Payloads, Off;
    PayloadsApart(before, p);
    PayloadsApart(after, p);
  }

  /** One mapped pool. `mem[o]` is the mark at byte `o`, for the offsets where there is one; the
      other elements are never looked at. `first` is the search cache of the executable pools, that
      callers of the plain heap do without. */
  class Pool {
    const mem: array<BlockMark>
    const base: nat
    var maxfree: nat
    var first: nat
    ghost var pieces: seq<Piece>

    ghost predicate Valid()
      reads this, mem
    {
      WellTiled(pieces) && Tiled(mem[..], pieces)
    }

    lemma ValidParts()
      requires Valid()
      ensures NoneEmpty(pieces) && Tiled(mem[..], pieces)
    {}

    /** `first` is the earliest mark that no filled block follows: a free block, or the end. */
    ghost predicate FirstOk()
      reads this
    {
      exists f :: FirstFree(pieces, f) && first == Off(pieces, f)
    }

    ghost function View(): PoolView
      reads this
    {
      PoolView(base, pieces, maxfree)
    }

    /** A pool of `bytes` bytes as the system hands it out, with its marks set up. */
    constructor (bytes: nat, at: nat)
      requires bytes > 2 * MARK
      ensures Valid() && fresh(mem) && base == at && mem.Length == bytes
      ensures pieces == [Piece(bytes - 2 * MARK, false)]
      ensures FirstOk()
    {
      var x := Piece(bytes - 2 * MARK, false);
      var m := new BlockMark[bytes](_ => BlockMark(END, END));
      m[0] := m[0].(next := x);
      m[bytes - MARK] := m[bytes - MARK].(prev := x);
      mem, base, maxfree, first, pieces := m, at, 0, 0, [x];
      new;
      Seg1(mem[..], 0, x);
      Extent1(x);
      assert FirstFree(pieces, 0);
    }

    /** The first free block of at least `size` bytes, looking from the mark at `start` on. */
    method GetFirstBlock(size: nat, start: nat, ghost i: nat) returns (found: bool, sub: nat, rsize: nat)
      requires Valid() && i <= |pieces| && start == Off(pieces, i)
      ensures found <==> FirstFit(pieces, i, size) < |pieces|
      ensures found ==> sub == Off(pieces, FirstFit(pieces, i, size)) && rsize == pieces[FirstFit(pieces, i, size)].size
    {
      hide Tiled, Off;
      var m := start;
      ghost var k := i;
      EndOnlyAtEnd(mem[..], pieces, k);
      while mem[m].next != END
        invariant i <= k <= |pieces| && m == Off(pieces, k) && m < mem.Length
        invariant mem[m].next == END <==> k == |pieces|
        invariant FirstFit(pieces, i, size) == FirstFit(pieces, k, size)
        decreases |pieces| - k
      {
        At(mem[..], pieces, k);
        if !mem[m].next.fill && mem[m].next.size >= size {
          return true, m, mem[m].next.size;
        }
        m := m + MARK + mem[m].next.size;
        k := k + 1;
        EndOnlyAtEnd(mem[..], pieces, k);
      }
      return false, 0, 0;
    }

    /** The largest free block, walking forward from a mark before which nothing is free, or, without
        one, backward from the end: the same value either way. */
    method GetMaxFreeBlock(withStart: bool, start: nat, ghost i: nat) returns (r: nat)
      requires Valid()
      requires withStart ==> i <= |pieces| && start == Off(pieces, i) && AllFilled(pieces, i)
      ensures r == MaxFree(pieces)
    {
      var maxsize;
      if withStart {
        maxsize := MaxForward(start, i);
      } else {
        maxsize := MaxBackward();
      }
      return if maxsize >= MARK then maxsize else 0;
    }

    method MaxForward(start: nat, ghost i: nat) returns (maxsize: nat)
      requires Valid() && i <= |pieces| && start == Off(pieces, i) && AllFilled(pieces, i)
      ensures maxsize == Largest(pieces, 0, |pieces|)
    {
      hide Tiled, Off;
      var m := start;
      maxsize := 0;
      ghost var k := i;
      EndOnlyAtEnd(mem[..], pieces, k);
      AllFilledNone(pieces, k);
      while mem[m].next != END
        invariant k <= |pieces| && m == Off(pieces, k) && m < mem.Length
        invariant mem[m].next == END <==> k == |pieces|
        invariant maxsize == Largest(pieces, 0, k)
        decreases |pieces| - k
      {
        At(mem[..], pieces, k);
        if !mem[m].next.fill && mem[m].next.size > maxsize {
          maxsize := mem[m].next.size;
        }
        m := m + MARK + mem[m].next.size;
        k := k + 1;
        EndOnlyAtEnd(mem[..], pieces, k);
      }
    }

    /** The backward walk has an early way out, for a block that would not fit below its own mark:
        it is never taken. */
    method MaxBackward() returns (maxsize: nat)
      requires Valid()
      ensures maxsize == Largest(pieces, 0, |pieces|)
    {
      hide *;
      ValidParts();
      ghost var w := mem[..];
      LengthIsExtent(w, pieces);
      var m := mem.Length - MARK;
      maxsize := 0;
      ghost var k: nat := |pieces|;
      EndOnlyAtEnd(w, pieces, k);
      LargestNone(pieces, k);
      while mem[m].prev != END
        invariant k <= |pieces| && m == Off(pieces, k) && m < mem.Length
        invariant mem[m].prev == END <==> k == 0
        invariant maxsize == Largest(pieces, k, |pieces|)
        decreases k
      {
        BackStep(w, pieces, k);
        var x := mem[m].prev;
        if !x.fill && x.size > maxsize {
          maxsize := x.size;
          if maxsize > m { assert false; }
        }
        m := m - x.size - MARK;
        k := k - 1;
      }
    }

    /** The marks of `AllocBlock`. */
    method WriteMarks(sub: nat, size: nat, ghost x: Piece)
      requires sub < mem.Length && Linked(mem[..], sub, x) && 0 < size <= x.size && !x.fill
      modifies mem
      ensures mem[..] == AllocMarks(old(mem[..]), sub, x, size)
    {
      var n := sub + MARK + mem[sub].next.size;
      mem[sub] := mem[sub].(next := mem[sub].next.(fill := true));
      if mem[sub].next.size > size + 2 * MARK {
        mem[sub] := mem[sub].(next := mem[sub].next.(size := size));
      }
      var m := sub + MARK + mem[sub].next.size;
      mem[m] := mem[m].(prev := mem[m].prev.(fill := true));
      if n != m {
        mem[m] := mem[m].(prev := mem[m].prev.(size := mem[sub].next.size));
        mem[m] := mem[m].(next := mem[m].next.(fill := false));
        mem[m] := mem[m].(next := mem[m].next.(size := n - m - MARK));
        mem[n] := mem[n].(prev := mem[n].prev.(fill := false));
        mem[n] := mem[n].(prev := mem[n].prev.(size := mem[m].next.size));
      }
    }

    /** Takes `size` bytes from the free block at `sub`, splitting it when the rest is worth a mark. */
    method AllocBlock(sub: nat, size: nat, withFirst: bool, ghost i: nat) returns (ret: nat)
      requires Valid() && FreeAt(pieces, i) && sub == Off(pieces, i) && 0 < size <= pieces[i].size
      requires withFirst ==> FirstOk()
      modifies this`first, this`pieces, mem
      ensures Valid() && ret == sub + MARK
      ensures pieces == Alloc(old(pieces), i, size)
      ensures withFirst ==> FirstOk()
      ensures !withFirst ==> first == old(first)
      ensures forall o :: 0 <= o < mem.Length && mem[o] != old(mem[o]) ==> IsMark(pieces, o)
    {
      hide Tiled, Off, Alloc, WellTiled;
      LinkAt(mem[..], pieces, i);
      WriteMarks(sub, size, pieces[i]);
      AllocTiles(old(mem[..]), pieces, i, size);
      AllocKeeps(pieces, i, size);
      AllocWrites(old(mem[..]), pieces, i, size);
      ghost var was := pieces;
      pieces := Alloc(pieces, i, size);
      assert forall o :: 0 <= o < mem.Length ==> mem[o] == mem[..][o];
      if withFirst {
        if sub == first {
          FirstIsTaken(was, i, size, first);
          first := NextFree(first, i);
        } else {
          FirstStays(was, i, size, first);
        }
      }
      return sub + MARK;
    }

    /** The first mark from `start` on that no filled block follows. */
    method NextFree(start: nat, ghost i: nat) returns (m: nat)
      requires Tiled(mem[..], pieces) && i <= |pieces| && start == Off(pieces, i) && AllFilled(pieces, i)
      ensures exists f :: FirstFree(pieces, f) && m == Off(pieces, f)
    {
      hide Tiled, Off;
      m := start;
      ghost var k := i;
      At(mem[..], pieces, k);
      while mem[m].next.fill
        invariant k <= |pieces| && m == Off(pieces, k) && m < mem.Length && AllFilled(pieces, k)
        invariant mem[m].next == if k < |pieces| then pieces[k] else END
        decreases |pieces| - k
      {
        At(mem[..], pieces, k);
        m := m + MARK + mem[m].next.size;
        k := k + 1;
        At(mem[..], pieces, k);
      }
      assert FirstFree(pieces, k);
    }

    /** Takes from a block that was found, and keeps the summary true. */
    method Take(sub: nat, size: nat, rsize: nat, ghost i: nat) returns (ret: nat)
      requires Valid() && FreeAt(pieces, i) && sub == Off(pieces, i) && rsize == pieces[i].size && 0 < size <= rsize
      modifies this, mem
      ensures Valid() && ret == base + sub + MARK
      ensures View() == Taken(old(View()), i, size) && first == old(first)
      ensures forall o :: 0 <= o < mem.Length && mem[o] != old(mem[o]) ==> IsMark(pieces, o)
    {
      hide Tiled, WellTiled, Off, Alloc;
      ret := AllocBlock(sub, size, false, i);
      ret := base + ret;
      if rsize == maxfree {
        maxfree := GetMaxFreeBlock(false, 0, 0);
      }
    }

    /** Gives a block back, and keeps the summary true. */
    method Return(sub: nat, ghost i: nat)
      requires Valid() && i < |pieces| && pieces[i].fill && sub == Off(pieces, i)
      modifies this, mem
      ensures Valid()
      ensures View() == Returned(old(View()), i) && first == old(first)
      ensures forall o :: 0 <= o < mem.Length && mem[o] != old(mem[o]) ==> IsMark(old(pieces), o)
    {
      hide Tiled, WellTiled, Off, Release;
      var newfree := FreeBlock(sub, false, i);
      if maxfree < newfree {
        maxfree := newfree;
      }
    }

    /** Gives the block at `sub` back, joining it with a free block before it and one after it. */
    method FreeBlock(sub: nat, withFirst: bool, ghost i: nat) returns (r: nat)
      requires Valid() && i < |pieces| && pieces[i].fill && sub == Off(pieces, i)
      requires withFirst ==> FirstOk()
      modifies this`first, this`pieces, mem
      ensures Valid() && r == Joined(old(pieces), i)
      ensures pieces == Release(old(pieces), i)
      ensures withFirst ==> FirstOk()
      ensures !withFirst ==> first == old(first)
      ensures forall o :: 0 <= o < mem.Length && mem[o] != old(mem[o]) ==> IsMark(old(pieces), o)
    {
      ValidParts();
      hide Tiled, Off, Release, WellTiled, Extent;
      ghost var w := mem[..];
      var s := JoinFree(sub, i);
      JoinTiles(w, mem[..], pieces, i);
      ReleaseKeeps(pieces, i);
      ghost var was := pieces;
      pieces := Release(pieces, i);
      if withFirst {
        FirstAfterRelease(was, i, first, s);
        if first > sub {
          first := s;
        }
      }
      return mem[s].next.size;
    }

    /** The marks of `FreeBlock`. */
    method JoinFree(sub: nat, ghost i: nat) returns (s: nat)
      requires Tiled(mem[..], pieces) && NoneEmpty(pieces) && i < |pieces| && pieces[i].fill && sub == Off(pieces, i)
      modifies mem
      ensures s == Off(pieces, JoinLo(pieces, i)) && s < mem.Length && mem[s].next == Piece(Joined(pieces, i), false)
      ensures Enclosed(old(mem[..]), mem[..], s, Off(pieces, JoinHi(pieces, i)), Joined(pieces, i))
      ensures forall o :: 0 <= o < mem.Length && mem[o] != old(mem[o]) ==> IsMark(pieces, o)
    {
      hide *;
      BackFitsAt(mem[..], pieces, i);
      BackBounds(mem[..], sub, Off(pieces, i + 1));
      JoinWrites(mem[..], pieces, i);
      var n := sub + MARK + mem[sub].next.size;
      s := JoinPrevious(sub, n);
      JoinNext(s, n);
      assert forall o :: 0 <= o < mem.Length ==> mem[o] == mem[..][o] && old(mem[o]) == old(mem[..])[o];
    }

    /** Marks the block from `sub` to `n` free, as one with a free block before it. */
    method JoinPrevious(sub: nat, n: nat) returns (s: nat)
      requires BackFits(mem[..], sub, n)
      requires sub == 0 ==> mem[sub].prev == END
      requires sub > 0 ==> mem[sub].prev != END && sub >= mem[sub].prev.size + MARK
      modifies mem
      ensures s == BackTo(old(mem[..]), sub) && mem[..] == JoinBack(old(mem[..]), sub, n)
    {
      var m := 0;
      s := sub;
      if sub != 0 {
        m := s - mem[s].prev.size - MARK;
      }
      mem[s] := mem[s].(next := mem[s].next.(fill := false));
      mem[n] := mem[n].(prev := mem[n].prev.(fill := false));
      if mem[s].prev != END && !mem[s].prev.fill {
        mem[m] := mem[m].(next := mem[m].next.(size := mem[m].next.size + mem[s].next.size + MARK));
        mem[n] := mem[n].(prev := mem[n].prev.(size := mem[m].next.size));
        s := m;
      }
    }

    /** Joins the free block from `s` to `n` with a free block after it. */
    method JoinNext(s: nat, n: nat)
      requires AheadFits(mem[..], s, n)
      modifies mem
      ensures mem[..] == JoinAhead(old(mem[..]), s, n)
    {
      if mem[n].next != END && !mem[n].next.fill {
        var n2 := n + MARK + mem[n].next.size;
        mem[s] := mem[s].(next := mem[s].next.(size := mem[s].next.size + mem[n].next.size + MARK));
        mem[n2] := mem[n2].(prev := mem[n2].prev.(size := mem[s].next.size));
      }
    }
  }

  /** The two ways a request goes, by the pool that was found. */
  lemma MallocPlan(h: seq<PoolView>, k: nat, size: nat, given: nat)
    requires HeapOk(h) && 0 < size < SIZE_LIMIT && Vacant(h, given, PoolBytes(size)) && k == Serving(h, 0, size)
    ensures k <= |h| && HeapOk(Malloc(h, size, given))
    ensures k == |h| ==> Malloc(h, size, given) == h + [Opened(size, given)] && Answer(h, size, given).0 == given + MARK
    ensures k < |h| ==>
      var i := FirstFit(h[k].pieces, 0, size);
      && i < |h[k].pieces| && h[k].pieces[i].size >= size && !h[k].pieces[i].fill
      && Malloc(h, size, given) == h[k := Taken(h[k], i, size)]
      && Answer(h, size, given).0 == h[k].base + Off(h[k].pieces, i) + MARK
  {
    hide HeapOk, Vacant, PoolBytes;
    MallocKeeps(h, size, given);
  }

  /** What a caller gives back is a filled piece of the pool that holds its address. */
  lemma FreePlan(h: seq<PoolView>, k: nat, addr: nat)
    requires HeapOk(h) && MayFree(h, addr) && addr != 0 && k == Holding(h, 0, addr) < |h|
    ensures var i := PieceAt(h[k].pieces, 0, addr - h[k].base);
      && i < |h[k].pieces| && h[k].pieces[i].fill && addr == h[k].base + Off(h[k].pieces, i) + MARK
      && Free(h, addr) == h[k := Returned(h[k], i)] && HeapOk(h[k := Returned(h[k], i)])
  {
    hide HeapOk, LiveIn, Live, Returned, Off, Span;
    FreeKeeps(h, addr);
    var n :| Live(h, (addr, n));
    FreeFinds(h, (addr, n));
    LivePiece(h[k], (addr, n));
  }

  /** The heap: its pools, in the order they were opened. */
  class Heap {
    var pools: seq<Pool>

    ghost function Repr(): set<object>
      reads this
    {
      (set p <- pools :: p as object) + (set p <- pools :: p.mem as object)
    }

    ghost predicate Valid()
      reads this, pools, set p <- pools :: p.mem
    {
      && (forall k :: 0 <= k < |pools| ==> pools[k].Valid())
      && (forall k, l :: 0 <= k < l < |pools| ==> pools[k] != pools[l] && pools[k].mem != pools[l].mem)
      && HeapOk(View())
    }

    ghost function View(): (v: seq<PoolView>)
      reads this, pools
      ensures |v| == |pools| && forall k :: 0 <= k < |pools| ==> v[k] == pools[k].View()
    {
      ViewOf(pools)
    }

    static ghost function ViewOf(ps: seq<Pool>): (v: seq<PoolView>)
      reads ps
      ensures |v| == |ps| && forall k :: 0 <= k < |ps| ==> v[k] == ps[k].View()
    {
      if ps == [] then [] else ViewOf(ps[..|ps| - 1]) + [ps[|ps| - 1].View()]
    }

    constructor ()
      ensures Valid() && View() == []
    {
      pools := [];
    }

    /** `given` is where the system puts a new pool, should one be needed. */
    method CustomMalloc(size: nat, given: nat) returns (ret: nat)
      requires Valid() && 0 < size < SIZE_LIMIT && Vacant(View(), given, PoolBytes(size))
      modifies this, Repr()
      ensures Valid() && forall o <- Repr() :: o in old(Repr()) || fresh(o)
      ensures View() == Malloc(old(View()), size, given)
      ensures ret == Answer(old(View()), size, given).0
      ensures forall l, o :: 0 <= l < |old(pools)| && 0 <= o < old(pools)[l].mem.Length ==>
        old(pools)[l].mem[o] == old(pools[l].mem[o]) || IsMark(old(pools)[l].pieces, o)
    {
      ghost var h := View();
      hide *;
      HeapIsOk();
      var i, sub, rsize := FindPool(size);
      MallocPlan(h, i, size, given);
      if i == |pools| {
        AddPool(size, given);
        return given + MARK;
      }
      ret := TakeFrom(i, sub, size, rsize);
    }

    /** The first pool whose summary promises enough and which has it. */
    method FindPool(size: nat) returns (i: nat, sub: nat, rsize: nat)
      requires Valid()
      ensures Repr() == old(Repr())
      ensures i == Serving(View(), 0, size)
      ensures i < |pools| ==>
        var bs := View()[i].pieces;
        sub == Off(bs, FirstFit(bs, 0, size)) && rsize == bs[FirstFit(bs, 0, size)].size
    {
      hide HeapOk, Serving, FirstFit, Tiled, Off, WellTiled, ViewOf;
      sub, rsize, i := 0, 0, 0;
      while i < |pools|
        invariant i <= |pools|
        invariant Serving(View(), 0, size) == Serving(View(), i, size)
      {
        AtStart(i);
        ServingStep(View(), i, size);
        if pools[i].maxfree >= size {
          var found;
          found, sub, rsize := pools[i].GetFirstBlock(size, 0, 0);
          if found { return; }
        }
        i := i + 1;
      }
      ServingNone(View(), size);
    }

    lemma HeapIsOk()
      requires Valid()
      ensures HeapOk(View())
    {}

    lemma AtStart(k: nat)
      requires Valid() && k < |pools|
      ensures pools[k].Valid() && Off(pools[k].pieces, 0) == 0
      ensures pools[k].mem.Length == Span(View()[k])
      ensures View()[k] == pools[k].View() && pools[k].base == View()[k].base && pools[k].pieces == View()[k].pieces && pools[k].maxfree == View()[k].maxfree
    {}

    /** A pool and its marks may be changed. */
    lemma InRepr(k: nat)
      requires k < |pools|
      ensures pools[k] in Repr() && pools[k].mem in Repr()
    {
      assert pools[k] in pools;
    }

    /** Taking from one pool leaves the others as they were. */
    method TakeFrom(k: nat, sub: nat, size: nat, rsize: nat) returns (ret: nat)
      requires Valid() && k < |pools| && 0 < size
      requires var bs := View()[k].pieces;
        var i := FirstFit(bs, 0, size);
        i < |bs| && sub == Off(bs, i) && rsize == bs[i].size
      requires var v := View();
        HeapOk(v[k := Taken(v[k], FirstFit(v[k].pieces, 0, size), size)])
      modifies Repr()
      ensures Valid() && pools == old(pools) && Repr() == old(Repr())
      ensures View() == old(View())[k := Taken(old(View()[k]), FirstFit(old(View()[k]).pieces, 0, size), size)]
      ensures ret == old(View()[k]).base + sub + MARK
      ensures forall l, o :: 0 <= l < |old(pools)| && 0 <= o < old(pools)[l].mem.Length ==>
        old(pools)[l].mem[o] == old(pools[l].mem[o]) || IsMark(old(pools)[l].pieces, o)
    {
      hide HeapOk, Tiled, WellTiled, Off, IsMark, FirstFit, Taken, NoneEmpty;
      InRepr(k);
      ret := pools[k].Take(sub, size, rsize, FirstFit(pools[k].pieces, 0, size));
      assert forall l :: 0 <= l < |pools| && l != k ==> unchanged(pools[l]) && unchanged(pools[l].mem);
      assert View() == old(View())[k := pools[k].View()];
    }

    method CustomFree(p: nat)
      requires Valid() && MayFree(View(), p)
      modifies Repr()
      ensures Valid() && pools == old(pools)
      ensures View() == Free(old(View()), p)
      ensures forall l, o :: 0 <= l < |old(pools)| && 0 <= o < old(pools)[l].mem.Length ==>
        old(pools)[l].mem[o] == old(pools[l].mem[o]) || IsMark(old(pools[l].pieces), o)
    {
      ghost var h := View();
      hide *;
      HeapIsOk();
      FreeNone(h, p);
      if p == 0 { return; }
      var i := FindHolder(p);
      if i == |pools| { return; }
      FreePlan(h, i, p);
      ReturnTo(i, p);
    }

    method FindHolder(p: nat) returns (i: nat)
      requires Valid()
      ensures i == Holding(View(), 0, p)
    {
      hide HeapOk, Holding, Tiled, WellTiled, ViewOf, Span;
      i := 0;
      while i < |pools|
        invariant i <= |pools|
        invariant Holding(View(), 0, p) == Holding(View(), i, p)
      {
        AtStart(i);
        HoldingStep(View(), i, p);
        if p > pools[i].base && p < pools[i].base + pools[i].mem.Length {
          return;
        }
        i := i + 1;
      }
      HoldingNone(View(), p);
    }

    /** Giving back to one pool leaves the others as they were. */
    method ReturnTo(k: nat, p: nat)
      requires Valid() && k < |pools|
      requires p >= View()[k].base
      requires var v := View()[k];
        var i := PieceAt(v.pieces, 0, p - v.base);
        && i < |v.pieces| && v.pieces[i].fill && p == v.base + Off(v.pieces, i) + MARK
        && HeapOk(View()[k := Returned(v, i)])
      modifies Repr()
      ensures Valid() && pools == old(pools)
      ensures var v := old(View()[k]);
        View() == old(View())[k := Returned(v, PieceAt(v.pieces, 0, p - v.base))]
      ensures forall l, o :: 0 <= l < |old(pools)| && 0 <= o < old(pools)[l].mem.Length ==>
        old(pools)[l].mem[o] == old(pools[l].mem[o]) || IsMark(old(pools[l].pieces), o)
    {
      hide HeapOk, Tiled, WellTiled, Off, IsMark, PieceAt, Returned, NoneEmpty;
      InRepr(k);
      pools[k].Return(p - pools[k].base - MARK, PieceAt(pools[k].pieces, 0, p - pools[k].base));
      assert forall l :: 0 <= l < |pools| && l != k ==> unchanged(pools[l]) && unchanged(pools[l].mem);
      assert View() == old(View())[k := pools[k].View()];
    }

    method AddPool(size: nat, given: nat)
      requires Valid() && 0 < size && HeapOk(View() + [Opened(size, given)])
      modifies this
      ensures Valid() && forall o <- Repr() :: o in old(Repr()) || fresh(o)
      ensures View() == old(View()) + [Opened(size, given)]
    {
      hide HeapOk, Tiled, WellTiled, Off, Opened, ViewOf;
      var p := NewPool(size, given);
      pools := pools + [p];
      assert View() == old(View()) + [p.View()];
    }

    static method NewPool(size: nat, given: nat) returns (p: Pool)
      requires 0 < size
      ensures p.Valid() && fresh(p) && fresh(p.mem) && p.View() == Opened(size, given)
    {
      hide Tiled, WellTiled, Off, Alloc;
      var allocsize := POOL_SIZE;
      if size + 2 * MARK > allocsize {
        allocsize := size + 2 * MARK;
      }
      p := new Pool(allocsize, given);
      OffZero(p.pieces);
      var at := p.AllocBlock(0, size, false, 0);
      p.maxfree := p.GetMaxFreeBlock(false, 0, 0);
    }
  }

  lemma FreeNone(h: seq<PoolView>, addr: nat)
    ensures addr == 0 || Holding(h, 0, addr) == |h| ==> Free(h, addr) == h
  {}

  lemma HoldingNone(h: seq<PoolView>, addr: nat)
    ensures Holding(h, |h|, addr) == |h|
  {}

  lemma HoldingStep(h: seq<PoolView>, i: nat, addr: nat)
    requires i < |h|
    ensures Holding(h, i, addr) == if h[i].base < addr < h[i].base + Span(h[i]) then i else Holding(h, i + 1, addr)
  {}

  lemma ServingNone(h: seq<PoolView>, size: nat)
    ensures Serving(h, |h|, size) == |h|
  {}

  lemma ServingStep(h: seq<PoolView>, i: nat, size: nat)
    requires i < |h|
    ensures Serving(h, i, size) == if h[i].maxfree >= size && FirstFit(h[i].pieces, 0, size) < |h[i].pieces| then i else Serving(h, i + 1, size)
  {}
}
