/** The heap as the list of its pools, each a list of blocks: what `malloc` and `free` make of it. */
module HeapSpec {
  import opened BlockPool
  import opened BlockMarks

  const POOL_SIZE: nat := 0x40000
  const SIZE_LIMIT: nat := 0x8000_0000

  /** `maxfree` is the cached summary that decides whether the pool is searched at all. */
  datatype PoolView = PoolView(base: nat, pieces: seq<Piece>, maxfree: nat)

  /** A non-zero summary is the size of some free piece, and bounds every free piece of a mark's
      size or more; smaller ones may be missed. */
  ghost predicate MaxOk(bs: seq<Piece>, m: nat) {
    && (m > 0 ==> exists j :: FreeAt(bs, j) && bs[j].size == m)
    && forall j :: FreeAt(bs, j) && bs[j].size >= MARK ==> bs[j].size <= m
  }

  lemma MaxFreeOk(bs: seq<Piece>)
    ensures MaxOk(bs, MaxFree(bs))
  {
    var r := Largest(bs, 0, |bs|);
    if r > 0 {
      var j :| 0 <= j < |bs| && !bs[j].fill && bs[j].size == r;
      assert FreeAt(bs, j);
    }
  }

  function AllocMax(bs: seq<Piece>, i: nat, size: nat, m: nat): nat
    requires i < |bs| && size <= bs[i].size
  {
    if bs[i].size == m then MaxFree(Alloc(bs, i, size)) else m
  }

  function ReleaseMax(bs: seq<Piece>, i: nat, m: nat): nat
    requires i < |bs|
  {
    if m < Joined(bs, i) then Joined(bs, i) else m
  }

  lemma AllocMaxOk(bs: seq<Piece>, i: nat, size: nat, m: nat)
    requires FreeAt(bs, i) && size <= bs[i].size && MaxOk(bs, m)
    ensures MaxOk(Alloc(bs, i, size), AllocMax(bs, i, size, m))
  {
    hide MaxFree;
    var r := Alloc(bs, i, size);
    if bs[i].size == m {
      MaxFreeOk(r);
    } else {
      var n := |r| - |bs|;
      assert forall k :: 0 <= k < |r| && k != i && k != i + n ==> r[k] == bs[if k < i then k else k - n];
      if m > 0 {
        var j :| FreeAt(bs, j) && bs[j].size == m;
        var k := if j < i then j else j + n;
        assert FreeAt(r, k) && r[k].size == m;
      }
      forall k | FreeAt(r, k) && r[k].size >= MARK ensures r[k].size <= m {
        if k == i + n {
          assert FreeAt(bs, i);
        } else {
          assert FreeAt(bs, if k < i then k else k - n);
        }
      }
    }
  }

  lemma ReleaseMaxOk(bs: seq<Piece>, i: nat, m: nat)
    requires i < |bs| && MaxOk(bs, m)
    ensures MaxOk(Release(bs, i), ReleaseMax(bs, i, m))
  {
    var r := Release(bs, i);
    var lo, hi := JoinLo(bs, i), JoinHi(bs, i);
    assert forall k :: 0 <= k < |r| && k != lo ==> r[k] == bs[if k < lo then k else k - lo - 1 + hi];
    assert FreeAt(r, lo) && r[lo].size == Joined(bs, i);
    if m >= Joined(bs, i) && m > 0 {
      var j :| FreeAt(bs, j) && bs[j].size == m;
      assert !(lo <= j < hi) || j == i;
      var k := if j < lo then j else if j < hi then lo else j + lo + 1 - hi;
      assert FreeAt(r, k) && r[k].size == m;
    }
    forall k | FreeAt(r, k) && r[k].size >= MARK ensures r[k].size <= ReleaseMax(bs, i, m) {
      if k != lo { assert FreeAt(bs, if k < lo then k else k - lo - 1 + hi); }
    }
  }

  // ---- the heap

  /** The bytes of address space a pool covers: its pieces and the end mark. */
  function Span(v: PoolView): nat { Extent(v.pieces) + MARK }

  predicate Overlap(a: nat, n: nat, b: nat, m: nat) { a < b + m && b < a + n }

  ghost predicate PoolOk(v: PoolView) {
    && v.base > 0
    && WellTiled(v.pieces) && Span(v) < SIZE_LIMIT + 2 * MARK
    && MaxOk(v.pieces, v.maxfree)
  }

  ghost predicate HeapOk(h: seq<PoolView>) {
    && (forall k :: 0 <= k < |h| ==> PoolOk(h[k]))
    && forall k, l :: 0 <= k < l < |h| ==> !Overlap(h[k].base, Span(h[k]), h[l].base, Span(h[l]))
  }

  predicate Serves(v: PoolView, size: nat) { v.maxfree >= size && FirstFit(v.pieces, 0, size) < |v.pieces| }

  /** The pool that serves a request: the first whose summary promises enough and has it. */
  function Serving(h: seq<PoolView>, k: nat, size: nat): (r: nat)
    requires k <= |h|
    ensures k <= r <= |h|
    ensures r < |h| ==> Serves(h[r], size)
    ensures forall j :: k <= j < r ==> !Serves(h[j], size)
    decreases |h| - k
  {
    if k == |h| || Serves(h[k], size) then k else Serving(h, k + 1, size)
  }

  function Taken(v: PoolView, i: nat, size: nat): PoolView
    requires i < |v.pieces| && size <= v.pieces[i].size
  {
    v.(pieces := Alloc(v.pieces, i, size), maxfree := AllocMax(v.pieces, i, size, v.maxfree))
  }

  function PoolBytes(size: nat): nat { if size + 2 * MARK > POOL_SIZE then size + 2 * MARK else POOL_SIZE }

  function Opened(size: nat, base: nat): PoolView {
    var bs := [Piece(PoolBytes(size) - 2 * MARK, false)];
    PoolView(base, Alloc(bs, 0, size), MaxFree(Alloc(bs, 0, size)))
  }

  /** `customMalloc`; `given` is where the system puts a new pool, should one be needed. */
  function Malloc(h: seq<PoolView>, size: nat, given: nat): seq<PoolView> {
    var k := Serving(h, 0, size);
    if k < |h| then h[k := Taken(h[k], FirstFit(h[k].pieces, 0, size), size)] else h + [Opened(size, given)]
  }

  /** The address `customMalloc` returns, with the bytes really granted. */
  function Answer(h: seq<PoolView>, size: nat, given: nat): (nat, nat) {
    var k := Serving(h, 0, size);
    if k < |h| then
      var i := FirstFit(h[k].pieces, 0, size);
      (h[k].base + Off(h[k].pieces, i) + MARK, Granted(h[k].pieces[i], size))
    else (given + MARK, Granted(Piece(PoolBytes(size) - 2 * MARK, false), size))
  }

  function Holding(h: seq<PoolView>, k: nat, addr: nat): (r: nat)
    requires k <= |h|
    ensures k <= r <= |h|
    ensures r < |h| ==> h[r].base < addr < h[r].base + Span(h[r])
    ensures forall j :: k <= j < r ==> !(h[j].base < addr < h[j].base + Span(h[j]))
    decreases |h| - k
  {
    if k == |h| || h[k].base < addr < h[k].base + Span(h[k]) then k else Holding(h, k + 1, addr)
  }

  /** The piece whose payload starts at `at`, or the number of pieces. */
  function PieceAt(bs: seq<Piece>, i: nat, at: nat): (r: nat)
    requires i <= |bs|
    ensures i <= r <= |bs|
    ensures r < |bs| ==> at == Off(bs, r) + MARK
    ensures forall j :: i <= j < r ==> at != Off(bs, j) + MARK
    decreases |bs| - i
  {
    if i == |bs| || at == Off(bs, i) + MARK then i else PieceAt(bs, i + 1, at)
  }

  function Returned(v: PoolView, i: nat): PoolView
    requires i < |v.pieces|
  {
    v.(pieces := Release(v.pieces, i), maxfree := ReleaseMax(v.pieces, i, v.maxfree))
  }

  /** What is handed out, over all pools. */
  ghost predicate Live(h: seq<PoolView>, p: (nat, nat)) {
    exists k :: 0 <= k < |h| && LiveIn(h[k], p)
  }

  predicate LiveIn(v: PoolView, p: (nat, nat)) {
    p.0 >= v.base && (p.0 - v.base, p.1) in Payloads(v.pieces)
  }

  /** What a caller may pass to `free`: null, an address it was given, or one of another heap. */
  ghost predicate MayFree(h: seq<PoolView>, addr: nat) {
    addr == 0 || (exists n :: Live(h, (addr, n))) || Holding(h, 0, addr) == |h|
  }

  /** `customFree`. */
  function Free(h: seq<PoolView>, addr: nat): seq<PoolView> {
    var k := Holding(h, 0, addr);
    if addr == 0 || k == |h| then h
    else
      var i := PieceAt(h[k].pieces, 0, addr - h[k].base);
      if i == |h[k].pieces| then h else h[k := Returned(h[k], i)]
  }

  // ---- what each pool operation keeps

  lemma TakenKeeps(v: PoolView, i: nat, size: nat)
    requires PoolOk(v) && FreeAt(v.pieces, i) && 0 < size <= v.pieces[i].size
    ensures PoolOk(Taken(v, i, size)) && Span(Taken(v, i, size)) == Span(v)
  {
    hide *;
    TakenParts(v, i, size);
    PoolParts(v);
    AllocKeeps(v.pieces, i, size);
    AllocMaxOk(v.pieces, i, size, v.maxfree);
    PoolFromParts(v, Taken(v, i, size));
  }

  lemma PoolParts(v: PoolView)
    requires PoolOk(v)
    ensures v.base > 0 && WellTiled(v.pieces) && MaxOk(v.pieces, v.maxfree)
  {}

  lemma PoolFromParts(v: PoolView, w: PoolView)
    requires PoolOk(v) && w.base == v.base && Extent(w.pieces) == Extent(v.pieces)
    requires WellTiled(w.pieces) && MaxOk(w.pieces, w.maxfree)
    ensures PoolOk(w) && Span(w) == Span(v)
  {}

  lemma TakenParts(v: PoolView, i: nat, size: nat)
    requires FreeAt(v.pieces, i) && size <= v.pieces[i].size
    ensures i < |v.pieces|
    ensures Taken(v, i, size).base == v.base && Taken(v, i, size).pieces == Alloc(v.pieces, i, size)
    ensures Taken(v, i, size).maxfree == AllocMax(v.pieces, i, size, v.maxfree)
  {}

  lemma ReturnedKeeps(v: PoolView, i: nat)
    requires PoolOk(v) && i < |v.pieces| && v.pieces[i].fill
    ensures PoolOk(Returned(v, i)) && Span(Returned(v, i)) == Span(v)
  {
    hide *;
    PoolParts(v);
    ReturnedParts(v, i);
    ReleaseKeeps(v.pieces, i);
    ReleaseMaxOk(v.pieces, i, v.maxfree);
    PoolFromParts(v, Returned(v, i));
  }

  lemma ReturnedParts(v: PoolView, i: nat)
    requires i < |v.pieces|
    ensures Returned(v, i).base == v.base && Returned(v, i).pieces == Release(v.pieces, i)
    ensures Returned(v, i).maxfree == ReleaseMax(v.pieces, i, v.maxfree)
  {}

  lemma OpenedKeeps(size: nat, base: nat)
    requires 0 < size < SIZE_LIMIT && base > 0
    ensures PoolOk(Opened(size, base)) && Span(Opened(size, base)) == PoolBytes(size)
    ensures forall p ::
      LiveIn(Opened(size, base), p) <==> p == (base + MARK, Granted(Piece(PoolBytes(size) - 2 * MARK, false), size))
  {
    hide Payloads, Alloc, MaxFree, Extent;
    var bs := [Piece(PoolBytes(size) - 2 * MARK, false)];
    Extent1(bs[0]);
    AllocKeeps(bs, 0, size);
    MaxFreeOk(Alloc(bs, 0, size));
    AllocPayloads(bs, 0, size);
    Payloads1(bs[0]);
  }

  lemma SwapKeeps(h: seq<PoolView>, k: nat, v: PoolView)
    requires HeapOk(h) && k < |h| && PoolOk(v) && v.base == h[k].base && Span(v) == Span(h[k])
    ensures HeapOk(h[k := v])
  {}

  /** A summary that promises enough is never wrong: the search it starts finds a block. */
  lemma PromiseKept(v: PoolView, size: nat)
    requires PoolOk(v) && 0 < size <= v.maxfree
    ensures Serves(v, size)
  {
    var j :| FreeAt(v.pieces, j) && v.pieces[j].size == v.maxfree;
  }

  /** Every size a mark has to hold fits the 31 bits it has for it. */
  lemma SizesFit(v: PoolView, i: nat)
    requires PoolOk(v) && i < |v.pieces|
    ensures v.pieces[i].size < SIZE_LIMIT
  {
    OffMonotone(v.pieces, i, |v.pieces|);
  }

  // ---- the main results

  /** Where the system may put a new pool. */
  predicate Vacant(h: seq<PoolView>, base: nat, n: nat) {
    base > 0 && forall k :: 0 <= k < |h| ==> !Overlap(h[k].base, Span(h[k]), base, n)
  }

  lemma MallocKeeps(h: seq<PoolView>, size: nat, given: nat)
    requires HeapOk(h) && 0 < size < SIZE_LIMIT && Vacant(h, given, PoolBytes(size))
    ensures HeapOk(Malloc(h, size, given))
  {
    hide PoolOk, Span, Opened, Taken, PoolBytes;
    var k := Serving(h, 0, size);
    if k < |h| {
      var i := FirstFit(h[k].pieces, 0, size);
      TakenKeeps(h[k], i, size);
      TakenParts(h[k], i, size);
      SwapKeeps(h, k, Taken(h[k], i, size));
    } else {
      OpenedKeeps(size, given);
      OpenedBase(size, given);
    }
  }

  lemma OpenedBase(size: nat, base: nat)
    ensures Opened(size, base).base == base
  {}

  /** A new pool is opened only when no pool has a free block of at least `max(size, MARK)` bytes:
      exactly when no summary promises the request. */
  lemma OpensOnlyWhenFull(h: seq<PoolView>, size: nat, given: nat)
    requires HeapOk(h) && 0 < size
    ensures |Malloc(h, size, given)| > |h| <==> forall k :: 0 <= k < |h| ==> h[k].maxfree < size
    ensures |Malloc(h, size, given)| > |h| ==>
      forall k, i :: 0 <= k < |h| && FreeAt(h[k].pieces, i) ==> h[k].pieces[i].size < size || h[k].pieces[i].size < MARK
  {
    hide WellTiled, Span;
    var s := Serving(h, 0, size);
    if s < |h| { assert h[s].maxfree >= size; }
    if s == |h| {
      forall k | 0 <= k < |h| ensures h[k].maxfree < size {
        if h[k].maxfree >= size { PromiseKept(h[k], size); }
      }
    }
  }

  lemma LiveSwap(h: seq<PoolView>, k: nat, v: PoolView, p: (nat, nat))
    requires k < |h|
    ensures Live(h[k := v], p) <==> LiveIn(v, p) || exists l :: 0 <= l < |h| && l != k && LiveIn(h[l], p)
  {
    hide LiveIn;
    var g := h[k := v];
    if Live(g, p) {
      var l :| 0 <= l < |g| && LiveIn(g[l], p);
      if l != k { assert LiveIn(h[l], p); }
    }
    if LiveIn(v, p) { assert LiveIn(g[k], p); }
    if exists l :: 0 <= l < |h| && l != k && LiveIn(h[l], p) {
      var l :| 0 <= l < |h| && l != k && LiveIn(h[l], p);
      assert LiveIn(g[l], p);
    }
  }

  lemma LiveWithin(v: PoolView, p: (nat, nat))
    requires LiveIn(v, p)
    ensures v.base + MARK <= p.0 && p.0 + p.1 + MARK <= v.base + Span(v)
  {
    PayloadsApart(v.pieces, (p.0 - v.base, p.1));
    PayloadsStart(v.pieces);
  }

  /** No two live blocks share a byte. */
  lemma LiveApart(h: seq<PoolView>, p: (nat, nat), q: (nat, nat))
    requires HeapOk(h) && Live(h, p) && Live(h, q) && p != q
    ensures Apart(p, q)
  {
    hide PoolOk, Payloads, Span;
    var k :| 0 <= k < |h| && LiveIn(h[k], p);
    var l :| 0 <= l < |h| && LiveIn(h[l], q);
    if k == l {
      PayloadsApart(h[k].pieces, (p.0 - h[k].base, p.1));
    } else {
      LiveWithin(h[k], p);
      LiveWithin(h[l], q);
      if k < l {
        assert !Overlap(h[k].base, Span(h[k]), h[l].base, Span(h[l]));
      } else {
        assert !Overlap(h[l].base, Span(h[l]), h[k].base, Span(h[k]));
      }
    }
  }

  lemma TakenLive(v: PoolView, i: nat, size: nat, p: (nat, nat))
    requires FreeAt(v.pieces, i) && size <= v.pieces[i].size
    ensures LiveIn(Taken(v, i, size), p)
      <==> LiveIn(v, p) || p == (v.base + Off(v.pieces, i) + MARK, Granted(v.pieces[i], size))
    ensures !LiveIn(v, (v.base + Off(v.pieces, i) + MARK, Granted(v.pieces[i], size)))
  {
    hide Payloads, Alloc, Off, Granted;
    AllocPayloads(v.pieces, i, size);
  }

  /** What a pool holds lies in it, so another pool does not hold it. */
  lemma LiveElsewhere(h: seq<PoolView>, k: nat, l: nat, p: (nat, nat))
    requires HeapOk(h) && k < |h| && l < |h| && LiveIn(h[k], p) && k != l
    ensures !LiveIn(h[l], p) && !(h[l].base < p.0 < h[l].base + Span(h[l]))
  {
    hide PoolOk, LiveIn, Span;
    var lo, hi := if k < l then k else l, if k < l then l else k;
    assert !Overlap(h[lo].base, Span(h[lo]), h[hi].base, Span(h[hi]));
    LiveWithin(h[k], p);
    if LiveIn(h[l], p) { LiveWithin(h[l], p); }
  }

  /** `malloc` hands out one new block, large enough, and leaves every live block as it was. */
  /** Where a request is served: in the first pool that promises the size and has a block for it, in the
      first such block; when there is none, at the start of a new pool, the smallest that can be. */
  lemma MallocPlaces(h: seq<PoolView>, size: nat, given: nat, k: nat, i: nat)
    requires k < |h| && i < |h[k].pieces|
    requires h[k].maxfree >= size && FreeAt(h[k].pieces, i) && h[k].pieces[i].size >= size
    requires forall j :: 0 <= j < i ==> !(FreeAt(h[k].pieces, j) && h[k].pieces[j].size >= size)
    requires forall j :: 0 <= j < k ==>
      h[j].maxfree < size || forall l :: 0 <= l < |h[j].pieces| ==> !(FreeAt(h[j].pieces, l) && h[j].pieces[l].size >= size)
    ensures Answer(h, size, given).0 == h[k].base + Off(h[k].pieces, i) + MARK
    ensures Malloc(h, size, given) == h[k := h[k].(pieces := Alloc(h[k].pieces, i, size),
                                                   maxfree := Malloc(h, size, given)[k].maxfree)]
  {
    hide Off, Alloc;
    assert FirstFit(h[k].pieces, 0, size) == i;
    assert Serving(h, 0, size) == k;
  }

  lemma NewPoolIsSmallest(size: nat, n: nat)
    ensures PoolBytes(size) <= n <==> n >= POOL_SIZE && n >= size + 2 * MARK
  {}

  lemma MallocLive(h: seq<PoolView>, size: nat, given: nat)
    requires HeapOk(h) && 0 < size < SIZE_LIMIT && Vacant(h, given, PoolBytes(size))
    ensures Answer(h, size, given).1 >= size
    ensures !Live(h, Answer(h, size, given))
    ensures forall p :: Live(Malloc(h, size, given), p) <==> Live(h, p) || p == Answer(h, size, given)
  {
    hide PoolOk, Span, LiveIn, Taken, Opened, PoolBytes, HeapOk;
    var k := Serving(h, 0, size);
    if k < |h| {
      var i := FirstFit(h[k].pieces, 0, size);
      forall p ensures Live(Malloc(h, size, given), p) <==> Live(h, p) || p == Answer(h, size, given) {
        TakenLive(h[k], i, size, p);
        LiveSwap(h, k, Taken(h[k], i, size), p);
      }
      AnswerIsNew(h, k, i, size);
    } else {
      OpenedKeeps(size, given);
      PoolFits(size);
      forall p ensures Live(Malloc(h, size, given), p) <==> Live(h, p) || p == Answer(h, size, given) {
        LiveAdded(h, Opened(size, given), p);
      }
      if Live(h, Answer(h, size, given)) {
        var l :| 0 <= l < |h| && LiveIn(h[l], Answer(h, size, given));
        LiveWithin(h[l], Answer(h, size, given));
      }
    }
  }

  lemma PoolFits(size: nat)
    ensures PoolBytes(size) >= size + 2 * MARK
  {}

  lemma LiveAdded(h: seq<PoolView>, v: PoolView, p: (nat, nat))
    ensures Live(h + [v], p) <==> Live(h, p) || LiveIn(v, p)
  {
    hide LiveIn;
    var g := h + [v];
    if Live(h, p) {
      var l :| 0 <= l < |h| && LiveIn(h[l], p);
      assert LiveIn(g[l], p);
    }
    if LiveIn(v, p) { assert LiveIn(g[|h|], p); }
  }

  lemma AnswerIsNew(h: seq<PoolView>, k: nat, i: nat, size: nat)
    requires HeapOk(h) && k < |h| && FreeAt(h[k].pieces, i) && 0 < size <= h[k].pieces[i].size
    ensures !Live(h, (h[k].base + Off(h[k].pieces, i) + MARK, Granted(h[k].pieces[i], size)))
  {
    hide Payloads, Granted, Alloc, PoolOk;
    var a := (h[k].base + Off(h[k].pieces, i) + MARK, Granted(h[k].pieces[i], size));
    if Live(h, a) {
      var l :| 0 <= l < |h| && LiveIn(h[l], a);
      TakenLive(h[k], i, size, a);
      TakenKeeps(h[k], i, size);
      SwapKeeps(h, k, Taken(h[k], i, size));
      if l != k { LiveElsewhere(h[k := Taken(h[k], i, size)], k, l, a); }
    }
  }

  lemma LivePiece(v: PoolView, p: (nat, nat))
    requires LiveIn(v, p)
    ensures var i := PieceAt(v.pieces, 0, p.0 - v.base);
      i < |v.pieces| && v.pieces[i] == Piece(p.1, true) && p.0 == v.base + Off(v.pieces, i) + MARK
  {
    hide Off;
    var bs := v.pieces;
    var j :| 0 <= j < |bs| && bs[j].fill && (p.0 - v.base, p.1) == (Off(bs, j) + MARK, bs[j].size);
    var i := PieceAt(bs, 0, p.0 - v.base);
    if i < j { OffMonotone(bs, i, j); }
  }

  /** The pool and the piece that `free` finds for a live address are those that hold it. */
  lemma FreeFinds(h: seq<PoolView>, p: (nat, nat))
    requires HeapOk(h) && Live(h, p)
    ensures var k := Holding(h, 0, p.0);
      && p.0 > 0 && k < |h| && LiveIn(h[k], p)
      && PieceAt(h[k].pieces, 0, p.0 - h[k].base) < |h[k].pieces|
  {
    hide PoolOk, LiveIn, Span, HeapOk;
    var l :| 0 <= l < |h| && LiveIn(h[l], p);
    LiveWithin(h[l], p);
    var k := Holding(h, 0, p.0);
    if k != l { LiveElsewhere(h, l, k, p); }
    LivePiece(h[k], p);
  }

  lemma FreeKeeps(h: seq<PoolView>, addr: nat)
    requires HeapOk(h) && MayFree(h, addr)
    ensures HeapOk(Free(h, addr))
  {
    hide PoolOk, Live, HeapOk, Span, LiveIn, Returned;
    var k := Holding(h, 0, addr);
    if addr != 0 && k < |h| {
      var n :| Live(h, (addr, n));
      FreeFinds(h, (addr, n));
      LivePiece(h[k], (addr, n));
      OkAt(h, k);
      var i := PieceAt(h[k].pieces, 0, addr - h[k].base);
      ReturnedKeeps(h[k], i);
      ReturnedParts(h[k], i);
      SwapKeeps(h, k, Returned(h[k], i));
    }
  }

  lemma OkAt(h: seq<PoolView>, k: nat)
    requires HeapOk(h) && k < |h|
    ensures PoolOk(h[k])
  {}

  lemma ReturnedLive(v: PoolView, p: (nat, nat), q: (nat, nat))
    requires LiveIn(v, p)
    ensures LiveIn(Returned(v, PieceAt(v.pieces, 0, p.0 - v.base)), q) <==> LiveIn(v, q) && q != p
  {
    hide Payloads, Release, Off;
    LivePiece(v, p);
    ReleasePayloads(v.pieces, PieceAt(v.pieces, 0, p.0 - v.base));
  }

  /** `free` takes back exactly the block at that address. */
  lemma FreeLive(h: seq<PoolView>, p: (nat, nat), q: (nat, nat))
    requires HeapOk(h) && Live(h, p)
    ensures Live(Free(h, p.0), q) <==> Live(h, q) && q != p
  {
    hide PoolOk, LiveIn, Span, HeapOk, Returned;
    FreeFinds(h, p);
    var k := Holding(h, 0, p.0);
    var i := PieceAt(h[k].pieces, 0, p.0 - h[k].base);
    LiveSwap(h, k, Returned(h[k], i), q);
    ReturnedLive(h[k], p, q);
    if q == p && Live(Free(h, p.0), q) {
      var l :| 0 <= l < |h| && l != k && LiveIn(h[l], q);
      LiveElsewhere(h, k, l, p);
    }
  }

  lemma LiveSized(h: seq<PoolView>, p: (nat, nat))
    requires HeapOk(h) && Live(h, p)
    ensures p.0 > 0 && p.1 > 0
  {
    hide Payloads, Off, Span, MaxOk;
    var k :| 0 <= k < |h| && LiveIn(h[k], p);
    LivePiece(h[k], p);
  }

  /** Two live blocks never start at the same address. */
  lemma LiveByAddress(h: seq<PoolView>, p: (nat, nat), q: (nat, nat))
    requires HeapOk(h) && Live(h, p) && Live(h, q) && p.0 == q.0
    ensures p == q
  {
    hide HeapOk, Live;
    if p != q {
      LiveSized(h, p);
      LiveSized(h, q);
      LiveApart(h, p, q);
    }
  }

  // ---- runs

  datatype Request = Take(size: nat, given: nat) | GiveBack(addr: nat)

  ghost predicate Allowed(h: seq<PoolView>, r: Request) {
    match r
    case Take(size, given) => 0 < size < SIZE_LIMIT && Vacant(h, given, PoolBytes(size))
    case GiveBack(addr) => MayFree(h, addr)
  }

  function Serve(h: seq<PoolView>, r: Request): seq<PoolView> {
    match r
    case Take(size, given) => Malloc(h, size, given)
    case GiveBack(addr) => Free(h, addr)
  }

  function ServeAll(h: seq<PoolView>, rs: seq<Request>): seq<PoolView> {
    if rs == [] then h else Serve(ServeAll(h, rs[..|rs| - 1]), rs[|rs| - 1])
  }

  ghost predicate AllAllowed(h: seq<PoolView>, rs: seq<Request>) {
    rs == [] || (AllAllowed(h, rs[..|rs| - 1]) && Allowed(ServeAll(h, rs[..|rs| - 1]), rs[|rs| - 1]))
  }

  /** What the callers own: every answer they got, less what they gave back. */
  function Owned(rs: seq<Request>): set<(nat, nat)> {
    if rs == [] then {}
    else
      var before := Owned(rs[..|rs| - 1]);
      match rs[|rs| - 1]
      case Take(size, given) => before + {Answer(ServeAll([], rs[..|rs| - 1]), size, given)}
      case GiveBack(addr) => set p | p in before && p.0 != addr
  }

  /** After any run from an empty heap, every pool is well tiled with a true summary, the live blocks
      are exactly what the callers own, and no two of them share a byte. */
  lemma {:induction false} RunsKeep(rs: seq<Request>)
    requires AllAllowed([], rs)
    ensures HeapOk(ServeAll([], rs))
    ensures forall p :: Live(ServeAll([], rs), p) <==> p in Owned(rs)
    ensures forall p, q :: p in Owned(rs) && q in Owned(rs) && p != q ==> Apart(p, q)
  {
    hide Live, PoolOk, Allowed, Serve, HeapOk;
    if rs == [] {
      EmptyHeap();
    } else {
      RunsKeep(rs[..|rs| - 1]);
      var h := ServeAll([], rs[..|rs| - 1]);
      ServeKeeps(h, rs[|rs| - 1], Owned(rs[..|rs| - 1]), Owned(rs));
    }
    forall p, q | p in Owned(rs) && q in Owned(rs) && p != q ensures Apart(p, q) {
      LiveApart(ServeAll([], rs), p, q);
    }
  }

  lemma EmptyHeap()
    ensures HeapOk([]) && forall p :: !Live([], p)
  {}

  lemma ServeKeeps(h: seq<PoolView>, r: Request, before: set<(nat, nat)>, after: set<(nat, nat)>)
    requires HeapOk(h) && Allowed(h, r) && forall p :: Live(h, p) <==> p in before
    requires after == match r
                      case Take(size, given) => before + {Answer(h, size, given)}
                      case GiveBack(addr) => set p | p in before && p.0 != addr
    ensures HeapOk(Serve(h, r))
    ensures forall p :: Live(Serve(h, r), p) <==> p in after
  {
    hide Live, PoolOk, Malloc, Answer, HeapOk, Free, PoolBytes;
    match r
    case Take(size, given) =>
      MallocKeeps(h, size, given);
      MallocLive(h, size, given);
    case GiveBack(addr) =>
      FreeKeeps(h, addr);
      forall q ensures Live(Free(h, addr), q) <==> Live(h, q) && q.0 != addr {
        FreeByAddress(h, addr, q);
      }
  }

  lemma FreeByAddress(h: seq<PoolView>, addr: nat, q: (nat, nat))
    requires HeapOk(h) && MayFree(h, addr)
    ensures Live(Free(h, addr), q) <==> Live(h, q) && q.0 != addr
  {
    hide PoolOk, LiveIn, Span, HeapOk, Returned, Live;
    assert Live(h, q) && q.0 == addr ==> Live(h, (addr, q.1));
    if exists n :: Live(h, (addr, n)) {
      var n :| Live(h, (addr, n));
      FreeLive(h, (addr, n), q);
      if Live(h, q) && q.0 == addr { LiveByAddress(h, q, (addr, n)); }
    }
  }
}
