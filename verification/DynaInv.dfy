/** What every step of the translation cache keeps. */
module DynaInv {
  import opened Common
  import opened DynaState
  import X31

  /** All tracked pages that meet `[a, e)` are closed to the guest. */
  ghost predicate Closed(prot: seq<bv8>, a: nat, e: nat) {
    forall p :: PageOf(a) <= p < PageEnd(e) && p < |prot| ==> !GuestWritable(prot[p])
  }

  /** A father that a lookup may run without testing it. */
  predicate Clean(b: Block) { b.father.None? && b.native && b.done && !b.needTest }

  predicate Father(b: Block) { b.father.None? && b.native }

  function Bytes(mem: seq<Byte>, b: Block): seq<Byte>
    requires b.start + b.size <= |mem|
  {
    mem[b.start..b.start + b.size]
  }

  /** The pages of a block are write-protected and its bytes hash to what was recorded. */
  ghost predicate Fresh(mem: seq<Byte>, prot: seq<bv8>, b: Block) {
    b.start + b.size <= |mem| && Closed(prot, b.start, b.start + b.size) && X31.Hash(Bytes(mem, b)) == b.hash
  }

  ghost predicate Coherent(mem: seq<Byte>, prot: seq<bv8>, bs: Blocks) {
    forall id :: id in bs && Clean(bs[id]) ==> Fresh(mem, prot, bs[id])
  }

  /** A non-default jump-table entry leads to the block that starts there, and its father is clean. */
  ghost predicate JumpsOk(jump: map<nat, Id>, bs: Blocks) {
    forall a :: a in jump ==>
      && jump[a] in bs && bs[jump[a]].start == a && bs[jump[a]].native && bs[jump[a]].done
      && Root(bs, jump[a]) in bs && Clean(bs[Root(bs, jump[a])])
  }

  /** The hash is that of the translated bytes; only a revalidation can separate those from memory. */
  ghost predicate Exact(mem: seq<Byte>, b: Block) {
    && 0 < |b.src| == b.size && X31.Hash(b.src) == b.hash && b.start + b.size <= |mem|
    && (Clean(b) && !b.revalidated ==> Bytes(mem, b) == b.src)
  }

  ghost predicate AllExact(mem: seq<Byte>, bs: Blocks) {
    forall id :: id in bs && Father(bs[id]) ==> Exact(mem, bs[id])
  }

  /** Marking a page of chunk `c` will look at the chunk where `b` starts. */
  predicate Findable(lists: Lists, b: Block, c: nat) {
    c in lists && lists[c].direct && (c == ChunkOf(b.start) || ChunkOf(lists[c].minstart) <= ChunkOf(b.start))
  }

  predicate Enters(b: Block, c: nat) {
    b.size > 0 && ChunkOf(b.start) <= c <= ChunkOf(b.start + b.size - 1)
  }

  /** A father is done once it is installed, and every page of it can be traced back to it. */
  ghost predicate FoundEverywhere(lists: Lists, b: Block) {
    b.done && forall c :: Enters(b, c) ==> Findable(lists, b, c)
  }

  ghost predicate Indexed(lists: Lists, bs: Blocks) {
    forall id :: id in bs && Father(bs[id]) ==> FoundEverywhere(lists, bs[id])
  }

  /** Chunks below `maxend` know of a block that starts this early: why `minstart` may stay when `maxend` does. */
  ghost predicate Bounded(lists: Lists) {
    forall c, k :: c in lists && c < k && k * CHUNK < lists[c].maxend ==>
      k in lists && ChunkOf(lists[k].minstart) <= c
  }

  ghost predicate Exclusive(prot: seq<bv8>) {
    forall p :: 0 <= p < |prot| && Watched(prot[p]) ==> !Writable(prot[p])
  }

  ghost predicate Known(prot: seq<bv8>, a: nat, e: nat) {
    forall p :: PageOf(a) <= p < PageEnd(e) && p < |prot| ==> prot[p] != 0
  }

  /** Between protection and recheck a page can be given back to the guest, but not taken again:
      as long as all pages are still protected, the bytes are those that were hashed. */
  ghost predicate CompileOk(mem: seq<Byte>, prot: seq<bv8>, a: nat, c: Compile) {
    match c
    case Idle => true
    case Pass0(_) => Known(prot, a, a + 1)
    case Placed(_, e) => Known(prot, a, e)
    case Hashed(_, e, hash, src) =>
      && Known(prot, a, e) && a <= e <= |mem| && |src| == e - a && X31.Hash(src) == hash
      && (Closed(prot, a, e) ==> mem[a..e] == src)
  }

  function CompileStart(bs: Blocks, c: Compile): nat {
    if c != Idle && c.id in bs then bs[c.id].start else 0
  }

  ghost predicate Inv(s: State) {
    && Shape(s) && Exclusive(s.prot) && Coherent(s.mem, s.prot, s.blocks) && JumpsOk(s.jump, s.blocks)
    && AllExact(s.mem, s.blocks) && Indexed(s.lists, s.blocks) && Bounded(s.lists)
    && CompileOk(s.mem, s.prot, CompileStart(s.blocks, s.compile), s.compile)
  }

  // ---- guest writes

  lemma PageWithin(lo: nat, a: nat, hi: nat)
    ensures lo <= a < hi ==> PageOf(lo) <= PageOf(a) < PageEnd(hi)
  {}

  lemma WriteOutside(mem: seq<Byte>, prot: seq<bv8>, a: nat, v: Byte, lo: nat, hi: nat)
    requires lo <= hi <= |mem| && a < |mem| && |mem| == |prot| * PAGE
    requires Closed(prot, lo, hi) && GuestWritable(prot[PageOf(a)])
    ensures mem[a := v][lo..hi] == mem[lo..hi]
  {
    PageWithin(lo, a, hi);
  }

  lemma WriteKeeps(s: State, a: nat, v: Byte)
    requires Inv(s)
    ensures Inv(GuestWrite(s, a, v))
  {
    hide SlotsOk, FamiliesOk, JumpsOk, Indexed, Bounded, Closed, X31.Hash, Known;
    if a < |s.mem| && GuestWritable(s.prot[PageOf(a)]) {
      forall id | id in s.blocks && Clean(s.blocks[id]) {
        WriteOutside(s.mem, s.prot, a, v, s.blocks[id].start, s.blocks[id].start + s.blocks[id].size);
      }
      if s.compile.Hashed? && Closed(s.prot, CompileStart(s.blocks, s.compile), s.compile.end) {
        WriteOutside(s.mem, s.prot, a, v, CompileStart(s.blocks, s.compile), s.compile.end);
      }
    }
  }

  // ---- protection

  lemma ProtectCloses(prot: seq<bv8>, a: nat, e: nat)
    requires Exclusive(prot)
    ensures Exclusive(Protect(prot, a, e)) && Closed(Protect(prot, a, e), a, e) && Known(Protect(prot, a, e), a, e)
  {
    forall p | 0 <= p < |prot| { PageLaws(prot[p]); }
  }

  lemma ProtectKeeps(prot: seq<bv8>, a: nat, e: nat, lo: nat, hi: nat)
    ensures Closed(prot, lo, hi) ==> Closed(Protect(prot, a, e), lo, hi)
    ensures Known(prot, lo, hi) ==> Known(Protect(prot, a, e), lo, hi)
  {
    forall p | 0 <= p < |prot| { PageLaws(prot[p]); }
  }

  lemma ProtectKeepsCoherent(mem: seq<Byte>, prot: seq<bv8>, bs: Blocks, a: nat, e: nat)
    requires Coherent(mem, prot, bs)
    ensures Coherent(mem, Protect(prot, a, e), bs)
  {
    hide Closed, Known, Protect, X31.Hash;
    forall id | id in bs && Clean(bs[id]) {
      ProtectKeeps(prot, a, e, bs[id].start, bs[id].start + bs[id].size);
    }
  }

  // ---- marking and write faults

  lemma MarkKeepsShape(s: State, d: set<Id>)
    requires Shape(s)
    ensures Shape(Mark(s, d))
  {
    MarkKeepsSlots(s, d);
    MarkKeepsFamilies(s, d);
  }

  lemma MarkKeepsSlots(s: State, d: set<Id>)
    requires SlotsOk(|s.mem|, s.lists, s.blocks, s.direct, s.next)
    ensures SlotsOk(|s.mem|, s.lists, Mark(s, d).blocks, s.direct, s.next)
  {}

  /** Marking changes the marks and nothing else of the blocks. */
  lemma MarkedBlocks(s: State, d: set<Id>)
    ensures Mark(s, d).blocks.Keys == s.blocks.Keys
    ensures forall id :: id in s.blocks ==>
      Mark(s, d).blocks[id] == s.blocks[id].(needTest := s.blocks[id].needTest || id in d)
  {}

  lemma MarkKeepsFamilies(s: State, d: set<Id>)
    requires FamiliesOk(s.blocks)
    ensures FamiliesOk(Mark(s, d).blocks)
  {
    hide *;
    MarkedBlocks(s, d);
    FamiliesStay(s.blocks, Mark(s, d).blocks);
  }

  lemma FamiliesStay(bs: Blocks, cs: Blocks)
    requires FamiliesOk(bs) && cs.Keys == bs.Keys
    requires forall id :: id in bs ==> cs[id] == bs[id].(needTest := cs[id].needTest)
    ensures FamiliesOk(cs)
  {
    hide SonOf;
    forall id | id in cs && cs[id].father.Some?
      ensures cs[id].father.value in cs && id in cs[cs[id].father.value].sons && SonOf(cs[id], cs[cs[id].father.value])
    {
      var f := bs[id].father.value;
      assert id in bs && SonOf(bs[id], bs[f]);
      SonStays(bs[id], bs[f], cs[id].needTest, cs[f].needTest);
    }
    forall id, k | id in cs && k in cs[id].sons ensures k in cs && cs[k].father == Some(id) {
      assert id in bs && k in bs[id].sons;
    }
  }

  lemma SonStays(b: Block, f: Block, m: bool, n: bool)
    requires SonOf(b, f)
    ensures SonOf(b.(needTest := m), f.(needTest := n))
  {}

  lemma MarkedJumps(s: State, d: set<Id>)
    ensures forall a :: a in Mark(s, d).jump ==> a in s.jump && Mark(s, d).jump[a] == s.jump[a] && !Dropped(s, d, a)
  {}

  lemma RootEnters(bs: Blocks, id: Id)
    requires FamiliesOk(bs) && id in bs
    ensures Root(bs, id) in bs && bs[id].start in Entries(bs, Root(bs, id))
  {}

  lemma NotDropped(s: State, d: set<Id>, a: nat, f: Id)
    requires !Dropped(s, d, a) && f in s.blocks && a in Entries(s.blocks, f) && !s.blocks[f].needTest
    ensures f !in d
  {}

  lemma MarkKeepsJumps(s: State, d: set<Id>)
    requires FamiliesOk(s.blocks) && JumpsOk(s.jump, s.blocks)
    ensures JumpsOk(Mark(s, d).jump, Mark(s, d).blocks)
  {
    hide Mark, Dropped, SonOf, FamiliesOk;
    MarkedBlocks(s, d);
    MarkedJumps(s, d);
    var t := Mark(s, d);
    forall a | a in t.jump
      ensures t.jump[a] in t.blocks && Root(t.blocks, t.jump[a]) in t.blocks && Clean(t.blocks[Root(t.blocks, t.jump[a])])
    {
      var r := Root(s.blocks, s.jump[a]);
      RootEnters(s.blocks, s.jump[a]);
      NotDropped(s, d, a, r);
    }
  }

  lemma MarkKeepsRecords(s: State, d: set<Id>)
    requires AllExact(s.mem, s.blocks) && Indexed(s.lists, s.blocks)
    ensures AllExact(s.mem, Mark(s, d).blocks) && Indexed(s.lists, Mark(s, d).blocks)
  {
    var t := Mark(s, d);
    forall id | id in t.blocks && Father(t.blocks[id])
      ensures Exact(s.mem, t.blocks[id]) && FoundEverywhere(s.lists, t.blocks[id])
    {
      var b := t.blocks[id];
      assert Exact(s.mem, s.blocks[id]) && FoundEverywhere(s.lists, s.blocks[id]);
      forall c | Enters(b, c) ensures Findable(s.lists, b, c) { assert Enters(s.blocks[id], c); }
    }
  }

  /** The heart of marking: a block that a page meets is reached from that page's chunk,
      whichever chunk it starts in, as long as that chunk is findable. */
  lemma FaultReaches(s: State, id: Id, page: nat)
    requires SlotsOk(|s.mem|, s.lists, s.blocks, s.direct, s.next) && |s.mem| <= MEM
    requires id in s.blocks && Father(s.blocks[id]) && s.blocks[id].size > 0
    requires PageOf(s.blocks[id].start) <= page < PageEnd(s.blocks[id].start + s.blocks[id].size)
    requires Findable(s.lists, s.blocks[id], ChunkOf(page * PAGE))
    ensures id in RangeHits(s, ChunkOf(page * PAGE), page * PAGE, PAGE)
  {
    var b, lo := s.blocks[id], page * PAGE;
    var c := ChunkOf(lo);
    PageChunk(b.start, b.size, page);
    assert InSlot(b, id, s.direct, s.next, |s.mem|);
    assert LastByte(b) == b.start + b.size - 1;
    assert Hit(s, ChunkOf(b.start), b.start, lo, PAGE);
    assert InRange(s, c, ChunkOf(b.start));
  }

  lemma PageChunk(start: nat, size: nat, page: nat)
    requires size > 0 && PageOf(start) <= page < PageEnd(start + size)
    ensures page * PAGE < start + size && start < page * PAGE + PAGE
    ensures ChunkOf(start) <= ChunkOf(page * PAGE) <= ChunkOf(start + size - 1)
  {
    ChunkOfPage(start);
    ChunkGrows(PageOf(start) * PAGE, page * PAGE);
    ChunkGrows(page * PAGE, start + size - 1);
  }

  lemma ChunkGrows(x: nat, y: nat)
    requires x <= y
    ensures ChunkOf(x) <= ChunkOf(y)
  {}

  lemma ChunkOfPage(x: nat)
    ensures ChunkOf(PageOf(x) * PAGE) == ChunkOf(x)
  {
    var q := PageOf(x);
    ChunkIs(x, q / 16, q % 16 * PAGE + x % PAGE);
    ChunkIs(q * PAGE, q / 16, q % 16 * PAGE);
  }

  lemma ChunkIs(x: nat, c: nat, r: nat)
    requires x == c * CHUNK + r && r < CHUNK
    ensures ChunkOf(x) == c
  {}

  predicate Meets(b: Block, page: nat) {
    PageOf(b.start) <= page < PageEnd(b.start + b.size)
  }

  lemma FaultCoherent(s: State, page: nat)
    requires SlotsOk(|s.mem|, s.lists, s.blocks, s.direct, s.next) && |s.mem| <= MEM
    requires Coherent(s.mem, s.prot, s.blocks) && AllExact(s.mem, s.blocks)
    requires forall id :: id in s.blocks && Clean(s.blocks[id]) && Meets(s.blocks[id], page) ==>
      Findable(s.lists, s.blocks[id], ChunkOf(page * PAGE))
    ensures var t := Fault(s, page); Coherent(t.mem, t.prot, t.blocks)
  {
    hide X31.Hash, RangeHits, SlotsOk, Findable;
    var t := Fault(s, page);
    if t != s {
      forall id | id in t.blocks && Clean(t.blocks[id]) ensures Fresh(t.mem, t.prot, t.blocks[id]) {
        var b := s.blocks[id];
        assert Exact(s.mem, b);
        assert Clean(b) && t.blocks[id] == b;
        if Meets(b, page) { FaultReaches(s, id, page); }
      }
    }
  }

  lemma FaultKeepsCoherent(s: State, page: nat)
    requires Inv(s)
    ensures var t := Fault(s, page); Coherent(t.mem, t.prot, t.blocks)
  {
    hide FamiliesOk, JumpsOk, Bounded, X31.Hash, Known, SlotsOk, Findable, Fault, Coherent, Exclusive, CompileOk;
    forall id | id in s.blocks && Clean(s.blocks[id]) && Meets(s.blocks[id], page)
      ensures Findable(s.lists, s.blocks[id], ChunkOf(page * PAGE))
    {
      var b := s.blocks[id];
      assert Exact(s.mem, b) && FoundEverywhere(s.lists, b);
      PageChunk(b.start, b.size, page);
      assert Enters(b, ChunkOf(page * PAGE));
    }
    FaultCoherent(s, page);
  }

  lemma FaultKeepsPages(s: State, page: nat)
    requires Exclusive(s.prot)
    requires CompileOk(s.mem, s.prot, CompileStart(s.blocks, s.compile), s.compile)
    ensures var t := Fault(s, page);
      Exclusive(t.prot) && CompileOk(t.mem, t.prot, CompileStart(s.blocks, s.compile), s.compile)
  {
    hide RangeHits, X31.Hash;
    var t := Fault(s, page);
    if page < |s.prot| && Watched(s.prot[page]) {
      PageLaws(s.prot[page]);
      assert t.prot == s.prot[page := UnprotectPage(s.prot[page])];
      var a := CompileStart(s.blocks, s.compile);
      if s.compile.Hashed? && Closed(t.prot, a, s.compile.end) {
        forall p | PageOf(a) <= p < PageEnd(s.compile.end) && p < |s.prot| ensures !GuestWritable(s.prot[p]) {
          assert !GuestWritable(t.prot[p]);
        }
      }
    }
  }

  lemma FaultKeeps(s: State, page: nat)
    requires Inv(s)
    ensures Inv(Fault(s, page))
  {
    hide SlotsOk, FamiliesOk, JumpsOk, AllExact, Indexed, Bounded, Coherent, Exclusive, CompileOk, RangeHits;
    FaultKeepsCoherent(s, page);
    FaultKeepsPages(s, page);
    var d := RangeHits(s, ChunkOf(page * PAGE), page * PAGE, PAGE);
    MarkKeepsShape(s, d);
    MarkKeepsJumps(s, d);
    MarkKeepsRecords(s, d);
  }

  // ---- lists and slots

  /** Lists are only added, get their arrays, and see `minstart` go down. */
  ghost predicate ListsGrow(ls: Lists, ms: Lists) {
    forall c :: c in ls ==> c in ms && ms[c].minstart <= ls[c].minstart && (ls[c].direct ==> ms[c].direct)
  }

  lemma GrowKeepsIndexed(ls: Lists, ms: Lists, bs: Blocks)
    requires Indexed(ls, bs) && ListsGrow(ls, ms)
    ensures Indexed(ms, bs)
  {
    forall id, c | id in bs && Father(bs[id]) && Enters(bs[id], c) ensures Findable(ms, bs[id], c) {
      assert FoundEverywhere(ls, bs[id]);
      assert Findable(ls, bs[id], c);
    }
  }

  lemma GrowKeepsSlots(size: nat, ls: Lists, ms: Lists, bs: Blocks, direct: map<nat, Id>, next: Id)
    requires SlotsOk(size, ls, bs, direct, next) && ListsGrow(ls, ms)
    ensures SlotsOk(size, ms, bs, direct, next)
  {}

  lemma AddListBounded(s: State, c: nat)
    requires Bounded(s.lists)
    ensures Bounded(AddList(s, c).lists)
  {
    hide ChunkOf;
  }

  lemma AddListKeeps(s: State, c: nat)
    requires Inv(s)
    ensures Inv(AddList(s, c))
  {
    hide SlotsOk, FamiliesOk, JumpsOk, AllExact, Indexed, Coherent, Exclusive, CompileOk, Bounded, CompileShape;
    AddListBounded(s, c);
    var t := AddList(s, c);
    assert ListsGrow(s.lists, t.lists);
    GrowKeepsIndexed(s.lists, t.lists, s.blocks);
    GrowKeepsSlots(|s.mem|, s.lists, t.lists, s.blocks, s.direct, s.next);
  }

  lemma NewSlotLists(s: State, a: nat, b: Block)
    requires ChunkOf(a) in s.lists && Bounded(s.lists)
    ensures var t := NewSlot(s, a, b); ListsGrow(s.lists, t.lists) && Bounded(t.lists)
  {
    var c, ms := ChunkOf(a), NewSlot(s, a, b).lists;
    assert ms == s.lists[c := s.lists[c].(direct := true)];
    hide ChunkOf, NewSlot;
  }

  lemma NewSlotKeepsSlots(s: State, a: nat, b: Block)
    requires CanCreate(s, a) && SlotsOk(|s.mem|, s.lists, s.blocks, s.direct, s.next)
    requires b.start == a < |s.mem| && a + b.size <= |s.mem|
    ensures var t := NewSlot(s, a, b); SlotsOk(|s.mem|, t.lists, t.blocks, t.direct, t.next)
  {
    var t := NewSlot(s, a, b);
    assert s.next !in s.blocks;
    forall id | id in t.blocks ensures InSlot(t.blocks[id], id, t.direct, t.next, |s.mem|) {
      if id != s.next { assert InSlot(s.blocks[id], id, s.direct, s.next, |s.mem|); }
    }
  }

  lemma NewFatherKeepsFamilies(bs: Blocks, id: Id, b: Block)
    requires FamiliesOk(bs) && id !in bs && b.father.None? && b.sons == []
    ensures FamiliesOk(bs[id := b])
  {
    var cs := bs[id := b];
    forall k | k in cs && cs[k].father.Some?
      ensures cs[k].father.value in cs && SonOf(cs[k], cs[cs[k].father.value])
    {
      assert k in bs && SonOf(bs[k], bs[bs[k].father.value]);
    }
  }

  lemma NewFatherKeepsJumps(jump: map<nat, Id>, bs: Blocks, id: Id, b: Block)
    requires JumpsOk(jump, bs) && FamiliesOk(bs) && id !in bs
    ensures JumpsOk(jump, bs[id := b])
  {
    forall a | a in jump ensures var cs := bs[id := b]; Root(cs, jump[a]) in cs && Clean(cs[Root(cs, jump[a])]) {
      assert Clean(bs[Root(bs, jump[a])]);
    }
  }

  lemma FreshIds(s: State)
    requires SlotsOk(|s.mem|, s.lists, s.blocks, s.direct, s.next)
    ensures s.next !in s.blocks
  {
    assert s.next in s.blocks ==> InSlot(s.blocks[s.next], s.next, s.direct, s.next, |s.mem|);
  }

  /** A new empty record for `a`, not yet compiled. */
  lemma NewEmptyKeeps(s: State, a: nat, b: Block)
    requires Inv(s) && CanCreate(s, a) && s.compile == Idle && a < |s.mem|
    requires b.father.None? && b.sons == [] && b.start == a && b.size == 0 && !b.native
    ensures Inv(NewSlot(s, a, b))
  {
    hide SlotsOk, FamiliesOk, JumpsOk, Indexed, Bounded, Exclusive, X31.Hash, Closed, ListsGrow;
    NewSlotLists(s, a, b);
    NewSlotKeepsSlots(s, a, b);
    FreshIds(s);
    NewFatherKeepsFamilies(s.blocks, s.next, b);
    NewFatherKeepsJumps(s.jump, s.blocks, s.next, b);
    GrowKeepsIndexed(s.lists, NewSlot(s, a, b).lists, s.blocks);
    NewEmptyIndexed(NewSlot(s, a, b).lists, s.blocks, s.next, b);
  }

  lemma NewEmptyIndexed(ls: Lists, bs: Blocks, id: Id, b: Block)
    requires Indexed(ls, bs) && !Father(b)
    ensures Indexed(ls, bs[id := b])
  {}

  // ---- the compile

  lemma BeginKeeps(s: State, a: nat, how: Entry)
    requires Inv(s)
    ensures Inv(Begin(s, a, how))
  {
    hide *;
    if s.compile != Idle || a >= |s.mem| || !CanCreate(s, a) {
      assert Begin(s, a, how) == s by { BeginIdle(s, a, how); }
    } else if how.HotPage? {
      BeginHot(s, a);
    } else if how.NoDynarec? {
      BeginNoDynarec(s, a);
    } else {
      BeginUsual(s, a);
    }
  }

  lemma BeginIdle(s: State, a: nat, how: Entry)
    requires s.compile != Idle || a >= |s.mem| || !CanCreate(s, a)
    ensures Begin(s, a, how) == s
  {}

  lemma BeginHot(s: State, a: nat)
    requires Inv(s) && s.compile == Idle && a < |s.mem| && CanCreate(s, a)
    ensures Inv(Begin(s, a, HotPage))
  {
    hide SlotsOk, FamiliesOk, JumpsOk, AllExact, Indexed, Coherent, Exclusive, CompileOk;
    var t := Begin(s, a, HotPage);
    assert ListsGrow(s.lists, t.lists);
    GrowKeepsIndexed(s.lists, t.lists, s.blocks);
    GrowKeepsSlots(|s.mem|, s.lists, t.lists, s.blocks, s.direct, s.next);
  }

  lemma BeginNoDynarec(s: State, a: nat)
    requires Inv(s) && s.compile == Idle && a < |s.mem| && CanCreate(s, a)
    ensures Inv(Begin(s, a, NoDynarec))
  {
    hide Inv;
    NewEmptyKeeps(s, a, NEW_BLOCK.(start := a, done := true));
  }

  lemma BeginUsual(s: State, a: nat)
    requires Inv(s) && s.compile == Idle && a < |s.mem| && CanCreate(s, a)
    ensures Inv(Begin(s, a, Usual))
  {
    hide SlotsOk, FamiliesOk, JumpsOk, AllExact, Indexed, Coherent, Exclusive, Bounded, Known, Closed, Protect;
    NewEmptyKeeps(s, a, NEW_BLOCK.(start := a));
    var t := NewSlot(s, a, NEW_BLOCK.(start := a));
    ProtectCloses(t.prot, a, a + 1);
    ProtectKeepsCoherent(t.mem, t.prot, t.blocks, a, a + 1);
  }

  lemma AbandonKeeps(s: State)
    requires Inv(s) && s.compile != Idle
    ensures Inv(Abandon(s))
  {
    hide Indexed, Bounded, Exclusive, X31.Hash, Closed, FamiliesOk, SlotsOk, JumpsOk, FoundEverywhere;
    AbandonKeepsSlots(s);
    AbandonKeepsFamilies(s.blocks, s.compile.id);
    AbandonKeepsJumps(s);
    assert Indexed(s.lists, Abandon(s).blocks) by { AbandonKeepsIndexed(s); }
  }

  lemma AbandonKeepsSlots(s: State)
    requires Shape(s) && s.compile != Idle
    ensures var t := Abandon(s); SlotsOk(|t.mem|, t.lists, t.blocks, t.direct, t.next)
  {
    var t := Abandon(s);
    assert InSlot(s.blocks[s.compile.id], s.compile.id, s.direct, s.next, |s.mem|);
    forall id | id in t.blocks ensures InSlot(t.blocks[id], id, t.direct, t.next, |t.mem|) {
      assert InSlot(s.blocks[id], id, s.direct, s.next, |s.mem|);
    }
  }

  lemma AbandonKeepsFamilies(bs: Blocks, id: Id)
    requires FamiliesOk(bs) && id in bs && bs[id].father.None? && bs[id].sons == []
    ensures FamiliesOk(bs - {id})
  {
    var cs := bs - {id};
    forall k | k in cs && cs[k].father.Some?
      ensures cs[k].father.value in cs && SonOf(cs[k], cs[cs[k].father.value])
    {
      assert SonOf(bs[k], bs[bs[k].father.value]);
    }
  }

  lemma AbandonKeepsJumps(s: State)
    requires Shape(s) && s.compile != Idle && JumpsOk(s.jump, s.blocks)
    ensures JumpsOk(s.jump, Abandon(s).blocks)
  {
    hide SlotsOk, FamiliesOk;
    var t := Abandon(s);
    forall a | a in s.jump ensures s.jump[a] in t.blocks && Clean(t.blocks[Root(t.blocks, s.jump[a])]) {
      assert Clean(s.blocks[Root(s.blocks, s.jump[a])]);
    }
  }

  lemma AbandonKeepsIndexed(s: State)
    requires Shape(s) && s.compile != Idle && Indexed(s.lists, s.blocks)
    ensures Indexed(s.lists, Abandon(s).blocks)
  {
    hide FoundEverywhere;
  }

  lemma PlaceKeeps(s: State, end: nat)
    requires Inv(s) && s.compile.Pass0? && end <= |s.mem|
    ensures Inv(Place(s, end))
  {
    var a := s.blocks[s.compile.id].start;
    if end > a && !IsProtected(s.prot, a, a + 1) {
      hide *;
      AbandonKeeps(s);
      PlaceAbandons(s, end);
    } else {
      PlaceMoves(s, end);
    }
  }

  lemma PlaceMoves(s: State, end: nat)
    requires Inv(s) && s.compile.Pass0? && end <= |s.mem|
    requires var a := s.blocks[s.compile.id].start; end <= a || IsProtected(s.prot, a, a + 1)
    ensures Inv(Place(s, end))
  {
    hide SlotsOk, FamiliesOk, JumpsOk, AllExact, Indexed, Coherent, Exclusive, Bounded, Closed, Protect, IsProtected;
    var a := s.blocks[s.compile.id].start;
    if end > a && PageOf(a) != PageOf(end) {
      ProtectCloses(s.prot, a, end);
      ProtectKeepsCoherent(s.mem, s.prot, s.blocks, a, end);
    }
  }

  lemma PlaceAbandons(s: State, end: nat)
    requires Shape(s) && s.compile.Pass0? && s.blocks[s.compile.id].start < end <= |s.mem|
    requires !IsProtected(s.prot, s.blocks[s.compile.id].start, s.blocks[s.compile.id].start + 1)
    ensures Place(s, end) == Abandon(s)
  {}

  lemma TakeHashKeeps(s: State)
    requires Inv(s) && s.compile.Placed?
    ensures Inv(TakeHash(s))
  {
    hide SlotsOk, FamiliesOk, JumpsOk, AllExact, Indexed, Coherent, Exclusive, Bounded, Closed, Known;
  }
}
