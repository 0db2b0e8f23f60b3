/** The translation cache as the program updates it: each method carries out, in place, one of the
    functions of `DynaState`. */
module Dynarec {
  import opened Common
  import opened DynaState
  import opened DynaInv
  import opened DynaInstall
  import opened DynaLaws
  import DynaRuns
  import X31

  // ---- how marking composes

  lemma MarkTwice(s: State, d: set<Id>, e: set<Id>)
    ensures Mark(Mark(s, d), e) == Mark(s, d + e)
  {
    var t, u, w := Mark(s, d), Mark(Mark(s, d), e), Mark(s, d + e);
    assert u.blocks == w.blocks;
    forall a | a in s.jump ensures Dropped(s, d, a) || Dropped(t, e, a) <==> Dropped(s, d + e, a) {
      MarkEntries(s, d);
    }
    assert u.jump == w.jump;
  }

  lemma MarkEntries(s: State, d: set<Id>)
    ensures forall id :: id in s.blocks ==> Entries(Mark(s, d).blocks, id) == Entries(s.blocks, id)
  {
    var t := Mark(s, d);
    forall id | id in s.blocks ensures Entries(t.blocks, id) == Entries(s.blocks, id) {
      assert t.blocks[id].sons == s.blocks[id].sons;
      assert forall k :: k in s.blocks ==> t.blocks[k].start == s.blocks[k].start;
    }
  }

  lemma MarkNothing(s: State)
    ensures Mark(s, {}) == s
  {
    assert Mark(s, {}).blocks == s.blocks;
    assert Mark(s, {}).jump == s.jump;
  }

  /** Marking moves no block. */
  lemma MarkHits(s: State, d: set<Id>, c: nat, a: nat, lo: nat, size: nat)
    ensures Hit(Mark(s, d), c, a, lo, size) <==> Hit(s, c, a, lo, size)
    ensures Hit(s, c, a, lo, size) ==> Root(Mark(s, d).blocks, s.direct[a]) == Root(s.blocks, s.direct[a])
  {}

  /** The blocks reached through the slots of `[from, to)`. */
  function SlotHits(s: State, c: nat, from: nat, to: nat, lo: nat, size: nat): set<Id> {
    set a | a in s.direct && from <= a < to && Hit(s, c, a, lo, size) :: Root(s.blocks, s.direct[a])
  }

  /** The blocks reached in the chunks of `[from, to)`. */
  function ChunkHits(s: State, from: nat, to: nat, lo: nat, size: nat): set<Id> {
    set a | a in s.direct && from <= ChunkOf(a) < to && Hit(s, ChunkOf(a), a, lo, size) :: Root(s.blocks, s.direct[a])
  }

  lemma SlotHitsStep(s: State, c: nat, from: nat, a: nat, lo: nat, size: nat)
    requires from <= a
    ensures SlotHits(s, c, from, a + 1, lo, size) ==
      SlotHits(s, c, from, a, lo, size) + if Hit(s, c, a, lo, size) then {Root(s.blocks, s.direct[a])} else {}
  {
    var h := SlotHits(s, c, from, a + 1, lo, size);
    var g := SlotHits(s, c, from, a, lo, size) + if Hit(s, c, a, lo, size) then {Root(s.blocks, s.direct[a])} else {};
    forall id ensures id in h <==> id in g {}
  }

  lemma SlotHitsOfChunk(s: State, c: nat, lo: nat, size: nat)
    ensures SlotHits(s, c, c * CHUNK, c * CHUNK + CHUNK, lo, size) == ChunkHits(s, c, c + 1, lo, size)
  {
    var h, g := SlotHits(s, c, c * CHUNK, c * CHUNK + CHUNK, lo, size), ChunkHits(s, c, c + 1, lo, size);
    forall a | a in s.direct ensures c * CHUNK <= a < c * CHUNK + CHUNK <==> ChunkOf(a) == c {}
    forall id ensures id in h <==> id in g {
      if a :| a in s.direct && c * CHUNK <= a < c * CHUNK + CHUNK && Hit(s, c, a, lo, size) && id == Root(s.blocks, s.direct[a]) {
        assert ChunkOf(a) == c;
      }
    }
  }

  lemma ChunkHitsStep(s: State, from: nat, k: nat, lo: nat, size: nat)
    requires from <= k
    ensures ChunkHits(s, from, k + 1, lo, size) == ChunkHits(s, from, k, lo, size) + ChunkHits(s, k, k + 1, lo, size)
  {
    var h, g := ChunkHits(s, from, k + 1, lo, size), ChunkHits(s, from, k, lo, size) + ChunkHits(s, k, k + 1, lo, size);
    forall id ensures id in h <==> id in g {}
  }

  lemma ChunkHitsEmpty(s: State, from: nat, to: nat, lo: nat, size: nat)
    requires to <= from
    ensures ChunkHits(s, from, to, lo, size) == {}
  {}

  /** A chunk without an array reaches nothing. */
  lemma ChunkHitsNone(s: State, c: nat, lo: nat, size: nat)
    requires c !in s.lists || !s.lists[c].direct
    ensures ChunkHits(s, c, c + 1, lo, size) == {}
  {}

  lemma RangeHitsNone(s: State, c: nat, lo: nat, size: nat)
    requires c !in s.lists || !s.lists[c].direct
    ensures RangeHits(s, c, lo, size) == {}
  {}

  lemma SlotHitsEmpty(s: State, c: nat, from: nat, lo: nat, size: nat)
    ensures SlotHits(s, c, from, from, lo, size) == {}
  {}

  lemma RangeHitsSplit(s: State, c: nat, lo: nat, size: nat)
    requires c in s.lists && s.lists[c].direct
    ensures RangeHits(s, c, lo, size) ==
      ChunkHits(s, c, c + 1, lo, size) + ChunkHits(s, ChunkOf(s.lists[c].minstart), c, lo, size)
  {
    var h := RangeHits(s, c, lo, size);
    var g := ChunkHits(s, c, c + 1, lo, size) + ChunkHits(s, ChunkOf(s.lists[c].minstart), c, lo, size);
    forall id ensures id in h <==> id in g {}
  }

  // ---- partly removed families

  /** `m` without the addresses where `f` and its first `n` sons start. */
  function Without(m: map<nat, Id>, bs: Blocks, f: Id, n: nat): map<nat, Id>
    requires f in bs && n <= |bs[f].sons|
  {
    map a | a in m && a != bs[f].start && !StartsSon(bs, f, n, a) :: m[a]
  }

  predicate StartsSon(bs: Blocks, f: Id, n: nat, a: nat)
    requires f in bs && n <= |bs[f].sons|
  {
    exists i :: 0 <= i < n && bs[f].sons[i] in bs && bs[bs[f].sons[i]].start == a
  }

  lemma StartsSonStep(bs: Blocks, f: Id, n: nat, a: nat)
    requires f in bs && n < |bs[f].sons|
    ensures StartsSon(bs, f, n + 1, a) <==>
      StartsSon(bs, f, n, a) || (bs[f].sons[n] in bs && bs[bs[f].sons[n]].start == a)
  {}

  lemma UnjumpedIsMark(s: State, f: Id)
    requires f in s.blocks && !s.blocks[f].needTest
    ensures s.(blocks := s.blocks[f := s.blocks[f].(needTest := true)],
               jump := Without(s.jump, s.blocks, f, |s.blocks[f].sons|)) == Mark(s, {f})
  {
    var t := Mark(s, {f});
    assert t.blocks == s.blocks[f := s.blocks[f].(needTest := true)];
    forall a | a in s.jump
      ensures a == s.blocks[f].start || StartsSon(s.blocks, f, |s.blocks[f].sons|, a) <==> Dropped(s, {f}, a)
    {
      EntriesAreStarts(s.blocks, f, a);
    }
    assert t.jump == Without(s.jump, s.blocks, f, |s.blocks[f].sons|);
  }

  lemma EntriesAreStarts(bs: Blocks, f: Id, a: nat)
    requires f in bs
    ensures a in Entries(bs, f) <==> a == bs[f].start || StartsSon(bs, f, |bs[f].sons|, a)
  {
    if k :| k in bs[f].sons && k in bs && bs[k].start == a {
      var i :| 0 <= i < |bs[f].sons| && bs[f].sons[i] == k;
    }
  }

  /** The slots and the fathers of blocks are blocks. */
  ghost predicate SlotsLead(s: State) {
    && (forall a :: a in s.direct ==> s.direct[a] in s.blocks)
    && (forall id :: id in s.blocks ==> Root(s.blocks, id) in s.blocks)
  }

  lemma MarkKeepsSlotsLead(s: State, d: set<Id>)
    requires SlotsLead(s)
    ensures SlotsLead(Mark(s, d))
  {
    var t := Mark(s, d);
    forall id | id in t.blocks ensures Root(t.blocks, id) in t.blocks {
      assert Root(s.blocks, id) in s.blocks;
    }
  }

  lemma FaultKeepsSlotsLead(s: State, page: nat)
    requires SlotsLead(s)
    ensures SlotsLead(Fault(s, page)) && |Fault(s, page).prot| == |s.prot|
  {
    MarkKeepsSlotsLead(s, RangeHits(s, ChunkOf(page * PAGE), page * PAGE, PAGE));
  }

  lemma MarkKeepsChunkHits(s: State, d: set<Id>, k: nat, lo: nat, size: nat)
    ensures ChunkHits(Mark(s, d), k, k + 1, lo, size) == ChunkHits(s, k, k + 1, lo, size)
  {
    forall a | a in s.direct { MarkHits(s, d, ChunkOf(a), a, lo, size); }
  }

  lemma {:induction false} FaultsPast(s: State, first: nat, i: nat, n: nat)
    requires i <= n && (i == n || first + i >= |s.prot|)
    ensures Faults(s, first, n) == Faults(s, first, i)
    decreases n
  {
    if i < n { FaultsPast(s, first, i, n - 1); }
  }

  class DynaCache {
    var mem: seq<Byte>
    var prot: seq<bv8>
    var lists: Lists
    var blocks: Blocks
    var direct: map<nat, Id>
    var jump: map<nat, Id>
    var compile: Compile
    var next: Id

    function View(): State
      reads this
    {
      State(mem, prot, lists, blocks, direct, jump, compile, next)
    }

    method SetJumpTableDefault(a: nat)
      modifies this`jump
      ensures jump == old(jump) - {a}
    {
      if a in jump { jump := jump - {a}; }
    }

    method AddJumpTableIfDefault(a: nat, id: Id)
      modifies this`jump
      ensures View() == AddJump(old(View()), a, id)
    {
      if a !in jump { jump := jump[a := id]; }
    }

    method MarkDynablock(db: Id)
      requires db in blocks && Root(blocks, db) in blocks
      modifies this`blocks, this`jump
      ensures View() == Mark(old(View()), {Root(old(blocks), db)})
    {
      hide Mark, Without, StartsSon;
      ghost var s := View();
      var f := if blocks[db].father.Some? then blocks[db].father.value else db;
      if blocks[f].needTest {
        MarkMarked(s, f);
        return;
      }
      blocks := blocks[f := blocks[f].(needTest := true)];
      SetJumpTableDefault(blocks[f].start);
      WithoutNone(s.jump, s.blocks, f);
      var i: nat := 0;
      while i < |blocks[f].sons|
        invariant i <= |s.blocks[f].sons|
        invariant blocks == s.blocks[f := s.blocks[f].(needTest := true)]
        invariant jump == Without(s.jump, s.blocks, f, i)
      {
        var son := blocks[f].sons[i];
        WithoutStep(s.jump, s.blocks, f, i);
        if son in blocks { SetJumpTableDefault(blocks[son].start); }
        i := i + 1;
      }
      UnjumpedIsMark(s, f);
    }

    method FreeDynablock(f: Id)
      requires f in blocks && f !in blocks[f].sons
      modifies this`blocks, this`direct, this`jump
      ensures View() == Free(old(View()), f)
    {
      ghost var s := View();
      var b := blocks[f];
      blocks := blocks - {f};
      direct := direct - {b.start};
      SetJumpTableDefault(b.start);
      var i: nat := 0;
      while i < |b.sons|
        invariant i <= |b.sons|
        invariant blocks == WithoutFamily(s.blocks, f, i)
        invariant direct == Without(s.direct, s.blocks, f, i) && jump == Without(s.jump, s.blocks, f, i)
      {
        var son := b.sons[i];
        WithoutStep(s.jump, s.blocks, f, i);
        WithoutStep(s.direct, s.blocks, f, i);
        WithoutFamilyStep(s.blocks, f, i);
        FreeSon(son, s, f, i);
        i := i + 1;
      }
      WithoutAllIsFree(s, f);
    }

    /** A son goes the way its father does; one already gone is left alone. */
    method FreeSon(son: Id, ghost s: State, ghost f: Id, ghost i: nat)
      requires f in s.blocks && i < |s.blocks[f].sons| && son == s.blocks[f].sons[i] && son != f
      requires blocks == WithoutFamily(s.blocks, f, i)
      requires direct == Without(s.direct, s.blocks, f, i) && jump == Without(s.jump, s.blocks, f, i)
      modifies this`blocks, this`direct, this`jump
      ensures blocks == old(blocks) - {son}
      ensures son in s.blocks ==> direct == old(direct) - {s.blocks[son].start} && jump == old(jump) - {s.blocks[son].start}
      ensures son !in s.blocks ==> direct == old(direct) && jump == old(jump)
    {
      if son in blocks {
        direct := direct - {blocks[son].start};
        SetJumpTableDefault(blocks[son].start);
        blocks := blocks - {son};
      } else if son in s.blocks {
        AlreadyGone(s, f, i, son);
      }
    }

    /** The block in the slot of `a`, or a new one `b` put there when `create` asks for it. */
    method AddNewDynablock(a: nat, b: Block, create: bool) returns (id: Option<Id>, created: bool)
      modifies this`lists, this`blocks, this`direct, this`next
      ensures created == (create && CanCreate(old(View()), a))
      ensures View() == if created then NewSlot(old(View()), a, b) else old(View())
      ensures id == if created then Some(old(next)) else if ChunkOf(a) in lists && a in direct then Some(direct[a]) else None
    {
      var c := ChunkOf(a);
      if c !in lists { return None, false; }
      if a in direct { return Some(direct[a]), false; }
      if !create { return None, false; }
      lists := lists[c := lists[c].(direct := true)];
      blocks := blocks[next := b];
      direct := direct[a := next];
      id, created := Some(next), true;
      next := next + 1;
    }

    /** Creates the sons of `f` at the addresses the translation asked for. */
    method FillSons(f: Id, end: nat, addrs: seq<nat>)
      requires f in blocks && f < next && forall i :: 0 <= i < |addrs| ==> addrs[i] < end
      modifies this`lists, this`blocks, this`direct, this`next
      ensures View() == AddSons(old(View()), f, end, addrs)
    {
      ghost var s := View();
      var i: nat := 0;
      while i < |addrs|
        invariant i <= |addrs| && f in blocks && f < next
        invariant AddSons(View(), f, end, addrs[i..]) == AddSons(s, f, end, addrs)
      {
        ghost var t := View();
        var a := addrs[i];
        var son := NEW_BLOCK.(start := a, size := end - a, father := Some(f), native := true, done := true);
        var id, created := AddNewDynablock(a, son, true);
        if created {
          blocks := blocks[f := blocks[f].(sons := blocks[f].sons + [id.value])];
          assert View() == AddSon(t, f, end, a);
        }
        assert addrs[i..][0] == a && addrs[i..][1..] == addrs[i + 1..];
        i := i + 1;
      }
      assert addrs[i..] == [];
    }

    /** Keeps `minstart` and `maxend` up to date for a block of `size` bytes at `a`. */
    method RecordBlock(a: nat, size: nat)
      requires size > 0
      modifies this`lists
      ensures View() == Record(old(View()), a, size)
    {
      hide Record, PushedBack;
      ghost var s := View();
      var c := ChunkOf(a);
      RecordIsPushed(s, a, size);
      if c !in lists { return; }
      if lists[c].minstart > a { lists := lists[c := lists[c].(minstart := a)]; }
      if lists[c].maxend < a + size {
        lists := lists[c := lists[c].(maxend := a + size)];
        ghost var ls := lists;
        var k: nat := c + 1;
        var last := ChunkOf(a + size - 1);
        PushedBackStart(ls, c, a);
        while k <= last
          invariant c < k && (k <= last + 1 || k == c + 1)
          invariant lists == PushedBack(ls, c, k, a)
          decreases last + 1 - k
        {
          PushedBackStep(ls, c, k, a);
          if k in lists && lists[k].minstart > a { lists := lists[k := lists[k].(minstart := a)]; }
          k := k + 1;
        }
        assert ls == s.lists[c := ls[c]];
      } else {
        assert lists == s.lists[c := lists[c]];
      }
    }

    /** Fills the jump table for `f` and its sons. */
    method FillJumpTable(f: Id)
      requires f in blocks
      modifies this`jump
      ensures View() == AddJumps(AddJump(old(View()), old(blocks)[f].start, f), old(blocks)[f].sons)
    {
      ghost var s := View();
      var sons := blocks[f].sons;
      AddJumpTableIfDefault(blocks[f].start, f);
      ghost var t := View();
      var i: nat := 0;
      while i < |sons|
        invariant i <= |sons|
        invariant AddJumps(View(), sons[i..]) == AddJumps(t, sons)
      {
        assert sons[i..][0] == sons[i] && sons[i..][1..] == sons[i + 1..];
        if sons[i] in blocks { AddJumpTableIfDefault(blocks[sons[i]].start, sons[i]); }
        i := i + 1;
      }
      assert sons[i..] == [];
    }

    /** A lookup that may create, up to the start of pass 0. */
    method StartFill(a: nat, how: Entry)
      requires Shape(View()) && compile == Idle && a < |mem|
      modifies this
      ensures View() == Begin(old(View()), a, how)
    {
      ghost var s := View();
      FreshIds(s);
      hide SlotsOk, FamiliesOk;
      var id, created := AddNewDynablock(a, NEW_BLOCK.(start := a), true);
      if !created { return; }
      if how.HotPage? {
        blocks := blocks - {id.value};
        direct := direct - {a};
        next := id.value;
        ReleaseSlot(s, a);
      } else if how.NoDynarec? {
        blocks := blocks[id.value := blocks[id.value].(done := true)];
      } else {
        ProtectDB(a, a + 1);
        compile := Pass0(id.value);
      }
    }

    method CancelFill()
      requires Shape(View()) && compile != Idle
      modifies this`blocks, this`direct, this`compile
      ensures View() == Abandon(old(View()))
    {
      direct := direct - {blocks[compile.id].start};
      blocks := blocks - {compile.id};
      compile := Idle;
    }

    /** The part of `FillBlock64` between pass 0 and the hash. */
    method PlaceFill(end: nat)
      requires Shape(View()) && compile.Pass0? && end <= |mem|
      modifies this
      ensures View() == Place(old(View()), end)
    {
      var a := blocks[compile.id].start;
      if end <= a {
        compile := Idle;
        return;
      }
      var closed := IsProtectedDB(a, a + 1);
      if !closed {
        CancelFill();
        return;
      }
      if PageOf(a) != PageOf(end) { ProtectDB(a, end); }
      compile := Placed(compile.id, end);
    }

    method HashFill()
      requires Shape(View()) && compile.Placed?
      modifies this`compile
      ensures View() == TakeHash(old(View()))
    {
      var a, end := blocks[compile.id].start, compile.end;
      var h := X31.X31HashCode(mem, a, end - a);
      compile := Hashed(compile.id, end, h, mem[a..end]);
    }

    /** The end of `FillBlock64` and of the lookup that called it. */
    method EndFill(addrs: seq<nat>)
      requires Shape(View()) && compile.Hashed?
      requires forall i :: 0 <= i < |addrs| ==> blocks[compile.id].start <= addrs[i] < compile.end
      modifies this
      ensures View() == Finish(old(View()), addrs)
    {
      hide SlotsOk, FamiliesOk, X31.Hash, IsProtected;
      ghost var s := View();
      var f, end, a := compile.id, compile.end, blocks[compile.id].start;
      var h := X31.X31HashCode(mem, a, end - a);
      var closed := IsProtectedDB(a, end);
      assert Recheck(s) <==> h == compile.hash && closed;
      if h != compile.hash || !closed {
        CancelFill();
        return;
      }
      SlotBelowNext(s, f);
      InstallFill(f, a, end, addrs, s);
    }

    method InstallFill(f: Id, a: nat, end: nat, addrs: seq<nat>, ghost s: State)
      requires View() == s && Shape(s) && compile.Hashed? && Recheck(s)
      requires f == compile.id < next && a == blocks[f].start && end == compile.end
      requires forall i :: 0 <= i < |addrs| ==> a <= addrs[i] < end
      modifies this
      ensures View() == Finish(s, addrs)
    {
      hide SlotsOk, FamiliesOk, Recheck, AddSons, AddJumps, AddJump, Record;
      blocks := blocks[f := blocks[f].(size := end - a, hash := compile.hash, needTest := false,
                                       native := true, src := compile.src)];
      compile := Idle;
      assert View() == Fill(s);
      FillSons(f, end, addrs);
      AddSonsKeepsStart(Fill(s), f, end, addrs);
      RecordBlock(a, end - a);
      FillJumpTable(f);
      blocks := blocks[f := blocks[f].(done := true)];
    }

    /** `DBGetBlock` at an address that has a block. */
    method DBGetBlock(a: nat, busy: bool) returns (r: Option<Id>)
      requires Inv(View()) && (compile == Idle || busy)
      modifies this
      ensures View() == Lookup(old(View()), a, busy)
      ensures r == DynaRuns.Answer(old(View()), a, busy)
      ensures r.Some? ==> a in direct && direct[a] == r.value && r.value in blocks && blocks[r.value].start == a
      ensures r.Some? <==>
        a in old(direct) && (NeedsTest(old(View()), old(direct)[a]) ==> !busy && PassesTest(old(View()), old(direct)[a]))
    {
      AnswerIff(View(), a, busy);
      if DynaRuns.Answer(View(), a, busy).Some? { AnswerStarts(View(), a, busy); }
      ghost var s := View();
      if a !in direct { return None; }
      DynaRuns.AnswerFamily(s, a);
      hide SlotsOk, FamiliesOk, CompileShape, JumpsOk, AllExact, Indexed, Bounded, Coherent, Exclusive, CompileOk, X31.Hash,
        Free, Validate, NeedsTest, PassesTest;
      var db := direct[a];
      var f := if blocks[db].father.Some? then blocks[db].father.value else db;
      if blocks[db].native && blocks[f].done && blocks[f].needTest {
        assert MustTest(s, a);
        if busy { return None; }
        r := TestBlock(db, f);
      } else {
        r := Some(db);
      }
    }

    method TestBlock(db: Id, f: Id) returns (r: Option<Id>)
      requires Shape(View()) && f in blocks && blocks[f].father.None?
      modifies this
      ensures View() == if Unchanged(old(View()), f) then Validate(old(View()), f) else Free(old(View()), f)
      ensures r == if Unchanged(old(View()), f) then Some(db) else None
    {
      hide Shape, SlotsOk, FamiliesOk, CompileShape, X31.Hash, Free, Protect, AddJumps, AddJump;
      ghost var s := View();
      var b := blocks[f];
      HashedRange(s, f);
      NoOwnSon(s, f);
      var h := X31.X31HashCode(mem, b.start, b.size);
      if h != b.hash {
        FreeDynablock(f);
        return None;
      }
      blocks := blocks[f := b.(needTest := false, revalidated := true)];
      ProtectDB(b.start, b.start + b.size);
      FillJumpTable(f);
      return Some(db);
    }

    /** Visits every slot of one chunk. */
    method MarkDirectDynablock(c: nat, lo: nat, size: nat)
      requires SlotsLead(View())
      modifies this`blocks, this`jump
      ensures View() == Mark(old(View()), ChunkHits(old(View()), c, c + 1, lo, size))
    {
      hide Mark, SlotHits, ChunkHits, Hit, SlotsLead;
      ghost var s := View();
      MarkNothing(s);
      SlotHitsEmpty(s, c, c * CHUNK, lo, size);
      if c !in lists || !lists[c].direct {
        ChunkHitsNone(s, c, lo, size);
        return;
      }
      var i: nat := 0;
      while i < CHUNK
        invariant i <= CHUNK
        invariant View() == Mark(s, SlotHits(s, c, c * CHUNK, c * CHUNK + i, lo, size))
        decreases CHUNK - i
      {
        var a := c * CHUNK + i;
        VisitSlot(a, c, lo, size, s, SlotHits(s, c, c * CHUNK, a, lo, size));
        SlotHitsStep(s, c, c * CHUNK, a, lo, size);
        i := i + 1;
      }
      SlotHitsOfChunk(s, c, lo, size);
    }

    method VisitSlot(a: nat, c: nat, lo: nat, size: nat, ghost s: State, ghost d: set<Id>)
      requires SlotsLead(s) && View() == Mark(s, d) && ChunkOf(a) == c && c in lists && lists[c].direct
      modifies this`blocks, this`jump
      ensures View() == Mark(s, d + if Hit(s, c, a, lo, size) then {Root(s.blocks, s.direct[a])} else {})
    {
      MarkHits(s, d, c, a, lo, size);
      assert d + {} == d;
      if a in direct {
        var db := direct[a];
        assert db in s.blocks;
        if Intersects(blocks[db].start, LastByte(blocks[db]), lo, lo + size + 1) {
          MarkTwice(s, d, {Root(s.blocks, db)});
          MarkDynablock(db);
        }
      }
    }

    method MarkRangeDynablock(c: nat, lo: nat, size: nat)
      requires SlotsLead(View())
      modifies this`blocks, this`jump
      ensures View() == Mark(old(View()), RangeHits(old(View()), c, lo, size))
    {
      hide Mark, SlotHits, ChunkHits, Hit, SlotsLead, RangeHits;
      ghost var s := View();
      if c !in lists || !lists[c].direct {
        RangeHitsNone(s, c, lo, size);
        MarkNothing(s);
        return;
      }
      ghost var own := ChunkHits(s, c, c + 1, lo, size);
      MarkDirectDynablock(c, lo, size);
      var first := ChunkOf(lists[c].minstart);
      var k: nat := first;
      ChunkHitsEmpty(s, first, first, lo, size);
      assert own + {} == own;
      while k < c
        invariant first <= k && (k <= c || k == first)
        invariant View() == Mark(s, own + ChunkHits(s, first, k, lo, size))
        decreases c - k
      {
        ghost var d := own + ChunkHits(s, first, k, lo, size);
        MarkKeepsSlotsLead(s, d);
        MarkDirectDynablock(k, lo, size);
        MarkKeepsChunkHits(s, d, k, lo, size);
        MarkTwice(s, d, ChunkHits(s, k, k + 1, lo, size));
        ChunkHitsStep(s, first, k, lo, size);
        assert own + ChunkHits(s, first, k + 1, lo, size) == d + ChunkHits(s, k, k + 1, lo, size);
        k := k + 1;
      }
      if c < first { ChunkHitsEmpty(s, first, c, lo, size); }
      RangeHitsSplit(s, c, lo, size);
    }

    method ProtectDB(a: nat, e: nat)
      modifies this`prot
      ensures prot == Protect(old(prot), a, e)
      ensures forall p :: 0 <= p < |prot| ==>
        if PageOf(a) <= p < PageEnd(e) then ClosedAs(old(prot)[p], prot[p]) else prot[p] == old(prot)[p]
    {
      ghost var was := prot;
      var p := PageOf(a);
      while p < PageEnd(e) && p < |prot|
        invariant |prot| == |was|
        invariant PageOf(a) <= p && (p <= PageEnd(e) || p == PageOf(a))
        invariant forall q :: 0 <= q < |was| ==>
          prot[q] == if PageOf(a) <= q < p then ProtectPage(was[q]) else was[q]
        decreases |prot| - p
      {
        var old_prot := prot[p];
        var q := if old_prot == 0 then PROT_RWX else old_prot;
        if q & PROT_WRITE != 0 {
          prot := prot[p := (q & !PROT_WRITE) | PROT_DYNAREC];
        }
        p := p + 1;
      }
      forall q | 0 <= q < |prot| { ProtectMeans(was, a, e, q); }
    }

    method IsProtectedDB(a: nat, e: nat) returns (yes: bool)
      ensures yes == IsProtected(prot, a, e)
    {
      var p := PageOf(a);
      while p < PageEnd(e) && p < |prot|
        invariant PageOf(a) <= p
        invariant forall q :: PageOf(a) <= q < p && q < |prot| ==> !Writable(prot[q])
        decreases |prot| - p
      {
        if prot[p] & PROT_WRITE != 0 { return false; }
        p := p + 1;
      }
      return true;
    }

    /** Gives one page back to the guest, if it is watched. */
    method GiveBack(page: nat)
      requires SlotsLead(View()) && page < |prot|
      modifies this`blocks, this`jump, this`prot
      ensures View() == Fault(old(View()), page)
    {
      if Watched(prot[page]) {
        MarkRangeDynablock(ChunkOf(page * PAGE), page * PAGE, PAGE);
        prot := prot[page := (prot[page] & !PROT_DYNAREC) | PROT_WRITE];
      }
    }

    /** Gives the pages `[first, first + n)` back to the guest, marking what they meet. */
    method UnprotectDB(first: nat, n: nat)
      requires SlotsLead(View())
      modifies this`blocks, this`jump, this`prot
      ensures View() == Faults(old(View()), first, n)
      ensures forall p :: 0 <= p < |prot| ==>
        if first <= p < first + n then OpenedAs(old(prot)[p], prot[p]) else prot[p] == old(prot)[p]
    {
      hide Fault, SlotsLead, OpenedAs;
      ghost var s := View();
      var i: nat := 0;
      while i < n && first + i < |prot|
        invariant i <= n && View() == Faults(s, first, i) && SlotsLead(View()) && |prot| == |s.prot|
        decreases |prot| - first - i
      {
        FaultKeepsSlotsLead(View(), first + i);
        GiveBack(first + i);
        i := i + 1;
      }
      FaultsPast(s, first, i, n);
      forall p | 0 <= p < |prot| { FaultsMean(s, first, n, p); }
    }
  }

  lemma AlreadyGone(s: State, f: Id, i: nat, son: Id)
    requires f in s.blocks && i <= |s.blocks[f].sons| && son in s.blocks && son in s.blocks[f].sons[..i]
    ensures s.blocks[son].start !in Without(s.direct, s.blocks, f, i)
    ensures s.blocks[son].start !in Without(s.jump, s.blocks, f, i)
  {
    var j :| 0 <= j < i && s.blocks[f].sons[..i][j] == son;
    assert s.blocks[f].sons[j] == son;
  }

  /** The chunks strictly between `c` and `k` have seen a block that starts at `a`. */
  function PushedBack(ls: Lists, c: nat, k: nat, a: nat): Lists {
    map j | j in ls :: if c < j < k && ls[j].minstart > a then ls[j].(minstart := a) else ls[j]
  }

  lemma RecordIsPushed(s: State, a: nat, size: nat)
    requires size > 0
    ensures var c, r := ChunkOf(a), Record(s, a, size);
      if c !in s.lists then r == s
      else
        var l := s.lists[c];
        var l1 := if l.minstart > a then l.(minstart := a) else l;
        r == s.(lists := if l.maxend < a + size
                         then PushedBack(s.lists[c := l1.(maxend := a + size)], c, ChunkOf(a + size - 1) + 1, a)
                         else s.lists[c := l1])
  {
    var c, r := ChunkOf(a), Record(s, a, size);
    if c in s.lists {
      var l := s.lists[c];
      var l1 := if l.minstart > a then l.(minstart := a) else l;
      if l.maxend < a + size {
        assert r.lists == PushedBack(s.lists[c := l1.(maxend := a + size)], c, ChunkOf(a + size - 1) + 1, a);
      } else {
        assert r.lists == s.lists[c := l1];
      }
    }
  }

  lemma PushedBackStart(ls: Lists, c: nat, a: nat)
    ensures PushedBack(ls, c, c + 1, a) == ls
  {}

  lemma PushedBackStep(ls: Lists, c: nat, k: nat, a: nat)
    requires c < k
    ensures k in PushedBack(ls, c, k, a) <==> k in ls
    ensures k in ls ==> PushedBack(ls, c, k, a)[k] == ls[k]
    ensures PushedBack(ls, c, k + 1, a) ==
      if k in ls && ls[k].minstart > a then PushedBack(ls, c, k, a)[k := ls[k].(minstart := a)] else PushedBack(ls, c, k, a)
  {}

  /** Giving the slot back leaves only the array of the chunk. */
  lemma ReleaseSlot(s: State, a: nat)
    requires CanCreate(s, a) && s.next !in s.blocks
    ensures var t := NewSlot(s, a, NEW_BLOCK.(start := a));
      t.blocks - {s.next} == s.blocks && t.direct - {a} == s.direct
  {}

  lemma SlotBelowNext(s: State, f: Id)
    requires Shape(s) && f in s.blocks
    ensures f < s.next
  {
    assert InSlot(s.blocks[f], f, s.direct, s.next, |s.mem|);
  }

  lemma HashedRange(s: State, f: Id)
    requires Shape(s) && f in s.blocks
    ensures s.blocks[f].start + s.blocks[f].size <= |s.mem|
  {
    assert InSlot(s.blocks[f], f, s.direct, s.next, |s.mem|);
  }

  lemma NoOwnSon(s: State, f: Id)
    requires Shape(s) && f in s.blocks && s.blocks[f].father.None?
    ensures f !in s.blocks[f].sons
  {}

  lemma {:induction false} AddSonsKeepsStart(s: State, f: Id, end: nat, addrs: seq<nat>)
    requires f in s.blocks && f < s.next && forall i :: 0 <= i < |addrs| ==> addrs[i] < end
    ensures AddSons(s, f, end, addrs).blocks[f].start == s.blocks[f].start
    decreases |addrs|
  {
    if addrs != [] {
      if CanCreate(s, addrs[0]) {
        AddSonsKeepsStart(AddSon(s, f, end, addrs[0]), f, end, addrs[1..]);
      } else {
        AddSonsKeepsStart(s, f, end, addrs[1..]);
      }
    }
  }

  lemma MarkMarked(s: State, f: Id)
    requires f in s.blocks && s.blocks[f].needTest
    ensures Mark(s, {f}) == s
  {
    assert Mark(s, {f}).blocks == s.blocks;
    assert Mark(s, {f}).jump == s.jump;
  }

  lemma WithoutNone(m: map<nat, Id>, bs: Blocks, f: Id)
    requires f in bs
    ensures Without(m, bs, f, 0) == m - {bs[f].start}
  {}

  lemma WithoutStep(m: map<nat, Id>, bs: Blocks, f: Id, n: nat)
    requires f in bs && n < |bs[f].sons|
    ensures var son := bs[f].sons[n];
      Without(m, bs, f, n + 1) == if son in bs then Without(m, bs, f, n) - {bs[son].start} else Without(m, bs, f, n)
  {
    forall a | a in m { StartsSonStep(bs, f, n, a); }
  }

  /** `bs` without `f` and its first `n` sons. */
  function WithoutFamily(bs: Blocks, f: Id, n: nat): Blocks
    requires f in bs && n <= |bs[f].sons|
  {
    map k | k in bs && k != f && k !in bs[f].sons[..n] :: bs[k]
  }

  lemma WithoutFamilyStep(bs: Blocks, f: Id, n: nat)
    requires f in bs && n < |bs[f].sons|
    ensures WithoutFamily(bs, f, n + 1) == WithoutFamily(bs, f, n) - {bs[f].sons[n]}
  {
    assert bs[f].sons[..n + 1] == bs[f].sons[..n] + [bs[f].sons[n]];
  }

  lemma WithoutAllIsFree(s: State, f: Id)
    requires f in s.blocks
    ensures var n := |s.blocks[f].sons|;
      s.(blocks := WithoutFamily(s.blocks, f, n), direct := Without(s.direct, s.blocks, f, n),
         jump := Without(s.jump, s.blocks, f, n)) == Free(s, f)
  {
    var n, t := |s.blocks[f].sons|, Free(s, f);
    forall a { EntriesAreStarts(s.blocks, f, a); }
    assert s.blocks[f].sons[..n] == s.blocks[f].sons;
    assert t.blocks == WithoutFamily(s.blocks, f, n);
    assert t.direct == Without(s.direct, s.blocks, f, n);
    assert t.jump == Without(s.jump, s.blocks, f, n);
  }
}
