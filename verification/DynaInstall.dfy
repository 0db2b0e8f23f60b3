/** The steps that end a compile, keep a dirty block, or drop it. */
module DynaInstall {
  import opened Common
  import opened DynaState
  import opened DynaInv
  import X31

  // ---- sons

  /** `r` is `s` with some sons of `f` added. */
  ghost predicate Grown(s: State, r: State, f: Id) {
    && f in s.blocks
    && r == s.(lists := r.lists, blocks := r.blocks, direct := r.direct, next := r.next)
    && ListsGrow(s.lists, r.lists) && Bounded(r.lists)
    && GrownBlocks(s.blocks, r.blocks, f)
  }

  ghost predicate GrownBlocks(bs: Blocks, cs: Blocks, f: Id) {
    && f in bs
    && (forall id :: id in bs ==> id in cs && cs[id] == if id == f then bs[f].(sons := cs[f].sons) else bs[id])
    && (forall id :: id in cs && id !in bs ==> cs[id].father == Some(f))
  }

  lemma GrownTrans(s: State, r: State, q: State, f: Id)
    requires Grown(s, r, f) && Grown(r, q, f)
    ensures Grown(s, q, f)
  {
    hide Bounded;
  }

  lemma AddSonFamilies(bs: Blocks, f: Id, id: Id, son: Block)
    requires FamiliesOk(bs) && f in bs && id !in bs && bs[f].father.None?
    requires SonOf(son, bs[f]) && son.father == Some(f)
    ensures FamiliesOk(bs[id := son][f := bs[f].(sons := bs[f].sons + [id])])
  {
    var cs := bs[id := son][f := bs[f].(sons := bs[f].sons + [id])];
    forall k | k in cs && cs[k].father.Some?
      ensures cs[k].father.value in cs && k in cs[cs[k].father.value].sons && SonOf(cs[k], cs[cs[k].father.value])
    {
      if k != id { assert SonOf(bs[k], bs[bs[k].father.value]); }
    }
    forall k, m | k in cs && m in cs[k].sons ensures m in cs && cs[m].father == Some(k) {
      if k == f && m == id {} else { assert m in bs[k].sons; }
    }
  }

  /** The father of a compile under way, filled in but not yet done. */
  ghost predicate Filling(s: State, f: Id, end: nat) {
    && f in s.blocks && Father(s.blocks[f]) && s.blocks[f].start + s.blocks[f].size == end <= |s.mem|
  }

  lemma AddSonGrows(s: State, f: Id, end: nat, a: nat)
    requires Shape(s) && Bounded(s.lists) && Filling(s, f, end) && s.compile == Idle
    requires CanCreate(s, a) && s.blocks[f].start <= a < end
    ensures var r := AddSon(s, f, end, a); Grown(s, r, f) && Shape(r) && Filling(r, f, end)
  {
    hide SlotsOk, FamiliesOk, Bounded, ListsGrow;
    var r := AddSon(s, f, end, a);
    var son := NEW_BLOCK.(start := a, size := end - a, father := Some(f), native := true, done := true);
    FreshIds(s);
    NewSlotLists(s, a, son);
    NewSlotKeepsSlots(s, a, son);
    AddSonFamilies(s.blocks, f, s.next, son);
    SonsKeepSlots(|s.mem|, r.lists, NewSlot(s, a, son).blocks, r.direct, r.next, f, r.blocks[f].sons);
  }

  lemma SonsKeepSlots(size: nat, lists: Lists, bs: Blocks, direct: map<nat, Id>, next: Id, f: Id, sons: seq<Id>)
    requires SlotsOk(size, lists, bs, direct, next) && f in bs
    ensures SlotsOk(size, lists, bs[f := bs[f].(sons := sons)], direct, next)
  {
    var cs := bs[f := bs[f].(sons := sons)];
    forall id | id in cs ensures InSlot(cs[id], id, direct, next, size) {
      assert InSlot(bs[id], id, direct, next, size);
    }
  }

  lemma {:induction false} AddSonsGrow(s: State, f: Id, end: nat, addrs: seq<nat>)
    requires Shape(s) && Bounded(s.lists) && Filling(s, f, end) && s.compile == Idle
    requires forall i :: 0 <= i < |addrs| ==> s.blocks[f].start <= addrs[i] < end
    ensures var r := AddSons(s, f, end, addrs); Grown(s, r, f) && Shape(r) && Filling(r, f, end)
    decreases |addrs|
  {
    hide Shape, Bounded, ListsGrow, AddSon, CanCreate;
    if addrs == [] {
      GrownSelf(s, f);
    } else if CanCreate(s, addrs[0]) {
      var t := AddSon(s, f, end, addrs[0]);
      AddSonGrows(s, f, end, addrs[0]);
      AddSonsGrow(t, f, end, addrs[1..]);
      GrownTrans(s, t, AddSons(t, f, end, addrs[1..]), f);
    } else {
      AddSonsGrow(s, f, end, addrs[1..]);
    }
  }

  lemma GrownSelf(s: State, f: Id)
    requires f in s.blocks && Bounded(s.lists)
    ensures Grown(s, s, f)
  {
    assert s == s.(lists := s.lists, blocks := s.blocks, direct := s.direct, next := s.next);
  }

  lemma GrownKeepsJumps(jump: map<nat, Id>, bs: Blocks, cs: Blocks, f: Id)
    requires JumpsOk(jump, bs) && GrownBlocks(bs, cs, f)
    ensures JumpsOk(jump, cs)
  {
    forall a | a in jump ensures Root(cs, jump[a]) in cs && Clean(cs[Root(cs, jump[a])]) {
      assert Clean(bs[Root(bs, jump[a])]);
    }
  }

  lemma GrownKeepsCoherent(mem: seq<Byte>, prot: seq<bv8>, bs: Blocks, cs: Blocks, f: Id)
    requires Coherent(mem, prot, bs) && AllExact(mem, bs) && GrownBlocks(bs, cs, f)
    ensures Coherent(mem, prot, cs) && AllExact(mem, cs)
  {
    hide Closed, X31.Hash;
    forall id | id in cs && Father(cs[id]) ensures Exact(mem, cs[id]) && (Clean(cs[id]) ==> Fresh(mem, prot, cs[id])) {
      assert Exact(mem, bs[id]);
      assert Clean(bs[id]) ==> Fresh(mem, prot, bs[id]);
    }
  }

  // ---- bounds

  /** Every chunk that `[a, a + size)` enters has a list with an array: what the code relies on and does not check. */
  ghost predicate Ready(lists: Lists, a: nat, size: nat) {
    forall c :: size > 0 && ChunkOf(a) <= c <= ChunkOf(a + size - 1) ==> c in lists && lists[c].direct
  }

  lemma RecordGrows(s: State, a: nat, size: nat)
    requires size > 0
    ensures ListsGrow(s.lists, Record(s, a, size).lists)
  {}

  /** What is recorded for one chunk: that of the block reaches as far as the block does, and it and, when
      that is news, the ones the block runs into look back as far as its start. */
  lemma RecordAt(s: State, a: nat, size: nat, k: nat)
    requires size > 0
    ensures var c, ms := ChunkOf(a), Record(s, a, size).lists;
      && (k in ms <==> k in s.lists)
      && (k in ms ==>
            && ms[k].direct == s.lists[k].direct
            && (c in s.lists && s.lists[c].maxend < a + size && c <= k <= ChunkOf(a + size - 1) ==> ms[k].minstart <= a)
            && (ms[k].minstart == s.lists[k].minstart || (ms[k].minstart == a < s.lists[k].minstart && c <= k <= ChunkOf(a + size - 1)))
            && (if k == c && s.lists[c].maxend < a + size then ms[k].maxend == a + size
                else ms[k].maxend == s.lists[k].maxend))
  {
    ChunkGrows(a, a + size - 1);
    hide ChunkOf;
  }

  lemma RecordBounds(s: State, a: nat, size: nat)
    requires size > 0 && Bounded(s.lists) && Ready(s.lists, a, size)
    ensures Bounded(Record(s, a, size).lists)
  {
    hide Record, ChunkOf;
    var ls, ms := s.lists, Record(s, a, size).lists;
    forall c, k | c in ms && c < k && k * CHUNK < ms[c].maxend
      ensures k in ms && ChunkOf(ms[k].minstart) <= c
    {
      RecordAt(s, a, size, c);
      RecordAt(s, a, size, k);
      if c == ChunkOf(a) && ls[c].maxend < a + size {
        ChunkIs(k * CHUNK, k, 0);
        ChunkGrows(k * CHUNK, a + size - 1);
        ChunkGrows(ms[k].minstart, a);
      } else {
        ChunkGrows(ms[k].minstart, ls[k].minstart);
      }
    }
  }

  /** After the bounds are recorded, any later chunk of the block that has a list points back far enough. */
  lemma RecordIndexes(s: State, a: nat, size: nat, k: nat)
    requires size > 0 && Bounded(s.lists) && ChunkOf(a) in s.lists
    requires ChunkOf(a) < k <= ChunkOf(a + size - 1) && k in s.lists
    ensures ChunkOf(Record(s, a, size).lists[k].minstart) <= ChunkOf(a)
  {
    var c := ChunkOf(a);
    if s.lists[c].maxend >= a + size {
      assert k * CHUNK < s.lists[c].maxend;
    }
  }

  // ---- jump table

  lemma {:induction false} AddJumpsEntries(s: State, ids: seq<Id>, a: nat)
    requires a in AddJumps(s, ids).jump
    ensures var r := AddJumps(s, ids);
      || (a in s.jump && r.jump[a] == s.jump[a])
      || (r.jump[a] in ids && r.jump[a] in s.blocks && s.blocks[r.jump[a]].start == a)
    decreases |ids|
  {
    if ids != [] {
      if ids[0] in s.blocks {
        AddJumpsEntries(AddJump(s, s.blocks[ids[0]].start, ids[0]), ids[1..], a);
      } else {
        AddJumpsEntries(s, ids[1..], a);
      }
    }
  }

  /** Adding the entries of a clean family keeps the jump table right. */
  lemma FamilyJumps(s: State, f: Id)
    requires f in s.blocks && FamiliesOk(s.blocks) && JumpsOk(s.jump, s.blocks) && Clean(s.blocks[f])
    ensures JumpsOk(AddJumps(AddJump(s, s.blocks[f].start, f), s.blocks[f].sons).jump, s.blocks)
  {
    var t := AddJump(s, s.blocks[f].start, f);
    var r := AddJumps(t, s.blocks[f].sons);
    forall a | a in r.jump
      ensures r.jump[a] in s.blocks && s.blocks[r.jump[a]].start == a && s.blocks[r.jump[a]].native && s.blocks[r.jump[a]].done
      ensures Root(s.blocks, r.jump[a]) in s.blocks && Clean(s.blocks[Root(s.blocks, r.jump[a])])
    {
      AddJumpsEntries(t, s.blocks[f].sons, a);
      if a in t.jump && r.jump[a] == t.jump[a] {
      } else {
        var k := r.jump[a];
        assert s.blocks[k].father == Some(f);
        assert SonOf(s.blocks[k], s.blocks[f]);
      }
    }
  }

  // ---- the end of a compile

  lemma FillKeepsShape(s: State)
    requires Shape(s) && s.compile.Hashed?
    ensures Shape(Fill(s)) && Filling(Fill(s), s.compile.id, s.compile.end)
  {
    var t, id := Fill(s), s.compile.id;
    forall k | k in t.blocks ensures InSlot(t.blocks[k], k, t.direct, t.next, |t.mem|) {
      assert InSlot(s.blocks[k], k, s.direct, s.next, |s.mem|);
    }
    FillKeepsFamilies(s.blocks, id, t.blocks[id]);
  }

  lemma FillKeepsFamilies(bs: Blocks, id: Id, b: Block)
    requires FamiliesOk(bs) && id in bs && bs[id].father.None? && bs[id].sons == []
    requires b.father.None? && b.sons == []
    ensures FamiliesOk(bs[id := b])
  {
    var cs := bs[id := b];
    forall k | k in cs && cs[k].father.Some? ensures SonOf(cs[k], cs[cs[k].father.value]) {
      assert SonOf(bs[k], bs[bs[k].father.value]);
    }
  }

  /** The recheck passes only if no page was given back since the hash: then the code matches the bytes exactly. */
  lemma RecheckExact(s: State)
    requires Inv(s) && s.compile.Hashed? && Recheck(s)
    ensures var b := Fill(s).blocks[s.compile.id];
      Exact(s.mem, b) && Fresh(s.mem, s.prot, b) && Bytes(s.mem, b) == b.src
  {
    hide SlotsOk, FamiliesOk, JumpsOk, Indexed, Bounded, Coherent, AllExact, X31.Hash;
  }

  lemma FillKeepsRecords(s: State)
    requires Inv(s) && s.compile.Hashed? && Recheck(s)
    ensures var t := Fill(s); Coherent(t.mem, t.prot, t.blocks) && AllExact(t.mem, t.blocks) && JumpsOk(t.jump, t.blocks)
  {
    hide SlotsOk, FamiliesOk, Indexed, Bounded, X31.Hash, Closed, Exact, Recheck, CompileOk, JumpsOk, Fresh;
    RecheckExact(s);
    FillKeepsJumps(s.jump, s.blocks, s.compile.id, Fill(s).blocks[s.compile.id]);
  }

  lemma FillKeepsJumps(jump: map<nat, Id>, bs: Blocks, id: Id, b: Block)
    requires JumpsOk(jump, bs) && id in bs && !bs[id].done && b.father == bs[id].father
    ensures JumpsOk(jump, bs[id := b])
  {
    var cs := bs[id := b];
    forall a | a in jump ensures Root(cs, jump[a]) in cs && Clean(cs[Root(cs, jump[a])]) {
      assert Clean(bs[Root(bs, jump[a])]);
    }
  }

  lemma SetDoneKeeps(s: State, f: Id)
    requires f in s.blocks && s.blocks[f].father.None? && Shape(s) && s.compile == Idle
    requires Coherent(s.mem, s.prot, s.blocks) && AllExact(s.mem, s.blocks)
    requires Fresh(s.mem, s.prot, s.blocks[f]) && Bytes(s.mem, s.blocks[f]) == s.blocks[f].src && Father(s.blocks[f])
    ensures var r := SetDone(s, f); Shape(r) && Coherent(r.mem, r.prot, r.blocks) && AllExact(r.mem, r.blocks)
  {
    hide X31.Hash, Closed, SlotsOk, FamiliesOk;
    var r := SetDone(s, f);
    DoneKeepsFamilies(s.blocks, f);
    DoneKeepsSlots(s, f);
    forall id | id in r.blocks && Father(r.blocks[id]) ensures Exact(r.mem, r.blocks[id]) {
      assert Exact(s.mem, s.blocks[id]);
    }
  }

  lemma DoneKeepsSlots(s: State, f: Id)
    requires f in s.blocks && SlotsOk(|s.mem|, s.lists, s.blocks, s.direct, s.next)
    ensures SlotsOk(|s.mem|, s.lists, SetDone(s, f).blocks, s.direct, s.next)
  {
    var r := SetDone(s, f);
    forall id | id in r.blocks ensures InSlot(r.blocks[id], id, s.direct, s.next, |s.mem|) {
      assert InSlot(s.blocks[id], id, s.direct, s.next, |s.mem|);
    }
  }

  lemma DoneKeepsFamilies(bs: Blocks, f: Id)
    requires f in bs && FamiliesOk(bs)
    ensures FamiliesOk(bs[f := bs[f].(done := true)])
  {
    var cs := bs[f := bs[f].(done := true)];
    forall k | k in cs && cs[k].father.Some?
      ensures cs[k].father.value in cs && k in cs[cs[k].father.value].sons && SonOf(cs[k], cs[cs[k].father.value])
    {
      assert SonOf(bs[k], bs[bs[k].father.value]);
    }
  }

  lemma DoneKeepsJumps(jump: map<nat, Id>, bs: Blocks, f: Id)
    requires JumpsOk(jump, bs) && f in bs
    ensures JumpsOk(jump, bs[f := bs[f].(done := true)])
  {
    var cs := bs[f := bs[f].(done := true)];
    forall a | a in jump ensures Root(cs, jump[a]) in cs && Clean(cs[Root(cs, jump[a])]) {
      assert Clean(bs[Root(bs, jump[a])]);
    }
  }

  /** The compile of block `f`, which covers `[a, end)`, has come to its recheck. */
  ghost predicate Compiling(s: State, f: Id, a: nat, end: nat, addrs: seq<nat>) {
    && Inv(s) && Shape(s) && s.compile.Hashed? && f == s.compile.id && f in s.blocks
    && a == s.blocks[f].start < end == s.compile.end <= |s.mem|
    && forall i :: 0 <= i < |addrs| ==> a <= addrs[i] < end
  }

  /** The state just before the jump table is filled, with `done` already counted as set. */
  function Installed(s: State, f: Id, a: nat, end: nat, addrs: seq<nat>): (t: State)
    requires Compiling(s, f, a, end, addrs)
    ensures f in t.blocks
  {
    SetDone(Record(AddSons(Fill(s), f, end, addrs), a, end - a), f)
  }

  lemma {:induction false} AddJumpsDone(s: State, ids: seq<Id>, f: Id)
    requires f in s.blocks
    ensures SetDone(AddJumps(s, ids), f) == AddJumps(SetDone(s, f), ids)
    decreases |ids|
  {
    if ids != [] {
      if ids[0] in s.blocks {
        AddJumpsDone(AddJump(s, s.blocks[ids[0]].start, ids[0]), ids[1..], f);
      } else {
        AddJumpsDone(s, ids[1..], f);
      }
    }
  }

  /** Setting `done` last or before the jump table makes no difference to a step that is not interrupted. */
  lemma FinishUnfolds(s: State, f: Id, a: nat, end: nat, addrs: seq<nat>)
    requires Compiling(s, f, a, end, addrs) && Recheck(s)
    ensures var t := Installed(s, f, a, end, addrs);
      Finish(s, addrs) == AddJumps(AddJump(t, a, f), t.blocks[f].sons)
  {
    hide Inv, Recheck, SlotsOk, FamiliesOk;
    var t := Record(AddSons(Fill(s), f, end, addrs), a, end - a);
    AddJumpsDone(AddJump(t, a, f), t.blocks[f].sons, f);
    DoneJump(t, a, f);
  }

  lemma DoneJump(t: State, a: nat, id: Id)
    requires id in t.blocks
    ensures SetDone(AddJump(t, a, id), id) == AddJump(SetDone(t, id), a, id)
    ensures SetDone(t, id).blocks[id].sons == t.blocks[id].sons
  {}

  ghost predicate Sound(s: State) {
    && Shape(s) && s.compile == Idle && Coherent(s.mem, s.prot, s.blocks) && AllExact(s.mem, s.blocks)
    && JumpsOk(s.jump, s.blocks)
  }

  /** The block under compilation has its bytes right and is not done. */
  ghost predicate Pending(s: State, f: Id, a: nat, end: nat) {
    && f in s.blocks && Father(s.blocks[f]) && !s.blocks[f].needTest && !s.blocks[f].revalidated
    && s.blocks[f].start == a < end == a + s.blocks[f].size <= |s.mem|
    && Fresh(s.mem, s.prot, s.blocks[f]) && Bytes(s.mem, s.blocks[f]) == s.blocks[f].src
  }

  lemma FillPends(s: State, f: Id, a: nat, end: nat, addrs: seq<nat>)
    requires Compiling(s, f, a, end, addrs) && Recheck(s)
    ensures Shape(s) && s.compile.Hashed?
    ensures var t := Fill(s);
      f in t.blocks && Sound(t) && Pending(t, f, a, end) && t.mem == s.mem && t.prot == s.prot && Bounded(t.lists)
    ensures a < end && forall i :: 0 <= i < |addrs| ==> a <= addrs[i] < end
  {
    FillKeepsShape(s);
    FillKeepsRecords(s);
    RecheckExact(s);
    hide Coherent, AllExact, JumpsOk, SlotsOk, FamiliesOk, Indexed, Bounded, Closed, X31.Hash, Exact, Recheck, Exclusive, Fresh;
  }

  lemma SonsPend(s: State, f: Id, a: nat, end: nat, addrs: seq<nat>)
    requires Sound(s) && Pending(s, f, a, end) && Bounded(s.lists)
    requires forall i :: 0 <= i < |addrs| ==> a <= addrs[i] < end
    ensures var t := AddSons(s, f, end, addrs);
      Sound(t) && Pending(t, f, a, end) && Grown(s, t, f) && Bounded(t.lists)
      && t.mem == s.mem && t.prot == s.prot
  {
    hide Coherent, AllExact, JumpsOk, SlotsOk, FamiliesOk, Indexed, Bounded, Closed, X31.Hash, Exact, CompileShape, ListsGrow;
    AddSonsGrow(s, f, end, addrs);
    var t := AddSons(s, f, end, addrs);
    GrownKeepsJumps(s.jump, s.blocks, t.blocks, f);
    GrownKeepsCoherent(s.mem, s.prot, s.blocks, t.blocks, f);
  }

  lemma RecordPends(s: State, f: Id, a: nat, end: nat)
    requires Sound(s) && Pending(s, f, a, end)
    ensures var t := SetDone(Record(s, a, end - a), f);
      Sound(t) && Clean(t.blocks[f]) && t.blocks[f].start == a && t.blocks[f].size == end - a
      && t.mem == s.mem && t.prot == s.prot
  {
    hide Coherent, AllExact, JumpsOk, SlotsOk, FamiliesOk, Indexed, Bounded, Closed, X31.Hash, Exact, ListsGrow;
    var t := Record(s, a, end - a);
    RecordGrows(s, a, end - a);
    GrowKeepsSlots(|s.mem|, s.lists, t.lists, s.blocks, s.direct, s.next);
    SetDoneKeeps(t, f);
    DoneKeepsJumps(t.jump, t.blocks, f);
  }

  lemma InstalledKeeps(s: State, f: Id, a: nat, end: nat, addrs: seq<nat>)
    requires Compiling(s, f, a, end, addrs) && Recheck(s)
    ensures var t := Installed(s, f, a, end, addrs);
      && Sound(t) && t.mem == s.mem && t.prot == s.prot
      && Clean(t.blocks[f]) && t.blocks[f].start == a && t.blocks[f].size == end - a
  {
    hide Compiling, Inv, Shape, Pending, Sound, Recheck, Fill, AddSons, Record, SetDone, Grown, Clean;
    FillPends(s, f, a, end, addrs);
    SonsPend(Fill(s), f, a, end, addrs);
    RecordPends(AddSons(Fill(s), f, end, addrs), f, a, end);
  }

  /** The lists once the sons of the block under compilation have their slots. */
  function ListsAtInstall(s: State, f: Id, a: nat, end: nat, addrs: seq<nat>): Lists
    requires Compiling(s, f, a, end, addrs)
  {
    AddSons(Fill(s), f, end, addrs).lists
  }

  predicate HasArray(ls: Lists, c: nat) { c in ls && ls[c].direct }

  /** Chunk `c` has a list with an array, or a list that gets one from a son among `addrs`. */
  predicate GetsArray(ls: Lists, addrs: seq<nat>, c: nat) {
    c in ls && (ls[c].direct || exists i :: 0 <= i < |addrs| && ChunkOf(addrs[i]) == c)
  }

  /** Every chunk that the block enters has an array by the end of the install. */
  ghost predicate WillBeReady(ls: Lists, addrs: seq<nat>, a: nat, size: nat) {
    forall c :: size > 0 && ChunkOf(a) <= c <= ChunkOf(a + size - 1) ==> GetsArray(ls, addrs, c)
  }

  ghost predicate SlotsHaveArrays(s: State) {
    forall a :: a in s.direct ==> HasArray(s.lists, ChunkOf(a))
  }

  lemma {:induction false} AddSonsArrays(s: State, f: Id, end: nat, addrs: seq<nat>, c: nat)
    requires f in s.blocks && SlotsHaveArrays(s) && forall i :: 0 <= i < |addrs| ==> addrs[i] < end
    ensures HasArray(AddSons(s, f, end, addrs).lists, c) <==> GetsArray(s.lists, addrs, c)
    decreases |addrs|
  {
    hide ChunkOf;
    if addrs != [] {
      var t := if CanCreate(s, addrs[0]) then AddSon(s, f, end, addrs[0]) else s;
      AddSonsArrays(t, f, end, addrs[1..], c);
      assert forall i :: 0 < i < |addrs| ==> addrs[i] == addrs[1..][i - 1];
      GetsFirst(s.lists, t.lists, addrs, c);
    }
  }

  /** The first son has given its chunk an array, if that has a list. */
  lemma GetsFirst(ls: Lists, ms: Lists, addrs: seq<nat>, c: nat)
    requires addrs != [] && ms.Keys == ls.Keys
    requires forall k :: k in ls ==> (ms[k].direct <==> ls[k].direct || k == ChunkOf(addrs[0]))
    ensures GetsArray(ms, addrs[1..], c) <==> GetsArray(ls, addrs, c)
  {
    hide ChunkOf;
    if i :| 0 <= i < |addrs[1..]| && ChunkOf(addrs[1..][i]) == c { assert ChunkOf(addrs[i + 1]) == c; }
    if i :| 0 < i < |addrs| && ChunkOf(addrs[i]) == c { assert ChunkOf(addrs[1..][i - 1]) == c; }
  }

  /** Which chunks have arrays after an install, in terms of the state before. */
  lemma InstallArrays(s: State, f: Id, a: nat, end: nat, addrs: seq<nat>, c: nat)
    requires Compiling(s, f, a, end, addrs)
    ensures HasArray(ListsAtInstall(s, f, a, end, addrs), c) <==> GetsArray(s.lists, addrs, c)
  {
    hide AddSons, GetsArray, ChunkOf, FamiliesOk;
    AddSonsArrays(Fill(s), f, end, addrs, c);
  }

  lemma ReadyAtInstall(s: State, f: Id, a: nat, end: nat, addrs: seq<nat>)
    requires Compiling(s, f, a, end, addrs)
    ensures WillBeReady(s.lists, addrs, a, end - a) <==> Ready(ListsAtInstall(s, f, a, end, addrs), a, end - a)
  {
    hide Inv, ListsAtInstall, GetsArray, ChunkOf;
    var ls := ListsAtInstall(s, f, a, end, addrs);
    forall c: nat ensures HasArray(ls, c) <==> GetsArray(s.lists, addrs, c) { InstallArrays(s, f, a, end, addrs, c); }
    forall c | end > a && ChunkOf(a) <= c <= ChunkOf(end - 1)
      ensures WillBeReady(s.lists, addrs, a, end - a) ==> c in ls && ls[c].direct
      ensures Ready(ls, a, end - a) ==> GetsArray(s.lists, addrs, c)
    {
      assert HasArray(ls, c) <==> GetsArray(s.lists, addrs, c);
    }
  }

  lemma FoundGrows(ls: Lists, ms: Lists, b: Block)
    requires FoundEverywhere(ls, b) && ListsGrow(ls, ms)
    ensures FoundEverywhere(ms, b)
  {
    forall c | Enters(b, c) ensures Findable(ms, b, c) { assert Findable(ls, b, c); }
  }

  /** The installed block can be found from chunk `c` exactly when `c` has a list with an array. */
  lemma RecordFinds(s: State, b: Block, c: nat)
    requires Bounded(s.lists) && Enters(b, c)
    requires ChunkOf(b.start) in s.lists
    ensures Findable(Record(s, b.start, b.size).lists, b, c) <==> c in s.lists && s.lists[c].direct
  {
    if c in s.lists && c != ChunkOf(b.start) { RecordIndexes(s, b.start, b.size, c); }
  }

  lemma RecordIndexed(s: State, f: Id, a: nat, end: nat)
    requires Sound(s) && Pending(s, f, a, end) && Bounded(s.lists) && Ready(s.lists, a, end - a)
    requires forall id :: id in s.blocks && Father(s.blocks[id]) && id != f ==> FoundEverywhere(s.lists, s.blocks[id])
    ensures var t := SetDone(Record(s, a, end - a), f); Indexed(t.lists, t.blocks) && Bounded(t.lists)
  {
    hide Sound, Fresh, Ready, Record, ListsGrow, FoundEverywhere, Bounded;
    RecordBounds(s, a, end - a);
    RecordGrows(s, a, end - a);
    var t := SetDone(Record(s, a, end - a), f);
    forall id | id in t.blocks && Father(t.blocks[id]) ensures FoundEverywhere(t.lists, t.blocks[id]) {
      if id != f {
        FoundGrows(s.lists, t.lists, s.blocks[id]);
      } else {
        ReadyFinds(s, t.blocks[f]);
      }
    }
  }

  lemma ReadyFinds(s: State, b: Block)
    requires Bounded(s.lists) && b.size > 0 && b.done && Ready(s.lists, b.start, b.size)
    ensures FoundEverywhere(Record(s, b.start, b.size).lists, b)
  {
    hide Bounded, Findable;
    forall c | Enters(b, c) ensures Findable(Record(s, b.start, b.size).lists, b, c) {
      assert ChunkOf(b.start) <= ChunkOf(b.start) <= ChunkOf(b.start + b.size - 1);
      RecordFinds(s, b, c);
    }
  }

  lemma GrownOthers(s: State, t: State, f: Id)
    requires f in s.blocks && Grown(s, t, f)
    requires forall id :: id in s.blocks && Father(s.blocks[id]) && id != f ==> FoundEverywhere(s.lists, s.blocks[id])
    ensures forall id :: id in t.blocks && Father(t.blocks[id]) && id != f ==> FoundEverywhere(t.lists, t.blocks[id])
  {
    hide FoundEverywhere, ListsGrow, Bounded;
    forall id | id in t.blocks && Father(t.blocks[id]) && id != f ensures FoundEverywhere(t.lists, t.blocks[id]) {
      assert id in s.blocks && s.blocks[id] == t.blocks[id];
      FoundGrows(s.lists, t.lists, s.blocks[id]);
    }
  }

  lemma FillOthers(s: State, f: Id, a: nat, end: nat, addrs: seq<nat>)
    requires Compiling(s, f, a, end, addrs)
    ensures var t := Fill(s);
      forall k :: k in t.blocks && Father(t.blocks[k]) && k != f ==> FoundEverywhere(t.lists, t.blocks[k])
  {
    hide FoundEverywhere;
  }

  lemma InstalledIndexed(s: State, f: Id, a: nat, end: nat, addrs: seq<nat>)
    requires Compiling(s, f, a, end, addrs) && Recheck(s)
    requires Ready(ListsAtInstall(s, f, a, end, addrs), a, end - a)
    ensures var t := Installed(s, f, a, end, addrs); Indexed(t.lists, t.blocks) && Bounded(t.lists)
  {
    hide Compiling, Inv, Shape, Pending, Sound, Recheck, Fill, AddSons, Record, SetDone, FoundEverywhere, Bounded, Grown, Ready, Indexed, Father;
    FillPends(s, f, a, end, addrs);
    FillOthers(s, f, a, end, addrs);
    SonsPend(Fill(s), f, a, end, addrs);
    GrownOthers(Fill(s), AddSons(Fill(s), f, end, addrs), f);
    RecordIndexed(AddSons(Fill(s), f, end, addrs), f, a, end);
  }

  // ---- keeping and dropping a dirty block

  /** A dirty father is cleared and its pages are closed again; the jump table is not yet filled. */
  function Cleared(s: State, f: Id): State
    requires f in s.blocks
  {
    var b := s.blocks[f];
    s.(blocks := s.blocks[f := b.(needTest := false, revalidated := true)],
       prot := Protect(s.prot, b.start, b.start + b.size))
  }

  lemma ClearedIsFresh(s: State, f: Id)
    requires Inv(s) && f in s.blocks && Father(s.blocks[f]) && Unchanged(s, f)
    ensures var t := Cleared(s, f); Fresh(t.mem, t.prot, t.blocks[f]) && Exact(t.mem, t.blocks[f])
  {
    hide SlotsOk, FamiliesOk, JumpsOk, Indexed, Bounded, Closed, X31.Hash, Known, Exclusive, Protect, Coherent, CompileOk, CompileShape;
    var b := s.blocks[f];
    ProtectCloses(s.prot, b.start, b.start + b.size);
    assert Exact(s.mem, b);
  }

  lemma ClearedKeepsRecords(s: State, f: Id)
    requires Inv(s) && f in s.blocks && Father(s.blocks[f]) && Unchanged(s, f)
    ensures var t := Cleared(s, f);
      Exclusive(t.prot) && Coherent(t.mem, t.prot, t.blocks) && AllExact(t.mem, t.blocks)
  {
    hide SlotsOk, FamiliesOk, JumpsOk, Indexed, Bounded, Closed, X31.Hash, Known, Exclusive, Protect, Fresh, Exact, CompileOk, Unchanged;
    var b := s.blocks[f];
    ClearedIsFresh(s, f);
    ProtectCloses(s.prot, b.start, b.start + b.size);
    ProtectKeepsCoherent(s.mem, s.prot, s.blocks, b.start, b.start + b.size);
  }

  lemma ClearedKeepsRest(s: State, f: Id)
    requires Inv(s) && s.compile == Idle && f in s.blocks && Father(s.blocks[f])
    ensures var t := Cleared(s, f);
      Shape(t) && JumpsOk(t.jump, t.blocks) && Indexed(t.lists, t.blocks) && Bounded(t.lists)
  {
    var b := s.blocks[f].(needTest := false, revalidated := true);
    FlagsKeepSlots(s, f, b);
    FlagsKeepFamilies(s.blocks, f, b);
    FlagsKeepJumps(s.jump, s.blocks, f, b);
    FlagsKeepIndexed(s.lists, s.blocks, f, b);
    hide SlotsOk, FamiliesOk, JumpsOk, Indexed, Bounded, Coherent, AllExact, Exclusive, Protect;
  }

  lemma ValidateKeeps(s: State, f: Id)
    requires Inv(s) && s.compile == Idle && f in s.blocks && Father(s.blocks[f]) && s.blocks[f].done && Unchanged(s, f)
    ensures Inv(Validate(s, f))
  {
    hide SlotsOk, FamiliesOk, JumpsOk, Indexed, Bounded, Coherent, AllExact, Exclusive, Protect;
    ClearedKeepsRecords(s, f);
    ClearedKeepsRest(s, f);
    FamilyJumps(Cleared(s, f), f);
  }

  predicate SameExtent(b: Block, c: Block) {
    c == b.(needTest := c.needTest, revalidated := c.revalidated)
  }

  lemma FlagsKeepSlots(s: State, f: Id, b: Block)
    requires f in s.blocks && SameExtent(s.blocks[f], b) && SlotsOk(|s.mem|, s.lists, s.blocks, s.direct, s.next)
    ensures SlotsOk(|s.mem|, s.lists, s.blocks[f := b], s.direct, s.next)
  {
    var cs := s.blocks[f := b];
    forall id | id in cs ensures InSlot(cs[id], id, s.direct, s.next, |s.mem|) {
      assert InSlot(s.blocks[id], id, s.direct, s.next, |s.mem|);
    }
  }

  lemma FlagsKeepFamilies(bs: Blocks, f: Id, b: Block)
    requires f in bs && FamiliesOk(bs) && SameExtent(bs[f], b)
    ensures FamiliesOk(bs[f := b])
  {
    var cs := bs[f := b];
    forall k | k in cs && cs[k].father.Some?
      ensures cs[k].father.value in cs && k in cs[cs[k].father.value].sons && SonOf(cs[k], cs[cs[k].father.value])
    {
      assert SonOf(bs[k], bs[bs[k].father.value]);
    }
  }

  lemma FlagsKeepJumps(jump: map<nat, Id>, bs: Blocks, f: Id, b: Block)
    requires f in bs && JumpsOk(jump, bs) && SameExtent(bs[f], b) && !b.needTest
    ensures JumpsOk(jump, bs[f := b])
  {
    var cs := bs[f := b];
    forall a | a in jump ensures Root(cs, jump[a]) in cs && Clean(cs[Root(cs, jump[a])]) {
      assert Clean(bs[Root(bs, jump[a])]);
    }
  }

  lemma FlagsKeepIndexed(ls: Lists, bs: Blocks, f: Id, b: Block)
    requires f in bs && Indexed(ls, bs) && SameExtent(bs[f], b) && Father(bs[f])
    ensures Indexed(ls, bs[f := b])
  {
    assert FoundEverywhere(ls, bs[f]);
    forall c | Enters(b, c) ensures Findable(ls, b, c) { assert Enters(bs[f], c); }
  }

  lemma FreeKeeps(s: State, f: Id)
    requires Inv(s) && s.compile == Idle && f in s.blocks && s.blocks[f].father.None?
    ensures Inv(Free(s, f))
    ensures s.blocks[f].start !in Free(s, f).direct
  {
    hide SlotsOk, FamiliesOk, JumpsOk, Indexed, Bounded, Closed, X31.Hash, Known, Exclusive, FoundEverywhere, Exact, Entries;
    FreeKeepsSlots(s, f);
    FreeKeepsFamilies(s, f);
    FreeKeepsJumps(s, f);
    assert Indexed(s.lists, Free(s, f).blocks) by { FreeKeepsIndexed(s, f); }
    assert s.blocks[f].start in Entries(s.blocks, f) by { EntryOfFather(s.blocks, f); }
  }

  lemma EntryOfFather(bs: Blocks, f: Id)
    requires f in bs
    ensures bs[f].start in Entries(bs, f)
  {}

  lemma FreeKeepsIndexed(s: State, f: Id)
    requires f in s.blocks && Indexed(s.lists, s.blocks)
    ensures Indexed(s.lists, Free(s, f).blocks)
  {
    hide FoundEverywhere, Entries;
  }

  lemma FreeKeepsSlots(s: State, f: Id)
    requires f in s.blocks && FamiliesOk(s.blocks) && SlotsOk(|s.mem|, s.lists, s.blocks, s.direct, s.next)
    ensures var t := Free(s, f); SlotsOk(|t.mem|, t.lists, t.blocks, t.direct, t.next)
  {
    var t := Free(s, f);
    forall id | id in t.blocks ensures InSlot(t.blocks[id], id, t.direct, t.next, |t.mem|) {
      assert InSlot(s.blocks[id], id, s.direct, s.next, |s.mem|);
      FreeSpares(s, f, id);
    }
    forall a | a in t.direct ensures t.direct[a] in t.blocks {
      FreeTakes(s, f, s.direct[a]);
    }
  }

  /** A block outside the family does not start where one of the family starts. */
  lemma FreeSpares(s: State, f: Id, id: Id)
    requires f in s.blocks && id in s.blocks && id != f && id !in s.blocks[f].sons
    requires SlotsOk(|s.mem|, s.lists, s.blocks, s.direct, s.next)
    ensures s.blocks[id].start !in Entries(s.blocks, f)
  {
    assert InSlot(s.blocks[id], id, s.direct, s.next, |s.mem|);
    assert InSlot(s.blocks[f], f, s.direct, s.next, |s.mem|);
    forall k | k in s.blocks[f].sons && k in s.blocks ensures s.blocks[k].start != s.blocks[id].start {
      assert InSlot(s.blocks[k], k, s.direct, s.next, |s.mem|);
    }
  }

  lemma FreeTakes(s: State, f: Id, id: Id)
    requires f in s.blocks && id in s.blocks
    ensures id == f || id in s.blocks[f].sons ==> s.blocks[id].start in Entries(s.blocks, f)
  {}

  lemma FreeKeepsFamilies(s: State, f: Id)
    requires f in s.blocks && s.blocks[f].father.None? && FamiliesOk(s.blocks)
    ensures FamiliesOk(Free(s, f).blocks)
  {
    hide Entries;
    var bs, cs := s.blocks, Free(s, f).blocks;
    assert forall m :: m in bs[f].sons ==> m in bs && bs[m].father == Some(f);
    forall k | k in cs && cs[k].father.Some?
      ensures cs[k].father.value in cs && SonOf(cs[k], cs[cs[k].father.value])
    {
      var g := bs[k].father.value;
      assert SonOf(bs[k], bs[g]);
    }
    forall id, k | id in cs && k in cs[id].sons ensures k in cs {
      assert bs[k].father == Some(id);
    }
  }

  lemma FreeKeepsJumps(s: State, f: Id)
    requires f in s.blocks && s.blocks[f].father.None? && FamiliesOk(s.blocks) && JumpsOk(s.jump, s.blocks)
    ensures var t := Free(s, f); JumpsOk(t.jump, t.blocks)
  {
    hide Entries;
    var bs, t := s.blocks, Free(s, f);
    assert forall m :: m in bs[f].sons ==> m in bs && bs[m].father == Some(f);
    forall a | a in t.jump
      ensures t.jump[a] in t.blocks && Root(t.blocks, t.jump[a]) in t.blocks && Clean(t.blocks[Root(t.blocks, t.jump[a])])
    {
      var k := s.jump[a];
      var r := Root(bs, k);
      assert Clean(bs[r]);
      FreeTakes(s, f, k);
    }
  }

  // ---- the two steps in full

  lemma InstallKeeps(s: State, f: Id, a: nat, end: nat, addrs: seq<nat>)
    requires Compiling(s, f, a, end, addrs) && Recheck(s)
    requires WillBeReady(s.lists, addrs, a, end - a)
    ensures Inv(Finish(s, addrs))
  {
    ReadyAtInstall(s, f, a, end, addrs);
    var t := Installed(s, f, a, end, addrs);
    InstalledKeeps(s, f, a, end, addrs);
    InstalledIndexed(s, f, a, end, addrs);
    FinishUnfolds(s, f, a, end, addrs);
    hide Coherent, AllExact, JumpsOk, SlotsOk, FamiliesOk, Indexed, Bounded, Exclusive, Recheck, Ready, WillBeReady, ListsAtInstall, Installed, Finish;
    FamilyJumps(t, f);
  }

  lemma LookupKeeps(s: State, a: nat, busy: bool)
    requires Inv(s) && (s.compile == Idle || busy)
    ensures Inv(Lookup(s, a, busy))
  {
    if MustTest(s, a) && !busy {
      var f := Root(s.blocks, s.direct[a]);
      TestedFather(s, a);
      hide Inv, Validate, Free;
      if Unchanged(s, f) { ValidateKeeps(s, f); } else { FreeKeeps(s, f); }
    }
  }

  lemma TestedFather(s: State, a: nat)
    requires Inv(s) && MustTest(s, a)
    ensures var f := Root(s.blocks, s.direct[a]);
      f in s.blocks && Father(s.blocks[f]) && s.blocks[f].done
  {
    var id := s.direct[a];
    if s.blocks[id].father.Some? {
      assert SonOf(s.blocks[id], s.blocks[s.blocks[id].father.value]);
    }
  }
}
