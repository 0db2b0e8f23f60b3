/** What the steps of the translation cache bring about, and what they leave alone, entry by entry. */
module DynaEffects {
  import opened Common
  import opened DynaState
  import opened DynaInv
  import opened DynaInstall
  import opened DynaRuns
  import opened DynaLaws
  import X31

  // ---- filling the jump table

  lemma {:induction false} JumpsAdded(s: State, ids: seq<Id>, x: nat)
    ensures var r := AddJumps(s, ids);
      && (x in s.jump ==> x in r.jump && r.jump[x] == s.jump[x])
      && (x in r.jump && x !in s.jump ==> r.jump[x] in ids && r.jump[x] in s.blocks && s.blocks[r.jump[x]].start == x)
      && forall id :: id in ids && id in s.blocks ==> s.blocks[id].start in r.jump
    decreases |ids|
  {
    if ids != [] {
      var t := if ids[0] in s.blocks then AddJump(s, s.blocks[ids[0]].start, ids[0]) else s;
      JumpsAdded(t, ids[1..], x);
      forall id | id in ids && id in s.blocks ensures s.blocks[id].start in AddJumps(s, ids).jump {
        if id == ids[0] { JumpsAdded(t, ids[1..], s.blocks[id].start); } else { assert id in ids[1..]; }
      }
    }
  }

  /** The entries of a family, put where there was none. */
  function FamilyAdded(s: State, f: Id): State
    requires f in s.blocks
  {
    AddJumps(AddJump(s, s.blocks[f].start, f), s.blocks[f].sons)
  }

  /** Entries that are there stay, the starts of the family get one, and nothing else does. */
  lemma FamilyJumpsMean(s: State, f: Id, x: nat)
    requires f in s.blocks && Father(s.blocks[f]) && SlotsOk(|s.mem|, s.lists, s.blocks, s.direct, s.next) && FamiliesOk(s.blocks)
    ensures var r := FamilyAdded(s, f);
      && r == s.(jump := r.jump)
      && (x in s.jump ==> x in r.jump && r.jump[x] == s.jump[x])
      && (x !in s.jump ==>
            && (x in r.jump <==> x in s.direct && InFamily(s.blocks, s.direct[x], f))
            && (x in r.jump ==> r.jump[x] == s.direct[x]))
  {
    var t := AddJump(s, s.blocks[f].start, f);
    JumpsAdded(t, s.blocks[f].sons, x);
    SlotOf(s, f);
    if x in s.direct && InFamily(s.blocks, s.direct[x], f) && s.direct[x] != f {
      FamilyListed(s.blocks, s.direct[x], f);
    }
    var r := FamilyAdded(s, f);
    if x in r.jump && x !in s.jump && x != s.blocks[f].start {
      SonListed(s.blocks, r.jump[x], f);
      SlotOf(s, r.jump[x]);
    }
    hide FamiliesOk, AddJumps;
  }

  predicate InFamily(bs: Blocks, id: Id, f: Id) { id in bs && (id == f || bs[id].father == Some(f)) }

  lemma SlotOf(s: State, id: Id)
    requires SlotsOk(|s.mem|, s.lists, s.blocks, s.direct, s.next) && id in s.blocks
    ensures s.blocks[id].start in s.direct && s.direct[s.blocks[id].start] == id
    ensures forall x :: x in s.direct ==> s.direct[x] in s.blocks && s.blocks[s.direct[x]].start == x
  {
    assert InSlot(s.blocks[id], id, s.direct, s.next, |s.mem|);
  }

  lemma FamilyListed(bs: Blocks, id: Id, f: Id)
    requires FamiliesOk(bs) && id in bs && bs[id].father == Some(f)
    ensures f in bs && id in bs[f].sons
  {}

  lemma SonListed(bs: Blocks, id: Id, f: Id)
    requires FamiliesOk(bs) && f in bs && id in bs[f].sons
    ensures id in bs && bs[id].father == Some(f)
  {}

  // ---- marking

  /** The last byte a block has, or a byte up to the second after the page: what marking counts as meeting. */
  predicate Touches(b: Block, page: nat) {
    b.start <= page * PAGE + PAGE + 1 && page * PAGE <= LastByte(b)
  }

  /** A fault changes the page's protection, the marks of blocks, and the jump table, and no more. */
  lemma FaultFrame(s: State, page: nat)
    ensures var t := Fault(s, page);
      && t == s.(prot := t.prot, blocks := t.blocks, jump := t.jump) && t.blocks.Keys == s.blocks.Keys
      && forall id :: id in s.blocks ==>
           t.blocks[id] == s.blocks[id].(needTest := s.blocks[id].needTest || t.blocks[id].needTest)
  {}

  /** A block gets marked only for a member of its family that touches the page. */
  lemma FaultMarksOnly(s: State, page: nat, f: Id)
    requires f in s.blocks && !s.blocks[f].needTest && Fault(s, page).blocks[f].needTest
    ensures exists id :: id in s.blocks && Root(s.blocks, id) == f && Touches(s.blocks[id], page)
  {
    var lo := page * PAGE;
    assert f in RangeHits(s, ChunkOf(lo), lo, PAGE);
    var a :| a in s.direct && InRange(s, ChunkOf(lo), ChunkOf(a)) && Hit(s, ChunkOf(a), a, lo, PAGE) && Root(s.blocks, s.direct[a]) == f;
    assert Touches(s.blocks[s.direct[a]], page);
  }

  /** An entry of the jump table goes only with the family it leads into, and no other changes. */
  lemma FaultDropsOnly(s: State, page: nat, x: nat)
    requires Inv(s) && x in s.jump
    ensures var t, f := Fault(s, page), Root(s.blocks, s.jump[x]);
      && f in s.blocks && (x in t.jump ==> t.jump[x] == s.jump[x])
      && (x !in t.jump <==> t.blocks[f].needTest)
  {
    var t := Fault(s, page);
    var id := s.jump[x];
    var f := Root(s.blocks, id);
    assert Clean(s.blocks[f]);
    RootEnters(s.blocks, id);
    if x !in t.jump {
      DroppedFor(s, page, x);
    } else if t.blocks[f].needTest {
      NotDropped(s, RangeHits(s, ChunkOf(page * PAGE), page * PAGE, PAGE), x, f);
    }
  }

  lemma DroppedFor(s: State, page: nat, x: nat)
    requires Inv(s) && x in s.jump && s.jump[x] in s.blocks && x !in Fault(s, page).jump
    ensures Root(s.blocks, s.jump[x]) in s.blocks && Fault(s, page).blocks[Root(s.blocks, s.jump[x])].needTest
  {
    var g := Dropper(s, page, x);
    OwnsEntry(s, g, x);
  }

  /** A father that was marked, and took the entry out. */
  lemma Dropper(s: State, page: nat, x: nat) returns (g: Id)
    requires FamiliesOk(s.blocks) && SlotsOk(|s.mem|, s.lists, s.blocks, s.direct, s.next)
    requires x in s.jump && x !in Fault(s, page).jump
    ensures g in s.blocks && x in Entries(s.blocks, g) && s.blocks[g].father.None?
    ensures g in Fault(s, page).blocks && Fault(s, page).blocks[g].needTest
  {
    hide FamiliesOk, Entries, SlotsOk, Hit;
    var d := RangeHits(s, ChunkOf(page * PAGE), page * PAGE, PAGE);
    assert Dropped(s, d, x);
    g :| g in d && g in s.blocks && !s.blocks[g].needTest && x in Entries(s.blocks, g);
    HitsAreRoots(s, g, ChunkOf(page * PAGE), page * PAGE, PAGE);
    var a :| a in s.direct && s.direct[a] in s.blocks && Root(s.blocks, s.direct[a]) == g;
    RootIsFather(s.blocks, s.direct[a]);
  }

  lemma HitsAreRoots(s: State, g: Id, c: nat, lo: nat, size: nat)
    requires g in RangeHits(s, c, lo, size)
    ensures exists a :: a in s.direct && s.direct[a] in s.blocks && Root(s.blocks, s.direct[a]) == g
  {}

  lemma RootIsFather(bs: Blocks, id: Id)
    requires FamiliesOk(bs) && id in bs
    ensures Root(bs, id) in bs && bs[Root(bs, id)].father.None?
  {
    if bs[id].father.Some? { assert SonOf(bs[id], bs[bs[id].father.value]); }
  }

  lemma OwnsEntry(s: State, g: Id, x: nat)
    requires Inv(s) && x in s.jump && g in s.blocks && x in Entries(s.blocks, g) && s.jump[x] in s.blocks
    ensures s.blocks[g].father.None? ==> Root(s.blocks, s.jump[x]) == g
  {
    var k :| k in s.blocks && s.blocks[k].start == x && (k == g || k in s.blocks[g].sons);
    SlotOf(s, k);
    SlotOf(s, s.jump[x]);
    if k != g { SonListed(s.blocks, k, g); }
  }

  /** After the fault a guest write to a tracked page that is watched or open lands, and changes one byte. */
  lemma WriteLands(s: State, a: nat, v: Byte)
    requires a < |s.mem| && PageOf(a) < |s.prot| && (Watched(s.prot[PageOf(a)]) || GuestWritable(s.prot[PageOf(a)]))
    ensures GuestWrite(Fault(s, PageOf(a)), a, v) == Fault(s, PageOf(a)).(mem := s.mem[a := v])
  {
    FaultFrame(s, PageOf(a));
    FaultProt(s, PageOf(a), PageOf(a));
    hide Mark, RangeHits;
  }

  /** And to any other page it does nothing. */
  lemma WriteStopped(s: State, a: nat, v: Byte)
    requires a < |s.mem| && PageOf(a) < |s.prot| && !Watched(s.prot[PageOf(a)]) && !GuestWritable(s.prot[PageOf(a)])
    ensures GuestWrite(Fault(s, PageOf(a)), a, v) == s
  {}

  // ---- freeing

  /** A freed father goes with its sons, their slots and their entries, and nothing else goes or changes. */
  lemma FreeMeans(s: State, f: Id)
    requires Inv(s) && f in s.blocks && s.blocks[f].father.None?
    ensures var t := Free(s, f);
      && t == s.(blocks := t.blocks, direct := t.direct, jump := t.jump)
      && (forall id :: id in t.blocks <==> id in s.blocks && !InFamily(s.blocks, id, f))
      && (forall id :: id in t.blocks ==> t.blocks[id] == s.blocks[id])
      && (forall x :: x in t.direct <==> x in s.direct && !InFamily(s.blocks, s.direct[x], f))
      && (forall x :: x in t.direct ==> t.direct[x] == s.direct[x])
      && (forall x :: x in t.jump <==> x in s.jump && !InFamily(s.blocks, s.jump[x], f))
      && (forall x :: x in t.jump ==> t.jump[x] == s.jump[x])
  {
    hide Inv, InFamily, Entries, Free, SlotsOk, FamiliesOk, JumpsOk;
    InvParts(s);
    FreeIs(s, f);
    forall id ensures id in s.blocks && (id == f || id in s.blocks[f].sons) <==> InFamily(s.blocks, id, f) {
      FamilyIs(s.blocks, id, f);
    }
    forall x | x in s.direct ensures x in Entries(s.blocks, f) <==> InFamily(s.blocks, s.direct[x], f) {
      EntryIs(s, x, s.direct[x], f);
    }
    forall x | x in s.jump ensures x in Entries(s.blocks, f) <==> InFamily(s.blocks, s.jump[x], f) {
      EntryIs(s, x, s.jump[x], f);
    }
  }

  lemma InvParts(s: State)
    requires Inv(s)
    ensures SlotsOk(|s.mem|, s.lists, s.blocks, s.direct, s.next) && FamiliesOk(s.blocks)
    ensures forall x :: x in s.direct ==> s.direct[x] in s.blocks && s.blocks[s.direct[x]].start == x
    ensures forall x :: x in s.jump ==> s.jump[x] in s.blocks && s.blocks[s.jump[x]].start == x
  {
    hide FamiliesOk, Indexed, Bounded, Coherent, AllExact, CompileOk, CompileShape, Exclusive;
  }

  lemma FreeIs(s: State, f: Id)
    requires f in s.blocks
    ensures var t := Free(s, f);
      && t == s.(blocks := t.blocks, direct := t.direct, jump := t.jump)
      && (forall id :: id in t.blocks <==> id in s.blocks && !(id == f || id in s.blocks[f].sons))
      && (forall id :: id in t.blocks ==> t.blocks[id] == s.blocks[id])
      && (forall x :: x in t.direct <==> x in s.direct && x !in Entries(s.blocks, f))
      && (forall x :: x in t.direct ==> t.direct[x] == s.direct[x])
      && (forall x :: x in t.jump <==> x in s.jump && x !in Entries(s.blocks, f))
      && (forall x :: x in t.jump ==> t.jump[x] == s.jump[x])
  {
    hide Entries;
  }

  lemma FamilyIs(bs: Blocks, id: Id, f: Id)
    requires FamiliesOk(bs) && f in bs
    ensures id in bs && (id == f || id in bs[f].sons) <==> InFamily(bs, id, f)
  {
    hide SonOf;
  }

  lemma EntryIs(s: State, x: nat, id: Id, f: Id)
    requires SlotsOk(|s.mem|, s.lists, s.blocks, s.direct, s.next) && FamiliesOk(s.blocks)
    requires f in s.blocks && id in s.blocks && s.blocks[id].start == x
    ensures x in Entries(s.blocks, f) <==> InFamily(s.blocks, id, f)
  {
    SlotOf(s, id);
    FamilyIs(s.blocks, id, f);
    if k :| k in s.blocks && (k == f || k in s.blocks[f].sons) && s.blocks[k].start == x { SlotOf(s, k); }
    hide FamiliesOk, SlotsOk;
  }

  // ---- keeping

  /** A father that is kept is clean again, its pages are closed, and its family is in the jump table. */
  lemma ValidateMeans(s: State, f: Id, x: nat)
    requires Inv(s) && f in s.blocks && Father(s.blocks[f])
    ensures var t := Validate(s, f);
      && t == s.(blocks := t.blocks, prot := t.prot, jump := t.jump)
      && t.blocks == s.blocks[f := s.blocks[f].(needTest := false, revalidated := true)]
      && |t.prot| == |s.prot|
      && (x < |s.prot| ==>
            if PageOf(s.blocks[f].start) <= x < PageEnd(s.blocks[f].start + s.blocks[f].size)
            then ClosedAs(s.prot[x], t.prot[x]) else t.prot[x] == s.prot[x])
      && (x in s.jump ==> x in t.jump && t.jump[x] == s.jump[x])
      && (x !in s.jump ==>
            && (x in t.jump <==> x in s.direct && InFamily(s.blocks, s.direct[x], f))
            && (x in t.jump ==> t.jump[x] == s.direct[x]))
  {
    hide Inv, FamilyAdded, Validate, Protect, SlotsOk, FamiliesOk, InFamily, ClosedAs;
    var u := Cleared(s, f);
    ClearedShape(s, f);
    FamilyJumpsMean(u, f, x);
    SameFamilies(s.blocks, f, s.blocks[f].(needTest := false, revalidated := true));
    if x < |s.prot| { ProtectMeans(s.prot, s.blocks[f].start, s.blocks[f].start + s.blocks[f].size, x); }
    ValidateIs(s, f);
  }

  lemma ValidateIs(s: State, f: Id)
    requires f in s.blocks
    ensures Validate(s, f) == FamilyAdded(Cleared(s, f), f)
  {
    hide AddJumps, Protect;
  }

  lemma SameFamilies(bs: Blocks, f: Id, b: Block)
    requires f in bs && b.father == bs[f].father
    ensures forall id :: InFamily(bs[f := b], id, f) <==> InFamily(bs, id, f)
  {}

  lemma ClearedShape(s: State, f: Id)
    requires Inv(s) && f in s.blocks && Father(s.blocks[f])
    ensures var u := Cleared(s, f); SlotsOk(|u.mem|, u.lists, u.blocks, u.direct, u.next) && FamiliesOk(u.blocks)
  {
    var b := s.blocks[f].(needTest := false, revalidated := true);
    FlagsKeepSlots(s, f, b);
    FlagsKeepFamilies(s.blocks, f, b);
    hide SlotsOk, FamiliesOk, Inv;
  }

  // ---- installing

  /** The son that a block made of `f`, which ends at `end`, gets at `x`. */
  function SonAt(f: Id, end: nat, x: nat): Block
    requires x <= end
  {
    Block(x, end - x, 0, false, true, [], Some(f), true, [], false)
  }

  /** A son is made at each of the addresses whose chunk has a list and whose slot is free. */
  lemma {:induction false} SonsMean(s: State, f: Id, end: nat, addrs: seq<nat>, x: nat)
    requires f in s.blocks && forall i :: 0 <= i < |addrs| ==> addrs[i] < end
    requires forall id :: id in s.blocks ==> id < s.next
    requires forall y :: y in s.direct ==> s.direct[y] in s.blocks
    ensures var r := AddSons(s, f, end, addrs);
      && (x in r.direct <==> x in s.direct || (x in addrs && ChunkOf(x) in s.lists))
      && (x in s.direct ==> r.direct[x] == s.direct[x])
      && (x in r.direct && x !in s.direct ==>
            x < end && r.direct[x] in r.blocks && r.direct[x] !in s.blocks && r.blocks[r.direct[x]] == SonAt(f, end, x))
      && (forall id :: id in s.blocks && id != f ==> id in r.blocks && r.blocks[id] == s.blocks[id])
      && f in r.blocks && r.blocks[f] == s.blocks[f].(sons := r.blocks[f].sons)
      && r == s.(lists := r.lists, blocks := r.blocks, direct := r.direct, next := r.next)
    decreases |addrs|
  {
    hide ChunkOf, AddSon, CanCreate;
    if addrs == [] {
      assert s == s.(lists := s.lists, blocks := s.blocks, direct := s.direct, next := s.next);
    } else {
      var t := if CanCreate(s, addrs[0]) then AddSon(s, f, end, addrs[0]) else s;
      OneSonMeans(s, f, end, addrs[0]);
      SonsMean(t, f, end, addrs[1..], x);
      assert x in addrs <==> x == addrs[0] || x in addrs[1..];
    }
  }

  lemma OneSonMeans(s: State, f: Id, end: nat, a: nat)
    requires f in s.blocks && a < end && forall id :: id in s.blocks ==> id < s.next
    ensures CanCreate(s, a) <==> ChunkOf(a) in s.lists && a !in s.direct
    ensures CanCreate(s, a) ==>
      var t := AddSon(s, f, end, a);
      && t == s.(lists := t.lists, blocks := t.blocks, direct := s.direct[a := s.next], next := s.next + 1)
      && t.lists.Keys == s.lists.Keys
      && t.blocks == s.blocks[s.next := SonAt(f, end, a)][f := s.blocks[f].(sons := t.blocks[f].sons)]
  {
    hide ChunkOf;
  }

  /** A passed recheck leaves the block done and clean, made from the bytes that are there, in its slot. */
  lemma InstallMeans(s: State, f: Id, a: nat, end: nat, addrs: seq<nat>)
    requires Compiling(s, f, a, end, addrs) && Recheck(s)
    ensures var t := Finish(s, addrs);
      && t.mem == s.mem && t.prot == s.prot && t.compile == Idle
      && f in t.blocks && a in t.direct && t.direct[a] == f
      && var b := t.blocks[f];
      && Clean(b) && b.start == a && a + b.size == end && b.src == s.mem[a..end] && b.hash == X31.Hash(b.src) && !b.revalidated
  {
    hide X31.Hash;
    var t := Finish(s, addrs);
    FinishUnfolds(s, f, a, end, addrs);
    RecheckExact(s);
    SlotFilled(s, f, a, end, addrs, a);
    InstalledBlock(s, f, a, end, addrs);
    hide Inv, Finish, Installed, Recheck, Fill;
  }

  lemma InstalledBlock(s: State, f: Id, a: nat, end: nat, addrs: seq<nat>)
    requires Compiling(s, f, a, end, addrs) && Recheck(s)
    ensures var u := Installed(s, f, a, end, addrs);
      && u.mem == s.mem && u.prot == s.prot && u.compile == Idle && u.jump == s.jump
      && u.blocks[f] == Fill(s).blocks[f].(sons := u.blocks[f].sons, done := true)
      && (forall id :: id in s.blocks && id != f ==> id in u.blocks && u.blocks[id] == s.blocks[id])
  {
    Numbered(s);
    SonsMean(Fill(s), f, end, addrs, a);
    hide Inv, Recheck, AddSons;
  }

  lemma Numbered(s: State)
    requires Inv(s)
    ensures forall id :: id in s.blocks ==> id < s.next
    ensures forall y :: y in s.direct ==> s.direct[y] in s.blocks
  {
    hide FamiliesOk, JumpsOk, Indexed, Bounded, Coherent, AllExact, CompileOk, CompileShape, Exclusive;
    forall id | id in s.blocks ensures id < s.next { assert InSlot(s.blocks[id], id, s.direct, s.next, |s.mem|); }
  }

  lemma SlotFilled(s: State, f: Id, a: nat, end: nat, addrs: seq<nat>, x: nat)
    requires Compiling(s, f, a, end, addrs) && Recheck(s)
    ensures var t := Finish(s, addrs);
      && (x in t.direct <==> x in s.direct || (x in addrs && ChunkOf(x) in s.lists))
      && (x in s.direct ==> t.direct[x] == s.direct[x])
      && (x in t.direct && x !in s.direct ==>
            x < end && t.direct[x] in t.blocks && t.direct[x] !in s.blocks && t.blocks[t.direct[x]] == SonAt(f, end, x))
  {
    FinishUnfolds(s, f, a, end, addrs);
    Numbered(s);
    SonsMean(Fill(s), f, end, addrs, x);
    hide Inv, Recheck, AddSons, Finish, ChunkOf;
  }

  /** Every other block is what it was. */
  lemma InstallKeepsOthers(s: State, f: Id, a: nat, end: nat, addrs: seq<nat>, id: Id)
    requires Compiling(s, f, a, end, addrs) && Recheck(s) && id in s.blocks && id != f
    ensures id in Finish(s, addrs).blocks && Finish(s, addrs).blocks[id] == s.blocks[id]
  {
    FinishUnfolds(s, f, a, end, addrs);
    InstalledBlock(s, f, a, end, addrs);
    hide Inv, Recheck, Finish, Installed;
  }

  /** The block and its sons get an entry of the jump table each, where there was none. */
  lemma InstallJumps(s: State, f: Id, a: nat, end: nat, addrs: seq<nat>, x: nat)
    requires Compiling(s, f, a, end, addrs) && Recheck(s)
    ensures var t := Finish(s, addrs);
      && (x in s.jump ==> x in t.jump && t.jump[x] == s.jump[x])
      && (x !in s.jump ==>
            && (x in t.jump <==> x in t.direct && InFamily(t.blocks, t.direct[x], f))
            && (x in t.jump ==> t.jump[x] == t.direct[x]))
  {
    var u := Installed(s, f, a, end, addrs);
    FinishUnfolds(s, f, a, end, addrs);
    InstalledKeeps(s, f, a, end, addrs);
    InstalledBlock(s, f, a, end, addrs);
    assert FamilyAdded(u, f) == Finish(s, addrs);
    hide Inv, Finish, Installed, Recheck, FamilyAdded, SlotsOk, FamiliesOk, Coherent, AllExact, JumpsOk;
    FamilyJumpsMean(u, f, x);
  }

  /** A failed recheck gives the slot up, and nothing else happens. */
  lemma FailedRecheck(s: State, addrs: seq<nat>)
    requires Inv(s) && s.compile.Hashed? && s.compile.id in s.blocks && !Recheck(s)
    requires forall i :: 0 <= i < |addrs| ==> s.blocks[s.compile.id].start <= addrs[i] < s.compile.end
    ensures var t, f := Finish(s, addrs), s.compile.id;
      t == s.(blocks := s.blocks - {f}, direct := s.direct - {s.blocks[f].start}, compile := Idle)
  {
    hide Inv, Recheck;
  }

  // ---- a compile that nothing disturbs

  lemma BegunMeans(s: State, a: nat)
    requires Inv(s) && s.compile == Idle && a < |s.mem| && CanCreate(s, a)
    ensures var t, f := Begin(s, a, Usual), s.next;
      && Inv(t) && t.compile == Pass0(f) && f in t.blocks && t.blocks[f].start == a && t.mem == s.mem && t.jump == s.jump
      && IsProtected(t.prot, a, a + 1)
  {
    BeginKeeps(s, a, Usual);
    ProtectProtects(s.prot, a, a + 1);
    hide Inv, Protect, IsProtected;
  }

  lemma ProtectProtects(prot: seq<bv8>, a: nat, e: nat)
    ensures IsProtected(Protect(prot, a, e), a, e)
  {
    forall p | 0 <= p < |prot| { PageLaws(prot[p]); }
  }

  lemma PlacedMeans(s: State, f: Id, a: nat, end: nat)
    requires Inv(s) && s.compile == Pass0(f) && f in s.blocks && s.blocks[f].start == a < end <= |s.mem|
    requires IsProtected(s.prot, a, a + 1)
    ensures Shape(s)
    ensures var t := Place(s, end);
      && Inv(t) && t.compile == Placed(f, end) && t.blocks == s.blocks && t.mem == s.mem && t.jump == s.jump
      && IsProtected(t.prot, a, end)
  {
    InvShape(s);
    hide Inv, Protect, IsProtected, Shape, PageOf;
    PlaceKeeps(s, end);
    ProtectProtects(s.prot, a, end);
    if PageOf(a) == PageOf(end) { OnePage(s.prot, a, end); }
  }

  lemma InvShape(s: State)
    requires Inv(s)
    ensures Shape(s)
  {}

  lemma OnePage(prot: seq<bv8>, a: nat, end: nat)
    requires a < end && PageOf(a) == PageOf(end) && IsProtected(prot, a, a + 1)
    ensures IsProtected(prot, a, end)
  {
    assert PageEnd(end) <= PageEnd(a + 1) by { PageEndWithin(a, end); }
  }

  lemma PageEndWithin(a: nat, end: nat)
    requires a < end && PageOf(a) == PageOf(end)
    ensures PageEnd(end) <= PageOf(a) + 1 == PageEnd(a + 1)
  {
    var q := a / PAGE;
    assert (a + 1 + PAGE - 1) / PAGE == q + 1;
  }

  /** From the first address that has a list and a free slot to the jump table: when no fault and no write
      come between, a compile ends with a clean block made from the bytes that are there, reached through
      its own entry. */
  lemma CompileSucceeds(s0: State, s1: State, s2: State, s3: State, s4: State, a: nat, end: nat, addrs: seq<nat>)
    requires Inv(s0) && s0.compile == Idle && a < end <= |s0.mem| && CanCreate(s0, a)
    requires forall i :: 0 <= i < |addrs| ==> a <= addrs[i] < end
    requires s1 == Begin(s0, a, Usual)
    requires Shape(s1) && s1.compile.Pass0? && end <= |s1.mem| ==> s2 == Place(s1, end)
    requires Shape(s2) && s2.compile.Placed? ==> s3 == TakeHash(s2)
    requires Compiling(s3, s0.next, a, end, addrs) ==> s4 == Finish(s3, addrs)
    ensures s4.mem == s0.mem && a in s4.direct && s4.direct[a] in s4.blocks
    ensures var b := s4.blocks[s4.direct[a]];
      Clean(b) && b.start == a && a + b.size == end && b.src == s0.mem[a..end] && IsProtected(s4.prot, a, end)
    ensures a in s4.jump && s4.jump[a] == s4.direct[a]
  {
    var f := s0.next;
    NoEntry(s0, a);
    BegunMeans(s0, a);
    PlacedMeans(s1, f, a, end);
    HashedMeans(s2, f, a, end);
    hide Inv, Begin, Place, TakeHash, Finish, IsProtected, Shape;
    InstallMeans(s3, f, a, end, addrs);
    InstallJumps(s3, f, a, end, addrs, a);
  }

  /** On a hot page the slot is released again; outside of what may be translated it keeps a block that
      never runs. */
  lemma NotBegun(s: State, a: nat, how: Entry)
    requires s.compile == Idle && a < |s.mem| && CanCreate(s, a) && s.next !in s.blocks
    ensures var t := Begin(s, a, how);
      && (how.HotPage? ==> t == s.(lists := t.lists))
      && (how.NoDynarec? ==>
            && t == s.(lists := t.lists, blocks := t.blocks, direct := s.direct[a := s.next], next := s.next + 1)
            && s.next in t.blocks && t.blocks[s.next].done && !t.blocks[s.next].native
            && t.blocks - {s.next} == s.blocks)
  {}

  lemma NoEntry(s: State, a: nat)
    requires Inv(s) && a !in s.direct
    ensures a !in s.jump
  {
    InvParts(s);
    if a in s.jump { SlotOf(s, s.jump[a]); }
  }

  lemma HashedMeans(s: State, f: Id, a: nat, end: nat)
    requires Inv(s) && s.compile == Placed(f, end) && f in s.blocks && s.blocks[f].start == a < end <= |s.mem|
    requires IsProtected(s.prot, a, end)
    ensures Shape(s)
    ensures var t := TakeHash(s);
      && Inv(t) && Shape(t) && t.compile.Hashed? && t.compile.id == f && t.compile.end == end && t.blocks == s.blocks
      && t.mem == s.mem && t.jump == s.jump && Recheck(t)
  {
    TakeHashKeeps(s);
    hide X31.Hash, SlotsOk, FamiliesOk, JumpsOk, Indexed, Bounded, Coherent, AllExact, CompileOk, Exclusive, IsProtected;
  }

  // ---- what the other steps touch

  /** A chunk that becomes known has no array, and neither looks back to an earlier chunk nor reaches a
      later one. */
  lemma AddListMeans(s: State, c: nat)
    ensures var t := AddList(s, c);
      && t == s.(lists := t.lists) && c in t.lists && (forall k :: k in s.lists ==> k in t.lists && t.lists[k] == s.lists[k])
      && (forall k :: k in t.lists ==> k == c || k in s.lists)
      && (c !in s.lists ==> !t.lists[c].direct && ChunkOf(t.lists[c].minstart) == c == ChunkOf(t.lists[c].maxend))
  {}

  /** Starting a compile closes the page it starts on. */
  lemma BegunProtects(s: State, a: nat, p: nat)
    requires s.compile == Idle && a < |s.mem| && CanCreate(s, a) && p < |s.prot|
    ensures var t := Begin(s, a, Usual);
      |t.prot| == |s.prot| && if p == PageOf(a) then ClosedAs(s.prot[p], t.prot[p]) else t.prot[p] == s.prot[p]
  {
    hide ClosedAs;
    ProtectMeans(s.prot, a, a + 1, p);
    assert PageEnd(a + 1) == PageOf(a) + 1;
  }

  /** After pass 0 the slot keeps a block that never runs when nothing was decoded, it is given up when the
      first page has been opened, and otherwise the block's pages are closed if it goes on to another one. */
  lemma PlaceMeans(s: State, end: nat, p: nat)
    requires Inv(s) && s.compile.Pass0? && end <= |s.mem| && p < |s.prot|
    ensures s.compile.id in s.blocks && PageOf(s.blocks[s.compile.id].start) < |s.prot|
    ensures var t, a, f := Place(s, end), s.blocks[s.compile.id].start, s.compile.id;
      if end <= a then t == s.(compile := Idle)
      else if Writable(s.prot[PageOf(a)]) then t == s.(blocks := s.blocks - {f}, direct := s.direct - {a}, compile := Idle)
      else
        && t == s.(prot := t.prot, compile := Placed(f, end)) && |t.prot| == |s.prot|
        && if PageOf(a) <= p < PageEnd(end) && PageOf(a) != PageOf(end) then ClosedAs(s.prot[p], t.prot[p])
           else t.prot[p] == s.prot[p]
  {
    InvShape(s);
    var a := s.blocks[s.compile.id].start;
    StartTracked(s);
    FirstPage(s.prot, a);
    ProtectMeans(s.prot, a, end, p);
    hide Inv, Protect, ClosedAs, IsProtected, Shape;
  }

  lemma StartTracked(s: State)
    requires Shape(s) && s.compile.Pass0?
    ensures PageOf(s.blocks[s.compile.id].start) < |s.prot|
  {
    assert InSlot(s.blocks[s.compile.id], s.compile.id, s.direct, s.next, |s.mem|);
  }

  lemma FirstPage(prot: seq<bv8>, a: nat)
    requires PageOf(a) < |prot|
    ensures IsProtected(prot, a, a + 1) <==> !Writable(prot[PageOf(a)])
  {
    assert PageEnd(a + 1) == PageOf(a) + 1;
  }

  /** A lookup that finds no block to test, or cannot test it, changes nothing. */
  lemma LookupLeaves(s: State, a: nat, busy: bool)
    requires Inv(s) && (a !in s.direct || !NeedsTest(s, s.direct[a]) || busy)
    ensures Lookup(s, a, busy) == s
  {
    if a in s.direct {
      AnswerFamily(s, a);
      TestIs(s, a);
    }
    hide Inv;
  }
}
