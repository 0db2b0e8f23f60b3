/** Whole runs of the translation cache: guest writes, faults, compiles and lookups in any order. */
module DynaRuns {
  import opened Common
  import opened DynaState
  import opened DynaInv
  import opened DynaInstall
  import X31

  datatype Step =
    | Write(a: nat, v: Byte)
    | WriteFault(page: nat)
    | MapChunk(c: nat)
    | Start(a: nat, how: Entry)
    | Located(end: nat)
    | Hashing
    | Ending(addrs: seq<nat>)
    | GivingUp
    | Losing
    | Query(a: nat, busy: bool)

  /** One compile at a time: a lookup that finds the mutex taken is `busy`. */
  ghost predicate Enabled(s: State, step: Step)
    requires Shape(s)
  {
    match step
    case Located(end) => s.compile.Pass0? && end <= |s.mem|
    case Hashing => s.compile.Placed?
    case Ending(addrs) =>
      s.compile.Hashed? &&
      forall i :: 0 <= i < |addrs| ==> s.blocks[s.compile.id].start <= addrs[i] < s.compile.end
    case GivingUp => s.compile != Idle
    case Losing => s.compile != Idle
    case Query(_, busy) => s.compile == Idle || busy
    case _ => true
  }

  ghost function Apply(s: State, step: Step): State
    requires Shape(s) && Enabled(s, step)
  {
    match step
    case Write(a, v) => GuestWrite(s, a, v)
    case WriteFault(page) => Fault(s, page)
    case MapChunk(c) => AddList(s, c)
    case Start(a, how) => Begin(s, a, how)
    case Located(end) => Place(s, end)
    case Hashing => TakeHash(s)
    case Ending(addrs) => Finish(s, addrs)
    case GivingUp => Abandon(s)
    case Losing => Forsake(s)
    case Query(a, busy) => Lookup(s, a, busy)
  }

  /** What the code takes for granted: the chunks an installed block enters have lists with arrays. */
  ghost predicate Provisioned(s: State, step: Step)
    requires Inv(s) && Enabled(s, step)
  {
    step.Ending? && Recheck(s) ==>
      var f, end := s.compile.id, s.compile.end;
      var a := s.blocks[f].start;
      WillBeReady(s.lists, step.addrs, a, end - a)
  }

  lemma ForsakeKeeps(s: State)
    requires Inv(s) && s.compile != Idle
    ensures Inv(Forsake(s))
  {
    hide SlotsOk, FamiliesOk, JumpsOk, AllExact, Indexed, Coherent, Exclusive, Bounded;
  }

  lemma StepKeeps(s: State, step: Step)
    requires Inv(s) && Enabled(s, step) && Provisioned(s, step)
    ensures Inv(Apply(s, step))
  {
    hide Inv, GuestWrite, Fault, AddList, Begin, Place, TakeHash, Finish, Abandon, Forsake, Lookup;
    match step
    case Write(a, v) => WriteKeeps(s, a, v);
    case WriteFault(page) => FaultKeeps(s, page);
    case MapChunk(c) => AddListKeeps(s, c);
    case Start(a, how) => BeginKeeps(s, a, how);
    case Located(end) => PlaceKeeps(s, end);
    case Hashing => TakeHashKeeps(s);
    case Ending(addrs) => EndingKeeps(s, addrs);
    case GivingUp => AbandonKeeps(s);
    case Losing => ForsakeKeeps(s);
    case Query(a, busy) => LookupKeeps(s, a, busy);
  }

  lemma EndingKeeps(s: State, addrs: seq<nat>)
    requires Inv(s) && Enabled(s, Ending(addrs)) && Provisioned(s, Ending(addrs))
    ensures Inv(Finish(s, addrs))
  {
    if Recheck(s) {
      InstallKeeps(s, s.compile.id, s.blocks[s.compile.id].start, s.compile.end, addrs);
    } else {
      AbandonKeeps(s);
      assert Finish(s, addrs) == Abandon(s);
    }
  }

  /** An empty cache over any memory whose pages are not yet watched. */
  ghost predicate Fresh0(s: State) {
    && |s.mem| == |s.prot| * PAGE && |s.mem| <= MEM && Exclusive(s.prot)
    && s.lists == map[] && s.blocks == map[] && s.direct == map[] && s.jump == map[] && s.compile == Idle
  }

  ghost predicate IsRun(states: seq<State>, steps: seq<Step>) {
    && |states| == |steps| + 1
    && Fresh0(states[0])
    && forall i :: 0 <= i < |steps| && Inv(states[i]) ==>
         Enabled(states[i], steps[i]) && Provisioned(states[i], steps[i]) && states[i + 1] == Apply(states[i], steps[i])
  }

  /** The safety theorem: every state of every run is coherent. */
  lemma {:induction false} RunsKeep(states: seq<State>, steps: seq<Step>, n: nat)
    requires IsRun(states, steps) && n < |states|
    ensures Inv(states[n])
  {
    hide Inv, Enabled, Provisioned, Apply;
    if n == 0 {
      FreshHolds(states[0]);
    } else {
      RunsKeep(states, steps, n - 1);
      StepKeeps(states[n - 1], steps[n - 1]);
    }
  }

  lemma FreshHolds(s: State)
    requires Fresh0(s)
    ensures Inv(s)
  {}

  // ---- what the invariant means to the guest

  /** Code reached through the jump table comes from write-protected bytes with the same hash, and
      from exactly the current bytes unless it was kept by a revalidation. */
  lemma JumpsAreFresh(s: State, a: nat)
    requires Inv(s) && a in s.jump
    ensures s.jump[a] in s.blocks && Root(s.blocks, s.jump[a]) in s.blocks
    ensures var f := s.blocks[Root(s.blocks, s.jump[a])];
      && f.start <= a < f.start + f.size <= |s.mem|
      && Closed(s.prot, f.start, f.start + f.size)
      && X31.Hash(Bytes(s.mem, f)) == X31.Hash(f.src)
      && (!f.revalidated ==> Bytes(s.mem, f) == f.src)
  {
    var id := s.jump[a];
    var r := Root(s.blocks, id);
    assert Clean(s.blocks[r]);
    assert Exact(s.mem, s.blocks[r]) && Fresh(s.mem, s.prot, s.blocks[r]);
    if s.blocks[id].father.Some? { assert SonOf(s.blocks[id], s.blocks[r]); }
  }

  /** What `DBGetBlock` hands back; nothing when it cannot test, and when it has to compile again. */
  function Answer(s: State, a: nat, busy: bool): Option<Id>
    requires Shape(s)
  {
    if a !in s.direct then None
    else if MustTest(s, a) && (busy || !Unchanged(s, Root(s.blocks, s.direct[a]))) then None
    else Some(s.direct[a])
  }

  /** A block that is handed back and may run is fresh, whatever the guest wrote before. */
  lemma AnswersAreFresh(s: State, a: nat, busy: bool)
    requires Inv(s) && (s.compile == Idle || busy) && Answer(s, a, busy).Some?
    ensures var t, id := Lookup(s, a, busy), Answer(s, a, busy).value;
      id in t.blocks && (t.blocks[id].done && t.blocks[id].native ==>
        && Root(t.blocks, id) in t.blocks
        && var f := t.blocks[Root(t.blocks, id)];
        && f.start <= a < f.start + f.size
        && Fresh(t.mem, t.prot, f) && X31.Hash(f.src) == f.hash)
  {
    var t, id := Lookup(s, a, busy), s.direct[a];
    LookupKeeps(s, a, busy);
    AnswerIsClean(s, a, busy);
    if t.blocks[id].done && t.blocks[id].native {
      hide SlotsOk, FamiliesOk, JumpsOk, Indexed, Bounded, Exclusive, CompileOk, Lookup, Answer, X31.Hash, Closed;
      var r := Root(t.blocks, id);
      assert Exact(t.mem, t.blocks[r]) && Fresh(t.mem, t.prot, t.blocks[r]);
    }
  }

  lemma AnswerIsClean(s: State, a: nat, busy: bool)
    requires Inv(s) && (s.compile == Idle || busy) && Answer(s, a, busy).Some?
    ensures var t, id := Lookup(s, a, busy), s.direct[a];
      id in t.blocks && (t.blocks[id].done && t.blocks[id].native ==>
        && Root(t.blocks, id) in t.blocks
        && var f := t.blocks[Root(t.blocks, id)]; Clean(f) && f.start <= a < f.start + f.size)
  {
    hide JumpsOk, Bounded, Exclusive, CompileOk, Coherent, X31.Hash, Protect, AddJumps, FamiliesOk, SlotsOk, AllExact, Indexed, Unchanged;
    AnswerFamily(s, a);
  }

  lemma AnswerFamily(s: State, a: nat)
    requires Inv(s) && a in s.direct
    ensures var id := s.direct[a];
      && id in s.blocks && Root(s.blocks, id) in s.blocks
      && (s.blocks[id].native ==>
            var f := s.blocks[Root(s.blocks, id)]; Father(f) && f.done && f.start <= a < f.start + f.size)
  {
    var id := s.direct[a];
    if s.blocks[id].father.Some? { assert SonOf(s.blocks[id], s.blocks[s.blocks[id].father.value]); }
    var r := Root(s.blocks, id);
    if s.blocks[id].native { assert FoundEverywhere(s.lists, s.blocks[r]) && Exact(s.mem, s.blocks[r]); }
  }

  /** A dirty block whose bytes differ from the translated ones in a single place never survives a lookup. */
  lemma OneByteInvalidates(s: State, a: nat, f: Id, i: nat, v: Byte)
    requires Inv(s) && MustTest(s, a) && f == Root(s.blocks, s.direct[a]) && f in s.blocks
    requires var b := s.blocks[f];
      i < |b.src| && b.src[i] != v && b.start + b.size <= |s.mem| && Bytes(s.mem, b) == b.src[i := v]
    ensures Lookup(s, a, false) == Free(s, f)
  {
    hide *;
    HashOfSource(s, a, f);
    X31.OneByteDetected(s.blocks[f].src, i, v);
    LookupDrops(s, a, f);
  }

  /** A dirty block survives a lookup exactly when the numbers that its bytes of now and those it was
      translated from stand for, as digits in base 31, differ by a multiple of 2^32. */
  lemma SurvivesIff(s: State, a: nat, f: Id)
    requires Inv(s) && MustTest(s, a) && f == Root(s.blocks, s.direct[a])
    ensures f in s.blocks && s.blocks[f].start + s.blocks[f].size <= |s.mem|
    ensures f in Lookup(s, a, false).blocks
      <==> (X31.Digits(Bytes(s.mem, s.blocks[f])) - X31.Digits(s.blocks[f].src)) % X31.WORD == 0
  {
    hide *;
    HashOfSource(s, a, f);
    LookupDrops(s, a, f);
    LookupStays(s, a, f);
    FreeDrops(s, f);
    X31.SameHashIff(Bytes(s.mem, s.blocks[f]), s.blocks[f].src);
  }

  lemma FreeDrops(s: State, f: Id)
    requires f in s.blocks
    ensures f !in Free(s, f).blocks
  {}

  lemma LookupStays(s: State, a: nat, f: Id)
    requires Inv(s) && MustTest(s, a) && f == Root(s.blocks, s.direct[a]) && f in s.blocks
    requires s.blocks[f].start + s.blocks[f].size <= |s.mem|
    ensures X31.Hash(Bytes(s.mem, s.blocks[f])) == s.blocks[f].hash ==> f in Lookup(s, a, false).blocks
  {
    hide FamiliesOk, X31.Hash, Free, SlotsOk, CompileShape, Coherent, Indexed, JumpsOk, Bounded, CompileOk, Exclusive;
  }

  lemma LookupDrops(s: State, a: nat, f: Id)
    requires Inv(s) && MustTest(s, a) && f == Root(s.blocks, s.direct[a]) && f in s.blocks
    ensures s.blocks[f].start + s.blocks[f].size <= |s.mem|
    ensures X31.Hash(Bytes(s.mem, s.blocks[f])) != s.blocks[f].hash ==> Lookup(s, a, false) == Free(s, f)
  {
    hide FamiliesOk, X31.Hash, Free, Validate, SlotsOk, CompileShape, Coherent, Indexed, JumpsOk, Bounded, CompileOk, Exclusive;
    TestedFather(s, a);
    assert Exact(s.mem, s.blocks[f]);
  }

  lemma HashOfSource(s: State, a: nat, f: Id)
    requires Inv(s) && MustTest(s, a) && f == Root(s.blocks, s.direct[a])
    ensures f in s.blocks && X31.Hash(s.blocks[f].src) == s.blocks[f].hash
  {
    TestedFather(s, a);
    hide X31.Hash;
    assert Exact(s.mem, s.blocks[f]);
  }

  // ---- exactly when an install is safe

  /** Every chunk with a watched page of `[a, end)` has a list with an array. */
  ghost predicate Traceable(ls: Lists, prot: seq<bv8>, a: nat, end: nat) {
    forall p :: PageOf(a) <= p < PageEnd(end) && p < |prot| && Watched(prot[p]) ==> HasArray(ls, ChunkOf(p * PAGE))
  }

  /** Every such chunk has one, or has a list that gets one from a son among `addrs`. */
  ghost predicate WillBeTraceable(ls: Lists, addrs: seq<nat>, prot: seq<bv8>, a: nat, end: nat) {
    forall p :: PageOf(a) <= p < PageEnd(end) && p < |prot| && Watched(prot[p]) ==>
      GetsArray(ls, addrs, ChunkOf(p * PAGE))
  }

  lemma TraceableAtInstall(s: State, f: Id, a: nat, end: nat, addrs: seq<nat>)
    requires Compiling(s, f, a, end, addrs) && Recheck(s)
    ensures var t := Finish(s, addrs);
      WillBeTraceable(s.lists, addrs, s.prot, a, end) <==> Traceable(t.lists, t.prot, a, end)
  {
    FinishLists(s, f, a, end, addrs);
    InstalledKeeps(s, f, a, end, addrs);
    hide Inv, Finish, GetsArray, ChunkOf, PageOf, PageEnd, Watched, ListsAtInstall, Recheck;
    var t := Finish(s, addrs);
    forall p | PageOf(a) <= p < PageEnd(end) && p < |s.prot| && Watched(s.prot[p])
      ensures HasArray(t.lists, ChunkOf(p * PAGE)) <==> GetsArray(s.lists, addrs, ChunkOf(p * PAGE))
    {
      InstallArrays(s, f, a, end, addrs, ChunkOf(p * PAGE));
      RecordArrays(s, f, a, end, addrs, ChunkOf(p * PAGE));
    }
  }

  lemma RecordArrays(s: State, f: Id, a: nat, end: nat, addrs: seq<nat>, c: nat)
    requires Compiling(s, f, a, end, addrs)
    ensures HasArray(Record(AddSons(Fill(s), f, end, addrs), a, end - a).lists, c)
      <==> HasArray(ListsAtInstall(s, f, a, end, addrs), c)
  {}

  /** Whatever page the guest touches next, the cache stays coherent. */
  ghost predicate SurvivesFaults(s: State) {
    forall page: nat :: var t := Fault(s, page); Coherent(t.mem, t.prot, t.blocks)
  }

  lemma FaultIgnored(s: State, f: Id, page: nat)
    requires f in s.blocks && Clean(s.blocks[f]) && Meets(s.blocks[f], page) && page < |s.prot| && Watched(s.prot[page])
    requires !HasArray(s.lists, ChunkOf(page * PAGE))
    ensures var t := Fault(s, page); !Coherent(t.mem, t.prot, t.blocks)
  {
    var t := Fault(s, page);
    PageLaws(s.prot[page]);
    assert RangeHits(s, ChunkOf(page * PAGE), page * PAGE, PAGE) == {};
    assert f in t.blocks && t.blocks[f] == s.blocks[f];
    assert GuestWritable(t.prot[page]);
    hide X31.Hash;
    assert !Fresh(t.mem, t.prot, t.blocks[f]);
  }

  /** The state `Finish` leaves differs from `Installed` in the jump table only. */
  lemma FinishLists(s: State, f: Id, a: nat, end: nat, addrs: seq<nat>)
    requires Compiling(s, f, a, end, addrs) && Recheck(s)
    ensures var t, u := Finish(s, addrs), Installed(s, f, a, end, addrs);
      && t == u.(jump := t.jump)
      && t.lists == Record(AddSons(Fill(s), f, end, addrs), a, end - a).lists
  {
    FinishUnfolds(s, f, a, end, addrs);
    hide Inv, Shape, Recheck, Finish, Record, AddSons;
  }

  lemma OthersFindable(s: State, f: Id, a: nat, end: nat, addrs: seq<nat>)
    requires Compiling(s, f, a, end, addrs) && Recheck(s)
    ensures var t := Installed(s, f, a, end, addrs);
      forall id :: id in t.blocks && Father(t.blocks[id]) && id != f ==> FoundEverywhere(t.lists, t.blocks[id])
  {
    hide Compiling, Inv, Shape, Pending, Sound, Recheck, Fill, AddSons, FoundEverywhere, Bounded, Grown, Ready, Indexed, ListsGrow, Father;
    FillPends(s, f, a, end, addrs);
    FillOthers(s, f, a, end, addrs);
    SonsPend(Fill(s), f, a, end, addrs);
    var t1 := AddSons(Fill(s), f, end, addrs);
    GrownOthers(Fill(s), t1, f);
    RecordGrows(t1, a, end - a);
    var t := Installed(s, f, a, end, addrs);
    forall id | id in t.blocks && Father(t.blocks[id]) && id != f ensures FoundEverywhere(t.lists, t.blocks[id]) {
      FoundGrows(t1.lists, t.lists, t1.blocks[id]);
    }
  }

  lemma OwnFindable(s: State, f: Id, a: nat, end: nat, addrs: seq<nat>, c: nat)
    requires Compiling(s, f, a, end, addrs) && Recheck(s)
    requires ChunkOf(a) <= c <= ChunkOf(end - 1)
    ensures var t := Installed(s, f, a, end, addrs); Findable(t.lists, t.blocks[f], c) <==> HasArray(t.lists, c)
  {
    hide Compiling, Inv, Shape, Sound, Recheck, Fill, AddSons, Bounded, Grown;
    FillPends(s, f, a, end, addrs);
    SonsPend(Fill(s), f, a, end, addrs);
    var t1 := AddSons(Fill(s), f, end, addrs);
    SlotChunk(t1, f);
    RecordFinds(t1, t1.blocks[f], c);
  }

  lemma SlotChunk(s: State, f: Id)
    requires Sound(s) && f in s.blocks
    ensures ChunkOf(s.blocks[f].start) in s.lists
  {
    assert InSlot(s.blocks[f], f, s.direct, s.next, |s.mem|);
  }

  /** An install is safe against the next fault exactly when each chunk of its watched pages has an array
      before, or gets one from a son. */
  lemma InstallIsSafeIff(s: State, f: Id, a: nat, end: nat, addrs: seq<nat>)
    requires Compiling(s, f, a, end, addrs) && Recheck(s)
    ensures SurvivesFaults(Finish(s, addrs)) <==> WillBeTraceable(s.lists, addrs, s.prot, a, end)
  {
    hide *;
    TraceableAtInstall(s, f, a, end, addrs);
    SafeIfTraceable(s, f, a, end, addrs);
  }

  lemma SafeIfTraceable(s: State, f: Id, a: nat, end: nat, addrs: seq<nat>)
    requires Compiling(s, f, a, end, addrs) && Recheck(s)
    ensures var t := Finish(s, addrs); SurvivesFaults(t) <==> Traceable(t.lists, t.prot, a, end)
  {
    var t, u := Finish(s, addrs), Installed(s, f, a, end, addrs);
    FinishLists(s, f, a, end, addrs);
    InstalledKeeps(s, f, a, end, addrs);
    OthersFindable(s, f, a, end, addrs);
    hide Finish, Installed, Inv, Compiling, Recheck, Findable, FoundEverywhere, Coherent, Exact, SlotsOk, FamiliesOk, JumpsOk, Fault;
    if Traceable(t.lists, t.prot, a, end) {
      forall page: nat ensures var v := Fault(t, page); Coherent(v.mem, v.prot, v.blocks) {
        SafeFault(s, t, f, a, end, addrs, page);
      }
    }
    if p :| PageOf(a) <= p < PageEnd(end) && p < |t.prot| && Watched(t.prot[p]) && !HasArray(t.lists, ChunkOf(p * PAGE)) {
      FaultIgnored(t, f, p);
    }
  }

  lemma SafeFault(s: State, t: State, f: Id, a: nat, end: nat, addrs: seq<nat>, page: nat)
    requires Compiling(s, f, a, end, addrs) && Recheck(s)
    requires var u := Installed(s, f, a, end, addrs); t == u.(jump := t.jump)
    requires Traceable(t.lists, t.prot, a, end)
    ensures var v := Fault(t, page); Coherent(v.mem, v.prot, v.blocks)
  {
    var u := Installed(s, f, a, end, addrs);
    InstalledKeeps(s, f, a, end, addrs);
    OthersFindable(s, f, a, end, addrs);
    hide Installed, Inv, Compiling, Recheck, Findable, Coherent, SlotsOk, FamiliesOk, JumpsOk, HasArray;
    if page < |t.prot| && Watched(t.prot[page]) {
      forall id | id in t.blocks && Clean(t.blocks[id]) && Meets(t.blocks[id], page)
        ensures Findable(t.lists, t.blocks[id], ChunkOf(page * PAGE))
      {
        var b := t.blocks[id];
        assert Exact(t.mem, b);
        PageChunk(b.start, b.size, page);
        assert Enters(b, ChunkOf(page * PAGE));
        if id == f {
          OwnFindable(s, f, a, end, addrs, ChunkOf(page * PAGE));
        } else {
          assert FoundEverywhere(t.lists, b);
        }
      }
      FaultCoherent(t, page);
    } else {
      assert Fault(t, page) == t;
    }
  }
}
