/** What the operations on the translation cache do, said without their own definitions: which block a
    lookup hands back, what becomes of a page's protection, and what each step leaves alone. */
module DynaLaws {
  import opened Common
  import opened DynaState
  import opened DynaInv
  import opened DynaInstall
  import opened DynaRuns
  import X31

  // ---- lookups

  /** The block that is handed back for an address starts there, and stands in its slot. */
  lemma AnswerStarts(s: State, a: nat, busy: bool)
    requires Inv(s) && (s.compile == Idle || busy) && Answer(s, a, busy).Some?
    ensures var t, id := Lookup(s, a, busy), Answer(s, a, busy).value;
      id in t.blocks && t.blocks[id].start == a && a in t.direct && t.direct[a] == id
  {
    hide JumpsOk, Bounded, Exclusive, CompileOk, Coherent, X31.Hash, Protect, AddJumps, FamiliesOk, AllExact, Indexed, Unchanged, CompileShape;
    AnswerFamily(s, a);
  }

  /** The father of a block, or itself, has to be tested before the block may run. */
  predicate NeedsTest(s: State, id: Id) {
    && id in s.blocks && s.blocks[id].native
    && var f := if s.blocks[id].father.Some? then s.blocks[id].father.value else id;
       f in s.blocks && s.blocks[f].done && s.blocks[f].needTest
  }

  /** The bytes of the father of a block, or its own, are those it was made from, as far as the hash can
      tell. */
  predicate PassesTest(s: State, id: Id) {
    && id in s.blocks
    && var f := if s.blocks[id].father.Some? then s.blocks[id].father.value else id;
       && f in s.blocks && s.blocks[f].start + s.blocks[f].size <= |s.mem|
       && (X31.Digits(Bytes(s.mem, s.blocks[f])) - X31.Digits(s.blocks[f].src)) % X31.WORD == 0
  }

  /** There is an answer exactly when the slot holds a block that needs no test, or that passes it while
      the mutex is free. */
  lemma AnswerIff(s: State, a: nat, busy: bool)
    requires Inv(s)
    ensures Answer(s, a, busy).Some?
      <==> a in s.direct && (NeedsTest(s, s.direct[a]) ==> !busy && PassesTest(s, s.direct[a]))
  {
    if a in s.direct {
      AnswerFamily(s, a);
      TestIs(s, a);
      if MustTest(s, a) { TestedBytes(s, a, Root(s.blocks, s.direct[a])); }
    }
  }

  lemma TestIs(s: State, a: nat)
    requires Inv(s) && a in s.direct && s.direct[a] in s.blocks && Root(s.blocks, s.direct[a]) in s.blocks
    ensures MustTest(s, a) <==> NeedsTest(s, s.direct[a])
  {}

  lemma TestedBytes(s: State, a: nat, f: Id)
    requires Inv(s) && Shape(s) && MustTest(s, a) && a in s.direct && s.direct[a] in s.blocks && f == Root(s.blocks, s.direct[a])
    ensures f in s.blocks && (Unchanged(s, f) <==> PassesTest(s, s.direct[a]))
  {
    hide *;
    HashOfSource(s, a, f);
    LookupDrops(s, a, f);
    X31.SameHashIff(Bytes(s.mem, s.blocks[f]), s.blocks[f].src);
    UnchangedIs(s, s.direct[a], f);
  }

  lemma UnchangedIs(s: State, id: Id, f: Id)
    requires Shape(s) && id in s.blocks && f == Root(s.blocks, id) && f in s.blocks
    requires s.blocks[f].start + s.blocks[f].size <= |s.mem| && X31.Hash(s.blocks[f].src) == s.blocks[f].hash
    requires X31.Hash(Bytes(s.mem, s.blocks[f])) == X31.Hash(s.blocks[f].src)
      <==> (X31.Digits(Bytes(s.mem, s.blocks[f])) - X31.Digits(s.blocks[f].src)) % X31.WORD == 0
    ensures Unchanged(s, f) <==> PassesTest(s, id)
  {
    hide Shape, X31.Hash, X31.Digits;
  }

  // ---- page protection

  const ACCESS: bv8 := 0x7d

  /** A page is closed to writes: one that could be written, or was unknown, is watched from now on and
      keeps its other bits (an unknown one counts as open to everything); any other stays as it was. */
  predicate ClosedAs(was: bv8, now: bv8) {
    if GuestWritable(was) then
      && Watched(now) && !Writable(now)
      && now & ACCESS == (if was == 0 then PROT_RWX else was) & ACCESS
    else now == was
  }

  /** A page is given back: one that was watched can be written and is watched no more, with its other
      bits kept; any other stays as it was. */
  predicate OpenedAs(was: bv8, now: bv8) {
    if Watched(was) then !Watched(now) && Writable(now) && now & ACCESS == was & ACCESS else now == was
  }

  lemma ClosingMeans(p: bv8, q: bv8)
    ensures ProtectPage(p) == q <==> ClosedAs(p, q)
  {}

  lemma OpeningMeans(p: bv8, q: bv8)
    ensures UnprotectPage(p) == q <==> OpenedAs(p, q)
  {}

  /** Giving back undoes closing exactly for pages that were not watched before. */
  lemma ClosedThenOpened(p: bv8)
    ensures UnprotectPage(ProtectPage(0)) == PROT_RWX
    ensures p != 0 ==> (UnprotectPage(ProtectPage(p)) == p <==> !Watched(p))
  {}

  lemma ProtectMeans(prot: seq<bv8>, a: nat, e: nat, p: nat)
    requires p < |prot|
    ensures if PageOf(a) <= p < PageEnd(e) then ClosedAs(prot[p], Protect(prot, a, e)[p])
            else Protect(prot, a, e)[p] == prot[p]
  {
    ClosingMeans(prot[p], ProtectPage(prot[p]));
  }

  /** Faults on the pages of a range, one after another. */
  function Faults(s: State, first: nat, n: nat): (t: State)
    ensures |t.prot| == |s.prot|
  {
    if n == 0 then s else Fault(Faults(s, first, n - 1), first + n - 1)
  }

  lemma {:induction false} FaultsMean(s: State, first: nat, n: nat, p: nat)
    requires p < |s.prot|
    ensures var now := Faults(s, first, n).prot[p];
      if first <= p < first + n then OpenedAs(s.prot[p], now) else now == s.prot[p]
    decreases n
  {
    hide Fault, OpenedAs;
    if n > 0 {
      FaultsMean(s, first, n - 1, p);
      FaultProt(Faults(s, first, n - 1), first + n - 1, p);
    }
  }

  lemma FaultProt(s: State, page: nat, p: nat)
    requires p < |s.prot|
    ensures |Fault(s, page).prot| == |s.prot|
    ensures if p == page then OpenedAs(s.prot[p], Fault(s, page).prot[p]) else Fault(s, page).prot[p] == s.prot[p]
  {
    OpeningMeans(s.prot[p], UnprotectPage(s.prot[p]));
  }

  /** Closing a range and faulting on all of its pages leaves every protection as it was, when no page
      was watched; unknown pages have become open to everything. */
  lemma RangeComesBack(s: State, a: nat, e: nat, p: nat)
    requires p < |s.prot| && a < e && forall q :: 0 <= q < |s.prot| ==> !Watched(s.prot[q])
    ensures var t := Faults(s.(prot := Protect(s.prot, a, e)), PageOf(a), PageEnd(e) - PageOf(a));
      t.prot[p] == if PageOf(a) <= p < PageEnd(e) && s.prot[p] == 0 then PROT_RWX else s.prot[p]
  {
    var u := s.(prot := Protect(s.prot, a, e));
    assert PageOf(a) <= PageEnd(e);
    FaultsMean(u, PageOf(a), PageEnd(e) - PageOf(a), p);
    ProtectMeans(s.prot, a, e, p);
    OpeningMeans(u.prot[p], UnprotectPage(u.prot[p]));
    ClosingMeans(s.prot[p], ProtectPage(s.prot[p]));
    ClosedThenOpened(s.prot[p]);
    hide Faults, Protect;
  }
}
