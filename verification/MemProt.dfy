/** The protection of every page of the 48-bit address space, kept in chunks that are made when needed
    and share one default until then. */
module MemProt {

  const CHUNKS: nat := 0x10_0000
  const PER: nat := 0x1_0000
  const PAGES: nat := 0x10_0000_0000
  const PAGE: nat := 0x1000
  const WORD: nat := 0x1_0000_0000_0000_0000
  const MEM: nat := 0x1_0000_0000_0000
  const PROT_DYNAREC: bv8 := 0x80

  /** The pages from `lo` to `hi`, both included; none when `hi` is below `lo`. */
  datatype Span = Span(lo: nat, hi: nat)

  /** The pages of `size` bytes from `addr`: the last address wraps around, and what lies above the
      tracked space is cut off. */
  function Pages(addr: nat, size: nat): Span {
    var last := (addr + size + WORD - 1) % WORD / PAGE;
    Span(addr / PAGE, if last >= PAGES then PAGES - 1 else last)
  }

  /** A new protection; whether the page is watched for writes stays. */
  function Updated(prot: bv8, was: bv8): bv8 {
    var dyn := was & PROT_DYNAREC;
    prot | dyn
  }

  /** A page is watched for writes. */
  predicate Watched(p: bv8) { p & PROT_DYNAREC != 0 }

  /** Two protections are the same but for the watching. */
  predicate SameAccess(p: bv8, q: bv8) { (p ^ q) & !PROT_DYNAREC == 0 }

  /** What an update leaves of page `was`: the access is that of `prot`, and the page is watched if it
      was, or if `prot` says so. */
  predicate AccessOf(now: bv8, prot: bv8, was: bv8) {
    SameAccess(now, prot) && (Watched(now) <==> Watched(prot) || Watched(was))
  }

  lemma UpdatedMeans(prot: bv8, was: bv8)
    ensures AccessOf(Updated(prot, was), prot, was)
  {}

  /** There is only one such protection. */
  lemma AccessUnique(p: bv8, q: bv8, prot: bv8, was: bv8)
    requires AccessOf(p, prot, was) && AccessOf(q, prot, was)
    ensures p == q
  {}

  predicate Covers(s: Span, i: nat) { s.lo <= i <= s.hi }

  lemma Digits(i: nat)
    requires i < PAGES
    ensures i / PER < CHUNKS && i % PER < PER && i == i / PER * PER + i % PER
  {}

  /** For the pages that a byte range really covers. */
  lemma PagesMean(addr: nat, size: nat, i: nat)
    requires 0 < size && addr + size <= MEM && i < PAGES
    ensures Covers(Pages(addr, size), i) <==> exists a :: addr <= a < addr + size && a / PAGE == i
  {
    if Covers(Pages(addr, size), i) {
      var a := if addr / PAGE == i then addr else i * PAGE;
      assert a / PAGE == i;
    }
  }

  /** A request of no bytes touches no page exactly when it starts on a page other than the first; at
      address 0 the last address wraps around, and it touches every page. */
  lemma PagesOfNothing(addr: nat)
    requires addr < MEM
    ensures (forall i :: 0 <= i < PAGES ==> !Covers(Pages(addr, 0), i)) <==> addr % PAGE == 0 && addr > 0
    ensures forall i :: 0 <= i < PAGES ==> Covers(Pages(0, 0), i)
  {
    assert Covers(Pages(0, 0), 0);
    if addr % PAGE != 0 { assert Covers(Pages(addr, 0), addr / PAGE); }
  }

  class Table {
    const memprot: array<array<bv8>>
    const memprotDefault: array<bv8>

    /** The chunks of its own that the table has. */
    ghost function Own(): set<array<bv8>>
      reads memprot
    {
      set k | 0 <= k < memprot.Length && memprot[k] != memprotDefault :: memprot[k]
    }

    ghost predicate Valid()
      reads memprot, memprotDefault, Own()
    {
      && memprot.Length == CHUNKS && memprotDefault.Length == PER
      && (forall j :: 0 <= j < PER ==> memprotDefault[j] == 0)
      && Apart()
    }

    ghost predicate Apart()
      requires memprot.Length == CHUNKS
      reads memprot
    {
      && (forall k :: 0 <= k < CHUNKS ==> memprot[k].Length == PER)
      && forall k, l :: 0 <= k < l < CHUNKS && memprot[k] == memprot[l] ==> memprot[k] == memprotDefault
    }

    /** The flat map: the protection of page `i`. */
    ghost function Page(i: nat): bv8
      requires i < PAGES && memprot.Length == CHUNKS && forall k :: 0 <= k < CHUNKS ==> memprot[k].Length == PER
      reads memprot, memprot[i / PER]
    {
      Digits(i);
      memprot[i / PER][i % PER]
    }

    constructor ()
      ensures Valid() && fresh(memprot) && fresh(memprotDefault) && Own() == {}
      ensures forall i :: 0 <= i < PAGES ==> Page(i) == 0
    {
      var d := new bv8[PER](_ => 0);
      memprotDefault := d;
      memprot := new array<bv8>[CHUNKS](_ => d);
    }

    /** Gives every chunk from `lo` to `hi` an array of its own; the flat map stays. */
    method MakeOwn(lo: nat, hi: nat)
      requires Valid() && hi < CHUNKS
      modifies memprot
      ensures Valid()
      ensures forall k :: lo <= k <= hi ==> memprot[k] != memprotDefault
      ensures forall k :: 0 <= k < CHUNKS ==> memprot[k] == old(memprot[k]) || (fresh(memprot[k]) && lo <= k <= hi)
      ensures forall i :: 0 <= i < PAGES ==> Page(i) == old(Page(i))
    {
      var i := lo;
      while i <= hi
        invariant i <= hi + 1 || i == lo
        invariant Valid()
        invariant forall k :: lo <= k < i ==> memprot[k] != memprotDefault
        invariant forall k :: 0 <= k < CHUNKS ==> memprot[k] == old(memprot[k]) || (fresh(memprot[k]) && lo <= k <= hi)
        invariant forall i :: 0 <= i < PAGES ==> Page(i) == old(Page(i))
      {
        if memprot[i] == memprotDefault {
          var newblock := new bv8[PER](_ => 0);
          memprot[i] := newblock;
        }
        i := i + 1;
      }
    }

    method SetAt(k: nat, j: nat, v: bv8)
      requires Valid() && k < CHUNKS && j < PER && memprot[k] != memprotDefault
      modifies memprot[k]
      ensures Valid()
      ensures forall i :: 0 <= i < PAGES ==> Page(i) == if i == k * PER + j then v else old(Page(i))
    {
      memprot[k][j] := v;
      forall i | 0 <= i < PAGES ensures Page(i) == if i == k * PER + j then v else old(Page(i)) {
        Digits(i);
      }
    }

    /** The chunks are those of before, or new ones. */
    twostate predicate Kept()
      reads memprot
    {
      forall k :: 0 <= k < memprot.Length && memprot[k] != memprotDefault ==> memprot[k] in old(Own()) || fresh(memprot[k])
    }

    method UpdateProtection(addr: nat, size: nat, prot: bv8)
      requires Valid()
      modifies memprot, Own()
      ensures Valid()
      ensures forall i :: 0 <= i < PAGES ==>
        if Covers(Pages(addr, size), i) then AccessOf(Page(i), prot, old(Page(i))) else Page(i) == old(Page(i))
    {
      hide Updated, AccessOf;
      var idx := addr / PAGE;
      var end := (addr + size + WORD - 1) % WORD / PAGE;
      if end >= PAGES { end := PAGES - 1; }
      if end < idx { return; }
      MakeOwn(idx / PER, end / PER);
      var i := idx;
      while i <= end
        invariant idx <= i <= end + 1 && Valid() && Kept()
        invariant forall k :: idx / PER <= k <= end / PER ==> memprot[k] != memprotDefault
        invariant forall j :: 0 <= j < PAGES ==>
          if idx <= j < i then AccessOf(Page(j), prot, old(Page(j))) else Page(j) == old(Page(j))
      {
        Digits(i);
        UpdatedMeans(prot, memprot[i / PER][i % PER]);
        SetAt(i / PER, i % PER, Updated(prot, memprot[i / PER][i % PER]));
        i := i + 1;
      }
    }

    method SetProtection(addr: nat, size: nat, prot: bv8)
      requires Valid()
      modifies memprot, Own()
      ensures Valid()
      ensures forall i :: 0 <= i < PAGES ==> Page(i) == if Covers(Pages(addr, size), i) then prot else old(Page(i))
    {
      var idx := addr / PAGE;
      var end := (addr + size + WORD - 1) % WORD / PAGE;
      if end >= PAGES { end := PAGES - 1; }
      if end < idx { return; }
      MakeOwn(idx / PER, end / PER);
      var i := idx;
      while i <= end
        invariant idx <= i <= end + 1 && Valid() && Kept()
        invariant forall k :: idx / PER <= k <= end / PER ==> memprot[k] != memprotDefault
        invariant forall j :: 0 <= j < PAGES ==> Page(j) == if idx <= j < i then prot else old(Page(j))
      {
        Digits(i);
        SetAt(i / PER, i % PER, prot);
        i := i + 1;
      }
    }

    /** Protects the pages that have no protection yet, a chunk at a time. */
    method AllocProtection(addr: nat, size: nat, prot: bv8)
      requires Valid()
      modifies memprot, Own()
      ensures Valid()
      ensures forall i :: 0 <= i < PAGES ==>
        Page(i) == if Covers(Pages(addr, size), i) && old(Page(i)) == 0 then prot else old(Page(i))
    {
      var idx := addr / PAGE;
      var end := (addr + size + WORD - 1) % WORD / PAGE;
      if end >= PAGES { end := PAGES - 1; }
      if end < idx { return; }
      MakeOwn(idx / PER, end / PER);
      var i := idx;
      while i <= end
        invariant idx <= i <= end + 1 && Valid() && Kept()
        invariant forall k :: idx / PER <= k <= end / PER ==> memprot[k] != memprotDefault
        invariant forall j :: 0 <= j < PAGES ==>
          Page(j) == if idx <= j < i && old(Page(j)) == 0 then prot else old(Page(j))
      {
        var start := i % PER;
        var finish := (if i - i % PER + PER - 1 < end then PER - 1 else end) % PER;
        ChunkEnd(i, end);
        AllocChunk(i, start, finish, prot);
        i := i + (finish - start);
        i := i + 1;
      }
    }

    /** The part of one chunk from slot `start` to slot `finish`. */
    method AllocChunk(i: nat, start: nat, finish: nat, prot: bv8)
      requires Valid() && i < PAGES && start == i % PER <= finish < PER && memprot[i / PER] != memprotDefault
      modifies memprot[i / PER]
      ensures Valid()
      ensures forall j :: 0 <= j < PAGES ==>
        Page(j) == if i <= j <= i + (finish - start) && old(Page(j)) == 0 then prot else old(Page(j))
    {
      Digits(i);
      var ii := start;
      while ii <= finish
        invariant start <= ii <= finish + 1 && Valid()
        invariant forall j :: 0 <= j < PAGES ==>
          Page(j) == if i <= j < i + (ii - start) && old(Page(j)) == 0 then prot else old(Page(j))
      {
        ghost var at := i / PER * PER + ii;
        InChunk(i / PER, ii);
        assert memprot[i / PER][ii] == Page(at);
        if memprot[i / PER][ii] == 0 {
          SetAt(i / PER, ii, prot);
        }
        ii := ii + 1;
      }
    }

    /** Whether a block is all zero, looked at four bytes at a time. */
    static method BlockEmpty(mem: array<bv8>) returns (r: bool)
      requires mem.Length == PER
      ensures r <==> forall j :: 0 <= j < PER ==> mem[j] == 0
    {
      var i := 0;
      while i < PER / 4
        invariant i <= PER / 4
        invariant forall j :: 0 <= j < 4 * i ==> mem[j] == 0
      {
        if mem[4 * i] != 0 || mem[4 * i + 1] != 0 || mem[4 * i + 2] != 0 || mem[4 * i + 3] != 0 {
          return false;
        }
        i := i + 1;
      }
      return true;
    }

    /** Chunk `k` is the default, or has something in it. */
    ghost predicate Worth(k: nat)
      requires memprot.Length == CHUNKS && k < CHUNKS && memprot[k].Length == PER
      reads memprot, memprot[k]
    {
      memprot[k] == memprotDefault || exists j :: 0 <= j < PER && memprot[k][j] != 0
    }

    /** Takes the protection off, and gives chunks back in which none is left. */
    method FreeProtection(addr: nat, size: nat)
      requires Valid()
      modifies memprot, Own()
      ensures Valid()
      ensures forall i :: 0 <= i < PAGES ==> Page(i) == if Covers(Pages(addr, size), i) then 0 else old(Page(i))
      ensures Own() <= old(Own())
      ensures var s := Pages(addr, size); s.lo <= s.hi ==> forall k :: s.lo / PER <= k <= s.hi / PER ==> Worth(k)
    {
      var idx := addr / PAGE;
      var end := (addr + size + WORD - 1) % WORD / PAGE;
      if end >= PAGES { end := PAGES - 1; }
      if end < idx { return; }
      var i := idx;
      while i <= end
        invariant idx <= i <= end + 1 && Valid() && Own() <= old(Own())
        invariant forall j :: 0 <= j < PAGES ==> Page(j) == if idx <= j < i then 0 else old(Page(j))
        invariant i > idx ==> forall k :: idx / PER <= k <= (i - 1) / PER ==> Worth(k)
        decreases end + 1 - i
      {
        i := FreeStep(i, end);
      }
    }

    /** Clears part of a chunk of its own; an empty one gives way to the default. */
    method ClearChunk(i: nat, start: nat, finish: nat)
      requires Valid() && i < PAGES && start == i % PER <= finish < PER && memprot[i / PER] != memprotDefault
      modifies memprot, memprot[i / PER]
      ensures Valid() && Own() <= old(Own()) && Worth(i / PER)
      ensures forall k :: 0 <= k < CHUNKS && k != i / PER ==> memprot[k] == old(memprot[k]) && (old(Worth(k)) ==> Worth(k))
      ensures forall j :: 0 <= j < PAGES ==> Page(j) == if i <= j <= i + (finish - start) then 0 else old(Page(j))
    {
      Digits(i);
      var block := memprot[i / PER];
      var ii := start;
      while ii <= finish
        invariant start <= ii <= finish + 1 && Valid() && unchanged(memprot)
        invariant forall j :: 0 <= j < PAGES ==> Page(j) == if i <= j < i + (ii - start) then 0 else old(Page(j))
      {
        InChunk(i / PER, ii);
        SetAt(i / PER, ii, 0);
        ii := ii + 1;
      }
      var empty := BlockEmpty(block);
      if empty {
        memprot[i / PER] := memprotDefault;
      }
    }

    /** Deals with page `i`, or with all of its chunk up to `end`: says which page is next. */
    method FreeStep(i: nat, end: nat) returns (next: nat)
      requires Valid() && i <= end < PAGES
      modifies memprot, Own()
      ensures Valid() && Own() <= old(Own())
      ensures i < next <= end + 1 && (next - 1) / PER == i / PER < CHUNKS
      ensures forall j :: 0 <= j < PAGES ==> Page(j) == if i <= j < next then 0 else old(Page(j))
      ensures Worth(i / PER) && forall k :: 0 <= k < CHUNKS && old(Worth(k)) ==> Worth(k)
    {
      next := i;
      var key := i / PER;
      ChunkEnd(i, end);
      Digits(i);
      if memprot[key] != memprotDefault {
        var start := i % PER;
        var finish := (if i - i % PER + PER - 1 < end then PER - 1 else end) % PER;
        ClearChunk(i, start, finish);
        next := next + (finish - start);
      }
      next := next + 1;
    }

    method GetProtection(addr: nat) returns (r: bv8)
      requires Valid()
      ensures r == if addr >= MEM then 0 else Page(addr / PAGE)
    {
      if addr >= MEM { return 0; }
      var idx := addr / PAGE;
      Digits(idx);
      r := memprot[idx / PER][idx % PER];
    }
  }

  lemma InChunk(k: nat, j: nat)
    requires k < CHUNKS && j < PER
    ensures (k * PER + j) / PER == k && (k * PER + j) % PER == j && k * PER + j < PAGES
  {}

  /** A step over the rest of a chunk ends at its end or at the end of the range. */
  lemma ChunkEnd(i: nat, end: nat)
    requires i <= end < PAGES
    ensures var finish := (if i - i % PER + PER - 1 < end then PER - 1 else end) % PER;
      && i % PER <= finish && i + (finish - i % PER) <= end
      && (i + (finish - i % PER) == end || (i + (finish - i % PER) + 1) % PER == 0)
      && (i + (finish - i % PER)) / PER == i / PER
      && i / PER <= end / PER < CHUNKS
  {}
}
