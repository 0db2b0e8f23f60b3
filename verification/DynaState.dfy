/** The state of the translation cache as a value, and one function per operation on it.
    `Dynarec.dfy` holds the operations themselves, which update this state in place. */
module DynaState {
  import opened Common
  import X31

  const PAGE: nat := 0x1000
  const CHUNK: nat := 0x10000
  const PTR: nat := 0x1_0000_0000_0000_0000
  const MEM: nat := 0x1_0000_0000_0000

  const PROT_WRITE: bv8 := 2
  const PROT_RWX: bv8 := 7
  const PROT_DYNAREC: bv8 := 0x80

  type Id = nat
  type Blocks = map<Id, Block>
  type Lists = map<nat, ChunkList>

  /** A translated block (no father) or a son, an extra entry point into its father's code.
      `native` says that `block` points to code, and `src` what guest bytes that code was made
      from; `revalidated` is set when the code has been kept on the strength of its hash alone. */
  datatype Block = Block(start: nat, size: nat, hash: nat, needTest: bool, done: bool,
                         sons: seq<Id>, father: Option<Id>,
                         native: bool, src: seq<Byte>, revalidated: bool)

  /** The list of one 64K chunk of guest addresses; `direct` tells whether its array exists. */
  datatype ChunkList = ChunkList(minstart: nat, maxend: nat, direct: bool)

  /** How far the one compile that can be under way has come. */
  datatype Compile =
    | Idle
    | Pass0(id: Id)
    | Placed(id: Id, end: nat)
    | Hashed(id: Id, end: nat, hash: nat, src: seq<Byte>)

  datatype State = State(mem: seq<Byte>, prot: seq<bv8>, lists: Lists,
                         blocks: Blocks, direct: map<nat, Id>, jump: map<nat, Id>,
                         compile: Compile, next: Id)

  function PageOf(a: nat): nat { a / PAGE }

  function ChunkOf(a: nat): nat { a / CHUNK }

  // ---- page protection

  predicate Writable(p: bv8) { p & PROT_WRITE != 0 }

  predicate Watched(p: bv8) { p & PROT_DYNAREC != 0 }

  /** A page the emulator knows nothing about may be writable. */
  predicate GuestWritable(p: bv8) { p == 0 || Writable(p) }

  function ProtectPage(p: bv8): bv8 {
    var q := if p == 0 then PROT_RWX else p;
    if Writable(q) then (q & !PROT_WRITE) | PROT_DYNAREC else p
  }

  function UnprotectPage(p: bv8): bv8 {
    if Watched(p) then (p & !PROT_DYNAREC) | PROT_WRITE else p
  }

  lemma PageLaws(p: bv8)
    ensures ProtectPage(p) != 0 && !Writable(ProtectPage(p))
    ensures Watched(p) && !Writable(p) ==> ProtectPage(p) == p
    ensures Watched(p) ==> Writable(UnprotectPage(p)) && !Watched(UnprotectPage(p))
    ensures !Watched(p) ==> UnprotectPage(p) == p
    ensures !GuestWritable(ProtectPage(p))
  {}

  /** `protectDB` on the pages of `[a, e)`; addresses past the tracked range are left alone. */
  function Protect(prot: seq<bv8>, a: nat, e: nat): (r: seq<bv8>)
    ensures |r| == |prot|
  {
    seq(|prot|, p requires 0 <= p < |prot| =>
      if PageOf(a) <= p < PageEnd(e) then ProtectPage(prot[p]) else prot[p])
  }

  /** One past the page of the last byte before `e`. */
  function PageEnd(e: nat): nat { (e + PAGE - 1) / PAGE }

  /** `isprotectedDB` */
  predicate IsProtected(prot: seq<bv8>, a: nat, e: nat) {
    forall p :: PageOf(a) <= p < PageEnd(e) && p < |prot| ==> !Writable(prot[p])
  }

  // ---- structure

  /** The record that carries `need_test` for a block: its father, or itself. */
  function Root(bs: Blocks, id: Id): (r: Id)
    requires id in bs
  {
    if bs[id].father.Some? then bs[id].father.value else id
  }

  /** A block sits in the slot of the address where it starts, and lies in tracked memory. */
  ghost predicate InSlot(b: Block, id: Id, direct: map<nat, Id>, next: Id, size: nat) {
    id < next && b.start in direct && direct[b.start] == id && b.start + b.size <= size && b.start < size
  }

  /** The slot of an address holds the block that starts there, in a chunk that has an array. */
  ghost predicate SlotsOk(size: nat, lists: Lists, bs: Blocks, direct: map<nat, Id>, next: Id) {
    && (forall a :: a in direct ==>
          direct[a] in bs && bs[direct[a]].start == a && ChunkOf(a) in lists && lists[ChunkOf(a)].direct)
    && (forall id :: id in bs ==> InSlot(bs[id], id, direct, next, size))
  }

  /** A son is ready to run and covers the end of its father's range. */
  ghost predicate SonOf(b: Block, f: Block) {
    && f.father.None? && f.native && b.sons == [] && b.size > 0 && b.native && b.done
    && f.start <= b.start && b.start + b.size == f.start + f.size
  }

  /** Fathers and sons know each other. */
  ghost predicate FamiliesOk(bs: Blocks) {
    && (forall id :: id in bs && bs[id].father.Some? ==>
          bs[id].father.value in bs && id in bs[bs[id].father.value].sons && SonOf(bs[id], bs[bs[id].father.value]))
    && (forall id, k :: id in bs && k in bs[id].sons ==> k in bs && bs[k].father == Some(id))
  }

  ghost predicate CompileShape(size: nat, bs: Blocks, c: Compile) {
    c != Idle ==>
      && c.id in bs
      && var b := bs[c.id];
      && b.father.None? && b.sons == [] && b.size == 0 && !b.done && !b.native && !b.revalidated
      && (!c.Pass0? ==> b.start < c.end <= size)
  }

  ghost predicate Shape(s: State) {
    && |s.mem| == |s.prot| * PAGE && |s.mem| <= MEM
    && SlotsOk(|s.mem|, s.lists, s.blocks, s.direct, s.next) && FamiliesOk(s.blocks)
    && CompileShape(|s.mem|, s.blocks, s.compile)
  }

  // ---- marking

  function LastByte(b: Block): int { (b.start + b.size - 1) % PTR }

  predicate Intersects(start1: int, end1: int, start2: int, end2: int) {
    !(start1 > end2 || start2 > end1)
  }

  /** The guest addresses whose jump-table entries go with `id`. */
  function Entries(bs: Blocks, id: Id): set<nat>
    requires id in bs
  {
    {bs[id].start} + set k | k in bs[id].sons && k in bs :: bs[k].start
  }

  /** `MarkDynablock` on every father in `d`: those already marked are left alone. */
  function Mark(s: State, d: set<Id>): State {
    s.(blocks := map id | id in s.blocks :: if id in d then s.blocks[id].(needTest := true) else s.blocks[id],
       jump := map a | a in s.jump && !Dropped(s, d, a) :: s.jump[a])
  }

  predicate Dropped(s: State, d: set<Id>, a: nat) {
    exists id :: id in d && id in s.blocks && !s.blocks[id].needTest && a in Entries(s.blocks, id)
  }

  /** Whether `MarkDirectDynablock` on chunk `c` reaches the block in the slot of address `a`. */
  predicate Hit(s: State, c: nat, a: nat, lo: nat, size: nat) {
    && a in s.direct && ChunkOf(a) == c && s.direct[a] in s.blocks
    && c in s.lists && s.lists[c].direct
    && var b := s.blocks[s.direct[a]]; Intersects(b.start, LastByte(b), lo, lo + size + 1)
  }

  /** The blocks `MarkRangeDynablock` on chunk `c` reaches: those of the chunk itself and of the
      chunks from `minstart` up to it, but none at all while `c` has no array. */
  function RangeHits(s: State, c: nat, lo: nat, size: nat): set<Id> {
    set a | a in s.direct && InRange(s, c, ChunkOf(a)) && Hit(s, ChunkOf(a), a, lo, size) :: Root(s.blocks, s.direct[a])
  }

  predicate InRange(s: State, c: nat, k: nat) {
    c in s.lists && s.lists[c].direct && (k == c || ChunkOf(s.lists[c].minstart) <= k < c)
  }

  /** `unprotectDB` on one page, as the fault handler calls it. */
  function Fault(s: State, page: nat): State {
    if page < |s.prot| && Watched(s.prot[page]) then
      var lo := page * PAGE;
      var t := Mark(s, RangeHits(s, ChunkOf(lo), lo, PAGE));
      t.(prot := s.prot[page := UnprotectPage(s.prot[page])])
    else s
  }

  // ---- jump table and removal

  function AddJump(s: State, a: nat, id: Id): State {
    if a in s.jump then s else s.(jump := s.jump[a := id])
  }

  /** The entries of the blocks `ids`, those that exist. */
  function AddJumps(s: State, ids: seq<Id>): (r: State)
    ensures r == s.(jump := r.jump)
    decreases |ids|
  {
    if ids == [] then s
    else if ids[0] in s.blocks then AddJumps(AddJump(s, s.blocks[ids[0]].start, ids[0]), ids[1..])
    else AddJumps(s, ids[1..])
  }

  /** `FreeDynablock` on a father: it goes with its sons, its slots and its jump-table entries. */
  function Free(s: State, id: Id): State
    requires id in s.blocks
  {
    var family := {id} + set k | k in s.blocks[id].sons;
    var starts := Entries(s.blocks, id);
    s.(blocks := map k | k in s.blocks && k !in family :: s.blocks[k],
       direct := map a | a in s.direct && a !in starts :: s.direct[a],
       jump := map a | a in s.jump && a !in starts :: s.jump[a])
  }

  // ---- steps

  function GuestWrite(s: State, a: nat, v: Byte): State {
    if a < |s.mem| && PageOf(a) < |s.prot| && GuestWritable(s.prot[PageOf(a)]) then s.(mem := s.mem[a := v]) else s
  }

  /** `addDBFromAddressRange` for one chunk. */
  function AddList(s: State, c: nat): State {
    if c in s.lists then s
    else s.(lists := s.lists[c := ChunkList(c * CHUNK, c * CHUNK + CHUNK - 1, false)])
  }

  const NEW_BLOCK := Block(0, 0, 0, false, false, [], None, false, [], false)

  /** `AddNewDynablock` for an address that has a list and whose slot is free. */
  function NewSlot(s: State, a: nat, b: Block): State
    requires ChunkOf(a) in s.lists
  {
    var c := ChunkOf(a);
    s.(lists := s.lists[c := s.lists[c].(direct := true)],
       blocks := s.blocks[s.next := b],
       direct := s.direct[a := s.next],
       next := s.next + 1)
  }

  predicate CanCreate(s: State, a: nat) {
    ChunkOf(a) in s.lists && a !in s.direct
  }

  /** What `FillBlock64` finds before it starts. */
  datatype Entry = Usual | HotPage | NoDynarec

  /** A lookup that creates: the slot is taken, and the first page is protected. */
  function Begin(s: State, a: nat, how: Entry): State {
    if s.compile != Idle || a >= |s.mem| || !CanCreate(s, a) then s
    else match how
      case HotPage =>
        var c := ChunkOf(a);
        s.(lists := s.lists[c := s.lists[c].(direct := true)])
      case NoDynarec => NewSlot(s, a, NEW_BLOCK.(start := a, done := true))
      case Usual =>
        var t := NewSlot(s, a, NEW_BLOCK.(start := a));
        t.(prot := Protect(t.prot, a, a + 1), compile := Pass0(s.next))
  }

  /** `FillBlock64` returns NULL: the slot is released. */
  function Abandon(s: State): State
    requires Shape(s) && s.compile != Idle
  {
    var b := s.blocks[s.compile.id];
    s.(blocks := s.blocks - {s.compile.id}, direct := s.direct - {b.start}, compile := Idle)
  }

  /** The slot keeps a block that never runs: it came out empty, or `FillBlock64` faulted. */
  function Forsake(s: State): State { s.(compile := Idle) }

  /** Pass 0 found the block to end before `end`. */
  function Place(s: State, end: nat): State
    requires Shape(s) && s.compile.Pass0? && end <= |s.mem|
  {
    var a := s.blocks[s.compile.id].start;
    if end <= a then Forsake(s)
    else if !IsProtected(s.prot, a, a + 1) then Abandon(s)
    else
      var t := if PageOf(a) != PageOf(end) then s.(prot := Protect(s.prot, a, end)) else s;
      t.(compile := Placed(s.compile.id, end))
  }

  /** The hash is taken, and the code is made from the bytes it covers. */
  function TakeHash(s: State): State
    requires Shape(s) && s.compile.Placed?
  {
    var bytes := s.mem[s.blocks[s.compile.id].start..s.compile.end];
    s.(compile := Hashed(s.compile.id, s.compile.end, X31.Hash(bytes), bytes))
  }

  /** A son at `a` of the block `father`, which ends at `end`. */
  function AddSon(s: State, father: Id, end: nat, a: nat): State
    requires father in s.blocks && a < end && CanCreate(s, a)
  {
    var son := NEW_BLOCK.(start := a, size := end - a, father := Some(father), native := true, done := true);
    var f := s.blocks[father];
    var t := NewSlot(s, a, son);
    t.(blocks := t.blocks[father := f.(sons := f.sons + [s.next])])
  }

  /** The sons that `FillBlock64` creates, in order; an address that has no list, or a block already, is skipped. */
  function AddSons(s: State, father: Id, end: nat, addrs: seq<nat>): (r: State)
    requires father in s.blocks && forall i :: 0 <= i < |addrs| ==> addrs[i] < end
    ensures father in r.blocks
    decreases |addrs|
  {
    if addrs == [] then s
    else if CanCreate(s, addrs[0]) then AddSons(AddSon(s, father, end, addrs[0]), father, end, addrs[1..])
    else AddSons(s, father, end, addrs[1..])
  }

  /** The bounds kept for marking: `minstart` of the later chunks moves only when `maxend` grows. */
  function Record(s: State, a: nat, size: nat): (r: State)
    requires size > 0
    ensures r == s.(lists := r.lists)
  {
    var c := ChunkOf(a);
    if c !in s.lists then s
    else
      var l := s.lists[c];
      var own := l.(minstart := if l.minstart > a then a else l.minstart,
                    maxend := if l.maxend < a + size then a + size else l.maxend);
      var last := if l.maxend < a + size then ChunkOf(a + size - 1) else c;
      s.(lists := map k | k in s.lists ::
        if k == c then own
        else if c < k <= last && s.lists[k].minstart > a then s.lists[k].(minstart := a)
        else s.lists[k])
  }

  /** The recheck that ends `FillBlock64` succeeds. */
  predicate Recheck(s: State)
    requires Shape(s) && s.compile.Hashed?
  {
    var a := s.blocks[s.compile.id].start;
    X31.Hash(s.mem[a..s.compile.end]) == s.compile.hash && IsProtected(s.prot, a, s.compile.end)
  }

  /** The record of the block under compilation is filled in. */
  function Fill(s: State): State
    requires Shape(s) && s.compile.Hashed?
  {
    var id := s.compile.id;
    var b := s.blocks[id];
    s.(compile := Idle,
       blocks := s.blocks[id := b.(size := s.compile.end - b.start, hash := s.compile.hash, needTest := false,
                                   native := true, src := s.compile.src)])
  }

  function SetDone(s: State, id: Id): State
    requires id in s.blocks
  {
    s.(blocks := s.blocks[id := s.blocks[id].(done := true)])
  }

  /** Recheck and install: the record, its sons, the bounds, the jump table, and last `done`. */
  function Finish(s: State, addrs: seq<nat>): State
    requires Shape(s) && s.compile.Hashed?
    requires forall i :: 0 <= i < |addrs| ==> s.blocks[s.compile.id].start <= addrs[i] < s.compile.end
  {
    if !Recheck(s) then Abandon(s)
    else
      var id, end, a := s.compile.id, s.compile.end, s.blocks[s.compile.id].start;
      var t := Record(AddSons(Fill(s), id, end, addrs), a, end - a);
      SetDone(AddJumps(AddJump(t, a, id), t.blocks[id].sons), id)
  }

  /** A dirty father whose bytes still hash the same is kept. */
  function Validate(s: State, f: Id): State
    requires f in s.blocks
  {
    var b := s.blocks[f];
    var t := s.(blocks := s.blocks[f := b.(needTest := false, revalidated := true)],
                prot := Protect(s.prot, b.start, b.start + b.size));
    AddJumps(AddJump(t, b.start, f), b.sons)
  }

  /** Whether a lookup at `a` tests the block it finds there. */
  predicate MustTest(s: State, a: nat)
    requires Shape(s)
  {
    a in s.direct && s.blocks[s.direct[a]].native &&
    var f := s.blocks[Root(s.blocks, s.direct[a])]; f.done && f.needTest
  }

  predicate Unchanged(s: State, f: Id)
    requires Shape(s) && f in s.blocks
  {
    var b := s.blocks[f];
    X31.Hash(s.mem[b.start..b.start + b.size]) == b.hash
  }

  /** `DBGetBlock` on an address that has a block; `busy` when the mutex is taken or the page is hot. */
  function Lookup(s: State, a: nat, busy: bool): State
    requires Shape(s)
  {
    if !MustTest(s, a) || busy then s
    else
      var f := Root(s.blocks, s.direct[a]);
      if Unchanged(s, f) then Validate(s, f) else Free(s, f)
  }
}
