/** A run in which the guest executes code it has overwritten: the block crosses into a chunk
    that has no list, so the write fault there marks nothing. */
module DynaStale {
  import opened Common
  import opened DynaState
  import opened DynaInv
  import opened DynaInstall
  import opened DynaRuns
  import X31

  const A: nat := 0xFFFE
  const END: nat := 0x10002

  function Rw(): seq<bv8> { seq(32, i => PROT_RWX) }

  ghost predicate Linked(s: State, step: Step, t: State) {
    Shape(s) && Enabled(s, step) && t == Apply(s, step)
  }

  /** A run whose installs need not be provisioned. */
  ghost predicate IsAnyRun(states: seq<State>, steps: seq<Step>) {
    && |states| == |steps| + 1
    && Fresh0(states[0])
    && forall i :: 0 <= i < |steps| ==> Linked(states[i], steps[i], states[i + 1])
  }

  const CHUNK0 := map[0 := ChunkList(0, 0xFFFF, true)]
  const STARTED := NEW_BLOCK.(start := A)

  function S0(mem: seq<Byte>): State { State(mem, Rw(), map[], map[], map[], map[], Idle, 0) }

  function S1(mem: seq<Byte>): State { S0(mem).(lists := map[0 := ChunkList(0, 0xFFFF, false)]) }

  function S2(mem: seq<Byte>): State {
    State(mem, Protect(Rw(), A, A + 1), CHUNK0, map[0 := STARTED], map[A := 0], map[], Pass0(0), 1)
  }

  function S3(mem: seq<Byte>): State {
    S2(mem).(prot := Protect(Protect(Rw(), A, A + 1), A, END), compile := Placed(0, END))
  }

  function S4(mem: seq<Byte>): State
    requires |mem| == 0x20000
  {
    S3(mem).(compile := Hashed(0, END, X31.Hash(mem[A..END]), mem[A..END]))
  }

  function S5(mem: seq<Byte>): State
    requires |mem| == 0x20000
  {
    S3(mem).(compile := Idle, jump := map[A := 0],
             lists := map[0 := ChunkList(0, END, true)],
             blocks := map[0 := STARTED.(size := END - A, hash := X31.Hash(mem[A..END]), native := true,
                                         src := mem[A..END], done := true)])
  }

  function S6(mem: seq<Byte>): State
    requires |mem| == 0x20000
  {
    S5(mem).(prot := S5(mem).prot[16 := UnprotectPage(S5(mem).prot[16])])
  }

  function S7(mem: seq<Byte>, v: Byte): State
    requires |mem| == 0x20000
  {
    S6(mem).(mem := mem[0x10000 := v])
  }

  lemma FirstSteps(mem: seq<Byte>)
    requires |mem| == 0x20000
    ensures Fresh0(S0(mem)) && Linked(S0(mem), MapChunk(0), S1(mem)) && Linked(S1(mem), Start(A, Usual), S2(mem))
  {
    assert ChunkOf(A) == 0;
  }

  lemma MiddleSteps(mem: seq<Byte>)
    requires |mem| == 0x20000
    ensures Linked(S2(mem), Located(END), S3(mem)) && Linked(S3(mem), Hashing, S4(mem))
  {
    ProtectCloses(Rw(), A, A + 1);
    assert PageOf(A) == 15 && PageOf(END) == 16;
  }

  lemma RecheckHolds(mem: seq<Byte>)
    requires |mem| == 0x20000
    ensures Shape(S4(mem)) && Recheck(S4(mem))
  {
    ProtectCloses(Protect(Rw(), A, A + 1), A, END) by { ProtectCloses(Rw(), A, A + 1); }
    hide X31.Hash, Protect;
  }

  lemma InstallStep(mem: seq<Byte>)
    requires |mem| == 0x20000
    ensures Linked(S4(mem), Ending([]), S5(mem))
  {
    hide X31.Hash, Protect, Recheck;
    RecheckHolds(mem);
    assert ChunkOf(A) == 0 && ChunkOf(END - 1) == 1;
  }

  lemma Page16(mem: seq<Byte>)
    requires |mem| == 0x20000
    ensures |S5(mem).prot| == 32 && Watched(S5(mem).prot[16]) && Writable(UnprotectPage(S5(mem).prot[16]))
  {}

  lemma FaultStep(mem: seq<Byte>)
    requires |mem| == 0x20000
    ensures Linked(S5(mem), WriteFault(16), S6(mem))
  {
    hide X31.Hash, Protect, UnprotectPage, RangeHits, Mark;
    Page16(mem);
    NothingHit(S5(mem));
    MarkNone(S5(mem));
  }

  lemma NothingHit(s: State)
    requires 1 !in s.lists
    ensures RangeHits(s, ChunkOf(16 * PAGE), 16 * PAGE, PAGE) == {}
  {
    assert ChunkOf(16 * PAGE) == 1;
  }

  lemma MarkNone(s: State)
    ensures Mark(s, {}) == s
  {
    assert Mark(s, {}).blocks == s.blocks && Mark(s, {}).jump == s.jump;
  }

  lemma WriteStep(mem: seq<Byte>, v: Byte)
    requires |mem| == 0x20000
    ensures Linked(S6(mem), Write(0x10000, v), S7(mem, v))
  {
    hide X31.Hash, Protect, UnprotectPage;
    Page16(mem);
  }

  lemma BytesDiffer(mem: seq<Byte>, v: Byte)
    requires |mem| == 0x20000 && mem[0x10000] != v
    ensures X31.Hash(mem[0x10000 := v][A..END]) != X31.Hash(mem[A..END])
  {
    hide X31.Hash;
    X31.OneByteDetected(mem[A..END], 2, v);
    assert mem[0x10000 := v][A..END] == mem[A..END][2 := v];
  }

  ghost predicate Stale(t: State, a: nat) {
    && a in t.jump && t.jump[a] in t.blocks
    && var b := t.blocks[t.jump[a]];
    Clean(b) && b.start == a && b.start + b.size <= |t.mem| && X31.Hash(Bytes(t.mem, b)) != X31.Hash(b.src)
  }

  /** The guest overwrites the last bytes of a block and then jumps to code made from the old ones. */
  lemma StaleCode(mem: seq<Byte>, v: Byte)
    requires |mem| == 0x20000 && mem[0x10000] != v
    ensures exists states: seq<State>, steps: seq<Step> :: IsAnyRun(states, steps) && Stale(states[|steps|], A)
  {
    hide *;
    FirstSteps(mem);
    MiddleSteps(mem);
    InstallStep(mem);
    FaultStep(mem);
    WriteStep(mem, v);
    StaleEnd(mem, v);
    var steps := [MapChunk(0), Start(A, Usual), Located(END), Hashing, Ending([]), WriteFault(16), Write(0x10000, v)];
    RunOf([S0(mem), S1(mem), S2(mem), S3(mem), S4(mem), S5(mem), S6(mem), S7(mem, v)], steps);
  }

  lemma StaleEnd(mem: seq<Byte>, v: Byte)
    requires |mem| == 0x20000 && mem[0x10000] != v
    ensures Stale(S7(mem, v), A)
  {
    hide X31.Hash;
    BytesDiffer(mem, v);
  }

  lemma RunOf(all: seq<State>, steps: seq<Step>)
    requires |all| == 8 && |steps| == 7 && Fresh0(all[0])
    requires Linked(all[0], steps[0], all[1]) && Linked(all[1], steps[1], all[2]) && Linked(all[2], steps[2], all[3])
    requires Linked(all[3], steps[3], all[4]) && Linked(all[4], steps[4], all[5]) && Linked(all[5], steps[5], all[6])
    requires Linked(all[6], steps[6], all[7])
    ensures IsAnyRun(all, steps)
  {
    hide Linked, Fresh0;
  }
}
