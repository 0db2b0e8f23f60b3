/** Which processor flags each instruction of a block must leave behind for the ones after it. */
module FlagSpec {

  const X_ALL: bv8 := 0x3f
  const X_PEND: bv8 := 0x80
  const SF_SET: bv8 := 1
  const SF_PENDING: bv8 := 2
  const SF_SUBSET: bv8 := 5

  /** What decoding found out about one instruction. `exits` says that a jump leaves the block, and
      `wanted` is what it needs from the start: nothing, or all as pending. */
  datatype Inst = Inst(exits: bool, barrier: bool, state: bv8, use: bv8, sets: bv8, wanted: bv8)

  /** The instructions of a block and, for each, the recorded predecessors. */
  datatype Block = Block(insts: seq<Inst>, preds: seq<seq<nat>>)

  predicate WellFormed(b: Block) {
    && |b.preds| == |b.insts|
    && (forall k :: 0 <= k < |b.insts| ==> b.insts[k].wanted == 0 || b.insts[k].wanted == X_PEND)
    && forall k, j :: 0 <= k < |b.preds| && 0 <= j < |b.preds[k]| ==> Edge(b, b.preds[k][j], k)
  }

  /** An instruction that jumps out of the block is followed by the next one or by nothing. */
  predicate Edge(b: Block, p: nat, k: nat) {
    p < |b.insts| && k < |b.insts| && (b.insts[p].exits ==> k == p + 1)
  }

  /** Instructions that set flags for real cannot leave them pending: pending means all. */
  predicate Resolves(x: Inst) { x.state == SF_SET || x.state == SF_SUBSET }

  function Norm(x: Inst, need: bv8): bv8 {
    if Pending(need) && Resolves(x) then (need & !X_PEND) | X_ALL else need
  }

  predicate Sets(x: Inst) { x.state & SF_SET != 0 }

  function Supplied(x: Inst): bv8 {
    (if Sets(x) then x.sets else 0) | (if x.state & SF_PENDING != 0 then X_PEND else 0)
  }

  /** What the instructions before `x` must supply, when `need` is asked of `x` and what follows it. */
  function Ask(x: Inst, need: bv8): bv8 {
    var left := Plus(Less(if x.exits then Plus(need, X_PEND) else need, Supplied(x)), x.use);
    var asked := if left != 0 && x.barrier then X_PEND else left;
    if asked == Plus(X_ALL, X_PEND) && Sets(x) then X_ALL else asked
  }

  function Plus(a: bv8, b: bv8): bv8 { a | b }

  function Less(a: bv8, b: bv8): bv8 { a & !b }

  predicate Pending(a: bv8) { a & X_PEND != 0 }

  predicate Holds(a: bv8, b: bv8) { a & b == b }

  /** A need already holds what is asked, pending read as all where the instruction resolves it. */
  predicate Absorbs(x: Inst, need: bv8, asked: bv8) { Norm(x, Plus(need, asked)) == need }

  /** Every recorded predecessor of `k` holds what `k` asks of it. */
  ghost predicate Settled(b: Block, need: seq<bv8>, k: nat)
    requires WellFormed(b) && |need| == |b.insts| && k < |need|
  {
    forall j :: 0 <= j < |b.preds[k]| ==> SettledEdge(b, need, k, j)
  }

  predicate SettledEdge(b: Block, need: seq<bv8>, k: nat, j: nat)
    requires WellFormed(b) && |need| == |b.insts| && k < |need| && j < |b.preds[k]|
  {
    var p := b.preds[k][j];
    assert Edge(b, p, k);
    Absorbs(b.insts[p], need[p], Ask(b.insts[k], need[k]))
  }

  ghost predicate Fixpoint(b: Block, need: seq<bv8>)
    requires WellFormed(b) && |need| == |b.insts|
  {
    forall k :: 0 <= k < |need| ==> Settled(b, need, k)
  }

  // ---- liveness

  /** `x` sets flag `t`, or leaves flags pending when `t` is that. */
  predicate Supplies(x: Inst, t: bv8) {
    (x.state & SF_SET != 0 && x.sets & t != 0) || (x.state & SF_PENDING != 0 && t == X_PEND)
  }

  /** `x` decides flag `f`, or leaves all flags pending: what comes before does not matter for `f`. */
  predicate Decides(x: Inst, f: bv8) { Supplies(x, f) || Supplies(x, X_PEND) }

  predicate Demands(x: Inst, f: bv8) { x.use & (f | X_PEND) != 0 || (x.exits && !Decides(x, f)) }

  predicate Covers(need: bv8, f: bv8) { need & (f | X_PEND) != 0 }

  predicate IsFlag(f: bv8) { f != 0 && f & X_ALL == f && f & (f - 1) == 0 }

  predicate Inside(b: Block, path: seq<nat>) { forall i :: 0 <= i < |path| ==> path[i] < |b.insts| }

  /** Instructions that can run one after another, by the recorded edges. */
  ghost predicate Path(b: Block, path: seq<nat>)
    requires WellFormed(b)
  {
    Inside(b, path) && forall i :: 0 < i < |path| ==> path[i - 1] in b.preds[path[i]]
  }

  /** Flag `f` matters after `path[0]`, and none of the instructions up to the last decides it: the last
      one demands it, or it is wanted after the last one, which leaves it alone too. */
  ghost predicate LiveAlong(b: Block, path: seq<nat>, f: bv8)
    requires Inside(b, path)
  {
    && |path| > 0 && (forall i :: 0 < i < |path| - 1 ==> !Decides(b.insts[path[i]], f))
    && var last := b.insts[path[|path| - 1]];
       (|path| > 1 && Demands(last, f)) || (Covers(last.wanted, f) && (|path| > 1 ==> !Decides(last, f)))
  }

  /** Every instruction has what is wanted after it from the start. */
  ghost predicate HoldsWanted(b: Block, need: seq<bv8>)
    requires |need| == |b.insts|
  {
    forall k :: 0 <= k < |need| ==> Absorbs(b.insts[k], need[k], b.insts[k].wanted)
  }

  lemma AskCovers(x: Inst, need: bv8, f: bv8)
    requires IsFlag(f)
    requires Demands(x, f) || (Covers(need, f) && !Decides(x, f))
    ensures Covers(Ask(x, need), f)
  {}

  lemma AbsorbCovers(x: Inst, need: bv8, asked: bv8, f: bv8)
    requires IsFlag(f) && Absorbs(x, need, asked) && Covers(asked, f)
    ensures Covers(need, f)
  {}

  /** Whatever the path, a flag that is still to be used, or wanted at its end, is in the need of every
      instruction before, by name or as pending. */
  lemma {:induction false} LivenessSound(b: Block, need: seq<bv8>, path: seq<nat>, f: bv8)
    requires WellFormed(b) && |need| == |b.insts| && Fixpoint(b, need) && HoldsWanted(b, need)
    requires IsFlag(f) && Path(b, path) && LiveAlong(b, path, f)
    ensures Covers(need[path[0]], f)
    decreases |path|
  {
    hide IsFlag, Covers, Demands, Decides, Ask, Absorbs;
    var p := path[0];
    if |path| == 1 {
      AbsorbCovers(b.insts[p], need[p], b.insts[p].wanted, f);
    } else {
      var k := path[1];
      if |path| > 2 || !Demands(b.insts[k], f) { LivenessSound(b, need, path[1..], f); }
      AskCovers(b.insts[k], need[k], f);
      var j :| 0 <= j < |b.preds[k]| && b.preds[k][j] == p;
      assert Settled(b, need, k) && SettledEdge(b, need, k, j);
      AbsorbCovers(b.insts[p], need[p], Ask(b.insts[k], need[k]), f);
    }
  }

  // ---- how much can still change

  function Bit(x: bv8, m: bv8): nat { if x & m != 0 then 1 else 0 }

  function Card(x: bv8): (r: nat)
    ensures r <= 8
  {
    Bit(x, 1) + Bit(x, 2) + Bit(x, 4) + Bit(x, 8) + Bit(x, 16) + Bit(x, 32) + Bit(x, 64) + Bit(x, 128)
  }

  lemma CardGrows(x: bv8, y: bv8)
    requires Holds(y, x)
    ensures Card(x) <= Card(y) && (Card(x) == Card(y) ==> x == y)
  {}

  /** The steps one instruction still has in it. */
  function Left(x: Inst, need: bv8, used: bv8): nat {
    8 - Card(Norm(x, need)) + (if Norm(x, need) != need then 1 else 0) + (if used != x.use then 1 else 0)
  }

  function Potential(xs: seq<Inst>, need: seq<bv8>, used: seq<bv8>): nat
    requires |need| == |used| == |xs|
  {
    if xs == [] then 0
    else
      var n := |xs| - 1;
      Potential(xs[..n], need[..n], used[..n]) + Left(xs[n], need[n], used[n])
  }

  lemma {:induction false} PotentialSplit(xs: seq<Inst>, need: seq<bv8>, used: seq<bv8>, i: nat, v: bv8, u: bv8)
    requires |need| == |used| == |xs| && i < |xs|
    ensures Potential(xs, need[i := v], used[i := u])
      == Potential(xs, need, used) - Left(xs[i], need[i], used[i]) + Left(xs[i], v, u)
  {
    hide Left;
    var n := |xs| - 1;
    var a, c := need[i := v], used[i := u];
    if i < n {
      PotentialSplit(xs[..n], need[..n], used[..n], i, v, u);
      assert a[..n] == need[..n][i := v] && c[..n] == used[..n][i := u];
    } else {
      assert a[..n] == need[..n] && c[..n] == used[..n];
    }
  }

  /** The need of an instruction after it was asked for more. */
  lemma LeftDrops(x: Inst, need: bv8, used: bv8, asked: bv8)
    ensures var v := Norm(x, Plus(need, asked));
      Left(x, v, x.use) <= Left(x, need, used) && ((v != need || used != x.use) ==> Left(x, v, x.use) < Left(x, need, used))
  {
    hide Card;
    var v := Norm(x, Plus(need, asked));
    NormGrows(x, need, asked);
    CardGrows(Norm(x, need), v);
  }

  lemma NormGrows(x: Inst, need: bv8, asked: bv8)
    ensures Holds(Norm(x, Plus(need, asked)), Norm(x, need))
    ensures Norm(x, Norm(x, Plus(need, asked))) == Norm(x, Plus(need, asked))
  {}
}
