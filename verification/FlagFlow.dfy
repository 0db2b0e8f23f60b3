/** From the flow of a block to its needed flags: what the analysis guarantees to every execution. */
module FlagFlow {
  import opened FlagSpec
  import opened FlagReason
  import opened FlowSpec
  import opened FlagNeed
  import opened Predecessors

  /** A way to execute the block: it starts at its first instruction, and goes on by jumps inside the
      block and by falling through. */
  ghost predicate Execution(p: seq<Flow>, path: seq<nat>) {
    && |path| > 0 && path[0] == 0 && |p| > 0
    && forall i :: 0 < i < |path| ==> Goes(p, path[i - 1], path[i])
  }

  predicate Goes(p: seq<Flow>, j: nat, k: nat) {
    k < |p| && (JumpTo(p, j, k) || (k == j + 1 && Falls(p, j)))
  }

  ghost predicate Reaches(p: seq<Flow>, path: seq<nat>, j: nat) { Execution(p, path) && path[|path| - 1] == j }

  ghost predicate Reachable(p: seq<Flow>, j: nat) { exists path :: Reaches(p, path, j) }

  /** Falling through is the only way that `j` goes on to the next one. */
  predicate OnlyFalls(p: seq<Flow>, j: nat) { Falls(p, j) && !JumpTo(p, j, j + 1) }

  /** Each instruction that some execution reaches and falls out of is entered in program order. */
  ghost predicate Traced(p: seq<Flow>) {
    forall j :: 0 <= j < |p| && OnlyFalls(p, j) && Reachable(p, j) ==> EnteredBefore(p, j)
  }

  predicate Recorded(p: seq<Flow>, j: nat, k: nat) { j in Filled(p, k, |p|) }

  ghost predicate AllRecorded(p: seq<Flow>) {
    forall path, i :: Execution(p, path) && 0 < i < |path| ==> Recorded(p, path[i - 1], path[i])
  }

  lemma Shorter(p: seq<Flow>, path: seq<nat>, i: nat)
    requires Execution(p, path) && i < |path|
    ensures path[i] < |p| && Reachable(p, path[i])
  {
    assert i > 0 ==> Goes(p, path[i - 1], path[i]);
    assert Reaches(p, path[..i + 1], path[i]);
  }

  lemma RecordedIff(p: seq<Flow>, j: nat, k: nat)
    requires Goes(p, j, k)
    ensures Recorded(p, j, k) <==> JumpTo(p, j, k) || EnteredBefore(p, j)
  {
    hide Filled, Jumps, EnteredBefore, FallFilled;
    FilledExactly(p, k, |p|, j);
    FallFilledIff(p, j);
    assert j in Filled(p, k, |p|) <==> j in multiset(Filled(p, k, |p|));
  }

  /** Every step of every execution is a recorded edge exactly when each instruction that is reached and
      falls through is the first, or jumped to from before, or fallen into from such a one. */
  lemma StepsRecordedIff(p: seq<Flow>)
    ensures AllRecorded(p) <==> Traced(p)
  {
    hide Recorded, EnteredBefore;
    if Traced(p) {
      forall path, i | Execution(p, path) && 0 < i < |path| ensures Recorded(p, path[i - 1], path[i]) {
        StepRecorded(p, path, i);
      }
    }
    forall j | AllRecorded(p) && 0 <= j < |p| && OnlyFalls(p, j) && Reachable(p, j) ensures EnteredBefore(p, j) {
      var path := Onward(p, j);
      assert Recorded(p, path[|path| - 2], path[|path| - 1]);
      RecordedIff(p, j, j + 1);
    }
  }

  lemma StepRecorded(p: seq<Flow>, path: seq<nat>, i: nat)
    requires Traced(p) && Execution(p, path) && 0 < i < |path|
    ensures Recorded(p, path[i - 1], path[i])
  {
    hide Recorded, EnteredBefore, Reachable;
    assert Goes(p, path[i - 1], path[i]);
    Shorter(p, path, i - 1);
    RecordedIff(p, path[i - 1], path[i]);
  }

  /** An execution that reaches `j` and falls out of it. */
  lemma Onward(p: seq<Flow>, j: nat) returns (path: seq<nat>)
    requires j < |p| && OnlyFalls(p, j) && Reachable(p, j)
    ensures |path| > 1 && Execution(p, path) && path[|path| - 2] == j && path[|path| - 1] == j + 1
  {
    var before: seq<nat> :| Reaches(p, before, j);
    path := before + [j + 1];
    forall i | 0 < i < |path| ensures Goes(p, path[i - 1], path[i]) {
      if i < |before| { assert Goes(p, before[i - 1], before[i]); }
    }
  }

  /** A jump over a nop to a jump back to it: the nop, entered only from later, loses its fall-through. */
  lemma EdgeLost()
    ensures var p := [Flow(true, 2, false), Flow(false, 0, true), Flow(true, 1, true)];
      Sound(p) && Execution(p, [0, 2, 1, 2]) && !Recorded(p, 1, 2) && !Traced(p)
  {
    var p := [Flow(true, 2, false), Flow(false, 0, true), Flow(true, 1, true)];
    assert Goes(p, 0, 2) && Goes(p, 2, 1) && Goes(p, 1, 2);
    assert Jumps(p, 1, 0) == 0 && Jumps(p, 1, 1) == 0;
    RecordedIff(p, 1, 2);
    if Traced(p) { StepRecorded(p, [0, 2, 1, 2], 3); }
  }

  /** The block of the flag analysis, with the recorded predecessors. */
  ghost predicate IsBlock(p: seq<Flow>, b: Block) {
    && Sound(p) && |b.insts| == |p| == |b.preds|
    && forall k :: 0 <= k < |p| ==>
      && b.preds[k] == Filled(p, k, |p|) && (b.insts[k].exits <==> p[k].target == -1)
      && (b.insts[k].wanted == 0 || b.insts[k].wanted == X_PEND)
  }

  lemma BlockWellFormed(p: seq<Flow>, b: Block)
    requires IsBlock(p, b)
    ensures WellFormed(b)
  {
    hide Filled, Edge;
    FeedsFlags(p, b.insts, b.preds);
  }

  lemma PathInside(p: seq<Flow>, path: seq<nat>, b: Block, i: nat)
    requires Execution(p, path) && i < |path| && |b.insts| == |p|
    ensures Inside(b, path[i..])
  {
    forall k | 0 <= k < |path[i..]| ensures path[i..][k] < |b.insts| { Shorter(p, path, i + k); }
  }

  /** A result of the analysis of a block with flow `p`. */
  ghost predicate Analysed(p: seq<Flow>, b: Block, need: seq<bv8>) {
    && IsBlock(p, b) && WellFormed(b) && |need| == |p|
    && Fixpoint(b, need) && HoldsWanted(b, need) && AllJustified(b, need)
  }

  /** In the execution, a flag that matters after its `i`th instruction is in the need of that. */
  ghost predicate Served(p: seq<Flow>, b: Block, need: seq<bv8>, path: seq<nat>, i: nat, f: bv8) {
    && Inside(b, path) && |need| == |b.insts| && i < |path| && Inside(b, path[i..])
    && (LiveAlong(b, path[i..], f) ==> Covers(need[path[i]], f))
  }

  ghost predicate AllServed(p: seq<Flow>) {
    forall b, need, path, i: nat, f ::
      Analysed(p, b, need) && Execution(p, path) && i < |path| && IsFlag(f) ==> Served(p, b, need, path, i, f)
  }

  /** In every execution, a flag that is used, leaves the block or is wanted further on, undecided in
      between, is in the need of each instruction before: by name, or as pending. */
  lemma EveryExecutionServed(p: seq<Flow>, b: Block, need: seq<bv8>, path: seq<nat>, i: nat, f: bv8)
    requires Traced(p) && Analysed(p, b, need) && Execution(p, path) && i < |path| && IsFlag(f)
    ensures Served(p, b, need, path, i, f)
  {
    hide IsFlag, Covers, LiveAlong, Fixpoint, Filled, Traced, WellFormed, Goes, Inside, HoldsWanted;
    PathInside(p, path, b, i);
    PathInside(p, path, b, 0);
    assert path[0..] == path;
    var rest := path[i..];
    forall k | 0 < k < |rest| ensures rest[k - 1] in b.preds[rest[k]] {
      StepRecorded(p, path, i + k);
      Shorter(p, path, i + k);
      assert rest[k] == path[i + k] && rest[k - 1] == path[i + k - 1];
    }
    assert Path(b, rest);
    if LiveAlong(b, rest, f) { LivenessSound(b, need, rest, f); }
  }

  // ---- and exactly then

  /** Supplies all flags, and uses `use`. */
  function Supplier(fl: Flow, use: bv8): Inst { Inst(fl.target == -1, false, SF_SET | SF_PENDING, use, X_ALL, 0) }

  lemma SupplierAsks(fl: Flow, use: bv8, need: bv8)
    requires (use == 0 || use == 1) && (need == 0 || need == 1)
    ensures Ask(Supplier(fl, use), need) == use
    ensures use == 1 ==> Demands(Supplier(fl, use), 1)
  {}

  /** It never changes a need that it already holds. */
  lemma SupplierAbsorbs(fl: Flow, use: bv8, need: bv8, asked: bv8)
    requires asked == 0 || (asked == 1 && need == 1)
    ensures Absorbs(Supplier(fl, use), need, asked)
  {}

  /** A block that loses the fall-through out of `j`: all its instructions supply all flags, and the one
      after `j` uses one, which the need of `j` can do without. */
  function Losing(p: seq<Flow>, j: nat): Block {
    Block(seq(|p|, k requires 0 <= k < |p| => Supplier(p[k], if k == j + 1 then 1 else 0)),
          seq(|p|, k requires 0 <= k < |p| => Filled(p, k, |p|)))
  }

  function LosingNeed(p: seq<Flow>, j: nat): seq<bv8> {
    seq(|p|, k requires 0 <= k < |p| => if Recorded(p, k, j + 1) then 1 else 0)
  }

  lemma LosingIsBlock(p: seq<Flow>, j: nat)
    requires Sound(p)
    ensures IsBlock(p, Losing(p, j)) && WellFormed(Losing(p, j))
  {
    hide Filled, WellFormed, Sound;
    BlockWellFormed(p, Losing(p, j));
  }

  lemma LosingEdge(p: seq<Flow>, j: nat, k: nat, i: nat)
    requires IsBlock(p, Losing(p, j)) && WellFormed(Losing(p, j)) && k < |p| && i < |Filled(p, k, |p|)|
    ensures SettledEdge(Losing(p, j), LosingNeed(p, j), k, i)
  {
    hide Filled, Supplier, Ask, Absorbs;
    var b, need := Losing(p, j), LosingNeed(p, j);
    var q := Filled(p, k, |p|)[i];
    assert Edge(b, b.preds[k][i], k);
    SupplierAsks(p[k], if k == j + 1 then 1 else 0, need[k]);
    SupplierAbsorbs(p[q], if q == j + 1 then 1 else 0, need[q], if k == j + 1 then 1 else 0);
  }

  lemma LosingJustified(p: seq<Flow>, j: nat)
    requires Sound(p)
    ensures WellFormed(Losing(p, j)) && AllJustified(Losing(p, j), LosingNeed(p, j))
  {
    hide Filled, Sound, WellFormed, Justified, IsBlock, Gives;
    var b, need := Losing(p, j), LosingNeed(p, j);
    LosingIsBlock(p, j);
    forall k, t | 0 <= k < |need| && OneBit(t) && need[k] & t != 0 ensures Justified(b, k, t) {
      OnlyOne(need[k], t);
      LastIn(p, k, j + 1);
      SupplierGives(p[j + 1]);
      var n := j + 1;
      assert n < |b.insts| && b.insts[n] == Supplier(p[n], 1) && b.preds[n] == Filled(p, n, |p|);
      assert k in b.preds[n] && Gives(b.insts[n], t);
      JustifiedStart(b, k, t);
    }
  }

  lemma OnlyOne(x: bv8, t: bv8)
    requires OneBit(t) && x & t != 0 && (x == 0 || x == 1)
    ensures x == 1 && t == 1
  {}

  lemma LastIn(p: seq<Flow>, k: nat, n: nat)
    requires Sound(p) && Recorded(p, k, n)
    ensures n < |p|
  {
    FilledIsReal(p, n, k);
  }

  lemma SupplierGives(fl: Flow)
    ensures Gives(Supplier(fl, 1), 1)
  {}

  lemma LosingIsAnalysed(p: seq<Flow>, j: nat)
    requires Sound(p)
    ensures Analysed(p, Losing(p, j), LosingNeed(p, j))
  {
    LosingJustified(p, j);
    hide Filled, WellFormed, Sound, Supplier, Absorbs, SettledEdge, Recorded, IsBlock, AllJustified;
    var b, need := Losing(p, j), LosingNeed(p, j);
    LosingIsBlock(p, j);
    forall k, i | 0 <= k < |p| && 0 <= i < |b.preds[k]| ensures SettledEdge(b, need, k, i) { LosingEdge(p, j, k, i); }
    forall k | 0 <= k < |p| ensures Absorbs(b.insts[k], need[k], 0) && b.insts[k].wanted == 0 {
      SupplierAbsorbs(p[k], if k == j + 1 then 1 else 0, need[k], 0);
      SupplierWants(p[k], if k == j + 1 then 1 else 0);
    }
  }

  lemma SupplierWants(fl: Flow, use: bv8)
    ensures Supplier(fl, use).wanted == 0
  {}

  lemma Unserved(p: seq<Flow>, j: nat, path: seq<nat>)
    requires Sound(p) && Execution(p, path) && |path| > 1 && path[|path| - 2] == j && path[|path| - 1] == j + 1
    requires !Recorded(p, j, j + 1)
    ensures !Served(p, Losing(p, j), LosingNeed(p, j), path, |path| - 2, 1)
  {
    hide Filled, Supplier, Recorded, Demands, Execution;
    var b, i := Losing(p, j), |path| - 2;
    PathInside(p, path, b, i);
    assert path[i..] == [j, j + 1];
    SupplierAsks(p[j + 1], 1, 0);
    assert LiveAlong(b, path[i..], 1);
  }

  /** Every execution of every block of this flow is served by every result of the analysis exactly when
      the flow is traced. */
  lemma ServedIff(p: seq<Flow>)
    requires Sound(p)
    ensures AllServed(p) <==> Traced(p)
  {
    hide Analysed, Served, IsFlag, Sound, EnteredBefore, Execution, Reachable, Recorded, Losing, LosingNeed;
    if Traced(p) {
      forall b, need, path, i: nat, f | Analysed(p, b, need) && Execution(p, path) && i < |path| && IsFlag(f)
        ensures Served(p, b, need, path, i, f)
      {
        EveryExecutionServed(p, b, need, path, i, f);
      }
    }
    forall j | AllServed(p) && 0 <= j < |p| && OnlyFalls(p, j) && Reachable(p, j) ensures EnteredBefore(p, j) {
      var path := Onward(p, j);
      assert IsFlag(1) by { OneIsFlag(); }
      LosingIsAnalysed(p, j);
      assert Served(p, Losing(p, j), LosingNeed(p, j), path, |path| - 2, 1);
      if !Recorded(p, j, j + 1) { Unserved(p, j, path); }
      RecordedIff(p, j, j + 1);
    }
  }

  lemma OneIsFlag()
    ensures IsFlag(1)
  {}

  /** The passes of `FillBlock64` that concern flags, one after the other. */
  method WorkOutFlags(p: seq<Flow>, insts: seq<Inst>) returns (n: Needs)
    requires Sound(p) && |insts| == |p|
    requires forall k :: 0 <= k < |p| ==>
      && (insts[k].exits <==> p[k].target == -1) && (insts[k].wanted == 0 || insts[k].wanted == X_PEND) && Quiet(insts[k])
    ensures n.Valid() && n.block.insts == insts && Analysed(p, n.block, n.need[..])
  {
    hide Filled, Quiet, Fixpoint, Start, Reserved, HoldsWanted, AllJustified;
    var t := new PredTable(p);
    t.FillPredecessors();
    var preds := ReadLists(t, p);
    FeedsFlags(p, insts, preds);
    n := new Needs(Block(insts, preds));
    n.SettleAll();
  }

  method ReadLists(t: PredTable, p: seq<Flow>) returns (preds: seq<seq<nat>>)
    requires t.Valid() && t.flow == p
    requires forall k :: 0 <= k < |p| ==>
      && t.pred[k] + t.predSz[k] <= t.predecessor.Length
      && t.predecessor[t.pred[k]..t.pred[k] + t.predSz[k]] == Filled(p, k, |p|)
    ensures |preds| == |p| && forall k :: 0 <= k < |p| ==> preds[k] == Filled(p, k, |p|)
  {
    hide Filled;
    preds := [];
    var k := 0;
    while k < |p|
      invariant 0 <= k <= |p| && |preds| == k
      invariant forall j :: 0 <= j < k ==> preds[j] == Filled(p, j, |p|)
    {
      preds := preds + [t.predecessor[t.pred[k]..t.pred[k] + t.predSz[k]]];
      k := k + 1;
    }
  }
}
