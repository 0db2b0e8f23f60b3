/** The edges between the instructions of a block, as they are counted and as they are recorded. */
module FlowSpec {
  import FlagSpec

  /** How control leaves an instruction: by a jump, to an instruction of the block or (-1) out of it,
      and by falling through. */
  datatype Flow = Flow(jumps: bool, target: int, next: bool)

  predicate Sound(p: seq<Flow>) {
    forall i :: 0 <= i < |p| ==> -1 <= p[i].target < |p|
  }

  predicate JumpTo(p: seq<Flow>, j: nat, k: nat) { j < |p| && p[j].jumps && p[j].target == k }

  predicate Falls(p: seq<Flow>, j: nat) { j + 1 < |p| && p[j].next }

  /** How many of the first `i` instructions jump to `k`. */
  function Jumps(p: seq<Flow>, k: nat, i: nat): (r: nat)
    requires i <= |p|
    ensures r > 0 <==> exists j :: 0 <= j < i && JumpTo(p, j, k)
  {
    if i == 0 then 0 else Jumps(p, k, i - 1) + (if JumpTo(p, i - 1, k) then 1 else 0)
  }

  /** The room that is reserved for the predecessors of `k`. */
  function Reserved(p: seq<Flow>, k: nat): nat
    requires k < |p|
  {
    Jumps(p, k, |p|) + (if FallReserved(p, k) then 1 else 0)
  }

  predicate FallReserved(p: seq<Flow>, k: nat)
    requires k < |p|
    decreases k, 0
  {
    k > 0 && Falls(p, k - 1) && (k == 1 || Jumps(p, k - 1, |p|) > 0 || FallReserved(p, k - 1))
  }

  /** The predecessors of `k` that the first `i` instructions have recorded, in the order they did:
      falling through counts only from an instruction that is entered by then. */
  function Filled(p: seq<Flow>, k: nat, i: nat): seq<nat>
    requires i <= |p|
    decreases i, 0
  {
    if i == 0 then [] else
      Filled(p, k, i - 1) + (if k == i && FallFilled(p, i - 1) then [i - 1] else [])
                          + (if JumpTo(p, i - 1, k) then [i - 1] else [])
  }

  /** Whether the fall-through edge out of `j` is recorded. */
  predicate FallFilled(p: seq<Flow>, j: nat)
    requires j < |p|
    decreases j, 1
  {
    Falls(p, j) && (j == 0 || Filled(p, j, j) != [])
  }

  // ---- the main results

  /** What is recorded for `k`, source by source: every jump once, and the fall-through. */
  lemma {:induction false} FilledExactly(p: seq<Flow>, k: nat, i: nat, j: nat)
    requires i <= |p|
    ensures multiset(Filled(p, k, i))[j]
      == (if j < i && JumpTo(p, j, k) then 1 else 0) + (if j < i && j + 1 == k && FallFilled(p, j) then 1 else 0)
    decreases i
  {
    hide *;
    if i == 0 {
      FilledNone(p, k);
    } else {
      FilledExactly(p, k, i - 1, j);
      FilledStep(p, k, i, j);
    }
  }

  lemma FilledNone(p: seq<Flow>, k: nat)
    ensures Filled(p, k, 0) == []
  {}

  lemma FilledStep(p: seq<Flow>, k: nat, i: nat, j: nat)
    requires 0 < i <= |p|
    ensures multiset(Filled(p, k, i))[j]
      == multiset(Filled(p, k, i - 1))[j] + (if j == i - 1 && k == i && FallFilled(p, i - 1) then 1 else 0)
       + (if j == i - 1 && JumpTo(p, i - 1, k) then 1 else 0)
  {
    hide *;
    var a := Filled(p, k, i - 1);
    var b := if k == i && FallFilled(p, i - 1) then [i - 1] else [];
    var c := if JumpTo(p, i - 1, k) then [i - 1] else [];
    FilledUnfold(p, k, i);
    CountSum(a + b, c, j);
    CountSum(a, b, j);
    CountOne(b, i - 1, j);
    CountOne(c, i - 1, j);
  }

  lemma FilledUnfold(p: seq<Flow>, k: nat, i: nat)
    requires 0 < i <= |p|
    ensures Filled(p, k, i) == Filled(p, k, i - 1) + (if k == i && FallFilled(p, i - 1) then [i - 1] else [])
                                                   + (if JumpTo(p, i - 1, k) then [i - 1] else [])
  {}

  lemma CountSum(a: seq<nat>, b: seq<nat>, j: nat)
    ensures multiset(a + b)[j] == multiset(a)[j] + multiset(b)[j]
  {
    assert multiset(a + b) == multiset(a) + multiset(b);
  }

  lemma CountOne(a: seq<nat>, x: nat, j: nat)
    requires a == [] || a == [x]
    ensures multiset(a)[j] == if a != [] && j == x then 1 else 0
  {
    assert a == [x] ==> multiset(a) == multiset{x};
  }

  /** Only real edges are recorded. */
  lemma FilledIsReal(p: seq<Flow>, k: nat, j: nat)
    requires j in Filled(p, k, |p|)
    ensures j < |p| && (JumpTo(p, j, k) || (j + 1 == k && Falls(p, j)))
  {
    FilledExactly(p, k, |p|, j);
    assert j in multiset(Filled(p, k, |p|));
  }

  lemma {:induction false} FilledCount(p: seq<Flow>, k: nat, i: nat)
    requires i <= |p|
    ensures |Filled(p, k, i)| == Jumps(p, k, i) + (if 0 < k <= i && FallFilled(p, k - 1) then 1 else 0)
    decreases i
  {
    if i > 0 { FilledCount(p, k, i - 1); }
  }

  lemma {:induction false} JumpsGrow(p: seq<Flow>, k: nat, i: nat, j: nat)
    requires i <= j <= |p|
    ensures Jumps(p, k, i) <= Jumps(p, k, j)
    decreases j
  {
    if i < j { JumpsGrow(p, k, i, j - 1); }
  }

  lemma {:induction false} FallFilledReserved(p: seq<Flow>, j: nat)
    requires j + 1 < |p| && FallFilled(p, j)
    ensures FallReserved(p, j + 1)
    decreases j
  {
    hide Filled, Jumps;
    if j > 0 {
      FilledCount(p, j, j);
      if Jumps(p, j, j) > 0 {
        JumpsGrow(p, j, j, |p|);
      } else {
        FallFilledReserved(p, j - 1);
      }
    }
  }

  /** The reserved room is enough, at every moment of the filling. */
  lemma FilledFits(p: seq<Flow>, k: nat, i: nat)
    requires i <= |p| && k < |p|
    ensures |Filled(p, k, i)| <= Reserved(p, k)
  {
    FilledCount(p, k, i);
    JumpsGrow(p, k, i, |p|);
    if 0 < k <= i && FallFilled(p, k - 1) { FallFilledReserved(p, k - 1); }
  }

  /** Entered, but only by jumps from itself or from later on, and followed by another instruction. */
  predicate EnteredLate(p: seq<Flow>, i: nat) {
    && 0 < i && Falls(p, i) && Jumps(p, i, |p|) > 0 && Jumps(p, i, i) == 0 && !FallReserved(p, i)
  }

  lemma {:induction false} FallsAgree(p: seq<Flow>, j: nat)
    requires j + 1 < |p| && forall i :: 0 <= i < |p| ==> !EnteredLate(p, i)
    ensures FallFilled(p, j) <==> FallReserved(p, j + 1)
    decreases j
  {
    if FallFilled(p, j) { FallFilledReserved(p, j); }
    if FallReserved(p, j + 1) && j > 0 {
      FilledCount(p, j, j);
      FallsAgree(p, j - 1);
      assert !EnteredLate(p, j);
    }
  }

  /** Entered in program order: the first, or jumped to from before, or fallen into from such a one. */
  predicate EnteredBefore(p: seq<Flow>, j: nat)
    requires j < |p|
    decreases j
  {
    j == 0 || Jumps(p, j, j) > 0 || (Falls(p, j - 1) && EnteredBefore(p, j - 1))
  }

  lemma {:induction false} FallFilledIff(p: seq<Flow>, j: nat)
    requires j < |p|
    ensures FallFilled(p, j) <==> Falls(p, j) && EnteredBefore(p, j)
    decreases j
  {
    hide Filled, Jumps;
    if j > 0 {
      FallFilledIff(p, j - 1);
      FilledCount(p, j, j);
    }
  }

  /** The regions are filled exactly unless some instruction is entered only from itself or later:
      then the fall-through edge out of it is reserved, and never recorded. */
  lemma FilledExactlyIff(p: seq<Flow>)
    ensures (forall k :: 0 <= k < |p| ==> |Filled(p, k, |p|)| == Reserved(p, k))
      <==> (forall i :: 0 <= i < |p| ==> !EnteredLate(p, i))
  {
    hide *;
    if forall i :: 0 <= i < |p| ==> !EnteredLate(p, i) {
      forall k | 0 <= k < |p| ensures |Filled(p, k, |p|)| == Reserved(p, k) { NoneLate(p, k); }
    }
    forall i | 0 <= i < |p| && EnteredLate(p, i)
      ensures i + 1 < |p| && |Filled(p, i + 1, |p|)| < Reserved(p, i + 1)
    {
      LateLosesFall(p, i);
    }
  }

  lemma NoneLate(p: seq<Flow>, k: nat)
    requires k < |p| && forall i :: 0 <= i < |p| ==> !EnteredLate(p, i)
    ensures |Filled(p, k, |p|)| == Reserved(p, k)
  {
    hide Filled, Jumps, FallFilled, FallReserved, EnteredLate;
    FilledCount(p, k, |p|);
    NotIntoFirst(p);
    if k > 0 { FallsAgree(p, k - 1); }
  }

  lemma NotIntoFirst(p: seq<Flow>)
    requires |p| > 0
    ensures !FallReserved(p, 0)
  {}

  lemma LateLosesFall(p: seq<Flow>, i: nat)
    requires i < |p| && EnteredLate(p, i)
    ensures i + 1 < |p| && FallReserved(p, i + 1) && !FallFilled(p, i)
    ensures |Filled(p, i + 1, |p|)| < Reserved(p, i + 1)
  {
    hide Filled, Jumps;
    FilledCount(p, i, i);
    if FallFilled(p, i - 1) { FallFilledReserved(p, i - 1); }
    FilledCount(p, i + 1, |p|);
  }

  /** So the blocks that are recorded are ones on which the needed flags can be worked out. */
  lemma {:induction false} FeedsFlags(p: seq<Flow>, insts: seq<FlagSpec.Inst>, preds: seq<seq<nat>>)
    requires Sound(p) && |insts| == |p| == |preds|
    requires forall k :: 0 <= k < |p| ==>
      && preds[k] == Filled(p, k, |p|) && (insts[k].exits <==> p[k].target == -1)
      && (insts[k].wanted == 0 || insts[k].wanted == FlagSpec.X_PEND)
    ensures FlagSpec.WellFormed(FlagSpec.Block(insts, preds))
  {
    var b := FlagSpec.Block(insts, preds);
    forall k, j | 0 <= k < |preds| && 0 <= j < |preds[k]| ensures FlagSpec.Edge(b, preds[k][j], k) {
      FilledIsReal(p, k, preds[k][j]);
    }
  }

  // ---- where the regions lie

  function Sum(s: seq<nat>): nat { if s == [] then 0 else Sum(s[..|s| - 1]) + s[|s| - 1] }

  lemma {:induction false} SumUpdate(s: seq<nat>, i: nat, v: nat)
    requires i < |s|
    ensures Sum(s[i := v]) == Sum(s) - s[i] + v
  {
    var n := |s| - 1;
    if i < n {
      SumUpdate(s[..n], i, v);
      assert s[i := v][..n] == s[..n][i := v];
    } else {
      assert s[i := v][..n] == s[..n];
    }
  }

  /** Where the predecessors of `k` start. */
  function Start(p: seq<Flow>, k: nat): nat
    requires k <= |p|
  {
    if k == 0 then 0 else Start(p, k - 1) + Reserved(p, k - 1)
  }

  /** The regions lie one after another. */
  lemma {:induction false} RegionsApart(p: seq<Flow>, i: nat, j: nat)
    requires i < j <= |p|
    ensures Start(p, i) + Reserved(p, i) <= Start(p, j)
    decreases j
  {
    if i < j - 1 { RegionsApart(p, i, j - 1); }
  }

  lemma {:induction false} SumIsStart(p: seq<Flow>, s: seq<nat>)
    requires |s| <= |p| && forall k :: 0 <= k < |s| ==> s[k] == Reserved(p, k)
    ensures Sum(s) == Start(p, |s|)
  {
    if s != [] { SumIsStart(p, s[..|s| - 1]); }
  }
}
