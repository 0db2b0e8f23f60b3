/** `fillPredecessors`: the predecessor lists of a block, laid out in one array. */
module Predecessors {
  import opened FlowSpec

  lemma JumpsStep(p: seq<Flow>, i: nat)
    requires i < |p| && Sound(p)
    ensures forall k :: 0 <= k < |p| ==>
      Jumps(p, k, i + 1) == Jumps(p, k, i) + (if p[i].jumps && p[i].target == k then 1 else 0)
    ensures forall k :: 0 <= k < |p| ==> Jumps(p, k, 0) == 0
  {}

  lemma FilledStart(p: seq<Flow>)
    ensures forall k :: 0 <= k < |p| ==> Filled(p, k, 0) == []
  {}

  lemma {:induction false} SumZero(s: seq<nat>)
    requires forall k :: 0 <= k < |s| ==> s[k] == 0
    ensures Sum(s) == 0
  {
    if s != [] { SumZero(s[..|s| - 1]); }
  }

  function Rows(p: seq<Flow>, i: nat): (r: seq<seq<nat>>)
    requires i <= |p|
    ensures |r| == |p|
  {
    seq(|p|, k requires 0 <= k < |p| => Filled(p, k, i))
  }

  /** The lists after the fall-through edge of `i` was taken care of. */
  function RowsAfterFall(p: seq<Flow>, i: nat): seq<seq<nat>>
    requires i < |p|
  {
    if FallFilled(p, i) then Rows(p, i)[i + 1 := Rows(p, i)[i + 1] + [i]] else Rows(p, i)
  }

  function RowsAfter(p: seq<Flow>, i: nat): seq<seq<nat>>
    requires i < |p| && Sound(p)
  {
    var r := RowsAfterFall(p, i);
    if p[i].jumps && p[i].target != -1 then r[p[i].target := r[p[i].target] + [i]] else r
  }

  lemma RowsFall(p: seq<Flow>, i: nat)
    requires i < |p| && FallFilled(p, i)
    ensures i + 1 < |p| && |Rows(p, i)[i + 1]| < Reserved(p, i + 1)
  {
    hide FallFilled, Reserved;
    FallsInside(p, i);
    FilledUnfold(p, i + 1, i + 1);
    FilledFits(p, i + 1, i + 1);
  }

  lemma FallTest(p: seq<Flow>, i: nat)
    requires i < |p|
    ensures FallFilled(p, i) <==> i != |p| - 1 && p[i].next && (i == 0 || |Rows(p, i)[i]| > 0)
  {
    hide Filled;
  }

  lemma FallsInside(p: seq<Flow>, i: nat)
    requires i < |p| && FallFilled(p, i)
    ensures i + 1 < |p|
  {}

  lemma RowsJump(p: seq<Flow>, i: nat)
    requires i < |p| && Sound(p) && p[i].jumps && p[i].target != -1
    ensures |RowsAfterFall(p, i)[p[i].target]| < Reserved(p, p[i].target)
  {
    hide FallFilled, Reserved, Filled;
    var k: nat := p[i].target;
    FilledUnfold(p, k, i + 1);
    FilledFits(p, k, i + 1);
  }

  lemma RowsNext(p: seq<Flow>, i: nat)
    requires i < |p| && Sound(p)
    ensures RowsAfter(p, i) == Rows(p, i + 1)
  {
    hide FallFilled, Filled;
    if FallFilled(p, i) { FallsInside(p, i); }
    forall k | 0 <= k < |p| ensures RowsAfter(p, i)[k] == Filled(p, k, i + 1) {
      FilledUnfold(p, k, i + 1);
    }
  }

  class PredTable {
    const flow: seq<Flow>
    const predSz: array<nat>
    const pred: array<nat>
    var predecessor: array<nat>

    ghost predicate Valid()
      reads this
    {
      && Sound(flow) && predSz.Length == pred.Length == |flow|
      && predSz != pred && predecessor != predSz && predecessor != pred
    }

    constructor (p: seq<Flow>)
      requires Sound(p)
      ensures Valid() && flow == p && fresh(predSz) && fresh(pred)
      ensures forall k :: 0 <= k < |p| ==> predSz[k] == 0
    {
      flow := p;
      predSz, pred := new nat[|p|](_ => 0), new nat[|p|](_ => 0);
      predecessor := new nat[0];
    }

    /** Every instruction gets a region of its own, of the reserved size, one after the other, and the
        sources of its recorded edges in it, in order. */
    method FillPredecessors()
      requires Valid() && forall k :: 0 <= k < |flow| ==> predSz[k] == 0
      modifies this, predSz, pred
      ensures Valid() && fresh(predecessor) && predecessor.Length == Start(flow, |flow|)
      ensures forall k :: 0 <= k < |flow| ==>
        && pred[k] == Start(flow, k) && predSz[k] == |Filled(flow, k, |flow|)| <= Reserved(flow, k)
        && pred[k] + predSz[k] <= predecessor.Length
        && predecessor[pred[k]..pred[k] + predSz[k]] == Filled(flow, k, |flow|)
    {
      hide Filled, Reserved, Jumps, Start, Sum, Sound;
      var total := CountJumps();
      total := CountFalls(total);
      var a := new nat[total](_ => 0);
      predecessor := a;
      LayOut();
      Fill();
    }

    method CountJumps() returns (total: nat)
      requires Valid() && forall k :: 0 <= k < |flow| ==> predSz[k] == 0
      modifies predSz
      ensures total == Sum(predSz[..])
      ensures forall k :: 0 <= k < |flow| ==> predSz[k] == Jumps(flow, k, |flow|)
    {
      hide Jumps, Sum;
      total := 0;
      SumZero(predSz[..]);
      var i := 0;
      if |flow| > 0 { JumpsStep(flow, 0); }
      while i < |flow|
        invariant i <= |flow| && total == Sum(predSz[..])
        invariant forall k :: 0 <= k < |flow| ==> predSz[k] == Jumps(flow, k, i)
      {
        JumpsStep(flow, i);
        if flow[i].jumps && flow[i].target != -1 {
          total := total + 1;
          SumUpdate(predSz[..], flow[i].target, predSz[flow[i].target] + 1);
          ghost var s := predSz[..];
          predSz[flow[i].target] := predSz[flow[i].target] + 1;
          assert predSz[..] == s[flow[i].target := s[flow[i].target] + 1];
        }
        i := i + 1;
      }
    }

    method CountFalls(jumps: nat) returns (total: nat)
      requires Valid() && jumps == Sum(predSz[..])
      requires forall k :: 0 <= k < |flow| ==> predSz[k] == Jumps(flow, k, |flow|)
      modifies predSz
      ensures total == Start(flow, |flow|)
      ensures forall k :: 0 <= k < |flow| ==> predSz[k] == Reserved(flow, k)
    {
      hide Jumps, Sum;
      total := jumps;
      var i := 0;
      while i < |flow|
        invariant i <= |flow| && total == Sum(predSz[..])
        invariant forall k :: 0 <= k < |flow| && k <= i ==> predSz[k] == Reserved(flow, k)
        invariant forall k :: i < k < |flow| ==> predSz[k] == Jumps(flow, k, |flow|)
      {
        if i != |flow| - 1 && flow[i].next && (i == 0 || predSz[i] > 0) {
          total := total + 1;
          SumUpdate(predSz[..], i + 1, predSz[i + 1] + 1);
          ghost var s := predSz[..];
          predSz[i + 1] := predSz[i + 1] + 1;
          assert predSz[..] == s[i + 1 := s[i + 1] + 1];
        }
        i := i + 1;
      }
      SumIsStart(flow, predSz[..]);
    }

    method LayOut()
      requires Valid() && forall k :: 0 <= k < |flow| ==> predSz[k] == Reserved(flow, k)
      modifies predSz, pred
      ensures forall k :: 0 <= k < |flow| ==> pred[k] == Start(flow, k) && predSz[k] == 0
    {
      hide Reserved, Start;
      var p := 0;
      var i := 0;
      StartIs(flow, 0);
      while i < |flow|
        invariant i <= |flow| && p == Start(flow, i)
        invariant forall k :: 0 <= k < i ==> pred[k] == Start(flow, k) && predSz[k] == 0
        invariant forall k :: i <= k < |flow| ==> predSz[k] == Reserved(flow, k)
      {
        StartIs(flow, i + 1);
        pred[i] := p;
        p := p + predSz[i];
        predSz[i] := 0;
        i := i + 1;
      }
    }

    /** Region `k` holds `rows[k]` so far. */
    ghost predicate Holding(rows: seq<seq<nat>>)
      requires Valid()
      reads this, predSz, pred, predecessor
    {
      && |rows| == |flow| && predecessor.Length == Start(flow, |flow|)
      && forall k :: 0 <= k < |flow| ==>
        && pred[k] == Start(flow, k) && predSz[k] == |rows[k]| <= Reserved(flow, k)
        && pred[k] + predSz[k] <= predecessor.Length
        && predecessor[pred[k]..pred[k] + predSz[k]] == rows[k]
    }

    method Append(k: nat, v: nat, ghost rows: seq<seq<nat>>)
      requires Valid() && Holding(rows) && k < |flow| && |rows[k]| < Reserved(flow, k)
      modifies predSz, predecessor
      ensures Holding(rows[k := rows[k] + [v]])
    {
      hide Start, Reserved, Sound;
      forall l | 0 <= l < |flow|
        ensures pred[l] + Reserved(flow, l) <= predecessor.Length
        ensures l < k ==> pred[l] + Reserved(flow, l) <= pred[k]
        ensures k < l ==> pred[k] + Reserved(flow, k) <= pred[l]
      {
        RegionsApart(flow, l, |flow|);
        if l < k { RegionsApart(flow, l, k); }
        if k < l { RegionsApart(flow, k, l); }
      }
      predecessor[pred[k] + predSz[k]] := v;
      predSz[k] := predSz[k] + 1;
    }

    method Fill()
      requires Valid() && predecessor.Length == Start(flow, |flow|)
      requires forall k :: 0 <= k < |flow| ==> pred[k] == Start(flow, k) && predSz[k] == 0
      modifies predSz, predecessor
      ensures forall k :: 0 <= k < |flow| ==>
        && pred[k] == Start(flow, k) && predSz[k] == |Filled(flow, k, |flow|)| <= Reserved(flow, k)
        && pred[k] + predSz[k] <= predecessor.Length
        && predecessor[pred[k]..pred[k] + predSz[k]] == Filled(flow, k, |flow|)
    {
      hide Filled, FallFilled, Reserved, Holding, Start, Rows;
      ghost var rows := Rows(flow, 0);
      RowsStart();
      var i := 0;
      while i < |flow|
        invariant i <= |flow| && rows == Rows(flow, i) && Holding(rows)
      {
        HoldingAt(rows, i);
        FallTest(flow, i);
        if i != |flow| - 1 && flow[i].next && (i == 0 || predSz[i] > 0) {
          RowsFall(flow, i);
          Append(i + 1, i, rows);
          rows := rows[i + 1 := rows[i + 1] + [i]];
        }
        if flow[i].jumps && flow[i].target != -1 {
          RowsJump(flow, i);
          Append(flow[i].target, i, rows);
          rows := rows[flow[i].target := rows[flow[i].target] + [i]];
        }
        RowsNext(flow, i);
        i := i + 1;
      }
      RowsEnd(rows);
    }

    lemma HoldingAt(rows: seq<seq<nat>>, k: nat)
      requires Valid() && Holding(rows) && k < |flow|
      ensures |rows| == |flow| && predSz[k] == |rows[k]|
    {}

    lemma RowsEnd(rows: seq<seq<nat>>)
      requires Valid() && Holding(rows) && rows == Rows(flow, |flow|)
      ensures forall k :: 0 <= k < |flow| ==>
        && pred[k] == Start(flow, k) && predSz[k] == |Filled(flow, k, |flow|)| <= Reserved(flow, k)
        && pred[k] + predSz[k] <= predecessor.Length
        && predecessor[pred[k]..pred[k] + predSz[k]] == Filled(flow, k, |flow|)
    {}

    lemma RowsStart()
      requires Valid() && predecessor.Length == Start(flow, |flow|)
      requires forall k :: 0 <= k < |flow| ==> pred[k] == Start(flow, k) && predSz[k] == 0
      ensures Holding(Rows(flow, 0))
    {
      hide Reserved, Start;
      FilledStart(flow);
      forall k | 0 <= k < |flow| ensures Start(flow, k) <= Start(flow, |flow|) {
        RegionsApart(flow, k, |flow|);
      }
    }
  }

  lemma StartIs(p: seq<Flow>, k: nat)
    requires k <= |p|
    ensures Start(p, k) == if k == 0 then 0 else Start(p, k - 1) + Reserved(p, k - 1)
  {}
}
