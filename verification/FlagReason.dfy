/** Why an instruction needs a flag: the other side of liveness. Nothing is asked for without a use of it
    further on. */
module FlagReason {
  import opened FlagSpec

  predicate OneBit(t: bv8) { t != 0 && t & (t - 1) == 0 }

  /** Need `x` includes `t`. */
  predicate Has(x: bv8, t: bv8) { x & t != 0 }

  /** Flag `bit`, or all flags as pending, being needed of instruction `at`. */
  datatype Link = Link(at: nat, bit: bv8)

  /** What an instruction asks of the ones before it on its own account. */
  predicate Gives(x: Inst, bit: bv8) {
    var leaves := x.exits && !Supplies(x, X_PEND);
    if x.barrier then bit == X_PEND && (x.use != 0 || leaves)
    else Has(x.use, bit) || (bit == X_PEND && leaves)
  }

  /** `l` is needed because `m` is: pending stands for every flag where it has to be resolved, and what an
      instruction does not supply it passes on, as pending when it is a barrier. */
  predicate Follows(b: Block, l: Link, m: Link)
    requires WellFormed(b) && l.at < |b.insts| && m.at < |b.insts|
  {
    || (l.at == m.at && Resolves(b.insts[l.at]) && m.bit == X_PEND && Has(X_ALL, l.bit))
    || (l.at in b.preds[m.at] && !Supplies(b.insts[m.at], m.bit)
        && l.bit == if b.insts[m.at].barrier then X_PEND else m.bit)
  }

  /** `l` is needed from the start, or on account of an instruction after it. */
  predicate Starts(b: Block, l: Link)
    requires WellFormed(b) && l.at < |b.insts|
  {
    Has(b.insts[l.at].wanted, l.bit) || exists k :: 0 <= k < |b.insts| && l.at in b.preds[k] && Gives(b.insts[k], l.bit)
  }

  ghost predicate Chain(b: Block, c: seq<Link>)
    requires WellFormed(b)
  {
    && |c| > 0 && (forall i :: 0 <= i < |c| ==> c[i].at < |b.insts| && OneBit(c[i].bit))
    && (forall i :: 0 < i < |c| ==> Follows(b, c[i - 1], c[i])) && Starts(b, c[|c| - 1])
  }

  ghost predicate Justified(b: Block, k: nat, t: bv8)
    requires WellFormed(b)
  {
    exists c :: Chain(b, c) && c[0] == Link(k, t)
  }

  /** All that is asked of instruction `k` is justified. */
  ghost predicate JustlyAsked(b: Block, k: nat, asked: bv8)
    requires WellFormed(b)
  {
    forall t :: OneBit(t) && Has(asked, t) ==> Justified(b, k, t)
  }

  ghost predicate AllJustified(b: Block, need: seq<bv8>)
    requires WellFormed(b)
  {
    forall k :: 0 <= k < |need| ==> JustlyAsked(b, k, need[k])
  }

  lemma JustifiedStart(b: Block, k: nat, t: bv8)
    requires WellFormed(b) && k < |b.insts| && OneBit(t) && Starts(b, Link(k, t))
    ensures Justified(b, k, t)
  {
    assert Chain(b, [Link(k, t)]);
  }

  lemma JustifiedStep(b: Block, l: Link, m: Link)
    requires WellFormed(b) && l.at < |b.insts| && m.at < |b.insts| && OneBit(l.bit) && Follows(b, l, m)
    requires Justified(b, m.at, m.bit)
    ensures Justified(b, l.at, l.bit)
  {
    hide Follows, Starts;
    var c :| Chain(b, c) && c[0] == m;
    assert Chain(b, [l] + c);
  }

  lemma SuppliedMeans(x: Inst, t: bv8)
    requires OneBit(t)
    ensures Has(Supplied(x), t) <==> Supplies(x, t)
  {}

  function SomeBit(x: bv8): (t: bv8)
    requires x != 0
    ensures OneBit(t) && Has(x, t)
  {
    x & (0 - x)
  }

  /** A need that resolves its pending stays justified. */
  lemma NormJustified(b: Block, n: nat, need: bv8, asked: bv8)
    requires WellFormed(b) && n < |b.insts| && JustlyAsked(b, n, need) && JustlyAsked(b, n, asked)
    ensures JustlyAsked(b, n, Norm(b.insts[n], Plus(need, asked)))
  {
    hide Justified, WellFormed, Has, Norm, Plus;
    var x := b.insts[n];
    forall t | OneBit(t) && Has(Norm(x, Plus(need, asked)), t) ensures Justified(b, n, t) {
      NormBit(x, need, asked, t);
      if !Has(need, t) && !Has(asked, t) {
        assert Justified(b, n, X_PEND) by { assert OneBit(X_PEND); }
        JustifiedStep(b, Link(n, t), Link(n, X_PEND));
      }
    }
  }

  lemma NormBit(x: Inst, need: bv8, asked: bv8, t: bv8)
    requires OneBit(t) && Has(Norm(x, Plus(need, asked)), t)
    ensures Has(need, t) || Has(asked, t) || (Resolves(x) && Has(X_ALL, t) && (Has(need, X_PEND) || Has(asked, X_PEND)))
  {}

  lemma BitOfPlus(a: bv8, b: bv8, t: bv8)
    ensures Has(Plus(a, b), t) <==> Has(a, t) || Has(b, t)
  {}

  lemma BitOfLess(a: bv8, b: bv8, t: bv8)
    requires OneBit(t)
    ensures Has(Less(a, b), t) <==> Has(a, t) && !Has(b, t)
  {}

  lemma BitOfPending(t: bv8)
    requires OneBit(t)
    ensures Has(X_PEND, t) <==> t == X_PEND
  {}

  /** What is left over of a need, bit by bit. */
  lemma LeftBit(x: Inst, need: bv8, t: bv8)
    requires OneBit(t)
    ensures Has(Plus(Less(if x.exits then Plus(need, X_PEND) else need, Supplied(x)), x.use), t)
      <==> Has(x.use, t) || ((Has(need, t) || (x.exits && t == X_PEND)) && !Supplies(x, t))
  {
    hide Supplied, Supplies, OneBit, Plus, Less, Has;
    var need' := if x.exits then Plus(need, X_PEND) else need;
    SuppliedMeans(x, t);
    BitOfPlus(need, X_PEND, t);
    BitOfPending(t);
    BitOfLess(need', Supplied(x), t);
    BitOfPlus(Less(need', Supplied(x)), x.use, t);
  }

  /** What an instruction asks is nothing but its own uses and what it needs and does not supply; of a
      barrier it is pending alone. */
  lemma AskBit(x: Inst, need: bv8, t: bv8)
    requires OneBit(t) && Has(Ask(x, need), t)
    ensures x.barrier ==> t == X_PEND && Plus(Less(if x.exits then Plus(need, X_PEND) else need, Supplied(x)), x.use) != 0
    ensures !x.barrier ==> Has(Plus(Less(if x.exits then Plus(need, X_PEND) else need, Supplied(x)), x.use), t)
  {
    hide Supplied;
  }

  lemma AskOfBarrier(x: Inst, need: bv8)
    requires x.barrier
    ensures Ask(x, need) == 0 || Ask(x, need) == X_PEND
  {
    hide Supplied;
  }

  lemma AskNotAll(x: Inst, need: bv8)
    requires Sets(x)
    ensures Ask(x, need) != X_ALL | X_PEND
  {
    hide Supplied;
  }

  lemma AskJustified(b: Block, n: nat, need: bv8, p: nat)
    requires WellFormed(b) && n < |b.insts| && p < |b.insts| && p in b.preds[n] && JustlyAsked(b, n, need)
    ensures JustlyAsked(b, p, Ask(b.insts[n], need))
  {
    hide Justified, WellFormed, Supplied, Supplies, Ask, Has, OneBit, Plus, Less;
    var x := b.insts[n];
    var left := Plus(Less(if x.exits then Plus(need, X_PEND) else need, Supplied(x)), x.use);
    forall t | OneBit(t) && Has(Ask(x, need), t) ensures Justified(b, p, t) {
      AskBit(x, need, t);
      var u := if x.barrier then SomeBit(left) else t;
      LeftBit(x, need, u);
      PassedOn(b, n, need, p, t, u);
    }
  }

  lemma PassedOn(b: Block, n: nat, need: bv8, p: nat, t: bv8, u: bv8)
    requires WellFormed(b) && n < |b.insts| && p < |b.insts| && p in b.preds[n] && JustlyAsked(b, n, need)
    requires OneBit(t) && OneBit(u) && t == if b.insts[n].barrier then X_PEND else u
    requires var x := b.insts[n];
      Has(x.use, u) || ((Has(need, u) || (x.exits && u == X_PEND)) && !Supplies(x, u))
    ensures Justified(b, p, t)
  {
    hide Justified, WellFormed, Supplies, Has, OneBit;
    var x := b.insts[n];
    if Has(x.use, u) || (x.exits && u == X_PEND && !Supplies(x, u)) {
      assert Gives(x, t) by { UsesGive(x, t, u); }
      JustifiedStart(b, p, t);
    } else {
      JustifiedStep(b, Link(p, t), Link(n, u));
    }
  }

  lemma UsesGive(x: Inst, t: bv8, u: bv8)
    requires t == if x.barrier then X_PEND else u
    requires Has(x.use, u) || (x.exits && u == X_PEND && !Supplies(x, u))
    ensures Gives(x, t)
  {}

  /** A step of the analysis for instruction `n`: its own need, and what it asks of those before it. */
  lemma OneJustified(b: Block, s: seq<bv8>, n: nat, asked: bv8)
    requires WellFormed(b) && |s| == |b.insts| && n < |s| && AllJustified(b, s) && JustlyAsked(b, n, asked)
    ensures var mine := Norm(b.insts[n], Plus(s[n], asked));
      && AllJustified(b, s[n := mine])
      && forall i :: 0 <= i < |b.preds[n]| ==> Edge(b, b.preds[n][i], n) && JustlyAsked(b, b.preds[n][i], Ask(b.insts[n], mine))
  {
    hide JustlyAsked, Norm, Ask, Plus;
    var mine := Norm(b.insts[n], Plus(s[n], asked));
    assert JustlyAsked(b, n, s[n]);
    NormJustified(b, n, s[n], asked);
    forall i | 0 <= i < |b.preds[n]|
      ensures Edge(b, b.preds[n][i], n) && JustlyAsked(b, b.preds[n][i], Ask(b.insts[n], mine))
    {
      assert Edge(b, b.preds[n][i], n);
      AskJustified(b, n, mine, b.preds[n][i]);
    }
  }

  lemma NothingAsked(b: Block, k: nat)
    requires WellFormed(b)
    ensures JustlyAsked(b, k, 0)
  {}

  lemma WantedJustified(b: Block, s: seq<bv8>)
    requires WellFormed(b) && |s| == |b.insts| && forall k :: 0 <= k < |s| ==> s[k] == b.insts[k].wanted
    ensures AllJustified(b, s)
  {
    forall k, t | 0 <= k < |s| && OneBit(t) && Has(s[k], t) ensures Justified(b, k, t) { JustifiedStart(b, k, t); }
  }

  // ---- what a reason looks like

  /** From instruction `k` along recorded edges, past no barrier and nothing that sets the flag, to an
      instruction that uses it, or that must make it out of pending. */
  ghost predicate Reason(b: Block, path: seq<nat>, k: nat, f: bv8)
    requires WellFormed(b)
  {
    && |path| > 0 && path[0] == k && Path(b, path)
    && (forall i :: 0 < i < |path| ==> !b.insts[path[i]].barrier)
    && (forall i :: 0 < i < |path| - 1 ==> !Supplies(b.insts[path[i]], f))
    && var last := path[|path| - 1];
       || (|path| > 1 && b.insts[last].use & f != 0)
       || (Resolves(b.insts[last]) && Justified(b, last, X_PEND) && (|path| > 1 ==> !Supplies(b.insts[last], f)))
  }

  /** Every flag that is needed by name has such a reason. */
  lemma NamedHasReason(b: Block, need: seq<bv8>, k: nat, f: bv8)
    requires WellFormed(b) && |need| == |b.insts| && AllJustified(b, need) && k < |need|
    requires IsFlag(f) && need[k] & f != 0
    ensures exists path :: Reason(b, path, k, f)
  {
    FlagIsBit(f);
    assert JustlyAsked(b, k, need[k]);
    var c :| Chain(b, c) && c[0] == Link(k, f);
    var path := ChainReason(b, c, f);
  }

  lemma FlagIsBit(f: bv8)
    requires IsFlag(f)
    ensures OneBit(f) && f & X_ALL == f && f != X_PEND
  {}

  lemma {:induction false} ChainReason(b: Block, c: seq<Link>, f: bv8) returns (path: seq<nat>)
    requires WellFormed(b) && Chain(b, c) && IsFlag(f) && c[0].bit == f
    ensures Reason(b, path, c[0].at, f)
    decreases |c|
  {
    hide IsFlag, Supplies, Resolves, OneBit, Follows, Starts, Reason, Gives;
    if |c| == 1 {
      path := UseReason(b, c[0].at, f);
    } else {
      TailChain(b, c);
      if PendingStep(b, c[0], c[1]) {
        path := [c[0].at];
        PendingReason(b, c[0], c[1], f);
      } else {
        StepKeepsFlag(b, c[0], c[1], f);
        var rest := ChainReason(b, c[1..], f);
        path := [c[0].at] + rest;
        MoreReason(b, c[0].at, rest, c[1].at, f);
      }
    }
  }

  /** The need comes from pending that is resolved here. */
  predicate PendingStep(b: Block, l: Link, m: Link)
    requires WellFormed(b) && l.at < |b.insts|
  {
    l.at == m.at && Resolves(b.insts[l.at]) && m.bit == X_PEND
  }

  lemma UseReason(b: Block, k: nat, f: bv8) returns (path: seq<nat>)
    requires WellFormed(b) && k < |b.insts| && IsFlag(f) && Starts(b, Link(k, f))
    ensures Reason(b, path, k, f)
  {
    FlagIsBit(f);
    NotWanted(b, k, f);
    hide IsFlag, Supplies, Resolves;
    var n :| 0 <= n < |b.insts| && k in b.preds[n] && Gives(b.insts[n], f);
    path := [k, n];
  }

  lemma PendingReason(b: Block, l: Link, m: Link, f: bv8)
    requires WellFormed(b) && l.at < |b.insts| && PendingStep(b, l, m) && Justified(b, m.at, m.bit)
    ensures Reason(b, [l.at], l.at, f)
  {
    hide Justified, Supplies, Resolves;
  }

  /** Otherwise the flag is passed on under its own name. */
  lemma StepKeepsFlag(b: Block, l: Link, m: Link, f: bv8)
    requires WellFormed(b) && l.at < |b.insts| && m.at < |b.insts| && IsFlag(f) && l.bit == f
    requires Follows(b, l, m) && !PendingStep(b, l, m)
    ensures m.bit == f && l.at in b.preds[m.at] && !Supplies(b.insts[m.at], f) && !b.insts[m.at].barrier
  {
    FlagIsBit(f);
    hide IsFlag, Supplies, Resolves;
  }

  lemma MoreReason(b: Block, k: nat, rest: seq<nat>, n: nat, f: bv8)
    requires WellFormed(b) && k < |b.insts| && n < |b.insts| && Reason(b, rest, n, f)
    requires k in b.preds[n] && !Supplies(b.insts[n], f) && !b.insts[n].barrier
    ensures Reason(b, [k] + rest, k, f)
  {
    hide Supplies, Resolves, Justified;
    var path := [k] + rest;
    assert path[|path| - 1] == rest[|rest| - 1];
    assert forall i :: 0 < i < |path| ==> path[i] == rest[i - 1];
  }

  lemma TailChain(b: Block, c: seq<Link>)
    requires WellFormed(b) && Chain(b, c) && |c| > 1
    ensures Chain(b, c[1..]) && Justified(b, c[1].at, c[1].bit) && c[1].at < |b.insts| && Follows(b, c[0], c[1])
  {
    hide Follows, Starts;
  }

  lemma NotWanted(b: Block, k: nat, f: bv8)
    requires WellFormed(b) && k < |b.insts| && IsFlag(f)
    ensures b.insts[k].wanted & f == 0
  {
    assert b.insts[k].wanted == 0 || b.insts[k].wanted == X_PEND;
  }
}
