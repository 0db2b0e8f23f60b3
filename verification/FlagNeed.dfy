/** The recursive propagation of needed flags, in place, over a block whose jumps may form loops. */
module FlagNeed {
  import opened FlagSpec
  import opened FlagReason

  // ---- what one call leaves behind

  /** Needs only grow, and a need that was touched has no unresolved pending in it. */
  predicate GrownAt(x: Inst, s: bv8, u: bv8, t: bv8, v: bv8) {
    && (t == s || Norm(x, t) == t) && Holds(Norm(x, t), Norm(x, s))
    && (v == u || v == x.use) && (u == x.use ==> v == x.use)
  }

  ghost predicate Grown(xs: seq<Inst>, s: seq<bv8>, u: seq<bv8>, t: seq<bv8>, v: seq<bv8>) {
    && |xs| == |s| == |u| == |t| == |v|
    && forall k :: 0 <= k < |xs| ==> GrownAt(xs[k], s[k], u[k], t[k], v[k])
  }

  lemma GrownTrans(xs: seq<Inst>, s: seq<bv8>, u: seq<bv8>, t: seq<bv8>, v: seq<bv8>, r: seq<bv8>, w: seq<bv8>)
    requires Grown(xs, s, u, t, v) && Grown(xs, t, v, r, w)
    ensures Grown(xs, s, u, r, w)
  {
    forall k | 0 <= k < |xs| ensures GrownAt(xs[k], s[k], u[k], r[k], w[k]) {
      assert GrownAt(xs[k], s[k], u[k], t[k], v[k]) && GrownAt(xs[k], t[k], v[k], r[k], w[k]);
    }
  }

  lemma GrownNone(xs: seq<Inst>, s: seq<bv8>, u: seq<bv8>)
    requires |xs| == |s| == |u|
    ensures Grown(xs, s, u, s, u)
  {}

  lemma GrownOne(xs: seq<Inst>, s: seq<bv8>, u: seq<bv8>, n: nat, asked: bv8)
    requires |xs| == |s| == |u| && n < |xs|
    ensures Grown(xs, s, u, s[n := Norm(xs[n], Plus(s[n], asked))], u[n := xs[n].use])
    ensures Absorbs(xs[n], Norm(xs[n], Plus(s[n], asked)), asked)
  {
    hide GrownAt, Norm, Absorbs;
    GrownAtSelf(xs[n], s[n], u[n], asked);
    forall k | 0 <= k < |xs| && k != n ensures GrownAt(xs[k], s[k], u[k], s[k], u[k]) {
      GrownAtNone(xs[k], s[k], u[k]);
    }
  }

  lemma GrownAtSelf(x: Inst, s: bv8, u: bv8, asked: bv8)
    ensures GrownAt(x, s, u, Norm(x, Plus(s, asked)), x.use) && Absorbs(x, Norm(x, Plus(s, asked)), asked)
  {
    NormGrows(x, s, asked);
  }

  lemma GrownAtNone(x: Inst, s: bv8, u: bv8)
    ensures GrownAt(x, s, u, s, u)
  {}

  lemma EdgeGrown(b: Block, s: seq<bv8>, u: seq<bv8>, t: seq<bv8>, v: seq<bv8>, k: nat, j: nat)
    requires WellFormed(b) && Grown(b.insts, s, u, t, v) && k < |s| && j < |b.preds[k]|
    requires s[k] == t[k] && SettledEdge(b, s, k, j)
    ensures SettledEdge(b, t, k, j)
  {
    hide Norm, Ask;
    var p := b.preds[k][j];
    assert Edge(b, p, k);
    assert GrownAt(b.insts[p], s[p], u[p], t[p], v[p]);
    GrownAbsorbs(b.insts[p], s[p], t[p], Ask(b.insts[k], s[k]));
  }

  lemma GrownAbsorbs(x: Inst, s: bv8, t: bv8, asked: bv8)
    requires (t == s || Norm(x, t) == t) && Holds(Norm(x, t), Norm(x, s)) && Absorbs(x, s, asked)
    ensures Absorbs(x, t, asked)
  {}

  lemma SettledGrown(b: Block, s: seq<bv8>, u: seq<bv8>, t: seq<bv8>, v: seq<bv8>, k: nat)
    requires WellFormed(b) && Grown(b.insts, s, u, t, v) && k < |s|
    requires s[k] == t[k] && Settled(b, s, k)
    ensures Settled(b, t, k)
  {
    hide Grown, SettledEdge;
    SameLengths(b.insts, s, u, t, v);
    forall j | 0 <= j < |b.preds[k]| ensures SettledEdge(b, t, k, j) {
      assert SettledEdge(b, s, k, j);
      EdgeGrown(b, s, u, t, v, k, j);
    }
  }

  lemma SameLengths(xs: seq<Inst>, s: seq<bv8>, u: seq<bv8>, t: seq<bv8>, v: seq<bv8>)
    requires Grown(xs, s, u, t, v)
    ensures |xs| == |s| == |u| == |t| == |v|
  {}

  /** Instruction `k` is settled, or was left alone and was not settled before either. */
  ghost predicate Kept(b: Block, s: seq<bv8>, u: seq<bv8>, t: seq<bv8>, v: seq<bv8>, k: nat)
    requires WellFormed(b) && |b.insts| == |s| == |u| == |t| == |v| && k < |s|
  {
    Settled(b, t, k) || (t[k] == s[k] && v[k] == u[k] && !Settled(b, s, k))
  }

  /** Half way through the predecessors of `n`: the first `i` hold what `n` asks of them, unless a loop
      has come back to `n` and seen to all of them. */
  ghost predicate HalfWay(b: Block, s: seq<bv8>, u: seq<bv8>, mine: bv8, t: seq<bv8>, v: seq<bv8>, n: nat, i: nat)
    requires WellFormed(b) && |b.insts| == |s| == |u| == |t| == |v| && n < |s| && i <= |b.preds[n]|
  {
    && (forall k :: 0 <= k < |s| && k != n ==> Kept(b, s, u, t, v, k))
    && (if t[n] == mine then forall j :: 0 <= j < i ==> SettledEdge(b, t, n, j) else Settled(b, t, n))
  }

  lemma HalfWayStart(b: Block, s: seq<bv8>, u: seq<bv8>, n: nat, asked: bv8)
    requires WellFormed(b) && |b.insts| == |s| == |u| && n < |s|
    ensures var mine := Norm(b.insts[n], Plus(s[n], asked));
      HalfWay(b, s, u, mine, s[n := mine], u[n := b.insts[n].use], n, 0)
  {
    hide Settled, Norm, Grown;
    GrownOne(b.insts, s, u, n, asked);
    var t, v := s[n := Norm(b.insts[n], Plus(s[n], asked))], u[n := b.insts[n].use];
    forall k | 0 <= k < |s| && k != n ensures Kept(b, s, u, t, v, k) {
      if Settled(b, s, k) { SettledGrown(b, s, u, t, v, k); }
    }
  }

  lemma HalfWayStep(b: Block, s: seq<bv8>, u: seq<bv8>, mine: bv8, t: seq<bv8>, v: seq<bv8>, r: seq<bv8>, w: seq<bv8>,
                    n: nat, i: nat)
    requires WellFormed(b) && |b.insts| == |s| == |u| && n < |s| && i < |b.preds[n]|
    requires Grown(b.insts, t, v, r, w) && |t| == |v| == |r| == |w| == |s|
    requires HalfWay(b, s, u, mine, t, v, n, i)
    requires forall k :: 0 <= k < |s| ==> Kept(b, t, v, r, w, k)
    requires var p := b.preds[n][i]; Edge(b, p, n) && Absorbs(b.insts[p], r[p], Ask(b.insts[n], mine))
    ensures HalfWay(b, s, u, mine, r, w, n, i + 1)
  {
    hide Grown, SettledEdge, Absorbs, Ask;
    forall k | 0 <= k < |s| && k != n ensures Kept(b, s, u, r, w, k) {
      KeptTwice(b, s, u, t, v, r, w, k);
    }
    assert Kept(b, t, v, r, w, n);
    if !Settled(b, r, n) {
      assert r[n] == t[n] == mine;
      forall j | 0 <= j < i + 1 ensures SettledEdge(b, r, n, j) {
        if j < i { EdgeGrown(b, t, v, r, w, n, j); } else { EdgeNow(b, r, n, i); }
      }
    }
  }

  lemma KeptTwice(b: Block, s: seq<bv8>, u: seq<bv8>, t: seq<bv8>, v: seq<bv8>, r: seq<bv8>, w: seq<bv8>, k: nat)
    requires WellFormed(b) && |b.insts| == |s| == |u| == |t| == |v| == |r| == |w| && k < |s|
    requires Kept(b, s, u, t, v, k) && Kept(b, t, v, r, w, k)
    ensures Kept(b, s, u, r, w, k)
  {}

  lemma EdgeNow(b: Block, r: seq<bv8>, n: nat, i: nat)
    requires WellFormed(b) && |b.insts| == |r| && n < |r| && i < |b.preds[n]|
    requires var p := b.preds[n][i]; Edge(b, p, n) && Absorbs(b.insts[p], r[p], Ask(b.insts[n], r[n]))
    ensures SettledEdge(b, r, n, i)
  {}

  lemma HalfWayEnd(b: Block, s: seq<bv8>, u: seq<bv8>, mine: bv8, t: seq<bv8>, v: seq<bv8>, n: nat)
    requires WellFormed(b) && |b.insts| == |s| == |u| == |t| == |v| && n < |s|
    requires HalfWay(b, s, u, mine, t, v, n, |b.preds[n]|)
    ensures Settled(b, t, n) && forall k :: 0 <= k < |s| ==> Kept(b, s, u, t, v, k)
  {
    hide SettledEdge;
    assert Settled(b, t, n);
    assert Kept(b, s, u, t, v, n);
  }

  lemma KeptNone(b: Block, s: seq<bv8>, u: seq<bv8>)
    requires WellFormed(b) && |b.insts| == |s| == |u|
    ensures forall k :: 0 <= k < |s| ==> Kept(b, s, u, s, u, k)
  {}

  /** How the walk gets shorter along instructions whose need does not change: such an instruction
      leaves the block, so only its fall-through successor can have led to it. */
  function Rank(b: Block, n: nat): nat
    requires n < |b.insts|
  {
    if b.insts[n].exits then n + 1 else 0
  }

  lemma StepsDrop(b: Block, s: seq<bv8>, u: seq<bv8>, n: nat, asked: bv8)
    requires |b.insts| == |s| == |u| && n < |s|
    ensures var mine := Norm(b.insts[n], Plus(s[n], asked));
      var after := Potential(b.insts, s[n := mine], u[n := b.insts[n].use]);
      && after <= Potential(b.insts, s, u)
      && ((mine != s[n] || u[n] != b.insts[n].use) ==> after < Potential(b.insts, s, u))
  {
    hide Left, Norm;
    PotentialSplit(b.insts, s, u, n, Norm(b.insts[n], Plus(s[n], asked)), b.insts[n].use);
    LeftDrops(b.insts[n], s[n], u[n], asked);
  }

  lemma PredIsEdge(b: Block, n: nat, i: nat)
    requires WellFormed(b) && n < |b.insts| && i < |b.preds[n]|
    ensures var p := b.preds[n][i]; Edge(b, p, n) && p < |b.insts| && (b.insts[n].exits ==> Rank(b, p) < Rank(b, n))
  {
    assert Edge(b, b.preds[n][i], n);
  }

  lemma GrownUsed(xs: seq<Inst>, s: seq<bv8>, u: seq<bv8>, t: seq<bv8>, v: seq<bv8>, n: nat)
    requires Grown(xs, s, u, t, v) && n < |xs| && u[n] == xs[n].use
    ensures v[n] == xs[n].use
  {}

  lemma StillAbsorbs(xs: seq<Inst>, s: seq<bv8>, u: seq<bv8>, t: seq<bv8>, v: seq<bv8>, n: nat, asked: bv8)
    requires Grown(xs, s, u, t, v) && n < |xs| && Absorbs(xs[n], s[n], asked)
    ensures Absorbs(xs[n], t[n], asked)
  {
    assert GrownAt(xs[n], s[n], u[n], t[n], v[n]);
    GrownAbsorbs(xs[n], s[n], t[n], asked);
  }

  /** A need as it may be stored: only the pending an instruction started with may be unresolved. */
  predicate Tidy(x: Inst, need: bv8) { Norm(x, need) == need || need == X_PEND }

  ghost predicate AllTidy(xs: seq<Inst>, need: seq<bv8>) {
    |xs| == |need| && forall k :: 0 <= k < |xs| ==> Tidy(xs[k], need[k])
  }

  lemma GrownTidy(xs: seq<Inst>, s: seq<bv8>, u: seq<bv8>, t: seq<bv8>, v: seq<bv8>)
    requires Grown(xs, s, u, t, v) && AllTidy(xs, s)
    ensures AllTidy(xs, t)
  {
    forall k | 0 <= k < |xs| ensures Tidy(xs[k], t[k]) {
      assert GrownAt(xs[k], s[k], u[k], t[k], v[k]) && Tidy(xs[k], s[k]);
    }
  }

  /** Asking changes nothing, and nothing is passed on. */
  predicate Idle(x: Inst, need: bv8, used: bv8, asked: bv8) {
    Norm(x, Plus(need, asked)) == need && used == x.use && (x.exits ==> Pending(need))
  }

  /** What an instruction wants from the start does not have to be passed on by itself: it wants
      nothing, or its own use of flags or the resolving of its pending make the first visit count, or
      it supplies the pending itself. */
  predicate Quiet(x: Inst) {
    x.wanted == 0 || x.use != 0 || Resolves(x) || Pending(Supplied(x))
  }

  lemma QuietAsksNothing(x: Inst)
    requires x.wanted == 0 || x.wanted == X_PEND
    requires Idle(x, x.wanted, 0, 0)
    ensures Quiet(x) <==> Ask(x, x.wanted) == 0
  {}

  lemma TidyStart(x: Inst)
    requires x.wanted == 0 || x.wanted == X_PEND
    ensures Tidy(x, x.wanted)
  {}

  /** Instruction `k` is settled, or nothing has happened to it since the start. */
  ghost predicate Reached(b: Block, s: seq<bv8>, u: seq<bv8>, k: nat)
    requires WellFormed(b) && |b.insts| == |s| == |u| && k < |s|
  {
    Settled(b, s, k) || (s[k] == b.insts[k].wanted && u[k] == 0)
  }

  lemma ReachedKept(b: Block, s: seq<bv8>, u: seq<bv8>, t: seq<bv8>, v: seq<bv8>)
    requires WellFormed(b) && |b.insts| == |s| == |u| == |t| == |v|
    requires forall k :: 0 <= k < |s| ==> Reached(b, s, u, k)
    requires forall k :: 0 <= k < |s| ==> Kept(b, s, u, t, v, k)
    ensures forall k :: 0 <= k < |s| ==> Reached(b, t, v, k)
  {
    hide Settled;
    forall k | 0 <= k < |s| ensures Reached(b, t, v, k) {
      assert Reached(b, s, u, k) && Kept(b, s, u, t, v, k);
    }
  }

  /** Instruction `k` has been asked, with nothing if need be. */
  predicate Visited(x: Inst, need: bv8, used: bv8) { Norm(x, need) == need && used == x.use }

  lemma VisitedGrown(xs: seq<Inst>, s: seq<bv8>, u: seq<bv8>, t: seq<bv8>, v: seq<bv8>, k: nat)
    requires Grown(xs, s, u, t, v) && k < |xs| && Visited(xs[k], s[k], u[k])
    ensures Visited(xs[k], t[k], v[k])
  {
    assert GrownAt(xs[k], s[k], u[k], t[k], v[k]);
  }

  lemma VisitedNow(x: Inst, need: bv8, used: bv8)
    requires Absorbs(x, need, 0) && used == x.use
    ensures Visited(x, need, used)
  {}

  /** Once all are visited, an instruction nothing happened to asks nothing, unless it is not quiet. */
  lemma QuietSettles(b: Block, s: seq<bv8>, u: seq<bv8>, k: nat)
    requires WellFormed(b) && |b.insts| == |s| == |u| && k < |s|
    requires forall p :: 0 <= p < |s| ==> Visited(b.insts[p], s[p], u[p])
    requires Reached(b, s, u, k) && Quiet(b.insts[k])
    requires Settled(b, s, k) || (b.insts[k].exits ==> Pending(s[k]))
    ensures Settled(b, s, k)
  {
    hide Norm, Ask, Plus, Pending, Supplied, Resolves, WellFormed;
    if !Settled(b, s, k) {
      var x := b.insts[k];
      assert Visited(x, s[k], u[k]);
      WantedIs(b, k);
      IdleWanted(x, s[k], u[k]);
      QuietAsksNothing(x);
      forall j | 0 <= j < |b.preds[k]| ensures SettledEdge(b, s, k, j) {
        PredIsEdge(b, k, j);
        var p := b.preds[k][j];
        assert Visited(b.insts[p], s[p], u[p]);
        AbsorbsNothing(b.insts[p], s[p]);
      }
    }
  }

  lemma WantedIs(b: Block, k: nat)
    requires WellFormed(b) && k < |b.insts|
    ensures |b.preds| == |b.insts| && (b.insts[k].wanted == 0 || b.insts[k].wanted == X_PEND)
  {}

  lemma IdleWanted(x: Inst, need: bv8, used: bv8)
    requires Visited(x, need, used) && need == x.wanted && used == 0 && (x.exits ==> Pending(need))
    ensures Idle(x, x.wanted, 0, 0) && x.use == 0
  {}

  lemma AbsorbsNothing(x: Inst, need: bv8)
    requires Norm(x, need) == need
    ensures Absorbs(x, need, 0)
  {}

  ghost predicate AllIdle(xs: seq<Inst>) {
    forall k :: 0 <= k < |xs| ==> Idle(xs[k], xs[k].wanted, 0, 0)
  }

  const PLAIN := Inst(false, false, 0, 0, 0, 0)

  lemma LostIsIdle(b: Block, x: Inst)
    requires b == Block([PLAIN, x], [[], [0]]) && !Quiet(x) && (x.wanted == 0 || x.wanted == X_PEND)
    ensures WellFormed(b) && AllIdle(b.insts)
  {}

  lemma LostIsLost(b: Block, s: seq<bv8>, x: Inst)
    requires b == Block([PLAIN, x], [[], [0]]) && WellFormed(b) && !Quiet(x) && (x.wanted == 0 || x.wanted == X_PEND)
    requires s == [PLAIN.wanted, x.wanted]
    ensures !Fixpoint(b, s)
  {
    assert !SettledEdge(b, s, 1, 0);
    assert !Settled(b, s, 1);
  }

  /** The round has come down to instruction `i`. */
  ghost predicate Walked(b: Block, s: seq<bv8>, u: seq<bv8>, t: seq<bv8>, v: seq<bv8>, i: nat)
    requires WellFormed(b)
  {
    && Grown(b.insts, s, u, t, v) && |b.insts| == |s| == |u| == |t| == |v| && AllTidy(b.insts, t) && i <= |t|
    && (forall k :: 0 <= k < |t| ==> s[k] == b.insts[k].wanted && u[k] == 0)
    && (forall k :: 0 <= k < |t| ==> Reached(b, t, v, k))
    && (forall k :: i <= k < |t| ==> Visited(b.insts[k], t[k], v[k]) && Passed(b, t, k))
    && (AllIdle(b.insts) ==> t == s && v == u)
  }

  ghost predicate Passed(b: Block, t: seq<bv8>, k: nat)
    requires WellFormed(b) && |t| == |b.insts| && k < |t|
  {
    Settled(b, t, k) || (b.insts[k].exits ==> Pending(t[k]))
  }

  lemma WalkedStart(b: Block, s: seq<bv8>, u: seq<bv8>)
    requires WellFormed(b) && |b.insts| == |s| == |u|
    requires forall k :: 0 <= k < |s| ==> s[k] == b.insts[k].wanted && u[k] == 0
    ensures Walked(b, s, u, s, u, |s|)
  {
    hide Tidy, Settled;
    GrownNone(b.insts, s, u);
    forall k | 0 <= k < |s| ensures Tidy(b.insts[k], s[k]) { TidyStart(b.insts[k]); }
  }

  lemma WalkedTidy(b: Block, s: seq<bv8>, u: seq<bv8>, t: seq<bv8>, v: seq<bv8>, i: nat)
    requires WellFormed(b) && Walked(b, s, u, t, v, i)
    ensures AllTidy(b.insts, t) && |b.insts| == |s| == |u| == |t| == |v|
  {}

  lemma WalkedStep(b: Block, s: seq<bv8>, u: seq<bv8>, t: seq<bv8>, v: seq<bv8>, r: seq<bv8>, w: seq<bv8>, i: nat)
    requires WellFormed(b) && Walked(b, s, u, t, v, i + 1) && |r| == |w| == |t| == |v| == |b.insts| && i < |t|
    requires Grown(b.insts, t, v, r, w)
    requires forall k :: 0 <= k < |t| ==> Kept(b, t, v, r, w, k)
    requires w[i] == b.insts[i].use && Absorbs(b.insts[i], r[i], 0) && Passed(b, r, i)
    requires Idle(b.insts[i], t[i], v[i], 0) ==> r == t && w == v
    ensures Walked(b, s, u, r, w, i)
  {
    hide Grown, AllTidy, Kept, Reached, Visited, Absorbs, Idle, WellFormed, Passed;
    GrownTrans(b.insts, s, u, t, v, r, w);
    GrownTidy(b.insts, t, v, r, w);
    ReachedKept(b, t, v, r, w);
    VisitedNow(b.insts[i], r[i], w[i]);
    forall k | i < k < |t| ensures Visited(b.insts[k], r[k], w[k]) && Passed(b, r, k) {
      VisitedGrown(b.insts, t, v, r, w, k);
      PassedKept(b, t, v, r, w, k);
    }
  }

  lemma PassedKept(b: Block, t: seq<bv8>, v: seq<bv8>, r: seq<bv8>, w: seq<bv8>, k: nat)
    requires WellFormed(b) && |b.insts| == |t| == |v| == |r| == |w| && k < |t|
    requires Kept(b, t, v, r, w, k) && Passed(b, t, k)
    ensures Passed(b, r, k)
  {}

  lemma WalkedEnd(b: Block, s: seq<bv8>, u: seq<bv8>, t: seq<bv8>, v: seq<bv8>)
    requires WellFormed(b) && Walked(b, s, u, t, v, 0)
    ensures |t| == |b.insts|
    ensures forall k :: 0 <= k < |t| ==> Absorbs(b.insts[k], t[k], b.insts[k].wanted)
    ensures forall k :: 0 <= k < |t| && Quiet(b.insts[k]) ==> Settled(b, t, k)
    ensures AllIdle(b.insts) ==> forall k :: 0 <= k < |t| ==> t[k] == b.insts[k].wanted
  {
    hide Grown, Absorbs, Quiet, Settled, Visited, AllTidy;
    forall k | 0 <= k < |t| ensures Absorbs(b.insts[k], t[k], b.insts[k].wanted) {
      KeepsWanted(b.insts, s, u, t, v, k);
    }
    forall k | 0 <= k < |t| && Quiet(b.insts[k]) ensures Settled(b, t, k) {
      assert Passed(b, t, k);
      QuietSettles(b, t, v, k);
    }
  }

  lemma KeepsWanted(xs: seq<Inst>, s: seq<bv8>, u: seq<bv8>, t: seq<bv8>, v: seq<bv8>, k: nat)
    requires Grown(xs, s, u, t, v) && k < |xs| && s[k] == xs[k].wanted && Visited(xs[k], t[k], v[k])
    ensures Absorbs(xs[k], t[k], xs[k].wanted)
  {
    assert GrownAt(xs[k], s[k], u[k], t[k], v[k]);
    HoldsAbsorbs(xs[k], s[k], t[k]);
  }

  lemma NoPendingLeft(x: Inst, need: bv8, asked: bv8)
    requires Resolves(x) && Absorbs(x, need, asked)
    ensures need & X_PEND == 0
  {}

  lemma HoldsAbsorbs(x: Inst, s: bv8, t: bv8)
    requires Norm(x, t) == t && Holds(t, Norm(x, s))
    ensures Absorbs(x, t, s)
  {}

  /** The steps of the program for one instruction, against their meaning. */
  lemma TakeInMeans(x: Inst, need: bv8, asked: bv8, mine: bv8, out: bv8)
    requires Tidy(x, need) && mine == Norm(x, Plus(need, asked)) && out == (if x.exits then Plus(mine, X_PEND) else mine)
    ensures out == need ==> mine == need && (x.exits ==> Pending(mine))
    ensures out != need ==> mine != need || x.exits
    ensures mine == need && (x.exits ==> Pending(mine)) ==> out == need
  {}

  class Needs {
    const block: Block
    const need: array<bv8>
    const used: array<bv8>

    ghost predicate Valid() {
      WellFormed(block) && need.Length == used.Length == |block.insts| && need != used
    }

    ghost function Steps(): nat
      requires Valid()
      reads need, used
    {
      Potential(block.insts, need[..], used[..])
    }

    constructor (b: Block)
      requires WellFormed(b)
      ensures Valid() && block == b && fresh(need) && fresh(used)
      ensures forall k :: 0 <= k < need.Length ==> need[k] == b.insts[k].wanted && used[k] == 0
    {
      var n, u := new bv8[|b.insts|], new bv8[|b.insts|];
      block, need, used := b, n, u;
      new;
      ResetNeed();
    }

    method ResetNeed()
      requires Valid()
      modifies need, used
      ensures forall k :: 0 <= k < need.Length ==> need[k] == block.insts[k].wanted && used[k] == 0
    {
      var i := need.Length;
      while i > 0
        invariant 0 <= i <= need.Length
        invariant forall k :: i <= k < need.Length ==> need[k] == block.insts[k].wanted && used[k] == 0
      {
        i := i - 1;
        used[i] := 0;
        need[i] := block.insts[i].wanted;
      }
    }

    /** The share of `UpdateNeed` that concerns instruction `n` itself: what it must now supply, and
        what it asks of the instructions before it, if that is news. */
    method TakeIn(n: nat, asked: bv8) returns (news: bool, toAsk: bv8)
      requires Valid() && n < need.Length && Tidy(block.insts[n], need[n])
      modifies need, used
      ensures var x, mine := block.insts[n], Norm(block.insts[n], Plus(old(need[n]), asked));
        && need[..] == old(need[..])[n := mine] && used[..] == old(used[..])[n := x.use]
        && (Idle(x, old(need[n]), old(used[n]), asked) ==> !news)
        && (!news ==> mine == old(need[n]) && x.use == old(used[n]) && (x.exits ==> Pending(mine)))
        && (news ==> (x.barrier ==> toAsk == 0 || toAsk == X_PEND) && (Sets(x) ==> toAsk != X_ALL | X_PEND))
        && (news ==> toAsk == Ask(x, mine) && (mine != old(need[n]) || x.use != old(used[n]) || x.exits))
    {
      hide WellFormed, Norm, Ask, Tidy, Plus, Pending;
      var x := block.insts[n];
      var oldNeed, oldUse := need[n], used[n];
      var newNeed, newSet := Resolve(x, Plus(oldNeed, asked));
      ghost var mine := newNeed;
      need[n] := newNeed;
      used[n] := x.use;
      if x.exits {
        newNeed := Plus(newNeed, X_PEND);
      }
      TakeInMeans(x, oldNeed, asked, mine, newNeed);
      if newNeed == oldNeed && x.use == oldUse {
        return false, 0;
      }
      toAsk := PassOn(x, mine, newNeed, newSet);
      return true, toAsk;
    }

    /** The need with its pending resolved where the instruction cannot leave flags pending, and what
        the instruction supplies. */
    static method Resolve(x: Inst, asked: bv8) returns (newNeed: bv8, newSet: bv8)
      ensures newNeed == Norm(x, asked) && newSet == Supplied(x)
    {
      newNeed := asked;
      if newNeed & X_PEND != 0 && x.state == SF_SUBSET {
        newNeed := (newNeed & !X_PEND) | X_ALL;
      }
      newSet := 0;
      if x.state & SF_SET != 0 {
        newSet := x.sets;
      }
      if x.state & SF_PENDING != 0 {
        newSet := newSet | X_PEND;
      }
      if newNeed & X_PEND != 0 && (x.state == SF_SET || x.state == SF_SUBSET) {
        newNeed := (newNeed & !X_PEND) | X_ALL;
      }
    }

    /** What is left to ask of the instructions before. */
    static method PassOn(x: Inst, ghost mine: bv8, need: bv8, newSet: bv8) returns (newNeed: bv8)
      requires newSet == Supplied(x) && need == if x.exits then Plus(mine, X_PEND) else mine
      ensures newNeed == Ask(x, mine)
      ensures x.barrier ==> newNeed == 0 || newNeed == X_PEND
      ensures Sets(x) ==> newNeed != X_ALL | X_PEND
    {
      if x.barrier { AskOfBarrier(x, mine); }
      if Sets(x) { AskNotAll(x, mine); }
      hide Supplied, Plus, Less, Sets;
      newNeed := Less(need, newSet);
      newNeed := Plus(newNeed, x.use);
      if newNeed != 0 && x.barrier {
        newNeed := X_PEND;
      }
      if newNeed == Plus(X_ALL, X_PEND) && Sets(x) {
        newNeed := X_ALL;
      }
    }

    /** Asks instruction `n` for the flags `asked`, and the instructions before it in turn. */
    method UpdateNeed(n: nat, asked: bv8)
      requires Valid() && n < need.Length && AllTidy(block.insts, need[..])
      requires AllJustified(block, need[..]) && JustlyAsked(block, n, asked)
      modifies need, used
      ensures AllJustified(block, need[..])
      ensures Steps() <= old(Steps())
      ensures Grown(block.insts, old(need[..]), old(used[..]), need[..], used[..])
      ensures used[n] == block.insts[n].use && Absorbs(block.insts[n], need[n], asked)
      ensures forall k :: 0 <= k < need.Length ==> Kept(block, old(need[..]), old(used[..]), need[..], used[..], k)
      ensures Idle(block.insts[n], old(need[n]), old(used[n]), asked) ==>
        need[..] == old(need[..]) && used[..] == old(used[..])
      ensures Settled(block, need[..], n) || (block.insts[n].exits ==> Pending(need[n]))
      decreases Steps(), Rank(block, n)
    {
      hide Potential, Norm, Ask, Settled, SettledEdge, Kept, HalfWay, Grown, GrownAt, Holds, Edge, Plus, Pending, AllJustified, JustlyAsked;
      ghost var s, u := need[..], used[..];
      OneJustified(block, s, n, asked);
      StepsDrop(block, s, u, n, asked);
      GrownOne(block.insts, s, u, n, asked);
      var news, toAsk := TakeIn(n, asked);
      ghost var s1, u1, mine := need[..], used[..], need[n];
      if !news {
        assert s1 == s && u1 == u;
        KeptNone(block, s, u);
        return;
      }
      HalfWayStart(block, s, u, n, asked);
      GrownNone(block.insts, s1, u1);
      GrownTidy(block.insts, s, u, s1, u1);
      var i := 0;
      while i < |block.preds[n]|
        invariant i <= |block.preds[n]|
        invariant Steps() <= Potential(block.insts, s1, u1)
        invariant Grown(block.insts, s1, u1, need[..], used[..])
        invariant HalfWay(block, s, u, mine, need[..], used[..], n, i)
        invariant used[n] == block.insts[n].use && AllTidy(block.insts, need[..]) && AllJustified(block, need[..])
      {
        ghost var t, v := need[..], used[..];
        var p := block.preds[n][i];
        PredIsEdge(block, n, i);
        UpdateNeed(p, toAsk);
        HalfWayStep(block, s, u, mine, t, v, need[..], used[..], n, i);
        GrownTrans(block.insts, s1, u1, t, v, need[..], used[..]);
        GrownTidy(block.insts, t, v, need[..], used[..]);
        GrownUsed(block.insts, t, v, need[..], used[..], n);
        i := i + 1;
      }
      GrownTrans(block.insts, s, u, s1, u1, need[..], used[..]);
      HalfWayEnd(block, s, u, mine, need[..], used[..], n);
      StillAbsorbs(block.insts, s1, u1, need[..], used[..], n, asked);
    }

    /** A whole round: everything is forgotten, then every instruction is asked, the last one first. */
    method Settle()
      requires Valid()
      modifies need, used
      ensures HoldsWanted(block, need[..]) && AllJustified(block, need[..])
      ensures forall k :: 0 <= k < need.Length && block.insts[k].state in [SF_SET, SF_SUBSET] ==> need[k] & X_PEND == 0
      ensures forall k :: 0 <= k < need.Length && Quiet(block.insts[k]) ==> Settled(block, need[..], k)
      ensures AllIdle(block.insts) ==> forall k :: 0 <= k < need.Length ==> need[k] == block.insts[k].wanted
    {
      hide WellFormed, Norm, Absorbs, Quiet, Settled, Idle, Kept, Grown, AllTidy, Walked, Potential, Pending, AllJustified, JustlyAsked;
      ResetNeed();
      ghost var s, u := need[..], used[..];
      WalkedStart(block, s, u);
      WantedJustified(block, s);
      var i := need.Length;
      while i > 0
        invariant 0 <= i <= need.Length && AllJustified(block, need[..])
        invariant Walked(block, s, u, need[..], used[..], i)
      {
        i := i - 1;
        ghost var t, v := need[..], used[..];
        WalkedTidy(block, s, u, t, v, i + 1);
        NothingAsked(block, i);
        UpdateNeed(i, 0);
        WalkedStep(block, s, u, t, v, need[..], used[..], i);
      }
      WalkedEnd(block, s, u, need[..], used[..]);
      forall k | 0 <= k < need.Length && Resolves(block.insts[k]) ensures need[k] & X_PEND == 0 {
        NoPendingLeft(block.insts[k], need[k], block.insts[k].wanted);
      }
    }

    /** When every instruction is quiet, a round ends in a fixpoint. */
    method SettleAll()
      requires Valid() && forall k :: 0 <= k < |block.insts| ==> Quiet(block.insts[k])
      modifies need, used
      ensures Fixpoint(block, need[..]) && HoldsWanted(block, need[..]) && AllJustified(block, need[..])
      ensures forall k :: 0 <= k < need.Length && block.insts[k].state in [SF_SET, SF_SUBSET] ==> need[k] & X_PEND == 0
    {
      hide Quiet, Settled, AllJustified;
      Settle();
    }

    /** And for any instruction that is not, there is a block, of it and a plain one before, where the
        round misses what it wants: quiet is exactly the condition. */
    static method LateNeedIsLost(x: Inst) returns (n: Needs)
      requires !Quiet(x) && (x.wanted == 0 || x.wanted == X_PEND)
      ensures n.Valid() && n.block.insts == [PLAIN, x] && !Fixpoint(n.block, n.need[..])
    {
      var b := Block([PLAIN, x], [[], [0]]);
      n := new Needs(b);
      LostIsIdle(b, x);
      n.Settle();
      LostIsLost(b, n.need[..], x);
    }
  }
}
