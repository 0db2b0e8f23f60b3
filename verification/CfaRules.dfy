/** What remembering and restoring a state brings back of the unwind rules (DWARF 4, section 6.4.2.4). */
module CfaRules {
  import opened Common
  import opened CfaSpec

  /** Instructions at work one after another. */
  function Perform(xs: seq<Instr>, f: Frame, init: Option<Initial>, al: Factors): Option<Frame>
    decreases |xs|
  {
    if xs == [] then Some(f)
    else
      match Effect(xs[0], f, init, al)
      case None => None
      case Some(g) => Perform(xs[1..], g, init, al)
  }

  /** The instructions that an execution comes to. */
  function Ran(mem: seq<Byte>, p: nat, end: nat, f: Frame, init: Option<Initial>, al: Factors, limit: Option<nat>): seq<Instr>
    decreases end - p
  {
    if p >= end || (limit.Some? && f.loc > limit.value) then []
    else
      var (i, q) := Fetch(mem, p);
      match Effect(i, f, init, al)
      case None => [i]
      case Some(g) => [i] + Ran(mem, q, end, g, init, al, limit)
  }

  lemma {:induction false} ExecPerforms(mem: seq<Byte>, p: nat, end: nat, f: Frame, init: Option<Initial>, al: Factors, limit: Option<nat>)
    ensures Exec(mem, p, end, f, init, al, limit) == Perform(Ran(mem, p, end, f, init, al, limit), f, init, al)
    decreases end - p
  {
    hide Fetch, Effect;
    if p < end && !(limit.Some? && f.loc > limit.value) {
      var (i, q) := Fetch(mem, p);
      if Effect(i, f, init, al).Some? {
        var g := Effect(i, f, init, al).value;
        ExecPerforms(mem, q, end, g, init, al, limit);
        assert ([i] + Ran(mem, q, end, g, init, al, limit))[1..] == Ran(mem, q, end, g, init, al, limit);
      }
    }
  }

  lemma {:induction false} PerformBoth(a: seq<Instr>, b: seq<Instr>, f: Frame, init: Option<Initial>, al: Factors)
    ensures Perform(a + b, f, init, al) ==
      match Perform(a, f, init, al) { case None => None case Some(g) => Perform(b, g, init, al) }
    decreases |a|
  {
    hide Effect;
    if a == [] {
      assert a + b == b;
    } else {
      assert (a + b)[1..] == a[1..] + b;
      if Effect(a[0], f, init, al).Some? { PerformBoth(a[1..], b, Effect(a[0], f, init, al).value, init, al); }
    }
  }

  // ---- between a state remembered and the same state restored

  /** How many states are remembered after the instructions, with `d` before; none when they would
      restore one that was remembered earlier. */
  function Nest(xs: seq<Instr>, d: nat): Option<nat>
    decreases |xs|
  {
    if xs == [] then Some(d)
    else
      match xs[0]
      case Remember => Nest(xs[1..], d + 1)
      case RestoreState => if d == 0 then None else Nest(xs[1..], d - 1)
      case _ => Nest(xs[1..], d)
  }

  /** Whatever they remember they restore, and nothing else. */
  predicate Nested(xs: seq<Instr>) { Nest(xs, 0) == Some(0) }

  predicate Doable(i: Instr, init: Option<Initial>) { !i.Unknown? && (i.Restore? ==> init.Some?) }

  lemma {:induction false} StackBelow(xs: seq<Instr>, f: Frame, init: Option<Initial>, al: Factors, n: nat, d: nat)
    requires |f.stack| == n + d && Nest(xs, d).Some?
    ensures var g := Perform(xs, f, init, al);
      && (g.Some? <==> forall i <- xs :: Doable(i, init))
      && (g.Some? ==> |g.value.stack| == n + Nest(xs, d).value && g.value.stack[..n] == f.stack[..n])
    decreases |xs|
  {
    if xs != [] {
      var e := match xs[0] case Remember => d + 1 case RestoreState => d - 1 case _ => d;
      var h := Effect(xs[0], f, init, al);
      StackStep(xs[0], f, init, al, n, d);
      hide Effect, Doable;
      if h.Some? { StackBelow(xs[1..], h.value, init, al, n, e); }
      assert xs == [xs[0]] + xs[1..];
    }
  }

  lemma StackStep(i: Instr, f: Frame, init: Option<Initial>, al: Factors, n: nat, d: nat)
    requires |f.stack| == n + d && (i.RestoreState? ==> d > 0)
    ensures var h := Effect(i, f, init, al);
      && (h.Some? <==> Doable(i, init))
      && (h.Some? ==> h.value.stack[..n] == f.stack[..n]
                      && |h.value.stack| == match i { case Remember => n + d + 1 case RestoreState => n + d - 1 case _ => n + d })
  {}

  /** The statuses of the kinds of rules. */
  lemma StatusTable(k: Kind)
    ensures StatusOf(k) ==
      match k { case Undefined => 0 case SameValue => 5 case Offset(_) => 2 case ValOffset(_) => 3 case InRegister(_) => 4 }
  {}

  /** The status that an instruction leaves to a register, if it sets one. */
  function LeftBy(i: Instr, init: Option<Initial>, reg: nat): Option<bv8> {
    match i
    case Rule(r, k) => if r == reg then Some(StatusOf(k)) else None
    case Restore(r) =>
      if r == reg && init.Some? && reg < |init.value.status| then Some(init.value.status[reg]) else None
    case _ => None
  }

  function Or(o: Option<bv8>, other: bv8): bv8 { if o.Some? then o.value else other }

  /** The status that the last of the instructions to set one leaves. */
  function LastLeft(xs: seq<Instr>, init: Option<Initial>, reg: nat): Option<bv8> {
    if xs == [] then None
    else
      var rest := LastLeft(xs[1..], init, reg);
      if rest.Some? then rest else LeftBy(xs[0], init, reg)
  }

  /** The last rule for each register that gets one is of the kind it had before. */
  predicate LeavesKinds(xs: seq<Instr>, init: Option<Initial>, status: seq<bv8>) {
    forall reg :: 0 <= reg < |status| && LastLeft(xs, init, reg).Some? ==> LastLeft(xs, init, reg).value == status[reg]
  }

  lemma {:induction false} StatusAfter(xs: seq<Instr>, f: Frame, init: Option<Initial>, al: Factors, reg: nat)
    requires Perform(xs, f, init, al).Some? && reg < |f.status|
    ensures var g := Perform(xs, f, init, al).value;
      |g.status| == |f.status| && g.status[reg] == Or(LastLeft(xs, init, reg), f.status[reg])
    decreases |xs|
  {
    if xs != [] {
      var h := Effect(xs[0], f, init, al).value;
      StatusStep(xs[0], f, init, al, reg);
      hide Effect, LeftBy;
      StatusAfter(xs[1..], h, init, al, reg);
    }
  }

  lemma StatusStep(i: Instr, f: Frame, init: Option<Initial>, al: Factors, reg: nat)
    requires Effect(i, f, init, al).Some? && reg < |f.status|
    ensures var h := Effect(i, f, init, al).value;
      |h.status| == |f.status| && h.status[reg] == Or(LeftBy(i, init, reg), f.status[reg])
  {}

  // ---- the main result

  function Bracket(xs: seq<Instr>): seq<Instr> { [Remember] + xs + [RestoreState] }

  lemma BracketRuns(xs: seq<Instr>, f: Frame, init: Option<Initial>, al: Factors)
    ensures Perform(Bracket(xs), f, init, al) ==
      match Perform(xs, f.(stack := f.stack + [f.table]), init, al)
      case None => None
      case Some(g) => Effect(RestoreState, g, init, al)
  {
    hide Effect;
    var g := f.(stack := f.stack + [f.table]);
    RememberIs(f, init, al);
    assert Bracket(xs) == [Remember] + (xs + [RestoreState]) && Bracket(xs)[1..] == xs + [RestoreState];
    PerformBoth(xs, [RestoreState], g, init, al);
    if h :| Perform(xs, g, init, al) == Some(h) { PerformOne(RestoreState, h, init, al); }
  }

  lemma RememberIs(f: Frame, init: Option<Initial>, al: Factors)
    ensures Effect(Remember, f, init, al) == Some(f.(stack := f.stack + [f.table]))
  {}

  lemma PerformOne(i: Instr, f: Frame, init: Option<Initial>, al: Factors)
    ensures Perform([i], f, init, al) == Effect(i, f, init, al)
  {
    hide Effect;
    assert [i][1..] == [];
  }

  /** Whatever instructions stand between a state remembered and the same state restored: the numbers come
      back, and so does what was remembered before; the statuses do exactly when the last instruction to
      set the status of a register leaves the one it had. */
  lemma RestoredRules(xs: seq<Instr>, f: Frame, init: Option<Initial>, al: Factors)
    requires Nested(xs)
    ensures var r := Perform(Bracket(xs), f, init, al);
      && (r.Some? <==> forall i <- xs :: Doable(i, init))
      && (r.Some? ==>
            && r.value.table == f.table && r.value.stack == f.stack
            && (r.value.status == f.status <==> LeavesKinds(xs, init, f.status)))
  {
    var g := f.(stack := f.stack + [f.table]);
    BracketRuns(xs, f, init, al);
    StackBelow(xs, g, init, al, |g.stack|, 0);
    hide Doable, LastLeft, Perform;
    var r := Perform(xs, g, init, al);
    if r.Some? {
      assert r.value.stack == r.value.stack[..|g.stack|] == g.stack;
      assert g.stack[..|f.stack|] == f.stack;
      StatusesAfter(xs, g, init, al);
    }
  }

  lemma StatusesAfter(xs: seq<Instr>, g: Frame, init: Option<Initial>, al: Factors)
    requires Perform(xs, g, init, al).Some?
    ensures Perform(xs, g, init, al).value.status == g.status <==> LeavesKinds(xs, init, g.status)
  {
    hide LastLeft, Perform;
    var t := Perform(xs, g, init, al).value.status;
    forall reg | 0 <= reg < |g.status|
      ensures |t| == |g.status| && t[reg] == Or(LastLeft(xs, init, reg), g.status[reg])
    {
      StatusAfter(xs, g, init, al, reg);
    }
    StatusLength(xs, g, init, al);
  }

  lemma {:induction false} StatusLength(xs: seq<Instr>, f: Frame, init: Option<Initial>, al: Factors)
    requires Perform(xs, f, init, al).Some?
    ensures |Perform(xs, f, init, al).value.status| == |f.status|
    decreases |xs|
  {
    if xs != [] { StatusLength(xs[1..], Effect(xs[0], f, init, al).value, init, al); }
  }

  /** So in every execution that comes through such a stretch. */
  lemma RunRestores(mem: seq<Byte>, p: nat, end: nat, f: Frame, init: Option<Initial>, al: Factors, limit: Option<nat>,
                    before: seq<Instr>, xs: seq<Instr>, after: seq<Instr>)
    requires Ran(mem, p, end, f, init, al, limit) == before + Bracket(xs) + after && Nested(xs)
    requires Exec(mem, p, end, f, init, al, limit).Some?
    ensures var at, back := Perform(before, f, init, al), Perform(before + Bracket(xs), f, init, al);
      && at.Some? && back.Some? && Exec(mem, p, end, f, init, al, limit) == Perform(after, back.value, init, al)
      && back.value.table == at.value.table && back.value.stack == at.value.stack
      && (back.value.status == at.value.status <==> LeavesKinds(xs, init, at.value.status))
  {
    hide *;
    ExecPerforms(mem, p, end, f, init, al, limit);
    PerformBoth(before + Bracket(xs), after, f, init, al);
    PerformBoth(before, Bracket(xs), f, init, al);
    RestoredRules(xs, Perform(before, f, init, al).value, init, al);
  }

  /** Remember, leave a register undefined, restore: its number is back, and it stays undefined. */
  lemma RestoreMissesStatus(reg: nat, f: Frame, init: Option<Initial>, al: Factors)
    requires reg < 128 && reg < |f.status| && f.status[reg] != UNDEFINED
    ensures var r := Exec([0x0a, 0x07, reg as Byte, 0x0b], 0, 4, f, init, al, None);
      r.Some? && r.value.table == f.table && r.value.status == f.status[reg := UNDEFINED] != f.status
  {
    var mem: seq<Byte> := [0x0a, 0x07, reg as Byte, 0x0b];
    assert Fetch(mem, 0) == (Remember, 1);
    assert Uleb(mem, 2) == (reg, 3);
    assert Fetch(mem, 1) == (Rule(reg, Undefined), 3);
    assert Fetch(mem, 3) == (RestoreState, 4);
    hide Fetch;
    var g := f.(stack := f.stack + [f.table]);
    var h := g.(status := f.status[reg := UNDEFINED]);
    var r := h.(stack := f.stack);
    assert Effect(Remember, f, init, al) == Some(g) && Effect(Rule(reg, Undefined), g, init, al) == Some(h);
    assert h.stack[..|h.stack| - 1] == f.stack;
    assert Effect(RestoreState, h, init, al) == Some(r);
    assert Exec(mem, 4, 4, r, init, al, None) == Some(r);
    assert Exec(mem, 3, 4, h, init, al, None) == Some(r);
    assert Exec(mem, 1, 4, g, init, al, None) == Some(r);
  }
}
