/** What a list of call frame instructions leaves behind, by what its last instructions of each kind say
    (DWARF 4, sections 6.4.2.1 to 6.4.2.4). */
module CfaMeaning {
  import opened Common
  import opened CfaSpec
  import opened CfaRules

  function OrElse<T>(o: Option<T>, other: T): T { if o.Some? then o.value else other }

  // ---- the frame address

  /** The register of the last instruction that names one for the frame address. */
  function LastCfaReg(xs: seq<Instr>): Option<nat> {
    if xs == [] then None
    else
      match xs[|xs| - 1]
      case DefCfa(reg, _, _) => Some(reg)
      case DefCfaRegister(reg) => Some(reg)
      case _ => LastCfaReg(xs[..|xs| - 1])
  }

  function Scaled(off: int, signed: bool, data: int): nat { Word(if signed then off * data else off) }

  /** The offset of the last one that gives one, in units of the data alignment where it is signed. */
  function LastCfaOffset(xs: seq<Instr>, data: int): Option<nat> {
    if xs == [] then None
    else
      match xs[|xs| - 1]
      case DefCfa(_, off, signed) => Some(Scaled(off, signed, data))
      case DefCfaOffset(off, signed) => Some(Scaled(off, signed, data))
      case _ => LastCfaOffset(xs[..|xs| - 1], data)
  }

  /** Whether the offset is signed: as the last full definition says, unless an unsigned offset came after. */
  function LastSigned(xs: seq<Instr>): Option<bool> {
    if xs == [] then None
    else
      match xs[|xs| - 1]
      case DefCfa(_, _, signed) => Some(signed)
      case DefCfaOffset(_, false) => Some(false)
      case _ => LastSigned(xs[..|xs| - 1])
  }

  /** Instructions at work end with the last of them. */
  lemma PerformLast(xs: seq<Instr>, f: Frame, init: Option<Initial>, al: Factors)
    requires xs != []
    ensures Perform(xs, f, init, al) ==
      match Perform(xs[..|xs| - 1], f, init, al)
      case None => None
      case Some(g) => Effect(xs[|xs| - 1], g, init, al)
  {
    hide Effect;
    var n := |xs| - 1;
    assert xs == xs[..n] + [xs[n]];
    PerformBoth(xs[..n], [xs[n]], f, init, al);
    if g :| Perform(xs[..n], f, init, al) == Some(g) { PerformOne(xs[n], g, init, al); }
  }

  lemma {:induction false} FrameAddress(xs: seq<Instr>, f: Frame, init: Option<Initial>, al: Factors)
    requires Perform(xs, f, init, al).Some?
    ensures var g := Perform(xs, f, init, al).value;
      && g.cfaReg == OrElse(LastCfaReg(xs), f.cfaReg)
      && g.cfaOff == OrElse(LastCfaOffset(xs, al.data), f.cfaOff)
      && g.cfaSigned == OrElse(LastSigned(xs), f.cfaSigned)
    decreases |xs|
  {
    if xs != [] {
      hide Perform, Word;
      PerformLast(xs, f, init, al);
      FrameAddress(xs[..|xs| - 1], f, init, al);
    } else {
      assert Perform(xs, f, init, al) == Some(f);
    }
  }

  // ---- the location

  /** The last location that is set, or where it starts. */
  function LastSet(xs: seq<Instr>, start: nat): nat {
    if xs == [] then start
    else if xs[|xs| - 1].SetLoc? then xs[|xs| - 1].loc
    else LastSet(xs[..|xs| - 1], start)
  }

  /** By how many steps it has moved on since. */
  function Steps(xs: seq<Instr>): nat {
    if xs == [] then 0
    else
      match xs[|xs| - 1]
      case SetLoc(_) => 0
      case Advance(d) => Steps(xs[..|xs| - 1]) + d
      case _ => Steps(xs[..|xs| - 1])
  }

  lemma WordTwice(x: int, y: int)
    ensures Word(Word(x) + y) == Word(x + y)
  {
    var q, r := x / WORD, x % WORD;
    WordIs(x + y, (r + y) / WORD + q, (r + y) % WORD);
  }

  lemma WordIs(x: int, q: int, r: nat)
    requires x == q * WORD + r && r < WORD
    ensures Word(x) == r
  {}

  lemma {:induction false} Location(xs: seq<Instr>, f: Frame, init: Option<Initial>, al: Factors)
    requires Perform(xs, f, init, al).Some?
    ensures Word(Perform(xs, f, init, al).value.loc) == Word(LastSet(xs, f.loc) + Steps(xs) * al.code)
    decreases |xs|
  {
    if xs == [] {
      assert Perform(xs, f, init, al) == Some(f);
    } else {
      hide Perform, Effect, Word;
      var n := |xs| - 1;
      PerformLast(xs, f, init, al);
      Location(xs[..n], f, init, al);
      var h := Perform(xs[..n], f, init, al).value;
      LocationStep(xs[n], h, init, al);
      if xs[n].Advance? { Moved(h.loc, LastSet(xs[..n], f.loc), Steps(xs[..n]), xs[n].delta, al.code); }
    }
  }

  lemma Moved(loc: nat, base: nat, steps: nat, d: nat, code: nat)
    requires Word(loc) == Word(base + steps * code)
    ensures Word(Word(loc + d * code)) == Word(base + (steps + d) * code)
  {
    hide Word;
    Spread(steps, d, code);
    WordTwice(loc, d * code);
    WordTwice(loc + d * code, 0);
    WordTwice(base + steps * code, d * code);
  }

  lemma Spread(a: nat, b: nat, c: nat)
    ensures (a + b) * c == a * c + b * c
  {}

  lemma LocationStep(i: Instr, h: Frame, init: Option<Initial>, al: Factors)
    requires Effect(i, h, init, al).Some?
    ensures Effect(i, h, init, al).value.loc ==
      match i { case Advance(d) => Word(h.loc + d * al.code) case SetLoc(l) => l case _ => h.loc }
  {}

  /** A location stays in a word. */
  lemma {:induction false} LocationInWord(xs: seq<Instr>, f: Frame, init: Option<Initial>, al: Factors)
    requires Perform(xs, f, init, al).Some? && f.loc < WORD && forall i <- xs :: i.SetLoc? ==> i.loc < WORD
    ensures Perform(xs, f, init, al).value.loc < WORD
    decreases |xs|
  {
    if xs != [] {
      assert xs[0] in xs && forall i <- xs[1..] :: i in xs;
      LocationStep(xs[0], f, init, al);
      hide Effect, Word;
      LocationInWord(xs[1..], Effect(xs[0], f, init, al).value, init, al);
    }
  }

  // ---- the numbers of the registers

  /** The number that an instruction gives to a register, if it gives one: an offset in units of the data
      alignment, a register, or that of the common part. */
  function NumberBy(i: Instr, init: Option<Initial>, data: int, reg: nat): Option<nat> {
    match i
    case Rule(r, Offset(off)) => if r == reg then Some(Word(off * data)) else None
    case Rule(r, ValOffset(off)) => if r == reg then Some(Word(off * data)) else None
    case Rule(r, InRegister(from)) => if r == reg then Some(from) else None
    case Restore(r) =>
      if r == reg && init.Some? && reg < |init.value.table| then Some(init.value.table[reg]) else None
    case _ => None
  }

  function LastNumber(xs: seq<Instr>, init: Option<Initial>, data: int, reg: nat): Option<nat> {
    if xs == [] then None
    else
      var last := NumberBy(xs[|xs| - 1], init, data, reg);
      if last.Some? then last else LastNumber(xs[..|xs| - 1], init, data, reg)
  }

  /** A table of numbers: what it was made from, and the instructions that have counted for it since. */
  datatype Level = Level(base: seq<nat>, since: seq<Instr>)

  /** The remembered tables and, on top, the current one. Remembering doubles the top, restoring drops it,
      everything else counts for it. */
  function Levels(ls: seq<Level>, xs: seq<Instr>): (r: seq<Level>)
    requires ls != []
    ensures r != []
    decreases |xs|
  {
    if xs == [] then ls
    else
      var top := ls[|ls| - 1];
      match xs[0]
      case Remember => Levels(ls + [top], xs[1..])
      case RestoreState => Levels(if |ls| > 1 then ls[..|ls| - 1] else ls, xs[1..])
      case i => Levels(ls[|ls| - 1 := top.(since := top.since + [i])], xs[1..])
  }

  function Tables(f: Frame): seq<seq<nat>> { f.stack + [f.table] }

  function Bases(f: Frame): (ls: seq<Level>)
    ensures |ls| == |f.stack| + 1
  {
    seq(|f.stack| + 1, k requires 0 <= k < |f.stack| + 1 => Level(Tables(f)[k], []))
  }

  predicate Numbers(table: seq<nat>, l: Level, init: Option<Initial>, data: int) {
    && |table| == |l.base|
    && forall reg :: 0 <= reg < |table| ==> table[reg] == OrElse(LastNumber(l.since, init, data, reg), l.base[reg])
  }

  predicate AllNumbers(f: Frame, ls: seq<Level>, init: Option<Initial>, data: int) {
    |ls| == |f.stack| + 1 && forall k :: 0 <= k < |ls| ==> Numbers(Tables(f)[k], ls[k], init, data)
  }

  /** Every table, remembered or current, holds for each register the number of the last rule that counts
      for it. */
  lemma NumbersMean(xs: seq<Instr>, f: Frame, init: Option<Initial>, al: Factors)
    requires Perform(xs, f, init, al).Some?
    ensures AllNumbers(Perform(xs, f, init, al).value, Levels(Bases(f), xs), init, al.data)
  {
    hide Perform, Levels;
    NumbersKept(xs, f, Bases(f), init, al);
  }

  lemma {:induction false} NumbersKept(xs: seq<Instr>, f: Frame, ls: seq<Level>, init: Option<Initial>, al: Factors)
    requires Perform(xs, f, init, al).Some? && ls != [] && AllNumbers(f, ls, init, al.data)
    ensures AllNumbers(Perform(xs, f, init, al).value, Levels(ls, xs), init, al.data)
    decreases |xs|
  {
    if xs != [] {
      var i, top := xs[0], ls[|ls| - 1];
      var h := Effect(i, f, init, al).value;
      var ms := match i
        case Remember => ls + [top]
        case RestoreState => if |ls| > 1 then ls[..|ls| - 1] else ls
        case _ => ls[|ls| - 1 := top.(since := top.since + [i])];
      OneCounts(i, f, ls, init, al);
      hide Effect, AllNumbers;
      NumbersKept(xs[1..], h, ms, init, al);
    }
  }

  lemma OneCounts(i: Instr, f: Frame, ls: seq<Level>, init: Option<Initial>, al: Factors)
    requires Effect(i, f, init, al).Some? && ls != [] && AllNumbers(f, ls, init, al.data)
    ensures var top := ls[|ls| - 1];
      AllNumbers(Effect(i, f, init, al).value,
                 match i
                 case Remember => ls + [top]
                 case RestoreState => if |ls| > 1 then ls[..|ls| - 1] else ls
                 case _ => ls[|ls| - 1 := top.(since := top.since + [i])], init, al.data)
  {
    var h, top := Effect(i, f, init, al).value, ls[|ls| - 1];
    assert Tables(f)[|ls| - 1] == f.table;
    if i.Remember? {
      assert forall k :: 0 <= k < |ls| ==> Tables(h)[k] == Tables(f)[k];
    } else if i.RestoreState? {
      assert forall k :: 0 <= k < |ls| - 1 ==> Tables(h)[k] == Tables(f)[k];
    } else {
      TableStep(i, f, init, al);
      NumbersStep(i, f.table, h.table, top, init, al.data);
      hide Effect, Numbers;
      assert forall k :: 0 <= k < |ls| - 1 ==> Tables(h)[k] == Tables(f)[k];
    }
  }

  lemma TableStep(i: Instr, f: Frame, init: Option<Initial>, al: Factors)
    requires Effect(i, f, init, al).Some? && !i.Remember? && !i.RestoreState?
    ensures var h := Effect(i, f, init, al).value;
      && h.stack == f.stack && |h.table| == |f.table|
      && forall reg :: 0 <= reg < |f.table| ==> h.table[reg] == OrElse(NumberBy(i, init, al.data, reg), f.table[reg])
  {}

  lemma NumbersStep(i: Instr, s: seq<nat>, t: seq<nat>, l: Level, init: Option<Initial>, data: int)
    requires Numbers(s, l, init, data) && |t| == |s|
    requires forall reg :: 0 <= reg < |s| ==> t[reg] == OrElse(NumberBy(i, init, data, reg), s[reg])
    ensures Numbers(t, l.(since := l.since + [i]), init, data)
  {
    hide NumberBy;
    var ys := l.since + [i];
    assert ys[..|ys| - 1] == l.since;
  }

  /** As long as no state is remembered or restored, it is simply the last rule for the register. */
  lemma NumberIsLast(xs: seq<Instr>, f: Frame, init: Option<Initial>, al: Factors, reg: nat)
    requires Perform(xs, f, init, al).Some? && reg < |f.table|
    requires forall i <- xs :: !i.Remember? && !i.RestoreState?
    ensures var g := Perform(xs, f, init, al).value;
      |g.table| == |f.table| && g.table[reg] == OrElse(LastNumber(xs, init, al.data, reg), f.table[reg])
  {
    hide Perform, LastNumber;
    NumbersMean(xs, f, init, al);
    OneLevel(Bases(f), xs);
    var g := Perform(xs, f, init, al).value;
    var ls, n := Levels(Bases(f), xs), |f.stack|;
    assert [] + xs == xs;
    assert Tables(f)[n] == f.table && Bases(f)[n] == Level(f.table, []);
    assert ls[n] == Level(f.table, xs) && |g.stack| == n && Tables(g)[n] == g.table;
    assert Numbers(Tables(g)[n], ls[n], init, al.data);
  }

  lemma {:induction false} OneLevel(ls: seq<Level>, xs: seq<Instr>)
    requires ls != [] && forall i <- xs :: !i.Remember? && !i.RestoreState?
    ensures var top := ls[|ls| - 1]; Levels(ls, xs) == ls[|ls| - 1 := top.(since := top.since + xs)]
    decreases |xs|
  {
    var top := ls[|ls| - 1];
    if xs == [] {
      assert top.since + xs == top.since;
    } else {
      assert xs[0] in xs && forall i <- xs[1..] :: i in xs;
      OneLevel(ls[|ls| - 1 := top.(since := top.since + [xs[0]])], xs[1..]);
      assert top.since + [xs[0]] + xs[1..] == top.since + xs;
    }
  }

  // ---- which instructions are carried out

  /** They come through exactly when they restore no more states than there are, and each can be done. */
  lemma {:induction false} ComesThrough(xs: seq<Instr>, f: Frame, init: Option<Initial>, al: Factors)
    ensures Perform(xs, f, init, al).Some? <==> Nest(xs, |f.stack|).Some? && forall i <- xs :: Doable(i, init)
    decreases |xs|
  {
    if xs != [] {
      var i := xs[0];
      assert xs == [i] + xs[1..];
      if i.RestoreState? && f.stack == [] {
      } else {
        StackStep(i, f, init, al, 0, |f.stack|);
        hide Effect, Doable;
        if Effect(i, f, init, al).Some? { ComesThrough(xs[1..], Effect(i, f, init, al).value, init, al); }
      }
    }
  }

  /** The instructions from `p` to `end`. */
  function Listed(mem: seq<Byte>, p: nat, end: nat): seq<Instr>
    decreases end - p
  {
    if p >= end then [] else [Fetch(mem, p).0] + Listed(mem, Fetch(mem, p).1, end)
  }

  /** An execution comes to a first part of them, and stops before the end only beyond its limit. */
  lemma {:induction false} RanIsPrefix(mem: seq<Byte>, p: nat, end: nat, f: Frame, init: Option<Initial>, al: Factors, limit: Option<nat>)
    ensures Ran(mem, p, end, f, init, al, limit) <= Listed(mem, p, end)
    ensures var r := Exec(mem, p, end, f, init, al, limit);
      r.Some? && Ran(mem, p, end, f, init, al, limit) != Listed(mem, p, end) ==> limit.Some? && r.value.loc > limit.value
    decreases end - p
  {
    hide Fetch, Effect;
    if p < end && !(limit.Some? && f.loc > limit.value) {
      var (i, q) := Fetch(mem, p);
      if Effect(i, f, init, al).Some? { RanIsPrefix(mem, q, end, Effect(i, f, init, al).value, init, al, limit); }
    }
  }

  /** While it goes on the location is within the limit. */
  lemma {:induction false} RanWithin(mem: seq<Byte>, p: nat, end: nat, f: Frame, init: Option<Initial>, al: Factors, limit: nat, k: nat)
    requires k < |Ran(mem, p, end, f, init, al, Some(limit))|
    ensures var g := Perform(Ran(mem, p, end, f, init, al, Some(limit))[..k], f, init, al);
      g.Some? && g.value.loc <= limit
    decreases end - p
  {
    hide Fetch, Effect;
    var xs := Ran(mem, p, end, f, init, al, Some(limit));
    var (i, q) := Fetch(mem, p);
    if k == 0 {
      assert xs[..0] == [];
    } else {
      var h := Effect(i, f, init, al).value;
      RanWithin(mem, q, end, h, init, al, limit, k - 1);
      assert xs[..k][1..] == Ran(mem, q, end, h, init, al, Some(limit))[..k - 1];
    }
  }

  /** The whole meaning of an execution of bytes. */
  lemma ExecMeans(mem: seq<Byte>, p: nat, end: nat, f: Frame, init: Option<Initial>, al: Factors, limit: Option<nat>)
    requires Exec(mem, p, end, f, init, al, limit).Some?
    ensures var xs, g := Ran(mem, p, end, f, init, al, limit), Exec(mem, p, end, f, init, al, limit).value;
      && g.cfaReg == OrElse(LastCfaReg(xs), f.cfaReg)
      && g.cfaOff == OrElse(LastCfaOffset(xs, al.data), f.cfaOff)
      && g.cfaSigned == OrElse(LastSigned(xs), f.cfaSigned)
      && Word(g.loc) == Word(LastSet(xs, f.loc) + Steps(xs) * al.code)
      && AllNumbers(g, Levels(Bases(f), xs), init, al.data)
      && |g.status| == |f.status|
      && forall reg :: 0 <= reg < |f.status| ==> g.status[reg] == Or(LastLeft(xs, init, reg), f.status[reg])
  {
    hide *;
    var xs := Ran(mem, p, end, f, init, al, limit);
    ExecPerforms(mem, p, end, f, init, al, limit);
    FrameAddress(xs, f, init, al);
    Location(xs, f, init, al);
    NumbersMean(xs, f, init, al);
    StatusLength(xs, f, init, al);
    forall reg | 0 <= reg < |f.status| { StatusAfter(xs, f, init, al, reg); }
  }

  /** What both parts come to: the common instructions all of them, with no rules to restore; then those of
      the function, up to the first location beyond `addr`, with the rules of the common part to restore. */
  lemma BothParts(c: Code, start: Frame, al: Factors, addr: nat) returns (mid: Frame, ys: seq<Instr>)
    requires ExecAll(c, start, al, addr).Some?
    ensures Perform(Listed(c.mem, c.cie, c.cieEnd), start, None, al) == Some(mid)
    ensures ys <= Listed(c.mem, c.fde, c.fdeEnd)
    ensures Perform(ys, mid, Some(Initial(mid.table, mid.status)), al) == ExecAll(c, start, al, addr)
    ensures ys != Listed(c.mem, c.fde, c.fdeEnd) ==> ExecAll(c, start, al, addr).value.loc > addr
    ensures forall k :: 0 <= k < |ys| ==>
      var g := Perform(ys[..k], mid, Some(Initial(mid.table, mid.status)), al); g.Some? && g.value.loc <= addr
  {
    hide Exec, Ran, Perform, Listed;
    mid := Exec(c.mem, c.cie, c.cieEnd, start, None, al, None).value;
    var init := Some(Initial(mid.table, mid.status));
    ExecPerforms(c.mem, c.cie, c.cieEnd, start, None, al, None);
    RanIsPrefix(c.mem, c.cie, c.cieEnd, start, None, al, None);
    ys := Ran(c.mem, c.fde, c.fdeEnd, mid, init, al, Some(addr));
    ExecPerforms(c.mem, c.fde, c.fdeEnd, mid, init, al, Some(addr));
    RanIsPrefix(c.mem, c.fde, c.fdeEnd, mid, init, al, Some(addr));
    forall k | 0 <= k < |ys| { RanWithin(c.mem, c.fde, c.fdeEnd, mid, init, al, addr, k); }
  }

  // ---- the tables are as large as they have to be

  /** The largest register of the first pass is that of the return address, or is named by one of the
      instructions, when all are below 255. */
  lemma {:induction false} LargestIsNamed(mem: seq<Byte>, p: nat, end: nat, s: Sizes)
    requires Scan(mem, p, end, s).Some? && s.regs < 255 && Small(mem, p, end)
    ensures var r := Scan(mem, p, end, s).value.regs; r == s.regs || exists i <- Listed(mem, p, end) :: r in Named(i)
    decreases end - p
  {
    hide Fetch;
    if p < end {
      var (i, q) := Fetch(mem, p);
      var t := Size(i, s).value;
      NamedUp(s.regs, Named(i));
      OneOfNames(s.regs, Named(i));
      LargestIsNamed(mem, q, end, t);
      var r := Scan(mem, p, end, s).value.regs;
      assert i in Listed(mem, p, end);
      if j :| j in Listed(mem, q, end) && r in Named(j) { assert j in Listed(mem, p, end); }
    }
  }

  /** When all names fit, every register that an instruction mentions has its place, that of the frame
      address included. */
  lemma {:induction false} MentionedFits(xs: seq<Instr>, n: nat)
    requires forall i <- xs :: NamesFit(i, n)
    ensures LastCfaReg(xs).Some? ==> LastCfaReg(xs).value < n
    ensures forall i <- xs ::
      && (i.DefCfa? || i.DefCfaRegister? || i.Rule? || i.Restore? ==> i.reg < n)
      && (i.Rule? && i.kind.InRegister? ==> i.kind.from < n)
    decreases |xs|
  {
    if xs != [] {
      var i, m := xs[|xs| - 1], |xs| - 1;
      assert i in xs && forall j <- xs[..m] :: j in xs;
      MentionedFits(xs[..m], n);
      OneFits(i, n);
      assert xs == xs[..m] + [i];
    }
  }

  lemma OneFits(i: Instr, n: nat)
    requires NamesFit(i, n)
    ensures i.DefCfa? || i.DefCfaRegister? || i.Rule? || i.Restore? ==> i.reg < n
    ensures i.Rule? && i.kind.InRegister? ==> i.kind.from < n
  {
    if i.DefCfa? || i.DefCfaRegister? || i.Rule? || i.Restore? { assert Named(i)[0] == i.reg; }
    if i.Rule? && i.kind.InRegister? { assert Named(i)[1] == i.kind.from; }
  }

  lemma {:induction false} OneOfNames(regs: nat, names: seq<nat>)
    requires regs < 255 && forall k :: 0 <= k < |names| ==> names[k] < 255
    ensures NameAll(regs, names) == regs || NameAll(regs, names) in names
    decreases names
  {
    if names != [] { OneOfNames(SetMax(regs, names[0]), names[1..]); }
  }

  /** The greatest depth of the first pass is reached: so many states are remembered after some of the
      instructions, and never more. */
  lemma {:induction false} GreatestDepth(mem: seq<Byte>, p: nat, end: nat, s: Sizes)
    requires Scan(mem, p, end, s).Some? && s.depth <= s.max
    ensures var xs, t := Listed(mem, p, end), Scan(mem, p, end, s).value;
      && Nest(xs, s.depth) == Some(t.depth)
      && (forall k :: 0 <= k <= |xs| ==> Nest(xs[..k], s.depth).Some? && Nest(xs[..k], s.depth).value <= t.max)
      && (t.max == s.max || exists k :: 0 <= k <= |xs| && Nest(xs[..k], s.depth) == Some(t.max))
    decreases end - p
  {
    hide Fetch;
    var xs := Listed(mem, p, end);
    if p < end {
      var (i, q) := Fetch(mem, p);
      var u := Size(i, s).value;
      GreatestDepth(mem, q, end, u);
      ScanDepth(mem, q, end, u);
      var ys, t := Listed(mem, q, end), Scan(mem, p, end, s).value;
      forall k | 0 <= k <= |xs| ensures Nest(xs[..k], s.depth).Some? && Nest(xs[..k], s.depth).value <= t.max {
        if k > 0 { NestPart(i, ys, k, s, u); }
      }
      if t.max == u.max && t.max != s.max {
        NestPart(i, ys, 1, s, u);
        assert Nest(xs[..1], s.depth) == Some(t.max);
      } else if t.max != s.max {
        var k :| 0 <= k <= |ys| && Nest(ys[..k], u.depth) == Some(t.max);
        NestPart(i, ys, k + 1, s, u);
        assert Nest(xs[..k + 1], s.depth) == Some(t.max);
      }
    }
  }

  lemma NestPart(i: Instr, ys: seq<Instr>, k: nat, s: Sizes, u: Sizes)
    requires Size(i, s) == Some(u) && 0 < k <= |ys| + 1
    ensures Nest(([i] + ys)[..k], s.depth) == Nest(ys[..k - 1], u.depth)
    ensures Nest([], u.depth) == Some(u.depth)
  {
    assert ([i] + ys)[..k][1..] == ys[..k - 1];
  }
}
