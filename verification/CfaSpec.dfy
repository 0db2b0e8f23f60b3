/** Call frame instructions: how they are encoded (DWARF 4, sections 6.4.2, 7.6 and 7.23), what the
    sizing pass finds out about them, and what they do to the unwind rules. */
module CfaSpec {
  import opened Common

  const WORD: nat := 0x1_0000_0000_0000_0000

  /** A 64-bit register or stack word. */
  function Word(x: int): (r: nat)
    ensures r < WORD
  {
    x % WORD
  }

  // ---- bytes

  /** What lies beyond the section reads as zero. */
  function At(mem: seq<Byte>, p: nat): (r: nat)
    ensures r < 256
  {
    if p < |mem| then mem[p] as nat else 0
  }

  /** An unsigned number in base 128, low digits first, and where it ends. */
  function Uleb(mem: seq<Byte>, p: nat): (r: (nat, nat))
    ensures r.1 > p
    decreases |mem| - p
  {
    var b := At(mem, p);
    if b >= 128 then
      var rest := Uleb(mem, p + 1);
      (b - 128 + 128 * rest.0, rest.1)
    else (b, p + 1)
  }

  /** The same in two's complement: the last digit carries the sign. */
  function Sleb(mem: seq<Byte>, p: nat): (r: (int, nat))
    ensures r.1 > p
    decreases |mem| - p
  {
    var b := At(mem, p);
    if b >= 128 then
      var rest := Sleb(mem, p + 1);
      (b - 128 + 128 * rest.0, rest.1)
    else (if b >= 64 then b - 128 else b, p + 1)
  }

  lemma {:induction false} SameEnd(mem: seq<Byte>, p: nat)
    ensures Sleb(mem, p).1 == Uleb(mem, p).1
    decreases |mem| - p
  {
    if At(mem, p) >= 128 { SameEnd(mem, p + 1); }
  }

  /** `n` bytes, the low one first. */
  function Little(mem: seq<Byte>, p: nat, n: nat): nat
    decreases n
  {
    if n == 0 then 0 else At(mem, p) + 256 * Little(mem, p + 1, n - 1)
  }

  // ---- instructions

  datatype Instr =
    | Nop
    | Advance(delta: nat)
    | SetLoc(loc: nat)
    | DefCfa(reg: nat, off: int, signed: bool)
    | DefCfaRegister(reg: nat)
    | DefCfaOffset(off: int, signed: bool)
    | Rule(reg: nat, kind: Kind)
    | Restore(reg: nat)
    | Remember
    | RestoreState
    | Unknown

  /** How a register is found: not at all, unchanged, saved at or being an offset from the frame
      address (in units of the data alignment), in another register. */
  datatype Kind = Undefined | SameValue | Offset(off: int) | ValOffset(off: int) | InRegister(from: nat)

  /** The instruction at `p`, and where the next one is. */
  function Fetch(mem: seq<Byte>, p: nat): (r: (Instr, nat))
    ensures r.1 > p
  {
    var b, q := At(mem, p), p + 1;
    var hi, lo := b / 64, b % 64;
    if hi == 1 then (Advance(lo), q)
    else if hi == 2 then (Rule(lo, Offset(Uleb(mem, q).0)), Uleb(mem, q).1)
    else if hi == 3 then (Restore(lo), q)
    else if lo == 0x00 then (Nop, q)
    else if lo == 0x01 then (SetLoc(Little(mem, q, 8)), q + 8)
    else if lo == 0x02 then (Advance(Little(mem, q, 1)), q + 1)
    else if lo == 0x03 then (Advance(Little(mem, q, 2)), q + 2)
    else if lo == 0x04 then (Advance(Little(mem, q, 4)), q + 4)
    else if lo == 0x0a then (Remember, q)
    else if lo == 0x0b then (RestoreState, q)
    else if lo == 0x0e then (DefCfaOffset(Uleb(mem, q).0, false), Uleb(mem, q).1)
    else if lo == 0x13 then (DefCfaOffset(Sleb(mem, q).0, true), Sleb(mem, q).1)
    else
      var (reg, s) := Uleb(mem, q);
      if lo == 0x06 then (Restore(reg), s)
      else if lo == 0x07 then (Rule(reg, Undefined), s)
      else if lo == 0x08 then (Rule(reg, SameValue), s)
      else if lo == 0x0d then (DefCfaRegister(reg), s)
      else if lo == 0x05 then (Rule(reg, Offset(Uleb(mem, s).0)), Uleb(mem, s).1)
      else if lo == 0x0c then (DefCfa(reg, Uleb(mem, s).0, false), Uleb(mem, s).1)
      else if lo == 0x14 then (Rule(reg, ValOffset(Uleb(mem, s).0)), Uleb(mem, s).1)
      else if lo == 0x11 then (Rule(reg, Offset(Sleb(mem, s).0)), Sleb(mem, s).1)
      else if lo == 0x12 then (DefCfa(reg, Sleb(mem, s).0, true), Sleb(mem, s).1)
      else if lo == 0x15 then (Rule(reg, ValOffset(Sleb(mem, s).0)), Sleb(mem, s).1)
      else if lo == 0x09 then (Rule(reg, InRegister(Uleb(mem, s).0)), Uleb(mem, s).1)
      else (Unknown, q)
  }

  /** The registers an instruction names, in order. */
  function Named(i: Instr): seq<nat> {
    match i
    case DefCfa(reg, _, _) => [reg]
    case DefCfaRegister(reg) => [reg]
    case Rule(reg, InRegister(from)) => [reg, from]
    case Rule(reg, _) => [reg]
    case Restore(reg) => [reg]
    case _ => []
  }

  // ---- the sizing pass

  /** The largest register so far, in a byte; how many states are remembered, now and at most. */
  datatype Sizes = Sizes(regs: nat, depth: nat, max: nat)

  function SetMax(a: nat, b: nat): nat { if a < b then b % 256 else a }

  function NameAll(regs: nat, names: seq<nat>): nat
    decreases names
  {
    if names == [] then regs else NameAll(SetMax(regs, names[0]), names[1..])
  }

  function Size(i: Instr, s: Sizes): Option<Sizes> {
    match i
    case Unknown => None
    case Remember => Some(s.(depth := s.depth + 1, max := if s.max < s.depth + 1 then s.depth + 1 else s.max))
    case RestoreState => if s.depth == 0 then None else Some(s.(depth := s.depth - 1))
    case _ => Some(s.(regs := NameAll(s.regs, Named(i))))
  }

  /** Instructions from `p` to `end`. */
  function Scan(mem: seq<Byte>, p: nat, end: nat, s: Sizes): Option<Sizes>
    decreases end - p
  {
    if p >= end then Some(s)
    else
      var (i, q) := Fetch(mem, p);
      match Size(i, s)
      case None => None
      case Some(t) => Scan(mem, q, end, t)
  }

  /** Where the instructions are: the common ones, and those of the function. */
  datatype Code = Code(mem: seq<Byte>, cie: nat, cieEnd: nat, fde: nat, fdeEnd: nat)

  /** Both parts, starting from the register of the return address. */
  function ScanAll(c: Code, ra: nat): Option<Sizes> {
    match Scan(c.mem, c.cie, c.cieEnd, Sizes(ra % 256, 0, 0))
    case None => None
    case Some(s) => Scan(c.mem, c.fde, c.fdeEnd, s)
  }

  /** The size of the tables: one more than the largest register, in a byte. */
  function Count(s: Sizes): nat { (s.regs + 1) % 256 }

  /** Every register from `p` on is one that a byte and its successor can count. */
  ghost predicate Small(mem: seq<Byte>, p: nat, end: nat)
    decreases end - p
  {
    p >= end || (NamesSmall(Fetch(mem, p).0) && Small(mem, Fetch(mem, p).1, end))
  }

  predicate NamesSmall(i: Instr) { forall k :: 0 <= k < |Named(i)| ==> Named(i)[k] < 255 }

  /** Every register that the instructions from `p` on name has its place in tables of size `n`. */
  ghost predicate Fits(mem: seq<Byte>, p: nat, end: nat, n: nat)
    decreases end - p
  {
    p >= end || (NamesFit(Fetch(mem, p).0, n) && Fits(mem, Fetch(mem, p).1, end, n))
  }

  predicate NamesFit(i: Instr, n: nat) { forall k :: 0 <= k < |Named(i)| ==> Named(i)[k] < n }

  lemma {:induction false} NamedUp(regs: nat, names: seq<nat>)
    requires regs < 255 && forall k :: 0 <= k < |names| ==> names[k] < 255
    ensures regs <= NameAll(regs, names) < 255
    ensures forall k :: 0 <= k < |names| ==> names[k] <= NameAll(regs, names)
    decreases names
  {
    if names != [] { NamedUp(SetMax(regs, names[0]), names[1..]); }
  }

  lemma {:induction false} ScanUp(mem: seq<Byte>, p: nat, end: nat, s: Sizes)
    requires Scan(mem, p, end, s).Some? && s.regs < 255 && Small(mem, p, end)
    ensures s.regs <= Scan(mem, p, end, s).value.regs < 255
    ensures Fits(mem, p, end, Scan(mem, p, end, s).value.regs + 1)
    decreases end - p
  {
    if p < end {
      var (i, q) := Fetch(mem, p);
      NamedUp(s.regs, Named(i));
      ScanUp(mem, q, end, Size(i, s).value);
    }
  }

  lemma {:induction false} FitsMore(mem: seq<Byte>, p: nat, end: nat, n: nat, m: nat)
    requires Fits(mem, p, end, n) && n <= m
    ensures Fits(mem, p, end, m)
    decreases end - p
  {
    if p < end { FitsMore(mem, Fetch(mem, p).1, end, n, m); }
  }

  lemma {:induction false} FitsIsSmall(mem: seq<Byte>, p: nat, end: nat, n: nat)
    requires Fits(mem, p, end, n) && n < 256
    ensures Small(mem, p, end)
    decreases end - p
  {
    if p < end { FitsIsSmall(mem, Fetch(mem, p).1, end, n); }
  }

  /** The tables have a place for every register that is named, and for the return address, exactly when
      all of them are below 255: from there on the byte wraps around. */
  lemma TablesFitIff(c: Code, ra: nat)
    requires ScanAll(c, ra).Some?
    ensures var n := Count(ScanAll(c, ra).value);
      ra < n && Fits(c.mem, c.cie, c.cieEnd, n) && Fits(c.mem, c.fde, c.fdeEnd, n)
      <==> ra < 255 && Small(c.mem, c.cie, c.cieEnd) && Small(c.mem, c.fde, c.fdeEnd)
  {
    hide Fetch, Size;
    var s0 := Sizes(ra % 256, 0, 0);
    var s1 := Scan(c.mem, c.cie, c.cieEnd, s0).value;
    var n := Count(ScanAll(c, ra).value);
    if ra < 255 && Small(c.mem, c.cie, c.cieEnd) && Small(c.mem, c.fde, c.fdeEnd) {
      ScanUp(c.mem, c.cie, c.cieEnd, s0);
      ScanUp(c.mem, c.fde, c.fdeEnd, s1);
      FitsMore(c.mem, c.cie, c.cieEnd, s1.regs + 1, n);
    }
    if ra < n && Fits(c.mem, c.cie, c.cieEnd, n) && Fits(c.mem, c.fde, c.fdeEnd, n) {
      FitsIsSmall(c.mem, c.cie, c.cieEnd, n);
      FitsIsSmall(c.mem, c.fde, c.fdeEnd, n);
    }
  }

  lemma {:induction false} ScanDepth(mem: seq<Byte>, p: nat, end: nat, s: Sizes)
    requires Scan(mem, p, end, s).Some? && s.depth <= s.max
    ensures s.max <= Scan(mem, p, end, s).value.max
    ensures Scan(mem, p, end, s).value.depth <= Scan(mem, p, end, s).value.max
    decreases end - p
  {
    hide Fetch;
    if p < end {
      var (i, q) := Fetch(mem, p);
      ScanDepth(mem, q, end, Size(i, s).value);
    }
  }

  // ---- executing

  const UNDEFINED: bv8 := 0
  const SAME_VALUE: bv8 := 5
  const OFFSET: bv8 := 2
  const VAL_OFFSET: bv8 := 3
  const REGISTER: bv8 := 4

  /** The alignment factors of the common part. */
  datatype Factors = Factors(code: nat, data: int)

  /** The rules of the common part, that `Restore` goes back to. */
  datatype Initial = Initial(table: seq<nat>, status: seq<bv8>)

  /** What has been worked out so far: the location, the frame address, a status and a number for every
      register, and the remembered numbers. */
  datatype Frame = Frame(loc: nat, cfaReg: nat, cfaOff: nat, cfaSigned: bool,
                         table: seq<nat>, status: seq<bv8>, stack: seq<seq<nat>>)

  function Put<T>(s: seq<T>, i: nat, v: T): seq<T> { if i < |s| then s[i := v] else s }

  /** Element `i` of another sequence, put in its place. */
  function PutFrom<T>(s: seq<T>, i: nat, from: seq<T>): seq<T> {
    if i < |s| && i < |from| then s[i := from[i]] else s
  }

  function StatusOf(k: Kind): bv8 {
    match k
    case Undefined => UNDEFINED
    case SameValue => SAME_VALUE
    case Offset(_) => OFFSET
    case ValOffset(_) => VAL_OFFSET
    case InRegister(_) => REGISTER
  }

  /** An instruction at work; `None` when it cannot be carried out: `Restore` in the common part, or one
      that is not known. Remembering covers the numbers, not the statuses. */
  function Effect(i: Instr, f: Frame, init: Option<Initial>, al: Factors): Option<Frame> {
    match i
    case Nop => Some(f)
    case Advance(d) => Some(f.(loc := Word(f.loc + d * al.code)))
    case SetLoc(l) => Some(f.(loc := l))
    case DefCfa(reg, off, signed) =>
      Some(f.(cfaReg := reg, cfaSigned := signed, cfaOff := Word(if signed then off * al.data else off)))
    case DefCfaRegister(reg) => Some(f.(cfaReg := reg))
    case DefCfaOffset(off, signed) =>
      Some(f.(cfaSigned := signed && f.cfaSigned, cfaOff := Word(if signed then off * al.data else off)))
    case Rule(reg, k) =>
      var g := f.(status := Put(f.status, reg, StatusOf(k)));
      (match k
       case Undefined => Some(g)
       case SameValue => Some(g)
       case Offset(off) => Some(g.(table := Put(f.table, reg, Word(off * al.data))))
       case ValOffset(off) => Some(g.(table := Put(f.table, reg, Word(off * al.data))))
       case InRegister(from) => Some(g.(table := Put(f.table, reg, from))))
    case Restore(reg) =>
      (match init
       case None => None
       case Some(o) => Some(f.(table := PutFrom(f.table, reg, o.table), status := PutFrom(f.status, reg, o.status))))
    case Remember => Some(f.(stack := f.stack + [f.table]))
    case RestoreState =>
      if f.stack == [] then None else Some(f.(table := f.stack[|f.stack| - 1], stack := f.stack[..|f.stack| - 1]))
    case Unknown => None
  }

  /** Instructions from `p` on, to `end` or to the first location beyond `limit`. */
  function Exec(mem: seq<Byte>, p: nat, end: nat, f: Frame, init: Option<Initial>, al: Factors, limit: Option<nat>): Option<Frame>
    decreases end - p
  {
    if p >= end || (limit.Some? && f.loc > limit.value) then Some(f)
    else
      var (i, q) := Fetch(mem, p);
      match Effect(i, f, init, al)
      case None => None
      case Some(g) => Exec(mem, q, end, g, init, al, limit)
  }

  /** Both parts, each register starting out as `start` says; what the first leaves is what `Restore` in
      the second goes back to. */
  function ExecAll(c: Code, start: Frame, al: Factors, addr: nat): Option<Frame> {
    match Exec(c.mem, c.cie, c.cieEnd, start, None, al, None)
    case None => None
    case Some(f) => Exec(c.mem, c.fde, c.fdeEnd, f, Some(Initial(f.table, f.status)), al, Some(addr))
  }

  /** The first 17 registers start out unchanged, the others undefined; no state is remembered. */
  predicate IsStart(f: Frame, n: nat, pc: nat) {
    && f.loc == pc && f.cfaReg == WORD - 1 && f.cfaOff == 0 && !f.cfaSigned && f.stack == []
    && |f.table| == |f.status| == n
    && forall i :: 0 <= i < n ==> f.status[i] == if i < 17 then SAME_VALUE else UNDEFINED
  }

  /** The depth that the sizing pass works out is the number of states that are really remembered. */
  lemma DepthAgrees(i: Instr, s: Sizes, f: Frame, init: Option<Initial>, al: Factors)
    requires Size(i, s).Some? && |f.stack| == s.depth
    ensures i.RestoreState? ==> s.depth > 0
    ensures i.Remember? ==> Size(i, s).value.max > s.depth
    ensures Effect(i, f, init, al).Some? ==> |Effect(i, f, init, al).value.stack| == Size(i, s).value.depth
  {}
}
