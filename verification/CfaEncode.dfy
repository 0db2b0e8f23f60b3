/** How call frame instructions are written (DWARF 4, sections 7.6 and 7.23): decoding undoes it. */
module CfaEncode {
  import opened Common
  import opened CfaSpec
  import CfaMeaning

  /** The bytes `s` stand in memory from `p` on. */
  predicate StandsAt(mem: seq<Byte>, p: nat, s: seq<Byte>) { p + |s| <= |mem| && mem[p..p + |s|] == s }

  lemma StandParts(mem: seq<Byte>, p: nat, a: seq<Byte>, b: seq<Byte>)
    requires StandsAt(mem, p, a + b)
    ensures StandsAt(mem, p, a) && StandsAt(mem, p + |a|, b)
  {
    var s := mem[p..p + |a| + |b|];
    assert mem[p..p + |a|] == s[..|a|] && mem[p + |a|..p + |a| + |b|] == s[|a|..];
  }

  lemma FirstByte(mem: seq<Byte>, p: nat, s: seq<Byte>)
    requires StandsAt(mem, p, s) && s != []
    ensures At(mem, p) == s[0] as nat && StandsAt(mem, p + 1, s[1..])
  {
    assert s[0] == mem[p..p + |s|][0];
    assert mem[p + 1..p + |s|] == mem[p..p + |s|][1..];
  }

  // ---- numbers

  /** `s` is a way to write `n` in base 128, low digits first: all bytes but the last have the top bit. */
  predicate IsUleb(n: nat, s: seq<Byte>) {
    && |s| > 0
    && if |s| == 1 then n == s[0] as nat < 128 else s[0] >= 128 && n % 128 == s[0] as nat - 128 && IsUleb(n / 128, s[1..])
  }

  /** And the integer `z`: the second bit from the top of the last byte is the sign. */
  predicate IsSleb(z: int, s: seq<Byte>)
    decreases |s|
  {
    && |s| > 0
    && if |s| == 1 then -64 <= z < 64 && z % 128 == s[0] as nat
       else s[0] >= 128 && z % 128 == s[0] as nat - 128 && IsSleb(z / 128, s[1..])
  }

  lemma {:induction false} UlebUndoes(mem: seq<Byte>, p: nat, n: nat, s: seq<Byte>)
    requires IsUleb(n, s) && StandsAt(mem, p, s)
    ensures Uleb(mem, p) == (n, p + |s|)
    decreases |s|
  {
    hide StandsAt;
    FirstByte(mem, p, s);
    if |s| > 1 { UlebUndoes(mem, p + 1, n / 128, s[1..]); }
  }

  lemma {:induction false} SlebUndoes(mem: seq<Byte>, p: nat, z: int, s: seq<Byte>)
    requires IsSleb(z, s) && StandsAt(mem, p, s)
    ensures Sleb(mem, p) == (z, p + |s|)
    decreases |s|
  {
    hide StandsAt;
    FirstByte(mem, p, s);
    if |s| > 1 { SlebUndoes(mem, p + 1, z / 128, s[1..]); }
  }

  function WriteUleb(n: nat): (s: seq<Byte>)
    ensures IsUleb(n, s)
  {
    if n < 128 then [n as Byte] else [(n % 128 + 128) as Byte] + WriteUleb(n / 128)
  }

  function WriteSleb(z: int): (s: seq<Byte>)
    ensures IsSleb(z, s)
    decreases if z < 0 then -z else z
  {
    if -64 <= z < 64 then [(z % 128) as Byte] else [(z % 128 + 128) as Byte] + WriteSleb(z / 128)
  }

  /** `n` in so many bytes, the low one first. */
  function WriteLittle(n: nat, bytes: nat): (s: seq<Byte>)
    ensures |s| == bytes
  {
    if bytes == 0 then [] else [(n % 256) as Byte] + WriteLittle(n / 256, bytes - 1)
  }

  function Limit(bytes: nat): nat { if bytes == 0 then 1 else 256 * Limit(bytes - 1) }

  lemma {:induction false} LittleUndoes(mem: seq<Byte>, p: nat, n: nat, bytes: nat)
    requires n < Limit(bytes) && StandsAt(mem, p, WriteLittle(n, bytes))
    ensures Little(mem, p, bytes) == n
    decreases bytes
  {
    hide StandsAt;
    if bytes > 0 {
      FirstByte(mem, p, WriteLittle(n, bytes));
      LittleUndoes(mem, p + 1, n / 256, bytes - 1);
    }
  }

  // ---- instructions

  /** What follows the first byte of an instruction. */
  datatype Operands =
    | NoOperand
    | Fixed(n: nat, bytes: nat)
    | U(a: nat)
    | S(z: int)
    | UU(a: nat, b: nat)
    | US(a: nat, z: int)

  /** The operands, written in some way. */
  ghost predicate Written(o: Operands, s: seq<Byte>) {
    match o
    case NoOperand => s == []
    case Fixed(n, bytes) => n < Limit(bytes) && s == WriteLittle(n, bytes)
    case U(a) => IsUleb(a, s)
    case S(z) => IsSleb(z, s)
    case UU(a, b) => exists k :: 0 <= k <= |s| && IsUleb(a, s[..k]) && IsUleb(b, s[k..])
    case US(a, z) => exists k :: 0 <= k <= |s| && IsUleb(a, s[..k]) && IsSleb(z, s[k..])
  }

  /** The table of section 7.23: the first byte of an instruction, and its operands. */
  predicate Encodes(b: nat, o: Operands, i: Instr) {
    match i
    case Nop => b == 0x00 && o == NoOperand
    case SetLoc(l) => b == 0x01 && o == Fixed(l, 8)
    case Advance(d) =>
      || (0x40 <= b < 0x80 && d == b - 0x40 && o == NoOperand)
      || (b == 0x02 && o == Fixed(d, 1)) || (b == 0x03 && o == Fixed(d, 2)) || (b == 0x04 && o == Fixed(d, 4))
    case Rule(r, Offset(off)) =>
      || (0x80 <= b < 0xc0 && r == b - 0x80 && off >= 0 && o == U(off))
      || (b == 0x05 && off >= 0 && o == UU(r, off)) || (b == 0x11 && o == US(r, off))
    case Rule(r, ValOffset(off)) => (b == 0x14 && off >= 0 && o == UU(r, off)) || (b == 0x15 && o == US(r, off))
    case Rule(r, Undefined) => b == 0x07 && o == U(r)
    case Rule(r, SameValue) => b == 0x08 && o == U(r)
    case Rule(r, InRegister(from)) => b == 0x09 && o == UU(r, from)
    case Restore(r) => (0xc0 <= b < 0x100 && r == b - 0xc0 && o == NoOperand) || (b == 0x06 && o == U(r))
    case Remember => b == 0x0a && o == NoOperand
    case RestoreState => b == 0x0b && o == NoOperand
    case DefCfa(r, off, false) => b == 0x0c && off >= 0 && o == UU(r, off)
    case DefCfa(r, off, true) => b == 0x12 && o == US(r, off)
    case DefCfaRegister(r) => b == 0x0d && o == U(r)
    case DefCfaOffset(off, false) => b == 0x0e && off >= 0 && o == U(off)
    case DefCfaOffset(off, true) => b == 0x13 && o == S(off)
    case Unknown => o == NoOperand && (b == 0x0f || b == 0x10 || 0x16 <= b < 0x40)
  }

  /** Reading the operands at `q` gives them, and ends at `r`. */
  predicate ReadAs(mem: seq<Byte>, q: nat, o: Operands, r: nat) {
    match o
    case NoOperand => r == q
    case Fixed(n, bytes) => Little(mem, q, bytes) == n && r == q + bytes
    case U(a) => Uleb(mem, q) == (a, r)
    case S(z) => Sleb(mem, q) == (z, r)
    case UU(a, b) => Uleb(mem, q).0 == a && Uleb(mem, Uleb(mem, q).1) == (b, r)
    case US(a, z) => Uleb(mem, q).0 == a && Sleb(mem, Uleb(mem, q).1) == (z, r)
  }

  lemma OperandsRead(mem: seq<Byte>, q: nat, o: Operands, s: seq<Byte>)
    requires Written(o, s) && StandsAt(mem, q, s)
    ensures ReadAs(mem, q, o, q + |s|)
  {
    hide IsUleb, IsSleb, Uleb, Sleb, StandsAt, Little, WriteLittle;
    match o
    case NoOperand =>
    case Fixed(n, bytes) => LittleUndoes(mem, q, n, bytes);
    case U(a) => UlebUndoes(mem, q, a, s);
    case S(z) => SlebUndoes(mem, q, z, s);
    case UU(a, b) =>
      var k :| 0 <= k <= |s| && IsUleb(a, s[..k]) && IsUleb(b, s[k..]);
      assert s == s[..k] + s[k..];
      StandParts(mem, q, s[..k], s[k..]);
      UlebUndoes(mem, q, a, s[..k]);
      UlebUndoes(mem, q + k, b, s[k..]);
    case US(a, z) =>
      var k :| 0 <= k <= |s| && IsUleb(a, s[..k]) && IsSleb(z, s[k..]);
      assert s == s[..k] + s[k..];
      StandParts(mem, q, s[..k], s[k..]);
      UlebUndoes(mem, q, a, s[..k]);
      SlebUndoes(mem, q + k, z, s[k..]);
  }

  /** Decoding undoes every way to write every instruction, and ends behind it. */
  lemma FetchUndoes(mem: seq<Byte>, p: nat, i: Instr, b: Byte, o: Operands, s: seq<Byte>)
    requires Encodes(b as nat, o, i) && Written(o, s) && StandsAt(mem, p, [b] + s)
    ensures Fetch(mem, p) == (i, p + 1 + |s|)
  {
    hide Written, StandsAt, Uleb, Sleb, Little;
    FirstByte(mem, p, [b] + s);
    assert ([b] + s)[1..] == s;
    OperandsRead(mem, p + 1, o, s);
  }

  predicate OperandsAre(o: Operands, n: nat, m: nat, z: int) {
    o == NoOperand || o.Fixed? || o == U(n) || o == S(z) || o == UU(n, m) || o == US(n, z)
  }

  /** Every first byte is that of some instruction, and says which operands follow. */
  lemma EveryByteEncodes(b: nat, n: nat, z: int, m: nat)
    requires b < 256
    ensures exists i, o :: Encodes(b, o, i) && OperandsAre(o, n, m, z)
  {
    var (o, i) :=
      if b == 0x00 then (NoOperand, Nop)
      else if b == 0x01 then (Fixed(0, 8), SetLoc(0))
      else if b == 0x02 then (Fixed(0, 1), Advance(0))
      else if b == 0x03 then (Fixed(0, 2), Advance(0))
      else if b == 0x04 then (Fixed(0, 4), Advance(0))
      else if b == 0x05 then (UU(n, m), Rule(n, Offset(m)))
      else if b == 0x06 then (U(n), Restore(n))
      else if b == 0x07 then (U(n), Rule(n, Undefined))
      else if b == 0x08 then (U(n), Rule(n, SameValue))
      else if b == 0x09 then (UU(n, m), Rule(n, InRegister(m)))
      else if b == 0x0a then (NoOperand, Remember)
      else if b == 0x0b then (NoOperand, RestoreState)
      else if b == 0x0c then (UU(n, m), DefCfa(n, m, false))
      else if b == 0x0d then (U(n), DefCfaRegister(n))
      else if b == 0x0e then (U(n), DefCfaOffset(n, false))
      else if b == 0x11 then (US(n, z), Rule(n, Offset(z)))
      else if b == 0x12 then (US(n, z), DefCfa(n, z, true))
      else if b == 0x13 then (S(z), DefCfaOffset(z, true))
      else if b == 0x14 then (UU(n, m), Rule(n, ValOffset(m)))
      else if b == 0x15 then (US(n, z), Rule(n, ValOffset(z)))
      else if b < 0x40 then (NoOperand, Unknown)
      else if b < 0x80 then (NoOperand, Advance(b - 0x40))
      else if b < 0xc0 then (U(n), Rule(b - 0x80, Offset(n)))
      else (NoOperand, Restore(b - 0xc0));
    assert Encodes(b, o, i);
  }

  // ---- an encoder

  /** The instructions that can be written. */
  predicate Writable(i: Instr) {
    match i
    case Advance(d) => d < Limit(4)
    case SetLoc(l) => l < Limit(8)
    case DefCfa(_, off, signed) => signed || off >= 0
    case DefCfaOffset(off, signed) => signed || off >= 0
    case Unknown => false
    case _ => true
  }

  function CodeOf(i: Instr): (nat, Operands)
    requires Writable(i)
  {
    match i
    case Nop => (0x00, NoOperand)
    case SetLoc(l) => (0x01, Fixed(l, 8))
    case Advance(d) => (0x04, Fixed(d, 4))
    case Rule(r, Offset(off)) => (0x11, US(r, off))
    case Rule(r, ValOffset(off)) => (0x15, US(r, off))
    case Rule(r, Undefined) => (0x07, U(r))
    case Rule(r, SameValue) => (0x08, U(r))
    case Rule(r, InRegister(from)) => (0x09, UU(r, from))
    case Restore(r) => (0x06, U(r))
    case Remember => (0x0a, NoOperand)
    case RestoreState => (0x0b, NoOperand)
    case DefCfa(r, off, signed) => if signed then (0x12, US(r, off)) else (0x0c, UU(r, off))
    case DefCfaRegister(r) => (0x0d, U(r))
    case DefCfaOffset(off, signed) => if signed then (0x13, S(off)) else (0x0e, U(off))
  }

  function WriteOperands(o: Operands): seq<Byte> {
    match o
    case NoOperand => []
    case Fixed(n, bytes) => WriteLittle(n, bytes)
    case U(a) => WriteUleb(a)
    case S(z) => WriteSleb(z)
    case UU(a, b) => WriteUleb(a) + WriteUleb(b)
    case US(a, z) => WriteUleb(a) + WriteSleb(z)
  }

  function Encode(i: Instr): seq<Byte>
    requires Writable(i)
  {
    var (b, o) := CodeOf(i);
    CodeFits(i);
    [b as Byte] + WriteOperands(o)
  }

  lemma CodeFits(i: Instr)
    requires Writable(i)
    ensures CodeOf(i).0 < 256 && Encodes(CodeOf(i).0, CodeOf(i).1, i) && Written(CodeOf(i).1, WriteOperands(CodeOf(i).1))
  {
    hide Limit, WriteLittle, WriteUleb, WriteSleb;
    var s := WriteOperands(CodeOf(i).1);
    match CodeOf(i).1
    case UU(a, b) => assert s[..|WriteUleb(a)|] == WriteUleb(a) && s[|WriteUleb(a)|..] == WriteUleb(b);
    case US(a, z) => assert s[..|WriteUleb(a)|] == WriteUleb(a) && s[|WriteUleb(a)|..] == WriteSleb(z);
    case _ =>
  }

  function EncodeAll(xs: seq<Instr>): seq<Byte>
    requires forall i <- xs :: Writable(i)
  {
    if xs == [] then [] else Encode(xs[0]) + EncodeAll(xs[1..])
  }

  lemma FetchUndoesEncode(mem: seq<Byte>, p: nat, i: Instr)
    requires Writable(i) && StandsAt(mem, p, Encode(i))
    ensures Fetch(mem, p) == (i, p + |Encode(i)|)
  {
    hide Fetch, CodeOf, WriteOperands, Written, Encodes, StandsAt;
    var (b, o) := CodeOf(i);
    CodeFits(i);
    FetchUndoes(mem, p, i, b as Byte, o, WriteOperands(o));
  }

  /** And decoding a whole encoded list gives the list. */
  lemma {:induction false} ListedUndoesEncode(mem: seq<Byte>, p: nat, xs: seq<Instr>)
    requires (forall i <- xs :: Writable(i)) && StandsAt(mem, p, EncodeAll(xs))
    ensures CfaMeaning.Listed(mem, p, p + |EncodeAll(xs)|) == xs
    decreases |xs|
  {
    hide Fetch, StandsAt, Encode;
    if xs != [] {
      var s, rest := Encode(xs[0]), EncodeAll(xs[1..]);
      NotEmpty(xs[0]);
      StandParts(mem, p, s, rest);
      FetchUndoesEncode(mem, p, xs[0]);
      ListedUndoesEncode(mem, p + |s|, xs[1..]);
    }
  }

  lemma NotEmpty(i: Instr)
    requires Writable(i)
    ensures |Encode(i)| > 0
  {}
}
