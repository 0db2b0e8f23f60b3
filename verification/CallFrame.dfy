/** The two passes over the call frame instructions: one to size the tables, one to fill them. */
module CallFrame {
  import opened Common
  import opened CfaSpec

  // ---- reading

  lemma UlebStep(mem: seq<Byte>, p: nat)
    ensures Uleb(mem, p)
      == if At(mem, p) >= 128 then (At(mem, p) - 128 + 128 * Uleb(mem, p + 1).0, Uleb(mem, p + 1).1) else (At(mem, p), p + 1)
    ensures Sleb(mem, p)
      == if At(mem, p) >= 128 then (At(mem, p) - 128 + 128 * Sleb(mem, p + 1).0, Sleb(mem, p + 1).1)
         else (if At(mem, p) >= 64 then At(mem, p) - 128 else At(mem, p), p + 1)
  {}

  lemma Weigh(total: int, v: int, w: int, low: int, rest: int)
    requires total == v + w * (low + 128 * rest)
    ensures total == (v + low * w) + (w * 128) * rest
  {}

  /** The bits of a digit land above those that are there, so putting them in is adding. */
  method ReadUleb(mem: seq<Byte>, at: nat) returns (v: nat, p: nat)
    ensures (v, p) == Uleb(mem, at)
  {
    hide *;
    v, p := 0, at;
    var weight: nat := 1;
    while true
      invariant Uleb(mem, at).0 == v + weight * Uleb(mem, p).0 && Uleb(mem, at).1 == Uleb(mem, p).1
      decreases |mem| - p
    {
      UlebStep(mem, p);
      var b := At(mem, p);
      Weigh(Uleb(mem, at).0, v, weight, b % 128, if b >= 128 then Uleb(mem, p + 1).0 else 0);
      p := p + 1;
      v := v + b % 128 * weight;
      if b < 128 { return; }
      AtBeyond(mem, p - 1);
      weight := weight * 128;
    }
  }

  lemma AtBeyond(mem: seq<Byte>, p: nat)
    ensures At(mem, p) > 0 ==> p < |mem|
  {}

  method ReadSleb(mem: seq<Byte>, at: nat) returns (v: int, p: nat)
    ensures (v, p) == Sleb(mem, at)
  {
    hide *;
    v, p := 0, at;
    var weight: nat := 1;
    var b := 0;
    while true
      invariant Sleb(mem, at).0 == v + weight * Sleb(mem, p).0 && Sleb(mem, at).1 == Sleb(mem, p).1
      decreases |mem| - p
    {
      UlebStep(mem, p);
      b := At(mem, p);
      Weigh(Sleb(mem, at).0, v, weight, b % 128, if b >= 128 then Sleb(mem, p + 1).0 else if b >= 64 then -1 else 0);
      p := p + 1;
      v := v + b % 128 * weight;
      weight := weight * 128;
      if b < 128 { break; }
      AtBeyond(mem, p - 1);
    }
    if b % 128 >= 64 {
      v := v - weight;
    }
  }

  method SkipLeb(mem: seq<Byte>, at: nat) returns (p: nat)
    ensures p == Uleb(mem, at).1
  {
    p := at + 1;
    while At(mem, p - 1) >= 128
      invariant p > at && (if At(mem, p - 1) >= 128 then Uleb(mem, p).1 == Uleb(mem, at).1 else p == Uleb(mem, at).1)
      decreases |mem| - p
    {
      p := p + 1;
    }
  }

  method ReadLittle(mem: seq<Byte>, at: nat, n: nat) returns (v: nat, p: nat)
    ensures v == Little(mem, at, n) && p == at + n
  {
    v := 0;
    var k := n;
    while k > 0
      invariant 0 <= k <= n && v == Little(mem, at + k, n - k)
    {
      k := k - 1;
      v := At(mem, at + k) + 256 * v;
    }
    p := at + n;
  }

  // ---- the sizing pass

  /** The registers from `p` on, two at most, are looked at and left behind. */
  method SizePass(mem: seq<Byte>, from: nat, end: nat, regs: nat, depth: nat, max: nat)
      returns (ok: bool, regCount: nat, curDepth: nat, maxDepth: nat)
    ensures ok <==> Scan(mem, from, end, Sizes(regs, depth, max)).Some?
    ensures ok ==> Scan(mem, from, end, Sizes(regs, depth, max)) == Some(Sizes(regCount, curDepth, maxDepth))
  {
    hide Fetch, Size;
    regCount, curDepth, maxDepth := regs, depth, max;
    var cur := from;
    while cur < end
      invariant Scan(mem, from, end, Sizes(regs, depth, max)) == Scan(mem, cur, end, Sizes(regCount, curDepth, maxDepth))
      decreases end - cur
    {
      ok, cur, regCount, curDepth, maxDepth := SizeOne(mem, cur, regCount, curDepth, maxDepth);
      if !ok { return; }
    }
    ok := true;
  }

  method SizeOne(mem: seq<Byte>, at: nat, regs: nat, depth: nat, max: nat)
      returns (ok: bool, cur: nat, regCount: nat, curDepth: nat, maxDepth: nat)
    ensures ok <==> Size(Fetch(mem, at).0, Sizes(regs, depth, max)).Some?
    ensures ok ==> cur == Fetch(mem, at).1
    ensures ok ==> Size(Fetch(mem, at).0, Sizes(regs, depth, max)) == Some(Sizes(regCount, curDepth, maxDepth))
  {
    hide Uleb, Sleb, Little, SetMax, NameAll;
    ok, regCount, curDepth, maxDepth := true, regs, depth, max;
    var inst := At(mem, at);
    cur := at + 1;
    NamesOne(regs);
    SameEnd(mem, cur);
    SameEnd(mem, Uleb(mem, cur).1);
    var hi, lo := inst / 64, inst % 64;
    if hi == 1 {
    } else if hi == 2 {
      regCount := SetMax(regCount, lo);
      cur := SkipLeb(mem, cur);
    } else if hi == 3 {
      regCount := SetMax(regCount, lo);
    } else if lo == 0x00 {
    } else if lo == 0x0a {
      curDepth := curDepth + 1;
      if maxDepth < curDepth { maxDepth := curDepth; }
    } else if lo == 0x0b {
      if curDepth == 0 { return false, cur, regCount, curDepth, maxDepth; }
      curDepth := curDepth - 1;
    } else if lo == 0x02 {
      cur := cur + 1;
    } else if lo == 0x03 {
      cur := cur + 2;
    } else if lo == 0x04 {
      cur := cur + 4;
    } else if lo == 0x01 {
      cur := cur + 8;
    } else if lo == 0x0e || lo == 0x13 {
      cur := SkipLeb(mem, cur);
    } else if lo == 0x06 || lo == 0x07 || lo == 0x08 || lo == 0x0d {
      var nreg;
      nreg, cur := ReadUleb(mem, cur);
      regCount := SetMax(regCount, nreg);
    } else if lo == 0x05 || lo == 0x0c || lo == 0x11 || lo == 0x12 || lo == 0x14 || lo == 0x15 {
      var nreg;
      nreg, cur := ReadUleb(mem, cur);
      regCount := SetMax(regCount, nreg);
      cur := SkipLeb(mem, cur);
    } else if lo == 0x09 {
      var nreg;
      nreg, cur := ReadUleb(mem, cur);
      regCount := SetMax(regCount, nreg);
      nreg, cur := ReadUleb(mem, cur);
      regCount := SetMax(regCount, nreg);
    } else {
      return false, cur, regCount, curDepth, maxDepth;
    }
  }

  lemma NamesOne(regs: nat)
    ensures NameAll(regs, []) == regs
    ensures forall r :: NameAll(regs, [r]) == SetMax(regs, r)
    ensures forall r, q :: NameAll(regs, [r, q]) == SetMax(SetMax(regs, r), q)
  {
    forall r: nat, q: nat ensures NameAll(regs, [r, q]) == SetMax(SetMax(regs, r), q) {
      assert [r, q][1..] == [q] && [q][1..] == [];
      assert NameAll(SetMax(regs, r), [q]) == NameAll(SetMax(SetMax(regs, r), q), []);
    }
    forall r: nat ensures NameAll(regs, [r]) == SetMax(regs, r) {
      assert [r][1..] == [];
    }
  }

  // ---- statuses, two to a byte

  /** The status of register `i`. */
  function GetStatus(bytes: seq<bv8>, i: nat): bv8
    requires i / 2 < |bytes|
  {
    Nibble(bytes[i / 2], i % 2)
  }

  function Nibble(b: bv8, half: nat): bv8 { if half == 0 then b & 0x0f else (b >> 4) & 0x0f }

  function WithNibble(b: bv8, half: nat, v: bv8): bv8 {
    if half == 0 then (b & 0xf0) | v else (b & (0xf0 >> 4)) | (v << 4)
  }

  lemma NibbleKept(b: bv8, half: nat, v: bv8, other: nat)
    requires v <= 0x0f && half <= 1 && other <= 1
    ensures Nibble(WithNibble(b, half, v), other) == if other == half then v else Nibble(b, other)
  {}

  /** Setting the status of one register leaves those of the others, its neighbour in the byte too. */
  lemma SetOneStatus(bytes: seq<bv8>, i: nat, v: bv8, j: nat)
    requires i / 2 < |bytes| && j / 2 < |bytes| && v <= 0x0f
    ensures var after := bytes[i / 2 := WithNibble(bytes[i / 2], i % 2, v)];
      GetStatus(after, j) == if j == i then v else GetStatus(bytes, j)
  {
    hide Nibble, WithNibble;
    NibbleKept(bytes[i / 2], i % 2, v, j % 2);
  }

  /** The first 17 statuses are set before anything runs, one more than there is room for when the tables
      are smaller: it stays inside exactly when there are 17 or an odd number of registers. */
  lemma InitFitsIff(n: nat)
    ensures (forall i :: 0 <= i < 17 && i <= n ==> i / 2 < (n + 1) / 2) <==> n >= 17 || n % 2 == 1
  {
    if n < 17 && n % 2 == 0 { assert !(n / 2 < (n + 1) / 2); }
  }
}
