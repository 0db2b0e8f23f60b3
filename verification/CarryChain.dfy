/** Add with carry, subtract with borrow and compare, with the flags they leave. */
module CarryChain {
  import opened Bits
  import opened CarrySpec

  /** The parity table: eight words with a bit for every byte. */
  function ParityWord(k: bv8): bv32 {
    if k == 0 then 0x96696996 else if k == 1 then 0x69969669 else if k == 2 then 0x69969669 else if k == 3 then 0x96696996
    else if k == 4 then 0x69969669 else if k == 5 then 0x96696996 else if k == 6 then 0x96696996 else 0x69969669
  }

  predicate Parity(b: bv8) {
    (ParityWord(b >> 5) >> (b & 0x1f)) & 1 == 0
  }

  /** The table has it right: the flag means an even number of ones. */
  lemma ParityIsEven(b: bv8)
    ensures Parity(b)
      <==> (b ^ (b >> 1) ^ (b >> 2) ^ (b >> 3) ^ (b >> 4) ^ (b >> 5) ^ (b >> 6) ^ (b >> 7)) & 1 == 0
  {}

  predicate ParityOf(x: nat) { Parity((x % 256) as bv8) }

  predicate Xor2(x: nat) { (x % 2 + x / 2 % 2) % 2 == 1 }

  lemma Xor2Bits(x: nat, i: nat)
    ensures Xor2(Shr(x, i)) <==> Bit(x, i) != Bit(x, i + 1)
  {
    hide Pow;
    ShrIs(x, i);
    PowNext(i);
    PowPositive(i);
    HalfAgain(x, Pow(i));
    Xor2Is(x / Pow(i));
    hide Xor2;
  }

  lemma Xor2Is(q: nat)
    ensures Xor2(q) <==> q % 2 != q / 2 % 2
  {}

  lemma HalfAgain(x: nat, p: nat)
    requires p > 0
    ensures x / (2 * p) == x / p / 2
  {
    var q, r := x / p, x % p;
    assert x == q * p + r;
    CutAt(x, p, q / 2, q % 2, r);
  }

  /** The top bit of a word, and the bit above it. */
  lemma TopBit(w: nat, x: nat)
    requires w > 0
    ensures x < Pow(w) ==> (Bit(x, w - 1) == 1 <==> x >= Pow(w - 1))
    ensures x < 2 * Pow(w) ==> (Bit(x, w) == 1 <==> x >= Pow(w))
  {
    PowNext(w - 1);
    if x < Pow(w) { TopBitAt(x, Pow(w - 1)); }
    if x < 2 * Pow(w) { TopBitAt(x, Pow(w)); }
  }

  lemma TopBitAt(x: nat, p: nat)
    requires 0 < p && x < 2 * p
    ensures x / p % 2 == 1 <==> x >= p
  {
    if x >= p { Quotient(x, p, 1, x - p); } else { Quotient(x, p, 0, x); }
  }

  /** What the upper halves and the carry of the lower ones add up to. */
  function Halves(d: nat, s: nat, c: nat, h: nat): nat
    requires h > 0
  {
    Upper(c + Lower(d, h) + Lower(s, h), Higher(d, h), Higher(s, h), h)
  }

  function Lower(x: nat, h: nat): nat
    requires h > 0
  {
    x % h
  }

  function Higher(x: nat, h: nat): nat
    requires h > 0
  {
    x / h
  }

  function Upper(lo: nat, dh: nat, sh: nat, h: nat): nat
    requires h > 0
  {
    lo / h + dh + sh
  }

  predicate Carries(hi: nat, h: nat)
    requires h > 0
  {
    hi / h % 2 == 1
  }

  /** Adding the two halves one after the other finds the carry that the word has no room for. */
  lemma HalvesCarry(d: nat, s: nat, c: nat, h: nat)
    requires h > 1 && d < h * h && s < h * h && c <= 1
    ensures Carries(Halves(d, s, c, h), h) <==> d + s + c >= h * h
  {
    hide *;
    HalvesIs(d, s, c, h);
    InHalves(d, h);
    InHalves(s, h);
    HalvesAt(d, s, c, h, Higher(d, h), Lower(d, h), Higher(s, h), Lower(s, h));
  }

  lemma HalvesIs(d: nat, s: nat, c: nat, h: nat)
    requires h > 0
    ensures Halves(d, s, c, h) == Upper(c + Lower(d, h) + Lower(s, h), Higher(d, h), Higher(s, h), h)
  {}

  lemma InHalves(x: nat, h: nat)
    requires h > 0
    ensures x == h * Higher(x, h) + Lower(x, h) && Lower(x, h) < h
  {
    DivMod(x, h);
  }

  lemma HalvesAt(d: nat, s: nat, c: nat, h: nat, dh: nat, dl: nat, sh: nat, sl: nat)
    requires h > 1 && d < h * h && s < h * h && c <= 1 && dl < h && sl < h
    requires d == h * dh + dl && s == h * sh + sl
    ensures Carries(Upper(c + dl + sl, dh, sh, h), h) <==> d + s + c >= h * h
  {
    HalvesSmall(d, h, dh, dl);
    HalvesSmall(s, h, sh, sl);
    var lo := c + dl + sl;
    var lh := if lo >= h then 1 else 0;
    CarryLowAt(lo, h, lh);
    var hi := lh + dh + sh;
    Distribute(h, lh, dh, sh);
    HalvesBound(hi, h, lo - h * lh);
    TopBitAt(hi, h);
  }

  lemma CarryLowAt(lo: nat, h: nat, lh: nat)
    requires 0 < h && lo < 2 * h && lh == if lo >= h then 1 else 0
    ensures lo / h == lh && 0 <= lo - h * lh < h
  {
    if lo >= h { Quotient(lo, h, 1, lo - h); } else { Quotient(lo, h, 0, lo); }
  }

  lemma Distribute(h: nat, x: nat, y: nat, z: nat)
    ensures h * (x + y + z) == h * x + h * y + h * z
  {}

  lemma HalvesBound(hi: nat, h: nat, r: nat)
    requires r < h
    ensures h * hi + r >= h * h <==> hi >= h
  {
    if hi >= h { assert h * hi >= h * h; } else { assert h * hi <= h * (h - 1); }
  }

  lemma HalvesSmall(d: nat, h: nat, dh: nat, dl: nat)
    requires h > 0 && d < h * h && d == h * dh + dl
    ensures dh < h
  {
    assert dh >= h ==> h * dh >= h * h;
  }

  lemma WideCarry(w: nat, d: nat, s: nat, c: nat)
    requires (w == 32 || w == 64) && d < Pow(w) && s < Pow(w) && c <= 1
    ensures Pow(w / 2) > 0 && (Carries(Halves(d, s, c, Pow(w / 2)), Pow(w / 2)) <==> AddCarries(w, d, s, c))
  {
    hide Pow, Halves, Carries;
    PowSum(w / 2, w / 2);
    PowBig(w / 2);
    HalvesCarry(d, s, c, Pow(w / 2));
  }

  // ---- the instructions

  function AddWord(w: nat, d: nat, s: nat, c: nat): nat { Low(d + s + c, w) }

  predicate AddCarries(w: nat, d: nat, s: nat, c: nat) { d + s + c >= Pow(w) }

  function CarryIn(cf: bool): nat { if cf then 1 else 0 }

  /** The flags after a sum, in terms of the numbers. */
  ghost predicate AddFlags(w: nat, d: nat, s: nat, c: nat, e: Emu)
    requires w > 0
    reads e
  {
    && (e.cf <==> AddCarries(w, d, s, c))
    && (e.zf <==> AddWord(w, d, s, c) == 0)
    && (e.sf <==> AddWord(w, d, s, c) >= Pow(w - 1))
    && (e.of <==> !Fits(w, Signed(w, d) + Signed(w, s) + c))
    && (e.af <==> d % 16 + s % 16 + c >= 16)
    && (e.pf <==> ParityOf(AddWord(w, d, s, c)))
  }

  /** And after a difference. */
  ghost predicate SubFlags(w: nat, d: nat, s: nat, c: nat, e: Emu)
    requires w > 0 && s + c <= d + Pow(w)
    reads e
  {
    && (e.cf <==> d < s + c)
    && (e.zf <==> Minus(w, d, s, c) == 0)
    && (e.sf <==> Minus(w, d, s, c) >= Pow(w - 1))
    && (e.of <==> !Fits(w, Signed(w, d) - Signed(w, s) - c))
    && (e.af <==> d % 16 < s % 16 + c)
    && (e.pf <==> ParityOf(Minus(w, d, s, c)))
  }

  lemma Pow3()
    ensures Pow(4) == 16
  {
    assert Pow(2) == 4;
  }

  /** What the carry chain tells about a sum, for operands that may be shorter than the register. */
  lemma SumFlags(w: nat, reg: nat, d: nat, s: nat, c: nat, res: nat)
    requires 4 < w <= reg && d < Pow(w) && s < Pow(w) && c <= 1 && res == Low(d + s + c, reg)
    ensures Low(res, w) == AddWord(w, d, s, c)
    ensures Bit(res, w - 1) == 1 <==> AddWord(w, d, s, c) >= Pow(w - 1)
    ensures Xor2(Shr(CarryChain(reg, d, s, res), w - 2)) <==> !Fits(w, Signed(w, d) + Signed(w, s) + c)
    ensures Bit(CarryChain(reg, d, s, res), 3) == 1 <==> d % 16 + s % 16 + c >= 16
  {
    hide Pow, Bit, CarryChain, Fits, Signed, Xor2;
    LowLow(d + s + c, w, reg);
    TopBit(w, Low(res, w));
    LowBit(res, w, w - 1);
    var cc := CarryChain(reg, d, s, res);
    CarryChainBit(reg, d, s, c, res, w - 1);
    CarryChainBit(reg, d, s, c, res, w - 2);
    CarryChainBit(reg, d, s, c, res, 3);
    Xor2Bits(cc, w - 2);
    CarryOverflow(w, d, s, c);
    Pow3();
  }

  /** And the borrow chain about a difference. */
  lemma DifferenceFlags(w: nat, reg: nat, d: nat, s: nat, c: nat, res: nat)
    requires 4 < w <= reg && d < Pow(w) && s < Pow(w) && c <= 1 && s + c <= d + Pow(reg) && res == Minus(reg, d, s, c)
    requires d < Pow(reg)
    ensures s + c <= d + Pow(w) && Low(res, w) == Minus(w, d, s, c)
    ensures Bit(res, w - 1) == 1 <==> Minus(w, d, s, c) >= Pow(w - 1)
    ensures Bit(BorrowChain(reg, d, s, res), w - 1) == 1 <==> d < s + c
    ensures Xor2(Shr(BorrowChain(reg, d, s, res), w - 2)) <==> !Fits(w, Signed(w, d) - Signed(w, s) - c)
    ensures Bit(BorrowChain(reg, d, s, res), 3) == 1 <==> d % 16 < s % 16 + c
  {
    hide Pow, Bit, BorrowChain, Fits, Signed, Xor2;
    MinusShort(w, reg, d, s, c);
    TopBit(w, Low(res, w));
    LowBit(res, w, w - 1);
    var bc := BorrowChain(reg, d, s, res);
    BorrowChainBit(reg, d, s, c, res, w - 1);
    BorrowChainBit(reg, d, s, c, res, w - 2);
    BorrowChainBit(reg, d, s, c, res, 3);
    Xor2Bits(bc, w - 2);
    BorrowOverflow(w, d, s, c);
    Pow3();
    Top(d, Pow(w));
    Top(s, Pow(w));
  }

  lemma MinusShort(w: nat, reg: nat, d: nat, s: nat, c: nat)
    requires w <= reg && d < Pow(w) && s < Pow(w) && c <= 1 && s + c <= d + Pow(reg)
    ensures s + c <= d + Pow(w) && Low(Minus(reg, d, s, c), w) == Minus(w, d, s, c)
  {
    hide *;
    PowSum(reg - w, w);
    PowPositive(w);
    PowPositive(reg - w);
    MinusAt(d, s, c, Pow(reg - w), Pow(w), Pow(reg));
    MinusIs(w, d, s, c);
    MinusIs(reg, d, s, c);
    LowOf(Minus(reg, d, s, c), w);
  }

  lemma PowPositive(i: nat)
    ensures Pow(i) > 0
  {}

  lemma MinusIs(w: nat, d: nat, s: nat, c: nat)
    requires s + c <= d + Pow(w)
    ensures Pow(w) > 0 && Minus(w, d, s, c) == (d + Pow(w) - s - c) % Pow(w)
  {}

  lemma LowOf(x: nat, w: nat)
    ensures Pow(w) > 0 && Low(x, w) == x % Pow(w)
  {}

  lemma MinusAt(d: nat, s: nat, c: nat, k: nat, m: nat, n: nat)
    requires k > 0 && m > 0 && n == k * m && s + c <= d + m
    ensures n >= m && (d + n - s - c) % n % m == (d + m - s - c) % m
  {
    ModTurns(d + m - s - c, k, m);
    ModMod(d + n - s - c, k, m);
  }

  class Emu {
    var cf: bool
    var pf: bool
    var af: bool
    var zf: bool
    var sf: bool
    var of: bool

    /** For operands of 8 and 16 bits, in a register of 32. */
    method AdcNarrow(w: nat, d: nat, s: nat) returns (r: nat)
      requires (w == 8 || w == 16) && d < Pow(w) && s < Pow(w)
      modifies this
      ensures r == AddWord(w, d, s, old(CarryIn(cf))) && AddFlags(w, d, s, old(CarryIn(cf)), this)
    {
      hide Pow, Bit, Low, CarryChain, Fits, Signed, Xor2, AddWord, ParityOf;
      ghost var c := CarryIn(cf);
      var res := if cf then 1 + d + s else d + s;
      NarrowFits(w, d, s, c);
      SumFlags(w, 32, d, s, c, res);
      TopBit(w, res);
      cf := Bit(res, w) == 1;
      zf := Low(res, w) == 0;
      sf := Bit(res, w - 1) == 1;
      pf := ParityOf(Low(res, w));
      var cc := CarryChain(32, d, s, res);
      of := Xor2(Shr(cc, w - 2));
      af := Bit(cc, 3) == 1;
      r := Low(res, w);
    }

    /** For operands of 32 and 64 bits, whose sum has no room: its carry is found in halves. */
    method AdcWide(w: nat, d: nat, s: nat) returns (res: nat)
      requires (w == 32 || w == 64) && d < Pow(w) && s < Pow(w)
      modifies this
      ensures res == AddWord(w, d, s, old(CarryIn(cf))) && AddFlags(w, d, s, old(CarryIn(cf)), this)
    {
      hide Pow, Bit, Low, CarryChain, Fits, Signed, Xor2, AddWord, AddCarries, ParityOf, Upper, Lower, Higher, Carries;
      ghost var c := CarryIn(cf);
      var half := Pow(w / 2);
      var lo;
      if cf {
        lo := 1 + Lower(d, half) + Lower(s, half);
        res := Low(1 + d + s, w);
      } else {
        lo := Lower(d, half) + Lower(s, half);
        res := Low(d + s, w);
      }
      var hi := Upper(lo, Higher(d, half), Higher(s, half), half);
      WideCarry(w, d, s, c);
      SumFlags(w, w, d, s, c, res);
      LowIs(res, w);
      cf := Carries(hi, half);
      zf := res == 0;
      sf := Bit(res, w - 1) == 1;
      pf := ParityOf(res);
      var cc := CarryChain(w, d, s, res);
      of := Xor2(Shr(cc, w - 2));
      af := Bit(cc, 3) == 1;
    }

    method Sbb(w: nat, d: nat, s: nat) returns (r: nat)
      requires (w == 8 || w == 16 || w == 32 || w == 64) && d < Pow(w) && s < Pow(w)
      modifies this
      ensures s + old(CarryIn(cf)) <= d + Pow(w)
      ensures r == Minus(w, d, s, old(CarryIn(cf))) && SubFlags(w, d, s, old(CarryIn(cf)), this)
    {
      var c := CarryIn(cf);
      r := Subtract(w, d, s, c);
    }

    /** Compares, and gives the first operand back. */
    method Cmp(w: nat, d: nat, s: nat) returns (r: nat)
      requires (w == 8 || w == 16 || w == 32 || w == 64) && d < Pow(w) && s < Pow(w)
      modifies this
      ensures r == d && s <= d + Pow(w) && SubFlags(w, d, s, 0, this)
    {
      var res := Subtract(w, d, s, 0);
      r := d;
    }

    /** Operands of 8 and 16 bits are subtracted in a register of 32. */
    method Subtract(w: nat, d: nat, s: nat, c: nat) returns (r: nat)
      requires (w == 8 || w == 16 || w == 32 || w == 64) && d < Pow(w) && s < Pow(w) && c <= 1
      modifies this
      ensures s + c <= d + Pow(w) && r == Minus(w, d, s, c) && SubFlags(w, d, s, c, this)
    {
      hide Pow, Bit, Low, BorrowChain, Fits, Signed, Xor2, ParityOf, Minus;
      var reg := if w < 32 then 32 else w;
      PowGrows(w, reg);
      var res := Minus(reg, d, s, c);
      DifferenceFlags(w, reg, d, s, c, res);
      r := Low(res, w);
      sf := Bit(res, w - 1) == 1;
      zf := r == 0;
      pf := ParityOf(r);
      var bc := BorrowChain(reg, d, s, res);
      cf := Bit(bc, w - 1) == 1;
      of := Xor2(Shr(bc, w - 2));
      af := Bit(bc, 3) == 1;
    }

    /** `Adc` of any width. */
    method Adc(w: nat, d: nat, s: nat) returns (r: nat)
      requires (w == 8 || w == 16 || w == 32 || w == 64) && d < Pow(w) && s < Pow(w)
      modifies this
      ensures r == AddWord(w, d, s, old(CarryIn(cf))) && AddFlags(w, d, s, old(CarryIn(cf)), this)
    {
      if w < 32 { r := AdcNarrow(w, d, s); } else { r := AdcWide(w, d, s); }
    }

    /** A program that adds a long number to another, limb by limb: the sum is exact, and the carry flag
        holds what does not fit. */
    method AddLimbs(w: nat, a: array<nat>, b: seq<nat>)
      requires w == 8 || w == 16 || w == 32 || w == 64
      requires |b| == a.Length && Limbs(w, a[..]) && Limbs(w, b)
      modifies this, a
      ensures Limbs(w, a[..])
      ensures Value(w, a[..]) + CarryIn(cf) * Range(w, a.Length) == Value(w, old(a[..])) + Value(w, b) + old(CarryIn(cf))
    {
      hide Pow, AddWord, AddCarries, AdcLeft, AdcAll, Value, Range, Fits, Signed, ParityOf;
      ghost var s, c := a[..], CarryIn(cf);
      var i := 0;
      AdcLeftStart(w, s, b, c);
      while i < a.Length
        invariant 0 <= i <= a.Length && a[i..] == s[i..]
        invariant AdcLeft(w, s, b, c, a[..i], i, CarryIn(cf))
      {
        ghost var done := a[..i];
        AdcLeftStep(w, s, b, c, done, i, CarryIn(cf));
        assert a[i] == a[i..][0] == s[i];
        var r := Adc(w, a[i], b[i]);
        a[i] := r;
        i := i + 1;
        assert a[..i] == done + [r] && a[i..] == s[i..];
      }
      assert a[..i] == a[..];
      AdcLeftEnd(w, s, b, c, a[..], CarryIn(cf));
      ChainAdds(w, s, b, c);
    }

    /** And one that subtracts. */
    method SubtractLimbs(w: nat, a: array<nat>, b: seq<nat>)
      requires w == 8 || w == 16 || w == 32 || w == 64
      requires |b| == a.Length && Limbs(w, a[..]) && Limbs(w, b)
      modifies this, a
      ensures Limbs(w, a[..])
      ensures Value(w, a[..]) - CarryIn(cf) * Range(w, a.Length) == Value(w, old(a[..])) - Value(w, b) - old(CarryIn(cf))
    {
      hide Pow, Minus, SbbLeft, SbbAll, Value, Range, Fits, Signed, ParityOf;
      ghost var s, c := a[..], CarryIn(cf);
      var i := 0;
      SbbLeftStart(w, s, b, c);
      while i < a.Length
        invariant 0 <= i <= a.Length && a[i..] == s[i..]
        invariant SbbLeft(w, s, b, c, a[..i], i, CarryIn(cf))
      {
        ghost var done := a[..i];
        SbbLeftStep(w, s, b, c, done, i, CarryIn(cf));
        assert a[i] == a[i..][0] == s[i];
        var r := Sbb(w, a[i], b[i]);
        a[i] := r;
        i := i + 1;
        assert a[..i] == done + [r] && a[i..] == s[i..];
      }
      assert a[..i] == a[..];
      SbbLeftEnd(w, s, b, c, a[..], CarryIn(cf));
      ChainSubtracts(w, s, b, c);
    }
  }

  lemma {:induction false} PowGrows(i: nat, j: nat)
    requires i <= j
    ensures Pow(i) <= Pow(j)
    decreases j
  {
    if i < j { PowGrows(i, j - 1); }
  }

  lemma PowBig(i: nat)
    requires i > 0
    ensures Pow(i) > 1
  {}

  lemma TopIs(x: nat, p: nat)
    requires x < p
    ensures x % p == x
  {
    Quotient(x, p, 0, x);
  }

  lemma LowIs(x: nat, w: nat)
    requires x < Pow(w)
    ensures Low(x, w) == x
  {
    TopIs(x, Pow(w));
  }

  lemma NarrowFits(w: nat, d: nat, s: nat, c: nat)
    requires (w == 8 || w == 16) && d < Pow(w) && s < Pow(w) && c <= 1
    ensures d + s + c < 2 * Pow(w) && d + s + c == Low(d + s + c, 32)
  {
    hide Pow;
    PowNext(w);
    PowGrows(w + 1, 32);
    LowIs(d + s + c, 32);
  }

  // ---- chains

  /** The number that limbs of `w` bits stand for, low limb first. */
  function Value(w: nat, a: seq<nat>): nat {
    if a == [] then 0 else a[0] + Pow(w) * Value(w, a[1..])
  }

  /** How many numbers `n` limbs can stand for. */
  function Range(w: nat, n: nat): nat { if n == 0 then 1 else Pow(w) * Range(w, n - 1) }

  predicate Limbs(w: nat, a: seq<nat>) { forall i :: 0 <= i < |a| ==> a[i] < Pow(w) }

  /** `Adc` on limb after limb, each with the carry of the one before. */
  function AdcAll(w: nat, a: seq<nat>, b: seq<nat>, c: nat): (r: (seq<nat>, nat))
    requires |a| == |b|
    ensures |r.0| == |a|
  {
    if a == [] then ([], c)
    else
      var rest := AdcAll(w, a[1..], b[1..], if AddCarries(w, a[0], b[0], c) then 1 else 0);
      ([AddWord(w, a[0], b[0], c)] + rest.0, rest.1)
  }

  function SbbAll(w: nat, a: seq<nat>, b: seq<nat>, c: nat): (r: (seq<nat>, nat))
    requires |a| == |b| && c <= 1 && Limbs(w, a) && Limbs(w, b)
    ensures |r.0| == |a|
  {
    if a == [] then ([], c)
    else
      var rest := SbbAll(w, a[1..], b[1..], if a[0] < b[0] + c then 1 else 0);
      ([Minus(w, a[0], b[0], c)] + rest.0, rest.1)
  }

  /** After `i` limbs, `done` are the words so far and `k` is the carry. */
  ghost predicate AdcLeft(w: nat, a: seq<nat>, b: seq<nat>, c: nat, done: seq<nat>, i: nat, k: nat)
    requires i <= |a| == |b|
  {
    && AdcAll(w, a, b, c).0 == done + AdcAll(w, a[i..], b[i..], k).0
    && AdcAll(w, a, b, c).1 == AdcAll(w, a[i..], b[i..], k).1
  }

  lemma AdcLeftStart(w: nat, a: seq<nat>, b: seq<nat>, c: nat)
    requires |a| == |b|
    ensures AdcLeft(w, a, b, c, [], 0, c)
  {
    assert a[0..] == a && b[0..] == b;
  }

  lemma AdcLeftStep(w: nat, a: seq<nat>, b: seq<nat>, c: nat, done: seq<nat>, i: nat, k: nat)
    requires i < |a| == |b| && AdcLeft(w, a, b, c, done, i, k)
    ensures AdcLeft(w, a, b, c, done + [AddWord(w, a[i], b[i], k)], i + 1, if AddCarries(w, a[i], b[i], k) then 1 else 0)
  {
    assert a[i..][1..] == a[i + 1..] && b[i..][1..] == b[i + 1..];
  }

  lemma AdcLeftEnd(w: nat, a: seq<nat>, b: seq<nat>, c: nat, done: seq<nat>, k: nat)
    requires |a| == |b| && AdcLeft(w, a, b, c, done, |a|, k)
    ensures AdcAll(w, a, b, c).0 == done && AdcAll(w, a, b, c).1 == k
  {
    assert a[|a|..] == [] && b[|a|..] == [];
  }

  /** After `i` limbs, `done` are the words so far and `k` is the carry. */
  ghost predicate SbbLeft(w: nat, a: seq<nat>, b: seq<nat>, c: nat, done: seq<nat>, i: nat, k: nat)
    requires i <= |a| == |b| && c <= 1 && k <= 1 && Limbs(w, a) && Limbs(w, b)
  {
    && SbbAll(w, a, b, c).0 == done + SbbAll(w, a[i..], b[i..], k).0
    && SbbAll(w, a, b, c).1 == SbbAll(w, a[i..], b[i..], k).1
  }

  lemma SbbLeftStart(w: nat, a: seq<nat>, b: seq<nat>, c: nat)
    requires |a| == |b| && c <= 1 && Limbs(w, a) && Limbs(w, b)
    ensures SbbLeft(w, a, b, c, [], 0, c)
  {
    assert a[0..] == a && b[0..] == b;
  }

  lemma SbbLeftStep(w: nat, a: seq<nat>, b: seq<nat>, c: nat, done: seq<nat>, i: nat, k: nat)
    requires i < |a| == |b| && c <= 1 && k <= 1 && Limbs(w, a) && Limbs(w, b) && SbbLeft(w, a, b, c, done, i, k)
    ensures a[i] < Pow(w) && b[i] < Pow(w) && b[i] + k <= a[i] + Pow(w)
    ensures SbbLeft(w, a, b, c, done + [Minus(w, a[i], b[i], k)], i + 1, if a[i] < b[i] + k then 1 else 0)
  {
    assert a[i..][1..] == a[i + 1..] && b[i..][1..] == b[i + 1..];
  }

  lemma SbbLeftEnd(w: nat, a: seq<nat>, b: seq<nat>, c: nat, done: seq<nat>, k: nat)
    requires |a| == |b| && c <= 1 && k <= 1 && Limbs(w, a) && Limbs(w, b) && SbbLeft(w, a, b, c, done, |a|, k)
    ensures SbbAll(w, a, b, c).0 == done && SbbAll(w, a, b, c).1 == k
  {
    assert a[|a|..] == [] && b[|a|..] == [];
  }

  lemma OneSum(w: nat, d: nat, s: nat, c: nat)
    requires d < Pow(w) && s < Pow(w) && c <= 1
    ensures AddWord(w, d, s, c) < Pow(w)
    ensures AddWord(w, d, s, c) + Pow(w) * (if AddCarries(w, d, s, c) then 1 else 0) == d + s + c
  {
    Top(d + s + c, Pow(w));
  }

  lemma OneDifference(w: nat, d: nat, s: nat, c: nat)
    requires d < Pow(w) && s < Pow(w) && c <= 1
    ensures s + c <= d + Pow(w) && Minus(w, d, s, c) < Pow(w) && Minus(w, d, s, c) - Pow(w) * (if d < s + c then 1 else 0) == d - s - c
  {
    Top(d + Pow(w) - s - c, Pow(w));
  }

  /** Chaining `Adc` over limbs of any number adds exactly: the last carry is that of the whole sum. */
  lemma {:induction false} ChainAdds(w: nat, a: seq<nat>, b: seq<nat>, c: nat)
    requires |a| == |b| && Limbs(w, a) && Limbs(w, b) && c <= 1
    ensures var (r, k) := AdcAll(w, a, b, c);
      k <= 1 && Limbs(w, r) && Value(w, r) + k * Range(w, |a|) == Value(w, a) + Value(w, b) + c
    decreases a
  {
    hide Pow, AddWord, AddCarries;
    if a != [] {
      var k0 := if AddCarries(w, a[0], b[0], c) then 1 else 0;
      ChainAdds(w, a[1..], b[1..], k0);
      OneSum(w, a[0], b[0], c);
      var (r, k) := AdcAll(w, a[1..], b[1..], k0);
      ValueStep(w, AddWord(w, a[0], b[0], c), r);
      Chained(AddWord(w, a[0], b[0], c), Value(w, r), k, k0, Pow(w), Range(w, |a| - 1), a[0] + b[0] + c, Value(w, a[1..]), Value(w, b[1..]));
    }
  }

  lemma ValueStep(w: nat, x: nat, r: seq<nat>)
    ensures Value(w, [x] + r) == x + Pow(w) * Value(w, r)
  {
    assert ([x] + r)[1..] == r;
  }

  lemma Chained(x: int, v: int, k: int, k0: int, m: int, p: int, low: int, va: int, vb: int)
    requires x + m * k0 == low && v + k * p == va + vb + k0
    ensures (x + m * v) + k * (m * p) == low + m * va + m * vb
  {
    assert m * (v + k * p) == m * (va + vb + k0);
    assert k * (m * p) == m * (k * p);
  }

  /** Chaining `Sbb` subtracts exactly, the last borrow being that of the whole difference. */
  lemma {:induction false} ChainSubtracts(w: nat, a: seq<nat>, b: seq<nat>, c: nat)
    requires |a| == |b| && Limbs(w, a) && Limbs(w, b) && c <= 1
    ensures var (r, k) := SbbAll(w, a, b, c);
      k <= 1 && Limbs(w, r) && Value(w, r) - k * Range(w, |a|) == Value(w, a) - Value(w, b) - c
    decreases a
  {
    hide Pow, Minus;
    if a != [] {
      var k0 := if a[0] < b[0] + c then 1 else 0;
      ChainSubtracts(w, a[1..], b[1..], k0);
      OneDifference(w, a[0], b[0], c);
      var (r, k) := SbbAll(w, a[1..], b[1..], k0);
      ValueStep(w, Minus(w, a[0], b[0], c), r);
      ChainedLess(Minus(w, a[0], b[0], c), Value(w, r), k, k0, Pow(w), Range(w, |a| - 1), a[0] - b[0] - c, Value(w, a[1..]), Value(w, b[1..]));
    }
  }

  lemma ChainedLess(x: int, v: int, k: int, k0: int, m: int, p: int, low: int, va: int, vb: int)
    requires x - m * k0 == low && v - k * p == va - vb - k0
    ensures (x + m * v) - k * (m * p) == low + m * va - m * vb
  {
    assert m * (v - k * p) == m * (va - vb - k0);
    assert k * (m * p) == m * (k * p);
  }
}
