/** Machine words as numbers, and their bits. */
module Bits {

  /** `2` to the power of `i`. */
  function Pow(i: nat): (r: nat)
    ensures r > 0
  {
    if i == 0 then 1 else 2 * Pow(i - 1)
  }

  function Shr(x: nat, i: nat): nat { if i == 0 then x else Shr(x / 2, i - 1) }

  /** The low `w` bits. */
  function Low(x: nat, w: nat): (r: nat)
    ensures r < Pow(w)
  {
    x % Pow(w)
  }

  function Bit(x: nat, i: nat): (r: nat)
    ensures r <= 1
  {
    x / Pow(i) % 2
  }

  function And(x: nat, y: nat): nat
    decreases x
  {
    if x == 0 || y == 0 then 0 else (if x % 2 + y % 2 == 2 then 1 else 0) + 2 * And(x / 2, y / 2)
  }

  function Or(x: nat, y: nat): nat
    decreases x + y
  {
    if x == 0 then y else if y == 0 then x else (if x % 2 + y % 2 > 0 then 1 else 0) + 2 * Or(x / 2, y / 2)
  }

  /** The complement in a word of `w` bits. */
  function Not(w: nat, x: nat): nat
    requires x < Pow(w)
  {
    Pow(w) - 1 - x
  }

  lemma {:induction false} ShrIs(x: nat, i: nat)
    ensures Shr(x, i) == x / Pow(i)
  {
    if i > 0 {
      ShrIs(x / 2, i - 1);
      DivDiv(x, Pow(i - 1));
    }
  }

  lemma DivDiv(x: nat, p: nat)
    requires p > 0
    ensures x / (2 * p) == x / 2 / p
  {
    var q, r := x / 2 / p, x / 2 % p;
    assert x / 2 == q * p + r;
    var s := x % 2;
    assert x == 2 * (q * p + r) + s;
    assert x == (2 * p) * q + (2 * r + s);
    Quotient(x, 2 * p, q, 2 * r + s);
  }

  lemma Quotient(x: nat, d: nat, q: nat, r: nat)
    requires d > 0 && x == d * q + r && r < d
    ensures x / d == q && x % d == r
  {
    var k := x / d - q;
    assert x == d * (x / d) + x % d;
    assert d * k == r - x % d;
    assert k >= 1 ==> d * k >= d;
    assert k <= -1 ==> d * k <= 0 - d;
  }

  lemma BitStep(x: nat, i: nat)
    ensures Bit(x, 0) == x % 2
    ensures Bit(x, i + 1) == Bit(x / 2, i)
  {
    DivDiv(x, Pow(i));
  }

  lemma AndStep(x: nat, y: nat)
    ensures And(x, y) % 2 == (if x % 2 + y % 2 == 2 then 1 else 0) && And(x, y) / 2 == And(x / 2, y / 2)
  {}

  lemma OrStep(x: nat, y: nat)
    ensures Or(x, y) % 2 == (if x % 2 + y % 2 > 0 then 1 else 0) && Or(x, y) / 2 == Or(x / 2, y / 2)
  {}

  lemma {:induction false} AndBit(x: nat, y: nat, i: nat)
    ensures Bit(And(x, y), i) == if Bit(x, i) + Bit(y, i) == 2 then 1 else 0
  {
    hide Bit, And;
    AndStep(x, y);
    if i == 0 {
      BitStep(x, 0); BitStep(y, 0); BitStep(And(x, y), 0);
    } else {
      BitStep(x, i - 1); BitStep(y, i - 1); BitStep(And(x, y), i - 1);
      AndBit(x / 2, y / 2, i - 1);
    }
  }

  lemma {:induction false} OrBit(x: nat, y: nat, i: nat)
    ensures Bit(Or(x, y), i) == if Bit(x, i) + Bit(y, i) > 0 then 1 else 0
  {
    hide Bit, Or;
    OrStep(x, y);
    if i == 0 {
      BitStep(x, 0); BitStep(y, 0); BitStep(Or(x, y), 0);
    } else {
      BitStep(x, i - 1); BitStep(y, i - 1); BitStep(Or(x, y), i - 1);
      OrBit(x / 2, y / 2, i - 1);
    }
  }

  lemma {:induction false} NotBit(w: nat, x: nat, i: nat)
    requires x < Pow(w) && i < w
    ensures Bit(Not(w, x), i) == 1 - Bit(x, i)
    decreases w
  {
    hide Bit;
    var y := Not(w, x);
    assert Pow(w) == 2 * Pow(w - 1);
    assert y / 2 == Not(w - 1, x / 2) && y % 2 == 1 - x % 2;
    if i == 0 {
      BitStep(x, 0); BitStep(y, 0);
    } else {
      BitStep(x, i - 1); BitStep(y, i - 1);
      NotBit(w - 1, x / 2, i - 1);
    }
  }

  /** Cutting a word at bit `i`: what is above, the bit itself, and what is below. */
  lemma Cut(x: nat, i: nat)
    ensures x == x / Pow(i + 1) * Pow(i + 1) + Bit(x, i) * Pow(i) + x % Pow(i)
    ensures x % Pow(i + 1) == Bit(x, i) * Pow(i) + x % Pow(i) && x % Pow(i) < Pow(i)
  {
    var p := Pow(i);
    var q, r := x / p, x % p;
    assert x == q * p + r;
    CutAt(x, p, q / 2, q % 2, r);
  }

  lemma CutAt(x: nat, p: nat, h: nat, b: nat, r: nat)
    requires p > 0 && r < p && b <= 1 && x == (2 * h + b) * p + r
    ensures x == h * (2 * p) + b * p + r && x / (2 * p) == h && x % (2 * p) == b * p + r
  {
    Doubled(h, b, p);
    if b == 0 { Quotient(x, 2 * p, h, r); } else { Quotient(x, 2 * p, h, p + r); }
  }

  lemma Doubled(h: nat, b: nat, p: nat)
    ensures (2 * h + b) * p == h * (2 * p) + b * p && h * (2 * p) == 2 * p * h
  {}

  lemma DivMod(x: nat, d: nat)
    requires d > 0
    ensures x == d * (x / d) + x % d && x % d < d
  {}

  /** The bits of a word do not depend on what is cut off above. */
  lemma {:induction false} LowBit(x: nat, w: nat, i: nat)
    requires i < w
    ensures Bit(x % Pow(w), i) == Bit(x, i)
    decreases w
  {
    hide Bit;
    assert Pow(w) == 2 * Pow(w - 1);
    ModHalf(x, Pow(w - 1));
    if i == 0 {
      BitStep(x, 0); BitStep(x % Pow(w), 0);
    } else {
      BitStep(x, i - 1); BitStep(x % Pow(w), i - 1);
      LowBit(x / 2, w - 1, i - 1);
    }
  }

  lemma ModHalf(x: nat, p: nat)
    requires p > 0
    ensures x % (2 * p) / 2 == x / 2 % p && x % (2 * p) % 2 == x % 2
  {
    var q, r, s := x / 2 / p, x / 2 % p, x % 2;
    assert x / 2 == q * p + r;
    assert x == (2 * p) * q + (2 * r + s);
    Quotient(x, 2 * p, q, 2 * r + s);
  }

  lemma {:induction false} PowSum(i: nat, j: nat)
    ensures Pow(i + j) == Pow(i) * Pow(j)
  {
    if i > 0 {
      PowSum(i - 1, j);
      assert Pow(i + j) == 2 * Pow(i - 1 + j);
    }
  }

  lemma ModMod(x: nat, k: nat, m: nat)
    requires k > 0 && m > 0
    ensures k * m > 0 && x % (k * m) % m == x % m
  {
    Positive(k, m);
    DivMod(x, k * m);
    var q, y := x / (k * m), x % (k * m);
    DivMod(y, m);
    var z, t := y / m, y % m;
    Regroup(k, m, q, z, t);
    Positive0(k, q);
    Quotient(x, m, k * q + z, t);
  }

  lemma Regroup(k: nat, m: nat, q: nat, z: nat, t: nat)
    ensures k * m * q + (m * z + t) == m * (k * q + z) + t
  {}

  lemma Positive0(k: nat, q: nat)
    ensures k * q >= 0
  {}

  lemma Positive(k: nat, m: nat)
    requires k > 0 && m > 0
    ensures k * m > 0
  {}

  lemma ModTurns(x: nat, k: nat, m: nat)
    requires m > 0 && k > 0
    ensures x + k * m >= m && (x + k * m - m) % m == x % m
  {
    DivMod(x, m);
    MoreTurns(x / m, k, m);
    Quotient(x + k * m - m, m, x / m + (k - 1), x % m);
  }

  lemma MoreTurns(q: nat, k: nat, m: nat)
    requires k > 0
    ensures m * (q + (k - 1)) == m * q + k * m - m && k * m >= m
  {}

  lemma LowLow(x: nat, w: nat, reg: nat)
    requires w <= reg
    ensures Low(Low(x, reg), w) == Low(x, w)
  {
    PowSum(reg - w, w);
    ModMod(x, Pow(reg - w), Pow(w));
  }
}
