/** Carries and borrows between the bits of a sum or a difference, worked out from the words alone. */
module CarrySpec {
  import opened Bits

  /** The carry into bit `i` of `d + s + c`: what the bits below add up to. */
  function Carry(d: nat, s: nat, c: nat, i: nat): nat {
    if d % Pow(i) + s % Pow(i) + c >= Pow(i) then 1 else 0
  }

  /** The borrow from bit `i` in `d - s - c`. */
  function Borrow(d: nat, s: nat, c: nat, i: nat): nat {
    if d % Pow(i) < s % Pow(i) + c then 1 else 0
  }

  function CarryChain(w: nat, d: nat, s: nat, res: nat): nat
    requires res < Pow(w)
  {
    Or(And(s, d), And(Not(w, res), Or(s, d)))
  }

  function BorrowChain(w: nat, d: nat, s: nat, res: nat): nat
    requires d < Pow(w)
  {
    Or(And(res, Or(Not(w, d), s)), And(Not(w, d), s))
  }

  /** A difference in a register of `w` bits. */
  function Minus(w: nat, d: nat, s: nat, c: nat): (r: nat)
    requires s + c <= d + Pow(w)
    ensures r < Pow(w)
  {
    (d + Pow(w) - s - c) % Pow(w)
  }

  lemma SumOf(x: nat, p: nat, q: int, b: int, t: nat)
    requires p > 0 && t < p && x == (2 * q + b) * p + t
    ensures x / p % 2 == b % 2
  {
    QuotientOf(x, p, 2 * q + b, t);
  }

  lemma QuotientOf(x: nat, p: nat, m: int, t: nat)
    requires p > 0 && t < p && x == m * p + t
    ensures x / p == m
  {
    assert m <= -1 ==> m * p <= 0 - p;
    assert m * p == p * m;
    Quotient(x, p, m, t);
  }

  lemma Regroup(dh: int, sh: int, db: int, sb: int, dl: int, sl: int, c: int, k: int, p: int, t: int)
    requires dl + sl + c == k * p + t
    ensures (dh * (2 * p) + db * p + dl) + (sh * (2 * p) + sb * p + sl) + c == (2 * (dh + sh) + (db + sb + k)) * p + t
  {}

  /** One bit of a sum, and the carry it passes on. */
  lemma AddBit(d: nat, s: nat, c: nat, i: nat)
    requires c <= 1
    ensures Bit(d + s + c, i) == (Bit(d, i) + Bit(s, i) + Carry(d, s, c, i)) % 2
    ensures Carry(d, s, c, i + 1) == if Bit(d, i) + Bit(s, i) + Carry(d, s, c, i) >= 2 then 1 else 0
  {
    hide *;
    PowNext(i);
    var dh := CutOut(d, i);
    var sh := CutOut(s, i);
    BitIs(d + s + c, i);
    CarryIs(d, s, c, i);
    CarryIs(d, s, c, i + 1);
    AddBitAt(d, s, d + s + c, c, Pow(i), Pow(i + 1), dh, sh, Bit(d, i), Bit(s, i), Low(d, i), Low(s, i));
  }

  lemma CarryIs(d: nat, s: nat, c: nat, i: nat)
    ensures Carry(d, s, c, i) == if Low(d, i) + Low(s, i) + c >= Pow(i) then 1 else 0
  {}

  /** The numbers cut at a bit: what is above it, the bit, what is below. */
  lemma AddBitAt(d: nat, s: nat, x: nat, c: nat, p: nat, q: nat, dh: nat, sh: nat, db: nat, sb: nat, dl: nat, sl: nat)
    requires q == 2 * p && c <= 1 && db <= 1 && sb <= 1 && dl < p && sl < p
    requires d == dh * q + db * p + dl && s == sh * q + sb * p + sl && x == d + s + c
    ensures var k := if dl + sl + c >= p then 1 else 0;
      && x / p % 2 == (db + sb + k) % 2
      && ((db * p + dl) + (sb * p + sl) + c >= q <==> db + sb + k >= 2)
  {
    var k := if dl + sl + c >= p then 1 else 0;
    var t := dl + sl + c - k * p;
    CarryLow(dl, sl, c, p, k);
    Regroup(dh, sh, db, sb, dl, sl, c, k, p, t);
    SumOf(x, p, dh + sh, db + sb + k, t);
    CarryHigh(db, sb, dl, sl, c, p);
  }

  lemma PowNext(i: nat)
    ensures Pow(i + 1) == 2 * Pow(i) && Pow(0) == 1
  {}

  lemma CarryLow(dl: nat, sl: nat, c: nat, p: nat, k: nat)
    requires dl < p && sl < p && c <= 1 && k == if dl + sl + c >= p then 1 else 0
    ensures 0 <= dl + sl + c - k * p < p
  {}

  lemma CarryHigh(db: nat, sb: nat, dl: nat, sl: nat, c: nat, p: nat)
    requires db <= 1 && sb <= 1 && dl < p && sl < p && c <= 1
    ensures (db * p + dl) + (sb * p + sl) + c >= 2 * p <==> db + sb + (if dl + sl + c >= p then 1 else 0) >= 2
  {
    if db == 0 {} else {}
    if sb == 0 {} else {}
  }

  /** The chain the program computes from the operands and the result holds, at every bit, the carry
      out of it. */
  lemma CarryChainBit(w: nat, d: nat, s: nat, c: nat, res: nat, i: nat)
    requires c <= 1 && i < w && res == (d + s + c) % Pow(w)
    ensures Bit(CarryChain(w, d, s, res), i) == Carry(d, s, c, i + 1)
  {
    hide Pow, Bit, And, Or, Not, Carry;
    LowBit(d + s + c, w, i);
    AddBit(d, s, c, i);
    AndBit(s, d, i);
    OrBit(s, d, i);
    NotBit(w, res, i);
    AndBit(Not(w, res), Or(s, d), i);
    OrBit(And(s, d), And(Not(w, res), Or(s, d)), i);
    CarryBit(d, s, c, i);
  }

  lemma CarryBit(d: nat, s: nat, c: nat, i: nat)
    ensures Carry(d, s, c, i) <= 1
  {}

  lemma SubBit(w: nat, d: nat, s: nat, c: nat, i: nat)
    requires c <= 1 && i < w && s + c <= d + Pow(w)
    ensures Bit(d + Pow(w) - s - c, i) == (Bit(d, i) + Bit(s, i) + Borrow(d, s, c, i)) % 2
    ensures Borrow(d, s, c, i + 1) == if Bit(d, i) < Bit(s, i) + Borrow(d, s, c, i) then 1 else 0
  {
    hide *;
    PowNext(i);
    PowSum(w - i - 1, i + 1);
    var dh := CutOut(d, i);
    var sh := CutOut(s, i);
    BitIs(d + Pow(w) - s - c, i);
    BorrowIs(d, s, c, i);
    BorrowIs(d, s, c, i + 1);
    SubBitAt(d, s, d + Pow(w) - s - c, c, Pow(i), Pow(i + 1), Pow(w), Pow(w - i - 1), dh, sh, Bit(d, i), Bit(s, i), Low(d, i), Low(s, i));
  }

  lemma BitIs(x: nat, i: nat)
    ensures Pow(i) > 0 && Bit(x, i) == x / Pow(i) % 2
  {}

  lemma BorrowIs(d: nat, s: nat, c: nat, i: nat)
    ensures Borrow(d, s, c, i) == if Low(d, i) < Low(s, i) + c then 1 else 0
  {}

  lemma CutOut(x: nat, i: nat) returns (h: nat)
    ensures x == h * Pow(i + 1) + Bit(x, i) * Pow(i) + Low(x, i)
    ensures Low(x, i + 1) == Bit(x, i) * Pow(i) + Low(x, i) && Low(x, i) < Pow(i) && Bit(x, i) <= 1
  {
    hide Pow, Bit;
    Cut(x, i);
    h := x / Pow(i + 1);
  }

  /** The numbers cut at a bit: what is above it, the bit, what is below. */
  lemma SubBitAt(d: nat, s: nat, x: nat, c: nat, p: nat, q: nat, n: nat, h: nat,
                 dh: nat, sh: nat, db: nat, sb: nat, dl: nat, sl: nat)
    requires q == 2 * p && c <= 1 && db <= 1 && sb <= 1 && dl < p && sl < p
    requires d == dh * q + db * p + dl && s == sh * q + sb * p + sl && n == h * q && x == d + n - s - c
    ensures var k := if dl < sl + c then 1 else 0;
      && x / p % 2 == (db + sb + k) % 2
      && (db * p + dl < sb * p + sl + c <==> db < sb + k)
  {
    var k := if dl < sl + c then 1 else 0;
    var t := dl - sl - c + k * p;
    BorrowLow(dl, sl, c, p, k);
    RegroupLess(dh, sh, h, db, sb, dl, sl, c, k, p, t);
    SumOf(x, p, dh - sh + h, db - sb - k, t);
    BorrowHigh(db, sb, dl, sl, c, p);
  }

  lemma BorrowLow(dl: nat, sl: nat, c: nat, p: nat, k: nat)
    requires dl < p && sl < p && c <= 1 && k == if dl < sl + c then 1 else 0
    ensures 0 <= dl - sl - c + k * p < p
  {}

  lemma BorrowHigh(db: nat, sb: nat, dl: nat, sl: nat, c: nat, p: nat)
    requires db <= 1 && sb <= 1 && dl < p && sl < p && c <= 1
    ensures db * p + dl < sb * p + sl + c <==> db < sb + (if dl < sl + c then 1 else 0)
  {
    if db == 0 {} else {}
    if sb == 0 {} else {}
  }

  lemma RegroupLess(dh: int, sh: int, h: int, db: int, sb: int, dl: int, sl: int, c: int, k: int, p: int, t: int)
    requires dl - sl - c == t - k * p
    ensures (dh * (2 * p) + db * p + dl) + h * (2 * p) - (sh * (2 * p) + sb * p + sl) - c
      == (2 * (dh - sh + h) + (db - sb - k)) * p + t
  {}

  /** The same for the borrows of a difference. */
  lemma BorrowChainBit(w: nat, d: nat, s: nat, c: nat, res: nat, i: nat)
    requires c <= 1 && i < w && d < Pow(w) && s + c <= d + Pow(w) && res == Minus(w, d, s, c)
    ensures Bit(BorrowChain(w, d, s, res), i) == Borrow(d, s, c, i + 1)
  {
    hide Pow, Bit, And, Or, Not, Borrow;
    LowBit(d + Pow(w) - s - c, w, i);
    SubBit(w, d, s, c, i);
    NotBit(w, d, i);
    OrBit(Not(w, d), s, i);
    AndBit(res, Or(Not(w, d), s), i);
    AndBit(Not(w, d), s, i);
    OrBit(And(res, Or(Not(w, d), s)), And(Not(w, d), s), i);
    BorrowBit(d, s, c, i);
  }

  lemma BorrowBit(d: nat, s: nat, c: nat, i: nat)
    ensures Borrow(d, s, c, i) <= 1
  {}

  // ---- overflow

  /** A word of `w` bits in two's complement. */
  function Signed(w: nat, x: nat): int
    requires w > 0
  {
    if x >= Pow(w - 1) then x - Pow(w) else x
  }

  predicate Fits(w: nat, v: int)
    requires w > 0
  {
    0 - Pow(w - 1) <= v < Pow(w - 1)
  }

  /** The two top carries differ exactly when the sum of the signed operands does not fit. */
  lemma CarryOverflow(w: nat, d: nat, s: nat, c: nat)
    requires w > 0 && c <= 1 && d < Pow(w) && s < Pow(w)
    ensures Carry(d, s, c, w) != Carry(d, s, c, w - 1) <==> !Fits(w, Signed(w, d) + Signed(w, s) + c)
  {
    hide Pow;
    PowNext(w - 1);
    Top(d, Pow(w - 1));
    Top(s, Pow(w - 1));
    Top(d, Pow(w));
    Top(s, Pow(w));
  }

  lemma BorrowOverflow(w: nat, d: nat, s: nat, c: nat)
    requires w > 0 && c <= 1 && d < Pow(w) && s < Pow(w)
    ensures Borrow(d, s, c, w) != Borrow(d, s, c, w - 1) <==> !Fits(w, Signed(w, d) - Signed(w, s) - c)
  {
    hide Pow;
    PowNext(w - 1);
    Top(d, Pow(w - 1));
    Top(s, Pow(w - 1));
    Top(d, Pow(w));
    Top(s, Pow(w));
  }

  lemma Top(x: nat, p: nat)
    requires 0 < p && x < 2 * p
    ensures x % p == if x >= p then x - p else x
  {
    if x >= p { Quotient(x, p, 1, x - p); } else { Quotient(x, p, 0, x); }
  }
}
