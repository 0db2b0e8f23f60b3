/** The hash that decides whether a dirty block still matches the guest bytes it was made from. */
module X31 {
  import opened Common

  const WORD: nat := 0x1_0000_0000

  function Fold(h: nat, s: seq<Byte>): (r: nat)
    requires h < WORD
    ensures r < WORD
    decreases |s|
  {
    if s == [] then h else Fold((31 * h + s[0] as nat) % WORD, s[1..])
  }

  function Hash(s: seq<Byte>): (r: nat)
    ensures r < WORD
  {
    if s == [] then 0 else Fold(s[0] as nat, s[1..])
  }

  lemma {:induction false} FoldAppend(h: nat, s: seq<Byte>, b: Byte)
    requires h < WORD
    ensures Fold(h, s + [b]) == (31 * Fold(h, s) + b as nat) % WORD
    decreases |s|
  {
    if s == [] {
      assert (s + [b])[1..] == [];
    } else {
      assert (s + [b])[1..] == s[1..] + [b];
      FoldAppend((31 * h + s[0] as nat) % WORD, s[1..], b);
    }
  }

  lemma ModIs(x: int, q: int, r: nat)
    requires x == q * WORD + r && r < WORD
    ensures x % WORD == r
  {}

  lemma SameCut(x: int, y: int)
    ensures x % WORD == y % WORD <==> (x - y) % WORD == 0
  {
    if x % WORD == y % WORD { ModIs(x - y, x / WORD - y / WORD, 0); }
    if (x - y) % WORD == 0 { ModIs(x, y / WORD + (x - y) / WORD, y % WORD); }
  }

  /** As 2^32 is 4 more than a multiple of 31, `q` must be a multiple of 31. */
  lemma UnitBack(y: int, q: int)
    requires 31 * y == q * WORD
    ensures y % WORD == 0
  {
    ModIs(y, 8 * (y - 138547332 * q) - q, 0);
  }

  /** Multiplication by 31 loses nothing in 32-bit arithmetic. */
  lemma StepInjective(g: nat, h: nat, b: nat)
    requires g < WORD && h < WORD
    requires (31 * g + b) % WORD == (31 * h + b) % WORD
    ensures g == h
  {
    SameCut(31 * g + b, 31 * h + b);
    UnitBack(g - h, (31 * g - 31 * h) / WORD);
    if g >= h { ModIs(g - h, 0, g - h); } else { ModIs(g - h, -1, g - h + WORD); }
  }

  lemma {:induction false} FoldInjective(g: nat, h: nat, s: seq<Byte>)
    requires g < WORD && h < WORD && g != h
    ensures Fold(g, s) != Fold(h, s)
    decreases |s|
  {
    if s != [] {
      var b := s[0] as nat;
      if (31 * g + b) % WORD == (31 * h + b) % WORD { StepInjective(g, h, b); }
      FoldInjective((31 * g + b) % WORD, (31 * h + b) % WORD, s[1..]);
    }
  }

  lemma {:induction false} FoldDetects(h: nat, s: seq<Byte>, i: nat, b: Byte)
    requires h < WORD && i < |s| && s[i] != b
    ensures Fold(h, s[i := b]) != Fold(h, s)
    decreases |s|
  {
    var t := s[i := b];
    if i == 0 {
      assert t[1..] == s[1..];
      FoldInjective((31 * h + s[0] as nat) % WORD, (31 * h + b as nat) % WORD, s[1..]);
    } else {
      assert t[1..] == s[1..][i - 1 := b];
      FoldDetects((31 * h + s[0] as nat) % WORD, s[1..], i - 1, b);
    }
  }

  /** A change of one byte is never missed, wherever it falls and however long the block. */
  lemma OneByteDetected(s: seq<Byte>, i: nat, b: Byte)
    requires i < |s| && s[i] != b
    ensures Hash(s[i := b]) != Hash(s)
  {
    var t := s[i := b];
    if i == 0 {
      assert t[1..] == s[1..];
      FoldInjective(s[0] as nat, b as nat, s[1..]);
    } else {
      assert t[1..] == s[1..][i - 1 := b];
      FoldDetects(s[0] as nat, s[1..], i - 1, b);
    }
  }

  // ---- what the hash says about the bytes

  /** The bytes read as the digits of a number in base 31, the first the highest, with nothing cut off. */
  function Digits(s: seq<Byte>): nat {
    if s == [] then 0 else 31 * Digits(s[..|s| - 1]) + s[|s| - 1] as nat
  }

  function Pow31(n: nat): (r: nat)
    ensures r > 0
  {
    if n == 0 then 1 else 31 * Pow31(n - 1)
  }

  lemma HashAppend(s: seq<Byte>, b: Byte)
    ensures Hash(s + [b]) == (31 * Hash(s) + b as nat) % WORD
  {
    if s == [] {
      assert (s + [b])[1..] == [];
    } else {
      assert (s + [b])[1..] == s[1..] + [b];
      FoldAppend(s[0] as nat, s[1..], b);
    }
  }

  /** Cutting a number down to a word before the next digit comes in makes no difference. */
  lemma CutLater(x: nat, b: nat)
    ensures (31 * (x % WORD) + b) % WORD == (31 * x + b) % WORD
  {
    var y := 31 * (x % WORD) + b;
    ModIs(31 * x + b, 31 * (x / WORD) + y / WORD, y % WORD);
  }

  /** The hash is that number, cut down to a word once. */
  lemma {:induction false} HashIsDigits(s: seq<Byte>)
    ensures Hash(s) == Digits(s) % WORD
    decreases |s|
  {
    if s != [] {
      var n := |s| - 1;
      HashIsDigits(s[..n]);
      HashAppend(s[..n], s[n]);
      assert s == s[..n] + [s[n]];
      CutLater(Digits(s[..n]), s[n] as nat);
    }
  }

  /** Two blocks hash the same exactly when their numbers differ by a multiple of 2^32. */
  lemma SameHashIff(s: seq<Byte>, t: seq<Byte>)
    ensures Hash(s) == Hash(t) <==> (Digits(s) - Digits(t)) % WORD == 0
  {
    hide Hash, Digits;
    HashIsDigits(s);
    HashIsDigits(t);
    SameCut(Digits(s), Digits(t));
  }

  /** What changing one byte does to the number. */
  lemma {:induction false} DigitsUpdate(s: seq<Byte>, i: nat, b: Byte)
    requires i < |s|
    ensures Digits(s[i := b]) == Digits(s) + Pow31(|s| - 1 - i) * (b as int - s[i] as int)
    decreases |s|
  {
    var n := |s| - 1;
    var t := s[i := b];
    if i == n {
      assert t[..n] == s[..n];
    } else {
      assert t[..n] == s[..n][i := b];
      DigitsUpdate(s[..n], i, b);
      Assoc(Pow31(n - 1 - i), b as int - s[i] as int);
    }
  }

  lemma Assoc(p: int, x: int)
    ensures 31 * (p * x) == 31 * p * x
  {}

  /** A power of 31 divides no multiple of 2^32 but by a multiple of 2^32. */
  lemma {:induction false} PowIsUnit(n: nat, x: int)
    ensures (Pow31(n) * x) % WORD == 0 <==> x % WORD == 0
    decreases n
  {
    if n > 0 {
      var y := Pow31(n - 1) * x;
      Assoc(Pow31(n - 1), x);
      StepIsUnit(y);
      PowIsUnit(n - 1, x);
    }
  }

  lemma StepIsUnit(y: int)
    ensures (31 * y) % WORD == 0 <==> y % WORD == 0
  {
    if y % WORD == 0 { ModIs(31 * y, 31 * (y / WORD), 0); }
    if (31 * y) % WORD == 0 { UnitBack(y, 31 * y / WORD); }
  }

  lemma {:induction false} PowSplit(i: nat, j: nat)
    ensures Pow31(i + j) == Pow31(i) * Pow31(j)
    decreases i
  {
    if i > 0 {
      PowSplit(i - 1, j);
      Assoc(Pow31(i - 1), Pow31(j));
    }
  }

  /** Two bytes change unseen exactly when the change of the first, weighted by a power of 31 for their
      distance, makes up for that of the second. */
  lemma TwoBytesMissedIff(s: seq<Byte>, i: nat, b: Byte, j: nat, c: Byte)
    requires i < j < |s|
    ensures Hash(s[i := b][j := c]) == Hash(s)
      <==> (Pow31(j - i) * (b as int - s[i] as int) + (c as int - s[j] as int)) % WORD == 0
  {
    hide Hash, Digits, Pow31;
    var t := s[i := b];
    var x, y := b as int - s[i] as int, c as int - s[j] as int;
    var p, q := Pow31(j - i), Pow31(|s| - 1 - j);
    DigitsUpdate(s, i, b);
    DigitsUpdate(t, j, c);
    SameHashIff(t[j := c], s);
    PowSplit(j - i, |s| - 1 - j);
    Gather(Digits(s), Digits(t), Digits(t[j := c]), Pow31(|s| - 1 - i), p, q, x, y);
    PowIsUnit(|s| - 1 - j, p * x + y);
  }

  lemma Gather(d0: int, d1: int, d2: int, r: int, p: int, q: int, x: int, y: int)
    requires r == p * q && d1 == d0 + r * x && d2 == d1 + q * y
    ensures d2 - d0 == q * (p * x + y)
  {}

  /** As in 65 97, which becomes 66 66. */
  lemma TwoBytesMissed()
    ensures Hash([65, 97]) == Hash([66, 66])
  {
    var s: seq<Byte> := [65, 97];
    assert s[0 := 66][1 := 66] == [66, 66];
    TwoBytesMissedIff(s, 0, 66, 1, 66);
    assert Pow31(1) == 31 * Pow31(0);
  }

  method X31HashCode(mem: seq<Byte>, addr: nat, len: nat) returns (h: nat)
    requires addr + len <= |mem|
    ensures h == Hash(mem[addr..addr + len])
  {
    if len == 0 { return 0; }
    ghost var s := mem[addr..addr + len];
    h := mem[addr] as nat;
    var p := addr + 1;
    assert s[1..1] == [];
    while p < addr + len
      invariant addr < p <= addr + len && h < WORD
      invariant h == Fold(s[0] as nat, s[1..p - addr])
    {
      assert s[p - addr] == mem[p];
      assert s[1..p - addr + 1] == s[1..p - addr] + [mem[p]];
      FoldAppend(s[0] as nat, s[1..p - addr], mem[p]);
      h := (h * 32 - h + mem[p] as nat) % WORD;
      p := p + 1;
    }
    assert s[1..p - addr] == s[1..];
  }
}
