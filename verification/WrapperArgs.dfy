/** Where a wrapper looks for the arguments of the function, and where the System V AMD64 ABI (section
    3.2.3) puts them. */
module WrapperArgs {
  import opened Common

  /** How many general registers, floating-point registers and stack slots the tables give a letter. */
  datatype Usage = Usage(reg: nat, xmm: nat, stack: nat)

  function Table(c: char): Usage {
    match c
    case 'E' => Usage(0, 0, 0)
    case 'v' => Usage(1, 0, 1)
    case 'c' => Usage(1, 0, 1)
    case 'w' => Usage(1, 0, 1)
    case 'i' => Usage(1, 0, 1)
    case 'I' => Usage(1, 0, 1)
    case 'C' => Usage(1, 0, 1)
    case 'W' => Usage(1, 0, 1)
    case 'u' => Usage(1, 0, 1)
    case 'U' => Usage(1, 0, 1)
    case 'f' => Usage(0, 1, 1)
    case 'd' => Usage(0, 1, 1)
    case 'D' => Usage(0, 0, 2)
    case 'K' => Usage(0, 0, 2)
    case 'l' => Usage(1, 0, 1)
    case 'L' => Usage(1, 0, 1)
    case 'p' => Usage(1, 0, 1)
    case 'V' => Usage(0, 0, 0)
    case 'O' => Usage(1, 0, 1)
    case 'S' => Usage(1, 0, 1)
    case 'N' => Usage(1, 0, 1)
    case 'M' => Usage(2, 0, 2)
    case 'H' => Usage(2, 0, 2)
    case 'P' => Usage(0, 0, 1)
    case 'A' => Usage(1, 0, 1)
    case _ => Usage(0, 0, 0)
  }

  predicate IsLetter(c: char) { c in "EvcwiICWuUfdDKlLpVOSNMHPA" }

  function InRegs(c: char): nat { Table(c).reg }
  function InXmms(c: char): nat { Table(c).xmm }
  function OnStack(c: char): nat { Table(c).stack }

  /** A general register, a floating-point register, a stack slot at an offset, or something that is not
      passed as such. */
  datatype Place = Reg(n: nat) | Xmm(n: nat) | Stack(off: nat) | Other(off: nat)

  /** What is written for an argument: the letter says how it is read at its place. */
  datatype Item = Item(letter: char, at: Place) | Zero | One

  /** `v` stands for no argument: it has a register, and nothing is written. */
  function Write(c: char, at: Place): seq<Item> { if c == 'v' then [] else [Item(c, at)] }

  /** The words of an argument that has `n` left, in registers while there are any, then on the stack. */
  function Spread(c: char, n: nat, d: nat, r: nat): (seq<Item>, nat, nat)
    decreases n
  {
    if n == 0 then ([], d, r)
    else if r < 6 then
      var (rest, e, s) := Spread(c, n - 1, d, r + 1);
      (Write(c, Reg(r)) + rest, e, s)
    else
      var (rest, e, s) := Spread(c, n - 1, d + 8, r);
      (Write(c, Stack(d)) + rest, e, s)
  }

  predicate Letters(args: string) { forall c <- args :: IsLetter(c) || c == '0' || c == '1' }

  function FunctionArgs(args: string, d: nat, r: nat, x: nat): seq<Item>
    requires Letters(args)
  {
    if args == "" then []
    else if args[0] == '0' then [Zero] + FunctionArgs(args[1..], d, r, x)
    else if args[0] == '1' then [One] + FunctionArgs(args[1..], d, r, x)
    else
      var c := args[0];
      if r < 6 && InRegs(c) > 0 then
        var (items, e, s) := Spread(c, InRegs(c), d, r);
        items + FunctionArgs(args[1..], e, s, x)
      else if x < 8 && InXmms(c) > 0 then Write(c, Xmm(x)) + FunctionArgs(args[1..], d, r, x + 1)
      else if OnStack(c) > 0 then Write(c, Stack(d)) + FunctionArgs(args[1..], d + 8 * OnStack(c), r, x)
      else Write(c, Other(d)) + FunctionArgs(args[1..], d, r, x)
  }

  // ---- where it looks for them

  /** Signatures of values that each take a class: no emulator, no variable list, nothing in two words of
      the integer class, and arguments at all. */
  predicate Plain(args: string) { forall c <- args :: IsLetter(c) && c !in "EVHMv" }

  predicate Integer(c: char) { c in "cwiICWuUlLpOSNA" }

  predicate Float(c: char) { c == 'f' || c == 'd' }

  /** The eightbytes an argument takes in memory: long doubles take two. */
  function Eightbytes(c: char): nat { if c == 'D' || c == 'K' then 2 else 1 }

  function CountInteger(args: string, k: nat): (r: nat)
    requires k <= |args|
  {
    if k == 0 then 0 else CountInteger(args, k - 1) + (if Integer(args[k - 1]) then 1 else 0)
  }

  function CountFloat(args: string, k: nat): (r: nat)
    requires k <= |args|
  {
    if k == 0 then 0 else CountFloat(args, k - 1) + (if Float(args[k - 1]) then 1 else 0)
  }

  /** Argument `k` finds all registers of its class taken, or has no class that goes in registers. */
  predicate InMemory(args: string, k: nat)
    requires k < |args|
  {
    !(Integer(args[k]) && CountInteger(args, k) < 6) && !(Float(args[k]) && CountFloat(args, k) < 8)
  }

  /** The eightbytes of the first `k` arguments that are in memory. */
  function StackBefore(args: string, k: nat): nat
    requires k <= |args|
  {
    if k == 0 then 0 else StackBefore(args, k - 1) + (if InMemory(args, k - 1) then Eightbytes(args[k - 1]) else 0)
  }

  /** Where the next argument in memory is looked for, after the first `k`: right behind the last one,
      the return address below all. */
  function StackTop(args: string, k: nat): (r: nat)
    requires k <= |args|
    ensures r >= 8
  {
    8 + 8 * StackBefore(args, k)
  }

  function PlaceOf(args: string, k: nat, top: nat): Place
    requires k < |args|
  {
    if InMemory(args, k) then Stack(top)
    else if Integer(args[k]) then Reg(CountInteger(args, k))
    else Xmm(CountFloat(args, k))
  }

  lemma Classes(c: char)
    requires IsLetter(c) && c !in "EVHMv"
    ensures InRegs(c) == (if Integer(c) then 1 else 0) && InXmms(c) == (if Float(c) then 1 else 0)
    ensures OnStack(c) == Eightbytes(c) && c != '0' && c != '1'
  {}

  function Min(a: nat, b: nat): nat { if a < b then a else b }

  function InOrder(args: string, k: nat): Item
    requires k < |args|
  {
    Item(args[k], PlaceOf(args, k, StackTop(args, k)))
  }

  /** From any argument on, the places follow each other. */
  lemma {:induction false} PlacedFrom(args: string, k: nat)
    requires Plain(args) && Letters(args) && k <= |args|
    ensures Letters(args[k..])
    ensures FunctionArgs(args[k..], StackTop(args, k), Min(CountInteger(args, k), 6), Min(CountFloat(args, k), 8))
      == seq(|args| - k, i requires 0 <= i < |args| - k => InOrder(args, k + i))
    decreases |args| - k
  {
    hide Table, Integer, Float, IsLetter;
    if k < |args| {
      PlacedFrom(args, k + 1);
      var c := args[k];
      assert c in args && args[k..][0] == c && args[k..][1..] == args[k + 1..];
      Classes(c);
      OneWord(c, StackTop(args, k), Min(CountInteger(args, k), 6));
      NotBoth(c);
      var rest := seq(|args| - k - 1, i requires 0 <= i < |args| - k - 1 => InOrder(args, k + 1 + i));
      assert [InOrder(args, k)] + rest == seq(|args| - k, i requires 0 <= i < |args| - k => InOrder(args, k + i));
    }
  }

  lemma OneWord(c: char, d: nat, r: nat)
    requires c != 'v' && r <= 6
    ensures r < 6 ==> Spread(c, 1, d, r) == ([Item(c, Reg(r))], d, r + 1)
  {
    assert r < 6 ==> Spread(c, 0, d, r + 1) == ([], d, r + 1);
    assert [Item(c, Reg(r))] + [] == [Item(c, Reg(r))];
  }

  lemma NotBoth(c: char)
    ensures !(Integer(c) && Float(c))
  {}

  /** The first six arguments of the integer class are in the general registers, in order, the first
      eight of the floating class in the others, and all the rest in memory, in order. */
  lemma PlacedInOrder(args: string)
    requires Plain(args)
    ensures Letters(args)
    ensures FunctionArgs(args, 8, 0, 0) == seq(|args|, i requires 0 <= i < |args| => InOrder(args, i))
  {
    hide FunctionArgs, Integer, Float, IsLetter, InOrder;
    PlacedFrom(args, 0);
    assert args[0..] == args;
  }

  /** A value of two words is looked for in the next two general registers, half in the last one and half
      in memory when only that is left, and in memory when none is. */
  lemma PairPlaced(c: char, rest: string, d: nat, r: nat, x: nat)
    requires (c == 'M' || c == 'H') && Letters([c] + rest) && Letters(rest) && r <= 6
    ensures FunctionArgs([c] + rest, d, r, x) ==
      if r < 5 then [Item(c, Reg(r)), Item(c, Reg(r + 1))] + FunctionArgs(rest, d, r + 2, x)
      else if r == 5 then [Item(c, Reg(5)), Item(c, Stack(d))] + FunctionArgs(rest, d + 8, 6, x)
      else [Item(c, Stack(d))] + FunctionArgs(rest, d + 16, 6, x)
  {
    assert ([c] + rest)[0] == c && ([c] + rest)[1..] == rest;
    Usages();
    hide Table, IsLetter, Spread;
    if r < 6 { PairSpread(c, d, r); }
  }

  lemma PairSpread(c: char, d: nat, r: nat)
    requires c != 'v' && r < 6
    ensures Spread(c, 2, d, r) ==
      if r < 5 then ([Item(c, Reg(r)), Item(c, Reg(r + 1))], d, r + 2) else ([Item(c, Reg(5)), Item(c, Stack(d))], d + 8, 6)
  {
    if r < 5 {
      OneWord(c, d, r + 1);
      assert Spread(c, 2, d, r) == ([Item(c, Reg(r))] + [Item(c, Reg(r + 1))], d, r + 2);
      assert [Item(c, Reg(r))] + [Item(c, Reg(r + 1))] == [Item(c, Reg(r)), Item(c, Reg(r + 1))];
    } else {
      assert Spread(c, 0, d + 8, 6) == ([], d + 8, 6);
      assert Spread(c, 1, d, 6) == ([Item(c, Stack(d))] + [], d + 8, 6);
      assert Spread(c, 2, d, 5) == ([Item(c, Reg(5))] + ([Item(c, Stack(d))] + []), d + 8, 6);
      assert [Item(c, Reg(5))] + ([Item(c, Stack(d))] + []) == [Item(c, Reg(5)), Item(c, Stack(d))];
    }
  }

  /** The emulator and a variable list take no place, and neither does a constant; no argument at all takes
      that of an integer, and nothing is written for it. */
  lemma NothingTaken(c: char, rest: string, d: nat, r: nat, x: nat)
    requires c in "EV01v" && Letters([c] + rest) && Letters(rest) && r <= 6
    ensures FunctionArgs([c] + rest, d, r, x) ==
      if c == 'v' then FunctionArgs(rest, if r < 6 then d else d + 8, Min(r + 1, 6), x)
      else [if c == '0' then Zero else if c == '1' then One else Item(c, Other(d))] + FunctionArgs(rest, d, r, x)
  {
    assert ([c] + rest)[0] == c && ([c] + rest)[1..] == rest;
    Usages();
    hide Table, IsLetter, Spread;
    if c == 'v' && r < 6 { NoWord(d, r); }
  }

  lemma NoWord(d: nat, r: nat)
    requires r < 6
    ensures Spread('v', 1, d, r) == ([], d, r + 1)
  {
    assert Spread('v', 0, d, r + 1) == ([], d, r + 1);
    assert Spread('v', 1, d, r).0 == [] + [];
  }

  lemma Usages()
    ensures Table('M') == Table('H') == Usage(2, 0, 2) && Table('E') == Table('V') == Usage(0, 0, 0) && Table('v') == Usage(1, 0, 1)
  {}

  /** Arguments in memory are looked for one right behind the other. */
  lemma {:induction false} StackApart(args: string, j: nat, k: nat)
    requires j < k <= |args| && InMemory(args, j)
    ensures StackTop(args, j) + 8 * Eightbytes(args[j]) <= StackTop(args, k)
    ensures (forall i :: j < i < k ==> !InMemory(args, i)) ==> StackTop(args, j) + 8 * Eightbytes(args[j]) == StackTop(args, k)
    decreases k
  {
    if j + 1 < k { StackApart(args, j, k - 1); }
  }

  // ---- where the ABI puts them

  /** Long doubles are aligned to 16 bytes, everything else to eight. */
  predicate Long(c: char) { c == 'D' || c == 'K' }

  /** The first place for `c` behind `n` eightbytes, counted from one whose address is a multiple of 16. */
  function Padded(c: char, n: nat): (r: nat)
    ensures n <= r <= n + 1 && (Long(c) ==> r % 2 == 0)
  {
    if Long(c) && n % 2 == 1 then n + 1 else n
  }

  /** The eightbytes of the first `k` arguments that are in memory, padding included. */
  function AbiBefore(args: string, k: nat): nat
    requires k <= |args|
  {
    if k == 0 then 0
    else if InMemory(args, k - 1) then Padded(args[k - 1], AbiBefore(args, k - 1)) + Eightbytes(args[k - 1])
    else AbiBefore(args, k - 1)
  }

  function ByAbi(args: string, k: nat): Item
    requires k < |args|
  {
    Item(args[k], PlaceOf(args, k, 8 + 8 * Padded(args[k], AbiBefore(args, k))))
  }

  /** Every long double among the first `k` arguments has an even number of eightbytes before it. */
  predicate LongsEven(args: string, k: nat)
    requires k <= |args|
  {
    forall i :: 0 <= i < k && Long(args[i]) ==> StackBefore(args, i) % 2 == 0
  }

  lemma {:induction false} NoPadding(args: string, k: nat)
    requires k <= |args| && LongsEven(args, k)
    ensures AbiBefore(args, k) == StackBefore(args, k)
    decreases k
  {
    hide InMemory, Long, Eightbytes;
    if k > 0 { NoPadding(args, k - 1); }
  }

  /** Every argument is looked for where the ABI puts it exactly when no long double needs padding. */
  lemma PlacedByAbiIff(args: string)
    requires Plain(args)
    ensures Letters(args)
    ensures FunctionArgs(args, 8, 0, 0) == seq(|args|, i requires 0 <= i < |args| => ByAbi(args, i))
      <==> LongsEven(args, |args|)
  {
    hide FunctionArgs, Integer, Float, Plain;
    PlacedInOrder(args);
    var mine := seq(|args|, i requires 0 <= i < |args| => InOrder(args, i));
    var abi := seq(|args|, i requires 0 <= i < |args| => ByAbi(args, i));
    if LongsEven(args, |args|) {
      forall i | 0 <= i < |args| ensures InOrder(args, i) == ByAbi(args, i) { NoPadding(args, i); }
    }
    if i :| 0 <= i < |args| && Long(args[i]) && StackBefore(args, i) % 2 != 0 {
      LongInMemory(args, i);
      assert mine[i] != abi[i];
    }
  }

  lemma LongInMemory(args: string, i: nat)
    requires i < |args| && Long(args[i])
    ensures InMemory(args, i)
  {}

  /** The first long double that needs padding is looked for eight bytes too low. */
  lemma LongTooLow(args: string, k: nat)
    requires k < |args| && Long(args[k]) && LongsEven(args, k) && StackBefore(args, k) % 2 == 1
    ensures InOrder(args, k).at == Stack(8 + 8 * StackBefore(args, k))
    ensures ByAbi(args, k).at == Stack(8 + 8 * StackBefore(args, k) + 8)
  {
    hide InMemory, Eightbytes;
    NoPadding(args, k);
    LongInMemory(args, k);
  }

  /** As behind seven integers. */
  lemma LongBehindIntegers(args: string)
    requires |args| == 8 && (forall i :: 0 <= i < 7 ==> args[i] == 'i') && args[7] == 'D'
    ensures Plain(args) && !LongsEven(args, 8) && InOrder(args, 7).at == Stack(16) && ByAbi(args, 7).at == Stack(24)
  {
    hide InOrder, ByAbi, StackBefore, IsLetter;
    assert IsLetter('i') && IsLetter('D') by { SomeLetters(); }
    assert forall c <- args :: c == 'i' || c == 'D';
    IntegersFirst(args, 7);
    LongTooLow(args, 7);
  }

  lemma SomeLetters()
    ensures IsLetter('i') && IsLetter('D')
  {}

  lemma {:induction false} IntegersFirst(args: string, k: nat)
    requires k <= |args| && forall i :: 0 <= i < k ==> args[i] == 'i'
    ensures CountInteger(args, k) == k && StackBefore(args, k) == (if k <= 6 then 0 else k - 6)
    decreases k
  {
    if k > 0 {
      IntegersFirst(args, k - 1);
      assert args[k - 1] == 'i' && Integer('i') && !Float('i') && Eightbytes('i') == 1;
      hide Integer, Float;
    }
  }

  // ---- wrappers that need nothing but registers

  predicate Forbidden(c: char) { c in "EDKVOSNMHPA" }

  predicate AllowedReg(c: char) { c in "cCwWiuIUlLp" }

  /** What the generator accepts as a signature: a return letter, the middle letter, then the arguments;
      `v` only as the one argument that stands for none. */
  predicate Valid(v: string) {
    && |v| >= 3 && IsLetter(v[0]) && v[1] == 'F'
    && (forall i :: 2 <= i < |v| ==> IsLetter(v[i]))
    && (|v| == 3 || forall i :: 2 <= i < |v| ==> v[i] != 'v')
  }

  function CountReg(args: string, k: nat): nat
    requires k <= |args|
  {
    if k == 0 then 0 else CountReg(args, k - 1) + (if AllowedReg(args[k - 1]) then 1 else 0)
  }

  predicate AllAllowed(args: string, k: nat)
    requires k <= |args|
  {
    forall i :: 0 <= i < k ==> AllowedReg(args[i]) || Float(args[i]) || args[i] == 'v'
  }

  predicate Simple(v: string)
    requires Valid(v)
  {
    var args := v[2..];
    !Forbidden(v[0]) && AllAllowed(args, |args|) && CountReg(args, |args|) <= 6 && CountFloat(args, |args|) <= 8
  }

  /** One more than the number of floating-point arguments, negative for a floating-point result; none
      when more than registers would be needed. */
  method CheckSimple(v: string) returns (r: Option<int>)
    requires Valid(v)
    ensures r.Some? <==> Simple(v)
    ensures r.Some? ==> r.value == (1 + CountFloat(v[2..], |v| - 2)) * (if Float(v[0]) then -1 else 1)
  {
    hide AllowedReg, Float, Forbidden, IsLetter;
    var regs, fprs := 0, 0;
    if Forbidden(v[0]) { return None; }
    var args := v[2..];
    var i := 0;
    while i < |args|
      invariant 0 <= i <= |args| && AllAllowed(args, i)
      invariant regs == CountReg(args, i) && fprs == CountFloat(args, i)
    {
      NotTwice(args[i]);
      if AllowedReg(args[i]) {
        regs := regs + 1;
      } else if Float(args[i]) {
        fprs := fprs + 1;
      } else if args[i] != 'v' {
        return None;
      }
      i := i + 1;
    }
    if regs <= 6 && fprs <= 8 {
      var ret := 1 + fprs;
      if Float(v[0]) { ret := -ret; }
      return Some(ret);
    } else {
      return None;
    }
  }

  lemma NotTwice(c: char)
    ensures !(AllowedReg(c) && Float(c)) && (AllowedReg(c) ==> Integer(c)) && !Float('v') && !AllowedReg('v')
    ensures AllowedReg(c) || Float(c) ==> IsLetter(c) && c !in "EVHMv"
    ensures Integer(c) && !AllowedReg(c) ==> c in "OSNA"
  {}

  predicate NoStack(items: seq<Item>) { forall it <- items :: it.Item? ==> !it.at.Stack? }

  function XmmItems(items: seq<Item>, k: nat): nat
    requires k <= |items|
  {
    if k == 0 then 0 else XmmItems(items, k - 1) + (if items[k - 1].Item? && items[k - 1].at.Xmm? then 1 else 0)
  }

  lemma {:induction false} RegIsInteger(args: string, k: nat)
    requires k <= |args| && forall i :: 0 <= i < |args| ==> AllowedReg(args[i]) || Float(args[i])
    ensures CountReg(args, k) == CountInteger(args, k)
  {
    hide AllowedReg, Float, Integer;
    if k > 0 {
      RegIsInteger(args, k - 1);
      NotTwice(args[k - 1]);
      NotBoth(args[k - 1]);
    }
  }

  lemma {:induction false} CountsGrow(args: string, j: nat, k: nat)
    requires j <= k <= |args|
    ensures CountInteger(args, j) <= CountInteger(args, k) && CountFloat(args, j) <= CountFloat(args, k)
    decreases k
  {
    if j < k { CountsGrow(args, j, k - 1); }
  }

  /** When more of a class are there than registers, one of them is in memory. */
  lemma {:induction false} SomeInMemory(args: string, k: nat)
    requires k <= |args| && (CountInteger(args, k) > 6 || CountFloat(args, k) > 8)
    ensures exists i :: 0 <= i < k && InMemory(args, i)
  {
    hide Integer, Float;
    if CountInteger(args, k - 1) > 6 || CountFloat(args, k - 1) > 8 {
      SomeInMemory(args, k - 1);
    } else {
      NotBoth(args[k - 1]);
      assert InMemory(args, k - 1);
    }
  }

  lemma {:induction false} XmmCounted(args: string, k: nat)
    requires k <= |args| && CountFloat(args, |args|) <= 8 && CountInteger(args, |args|) <= 6
    ensures XmmItems(seq(|args|, i requires 0 <= i < |args| => InOrder(args, i)), k) == CountFloat(args, k)
  {
    hide Integer, Float;
    if k > 0 {
      XmmCounted(args, k - 1);
      CountsGrow(args, k, |args|);
      NotBoth(args[k - 1]);
    }
  }

  lemma NoArguments()
    ensures Letters("v") && FunctionArgs("v", 8, 0, 0) == []
    ensures CountReg("v", 1) == 0 && CountFloat("v", 1) == 0
  {
    assert Spread('v', 0, 8, 1) == ([], 8, 1);
    assert Write('v', Reg(0)) + [] == [];
    assert Spread('v', 1, 8, 0) == ([], 8, 1);
    assert "v"[1..] == "";
    assert FunctionArgs("v"[1..], 8, 1, 0) == [];
  }

  lemma SimpleIsPlain(v: string)
    requires Valid(v) && v[2..] != "v" && AllAllowed(v[2..], |v| - 2)
    ensures Plain(v[2..]) && forall i :: 0 <= i < |v| - 2 ==> AllowedReg(v[2..][i]) || Float(v[2..][i])
  {
    hide AllowedReg, Float, IsLetter;
    var args := v[2..];
    assert |v| == 3 && args[0] == 'v' ==> args == "v";
    forall i | 0 <= i < |args| ensures (AllowedReg(args[i]) || Float(args[i])) && IsLetter(args[i]) && args[i] !in "EVHMv" {
      assert args[i] == v[i + 2];
      NotTwice(args[i]);
    }
  }

  /** Among the signatures of nothing but simple letters, those that are accepted are exactly those whose
      arguments are all in registers, and the value tells how many are in floating-point ones. */
  lemma SimpleIffRegisters(v: string)
    requires Valid(v) && !Forbidden(v[0]) && AllAllowed(v[2..], |v| - 2)
    ensures Letters(v[2..])
    ensures var items := FunctionArgs(v[2..], 8, 0, 0);
      && (Simple(v) <==> NoStack(items))
      && (Simple(v) ==> XmmItems(items, |items|) == CountFloat(v[2..], |v| - 2))
  {
    hide AllowedReg, Float, IsLetter, FunctionArgs, Integer, Forbidden;
    var args := v[2..];
    if args == "v" {
      NoArguments();
    } else {
      SimpleIsPlain(v);
      PlacedInOrder(args);
      RegIsInteger(args, |args|);
      forall i | 0 <= i < |args| ensures Integer(args[i]) || Float(args[i]) { NotTwice(args[i]); }
      PlainIff(args);
    }
  }

  lemma PlainIff(args: string)
    ensures var items := seq(|args|, i requires 0 <= i < |args| => InOrder(args, i));
      && (CountInteger(args, |args|) <= 6 && CountFloat(args, |args|) <= 8
            && (forall i :: 0 <= i < |args| ==> Integer(args[i]) || Float(args[i])) ==>
          NoStack(items) && XmmItems(items, |items|) == CountFloat(args, |args|))
      && (NoStack(items) ==> CountInteger(args, |args|) <= 6 && CountFloat(args, |args|) <= 8)
  {
    hide Float, Integer;
    var items := seq(|args|, i requires 0 <= i < |args| => InOrder(args, i));
    if CountInteger(args, |args|) <= 6 && CountFloat(args, |args|) <= 8 && forall i :: 0 <= i < |args| ==> Integer(args[i]) || Float(args[i]) {
      forall i | 0 <= i < |args| ensures !InMemory(args, i) {
        CountsGrow(args, i + 1, |args|);
      }
      XmmCounted(args, |args|);
    }
    if NoStack(items) && (CountInteger(args, |args|) > 6 || CountFloat(args, |args|) > 8) {
      SomeInMemory(args, |args|);
      var i :| 0 <= i < |args| && InMemory(args, i);
      assert items[i] in items;
    }
  }
}
