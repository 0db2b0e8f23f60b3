/** The tables that the second pass fills, allocated from what the first pass found. */
module Unwinder {
  import opened Common
  import opened CfaSpec
  import opened CallFrame

  class Tables {
    const n: nat
    const table: array<nat>
    const statuses: array<bv8>
    const tableStack: array<array<nat>>
    var depth: nat
    var loc: nat
    var cfaReg: nat
    var cfaOff: nat
    var cfaSigned: bool

    ghost function Slots(): set<array<nat>>
      reads tableStack
    {
      set i | 0 <= i < tableStack.Length :: tableStack[i]
    }

    ghost predicate Valid()
      reads this, tableStack
    {
      && table.Length == n && statuses.Length == (n + 1) / 2 && depth <= tableStack.Length
      && table as object != statuses && tableStack as object != table && tableStack as object != statuses
      && (forall i :: 0 <= i < tableStack.Length ==>
            && tableStack[i].Length == n && tableStack[i] != table
            && tableStack[i] as object != statuses && tableStack[i] as object != tableStack)
      && forall i, j :: 0 <= i < j < tableStack.Length ==> tableStack[i] != tableStack[j]
    }

    ghost function Statuses(): (s: seq<bv8>)
      requires statuses.Length == (n + 1) / 2
      reads statuses
      ensures |s| == n && forall i :: 0 <= i < n ==> s[i] == GetStatus(statuses[..], i)
    {
      var bytes := statuses[..];
      seq(n, i requires 0 <= i < n && n <= 2 * |bytes| => GetStatus(bytes, i))
    }

    ghost function Stack(): (s: seq<seq<nat>>)
      requires Valid()
      reads this, tableStack, Slots()
      ensures |s| == depth && forall i :: 0 <= i < depth ==> s[i] == tableStack[i][..]
    {
      StackOf(depth)
    }

    ghost function StackOf(d: nat): (s: seq<seq<nat>>)
      requires d <= tableStack.Length
      reads tableStack, Slots()
      ensures |s| == d && forall i :: 0 <= i < d ==> s[i] == tableStack[i][..]
    {
      if d == 0 then [] else StackOf(d - 1) + [tableStack[d - 1][..]]
    }

    ghost function View(): Frame
      requires Valid()
      reads this, table, statuses, tableStack, Slots()
    {
      Frame(loc, cfaReg, cfaOff, cfaSigned, table[..], Statuses(), Stack())
    }

    /** Tables for `size` registers and `max` remembered states. The first 17 statuses are set, even the
        one after the last: `size` has to leave a byte for it. */
    constructor (size: nat, max: nat, pc: nat)
      requires size >= 17 || size % 2 == 1
      ensures Valid() && n == size && tableStack.Length == max && IsStart(View(), size, pc)
      ensures fresh(table) && fresh(statuses) && fresh(tableStack) && fresh(Slots())
    {
      n := size;
      var t := new nat[size];
      table := t;
      statuses := new bv8[(size + 1) / 2](_ => 0);
      tableStack := new array<nat>[max](_ => t);
      depth, loc, cfaReg, cfaOff, cfaSigned := 0, pc, WORD - 1, 0, false;
      new;
      FillStack();
      InitFitsIff(size);
      SetFirst();
      assert Stack() == [];
    }

    method FillStack()
      requires table.Length == n && statuses.Length == (n + 1) / 2 && depth == 0
      requires table as object != statuses && tableStack as object != table && tableStack as object != statuses
      modifies tableStack
      ensures Valid() && forall j :: 0 <= j < tableStack.Length ==> fresh(tableStack[j])
    {
      var i := 0;
      while i < tableStack.Length
        invariant i <= tableStack.Length
        invariant forall j :: 0 <= j < i ==> tableStack[j].Length == n && fresh(tableStack[j])
        invariant forall j, k :: 0 <= j < k < i ==> tableStack[j] != tableStack[k]
      {
        tableStack[i] := new nat[n];
        i := i + 1;
      }
    }

    method SetFirst()
      requires Valid() && (forall i :: 0 <= i < 17 && i <= n ==> i / 2 < statuses.Length)
      requires forall i :: 0 <= i < n ==> Statuses()[i] == UNDEFINED
      modifies statuses
      ensures Valid() && forall i :: 0 <= i < n ==> Statuses()[i] == if i < 17 then SAME_VALUE else UNDEFINED
    {
      var i := 0;
      while i < 17 && i <= n
        invariant 0 <= i <= 17 && i <= n + 1 && Valid()
        invariant forall j :: 0 <= j < n ==> Statuses()[j] == if j < i then SAME_VALUE else UNDEFINED
      {
        SetStatus(i, SAME_VALUE);
        i := i + 1;
      }
    }

    /** Sets one status without touching its neighbour in the byte. */
    method SetStatus(i: nat, v: bv8)
      requires Valid() && i / 2 < statuses.Length && v <= 0x0f
      modifies statuses
      ensures Valid() && Statuses() == Put(old(Statuses()), i, v)
    {
      ghost var bytes := statuses[..];
      statuses[i / 2] := WithNibble(statuses[i / 2], i % 2, v);
      assert statuses[..] == bytes[i / 2 := WithNibble(bytes[i / 2], i % 2, v)];
      forall j | 0 <= j < n ensures Statuses()[j] == Put(old(Statuses()), i, v)[j] {
        SetOneStatus(bytes, i, v, j);
      }
    }

    static method Copy(dst: array<nat>, src: array<nat>)
      requires dst.Length == src.Length && dst != src
      modifies dst
      ensures dst[..] == src[..]
    {
      var i := 0;
      while i < src.Length
        invariant i <= src.Length && dst[..i] == src[..i] && src[..] == old(src[..])
      {
        dst[i] := src[i];
        i := i + 1;
      }
    }

    method RememberState()
      requires Valid() && depth < tableStack.Length
      modifies this`depth, Slots()
      ensures Valid() && View() == old(View()).(stack := old(View()).stack + [old(View()).table])
    {
      Copy(tableStack[depth], table);
      depth := depth + 1;
      assert Statuses() == old(Statuses());
      assert table[..] == old(table[..]);
      assert forall i :: 0 <= i < depth - 1 ==> tableStack[i][..] == old(tableStack[i][..]);
      assert Stack() == old(Stack()) + [table[..]];
    }

    method RestoreState()
      requires Valid() && depth > 0
      modifies this`depth, table
      ensures Valid()
      ensures var s := old(View()).stack;
        View() == old(View()).(table := s[|s| - 1], stack := s[..|s| - 1])
    {
      depth := depth - 1;
      Copy(table, tableStack[depth]);
      assert Stack() == old(Stack())[..depth];
    }

    // ---- the single changes that instructions are made of

    method MoveTo(l: nat)
      requires Valid()
      modifies this`loc
      ensures Valid() && View() == old(View()).(loc := l)
    {
      loc := l;
    }

    method SetCfa(reg: nat, off: nat, signed: bool)
      requires Valid()
      modifies this`cfaReg, this`cfaOff, this`cfaSigned
      ensures Valid() && View() == old(View()).(cfaReg := reg, cfaOff := off, cfaSigned := signed)
    {
      cfaReg, cfaOff, cfaSigned := reg, off, signed;
    }

    method SetRule(reg: nat, status: bv8)
      requires Valid() && reg < n && status <= 0x0f
      modifies statuses
      ensures Valid() && View() == old(View()).(status := Put(old(View()).status, reg, status))
    {
      SetStatus(reg, status);
    }

    method SetNumber(reg: nat, v: nat)
      requires Valid() && reg < n
      modifies table
      ensures Valid() && View() == old(View()).(table := Put(old(View()).table, reg, v))
    {
      table[reg] := v;
    }

    method SetRuleTo(reg: nat, status: bv8, v: nat)
      requires Valid() && reg < n && status <= 0x0f
      modifies statuses, table
      ensures Valid()
      ensures View() == old(View()).(status := Put(old(View()).status, reg, status), table := Put(old(View()).table, reg, v))
    {
      SetRule(reg, status);
      SetNumber(reg, v);
    }

    /** The rules that `Restore` goes back to, once there are some. */
    static ghost predicate Holds(init: Option<Initial>, initTable: array?<nat>, initStatuses: array?<bv8>, n: nat)
      reads initTable, initStatuses
    {
      if initTable == null || initStatuses == null then init == None
      else
        && init.Some? && initTable.Length == n && initStatuses.Length == (n + 1) / 2
        && init.value.table == initTable[..] && |init.value.status| == n
        && forall i :: 0 <= i < n ==> init.value.status[i] == GetStatus(initStatuses[..], i)
    }

    method RestoreReg(reg: nat, initTable: array?<nat>, initStatuses: array?<bv8>, ghost init: Option<Initial>) returns (ok: bool)
      requires Valid() && reg < n && Holds(init, initTable, initStatuses, n)
      modifies table, statuses
      ensures Valid() && (ok <==> init.Some?)
      ensures ok ==> View() == old(View()).(table := PutFrom(old(View()).table, reg, init.value.table),
                                            status := PutFrom(old(View()).status, reg, init.value.status))
    {
      if initTable == null || initStatuses == null { return false; }
      var v := initTable[reg];
      var st := Nibble(initStatuses[reg / 2], reg % 2);
      assert st == init.value.status[reg];
      NibbleSmall(initStatuses[reg / 2], reg % 2);
      SetRuleTo(reg, st, v);
      return true;
    }

    // ---- instructions

    /** One instruction, if what it needs is there. */
    ghost predicate Ready(i: Instr)
      reads this
    {
      NamesFit(i, n) && (i.Remember? ==> depth < tableStack.Length) && (i.RestoreState? ==> depth > 0)
    }

    ghost predicate Foreign(o: object?)
      reads this, tableStack
    {
      o != this && o != table && o != statuses && forall i :: 0 <= i < tableStack.Length ==> tableStack[i] as object != o
    }

    /** The arrays themselves are never exchanged. */
    twostate lemma StillForeign(o: object?)
      requires old(Foreign(o)) && unchanged(tableStack)
      ensures Foreign(o)
    {}

    method ExecOne(mem: seq<Byte>, at: nat, al: Factors, initTable: array?<nat>, initStatuses: array?<bv8>, ghost init: Option<Initial>)
        returns (ok: bool, q: nat)
      requires Valid() && Holds(init, initTable, initStatuses, n) && Ready(Fetch(mem, at).0)
      requires Foreign(initTable) && Foreign(initStatuses)
      modifies this, table, statuses, Slots()
      ensures Valid() && (ok <==> Effect(Fetch(mem, at).0, old(View()), init, al).Some?)
      ensures ok ==> q == Fetch(mem, at).1 && Effect(Fetch(mem, at).0, old(View()), init, al) == Some(View())
    {
      hide Uleb, Sleb, Little, View, Valid, Put, PutFrom, Word, Holds, Foreign;
      ViewIs();
      FitsReg(Fetch(mem, at).0, n);
      ok, q := true, at + 1;
      var inst := At(mem, at);
      var hi, lo := inst / 64, inst % 64;
      if hi == 1 {
        MoveTo(Word(loc + lo * al.code));
      } else if hi == 2 {
        var off;
        off, q := ReadUleb(mem, q);
        SetRuleTo(lo, OFFSET, Word(off * al.data));
      } else if hi == 3 {
        ok := RestoreReg(lo, initTable, initStatuses, init);
      } else if lo == 0x01 {
        var l;
        l, q := ReadLittle(mem, q, 8);
        MoveTo(l);
      } else if lo == 0x02 {
        var d;
        d, q := ReadLittle(mem, q, 1);
        MoveTo(Word(loc + d * al.code));
      } else if lo == 0x03 {
        var d;
        d, q := ReadLittle(mem, q, 2);
        MoveTo(Word(loc + d * al.code));
      } else if lo == 0x04 {
        var d;
        d, q := ReadLittle(mem, q, 4);
        MoveTo(Word(loc + d * al.code));
      } else if lo == 0x0c || lo == 0x12 || lo == 0x0d || lo == 0x0e || lo == 0x13 {
        q := ExecCfa(mem, at, lo, al, init);
      } else if lo == 0x0a {
        RememberState();
      } else if lo == 0x0b {
        RestoreState();
      } else if lo == 0x00 {
      } else {
        ok, q := ExecRule(mem, at, lo, al, initTable, initStatuses, init);
      }
    }

    lemma ViewIs()
      requires Valid()
      ensures View().loc == loc && View().cfaReg == cfaReg && View().cfaSigned == cfaSigned && View().cfaOff == cfaOff
      ensures |View().table| == |View().status| == n && |View().stack| == depth
    {}

    /** The instructions about the frame address. */
    method ExecCfa(mem: seq<Byte>, at: nat, lo: nat, al: Factors, ghost init: Option<Initial>) returns (q: nat)
      requires Valid() && At(mem, at) == lo
      requires lo == 0x0c || lo == 0x12 || lo == 0x0d || lo == 0x0e || lo == 0x13
      modifies this`cfaReg, this`cfaOff, this`cfaSigned
      ensures Valid() && q == Fetch(mem, at).1
      ensures Effect(Fetch(mem, at).0, old(View()), init, al) == Some(View())
    {
      hide Uleb, Sleb, Little, View, Word;
      ViewIs();
      ghost var slots, o := Slots(), View();
      if lo == 0x0c {
        var reg, off;
        reg, q := ReadUleb(mem, at + 1);
        off, q := ReadUleb(mem, q);
        SetCfa(reg, Word(off), false);
      } else if lo == 0x12 {
        var reg, off;
        reg, q := ReadUleb(mem, at + 1);
        off, q := ReadSleb(mem, q);
        SetCfa(reg, Word(off * al.data), true);
      } else if lo == 0x0d {
        var reg;
        reg, q := ReadUleb(mem, at + 1);
        SetCfa(reg, cfaOff, cfaSigned);
      } else if lo == 0x0e {
        var off;
        off, q := ReadUleb(mem, at + 1);
        SetCfa(cfaReg, Word(off), false);
      } else {
        var off;
        off, q := ReadSleb(mem, at + 1);
        SetCfa(cfaReg, Word(off * al.data), cfaSigned);
      }
    }

    /** Those that say where a register is, in their long form. */
    method ExecPlace(mem: seq<Byte>, at: nat, lo: nat, al: Factors, ghost init: Option<Initial>) returns (q: nat)
      requires Valid() && At(mem, at) == lo
      requires lo == 0x05 || lo == 0x11 || lo == 0x14 || lo == 0x15 || lo == 0x09
      requires NamesFit(Fetch(mem, at).0, n)
      modifies table, statuses
      ensures Valid() && q == Fetch(mem, at).1 && Effect(Fetch(mem, at).0, old(View()), init, al) == Some(View())
    {
      hide Uleb, Sleb, Little, View, Valid, Put, PutFrom, Word, Fetch;
      FetchPlace(mem, at, lo);
      FitsReg(Fetch(mem, at).0, n);
      ghost var slots := Slots();
      var reg, off;
      reg, q := ReadUleb(mem, at + 1);
      if lo == 0x05 {
        off, q := ReadUleb(mem, q);
        SetRuleTo(reg, OFFSET, Word(off * al.data));
      } else if lo == 0x11 {
        off, q := ReadSleb(mem, q);
        SetRuleTo(reg, OFFSET, Word(off * al.data));
      } else if lo == 0x14 {
        off, q := ReadUleb(mem, q);
        SetRuleTo(reg, VAL_OFFSET, Word(off * al.data));
      } else if lo == 0x15 {
        off, q := ReadSleb(mem, q);
        SetRuleTo(reg, VAL_OFFSET, Word(off * al.data));
      } else {
        var from;
        from, q := ReadUleb(mem, q);
        SetRuleTo(reg, REGISTER, from);
      }
    }

    /** The other instructions about one register, in their long form. */
    method ExecKind(mem: seq<Byte>, at: nat, lo: nat, al: Factors, initTable: array?<nat>, initStatuses: array?<bv8>,
                    ghost init: Option<Initial>) returns (ok: bool, q: nat)
      requires Valid() && Holds(init, initTable, initStatuses, n) && At(mem, at) == lo && OtherLong(lo)
      requires NamesFit(Fetch(mem, at).0, n)
      modifies table, statuses
      ensures Valid() && (ok <==> Effect(Fetch(mem, at).0, old(View()), init, al).Some?)
      ensures ok ==> q == Fetch(mem, at).1 && Effect(Fetch(mem, at).0, old(View()), init, al) == Some(View())
    {
      hide Uleb, Sleb, Little, View, Valid, Put, PutFrom, Word, Holds, Fetch, OtherLong;
      FetchKind(mem, at, lo);
      FitsReg(Fetch(mem, at).0, n);
      ok, q := true, at + 1;
      ghost var slots := Slots();
      var reg;
      if lo == 0x07 {
        reg, q := ReadUleb(mem, q);
        SetRule(reg, UNDEFINED);
      } else if lo == 0x08 {
        reg, q := ReadUleb(mem, q);
        SetRule(reg, SAME_VALUE);
      } else if lo == 0x06 {
        reg, q := ReadUleb(mem, q);
        ok := RestoreReg(reg, initTable, initStatuses, init);
      } else {
        ok := false;
      }
    }

    /** The instructions about one register, in their long form. */
    method ExecRule(mem: seq<Byte>, at: nat, lo: nat, al: Factors, initTable: array?<nat>, initStatuses: array?<bv8>,
                    ghost init: Option<Initial>) returns (ok: bool, q: nat)
      requires Valid() && Holds(init, initTable, initStatuses, n) && At(mem, at) == lo
      requires 4 < lo < 64 && !(0x0a <= lo <= 0x0e) && lo != 0x12 && lo != 0x13
      requires NamesFit(Fetch(mem, at).0, n)
      modifies table, statuses
      ensures Valid() && (ok <==> Effect(Fetch(mem, at).0, old(View()), init, al).Some?)
      ensures ok ==> q == Fetch(mem, at).1 && Effect(Fetch(mem, at).0, old(View()), init, al) == Some(View())
    {
      hide Fetch, Effect, View, Valid, Holds;
      ok := true;
      if lo == 0x05 || lo == 0x11 || lo == 0x14 || lo == 0x15 || lo == 0x09 {
        q := ExecPlace(mem, at, lo, al, init);
      } else {
        ok, q := ExecKind(mem, at, lo, al, initTable, initStatuses, init);
      }
    }

    method ExecNext(mem: seq<Byte>, at: nat, end: nat, al: Factors, limit: Option<nat>,
                    initTable: array?<nat>, initStatuses: array?<bv8>, ghost init: Option<Initial>, ghost s: Sizes)
        returns (ok: bool, q: nat, ghost t: Sizes)
      requires Valid() && Holds(init, initTable, initStatuses, n) && Foreign(initTable) && Foreign(initStatuses)
      requires at < end && (limit == None || View().loc <= limit.value)
      requires Fits(mem, at, end, n) && s.depth == |View().stack| == depth <= s.max
      requires Scan(mem, at, end, s).Some? && Scan(mem, at, end, s).value.max <= tableStack.Length
      modifies this, table, statuses, Slots()
      ensures Valid() && Holds(init, initTable, initStatuses, n) && Foreign(initTable) && Foreign(initStatuses)
      ensures !ok ==> Exec(mem, at, end, old(View()), init, al, limit) == None
      ensures ok ==> q > at && Fits(mem, q, end, n) && t.depth == depth <= t.max
      ensures ok ==> Scan(mem, q, end, t) == Scan(mem, at, end, s)
      ensures ok ==> Exec(mem, q, end, View(), init, al, limit) == Exec(mem, at, end, old(View()), init, al, limit)
    {
      hide Fetch, Effect, Exec, Scan, Fits, View, Ready, Size, NamesFit, Uleb, Sleb, Little;
      ghost var f, i := View(), Fetch(mem, at).0;
      OneMore(mem, at, end, n, s, f, init, al, limit);
      IsReady(i, s);
      ok, q := ExecOne(mem, at, al, initTable, initStatuses, init);
      t := Size(i, s).value;
      if ok { ViewIs(); }
      StillForeign(initTable);
      StillForeign(initStatuses);
    }

    lemma IsReady(i: Instr, s: Sizes)
      requires NamesFit(i, n) && s.depth == depth
      requires (i.Remember? ==> depth < tableStack.Length) && (i.RestoreState? ==> s.depth > 0)
      ensures Ready(i)
    {}

    /** A part of the instructions: all of them, or up to a location beyond `limit`. The depth never goes
        below zero or above what was allocated, and every table access is inside, because the sizing pass
        went over the same bytes in the same steps. */
    method ExecPart(mem: seq<Byte>, from: nat, end: nat, al: Factors, limit: Option<nat>,
                    initTable: array?<nat>, initStatuses: array?<bv8>, ghost init: Option<Initial>, ghost s: Sizes)
        returns (ok: bool)
      requires Valid() && Holds(init, initTable, initStatuses, n) && Foreign(initTable) && Foreign(initStatuses)
      requires Fits(mem, from, end, n) && s.depth == depth <= s.max
      requires Scan(mem, from, end, s).Some? && Scan(mem, from, end, s).value.max <= tableStack.Length
      modifies this, table, statuses, Slots()
      ensures Valid() && (ok <==> Exec(mem, from, end, old(View()), init, al, limit).Some?)
      ensures ok ==> Exec(mem, from, end, old(View()), init, al, limit) == Some(View())
      ensures ok && limit == None ==> depth == Scan(mem, from, end, s).value.depth
    {
      hide Fetch, Effect, Size, View, Holds, Foreign, NamesFit;
      var cur := from;
      ghost var t := s;
      ghost var f := View();
      while cur < end && (limit == None || loc <= limit.value)
        invariant Valid() && Holds(init, initTable, initStatuses, n) && Foreign(initTable) && Foreign(initStatuses)
        invariant Fits(mem, cur, end, n) && t.depth == depth <= t.max
        invariant Scan(mem, cur, end, t) == Scan(mem, from, end, s)
        invariant Exec(mem, cur, end, View(), init, al, limit) == Exec(mem, from, end, f, init, al, limit)
        decreases end - cur
      {
        ViewIs();
        ok, cur, t := ExecNext(mem, cur, end, al, limit, initTable, initStatuses, init, t);
        if !ok { return; }
      }
      ViewIs();
      ok := true;
    }
  }

  /** The sizing pass and the filling pass together, for registers that a byte can count and enough or an
      odd number of them: the second reaches no place that the first did not make room for. */
  method Unwind(c: Code, ra: nat, pc: nat, addr: nat, al: Factors) returns (ok: bool, u: Tables?, ghost start: Frame)
    requires ScanAll(c, ra).Some? ==> ra < 255 && Small(c.mem, c.cie, c.cieEnd) && Small(c.mem, c.fde, c.fdeEnd)
    requires ScanAll(c, ra).Some? ==> var n := Count(ScanAll(c, ra).value); n >= 17 || n % 2 == 1
    ensures ScanAll(c, ra) == None ==> !ok
    ensures ScanAll(c, ra).Some? ==>
      IsStart(start, Count(ScanAll(c, ra).value), pc) && (ok <==> ExecAll(c, start, al, addr).Some?)
    ensures ok ==> u != null && u.Valid() && ExecAll(c, start, al, addr) == Some(u.View())
  {
    hide Scan, Exec, Small, Fits, Uleb, Sleb, Little, Fetch, Effect, IsStart;
    u := null;
    start := Frame(0, 0, 0, false, [], [], []);
    var regCount, depth, max;
    ok, regCount, depth, max := SizePass(c.mem, c.cie, c.cieEnd, ra % 256, 0, 0);
    if !ok { return; }
    ghost var mid := Sizes(regCount, depth, max);
    ok, regCount, depth, max := SizePass(c.mem, c.fde, c.fdeEnd, regCount, depth, max);
    if !ok { return; }
    TablesFitIff(c, ra);
    ScanDepth(c.mem, c.cie, c.cieEnd, Sizes(ra % 256, 0, 0));
    ScanDepth(c.mem, c.fde, c.fdeEnd, mid);
    regCount := (regCount + 1) % 256;
    u := new Tables(regCount, max, pc);
    start := u.View();
    ok := RunBoth(c, u, al, addr, Sizes(ra % 256, 0, 0), mid);
  }

  method RunBoth(c: Code, u: Tables, al: Factors, addr: nat, ghost s: Sizes, ghost mid: Sizes) returns (ok: bool)
    requires u.Valid() && u.depth == s.depth == 0
    requires Scan(c.mem, c.cie, c.cieEnd, s) == Some(mid) && Scan(c.mem, c.fde, c.fdeEnd, mid).Some?
    requires s.depth <= s.max && mid.depth <= mid.max <= Scan(c.mem, c.fde, c.fdeEnd, mid).value.max <= u.tableStack.Length
    requires Fits(c.mem, c.cie, c.cieEnd, u.n) && Fits(c.mem, c.fde, c.fdeEnd, u.n)
    modifies u, u.table, u.statuses, u.Slots()
    ensures u.Valid() && (ok <==> ExecAll(c, old(u.View()), al, addr).Some?)
    ensures ok ==> ExecAll(c, old(u.View()), al, addr) == Some(u.View())
  {
    hide Scan, Exec, Fits, Fetch, Effect;
    ok := u.ExecPart(c.mem, c.cie, c.cieEnd, al, None, null, null, None, s);
    if !ok { return; }
    ghost var f := u.View();
    var initTable, initStatuses := SaveRules(u);
    ok := u.ExecPart(c.mem, c.fde, c.fdeEnd, al, Some(addr), initTable, initStatuses, Some(Initial(f.table, f.status)), mid);
  }

  method SaveRules(u: Tables) returns (initTable: array<nat>, initStatuses: array<bv8>)
    requires u.Valid()
    ensures fresh(initTable) && fresh(initStatuses)
    ensures u.Valid() && u.View() == old(u.View())
    ensures Tables.Holds(Some(Initial(u.View().table, u.View().status)), initTable, initStatuses, u.n)
    ensures u.Foreign(initTable) && u.Foreign(initStatuses)
  {
    initTable, initStatuses := new nat[u.n], new bv8[u.statuses.Length];
    Tables.Copy(initTable, u.table);
    CopyBytes(initStatuses, u.statuses);
  }

  method CopyBytes(dst: array<bv8>, src: array<bv8>)
    requires dst.Length == src.Length && dst != src
    modifies dst
    ensures dst[..] == src[..]
  {
    var i := 0;
    while i < src.Length
      invariant i <= src.Length && dst[..i] == src[..i] && src[..] == old(src[..])
    {
      dst[i] := src[i];
      i := i + 1;
    }
  }

  /** What both passes say about one instruction more. */
  lemma OneMore(mem: seq<Byte>, at: nat, end: nat, n: nat, s: Sizes, f: Frame, init: Option<Initial>, al: Factors, limit: Option<nat>)
    requires at < end && Fits(mem, at, end, n) && Scan(mem, at, end, s).Some? && s.depth == |f.stack| <= s.max
    requires limit == None || f.loc <= limit.value
    ensures var (i, q) := Fetch(mem, at);
      && q > at && NamesFit(i, n) && Fits(mem, q, end, n) && Size(i, s).Some?
      && Scan(mem, q, end, Size(i, s).value) == Scan(mem, at, end, s)
      && Size(i, s).value.depth <= Size(i, s).value.max
      && (i.Remember? ==> s.depth < Scan(mem, at, end, s).value.max) && (i.RestoreState? ==> s.depth > 0)
      && match Effect(i, f, init, al)
         case None => Exec(mem, at, end, f, init, al, limit) == None
         case Some(g) =>
           && Exec(mem, at, end, f, init, al, limit) == Exec(mem, q, end, g, init, al, limit)
           && |g.stack| == Size(i, s).value.depth
  {
    hide Fetch, Effect, NamesFit;
    var (i, q) := Fetch(mem, at);
    DepthAgrees(i, s, f, init, al);
    ScanDepth(mem, q, end, Size(i, s).value);
  }

  lemma FetchPlace(mem: seq<Byte>, at: nat, lo: nat)
    requires At(mem, at) == lo
    ensures var (reg, s) := Uleb(mem, at + 1);
      var (u, v) := (Uleb(mem, s), Sleb(mem, s));
      && (lo == 0x05 ==> Fetch(mem, at) == (Rule(reg, Offset(u.0)), u.1))
      && (lo == 0x11 ==> Fetch(mem, at) == (Rule(reg, Offset(v.0)), v.1))
      && (lo == 0x14 ==> Fetch(mem, at) == (Rule(reg, ValOffset(u.0)), u.1))
      && (lo == 0x15 ==> Fetch(mem, at) == (Rule(reg, ValOffset(v.0)), v.1))
      && (lo == 0x09 ==> Fetch(mem, at) == (Rule(reg, InRegister(u.0)), u.1))
  {
    hide Uleb, Sleb, Little;
  }

  predicate OtherLong(lo: nat) {
    && 4 < lo < 64 && !(0x0a <= lo <= 0x0e) && lo != 0x12 && lo != 0x13
    && lo != 0x05 && lo != 0x09 && lo != 0x11 && lo != 0x14 && lo != 0x15
  }

  lemma FetchKind(mem: seq<Byte>, at: nat, lo: nat)
    requires At(mem, at) == lo && OtherLong(lo)
    ensures var (reg, s) := Uleb(mem, at + 1);
      if lo == 0x06 then Fetch(mem, at) == (Restore(reg), s)
      else if lo == 0x07 then Fetch(mem, at) == (Rule(reg, Undefined), s)
      else if lo == 0x08 then Fetch(mem, at) == (Rule(reg, SameValue), s)
      else Fetch(mem, at).0 == Unknown
  {
    hide Uleb, Sleb, Little;
  }

  lemma FitsReg(i: Instr, n: nat)
    requires NamesFit(i, n)
    ensures i.Rule? || i.Restore? ==> i.reg < n
  {
    if i.Rule? || i.Restore? { assert Named(i)[0] == i.reg; }
  }

  lemma NibbleSmall(b: bv8, half: nat)
    ensures Nibble(b, half) <= 0x0f
  {}
}
