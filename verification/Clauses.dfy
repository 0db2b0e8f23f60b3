/** The `#if` conditions of the wrapper generator: printed, parsed back, and ordered. */
module Clauses {
  import opened Common
  import opened Text

  datatype Define = Define(name: string, inverted: bool)

  /** All of the defines of a clause, and one of the clauses, must hold. */
  type Clause = seq<Define>

  /** The names that a build knows, no two the same; a name is an identifier. */
  predicate Known(names: seq<string>) {
    && (forall i, j :: 0 <= i < j < |names| ==> names[i] != names[j])
    && forall n <- names :: Identifier(n)
  }

  predicate Identifier(n: string) { forall c <- n :: 'a' <= c <= 'z' || 'A' <= c <= 'Z' || '0' <= c <= '9' || c == '_' }

  predicate ClauseOk(names: seq<string>, c: Clause) { forall d <- c :: d.name in names }

  predicate ClausesOk(names: seq<string>, cs: seq<Clause>) { forall c <- cs :: ClauseOk(names, c) }

  // ---- printing

  function PrintDefine(d: Define): string {
    if d.inverted then "!defined(" + d.name + ")" else "defined(" + d.name + ")"
  }

  function PrintAll(ds: Clause): seq<string> { seq(|ds|, i requires 0 <= i < |ds| => PrintDefine(ds[i])) }

  function PrintClause(c: Clause): string { Join(PrintAll(c), " && ") }

  function PrintEach(cs: seq<Clause>): seq<string> { seq(|cs|, i requires 0 <= i < |cs| => PrintClause(cs[i])) }

  function Print(cs: seq<Clause>): string {
    if |cs| == 1 then PrintClause(cs[0]) else "(" + Join(PrintEach(cs), ") || (") + ")"
  }

  // ---- parsing; `None` is the error for a name that is not known

  /** `x[from:-1]`. */
  function Inside(x: string, from: nat): string { if from + 1 <= |x| then x[from..|x| - 1] else "" }

  function ParseDefine(names: seq<string>, x: string): Option<Define> {
    var inverted := x != "" && x[0] == '!';
    var name := Inside(x, if inverted then 9 else 8);
    if x != "" && name in names then Some(Define(name, inverted)) else None
  }

  function ParseDefines(names: seq<string>, xs: seq<string>): Option<Clause> {
    if xs == [] then Some([])
    else
      match ParseDefine(names, xs[0])
      case None => None
      case Some(d) =>
        match ParseDefines(names, xs[1..])
        case None => None
        case Some(ds) => Some([d] + ds)
  }

  function ParseClause(names: seq<string>, s: string): Option<Clause> {
    if s == "" then Some([]) else ParseDefines(names, Split(s, " && "))
  }

  function ParseEach(names: seq<string>, xs: seq<string>): Option<seq<Clause>> {
    if xs == [] then Some([])
    else
      match ParseClause(names, xs[0])
      case None => None
      case Some(c) =>
        match ParseEach(names, xs[1..])
        case None => None
        case Some(cs) => Some([c] + cs)
  }

  function Parse(names: seq<string>, s: string): Option<seq<Clause>> {
    if s == "()" then Some([])
    else if Contains(s, ") || (") then ParseEach(names, Split(Inside(s, 1), ") || ("))
    else
      match ParseClause(names, s)
      case None => None
      case Some(c) => Some([c])
  }

  // ---- parsing undoes printing

  lemma PrintedDefine(names: seq<string>, d: Define)
    requires Known(names) && d.name in names
    ensures ParseDefine(names, PrintDefine(d)) == Some(d)
    ensures Free(PrintDefine(d), '&') && Free(PrintDefine(d), '|') && PrintDefine(d) != "" && PrintDefine(d) != "()"
  {
    assert Identifier(d.name);
    var x := PrintDefine(d);
    assert x[0] == if d.inverted then '!' else 'd';
    assert Inside(x, if d.inverted then 9 else 8) == d.name;
  }

  lemma {:induction false} PrintedDefines(names: seq<string>, ds: Clause)
    requires Known(names) && ClauseOk(names, ds)
    ensures ParseDefines(names, PrintAll(ds)) == Some(ds)
  {
    hide Known, ParseDefine, PrintDefine;
    if ds != [] {
      PrintedDefine(names, ds[0]);
      PrintedDefines(names, ds[1..]);
      assert PrintAll(ds)[1..] == PrintAll(ds[1..]);
      assert ds == [ds[0]] + ds[1..];
    }
  }

  lemma {:induction false} JoinFree(parts: seq<string>, sep: string, m: char)
    requires Free(sep, m) && forall p <- parts :: Free(p, m)
    ensures Free(Join(parts, sep), m)
  {
    if |parts| == 1 {
      assert parts[0] in parts;
    } else if |parts| > 1 {
      assert parts[0] in parts && forall p <- parts[1..] :: p in parts;
      JoinFree(parts[1..], sep, m);
      assert Join(parts, sep) == parts[0] + sep + Join(parts[1..], sep);
    }
  }

  lemma PrintedClause(names: seq<string>, c: Clause)
    requires Known(names) && ClauseOk(names, c)
    ensures ParseClause(names, PrintClause(c)) == Some(c)
    ensures Free(PrintClause(c), '|') && PrintClause(c) != "()"
  {
    var parts := PrintAll(c);
    forall i | 0 <= i < |c| ensures Free(parts[i], '&') && Free(parts[i], '|') && parts[i] != "" && parts[i] != "()" {
      PrintedDefine(names, c[i]);
    }
    JoinFree(parts, " && ", '|');
    PrintedDefines(names, c);
    if c != [] {
      SplitJoin(parts, " && ", '&', 1);
      NotShort(parts);
    }
  }

  lemma NotShort(parts: seq<string>)
    requires parts != [] && parts[0] != "" && parts[0] != "()"
    ensures Join(parts, " && ") != "" && Join(parts, " && ") != "()"
  {
    if |parts| > 1 {
      assert |Join(parts, " && ")| >= |parts[0]| + 4;
    }
  }

  lemma {:induction false} PrintedEach(names: seq<string>, cs: seq<Clause>)
    requires Known(names) && ClausesOk(names, cs)
    ensures ParseEach(names, PrintEach(cs)) == Some(cs)
    ensures forall p <- PrintEach(cs) :: Free(p, '|')
  {
    hide ParseClause, PrintClause, Known, ClauseOk, Free;
    forall i | 0 <= i < |cs| ensures Free(PrintEach(cs)[i], '|') { PrintedClause(names, cs[i]); }
    if cs != [] {
      PrintedClause(names, cs[0]);
      PrintedEach(names, cs[1..]);
      assert PrintEach(cs)[1..] == PrintEach(cs[1..]);
      assert cs == [cs[0]] + cs[1..];
    }
  }

  /** For every list of clauses, the empty one and those of one clause included. */
  lemma ParseUndoesPrint(names: seq<string>, cs: seq<Clause>)
    requires Known(names) && ClausesOk(names, cs)
    ensures Parse(names, Print(cs)) == Some(cs)
  {
    hide Parse, Known, ClausesOk;
    if cs == [] {
      ParsesNone(names);
    } else if |cs| == 1 {
      ParsesOne(names, cs);
    } else {
      ParsesMany(names, cs);
    }
  }

  lemma ParsesNone(names: seq<string>)
    ensures Parse(names, Print([])) == Some([])
  {}

  lemma ParsesOne(names: seq<string>, cs: seq<Clause>)
    requires Known(names) && ClausesOk(names, cs) && |cs| == 1
    ensures Parse(names, Print(cs)) == Some(cs)
  {
    PrintedClause(names, cs[0]);
    hide PrintClause, ParseClause, Contains, Known;
    NotIn(PrintClause(cs[0]), ") || (", '|', 2);
    assert cs == [cs[0]];
  }

  lemma ParsesMany(names: seq<string>, cs: seq<Clause>)
    requires Known(names) && ClausesOk(names, cs) && |cs| > 1
    ensures Parse(names, Print(cs)) == Some(cs)
  {
    hide PrintClause, ParseEach, Contains, Known, Split, Join, ClauseOk;
    var parts := PrintEach(cs);
    PrintedEach(names, cs);
    SplitJoin(parts, ") || (", '|', 2);
    var s := Print(cs);
    assert Inside(s, 1) == Join(parts, ") || (");
    Wrapped(Join(parts, ") || ("), ") || (");
    NoLongerThan(s, ") || (");
  }

  lemma NoLongerThan(s: string, sep: string)
    requires Contains(s, sep)
    ensures |sep| <= |s|
  {}

  lemma Wrapped(s: string, sep: string)
    requires Contains(s, sep) && |sep| > 0
    ensures Contains("(" + s + ")", sep)
  {
    var i := Find(s, sep, 0);
    var t := "(" + s + ")";
    assert t[i + 1..][..|sep|] == s[i..][..|sep|];
  }

  /** Different lists print differently. */
  lemma PrintInjective(names: seq<string>, cs: seq<Clause>, ds: seq<Clause>)
    requires Known(names) && ClausesOk(names, cs) && ClausesOk(names, ds) && Print(cs) == Print(ds)
    ensures cs == ds
  {
    ParseUndoesPrint(names, cs);
    ParseUndoesPrint(names, ds);
  }

  // ---- the sorting key

  /** The number of a name in the list of all names. */
  function IndexOf(names: seq<string>, n: string): (r: nat)
    requires n in names
    ensures r < |names| && names[r] == n
  {
    if names[0] == n then 0 else 1 + IndexOf(names[1..], n)
  }

  function DefineValue(names: seq<string>, d: Define): int
    requires d.name in names
  {
    IndexOf(names, d.name) * 2 + (if d.inverted then 1 else 0)
  }

  function Lengths(cs: seq<Clause>): seq<int> { seq(|cs|, i requires 0 <= i < |cs| => |cs[i]|) }

  function Values(names: seq<string>, c: Clause): seq<int>
    requires ClauseOk(names, c)
  {
    seq(|c|, i requires 0 <= i < |c| => DefineValue(names, c[i]))
  }

  function AllValues(names: seq<string>, cs: seq<Clause>): seq<int>
    requires ClausesOk(names, cs)
  {
    if cs == [] then [] else Values(names, cs[0]) + AllValues(names, cs[1..])
  }

  /** How many clauses, how many defines in each, and then every define. */
  function SplitDef(names: seq<string>, cs: seq<Clause>): seq<int>
    requires ClausesOk(names, cs)
  {
    [|cs|] + Lengths(cs) + AllValues(names, cs)
  }

  lemma ValuesInjective(names: seq<string>, c: Clause, d: Clause)
    requires ClauseOk(names, c) && ClauseOk(names, d) && |c| == |d| && Values(names, c) == Values(names, d)
    ensures c == d
  {
    forall i | 0 <= i < |c| ensures c[i] == d[i] {
      assert Values(names, c)[i] == Values(names, d)[i];
    }
  }

  lemma {:induction false} AllValuesInjective(names: seq<string>, cs: seq<Clause>, ds: seq<Clause>)
    requires ClausesOk(names, cs) && ClausesOk(names, ds)
    requires Lengths(cs) == Lengths(ds) && AllValues(names, cs) == AllValues(names, ds)
    ensures cs == ds
  {
    assert |cs| == |Lengths(cs)| && |ds| == |Lengths(ds)|;
    if cs != [] {
      assert |cs[0]| == Lengths(cs)[0] == Lengths(ds)[0] == |ds[0]|;
      var n, a, b := |cs[0]|, AllValues(names, cs), AllValues(names, ds);
      assert a[..n] == Values(names, cs[0]) && b[..n] == Values(names, ds[0]);
      assert a[n..] == AllValues(names, cs[1..]) && b[n..] == AllValues(names, ds[1..]);
      ValuesInjective(names, cs[0], ds[0]);
      assert Lengths(cs)[1..] == Lengths(cs[1..]) && Lengths(ds)[1..] == Lengths(ds[1..]);
      AllValuesInjective(names, cs[1..], ds[1..]);
    }
  }

  /** Two lists of clauses with the same key are the same. */
  lemma SplitDefInjective(names: seq<string>, cs: seq<Clause>, ds: seq<Clause>)
    requires ClausesOk(names, cs) && ClausesOk(names, ds) && SplitDef(names, cs) == SplitDef(names, ds)
    ensures cs == ds
  {
    var k, l := SplitDef(names, cs), SplitDef(names, ds);
    assert k[0] == |cs| && l[0] == |ds|;
    var n := |cs| + 1;
    assert k[1..n] == Lengths(cs) && l[1..n] == Lengths(ds);
    assert k[n..] == AllValues(names, cs) && l[n..] == AllValues(names, ds);
    AllValuesInjective(names, cs, ds);
  }

  /** Lists of numbers are compared number by number; a shorter one that runs out comes first. */
  predicate Before(a: seq<int>, b: seq<int>) {
    b != [] && (a == [] || a[0] < b[0] || (a[0] == b[0] && Before(a[1..], b[1..])))
  }

  lemma {:induction false} BeforeAsym(a: seq<int>, b: seq<int>)
    requires Before(a, b)
    ensures !Before(b, a)
  {
    if a != [] && a[0] == b[0] { BeforeAsym(a[1..], b[1..]); }
  }

  lemma {:induction false} BeforeTotal(a: seq<int>, b: seq<int>)
    requires !Before(a, b) && !Before(b, a)
    ensures a == b
  {
    if a != [] && b != [] {
      BeforeTotal(a[1..], b[1..]);
      assert a == [a[0]] + a[1..] && b == [b[0]] + b[1..];
    }
  }

  lemma {:induction false} BeforeTrans(a: seq<int>, b: seq<int>, c: seq<int>)
    requires Before(a, b) && Before(b, c)
    ensures Before(a, c)
  {
    if a != [] && a[0] == b[0] == c[0] { BeforeTrans(a[1..], b[1..], c[1..]); }
  }

  /** In the order of the keys, as sorting leaves it: no element has a smaller key than one before it. */
  predicate InOrder(names: seq<string>, xs: seq<seq<Clause>>)
    requires forall x <- xs :: ClausesOk(names, x)
  {
    forall i, j :: 0 <= i < j < |xs| ==> !Before(SplitDef(names, xs[j]), SplitDef(names, xs[i]))
  }

  /** The order of the conditions does not depend on the order in which they were found: whatever has the
      same conditions, each once, in order, is the same list. */
  lemma {:induction false} OrderUnique(names: seq<string>, xs: seq<seq<Clause>>, ys: seq<seq<Clause>>)
    requires (forall x <- xs :: ClausesOk(names, x)) && (forall y <- ys :: ClausesOk(names, y))
    requires InOrder(names, xs) && InOrder(names, ys)
    requires forall x :: x in xs <==> x in ys
    requires (forall i, j :: 0 <= i < j < |xs| ==> xs[i] != xs[j]) && (forall i, j :: 0 <= i < j < |ys| ==> ys[i] != ys[j])
    ensures xs == ys
    decreases |xs|
  {
    hide SplitDef, Before, ClausesOk;
    assert ys != [] ==> ys[0] in ys;
    if xs != [] {
      assert xs[0] in xs;
      assert ys[0] in ys;
      var i :| 0 <= i < |ys| && ys[i] == xs[0];
      var j :| 0 <= j < |xs| && xs[j] == ys[0];
      SameFirst(names, xs, ys, i, j);
      forall x ensures x in xs[1..] <==> x in ys[1..] { TailIn(xs, x); TailIn(ys, x); }
      OrderUnique(names, xs[1..], ys[1..]);
      assert xs == [xs[0]] + xs[1..] && ys == [ys[0]] + ys[1..];
    }
  }

  lemma TailIn(xs: seq<seq<Clause>>, x: seq<Clause>)
    requires xs != [] && forall i, j :: 0 <= i < j < |xs| ==> xs[i] != xs[j]
    ensures x in xs[1..] <==> x in xs && x != xs[0]
  {
    if x in xs && x != xs[0] {
      var i :| 0 <= i < |xs| && xs[i] == x;
      assert xs[1..][i - 1] == x;
    }
  }

  lemma SameFirst(names: seq<string>, xs: seq<seq<Clause>>, ys: seq<seq<Clause>>, i: nat, j: nat)
    requires (forall x <- xs :: ClausesOk(names, x)) && (forall y <- ys :: ClausesOk(names, y))
    requires InOrder(names, xs) && InOrder(names, ys)
    requires i < |ys| && j < |xs| && ys[i] == xs[0] && xs[j] == ys[0]
    ensures xs[0] == ys[0]
  {
    if i > 0 && j > 0 {
      assert !Before(SplitDef(names, xs[j]), SplitDef(names, xs[0]));
      assert !Before(SplitDef(names, ys[i]), SplitDef(names, ys[0]));
      BeforeTotal(SplitDef(names, xs[0]), SplitDef(names, ys[0]));
      SplitDefInjective(names, xs[0], ys[0]);
    }
  }

  // ---- what the order is

  /** All defines, from left to right. */
  function Flat(cs: seq<Clause>): seq<Define> { if cs == [] then [] else cs[0] + Flat(cs[1..]) }

  /** A name that is listed before comes first, and of one name the define that is not inverted. */
  predicate Smaller(names: seq<string>, d: Define, e: Define)
    requires d.name in names && e.name in names
  {
    IndexOf(names, d.name) < IndexOf(names, e.name) || (d.name == e.name && !d.inverted && e.inverted)
  }

  /** The first clause of another length is the shorter one. */
  predicate ShorterClauses(cs: seq<Clause>, ds: seq<Clause>)
    requires |cs| == |ds|
  {
    exists k :: 0 <= k < |cs| && |cs[k]| < |ds[k]| && forall j :: 0 <= j < k ==> |cs[j]| == |ds[j]|
  }

  predicate SameLengths(cs: seq<Clause>, ds: seq<Clause>) {
    |cs| == |ds| && forall k :: 0 <= k < |cs| ==> |cs[k]| == |ds[k]|
  }

  /** The first define that differs is the smaller one. */
  predicate SmallerDefines(names: seq<string>, xs: seq<Define>, ys: seq<Define>)
    requires |xs| == |ys| && (forall d <- xs :: d.name in names) && (forall e <- ys :: e.name in names)
  {
    exists k :: 0 <= k < |xs| && xs[..k] == ys[..k] && Smaller(names, xs[k], ys[k])
  }

  /** Conditions come in the order of the number of their clauses, then of the lengths of the clauses, then
      of the defines from left to right. */
  lemma OrderMeans(names: seq<string>, cs: seq<Clause>, ds: seq<Clause>)
    requires ClausesOk(names, cs) && ClausesOk(names, ds)
    ensures FlatOk(names, cs) && FlatOk(names, ds)
    ensures SameLengths(cs, ds) ==> |Flat(cs)| == |Flat(ds)|
    ensures Before(SplitDef(names, cs), SplitDef(names, ds)) <==>
      || |cs| < |ds|
      || (|cs| == |ds| && ShorterClauses(cs, ds))
      || (SameLengths(cs, ds) && SmallerDefines(names, Flat(cs), Flat(ds)))
  {
    hide Before, ShorterClauses, SmallerDefines, ClausesOk;
    FlatKept(names, cs);
    FlatKept(names, ds);
    var a, b := AllValues(names, cs), AllValues(names, ds);
    assert SplitDef(names, cs) == [|cs|] + (Lengths(cs) + a) && SplitDef(names, ds) == [|ds|] + (Lengths(ds) + b);
    BeforeStep(|cs|, Lengths(cs) + a, |ds|, Lengths(ds) + b);
    if |cs| == |ds| {
      BeforeSum(Lengths(cs), a, Lengths(ds), b);
      BeforeFirst(Lengths(cs), Lengths(ds));
      LengthsMean(cs, ds);
      if SameLengths(cs, ds) {
        SameFlat(cs, ds);
        BeforeFirst(a, b);
        ValuesMean(names, Flat(cs), Flat(ds), a, b);
      }
    }
  }

  predicate FlatOk(names: seq<string>, cs: seq<Clause>) { forall d <- Flat(cs) :: d.name in names }

  lemma {:induction false} FlatKept(names: seq<string>, cs: seq<Clause>)
    requires ClausesOk(names, cs)
    ensures FlatOk(names, cs) && |AllValues(names, cs)| == |Flat(cs)|
    ensures forall i :: 0 <= i < |Flat(cs)| ==> AllValues(names, cs)[i] == DefineValue(names, Flat(cs)[i])
    decreases |cs|
  {
    hide DefineValue;
    if cs != [] {
      FlatKept(names, cs[1..]);
      var r := Flat(cs[1..]);
      assert cs[0] in cs;
      assert forall d <- cs[0] :: d.name in names;
      assert forall d <- r :: d.name in names;
    }
  }

  lemma {:induction false} SameFlat(cs: seq<Clause>, ds: seq<Clause>)
    requires SameLengths(cs, ds)
    ensures |Flat(cs)| == |Flat(ds)|
    decreases |cs|
  {
    if cs != [] { SameFlat(cs[1..], ds[1..]); }
  }

  lemma BeforeStep(x: int, a: seq<int>, y: int, b: seq<int>)
    ensures Before([x] + a, [y] + b) <==> x < y || (x == y && Before(a, b))
  {
    assert ([x] + a)[1..] == a && ([y] + b)[1..] == b;
  }

  lemma {:induction false} BeforeSum(a: seq<int>, x: seq<int>, b: seq<int>, y: seq<int>)
    requires |a| == |b|
    ensures Before(a + x, b + y) <==> Before(a, b) || (a == b && Before(x, y))
    decreases |a|
  {
    if a == [] {
      assert a + x == x && b + y == y;
    } else {
      assert a + x == [a[0]] + (a[1..] + x) && b + y == [b[0]] + (b[1..] + y);
      BeforeStep(a[0], a[1..] + x, b[0], b[1..] + y);
      BeforeSum(a[1..], x, b[1..], y);
      assert a == [a[0]] + a[1..] && b == [b[0]] + b[1..];
    }
  }

  /** Of two lists as long as each other the one that is smaller at the first difference comes first. */
  predicate SmallerAtFirst(a: seq<int>, b: seq<int>)
    requires |a| == |b|
  {
    exists k :: 0 <= k < |a| && a[..k] == b[..k] && a[k] < b[k]
  }

  lemma {:induction false} BeforeFirst(a: seq<int>, b: seq<int>)
    requires |a| == |b|
    ensures Before(a, b) <==> SmallerAtFirst(a, b)
    decreases |a|
  {
    if a != [] {
      BeforeFirst(a[1..], b[1..]);
      if SmallerAtFirst(a, b) {
        var k :| 0 <= k < |a| && a[..k] == b[..k] && a[k] < b[k];
        if k > 0 {
          assert a[0] == a[..k][0] == b[..k][0] == b[0];
          assert a[1..][..k - 1] == a[..k][1..] && b[1..][..k - 1] == b[..k][1..];
        }
      }
      if a[0] < b[0] {
        assert a[..0] == b[..0];
      } else if a[0] == b[0] && SmallerAtFirst(a[1..], b[1..]) {
        var k :| 0 <= k < |a| - 1 && a[1..][..k] == b[1..][..k] && a[1..][k] < b[1..][k];
        assert a[..k + 1] == [a[0]] + a[1..][..k] && b[..k + 1] == [b[0]] + b[1..][..k];
      }
    }
  }

  lemma LengthsMean(cs: seq<Clause>, ds: seq<Clause>)
    requires |cs| == |ds|
    ensures SmallerAtFirst(Lengths(cs), Lengths(ds)) <==> ShorterClauses(cs, ds)
    ensures Lengths(cs) == Lengths(ds) <==> SameLengths(cs, ds)
  {
    var a, b := Lengths(cs), Lengths(ds);
    if SmallerAtFirst(a, b) {
      var k :| 0 <= k < |a| && a[..k] == b[..k] && a[k] < b[k];
      forall j | 0 <= j < k ensures |cs[j]| == |ds[j]| { assert a[..k][j] == b[..k][j]; }
    }
    if ShorterClauses(cs, ds) {
      var k :| 0 <= k < |cs| && |cs[k]| < |ds[k]| && forall j :: 0 <= j < k ==> |cs[j]| == |ds[j]|;
      assert a[..k] == b[..k];
    }
    if a == b {
      forall k | 0 <= k < |cs| ensures |cs[k]| == |ds[k]| { assert a[k] == b[k]; }
    }
  }

  lemma ValuesMean(names: seq<string>, xs: seq<Define>, ys: seq<Define>, a: seq<int>, b: seq<int>)
    requires |xs| == |ys| == |a| == |b| && (forall d <- xs :: d.name in names) && (forall e <- ys :: e.name in names)
    requires forall i :: 0 <= i < |xs| ==> a[i] == DefineValue(names, xs[i]) && b[i] == DefineValue(names, ys[i])
    ensures SmallerAtFirst(a, b) <==> SmallerDefines(names, xs, ys)
  {
    if SmallerAtFirst(a, b) {
      var k :| 0 <= k < |a| && a[..k] == b[..k] && a[k] < b[k];
      forall j | 0 <= j < k ensures xs[j] == ys[j] {
        assert a[..k][j] == b[..k][j];
        ValueMeans(names, xs[j], ys[j]);
      }
      ValueMeans(names, xs[k], ys[k]);
      assert xs[..k] == ys[..k];
    }
    if SmallerDefines(names, xs, ys) {
      var k :| 0 <= k < |xs| && xs[..k] == ys[..k] && Smaller(names, xs[k], ys[k]);
      forall j | 0 <= j < k ensures a[j] == b[j] { assert xs[..k][j] == ys[..k][j]; }
      ValueMeans(names, xs[k], ys[k]);
      assert a[..k] == b[..k];
    }
  }

  lemma ValueMeans(names: seq<string>, d: Define, e: Define)
    requires d.name in names && e.name in names
    ensures DefineValue(names, d) < DefineValue(names, e) <==> Smaller(names, d, e)
    ensures DefineValue(names, d) == DefineValue(names, e) <==> d == e
  {}

  /** A condition as it is printed: an inverted define has a mark before it, and clauses get brackets as
      soon as there is more than one. */
  lemma PrintedText(x: Define, y: Define, z: Define)
    ensures !x.inverted ==> PrintDefine(x.(inverted := true)) == "!" + PrintDefine(x)
    ensures Print([[x, y], [z]]) == "(" + (PrintDefine(x) + " && " + PrintDefine(y) + ") || (" + PrintDefine(z)) + ")"
    ensures Print([[x]]) == PrintDefine(x) && Print([]) == "()" && Print([[]]) == ""
  {
    assert !x.inverted ==> PrintDefine(x.(inverted := true)) == "!" + PrintDefine(x);
    hide Join, PrintDefine;
    JoinFew(PrintDefine(x), PrintDefine(y), " && ");
    JoinFew(PrintDefine(z), "", " && ");
    JoinFew(PrintDefine(x) + " && " + PrintDefine(y), PrintDefine(z), ") || (");
    assert PrintAll([x, y]) == [PrintDefine(x), PrintDefine(y)] && PrintAll([z]) == [PrintDefine(z)] && PrintAll([]) == [];
    assert PrintAll([x]) == [PrintDefine(x)];
    assert PrintEach([[x, y], [z]]) == [PrintClause([x, y]), PrintClause([z])] && PrintEach([]) == [];
  }

  lemma JoinFew(a: string, b: string, sep: string)
    ensures Join([], sep) == "" && Join([a], sep) == a && Join([a, b], sep) == a + sep + b
  {
    assert [a, b][1..] == [b];
  }
}
