/** The list of mapped address ranges, and the set of addresses that it stands for. */
module MapSpec {

  const PAGE: nat := 0x1000
  const LOWEST: nat := 0x10000

  /** From `begin` to `end`, both included. */
  datatype Zone = Zone(begin: nat, end: nat)

  /** Whole pages, and at least one. */
  predicate Pages(z: Zone) { z.begin % PAGE == 0 && z.end % PAGE == PAGE - 1 && z.begin <= z.end }

  predicate Sorted(zs: seq<Zone>) {
    forall i :: 0 < i < |zs| ==> zs[i - 1].end + 1 < zs[i].begin
  }

  /** Sorted, apart, nothing left to merge. */
  predicate Tidy(zs: seq<Zone>) {
    Sorted(zs) && forall i :: 0 <= i < |zs| ==> Pages(zs[i])
  }

  predicate Canonical(zs: seq<Zone>) { |zs| > 0 && zs[0].begin == 0 && Tidy(zs) }

  /** The set of addresses. */
  ghost predicate In(zs: seq<Zone>, a: nat) { exists i :: 0 <= i < |zs| && Within(zs[i], a) }

  predicate Within(z: Zone, a: nat) { z.begin <= a <= z.end }

  /** What a request is rounded to; none is left of one below the lowest address that counts. */
  function Sane(begin: nat, end: nat): Zone {
    var b := begin - begin % PAGE;
    Zone(if b == 0 then LOWEST else b, end - end % PAGE + PAGE - 1)
  }

  predicate Counts(begin: nat, end: nat) { end - end % PAGE + PAGE - 1 >= LOWEST }

  lemma SanePages(begin: nat, end: nat)
    requires begin <= end && Counts(begin, end)
    ensures Pages(Sane(begin, end)) && Sane(begin, end).begin > 0
  {}

  // ---- adding

  function Max(a: nat, b: nat): nat { if a > b then a else b }

  /** The last zone, after the first, that starts before `begin`, or the first. */
  function Attach(zs: seq<Zone>, begin: nat, i: nat): (r: nat)
    requires i < |zs|
    ensures i <= r < |zs|
    ensures forall k :: i < k <= r ==> begin > zs[k].begin
    ensures r + 1 < |zs| ==> begin <= zs[r + 1].begin
    decreases |zs| - i
  {
    if i + 1 < |zs| && begin > zs[i + 1].begin then Attach(zs, begin, i + 1) else i
  }

  /** `x` swallows the zones after it that it reaches. */
  function Fuse(x: Zone, rest: seq<Zone>): seq<Zone>
    decreases |rest|
  {
    if rest != [] && rest[0].begin - 1 <= x.end then Fuse(x.(end := Max(x.end, rest[0].end)), rest[1..]) else [x] + rest
  }

  function Add(zs: seq<Zone>, x: Zone): seq<Zone>
    requires |zs| > 0
  {
    var i := Attach(zs, x.begin, 0);
    if zs[i].end >= x.begin - 1 then
      if x.end <= zs[i].end then zs else zs[..i] + Fuse(zs[i].(end := x.end), zs[i + 1..])
    else zs[..i + 1] + Fuse(x, zs[i + 1..])
  }

  // ---- removing

  function Remove(zs: seq<Zone>, x: Zone): seq<Zone>
    requires x.begin > 0
  {
    if zs == [] || zs[0].begin > x.end then zs
    else
      var m := zs[0];
      if m.begin >= x.begin && m.end <= x.end then Remove(zs[1..], x)
      else if x.begin > m.begin && x.end < m.end then [Zone(m.begin, x.begin - 1), Zone(x.end + 1, m.end)] + zs[1..]
      else if x.begin > m.begin && x.begin < m.end then [m.(end := x.begin - 1)] + Remove(zs[1..], x)
      else if x.end > m.begin && x.end < m.end then [m.(begin := x.end + 1)] + Remove(zs[1..], x)
      else [m] + Remove(zs[1..], x)
  }

  // ---- what they do to the set

  lemma InSplit(a: seq<Zone>, b: seq<Zone>, x: nat)
    ensures In(a + b, x) <==> In(a, x) || In(b, x)
  {
    hide Within;
    if In(a, x) { var i :| 0 <= i < |a| && Within(a[i], x); assert Within((a + b)[i], x); }
    if In(b, x) { var i :| 0 <= i < |b| && Within(b[i], x); assert Within((a + b)[|a| + i], x); }
  }

  lemma InOne(z: Zone, x: nat)
    ensures In([z], x) <==> Within(z, x)
  {
    if Within(z, x) { assert Within([z][0], x); }
  }

  lemma InFirst(zs: seq<Zone>, x: nat)
    requires zs != []
    ensures In(zs, x) <==> Within(zs[0], x) || In(zs[1..], x)
  {
    assert zs == [zs[0]] + zs[1..];
    InSplit([zs[0]], zs[1..], x);
    InOne(zs[0], x);
  }

  /** Everything in a tidy list after its first zone lies beyond it. */
  lemma {:induction false} Beyond(zs: seq<Zone>, i: nat)
    requires Tidy(zs) && 0 < i < |zs|
    ensures zs[0].end + 1 < zs[i].begin
  {
    assert Pages(zs[i - 1]) && Pages(zs[i]);
    if i > 1 { Beyond(zs, i - 1); }
  }

  lemma TidyTail(zs: seq<Zone>, i: nat)
    requires Tidy(zs) && i <= |zs|
    ensures Tidy(zs[i..]) && Tidy(zs[..i])
  {
    assert forall k :: 0 <= k < |zs[i..]| ==> zs[i..][k] == zs[i + k];
  }

  lemma TidyJoin(a: seq<Zone>, b: seq<Zone>)
    requires Tidy(a) && Tidy(b) && (a != [] && b != [] ==> a[|a| - 1].end + 1 < b[0].begin)
    ensures Tidy(a + b)
  {
    var c := a + b;
    assert forall k :: 0 <= k < |c| ==> c[k] == if k < |a| then a[k] else b[k - |a|];
  }

  lemma {:induction false} FuseGood(x: Zone, rest: seq<Zone>)
    requires Pages(x) && Tidy(rest) && (rest != [] ==> x.begin <= rest[0].begin)
    ensures Tidy(Fuse(x, rest)) && Fuse(x, rest) != [] && Fuse(x, rest)[0].begin == x.begin
    ensures forall a :: In(Fuse(x, rest), a) <==> Within(x, a) || In(rest, a)
    decreases |rest|
  {
    hide Pages;
    if rest != [] && rest[0].begin - 1 <= x.end {
      TidyTail(rest, 1);
      FusedPages(x, rest[0]);
      if |rest| > 1 { assert Pages(rest[0]) && Pages(rest[1]); PagesOrder(rest[0]); }
      FuseGood(x.(end := Max(x.end, rest[0].end)), rest[1..]);
      forall a: nat ensures In(Fuse(x, rest), a) <==> Within(x, a) || In(rest, a) { InFirst(rest, a); }
    } else {
      TidyJoin([x], rest);
      forall a: nat ensures In([x] + rest, a) <==> Within(x, a) || In(rest, a) { InSplit([x], rest, a); InOne(x, a); }
    }
  }

  lemma PagesOrder(z: Zone)
    requires Pages(z)
    ensures z.begin <= z.end
  {}

  lemma FusedPages(x: Zone, y: Zone)
    requires Pages(x) && Pages(y) && x.begin <= y.begin && y.begin - 1 <= x.end
    ensures Pages(x.(end := Max(x.end, y.end)))
    ensures forall a :: Within(x.(end := Max(x.end, y.end)), a) <==> Within(x, a) || Within(y, a)
  {}

  lemma InSet(zs: seq<Zone>, i: nat, v: Zone, a: nat)
    requires i < |zs|
    ensures In(zs, a) <==> In(zs[..i], a) || Within(zs[i], a) || In(zs[i + 1..], a)
  {
    hide Within;
    assert zs == zs[..i] + ([zs[i]] + zs[i + 1..]);
    InSplit(zs[..i], [zs[i]] + zs[i + 1..], a);
    InSplit([zs[i]], zs[i + 1..], a);
    InOne(zs[i], a);
  }

  /** Adding keeps the list canonical, and its set becomes the union. */
  lemma AddGood(zs: seq<Zone>, x: Zone)
    requires Canonical(zs) && Pages(x) && x.begin > 0
    ensures Canonical(Add(zs, x))
    ensures forall a :: In(Add(zs, x), a) <==> In(zs, a) || Within(x, a)
  {
    hide Fuse, In, Tidy, Within;
    var i := Attach(zs, x.begin, 0);
    if zs[i].end >= x.begin - 1 {
      AddWidens(zs, x, i);
    } else {
      AddInserts(zs, x, i);
    }
  }

  lemma AddInserts(zs: seq<Zone>, x: Zone, i: nat)
    requires Canonical(zs) && Pages(x) && x.begin > 0 && i < |zs| && zs[i].end < x.begin - 1
    requires i + 1 < |zs| ==> x.begin <= zs[i + 1].begin
    ensures Canonical(zs[..i + 1] + Fuse(x, zs[i + 1..]))
    ensures forall a :: In(zs[..i + 1] + Fuse(x, zs[i + 1..]), a) <==> In(zs, a) || Within(x, a)
  {
    hide Fuse, In, Within, Pages;
    TidyTail(zs, i + 1);
    FuseGood(x, zs[i + 1..]);
    TidyJoin(zs[..i + 1], Fuse(x, zs[i + 1..]));
    forall a: nat ensures In(zs[..i + 1] + Fuse(x, zs[i + 1..]), a) <==> In(zs, a) || Within(x, a) {
      InSplit(zs[..i + 1], Fuse(x, zs[i + 1..]), a);
      assert zs == zs[..i + 1] + zs[i + 1..];
      InSplit(zs[..i + 1], zs[i + 1..], a);
    }
  }

  lemma AddWidens(zs: seq<Zone>, x: Zone, i: nat)
    requires Canonical(zs) && Pages(x) && x.begin > 0 && i < |zs| && zs[i].end >= x.begin - 1
    requires x.begin >= zs[i].begin
    ensures var us := if x.end <= zs[i].end then zs else zs[..i] + Fuse(zs[i].(end := x.end), zs[i + 1..]);
      && Canonical(us) && forall a :: In(us, a) <==> In(zs, a) || Within(x, a)
  {
    hide Fuse, In, Within, Sorted, Pages;
    assert Pages(zs[i]);
    Widened(zs[i], x);
    if x.end <= zs[i].end {
      forall a: nat ensures In(zs, a) <==> In(zs, a) || Within(x, a) { InSet(zs, i, x, a); }
    } else {
      var y := zs[i].(end := x.end);
      TidyTail(zs, i);
      TidyTail(zs, i + 1);
      AfterIt(zs, i);
      FuseGood(y, zs[i + 1..]);
      TidyJoin(zs[..i], Fuse(y, zs[i + 1..]));
      forall a: nat ensures In(zs[..i] + Fuse(y, zs[i + 1..]), a) <==> In(zs, a) || Within(x, a) {
        InSplit(zs[..i], Fuse(y, zs[i + 1..]), a);
        InSet(zs, i, x, a);
      }
    }
  }

  lemma AfterIt(zs: seq<Zone>, i: nat)
    requires Tidy(zs) && i < |zs|
    ensures i + 1 < |zs| ==> zs[i].begin <= zs[i + 1].begin
    ensures i > 0 ==> zs[i - 1].end + 1 < zs[i].begin
  {
    assert Pages(zs[i]);
  }

  lemma Widened(z: Zone, x: Zone)
    requires Pages(z) && Pages(x) && z.begin <= x.begin <= z.end + 1
    ensures x.end > z.end ==> Pages(z.(end := x.end))
    ensures forall a :: Within(if x.end > z.end then z.(end := x.end) else z, a) <==> Within(z, a) || Within(x, a)
  {}

  /** Removing keeps a tidy list tidy, and its set loses exactly the zone. */
  lemma {:induction false} RemoveGood(zs: seq<Zone>, x: Zone)
    requires Tidy(zs) && Pages(x) && x.begin > 0
    ensures Tidy(Remove(zs, x))
    ensures Remove(zs, x) != [] ==> zs != [] && zs[0].begin <= Remove(zs, x)[0].begin
    ensures forall a :: In(Remove(zs, x), a) <==> In(zs, a) && !Within(x, a)
  {
    hide Sorted, In, Within, Pages;
    if zs == [] {
      forall a: nat ensures !In([], a) { InNone(a); }
    } else if zs[0].begin > x.end {
      forall a: nat | In(zs, a) ensures !Within(x, a) { AllBeyond(zs, x.end, a); InX(x, a); }
    } else {
      TidyTail(zs, 1);
      RemoveGood(zs[1..], x);
      RemoveFirst(zs, x, Remove(zs[1..], x));
    }
  }

  lemma InNone(a: nat)
    ensures !In([], a)
  {}

  lemma InX(x: Zone, a: nat)
    ensures Within(x, a) ==> a <= x.end
  {}

  lemma AllBeyond(zs: seq<Zone>, e: nat, a: nat)
    requires Tidy(zs) && zs != [] && zs[0].begin > e && In(zs, a)
    ensures a > e
  {
    var i :| 0 <= i < |zs| && Within(zs[i], a);
    assert Pages(zs[0]);
    if i > 0 { Beyond(zs, i); }
  }

  /** What removing leaves of one zone. */
  function Rest(m: Zone, x: Zone): seq<Zone>
    requires x.begin > 0
  {
    if m.begin >= x.begin && m.end <= x.end then []
    else if x.begin > m.begin && x.end < m.end then [Zone(m.begin, x.begin - 1), Zone(x.end + 1, m.end)]
    else if x.begin > m.begin && x.begin < m.end then [m.(end := x.begin - 1)]
    else if x.end > m.begin && x.end < m.end then [m.(begin := x.end + 1)]
    else [m]
  }

  lemma RestGood(m: Zone, x: Zone)
    requires Pages(m) && Pages(x) && x.begin > 0
    ensures var r := Rest(m, x);
      && Tidy(r) && (r != [] ==> m.begin <= r[0].begin && r[|r| - 1].end <= m.end)
      && forall a :: In(r, a) <==> Within(m, a) && !Within(x, a)
  {
    hide In;
    var r := Rest(m, x);
    forall a: nat ensures In(r, a) <==> Within(m, a) && !Within(x, a) {
      if r == [] {
        InNone(a);
      } else if |r| == 1 {
        InOne(r[0], a);
        assert r == [r[0]];
      } else {
        assert r == [r[0]] + [r[1]];
        InSplit([r[0]], [r[1]], a);
        InOne(r[0], a);
        InOne(r[1], a);
      }
    }
  }

  lemma RestThenRest(zs: seq<Zone>, x: Zone)
    requires Tidy(zs) && zs != [] && zs[0].begin <= x.end && x.begin > 0
    ensures Remove(zs, x) == Rest(zs[0], x) + Remove(zs[1..], x)
  {}

  lemma RemoveFirst(zs: seq<Zone>, x: Zone, rest: seq<Zone>)
    requires Tidy(zs) && Pages(x) && x.begin > 0 && zs != [] && zs[0].begin <= x.end && rest == Remove(zs[1..], x)
    requires Tidy(rest) && (rest != [] ==> zs[1..] != [] && zs[1].begin <= rest[0].begin)
    requires forall a :: In(rest, a) <==> In(zs[1..], a) && !Within(x, a)
    ensures Tidy(Remove(zs, x))
    ensures Remove(zs, x) != [] ==> zs[0].begin <= Remove(zs, x)[0].begin
    ensures forall a :: In(Remove(zs, x), a) <==> In(zs, a) && !Within(x, a)
  {
    hide In, Within, Rest, Sorted, Remove;
    var head := Rest(zs[0], x);
    RestThenRest(zs, x);
    assert Pages(zs[0]);
    RestGood(zs[0], x);
    if |zs| > 1 { Beyond(zs, 1); }
    TidyJoin(head, rest);
    forall a: nat ensures In(head + rest, a) <==> In(zs, a) && !Within(x, a) {
      InSplit(head, rest, a);
      InFirst(zs, a);
    }
  }

  lemma RemoveKeepsFirst(zs: seq<Zone>, x: Zone)
    requires Canonical(zs) && Pages(x) && x.begin > 0
    ensures Canonical(Remove(zs, x))
  {
    RemoveGood(zs, x);
  }

  // ---- requests, and runs of them

  function AddRange(zs: seq<Zone>, begin: nat, end: nat): seq<Zone>
    requires |zs| > 0
  {
    if Counts(begin, end) then Add(zs, Sane(begin, end)) else zs
  }

  function RemoveRange(zs: seq<Zone>, begin: nat, end: nat): seq<Zone> {
    if Counts(begin, end) then Remove(zs, Sane(begin, end)) else zs
  }

  datatype Request = Map(begin: nat, end: nat) | Unmap(begin: nat, end: nat)

  function Serve(zs: seq<Zone>, r: Request): seq<Zone>
    requires |zs| > 0
  {
    match r
    case Map(b, e) => AddRange(zs, b, e)
    case Unmap(b, e) => RemoveRange(zs, b, e)
  }

  /** The address `a` is mapped after the requests: the last one about its page says. */
  predicate Mapped(rs: seq<Request>, a: nat) {
    if rs == [] then a < LOWEST
    else
      var r := rs[|rs| - 1];
      if Counts(r.begin, r.end) && Within(Sane(r.begin, r.end), a) then r.Map? else Mapped(rs[..|rs| - 1], a)
  }

  const START := [Zone(0, LOWEST - 1)]

  function ServeAll(rs: seq<Request>): seq<Zone>
    requires forall i :: 0 <= i < |rs| ==> rs[i].begin <= rs[i].end
    ensures Canonical(ServeAll(rs))
    decreases |rs|
  {
    if rs == [] then START
    else
      var zs := ServeAll(rs[..|rs| - 1]);
      ServeGood(zs, rs[|rs| - 1]);
      Serve(zs, rs[|rs| - 1])
  }

  lemma ServeGood(zs: seq<Zone>, r: Request)
    requires Canonical(zs) && r.begin <= r.end
    ensures Canonical(Serve(zs, r))
    ensures forall a ::
      In(Serve(zs, r), a) <==> if Counts(r.begin, r.end) && Within(Sane(r.begin, r.end), a) then r.Map? else In(zs, a)
  {
    hide In, Within, Add, Remove, Tidy, Sane, Counts;
    if Counts(r.begin, r.end) {
      var x := Sane(r.begin, r.end);
      SanePages(r.begin, r.end);
      if r.Map? {
        AddGood(zs, x);
      } else {
        RemoveKeepsFirst(zs, x);
        RemoveGood(zs, x);
      }
    }
  }

  /** After any run the list is canonical, and says exactly what the requests said last. */
  lemma {:induction false} RunsDenote(rs: seq<Request>)
    requires forall i :: 0 <= i < |rs| ==> rs[i].begin <= rs[i].end
    ensures Canonical(ServeAll(rs))
    ensures forall a :: In(ServeAll(rs), a) <==> Mapped(rs, a)
    decreases |rs|
  {
    hide In, Canonical, Serve, Within, Sane, Counts;
    if rs == [] {
      forall a: nat ensures In(START, a) <==> a < LOWEST { InStart(a); }
    } else {
      RunsDenote(rs[..|rs| - 1]);
      ServeGood(ServeAll(rs[..|rs| - 1]), rs[|rs| - 1]);
    }
  }

  lemma InStart(a: nat)
    ensures In(START, a) <==> a < LOWEST
  {
    InOne(START[0], a);
  }

  lemma FirstIsLeast(zs: seq<Zone>, a: nat)
    requires Tidy(zs) && In(zs, a)
    ensures zs != [] && zs[0].begin <= a && (a <= zs[0].end || a > zs[0].end + 1)
    ensures In(zs[1..], a) <==> a > zs[0].end
  {
    var i :| 0 <= i < |zs| && Within(zs[i], a);
    assert Pages(zs[0]);
    if i > 0 {
      Beyond(zs, i);
      assert Within(zs[1..][i - 1], a);
    } else if In(zs[1..], a) {
      var j :| 0 <= j < |zs[1..]| && Within(zs[1..][j], a);
      Beyond(zs, j + 1);
    }
  }

  lemma FirstIn(zs: seq<Zone>)
    requires Tidy(zs) && zs != []
    ensures In(zs, zs[0].begin) && In(zs, zs[0].end) && !In(zs, zs[0].end + 1)
  {
    assert Pages(zs[0]);
    assert Within(zs[0], zs[0].begin) && Within(zs[0], zs[0].end);
    if In(zs, zs[0].end + 1) { FirstIsLeast(zs, zs[0].end + 1); }
  }

  /** A tidy list is determined by its set: there is one for each. */
  lemma {:induction false} TidyUnique(zs: seq<Zone>, ys: seq<Zone>)
    requires Tidy(zs) && Tidy(ys) && forall a :: In(zs, a) <==> In(ys, a)
    ensures zs == ys
    decreases |zs|
  {
    hide In, Sorted;
    if zs == [] {
      if ys != [] { FirstIn(ys); InNone(ys[0].begin); }
    } else {
      FirstIn(zs);
      FirstIsLeast(ys, zs[0].begin);
      FirstIn(ys);
      FirstIsLeast(zs, ys[0].begin);
      SameEnd(zs, ys);
      TidyTail(zs, 1);
      TidyTail(ys, 1);
      forall a: nat ensures In(zs[1..], a) <==> In(ys[1..], a) {
        InFirst(zs, a);
        InFirst(ys, a);
        if In(zs, a) {
          FirstIsLeast(zs, a);
          FirstIsLeast(ys, a);
        }
      }
      TidyUnique(zs[1..], ys[1..]);
    }
  }

  lemma SameEnd(zs: seq<Zone>, ys: seq<Zone>)
    requires Tidy(zs) && Tidy(ys) && zs != [] && ys != [] && zs[0].begin == ys[0].begin
    requires In(zs, ys[0].end) && !In(zs, ys[0].end + 1) && In(ys, zs[0].end) && !In(ys, zs[0].end + 1)
    ensures zs[0].end == ys[0].end
  {
    assert Pages(zs[0]) && Pages(ys[0]);
  }

  /** A request of no bytes at the start of a page, and not among the lowest. */
  predicate NoBytes(begin: nat, end: nat) { begin == end + 1 && begin % PAGE == 0 && Counts(begin, end) }

  predicate TakesIn(zs: seq<Zone>, a: nat) { exists i :: 0 <= i < |zs| && zs[i].begin <= a <= zs[i].end + 1 }

  predicate CutsInside(zs: seq<Zone>, a: nat) { exists i :: 0 <= i < |zs| && zs[i].begin < a <= zs[i].end }

  lemma NoBytesSane(begin: nat, end: nat)
    requires begin <= end + 1 && Counts(begin, end)
    ensures var x := Sane(begin, end);
      && x.begin > 0
      && (if NoBytes(begin, end) then x.begin == begin == x.end + 1 && x.begin % PAGE == 0 else Pages(x))
  {}

  /** What a request for a size of zero or more leaves is canonical exactly as these say. */
  lemma AddRangeIff(zs: seq<Zone>, begin: nat, end: nat)
    requires Canonical(zs) && begin <= end + 1
    ensures Canonical(AddRange(zs, begin, end)) <==> (NoBytes(begin, end) ==> TakesIn(zs, begin))
  {
    hide Canonical, Add, TakesIn, Pages, Sane, Counts;
    if Counts(begin, end) {
      NoBytesSane(begin, end);
      if NoBytes(begin, end) { EmptyAddIff(zs, Sane(begin, end)); } else { AddGood(zs, Sane(begin, end)); }
    } else {
      assert !NoBytes(begin, end);
    }
  }

  lemma RemoveRangeIff(zs: seq<Zone>, begin: nat, end: nat)
    requires Canonical(zs) && begin <= end + 1
    ensures Canonical(RemoveRange(zs, begin, end)) <==> (NoBytes(begin, end) ==> !CutsInside(zs, begin))
  {
    hide Canonical, Remove, CutsInside, Pages, Sane, Counts;
    if Counts(begin, end) {
      NoBytesSane(begin, end);
      if NoBytes(begin, end) { EmptyRemoveIff(zs, Sane(begin, end)); } else { RemoveKeepsFirst(zs, Sane(begin, end)); }
    } else {
      assert !NoBytes(begin, end);
    }
  }

  /** Removing no bytes changes nothing, unless the place is inside a zone: then it is cut in two zones
      that touch. */
  lemma {:induction false} EmptyRemove(zs: seq<Zone>, x: Zone)
    requires Tidy(zs) && x.begin > 0 && x.end == x.begin - 1
    ensures !CutsInside(zs, x.begin) ==> Remove(zs, x) == zs
    ensures CutsInside(zs, x.begin) ==> !Sorted(Remove(zs, x))
    decreases |zs|
  {
    hide CutsInside, Sorted;
    if zs == [] || zs[0].begin > x.end {
      NoCutBefore(zs, x.begin);
    } else {
      assert Pages(zs[0]);
      TidyTail(zs, 1);
      EmptyRemove(zs[1..], x);
      CutsFirst(zs, x.begin);
      if zs[0].begin < x.begin <= zs[0].end {
        TouchingFirst(Remove(zs, x));
      } else {
        assert Remove(zs, x) == [zs[0]] + Remove(zs[1..], x);
        if CutsInside(zs[1..], x.begin) { NotSortedTail(zs[0], Remove(zs[1..], x)); }
      }
    }
  }

  lemma NoCutBefore(zs: seq<Zone>, a: nat)
    requires Tidy(zs) && (zs != [] ==> zs[0].begin >= a)
    ensures !CutsInside(zs, a)
  {
    if i :| 0 <= i < |zs| && zs[i].begin < a <= zs[i].end {
      assert Pages(zs[0]);
      if i > 0 { Beyond(zs, i); }
    }
  }

  lemma TouchingFirst(zs: seq<Zone>)
    requires |zs| > 1 && zs[0].end + 1 == zs[1].begin
    ensures !Sorted(zs)
  {}

  lemma CutsFirst(zs: seq<Zone>, a: nat)
    requires zs != []
    ensures CutsInside(zs, a) <==> zs[0].begin < a <= zs[0].end || CutsInside(zs[1..], a)
  {
    if i :| 0 <= i < |zs[1..]| && zs[1..][i].begin < a <= zs[1..][i].end { assert zs[i + 1] == zs[1..][i]; }
    if i :| 0 < i < |zs| && zs[i].begin < a <= zs[i].end { assert zs[i] == zs[1..][i - 1]; }
  }

  lemma NotSortedTail(z: Zone, rest: seq<Zone>)
    requires !Sorted(rest)
    ensures !Sorted([z] + rest)
  {
    var i :| 0 < i < |rest| && !(rest[i - 1].end + 1 < rest[i].begin);
    assert ([z] + rest)[i + 1] == rest[i] && ([z] + rest)[i] == rest[i - 1];
  }

  lemma EmptyRemoveIff(zs: seq<Zone>, x: Zone)
    requires Canonical(zs) && x.begin > 0 && x.end == x.begin - 1
    ensures Canonical(Remove(zs, x)) <==> !CutsInside(zs, x.begin)
  {
    hide CutsInside, Remove, Sorted, Pages;
    EmptyRemove(zs, x);
  }

  /** A request of no bytes has an end below its begin. Adding one keeps the list canonical exactly when
      a zone is there to take it in; otherwise an empty zone appears. */
  lemma EmptyAddIff(zs: seq<Zone>, x: Zone)
    requires Canonical(zs) && x.begin > 0 && x.begin % PAGE == 0 && x.end == x.begin - 1
    ensures Canonical(Add(zs, x)) <==> TakesIn(zs, x.begin)
  {
    hide Sorted;
    var i := Attach(zs, x.begin, 0);
    var rest := zs[i + 1..];
    if zs[i].end >= x.begin - 1 {
      assert zs[i].begin <= x.begin <= zs[i].end + 1;
    } else if rest != [] && rest[0].begin == x.begin {
      EmptyFuses(zs, x, i);
    } else {
      assert Add(zs, x)[i + 1] == x && !Pages(x);
      NoZoneTakes(zs, x, i);
    }
  }

  lemma EmptyFuses(zs: seq<Zone>, x: Zone, i: nat)
    requires Canonical(zs) && i + 1 < |zs| && zs[i + 1].begin == x.begin && x.end == x.begin - 1
    ensures zs[..i + 1] + Fuse(x, zs[i + 1..]) == zs
    ensures Pages(zs[i + 1]) && zs[i + 1].begin <= x.begin <= zs[i + 1].end + 1
  {
    var rest := zs[i + 1..];
    assert Pages(rest[0]) by { assert rest[0] == zs[i + 1]; }
    assert x.(end := Max(x.end, rest[0].end)) == rest[0];
    if |rest| > 1 { assert rest[0].end + 1 < rest[1].begin by { assert zs[i + 1].end + 1 < zs[i + 2].begin; } }
    assert Fuse(rest[0], rest[1..]) == [rest[0]] + rest[1..];
  }

  lemma NoZoneTakes(zs: seq<Zone>, x: Zone, i: nat)
    requires Canonical(zs) && i < |zs| && zs[i].end < x.begin - 1 && (i + 1 < |zs| ==> x.begin < zs[i + 1].begin)
    ensures forall k :: 0 <= k < |zs| ==> !(zs[k].begin <= x.begin <= zs[k].end + 1)
  {
    forall k | 0 <= k < |zs| ensures !(zs[k].begin <= x.begin <= zs[k].end + 1) {
      if k < i {
        TidyTail(zs, k);
        Beyond(zs[k..], i - k);
        assert Pages(zs[i]);
      } else if k > i + 1 {
        TidyTail(zs, i + 1);
        Beyond(zs[i + 1..], k - i - 1);
        assert Pages(zs[i + 1]);
      }
    }
  }
}
