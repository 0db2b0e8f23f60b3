/** The four-level jump table that threads extend with compare-and-swap while others run through it. */
module JumpTable {

  const WIDTH: nat := 0x10000
  const ADDRESSES: nat := WIDTH * WIDTH * WIDTH * WIDTH

  /** The code that an address without a translation leads to. */
  const NEXT: nat := 0

  /** A table of depth 0 to 2 holds tables of the next depth, one of depth 3 holds code. */
  datatype Table = Table(depth: nat, slots: seq<nat>)

  /** Table 0 is the root; tables 1 to 3 are the shared defaults of their depth. */
  function DefaultSlot(depth: nat): nat { if depth < 3 then depth + 1 else NEXT }

  function Index(a: nat, d: nat): (r: nat)
    requires d <= 3
    ensures r < WIDTH
  {
    if d == 0 then a / (WIDTH * WIDTH * WIDTH) % WIDTH
    else if d == 1 then a / (WIDTH * WIDTH) % WIDTH
    else if d == 2 then a / WIDTH % WIDTH
    else a % WIDTH
  }

  predicate Child(ts: seq<Table>, x: nat, depth: nat) { 0 < x < |ts| && ts[x].depth == depth }

  predicate ShapeAt(ts: seq<Table>, i: nat)
    requires i < |ts|
  {
    && ts[i].depth <= 3 && |ts[i].slots| == WIDTH && (i < 4 ==> ts[i].depth == i)
    && (ts[i].depth < 3 ==> forall j :: 0 <= j < WIDTH ==> Child(ts, ts[i].slots[j], ts[i].depth + 1))
  }

  ghost predicate Shape(ts: seq<Table>) {
    |ts| >= 4 && forall i :: 0 <= i < |ts| ==> ShapeAt(ts, i)
  }

  predicate Blank(t: Table) { forall j :: 0 <= j < |t.slots| ==> t.slots[j] == DefaultSlot(t.depth) }

  /** The shared defaults hold what they were made with. */
  predicate Pristine(ts: seq<Table>)
    requires |ts| >= 4
  {
    Blank(ts[1]) && Blank(ts[2]) && Blank(ts[3])
  }

  predicate Holds(ts: seq<Table>, i: nat, j: nat, x: nat) {
    i < |ts| && ts[i].depth < 3 && j < |ts[i].slots| && ts[i].slots[j] == x
  }

  /** A table of one's own hangs in one place only. */
  ghost predicate Tree(ts: seq<Table>) {
    forall i, j, i', j', x ::
      x > 3 && Holds(ts, i, j, x) && Holds(ts, i', j', x) ==> i == i' && j == j'
  }

  ghost predicate Unborn(ts: seq<Table>, x: nat) { forall i, j :: !Holds(ts, i, j, x) }

  ghost predicate TablesOk(ts: seq<Table>) { Shape(ts) && Pristine(ts) && Tree(ts) }

  /** The table that the walk for `a` reaches after `d` steps. */
  ghost function PathAt(ts: seq<Table>, a: nat, d: nat): (r: nat)
    requires Shape(ts) && d <= 3
    ensures r < |ts| && ts[r].depth == d && ShapeAt(ts, r)
  {
    if d == 0 then
      assert ShapeAt(ts, 0);
      0
    else
      var p := PathAt(ts, a, d - 1);
      assert Child(ts, ts[p].slots[Index(a, d - 1)], d) && ShapeAt(ts, ts[p].slots[Index(a, d - 1)]);
      ts[p].slots[Index(a, d - 1)]
  }

  ghost predicate Opened(ts: seq<Table>, a: nat, k: nat)
    requires Shape(ts) && k <= 3
  {
    forall d :: 1 <= d <= k ==> PathAt(ts, a, d) > 3
  }

  /** What the table says about `a`, defaults included: the flat map that it stands for. */
  ghost function Flat(ts: seq<Table>, a: nat): nat
    requires Shape(ts)
  {
    ts[PathAt(ts, a, 3)].slots[Index(a, 3)]
  }

  lemma IndexInjective(a: nat, b: nat)
    requires a < ADDRESSES && b < ADDRESSES
    requires forall d :: 0 <= d <= 3 ==> Index(a, d) == Index(b, d)
    ensures a == b
  {
    Digits(a);
    Digits(b);
    assert Index(a, 0) == Index(b, 0) && Index(a, 1) == Index(b, 1) && Index(a, 2) == Index(b, 2) && Index(a, 3) == Index(b, 3);
  }

  lemma Digits(a: nat)
    requires a < ADDRESSES
    ensures a == ((Index(a, 0) * WIDTH + Index(a, 1)) * WIDTH + Index(a, 2)) * WIDTH + Index(a, 3)
  {
    assert a / (WIDTH * WIDTH) == a / WIDTH / WIDTH;
    assert a / (WIDTH * WIDTH * WIDTH) == a / WIDTH / WIDTH / WIDTH;
  }

  /** A slot of a table below the root leads to the default of its depth or to a table of one's own. */
  lemma DefaultOrOwn(ts: seq<Table>, a: nat, d: nat)
    requires Shape(ts) && 1 <= d <= 3
    ensures PathAt(ts, a, d) == d || PathAt(ts, a, d) > 3
  {
    hide Shape;
    var r := PathAt(ts, a, d);
    assert ShapeAt(ts, r);
  }

  /** Two walks that meet in a table of one's own came the same way. */
  lemma {:induction false} SameWay(ts: seq<Table>, a: nat, b: nat, d: nat)
    requires TablesOk(ts) && d <= 3 && PathAt(ts, a, d) == PathAt(ts, b, d) && (d > 0 ==> PathAt(ts, a, d) > 3)
    ensures forall k :: 0 <= k < d ==> Index(a, k) == Index(b, k)
    ensures Opened(ts, a, d)
  {
    hide Shape, Index;
    if d > 0 {
      var p, q, x := PathAt(ts, a, d - 1), PathAt(ts, b, d - 1), PathAt(ts, a, d);
      assert Holds(ts, p, Index(a, d - 1), x) && Holds(ts, q, Index(b, d - 1), x);
      if d > 1 {
        DefaultOrOwn(ts, a, d - 1);
        assert p > 3;
      }
      SameWay(ts, a, b, d - 1);
    }
  }

  // ---- what happens to the tables

  /** Tables only grow: defaults are not written, and a table of one's own is never replaced. */
  ghost predicate Extends(ts: seq<Table>, us: seq<Table>) {
    && |us| >= |ts| >= 4 && us[1] == ts[1] && us[2] == ts[2] && us[3] == ts[3]
    && forall i :: 0 <= i < |ts| ==> ExtendsAt(ts[i], us[i])
  }

  ghost predicate ExtendsAt(t: Table, u: Table) {
    && u.depth == t.depth && |u.slots| == |t.slots|
    && (t.depth < 3 ==> forall j :: 0 <= j < |t.slots| && t.slots[j] > 3 ==> u.slots[j] == t.slots[j])
  }

  /** A slot that was found stays the slot of its address. */
  lemma {:induction false} OpenedStays(ts: seq<Table>, us: seq<Table>, a: nat, k: nat)
    requires Shape(ts) && Shape(us) && Extends(ts, us) && k <= 3 && Opened(ts, a, k)
    ensures Opened(us, a, k) && PathAt(us, a, k) == PathAt(ts, a, k)
  {
    if k > 0 {
      hide Shape, Index;
      OpenedStays(ts, us, a, k - 1);
      var p := PathAt(ts, a, k - 1);
      assert ExtendsAt(ts[p], us[p]);
      assert PathAt(us, a, k) == us[p].slots[Index(a, k - 1)];
    }
  }

  lemma ExtendsTrans(ts: seq<Table>, us: seq<Table>, vs: seq<Table>)
    requires Extends(ts, us) && Extends(us, vs)
    ensures Extends(ts, vs)
  {
    forall i | 0 <= i < |ts| ensures ExtendsAt(ts[i], vs[i]) {
      assert ExtendsAt(ts[i], us[i]) && ExtendsAt(us[i], vs[i]);
    }
  }

  lemma ExtendsSelf(ts: seq<Table>)
    requires |ts| >= 4
    ensures Extends(ts, ts)
  {}

  function Set(ts: seq<Table>, p: nat, j: nat, v: nat): seq<Table>
    requires p < |ts| && j < |ts[p].slots|
  {
    ts[p := ts[p].(slots := ts[p].slots[j := v])]
  }

  function BlankTable(depth: nat): Table { Table(depth, seq(WIDTH, _ => DefaultSlot(depth))) }

  lemma AppendKeeps(ts: seq<Table>, depth: nat)
    requires TablesOk(ts) && 1 <= depth <= 3
    ensures TablesOk(ts + [BlankTable(depth)]) && Extends(ts, ts + [BlankTable(depth)])
    ensures Unborn(ts + [BlankTable(depth)], |ts|)
  {
    var us := ts + [BlankTable(depth)];
    assert ShapeAt(ts, if depth < 3 then depth + 1 else 3);
    forall i | 0 <= i < |us| ensures ShapeAt(us, i) {
      if i < |ts| {
        assert ShapeAt(ts, i);
        forall j | ts[i].depth < 3 && 0 <= j < WIDTH ensures Child(us, us[i].slots[j], us[i].depth + 1) {
          assert Child(ts, ts[i].slots[j], ts[i].depth + 1);
        }
      }
    }
    forall i: nat, j: nat, x: nat | Holds(us, i, j, x) && x > 3 ensures i < |ts| && Holds(ts, i, j, x) && x < |ts| {
      assert ShapeAt(us, i);
      if i < |ts| {
        assert ShapeAt(ts, i);
        assert Child(ts, ts[i].slots[j], ts[i].depth + 1);
      }
    }
  }

  lemma {:induction false} AppendPaths(ts: seq<Table>, t: Table, a: nat, d: nat)
    requires Shape(ts) && Shape(ts + [t]) && d <= 3
    ensures PathAt(ts + [t], a, d) == PathAt(ts, a, d)
  {
    hide Shape, Index;
    if d > 0 { AppendPaths(ts, t, a, d - 1); }
  }

  lemma AppendFlat(ts: seq<Table>, t: Table, a: nat)
    requires Shape(ts) && Shape(ts + [t])
    ensures Flat(ts + [t], a) == Flat(ts, a)
  {
    AppendPaths(ts, t, a, 3);
  }

  /** The slot for `a` at depth `k` still has the default, and `x` is a blank table to hang there. */
  ghost predicate MayPublish(ts: seq<Table>, a: nat, k: nat, x: nat)
    requires Shape(ts) && k < 3
  {
    && Opened(ts, a, k) && ts[PathAt(ts, a, k)].slots[Index(a, k)] == k + 1
    && 3 < x < |ts| && ts[x] == BlankTable(k + 1) && Unborn(ts, x)
  }

  lemma OpenedOwn(ts: seq<Table>, a: nat, k: nat)
    requires Shape(ts) && k <= 3 && Opened(ts, a, k)
    ensures PathAt(ts, a, k) == 0 || PathAt(ts, a, k) > 3
  {}

  lemma PublishShape(ts: seq<Table>, p: nat, j: nat, x: nat)
    requires Shape(ts) && p < |ts| && ts[p].depth < 3 && j < WIDTH == |ts[p].slots| && Child(ts, x, ts[p].depth + 1)
    ensures Shape(Set(ts, p, j, x))
  {
    var us := Set(ts, p, j, x);
    forall i | 0 <= i < |us| ensures ShapeAt(us, i) {
      assert ShapeAt(ts, i);
      forall l | us[i].depth < 3 && 0 <= l < WIDTH ensures Child(us, us[i].slots[l], us[i].depth + 1) {
        assert i != p || l != j ==> Child(ts, ts[i].slots[l], ts[i].depth + 1);
      }
    }
  }

  lemma PublishTree(ts: seq<Table>, p: nat, j: nat, x: nat)
    requires Tree(ts) && p < |ts| && ts[p].depth < 3 && j < |ts[p].slots| && Unborn(ts, x)
    ensures Tree(Set(ts, p, j, x))
    ensures forall y :: y != x && Unborn(ts, y) ==> Unborn(Set(ts, p, j, x), y)
  {
    var us := Set(ts, p, j, x);
    forall i: nat, l: nat, y: nat | Holds(us, i, l, y)
      ensures (i == p && l == j && y == x) || (Holds(ts, i, l, y) && y != x)
    {
      if i != p || l != j { assert Holds(ts, i, l, y); }
    }
  }

  lemma PublishKeeps(ts: seq<Table>, a: nat, k: nat, x: nat)
    requires TablesOk(ts) && k < 3 && MayPublish(ts, a, k, x)
    ensures var us := Set(ts, PathAt(ts, a, k), Index(a, k), x);
      && TablesOk(us) && Extends(ts, us) && Opened(us, a, k + 1)
      && forall y :: y != x && Unborn(ts, y) ==> Unborn(us, y)
  {
    hide Shape, Unborn, Index, Tree, Opened;
    var p, j := PathAt(ts, a, k), Index(a, k);
    OpenedOwn(ts, a, k);
    PublishShape(ts, p, j, x);
    PublishTree(ts, p, j, x);
    var us := Set(ts, p, j, x);
    assert forall i :: 0 <= i < |ts| ==> ExtendsAt(ts[i], us[i]);
    OpenedStays(ts, us, a, k);
    OpenedOneMore(us, a, k);
  }

  lemma OpenedOneMore(ts: seq<Table>, a: nat, k: nat)
    requires Shape(ts) && k < 3 && Opened(ts, a, k) && PathAt(ts, a, k + 1) > 3
    ensures Opened(ts, a, k + 1)
  {}

  /** From a blank table, every walk goes through defaults to the code for no translation. */
  lemma {:induction false} DefaultsAhead(ts: seq<Table>, a: nat, d: nat, e: nat)
    requires Shape(ts) && Pristine(ts) && 1 <= d <= e <= 3 && Blank(ts[PathAt(ts, a, d)])
    ensures Blank(ts[PathAt(ts, a, e)])
    decreases e
  {
    hide Shape, Index;
    if d < e {
      DefaultsAhead(ts, a, d, e - 1);
      var p := PathAt(ts, a, e - 1);
      assert ShapeAt(ts, p);
    }
  }

  lemma DefaultsFlat(ts: seq<Table>, a: nat, d: nat)
    requires Shape(ts) && Pristine(ts) && 1 <= d <= 3 && Blank(ts[PathAt(ts, a, d)])
    ensures Flat(ts, a) == NEXT
  {
    hide Index;
    DefaultsAhead(ts, a, d, 3);
  }

  /** Hanging a blank table where a default was changes the meaning of no address. */
  lemma PublishFlat(ts: seq<Table>, a: nat, k: nat, x: nat, b: nat)
    requires TablesOk(ts) && k < 3 && MayPublish(ts, a, k, x)
    requires var us := Set(ts, PathAt(ts, a, k), Index(a, k), x); TablesOk(us)
    ensures Flat(Set(ts, PathAt(ts, a, k), Index(a, k), x), b) == Flat(ts, b)
  {
    hide Shape, Index, Tree, Opened, Unborn;
    var p, j := PathAt(ts, a, k), Index(a, k);
    var us := Set(ts, p, j, x);
    SetPaths(ts, us, p, j, x, b, k);
    if PathAt(ts, b, k) == p && Index(b, k) == j {
      assert PathAt(us, b, k + 1) == x && us[x] == ts[x];
      DefaultsFlat(us, b, k + 1);
      assert PathAt(ts, b, k + 1) == k + 1;
      DefaultsFlat(ts, b, k + 1);
    } else {
      SetPathsAfter(ts, us, p, j, x, b, k, 3);
    }
  }

  lemma {:induction false} SetPaths(ts: seq<Table>, us: seq<Table>, p: nat, j: nat, x: nat, b: nat, d: nat)
    requires Shape(ts) && Shape(us) && p < |ts| && j < |ts[p].slots| && us == Set(ts, p, j, x) && d <= ts[p].depth
    ensures d <= 3 && PathAt(us, b, d) == PathAt(ts, b, d)
  {
    hide Shape, Index;
    assert ts[p].depth <= 3 by { DepthOk(ts, p); }
    if d > 0 { SetPaths(ts, us, p, j, x, b, d - 1); }
  }

  lemma DepthOk(ts: seq<Table>, p: nat)
    requires Shape(ts) && p < |ts|
    ensures ts[p].depth <= 3
  {
    assert ShapeAt(ts, p);
  }

  lemma {:induction false} SetPathsAfter(ts: seq<Table>, us: seq<Table>, p: nat, j: nat, x: nat, b: nat, k: nat, d: nat)
    requires Shape(ts) && Shape(us) && p < |ts| && j < |ts[p].slots| && us == Set(ts, p, j, x) && k == ts[p].depth < d <= 3
    requires !(PathAt(ts, b, k) == p && Index(b, k) == j)
    ensures PathAt(us, b, d) == PathAt(ts, b, d)
    decreases d
  {
    hide Shape, Index;
    if d == k + 1 {
      SetPaths(ts, us, p, j, x, b, k);
    } else {
      SetPathsAfter(ts, us, p, j, x, b, k, d - 1);
    }
  }

  /** Writing a leaf slot of one's own changes one address of the flat map, and no other. */
  lemma WriteKeeps(ts: seq<Table>, a: nat, v: nat)
    requires TablesOk(ts) && Opened(ts, a, 3) && a < ADDRESSES
    ensures var us := Set(ts, PathAt(ts, a, 3), Index(a, 3), v);
      && TablesOk(us) && Extends(ts, us)
      && (forall y :: Unborn(ts, y) ==> Unborn(us, y))
      && forall b :: 0 <= b < ADDRESSES ==> Flat(us, b) == if b == a then v else Flat(ts, b)
  {
    hide Shape, Index, Tree, Opened;
    var p, j := PathAt(ts, a, 3), Index(a, 3);
    OpenedLeaf(ts, a);
    var us := Set(ts, p, j, v);
    WriteShape(ts, p, j, v);
    WriteTree(ts, p, j, v);
    assert forall i :: 0 <= i < |ts| ==> ExtendsAt(ts[i], us[i]);
    forall b | 0 <= b < ADDRESSES ensures Flat(us, b) == if b == a then v else Flat(ts, b) {
      WriteFlat(ts, a, v, b);
    }
  }

  lemma OpenedLeaf(ts: seq<Table>, a: nat)
    requires Shape(ts) && Opened(ts, a, 3)
    ensures PathAt(ts, a, 3) > 3
  {}

  lemma WriteShape(ts: seq<Table>, p: nat, j: nat, v: nat)
    requires Shape(ts) && p < |ts| && ts[p].depth == 3 && j < |ts[p].slots|
    ensures Shape(Set(ts, p, j, v))
  {
    var us := Set(ts, p, j, v);
    forall i | 0 <= i < |us| ensures ShapeAt(us, i) {
      assert ShapeAt(ts, i);
      forall l | us[i].depth < 3 && 0 <= l < WIDTH ensures Child(us, us[i].slots[l], us[i].depth + 1) {
        assert Child(ts, ts[i].slots[l], ts[i].depth + 1);
      }
    }
  }

  lemma WriteTree(ts: seq<Table>, p: nat, j: nat, v: nat)
    requires Tree(ts) && p < |ts| && ts[p].depth == 3 && j < |ts[p].slots|
    ensures Tree(Set(ts, p, j, v))
    ensures forall y :: Unborn(ts, y) ==> Unborn(Set(ts, p, j, v), y)
  {
    var us := Set(ts, p, j, v);
    assert forall i, l, y :: Holds(us, i, l, y) <==> Holds(ts, i, l, y);
  }

  lemma WriteFlat(ts: seq<Table>, a: nat, v: nat, b: nat)
    requires TablesOk(ts) && Opened(ts, a, 3) && a < ADDRESSES && b < ADDRESSES
    requires Shape(Set(ts, PathAt(ts, a, 3), Index(a, 3), v))
    ensures Flat(Set(ts, PathAt(ts, a, 3), Index(a, 3), v), b) == if b == a then v else Flat(ts, b)
  {
    hide Shape, Index, Tree, Opened;
    var p, j := PathAt(ts, a, 3), Index(a, 3);
    var us := Set(ts, p, j, v);
    SetPaths(ts, us, p, j, v, b, 3);
    if PathAt(ts, b, 3) == p && Index(b, 3) == j {
      OpenedLeaf(ts, a);
      SameWay(ts, a, b, 3);
      IndexInjective(a, b);
    }
  }
}
