/** The mapped ranges as the program keeps them: a linked list changed in place. */
module MapMem {
  import opened MapSpec

  class Node {
    var begin: nat
    var end: nat
    var next: Node?

    constructor (b: nat, e: nat, n: Node?)
      ensures begin == b && end == e && next == n
    {
      begin, end, next := b, e, n;
    }
  }

  class Ranges {
    var head: Node
    ghost var nodes: seq<Node>

    ghost predicate Linked()
      reads this, nodes
    {
      && |nodes| > 0 && head == nodes[0]
      && (forall i, j :: 0 <= i < j < |nodes| ==> nodes[i] != nodes[j])
      && forall i :: 0 <= i < |nodes| ==> NextOk(nodes, i)
    }

    static ghost predicate NextOk(ns: seq<Node>, i: nat)
      requires i < |ns|
      reads ns
    {
      ns[i].next == if i + 1 < |ns| then ns[i + 1] else null
    }

    ghost function Zones(): (zs: seq<Zone>)
      reads this, nodes
      ensures |zs| == |nodes|
      ensures forall i :: 0 <= i < |nodes| ==> zs[i] == Zone(nodes[i].begin, nodes[i].end)
    {
      ZonesOf(nodes)
    }

    static ghost function ZonesOf(ns: seq<Node>): (zs: seq<Zone>)
      reads ns
      ensures |zs| == |ns|
      ensures forall i :: 0 <= i < |ns| ==> zs[i] == Zone(ns[i].begin, ns[i].end)
    {
      if ns == [] then [] else ZonesOf(ns[..|ns| - 1]) + [Zone(ns[|ns| - 1].begin, ns[|ns| - 1].end)]
    }

    ghost predicate Valid()
      reads this, nodes
    {
      Linked() && Canonical(Zones())
    }

    constructor ()
      ensures Valid() && Zones() == START
      ensures fresh(nodes)
    {
      var n := new Node(0, LOWEST - 1, null);
      head, nodes := n, [n];
    }

    lemma At(k: nat)
      requires Linked() && k < |nodes|
      ensures nodes[k].next == if k + 1 < |nodes| then nodes[k + 1] else null
      ensures Zones()[k] == Zone(nodes[k].begin, nodes[k].end)
      ensures k + 1 < |nodes| ==> Zones()[k + 1] == Zone(nodes[k + 1].begin, nodes[k + 1].end)
    {
      assert NextOk(nodes, k);
    }

    /** What the links say does not depend on the ends of the zones. */
    twostate lemma StillLinked()
      requires old(Linked()) && nodes == old(nodes) && head == old(head)
      requires forall n <- nodes :: n.next == old(n.next)
      ensures Linked()
    {
      forall i | 0 <= i < |nodes| ensures NextOk(nodes, i) {
        assert old(NextOk(nodes, i));
      }
    }

    method SetEnd(m: Node, e: nat, ghost k: nat)
      requires Linked() && k < |nodes| && m == nodes[k]
      modifies m`end
      ensures Linked() && Zones() == old(Zones())[k := old(Zones()[k]).(end := e)] && m.end == e
    {
      m.end := e;
      StillLinked();
    }

    method SetBegin(m: Node, b: nat, ghost k: nat)
      requires Linked() && k < |nodes| && m == nodes[k]
      modifies m`begin
      ensures Linked() && Zones() == old(Zones())[k := old(Zones()[k]).(begin := b)]
    {
      m.begin := b;
      StillLinked();
    }

    method InsertAfter(m: Node, b: nat, e: nat, ghost k: nat) returns (newm: Node)
      requires Linked() && k < |nodes| && m == nodes[k]
      modifies this`nodes, m`next
      ensures Linked() && fresh(newm) && |nodes| == old(|nodes|) + 1 && nodes[k + 1] == newm && m == nodes[k]
      ensures nodes == old(nodes[..k + 1]) + [newm] + old(nodes[k + 1..])
      ensures Zones() == old(Zones()[..k + 1]) + [Zone(b, e)] + old(Zones()[k + 1..])
    {
      hide ZonesOf;
      At(k);
      newm := new Node(b, e, m.next);
      m.next := newm;
      nodes := nodes[..k + 1] + [newm] + nodes[k + 1..];
      forall i | 0 <= i < |nodes| ensures NextOk(nodes, i) {
        if i != k && i != k + 1 { assert old(NextOk(nodes, if i < k then i else i - 1)); }
      }
      forall i | 0 <= i < |nodes|
        ensures Zones()[i] == (old(Zones()[..k + 1]) + [Zone(b, e)] + old(Zones()[k + 1..]))[i]
      {}
    }

    /** Takes the node after `m` out of the list. */
    method DropAfter(m: Node, ghost k: nat)
      requires Linked() && k + 1 < |nodes| && m == nodes[k]
      modifies this`nodes, m`next
      ensures Linked() && |nodes| == old(|nodes|) - 1 && m == nodes[k]
      ensures nodes == old(nodes[..k + 1]) + old(nodes[k + 2..])
      ensures Zones() == old(Zones()[..k + 1]) + old(Zones()[k + 2..])
    {
      At(k);
      At(k + 1);
      m.next := m.next.next;
      nodes := nodes[..k + 1] + nodes[k + 2..];
      forall i | 0 <= i < |nodes| ensures NextOk(nodes, i) {
        if i != k { assert old(NextOk(nodes, if i < k then i else i + 1)); }
      }
    }

    method AddMapMem(from: nat, to: nat)
      requires Valid()
      modifies this, nodes
      ensures Linked() && Zones() == AddRange(old(Zones()), from, to)
      ensures from <= to + 1 ==> (Valid() <==> (NoBytes(from, to) ==> TakesIn(old(Zones()), from)))
      ensures forall n <- nodes :: n in old(nodes) || fresh(n)
    {
      var begin := from - from % PAGE;
      var end := to - to % PAGE + 0xfff;
      SaneIs(from, to);
      if from <= to + 1 { AddRangeIff(Zones(), from, to); }
      if end < LOWEST { return; }
      if begin == 0 { begin := LOWEST; }
      hide Canonical, Linked, Add, Sane, Counts, ZonesOf, NoBytes, TakesIn;
      AddAt(begin, end, Sane(from, to));
    }

    method AddAt(begin: nat, end: nat, ghost x: Zone)
      requires Linked() && x == Zone(begin, end)
      modifies this, nodes
      ensures Linked() && Zones() == Add(old(Zones()), x)
      ensures forall n <- nodes :: n in old(nodes) || fresh(n)
    {
      hide *;
      var m, i := FindAttach(begin);
      At(i);
      assert m in nodes;
      AddIs(Zones(), i, x);
      if m.end >= begin - 1 {
        if end <= m.end { return; }
        SetEnd(m, end, i);
        FuseNext(m, i);
      } else {
        var newm := InsertAfter(m, begin, end, i);
        FuseNext(newm, i + 1);
      }
    }

    /** The last node, after the first, that starts before `begin`, or the first. */
    method FindAttach(begin: nat) returns (m: Node, ghost i: nat)
      requires Linked()
      ensures |nodes| > 0 && i == Attach(Zones(), begin, 0) && m == nodes[i]
    {
      hide Linked, Attach, ZonesOf;
      HeadFirst();
      m := head;
      i := 0;
      while m.next != null && begin > m.next.begin
        invariant i < |nodes| && m == nodes[i]
        invariant Attach(Zones(), begin, 0) == Attach(Zones(), begin, i)
        decreases |nodes| - i
      {
        At(i);
        AttachStep(Zones(), begin, i);
        m := m.next;
        i := i + 1;
      }
      At(i);
      AttachStep(Zones(), begin, i);
    }

    lemma HeadFirst()
      requires Linked()
      ensures |nodes| > 0 && head == nodes[0]
    {}

    /** `newm` swallows the zones after it that it reaches. */
    method FuseNext(newm: Node, ghost k: nat)
      requires Linked() && k < |nodes| && newm == nodes[k]
      modifies this`nodes, newm
      ensures Linked()
      ensures Zones() == old(Zones()[..k]) + Fuse(old(Zones()[k]), old(Zones()[k + 1..]))
      ensures forall n <- nodes :: n in old(nodes)
    {
      hide Linked, Fuse, ZonesOf;
      ghost var zs := Zones();
      At(k);
      while newm.next != null && newm.next.begin - 1 <= newm.end
        invariant Linked() && k < |nodes| && newm == nodes[k]
        invariant forall n <- nodes :: n in old(nodes)
        invariant Zones()[..k] == zs[..k]
        invariant Fuse(Zones()[k], Zones()[k + 1..]) == Fuse(zs[k], zs[k + 1..])
        decreases |nodes|
      {
        Swallow(newm, k);
      }
      FuseDone(newm, k);
    }

    lemma FuseDone(newm: Node, k: nat)
      requires Linked() && k < |nodes| && newm == nodes[k]
      requires !(newm.next != null && newm.next.begin - 1 <= newm.end)
      ensures Zones() == Zones()[..k] + Fuse(Zones()[k], Zones()[k + 1..])
    {
      hide Linked, Fuse, ZonesOf;
      At(k);
      FuseStep(Zones()[k], Zones()[k + 1..]);
      assert Zones() == Zones()[..k] + ([Zones()[k]] + Zones()[k + 1..]);
    }

    method Swallow(newm: Node, ghost k: nat)
      requires Linked() && k < |nodes| && newm == nodes[k]
      requires newm.next != null && newm.next.begin - 1 <= newm.end
      modifies this`nodes, newm
      ensures Linked() && k < |nodes| < old(|nodes|) && newm == nodes[k]
      ensures forall n <- nodes :: n in old(nodes)
      ensures Zones()[..k] == old(Zones())[..k]
      ensures Fuse(Zones()[k], Zones()[k + 1..]) == Fuse(old(Zones()[k]), old(Zones()[k + 1..]))
    {
      hide Linked, Fuse, ZonesOf;
      ghost var before := Zones();
      At(k);
      FuseStep(before[k], before[k + 1..]);
      if newm.next.end > newm.end {
        SetEnd(newm, newm.next.end, k);
      }
      DropAfter(newm, k);
      assert Zones()[k + 1..] == before[k + 1..][1..];
    }

    method RemoveMapMem(from: nat, to: nat)
      requires Valid()
      modifies this, nodes
      ensures Linked() && Zones() == RemoveRange(old(Zones()), from, to)
      ensures from <= to + 1 ==> (Valid() <==> (NoBytes(from, to) ==> !CutsInside(old(Zones()), from)))
      ensures forall n <- nodes :: n in old(nodes) || fresh(n)
    {
      var begin := from - from % PAGE;
      var end := to - to % PAGE + 0xfff;
      SaneIs(from, to);
      if from <= to + 1 { RemoveRangeIff(Zones(), from, to); }
      StartsAtZero();
      if end < LOWEST { return; }
      if begin == 0 { begin := LOWEST; }
      hide Canonical, Linked, Remove, Sane, Counts, ZonesOf, NoBytes, CutsInside;
      RemoveAt(begin, end, Sane(from, to));
    }

    lemma StartsAtZero()
      requires Valid()
      ensures |nodes| > 0 && Zones()[0].begin == 0
    {}

    method RemoveAt(begin: nat, end: nat, ghost x: Zone)
      requires Linked() && x == Zone(begin, end) && begin > 0 && |nodes| > 0 && Zones()[0].begin == 0
      modifies this, nodes
      ensures Linked() && Zones() == Remove(old(Zones()), x)
      ensures forall n <- nodes :: n in old(nodes) || fresh(n)
    {
      hide *;
      ghost var zs := Zones();
      HeadFirst();
      WholeZones(zs, x);
      var m: Node? := head;
      var prev: Node? := null;
      ghost var k: nat := 0;
      while m != null
        invariant Linked() && k <= |nodes| && (k == 0 ==> |nodes| > 0 && Zones()[0].begin == 0)
        invariant m == if k < |nodes| then nodes[k] else null
        invariant prev == if k > 0 then nodes[k - 1] else null
        invariant forall n <- nodes :: n in old(nodes)
        invariant Zones()[..k] + Remove(Zones()[k..], x) == Remove(zs, x)
        decreases |nodes| - k
      {
        var goOn;
        assert m in nodes && (prev != null ==> prev in nodes);
        goOn, prev, k := RemoveOne(m, prev, begin, end, k, x);
        if !goOn { return; }
        At(k - 1);
        m := prev.next;
      }
      WholeZones(Zones(), x);
    }

    /** Deals with the zone of `m`: says whether to go on, and behind which node. */
    method RemoveOne(m: Node, prev: Node?, begin: nat, end: nat, ghost k: nat, ghost x: Zone)
        returns (goOn: bool, at: Node?, ghost k': nat)
      requires Linked() && k < |nodes| && m == nodes[k] && x == Zone(begin, end) && begin > 0
      requires prev == (if k > 0 then nodes[k - 1] else null) && (k == 0 ==> Zones()[0].begin == 0)
      modifies this`nodes, m, prev
      ensures Linked() && forall n <- nodes :: n in old(nodes) || (!goOn && fresh(n))
      ensures !goOn ==> Zones() == old(Zones()[..k]) + Remove(old(Zones()[k..]), x)
      ensures goOn ==> 0 < k' <= |nodes| && at == nodes[k' - 1] && |nodes| - k' < old(|nodes|) - k
      ensures goOn ==> Zones()[..k'] + Remove(Zones()[k'..], x) == old(Zones()[..k]) + Remove(old(Zones()[k..]), x)
    {
      hide *;
      ghost var before := Zones();
      At(k);
      RemoveStep(before, k, x);
      if m.begin > end { return false, m, k; }
      if m.begin >= begin && m.end <= end {
        if prev == null { assert false; }
        DropAfter(prev, k - 1);
        RemoveCarries(before, k, [], Zones(), x);
        return true, prev, k;
      }
      if begin > m.begin && end < m.end {
        SplitAt(m, begin, end, k);
        return false, m, k;
      }
      TrimAt(m, begin, end, k, x);
      RemoveCarries(before, k, Rest(before[k], x), Zones(), x);
      return true, m, k + 1;
    }

    /** Takes the tail or the head of a zone away, or nothing. */
    method TrimAt(m: Node, begin: nat, end: nat, ghost k: nat, ghost x: Zone)
      requires Linked() && k < |nodes| && m == nodes[k] && begin > 0 && x == Zone(begin, end) && m.begin <= end
      requires !(m.begin >= begin && m.end <= end) && !(begin > m.begin && end < m.end)
      modifies m`begin, m`end
      ensures Linked() && |Rest(old(Zones()[k]), x)| == 1 && nodes == old(nodes)
      ensures Zones() == old(Zones()[..k]) + Rest(old(Zones()[k]), x) + old(Zones()[k + 1..])
    {
      hide Linked, ZonesOf;
      At(k);
      ghost var zs := Zones();
      if begin > m.begin && begin < m.end {
        SetEnd(m, begin - 1, k);
      } else if end > m.begin && end < m.end {
        SetBegin(m, end + 1, k);
      }
      assert zs == zs[..k] + [zs[k]] + zs[k + 1..];
    }

    method SplitAt(m: Node, begin: nat, end: nat, ghost k: nat)
      requires Linked() && k < |nodes| && m == nodes[k] && begin > 0
      modifies this`nodes, m
      ensures Linked() && forall n <- nodes :: n in old(nodes) || fresh(n)
      ensures Zones() == old(Zones()[..k]) + [Zone(old(m.begin), begin - 1), Zone(end + 1, old(m.end))] + old(Zones()[k + 1..])
    {
      hide Linked, ZonesOf;
      At(k);
      var tail := m.end;
      SetEnd(m, begin - 1, k);
      var newm := InsertAfter(m, end + 1, tail, k);
    }
  }

  lemma RemoveHead(zs: seq<Zone>, x: Zone)
    requires zs != [] && x.begin > 0
    ensures zs[0].begin > x.end ==> Remove(zs, x) == zs
    ensures zs[0].begin <= x.end && x.begin > zs[0].begin && x.end < zs[0].end ==>
      Remove(zs, x) == Rest(zs[0], x) + zs[1..]
    ensures zs[0].begin <= x.end && !(x.begin > zs[0].begin && x.end < zs[0].end) ==>
      Remove(zs, x) == Rest(zs[0], x) + Remove(zs[1..], x)
  {}

  lemma RestIs(m: Zone, x: Zone)
    requires x.begin > 0
    ensures m.begin >= x.begin && m.end <= x.end ==> Rest(m, x) == []
    ensures x.begin > m.begin && x.end < m.end ==> Rest(m, x) == [Zone(m.begin, x.begin - 1), Zone(x.end + 1, m.end)]
  {}

  lemma RemoveStep(zs: seq<Zone>, k: nat, x: Zone)
    requires k < |zs| && x.begin > 0
    ensures zs[k].begin >= x.begin && zs[k].end <= x.end ==> Rest(zs[k], x) == []
    ensures x.begin > zs[k].begin && x.end < zs[k].end ==>
      Rest(zs[k], x) == [Zone(zs[k].begin, x.begin - 1), Zone(x.end + 1, zs[k].end)]
    ensures zs[k].begin > x.end ==> zs[..k] + Remove(zs[k..], x) == zs
    ensures zs[k].begin <= x.end && x.begin > zs[k].begin && x.end < zs[k].end ==>
      zs[..k] + Remove(zs[k..], x) == zs[..k] + Rest(zs[k], x) + zs[k + 1..]
    ensures zs[k].begin <= x.end && !(x.begin > zs[k].begin && x.end < zs[k].end) ==>
      Remove(zs[k..], x) == Rest(zs[k], x) + Remove(zs[k + 1..], x)
  {
    hide Rest;
    assert zs[k..][0] == zs[k] && zs[k..][1..] == zs[k + 1..] && zs[..k] + zs[k..] == zs;
    RemoveHead(zs[k..], x);
    RestIs(zs[k], x);
    hide Remove;
  }

  lemma WholeZones(zs: seq<Zone>, x: Zone)
    requires x.begin > 0
    ensures zs[..|zs|] + Remove(zs[|zs|..], x) == zs && zs[..0] + Remove(zs[0..], x) == Remove(zs, x)
  {
    assert zs[0..] == zs;
  }

  /** Zone `k` has been dealt with: what is left of it, `r`, stands in its place. */
  lemma RemoveCarries(zs: seq<Zone>, k: nat, r: seq<Zone>, ys: seq<Zone>, x: Zone)
    requires k < |zs| && x.begin > 0 && Remove(zs[k..], x) == r + Remove(zs[k + 1..], x)
    requires ys == zs[..k] + r + zs[k + 1..]
    ensures ys[..k + |r|] + Remove(ys[k + |r|..], x) == zs[..k] + Remove(zs[k..], x)
  {
    assert ys[..k + |r|] == zs[..k] + r && ys[k + |r|..] == zs[k + 1..];
  }

  lemma SaneIs(from: nat, to: nat)
    ensures Counts(from, to) <==> to - to % PAGE + 0xfff >= LOWEST
    ensures Sane(from, to) == Zone(if from - from % PAGE == 0 then LOWEST else from - from % PAGE, to - to % PAGE + 0xfff)
  {}

  /** The list that the two ways to add start fusing from. */
  lemma AddIs(zs: seq<Zone>, i: nat, x: Zone)
    requires |zs| > 0 && i == Attach(zs, x.begin, 0)
    ensures zs[i].end >= x.begin - 1 && x.end <= zs[i].end ==> Add(zs, x) == zs
    ensures zs[i].end >= x.begin - 1 && x.end > zs[i].end ==>
      var ys := zs[i := zs[i].(end := x.end)];
      Add(zs, x) == ys[..i] + Fuse(ys[i], ys[i + 1..])
    ensures zs[i].end < x.begin - 1 ==>
      var ys := zs[..i + 1] + [x] + zs[i + 1..];
      |ys| == |zs| + 1 && Add(zs, x) == ys[..i + 1] + Fuse(ys[i + 1], ys[i + 1 + 1..])
  {
    var ys := zs[..i + 1] + [x] + zs[i + 1..];
    assert ys[..i + 1] == zs[..i + 1] && ys[i + 2..] == zs[i + 1..];
    var us := zs[i := zs[i].(end := x.end)];
    assert us[..i] == zs[..i] && us[i + 1..] == zs[i + 1..];
  }

  lemma AttachStep(zs: seq<Zone>, begin: nat, i: nat)
    requires i < |zs|
    ensures Attach(zs, begin, i) == if i + 1 < |zs| && begin > zs[i + 1].begin then Attach(zs, begin, i + 1) else i
  {}

  lemma FuseStep(x: Zone, rest: seq<Zone>)
    ensures Fuse(x, rest) == if rest != [] && rest[0].begin - 1 <= x.end
                             then Fuse(x.(end := Max(x.end, rest[0].end)), rest[1..]) else [x] + rest
  {}
}
