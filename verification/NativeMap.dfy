/** From an address inside translated code to the block it belongs to: a byte for every byte of a pool
    says how far back the start of the chunk is, or lies at least. */
module NativeMap {
  import opened Common

  /** Following the bytes back to one that is zero; `None` would be a step out of the pool. */
  function Walk(h: seq<nat>, p: nat): Option<nat>
    requires p < |h|
    decreases p
  {
    if h[p] == 0 then Some(p) else if h[p] > p then None else Walk(h, p - h[p])
  }

  function Back(j: nat): nat { if j < 256 then j else 255 }

  /** The chunk of `n` bytes at `s` is described. */
  predicate Described(h: seq<nat>, s: nat, n: nat) {
    s + n <= |h| && forall j :: 0 <= j < n ==> Back(j) == h[s + j]
  }

  lemma {:induction false} WalkHome(h: seq<nat>, s: nat, n: nat, j: nat)
    requires Described(h, s, n) && j < n
    ensures Walk(h, s + j) == Some(s)
    decreases j
  {
    assert Back(j) == h[s + j];
    if j > 0 { WalkHome(h, s, n, j - Back(j)); }
  }

  predicate Apart(a: (nat, nat), b: (nat, nat)) { a.0 + a.1 <= b.0 || b.0 + b.1 <= a.0 }

  class Pool<Block> {
    const helper: array<nat>
    var dblist: map<nat, Block>
    /** The chunks that are in use, as start and size. */
    ghost var live: set<(nat, nat)>

    ghost predicate Valid()
      reads this, helper
    {
      && (forall c <- live :: Described(helper[..], c.0, c.1) && c.0 in dblist)
      && forall c, d :: c in live && d in live && c != d ==> Apart(c, d)
    }

    constructor (size: nat)
      ensures Valid() && live == {} && fresh(helper) && helper.Length == size
    {
      helper := new nat[size](_ => 0);
      dblist := map[];
      live := {};
    }

    /** Notes a new chunk and its block. */
    method Add(sub: nat, size: nat, db: Block)
      requires Valid() && size > 0 && sub + size <= helper.Length
      requires forall c <- live :: Apart(c, (sub, size)) && c.0 != sub
      modifies this, helper
      ensures Valid() && live == old(live) + {(sub, size)}
      ensures dblist == old(dblist)[sub := db]
    {
      dblist := dblist[sub := db];
      ghost var before := helper[..];
      var j := 0;
      while j < size
        invariant j <= size && dblist == old(dblist)[sub := db] && live == old(live)
        invariant forall i :: 0 <= i < j ==> Back(i) == helper[sub + i]
        invariant forall i :: 0 <= i < helper.Length && !(sub <= i < sub + size) ==> helper[i] == before[i]
      {
        helper[sub + j] := if j < 256 then j else 255;
        j := j + 1;
      }
      forall c <- live ensures Described(helper[..], c.0, c.1) {
        assert Described(before, c.0, c.1);
        assert Apart(c, (sub, size));
      }
      live := live + {(sub, size)};
    }

    /** The block of the chunk that `addr` lies in: the walk ends at the start of the chunk. */
    method Find(addr: nat, ghost c: (nat, nat)) returns (db: Option<Block>)
      requires Valid() && c in live && c.0 <= addr < c.0 + c.1
      ensures c.0 in dblist && db == Some(dblist[c.0])
    {
      var p := addr;
      WalkHome(helper[..], c.0, c.1, addr - c.0);
      assert Described(helper[..], c.0, c.1);
      while helper[p] != 0
        invariant c.0 <= p <= addr && Walk(helper[..], p) == Some(c.0)
        decreases p
      {
        assert Back(p - c.0) == helper[..][c.0 + (p - c.0)];
        p := p - helper[p];
      }
      db := if p in dblist then Some(dblist[p]) else None;
    }
  }

  // ---- the other way chunks are noted, in pools that are there already

  /** What it writes for a chunk of `n` bytes at `s`: entry 255 is not among it, and one behind the chunk is. */
  function Refilled(h: seq<nat>, s: nat, n: nat): (r: seq<nat>)
    requires s + n < |h|
    ensures |r| == |h|
  {
    var few := if n < 256 then n else 255;
    seq(|h|, i requires 0 <= i < |h| =>
      if s <= i < s + few then i - s else if n > few && s + 256 <= i <= s + n then 255 else h[i])
  }

  /** Where nothing was noted before, the walk finds the start from everywhere in the chunk exactly when
      the chunk is shorter than 256 bytes. */
  lemma RefilledIff(h: seq<nat>, s: nat, n: nat)
    requires s + n < |h| && forall p :: s <= p < s + n ==> h[p] == 0
    ensures (forall p :: s <= p < s + n ==> Walk(Refilled(h, s, n), p) == Some(s)) <==> n < 256
  {
    var r := Refilled(h, s, n);
    if n < 256 {
      forall p | s <= p < s + n ensures Walk(r, p) == Some(s) { WalkHome(r, s, n, p - s); }
    } else {
      assert Walk(r, s + 255) == Some(s + 255);
    }
  }
}
