/** Any number of threads at work on the jump table, one memory access at a time. */
module JumpThreads {
  import opened JumpTable

  /** `Add` enters code unless some is there, `Get` wants the slot itself, `Reset` takes code out. */
  datatype Request = Add(addr: nat, code: nat) | Get(addr: nat) | Reset(addr: nat)

  /** Where a thread is. It always walks from the root again: `Test` looks whether the slot at depth `k`
      still has its default, `Swap` tries to hang the new table `mine` there, `Last` goes for the leaf. */
  datatype Phase =
    | Test(k: nat, d: nat, cur: nat)
    | Make(k: nat)
    | Swap(k: nat, d: nat, cur: nat, mine: nat)
    | Last(d: nat, cur: nat)
    | Finished
    | Returned(slot: (nat, nat))

  datatype Thread = Thread(req: Request, phase: Phase)

  predicate Done(p: Phase) { p.Finished? || p.Returned? }

  ghost predicate LocalOk(ts: seq<Table>, th: Thread)
    requires Shape(ts)
  {
    var a := th.req.addr;
    && a < ADDRESSES
    && match th.phase
       case Test(k, d, cur) => (k < 3 || (k == 3 && th.req.Reset?)) && d <= k && Opened(ts, a, k) && cur == PathAt(ts, a, d)
       case Make(k) => k < 3 && !th.req.Reset? && Opened(ts, a, k)
       case Swap(k, d, cur, mine) =>
         && k < 3 && !th.req.Reset? && d <= k && Opened(ts, a, k) && cur == PathAt(ts, a, d) && OwnTable(ts, mine, k + 1)
       case Last(d, cur) => d <= 3 && Opened(ts, a, 3) && cur == PathAt(ts, a, d)
       case Finished => true
       case Returned(slot) => Opened(ts, a, 3) && slot == (PathAt(ts, a, 3), Index(a, 3))
  }

  /** A table that was made and that nobody else can reach yet. */
  ghost predicate OwnTable(ts: seq<Table>, x: nat, depth: nat) {
    3 < x < |ts| && ts[x] == BlankTable(depth) && Unborn(ts, x)
  }

  /** Once the slot at depth `k` is known to hold a table of its own. */
  function Next(req: Request, k: nat): Phase {
    if k < 2 || (k == 2 && req.Reset?) then Test(k + 1, 0, 0) else Last(0, 0)
  }

  function Load(ts: seq<Table>, cur: nat, j: nat): nat
    requires cur < |ts| && j < |ts[cur].slots|
  {
    ts[cur].slots[j]
  }

  /** One memory access of a thread. */
  ghost function Step(ts: seq<Table>, th: Thread): (seq<Table>, Phase)
    requires Shape(ts) && LocalOk(ts, th)
  {
    var a := th.req.addr;
    match th.phase
    case Test(k, d, cur) =>
      var v := Load(ts, cur, Index(a, d));
      if d < k then (ts, Test(k, d + 1, v))
      else if v != DefaultSlot(k) then (ts, Next(th.req, k))
      else if th.req.Reset? then (ts, Finished)
      else (ts, Make(k))
    case Make(k) => (ts + [BlankTable(k + 1)], Swap(k, 0, 0, |ts|))
    case Swap(k, d, cur, mine) =>
      var v := Load(ts, cur, Index(a, d));
      if d < k then (ts, Swap(k, d + 1, v, mine))
      else if v == k + 1 then (Set(ts, cur, Index(a, k), mine), Next(th.req, k))
      else (ts, Next(th.req, k))
    case Last(d, cur) =>
      var v := Load(ts, cur, Index(a, d));
      if d < 3 then (ts, Last(d + 1, v)) else
        (match th.req
         case Add(_, code) => (if v == NEXT then Set(ts, cur, Index(a, 3), code) else ts, Finished)
         case Get(_) => (ts, Returned((cur, Index(a, 3))))
         case Reset(_) => (Set(ts, cur, Index(a, 3), NEXT), Finished))
    case Finished => (ts, Finished)
    case Returned(_) => (ts, th.phase)
  }

  /** What a request means for the flat map, at one address. */
  function Meant(req: Request, b: nat, v: nat): nat {
    if b != req.addr then v
    else match req
      case Add(_, code) => if v == NEXT then code else v
      case Get(_) => v
      case Reset(_) => NEXT
  }

  /** A step keeps the tables in order, and touches the flat map only when it completes its request:
      then as if the whole request had run at once. */
  ghost predicate StepGood(ts: seq<Table>, th: Thread, us: seq<Table>, p: Phase)
    requires Shape(ts)
  {
    && TablesOk(us) && Extends(ts, us) && LocalOk(us, Thread(th.req, p))
    && (forall b :: 0 <= b < ADDRESSES ==> Flat(us, b) == if Done(p) && !Done(th.phase) then Meant(th.req, b, Flat(ts, b)) else Flat(ts, b))
    && (forall y, e :: OwnTable(ts, y, e) && !(th.phase.Swap? && th.phase.mine == y) ==> OwnTable(us, y, e))
    && (p.Swap? ==> if th.phase.Swap? then p.mine == th.phase.mine else p.mine == |ts|)
  }

  lemma TablesThere(ts: seq<Table>)
    requires TablesOk(ts)
    ensures |ts| >= 4 && Shape(ts) && Pristine(ts)
  {}

  lemma NothingHappens(ts: seq<Table>, th: Thread, p: Phase)
    requires TablesOk(ts) && LocalOk(ts, Thread(th.req, p))
    requires Done(p) && !Done(th.phase) ==> forall b :: 0 <= b < ADDRESSES ==> Meant(th.req, b, Flat(ts, b)) == Flat(ts, b)
    requires p.Swap? ==> th.phase.Swap? && p.mine == th.phase.mine
    ensures StepGood(ts, th, ts, p)
  {
    hide TablesOk, Extends, LocalOk, Flat, OwnTable, Meant;
    TablesThere(ts);
    ExtendsSelf(ts);
  }

  lemma Deeper(ts: seq<Table>, a: nat, d: nat)
    requires Shape(ts) && d < 3
    ensures PathAt(ts, a, d + 1) == Load(ts, PathAt(ts, a, d), Index(a, d))
    ensures PathAt(ts, a, 0) == 0
  {}

  /** A slot without its default holds a table of its own, and the thread may go on. */
  lemma GoOn(ts: seq<Table>, req: Request, k: nat)
    requires Shape(ts) && req.addr < ADDRESSES && k <= 3 && (k == 3 ==> req.Reset?) && Opened(ts, req.addr, k)
    requires k < 3 ==> Load(ts, PathAt(ts, req.addr, k), Index(req.addr, k)) != k + 1
    ensures LocalOk(ts, Thread(req, Next(req, k)))
  {
    hide Shape, Index;
    if k < 3 {
      Deeper(ts, req.addr, k);
      DefaultOrOwn(ts, req.addr, k + 1);
      OpenedOneMore(ts, req.addr, k);
    }
  }

  lemma TestGood(ts: seq<Table>, th: Thread)
    requires TablesOk(ts) && LocalOk(ts, th) && th.phase.Test?
    ensures StepGood(ts, th, Step(ts, th).0, Step(ts, th).1)
  {
    hide TablesOk, Opened, Index, Flat, StepGood, Shape;
    TablesThere(ts);
    var a := th.req.addr;
    var Test(k, d, cur) := th.phase;
    if d < k {
      Deeper(ts, a, d);
    } else if Load(ts, cur, Index(a, d)) != DefaultSlot(k) {
      GoOn(ts, th.req, k);
    } else if th.req.Reset? {
      AlreadyReset(ts, a, k);
    }
    NothingHappens(ts, th, Step(ts, th).1);
  }

  lemma AlreadyReset(ts: seq<Table>, a: nat, k: nat)
    requires TablesOk(ts) && k <= 3 && Load(ts, PathAt(ts, a, k), Index(a, k)) == DefaultSlot(k)
    ensures Flat(ts, a) == NEXT
  {
    hide Index;
    if k < 3 {
      Deeper(ts, a, k);
      DefaultsFlat(ts, a, k + 1);
    }
  }

  lemma MakeGood(ts: seq<Table>, th: Thread)
    requires TablesOk(ts) && LocalOk(ts, th) && th.phase.Make?
    ensures StepGood(ts, th, Step(ts, th).0, Step(ts, th).1)
  {
    hide TablesOk, Opened, Index, Flat, Shape, Unborn, Extends;
    TablesThere(ts);
    var k := th.phase.k;
    var us := ts + [BlankTable(k + 1)];
    AppendKeeps(ts, k + 1);
    TablesThere(us);
    OpenedStays(ts, us, th.req.addr, k);
    forall b: nat ensures Flat(us, b) == Flat(ts, b) { AppendFlat(ts, BlankTable(k + 1), b); }
    forall y, e | OwnTable(ts, y, e) ensures OwnTable(us, y, e) { AppendOwn(ts, k + 1, y); }
    Deeper(us, th.req.addr, 0);
  }

  lemma AppendOwn(ts: seq<Table>, depth: nat, y: nat)
    requires Unborn(ts, y) && 3 < y < |ts| && 1 <= depth <= 3
    ensures Unborn(ts + [BlankTable(depth)], y)
  {
    var us := ts + [BlankTable(depth)];
    forall i: nat, j: nat ensures !Holds(us, i, j, y) {
      assert i < |ts| && Holds(us, i, j, y) ==> Holds(ts, i, j, y);
    }
  }

  /** What a thread can walk to, another has not just made. */
  lemma WalkedIsBorn(ts: seq<Table>, a: nat, d: nat)
    requires Shape(ts) && d <= 3
    ensures PathAt(ts, a, d) == 0 || !Unborn(ts, PathAt(ts, a, d))
  {
    hide Index;
    if d > 0 {
      assert Holds(ts, PathAt(ts, a, d - 1), Index(a, d - 1), PathAt(ts, a, d));
    }
  }

  lemma SwapGood(ts: seq<Table>, th: Thread)
    requires TablesOk(ts) && LocalOk(ts, th) && th.phase.Swap?
    ensures StepGood(ts, th, Step(ts, th).0, Step(ts, th).1)
  {
    hide TablesOk, Opened, Index, Flat, Shape, Unborn, Extends, StepGood;
    TablesThere(ts);
    var a := th.req.addr;
    var Swap(k, d, cur, mine) := th.phase;
    if d < k {
      Deeper(ts, a, d);
      NothingHappens(ts, th, Step(ts, th).1);
    } else if Load(ts, cur, Index(a, d)) == k + 1 {
      SwapHappens(ts, th);
    } else {
      GoOn(ts, th.req, k);
      NothingHappens(ts, th, Step(ts, th).1);
    }
  }

  lemma SwapHappens(ts: seq<Table>, th: Thread)
    requires TablesOk(ts) && LocalOk(ts, th) && th.phase.Swap? && th.phase.d == th.phase.k
    requires Load(ts, th.phase.cur, Index(th.req.addr, th.phase.d)) == th.phase.k + 1
    ensures StepGood(ts, th, Set(ts, th.phase.cur, Index(th.req.addr, th.phase.k), th.phase.mine), Next(th.req, th.phase.k))
  {
    hide TablesOk, Opened, Index, Flat, Shape, Unborn, Extends;
    TablesThere(ts);
    var a := th.req.addr;
    var Swap(k, d, cur, mine) := th.phase;
    PublishKeeps(ts, a, k, mine);
    var us := Set(ts, cur, Index(a, k), mine);
    TablesThere(us);
    forall b: nat ensures Flat(us, b) == Flat(ts, b) { PublishFlat(ts, a, k, mine, b); }
    WalkedIsBorn(ts, a, k);
    Deeper(us, a, 0);
  }

  lemma LastGood(ts: seq<Table>, th: Thread)
    requires TablesOk(ts) && LocalOk(ts, th) && th.phase.Last?
    ensures StepGood(ts, th, Step(ts, th).0, Step(ts, th).1)
  {
    hide TablesOk, Opened, Index, Shape, Unborn, Extends, StepGood;
    TablesThere(ts);
    var a := th.req.addr;
    var Last(d, cur) := th.phase;
    if d < 3 {
      Deeper(ts, a, d);
      NothingHappens(ts, th, Step(ts, th).1);
    } else if th.req.Get? || (th.req.Add? && Flat(ts, a) != NEXT) {
      NothingHappens(ts, th, Step(ts, th).1);
    } else {
      LeafWritten(ts, th, if th.req.Reset? then NEXT else th.req.code);
    }
  }

  lemma LeafWritten(ts: seq<Table>, th: Thread, v: nat)
    requires TablesOk(ts) && LocalOk(ts, th) && th.phase.Last? && th.phase.d == 3
    requires if th.req.Add? then Flat(ts, th.req.addr) == NEXT && v == th.req.code else th.req.Reset? && v == NEXT
    ensures StepGood(ts, th, Set(ts, th.phase.cur, Index(th.req.addr, 3), v), Finished)
  {
    hide TablesOk, Opened, Index, Flat, Shape, Unborn, Extends;
    TablesThere(ts);
    WriteKeeps(ts, th.req.addr, v);
    WalkedIsBorn(ts, th.req.addr, 3);
    OpenedLeaf(ts, th.req.addr);
    TablesThere(Set(ts, th.phase.cur, Index(th.req.addr, 3), v));
  }

  lemma StepIsGood(ts: seq<Table>, th: Thread)
    requires TablesOk(ts) && LocalOk(ts, th)
    ensures StepGood(ts, th, Step(ts, th).0, Step(ts, th).1)
  {
    hide TablesOk, LocalOk, StepGood, Shape;
    TablesThere(ts);
    match th.phase
    case Test(_, _, _) => TestGood(ts, th);
    case Make(_) => MakeGood(ts, th);
    case Swap(_, _, _, _) => SwapGood(ts, th);
    case Last(_, _) => LastGood(ts, th);
    case Finished => NothingHappens(ts, th, th.phase);
    case Returned(_) => NothingHappens(ts, th, th.phase);
  }

  // ---- all threads

  datatype State = State(tables: seq<Table>, threads: seq<Thread>)

  /** A thread takes a step, or one that is done starts on another request. */
  datatype Event = Go(t: nat) | Start(t: nat, req: Request)

  function First(req: Request): Phase { Test(0, 0, 0) }

  predicate Enabled(s: State, e: Event) {
    e.t < |s.threads| && (e.Start? ==> Done(s.threads[e.t].phase) && e.req.addr < ADDRESSES)
  }

  /** The tables, where every thread is, and no table made by two. */
  ghost predicate Inv(s: State) {
    && TablesOk(s.tables)
    && (forall t :: 0 <= t < |s.threads| ==> LocalOk(s.tables, s.threads[t]))
    && forall t, u :: 0 <= t < u < |s.threads| ==> Apart(s.threads[t].phase, s.threads[u].phase)
  }

  predicate Apart(p: Phase, q: Phase) { p.Swap? && q.Swap? ==> p.mine != q.mine }

  ghost function Apply(s: State, e: Event): State
    requires Inv(s) && Enabled(s, e)
  {
    match e
    case Go(t) =>
      var (us, p) := Step(s.tables, s.threads[t]);
      State(us, s.threads[t := s.threads[t].(phase := p)])
    case Start(t, req) => s.(threads := s.threads[t := Thread(req, First(req))])
  }

  /** Whether `e` completes a request. */
  ghost predicate Completes(s: State, e: Event)
    requires Inv(s) && Enabled(s, e)
  {
    e.Go? && !Done(s.threads[e.t].phase) && Done(Apply(s, e).threads[e.t].phase)
  }

  lemma FreshTables()
    ensures Inv(State([BlankTable(0), BlankTable(1), BlankTable(2), BlankTable(3)], []))
    ensures forall a :: Flat([BlankTable(0), BlankTable(1), BlankTable(2), BlankTable(3)], a) == NEXT
  {
    hide Index;
    var ts := [BlankTable(0), BlankTable(1), BlankTable(2), BlankTable(3)];
    assert forall i :: 0 <= i < 4 ==> ShapeAt(ts, i);
    assert forall i: nat, j: nat, x: nat :: Holds(ts, i, j, x) ==> x <= 3;
    forall a: nat ensures Flat(ts, a) == NEXT {
      assert PathAt(ts, a, 1) == 1;
      DefaultsFlat(ts, a, 1);
    }
  }

  lemma OthersStay(ts: seq<Table>, us: seq<Table>, th: Thread, other: Thread, p: Phase)
    requires TablesOk(ts) && LocalOk(ts, th) && LocalOk(ts, other) && StepGood(ts, th, us, p)
    requires Apart(th.phase, other.phase)
    ensures TablesOk(us) && LocalOk(us, other) && Apart(p, other.phase)
  {
    hide TablesOk, Extends, Flat, Opened, Index, Shape, OwnTable;
    TablesThere(ts);
    TablesThere(us);
    var a := other.req.addr;
    match other.phase
    case Test(k, d, cur) =>
      StaysAt(ts, us, a, k, d);
    case Make(k) =>
      OpenedStays(ts, us, a, k);
    case Swap(k, d, cur, mine) =>
      StaysAt(ts, us, a, k, d);
      OwnInRange(ts, mine, k + 1);
      assert OwnTable(us, mine, k + 1);
    case Last(d, cur) =>
      StaysAt(ts, us, a, 3, d);
    case Finished =>
    case Returned(slot) =>
      OpenedStays(ts, us, a, 3);
  }

  lemma OwnInRange(ts: seq<Table>, x: nat, e: nat)
    requires OwnTable(ts, x, e)
    ensures x < |ts|
  {}

  lemma StaysAt(ts: seq<Table>, us: seq<Table>, a: nat, k: nat, d: nat)
    requires Shape(ts) && Shape(us) && Extends(ts, us) && d <= k <= 3 && Opened(ts, a, k)
    ensures Opened(us, a, k) && PathAt(us, a, d) == PathAt(ts, a, d)
  {
    hide Extends, Shape, Index;
    OpenedStays(ts, us, a, k);
    OpenedStays(ts, us, a, d);
  }

  /** Every step of every thread keeps all this, never writes a shared default, never replaces a table of
      one's own; and the flat map changes only when a request completes, as the request says. */
  lemma ApplyGood(s: State, e: Event)
    requires Inv(s) && Enabled(s, e)
    ensures var r := Apply(s, e);
      && Inv(r) && Extends(s.tables, r.tables)
      && forall b :: 0 <= b < ADDRESSES ==>
           Flat(r.tables, b) == if Completes(s, e) then Meant(s.threads[e.t].req, b, Flat(s.tables, b)) else Flat(s.tables, b)
  {
    hide TablesOk, LocalOk, Extends, Flat, Step, Meant;
    TablesThere(s.tables);
    var r := Apply(s, e);
    match e
    case Go(t) =>
      StepIsGood(s.tables, s.threads[t]);
      TablesThere(r.tables);
      forall u | 0 <= u < |s.threads| && u != t
        ensures LocalOk(r.tables, r.threads[u]) && Apart(r.threads[u].phase, r.threads[t].phase)
      {
        OthersStay(s.tables, r.tables, s.threads[t], s.threads[u], r.threads[t].phase);
      }
    case Start(t, req) =>
      ExtendsSelf(s.tables);
      StartOk(s.tables, req);
  }

  lemma StartOk(ts: seq<Table>, req: Request)
    requires TablesOk(ts) && req.addr < ADDRESSES
    ensures LocalOk(ts, Thread(req, First(req)))
  {}

  // ---- runs

  ghost function Run(s: State, es: seq<Event>): State
    requires Inv(s) && Possible(s, es)
    ensures Inv(Run(s, es))
    decreases |es|, 1
  {
    if es == [] then s
    else
      var r := Run(s, es[..|es| - 1]);
      ApplyGood(r, es[|es| - 1]);
      Apply(r, es[|es| - 1])
  }

  ghost predicate Possible(s: State, es: seq<Event>)
    requires Inv(s)
    decreases |es|, 0
  {
    es == [] || (Possible(s, es[..|es| - 1]) && Enabled(Run(s, es[..|es| - 1]), es[|es| - 1]))
  }

  /** The code at `b` in a flat map on which the requests of a run work one at a time, in the order in
      which they complete. */
  ghost function OneByOne(s: State, es: seq<Event>, b: nat): nat
    requires Inv(s) && Possible(s, es)
    decreases |es|
  {
    if es == [] then Flat(s.tables, b)
    else
      var before := es[..|es| - 1];
      var r, e := Run(s, before), es[|es| - 1];
      var v := OneByOne(s, before, b);
      if Completes(r, e) then Meant(r.threads[e.t].req, b, v) else v
  }

  /** Under every interleaving, the four levels stand for the flat map on which the requests ran one
      by one; what was opened stays. */
  lemma {:induction false} RunsRefine(s: State, es: seq<Event>)
    requires Inv(s) && Possible(s, es)
    ensures Inv(Run(s, es)) && Extends(s.tables, Run(s, es).tables)
    ensures forall b :: 0 <= b < ADDRESSES ==> Flat(Run(s, es).tables, b) == OneByOne(s, es, b)
    decreases |es|
  {
    hide TablesOk, LocalOk, Extends, Flat, Apply, Completes, Meant, Inv, Enabled;
    StateThere(s);
    if es == [] {
      ExtendsSelf(s.tables);
    } else {
      var before := es[..|es| - 1];
      RunsRefine(s, before);
      var r := Run(s, before);
      ApplyGood(r, es[|es| - 1]);
      ExtendsTrans(s.tables, r.tables, Run(s, es).tables);
    }
  }

  lemma StateThere(s: State)
    requires Inv(s)
    ensures |s.tables| >= 4 && Shape(s.tables)
  {}

  /** The slot that was returned for an address is its slot for ever: what is read there later is what
      the flat map says then. */
  lemma SlotForEver(s: State, es: seq<Event>, t: nat)
    requires Inv(s) && Possible(s, es) && t < |s.threads| && s.threads[t].phase.Returned?
    ensures var (x, j), us, a := s.threads[t].phase.slot, Run(s, es).tables, s.threads[t].req.addr;
      && Shape(us) && (x, j) == (PathAt(us, a, 3), Index(a, 3)) && Load(us, x, j) == Flat(us, a)
  {
    hide TablesOk, Extends, Opened, Index, Shape, Run;
    RunsRefine(s, es);
    StateThere(s);
    StateThere(Run(s, es));
    assert LocalOk(s.tables, s.threads[t]);
    OpenedStays(s.tables, Run(s, es).tables, s.threads[t].req.addr, 3);
  }

  // ---- progress

  /** How many steps of its own a thread can still need, whatever the others do. */
  function StepsLeft(p: Phase): nat
    requires match p
             case Test(k, d, _) => d <= k <= 3
             case Make(k) => k < 3
             case Swap(k, d, _, _) => d <= k < 3
             case Last(d, _) => d <= 3
             case Finished => true
             case Returned(_) => true
  {
    match p
    case Test(k, d, _) => 20 * (4 - k) + 10 + k - d
    case Make(k) => 20 * (4 - k) + 9
    case Swap(k, d, _, _) => 20 * (4 - k) + 1 + k - d
    case Last(d, _) => 4 - d
    case Finished => 0
    case Returned(_) => 0
  }

  /** No thread waits for another: each step of its own brings it closer to being done. */
  lemma WaitFree(ts: seq<Table>, th: Thread)
    requires TablesOk(ts) && LocalOk(ts, th) && !Done(th.phase)
    ensures StepsLeft(Step(ts, th).1) < StepsLeft(th.phase) <= 90
  {
    hide TablesOk, Opened, Index, Shape;
    TablesThere(ts);
  }
}
