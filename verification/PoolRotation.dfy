/** Swapping the connection pool under running requests: the mutex, the pools, and the order in
    which each method takes and gives them back. `SetPool` closes the old pool while it holds the
    write lock, and closing waits for the pool's connections. */
module PoolRotation {

  /** What a thread does next. Local stands for work that needs neither lock nor pool. */
  datatype Op =
    | Local
    | RLock | ReadPool               // getPool: RLock; read the field and RUnlock
    | Acquire | Use | Release        // a connection of the pool read last
    | Lock | Locked | Swap           // SetPool: Lock called; Lock returned; new pool installed
    | CloseOld | AwaitOld | Unlock   // old.Close: refuse new acquires; wait for its connections

  /** Where a thread stands between two operations. */
  datatype Phase =
    | Idle | Reading | HasPool | Holding
    | WaitingLock | Writing | Swapped | Closing | ClosedOld

  /** The operation is one the code performs at this point, and leads to the given phase. A thread
      that holds a connection uses it or gives it back; it never asks for the lock. */
  function Follow(phase: Phase, op: Op): seq<Phase> {
    match (phase, op)
    case (Idle, Local) => [Idle]
    case (HasPool, Local) => [Idle]
    case (Idle, RLock) => [Reading]
    case (HasPool, RLock) => [Reading]
    case (Reading, ReadPool) => [HasPool]
    case (HasPool, Acquire) => [Holding]
    case (Holding, Use) => [Holding]
    case (Holding, Release) => [Idle]
    case (Idle, Lock) => [WaitingLock]
    case (WaitingLock, Locked) => [Writing]
    case (Writing, Swap) => [Swapped]
    case (Swapped, CloseOld) => [Closing]
    case (Closing, AwaitOld) => [ClosedOld]
    case (ClosedOld, Unlock) => [Idle]
    case _ => []
  }

  /** A whole method body: every operation in its place, nothing held at the end. */
  predicate Shaped(phase: Phase, ops: seq<Op>)
    decreases |ops|
  {
    if ops == [] then phase == Idle
    else Follow(phase, ops[0]) != [] && Shaped(Follow(phase, ops[0])[0], ops[1..])
  }

  // ---------------------------------------------------------------- the methods of the repository

  function Uses(n: nat): seq<Op> { seq(n, i => Use) }

  /** `r.getPool()` and one query or transaction of `n` statements on the pool it returns. */
  function Round(n: nat): seq<Op> { [RLock, ReadPool, Acquire] + Uses(n) + [Release] }

  /** BEGIN, the order, its items, COMMIT. */
  function CreateOps(items: nat): seq<Op> { Round(items + 3) }

  /** The row query and the items query, each on the pool of its moment. */
  function FetchOps(): seq<Op> { Round(1) + Round(1) }
  function GetOps(): seq<Op> { [Local] + FetchOps() + [Local] }
  function ListOps(): seq<Op> { Round(1) + Round(1) }
  function CancelOps(): seq<Op> { Round(1) + [Local] + FetchOps() }
  function SetPoolOps(): seq<Op> { [Lock, Locked, Swap, CloseOld, AwaitOld, Unlock] }

  lemma {:induction false} UsesThen(n: nat, rest: seq<Op>)
    ensures Shaped(Holding, Uses(n) + [Release] + rest) <==> Shaped(Idle, rest)
  {
    var ops := Uses(n) + [Release] + rest;
    if n == 0 {
      assert ops == [Release] + rest && ops[1..] == rest;
    } else {
      assert ops[1..] == Uses(n - 1) + [Release] + rest;
      UsesThen(n - 1, rest);
    }
  }

  lemma RoundThen(n: nat, rest: seq<Op>)
    ensures Shaped(Idle, Round(n) + rest) <==> Shaped(Idle, rest)
  {
    var ops := Round(n) + rest;
    UsesThen(n, rest);
    assert ops[1..][1..][1..] == Uses(n) + [Release] + rest;
    assert ops[1..][0] == ReadPool && ops[1..][1..][0] == Acquire;
    assert Shaped(Idle, ops) == Shaped(Reading, ops[1..]);
    assert Shaped(Reading, ops[1..]) == Shaped(HasPool, ops[1..][1..]);
    assert Shaped(HasPool, ops[1..][1..]) == Shaped(Holding, ops[1..][1..][1..]);
  }

  lemma LocalThen(rest: seq<Op>)
    ensures Shaped(Idle, [Local] + rest) <==> Shaped(Idle, rest)
  {
    assert ([Local] + rest)[1..] == rest;
  }

  lemma OneRound(n: nat)
    ensures Shaped(Idle, Round(n))
  {
    RoundThen(n, []);
    assert Round(n) + [] == Round(n);
  }

  lemma FetchThen(rest: seq<Op>)
    ensures Shaped(Idle, FetchOps() + rest) <==> Shaped(Idle, rest)
  {
    RoundThen(1, Round(1) + rest);
    RoundThen(1, rest);
    assert FetchOps() + rest == Round(1) + (Round(1) + rest);
  }

  lemma GetIsShaped()
    ensures Shaped(Idle, GetOps())
  {
    LocalThen([]);
    assert [Local] + [] == [Local];
    FetchThen([Local]);
    LocalThen(FetchOps() + [Local]);
    assert GetOps() == [Local] + (FetchOps() + [Local]);
  }

  lemma ListIsShaped()
    ensures Shaped(Idle, ListOps())
  {
    OneRound(1);
    RoundThen(1, Round(1));
  }

  lemma CancelIsShaped()
    ensures Shaped(Idle, CancelOps())
  {
    FetchThen([]);
    assert FetchOps() + [] == FetchOps();
    LocalThen(FetchOps());
    RoundThen(1, [Local] + FetchOps());
    assert CancelOps() == Round(1) + ([Local] + FetchOps());
  }

  lemma ShapedStep(phase: Phase, op: Op, rest: seq<Op>)
    requires Follow(phase, op) != [] && Shaped(Follow(phase, op)[0], rest)
    ensures Shaped(phase, [op] + rest)
  {
    assert ([op] + rest)[1..] == rest;
  }

  lemma SetPoolIsShaped()
    ensures Shaped(Idle, SetPoolOps())
  {
    ShapedStep(ClosedOld, Unlock, []);
    ShapedStep(Closing, AwaitOld, [Unlock]);
    ShapedStep(Swapped, CloseOld, [AwaitOld, Unlock]);
    ShapedStep(Writing, Swap, [CloseOld, AwaitOld, Unlock]);
    ShapedStep(WaitingLock, Locked, [Swap, CloseOld, AwaitOld, Unlock]);
    ShapedStep(Idle, Lock, [Locked, Swap, CloseOld, AwaitOld, Unlock]);
    assert [Unlock] + [] == [Unlock];
    assert [AwaitOld] + [Unlock] == [AwaitOld, Unlock];
    assert [CloseOld] + [AwaitOld, Unlock] == [CloseOld, AwaitOld, Unlock];
    assert [Swap] + [CloseOld, AwaitOld, Unlock] == [Swap, CloseOld, AwaitOld, Unlock];
    assert [Locked] + [Swap, CloseOld, AwaitOld, Unlock] == [Locked, Swap, CloseOld, AwaitOld, Unlock];
    assert [Lock] + [Locked, Swap, CloseOld, AwaitOld, Unlock] == SetPoolOps();
  }

  /** Every method of the repository has the shape, for any number of items. */
  lemma MethodsAreShaped(items: nat)
    ensures Shaped(Idle, CreateOps(items)) && Shaped(Idle, GetOps()) && Shaped(Idle, ListOps())
    ensures Shaped(Idle, CancelOps()) && Shaped(Idle, SetPoolOps())
  {
    OneRound(items + 3);
    GetIsShaped();
    ListIsShaped();
    CancelIsShaped();
    SetPoolIsShaped();
  }

  // ---------------------------------------------------------------- the threads and the pools

  /** `pool` is the pool a request read last, or the one a SetPool has displaced. */
  datatype Thread = Thread(phase: Phase, rest: seq<Op>, pool: nat)

  datatype PoolState = Open | Draining | Closed

  /** Pools are numbered as they were installed; the last one is the repository's. */
  datatype System = System(threads: seq<Thread>, pools: seq<PoolState>, max: nat)

  predicate IsWriter(phase: Phase) { phase in {Writing, Swapped, Closing, ClosedOld} }

  predicate Holds(s: System, t: nat, p: nat) {
    t < |s.threads| && s.threads[t].phase == Holding && s.threads[t].pool == p
  }

  function Held(s: System, p: nat): set<nat> {
    set t | 0 <= t < |s.threads| && Holds(s, t, p)
  }

  predicate NoWriter(s: System) { forall t :: 0 <= t < |s.threads| ==> !IsWriter(s.threads[t].phase) }
  predicate NoReader(s: System) { forall t :: 0 <= t < |s.threads| ==> s.threads[t].phase != Reading }
  predicate NoWaiter(s: System) { forall t :: 0 <= t < |s.threads| ==> s.threads[t].phase != WaitingLock }

  /** Can the thread's next operation return now? A waiting Lock keeps new readers out; an acquire
      on a full pool waits, on a closed one it fails at once. */
  predicate Enabled(s: System, t: nat) {
    t < |s.threads| && s.threads[t].rest != [] && var me := s.threads[t];
    match me.rest[0]
    case RLock => NoWriter(s) && NoWaiter(s)
    case Locked => NoWriter(s) && NoReader(s)
    case Acquire => me.pool < |s.pools| && (s.pools[me.pool] != Open || |Held(s, me.pool)| < s.max)
    case CloseOld => me.pool < |s.pools|
    case AwaitOld => me.pool < |s.pools| && Held(s, me.pool) == {}
    case _ => true
  }

  /** The thread after its next operation. Refused by a closed pool, its method returns an error. */
  function Moved(s: System, t: nat): Thread
    requires Enabled(s, t)
  {
    var me := s.threads[t];
    var op := me.rest[0];
    if Follow(me.phase, op) == [] then me.(rest := [])
    else if op == Acquire && s.pools[me.pool] != Open then Thread(Idle, [], me.pool)
    else Thread(Follow(me.phase, op)[0], me.rest[1..],
                if op == ReadPool || op == Swap then (if |s.pools| > 0 then |s.pools| - 1 else 0) else me.pool)
  }

  function NextPools(s: System, t: nat): seq<PoolState>
    requires Enabled(s, t)
  {
    var me := s.threads[t];
    match me.rest[0]
    case Swap => s.pools + [Open]
    case CloseOld => s.pools[me.pool := Draining]
    case AwaitOld => s.pools[me.pool := Closed]
    case _ => s.pools
  }

  datatype Event =
    | Step(t: nat)
    | Fail(t: nat)                   // an error or a timeout: the method gives back what it holds
    | Spawn(ops: seq<Op>)            // a new request, or the refresher's SetPool

  predicate Possible(s: System, e: Event) {
    match e
    case Step(t) => Enabled(s, t)
    case Fail(t) => t < |s.threads| && |s.threads[t].rest| > 0 && s.threads[t].rest[0] in {Acquire, Use}
    case Spawn(ops) => Shaped(Idle, ops)
  }

  function Do(s: System, e: Event): System
    requires Possible(s, e)
  {
    match e
    case Step(t) => s.(threads := s.threads[t := Moved(s, t)], pools := NextPools(s, t))
    case Fail(t) =>
      var me := s.threads[t];
      s.(threads := s.threads[t := if me.phase == Holding then me.(rest := [Release]) else Thread(Idle, [], me.pool)])
    case Spawn(ops) => s.(threads := s.threads + [Thread(Idle, ops, 0)])
  }

  function Init(max: nat): System { System([], [Open], max) }

  /** Every event of the schedule is possible when its turn comes. */
  predicate Schedule(s: System, events: seq<Event>)
    decreases |events|
  {
    events == [] || (Possible(s, events[0]) && Schedule(Do(s, events[0]), events[1..]))
  }

  function Run(s: System, events: seq<Event>): System
    requires Schedule(s, events)
    decreases |events|
  {
    if events == [] then s else Run(Do(s, events[0]), events[1..])
  }

  // ---------------------------------------------------------------- what every schedule keeps

  ghost predicate ThreadOk(s: System, t: nat) {
    t < |s.threads| ==>
      var me := s.threads[t];
      && Shaped(me.phase, me.rest)
      && me.pool < |s.pools|
      && (me.phase in {Swapped, Closing, ClosedOld} ==> me.pool == |s.pools| - 2)
      && (me.phase == Closing ==> s.pools[me.pool] == Draining)
      && (me.phase == ClosedOld ==> s.pools[me.pool] == Closed)
  }

  /** The writer excludes the readers and the other writers. */
  ghost predicate Exclusive(s: System, t: nat, u: nat) {
    t < |s.threads| && u < |s.threads| && t != u && IsWriter(s.threads[t].phase) ==>
      !IsWriter(s.threads[u].phase) && s.threads[u].phase != Reading
  }

  /** The state of pool `p` follows from where the writer stands. */
  ghost predicate PoolOk(s: System, p: nat) {
    p < |s.pools| ==>
      && (p == |s.pools| - 1 ==> s.pools[p] == Open)
      && (s.pools[p] == Closed ==> Held(s, p) == {})
      && (p < |s.pools| - 1 && s.pools[p] == Open ==> DisplacedBy(s, p, Swapped))
      && (s.pools[p] == Draining ==> DisplacedBy(s, p, Closing))
  }

  ghost predicate DisplacedBy(s: System, p: nat, phase: Phase) {
    exists t :: 0 <= t < |s.threads| && s.threads[t].phase == phase && s.threads[t].pool == p
  }

  ghost predicate Ok(s: System) {
    && |s.pools| > 0 && s.max > 0
    && (forall t: nat :: ThreadOk(s, t))
    && (forall t: nat, u: nat :: Exclusive(s, t, u))
    && (forall p: nat :: PoolOk(s, p))
  }

  lemma ThreadAfter(s: System, e: Event, t: nat)
    requires Ok(s) && Possible(s, e)
    ensures ThreadOk(Do(s, e), t)
  {
    assert ThreadOk(s, t);
    if e.Step? { assert ThreadOk(s, e.t); assert Exclusive(s, e.t, t); }
  }

  lemma ExclusiveAfter(s: System, e: Event, t: nat, u: nat)
    requires Ok(s) && Possible(s, e)
    ensures Exclusive(Do(s, e), t, u)
  {
    assert Exclusive(s, t, u) && ThreadOk(s, t) && ThreadOk(s, u);
  }

  lemma HeldAfter(s: System, e: Event, p: nat)
    requires Ok(s) && Possible(s, e) && p < |s.pools| && s.pools[p] != Open
    ensures Held(Do(s, e), p) <= Held(s, p)
  {
    var s' := Do(s, e);
    forall t | t in Held(s', p) ensures t in Held(s, p) {
      assert ThreadOk(s, t);
      assert Holds(s', t, p);
      assert Holds(s, t, p);
    }
  }

  lemma DisplacedAfter(s: System, e: Event, p: nat, phase: Phase)
    requires Ok(s) && Possible(s, e) && DisplacedBy(s, p, phase) && phase in {Swapped, Closing}
    ensures DisplacedBy(Do(s, e), p, phase)
      || (e.Step? && s.threads[e.t].phase == phase && s.threads[e.t].pool == p
          && s.threads[e.t].rest[0] == if phase == Swapped then CloseOld else AwaitOld)
  {
    var t :| 0 <= t < |s.threads| && s.threads[t].phase == phase && s.threads[t].pool == p;
    assert ThreadOk(s, t);
    var s' := Do(s, e);
    if (e.Spawn? || e.t != t) { assert s'.threads[t] == s.threads[t]; }
  }

  lemma PoolAfter(s: System, e: Event, p: nat)
    requires Ok(s) && Possible(s, e)
    ensures PoolOk(Do(s, e), p)
  {
    var s' := Do(s, e);
    if p < |s'.pools| {
      if e.Step? { assert ThreadOk(s, e.t); }
      if p < |s.pools| {
        assert PoolOk(s, p);
        if s.pools[p] != Open { HeldAfter(s, e, p); }
        if DisplacedBy(s, p, Swapped) { DisplacedAfter(s, e, p, Swapped); }
        if DisplacedBy(s, p, Closing) { DisplacedAfter(s, e, p, Closing); }
        if e.Step? { assert s'.threads[e.t] == Moved(s, e.t); }
      }
    }
  }

  lemma OkAfter(s: System, e: Event)
    requires Ok(s) && Possible(s, e)
    ensures Ok(Do(s, e))
  {
    var s' := Do(s, e);
    forall t: nat ensures ThreadOk(s', t) { ThreadAfter(s, e, t); }
    forall t: nat, u: nat ensures Exclusive(s', t, u) { ExclusiveAfter(s, e, t, u); }
    forall p: nat ensures PoolOk(s', p) { PoolAfter(s, e, p); }
  }

  lemma {:induction false} RunKeepsOk(s: System, events: seq<Event>)
    requires Ok(s) && Schedule(s, events)
    ensures Ok(Run(s, events))
    decreases |events|
  {
    if events != [] {
      OkAfter(s, events[0]);
      RunKeepsOk(Do(s, events[0]), events[1..]);
    }
  }

  lemma InitOk(max: nat)
    requires max > 0
    ensures Ok(Init(max))
  {
    forall p: nat ensures PoolOk(Init(max), p) {}
  }

  // ---------------------------------------------------------------- who owns which pool

  /** A SetPool has displaced pool `p` and not returned. */
  ghost predicate BeingDisplaced(s: System, p: nat) {
    DisplacedBy(s, p, Swapped) || DisplacedBy(s, p, Closing)
  }

  /** In every state of every schedule the repository's pool is open, a displaced pool is closed
      as soon as its SetPool has got past its Close, and no connection is held on a closed pool. */
  lemma PoolOwnership(max: nat, events: seq<Event>, p: nat)
    requires max > 0 && Schedule(Init(max), events)
    ensures var s := Run(Init(max), events);
      && |s.pools| > 0 && s.pools[|s.pools| - 1] == Open
      && (p < |s.pools| - 1 && !BeingDisplaced(s, p) ==> s.pools[p] == Closed)
      && (p < |s.pools| && s.pools[p] == Closed ==> Held(s, p) == {})
  {
    InitOk(max);
    RunKeepsOk(Init(max), events);
    assert PoolOk(Run(Init(max), events), p);
    assert PoolOk(Run(Init(max), events), |Run(Init(max), events).pools| - 1);
  }

  lemma {:induction false} PoolsOnlyGrow(s: System, events: seq<Event>)
    requires Ok(s) && Schedule(s, events)
    ensures |s.pools| <= |Run(s, events).pools|
    decreases |events|
  {
    if events != [] {
      OkAfter(s, events[0]);
      PoolsOnlyGrow(Do(s, events[0]), events[1..]);
    }
  }

  lemma {:induction false} PoolInHandStays(s: System, events: seq<Event>, t: nat)
    requires Ok(s) && Schedule(s, events) && t < |s.threads|
    requires forall i :: 0 <= i < |events| ==> events[i] != Step(t) && events[i] != Fail(t)
    ensures t < |Run(s, events).threads| && Run(s, events).threads[t] == s.threads[t]
    decreases |events|
  {
    if events != [] {
      OkAfter(s, events[0]);
      PoolInHandStays(Do(s, events[0]), events[1..], t);
    }
  }

  /** A request that reads the pool and is later refused because that pool is no longer open has
      been overtaken by a swap: pools were installed between its getPool and its acquire. */
  lemma RefusedOnlyAfterASwap(s: System, t: nat, events: seq<Event>)
    requires Ok(s) && Enabled(s, t) && s.threads[t].rest[0] == ReadPool
    requires Schedule(Do(s, Step(t)), events)
    requires forall i :: 0 <= i < |events| ==> events[i] != Step(t) && events[i] != Fail(t)
    ensures var s' := Run(Do(s, Step(t)), events);
      && t < |s'.threads| && s'.threads[t].pool < |s'.pools|
      && (s'.pools[s'.threads[t].pool] != Open ==> |s'.pools| > |s.pools|)
  {
    assert ThreadOk(s, t);
    var s1 := Do(s, Step(t));
    OkAfter(s, Step(t));
    PoolInHandStays(s1, events, t);
    PoolsOnlyGrow(s1, events);
    RunKeepsOk(s1, events);
    var s' := Run(s1, events);
    assert ThreadOk(s', t) && PoolOk(s', s'.threads[t].pool);
  }

  /** An acquire that returns has a connection of the pool that the request read last exactly if
      that pool is open, and otherwise ends the request; no other thread notices. */
  lemma AcquireExactly(s: System, t: nat)
    requires Ok(s) && Enabled(s, t) && s.threads[t].rest[0] == Acquire
    ensures var s', p := Do(s, Step(t)), s.threads[t].pool;
      && p < |s.pools| && s'.pools == s.pools
      && (s.pools[p] == Open ==> s'.threads[t] == Thread(Holding, s.threads[t].rest[1..], p))
      && (s.pools[p] != Open ==> s'.threads[t] == Thread(Idle, [], p))
      && (Held(s', p) == if s.pools[p] == Open then Held(s, p) + {t} else Held(s, p))
      && |Held(s', p)| <= |Held(s, p)| + 1
      && (s.pools[p] == Open ==> |Held(s, p)| < s.max)
  {
    var s', p := Do(s, Step(t)), s.threads[t].pool;
    assert ThreadOk(s, t);
    forall u: nat ensures u in Held(s', p) <==> u in Held(s, p) || (u == t && s.pools[p] == Open) {
      assert Holds(s', u, p) <==> Holds(s, u, p) || (u == t && s.pools[p] == Open);
    }
  }

  // ---------------------------------------------------------------- no deadlock

  predicate AllDone(s: System) { forall t :: 0 <= t < |s.threads| ==> s.threads[t].rest == [] }

  lemma HolderCanStep(s: System, t: nat)
    requires Ok(s) && t < |s.threads| && s.threads[t].phase == Holding
    ensures Enabled(s, t)
  {
    assert ThreadOk(s, t);
  }

  lemma NobodyHolds(s: System, p: nat)
    requires forall t :: 0 <= t < |s.threads| ==> s.threads[t].phase != Holding
    ensures Held(s, p) == {}
  {}

  lemma WriterCanStep(s: System, t: nat)
    requires Ok(s) && t < |s.threads| && IsWriter(s.threads[t].phase)
    requires forall u :: 0 <= u < |s.threads| ==> s.threads[u].phase != Holding
    ensures Enabled(s, t)
  {
    assert ThreadOk(s, t);
    NobodyHolds(s, s.threads[t].pool);
  }

  lemma ReaderCanStep(s: System, t: nat)
    requires Ok(s) && t < |s.threads| && s.threads[t].phase == Reading
    ensures Enabled(s, t)
  {
    assert ThreadOk(s, t);
  }

  lemma OtherCanStep(s: System, t: nat)
    requires Ok(s) && t < |s.threads| && s.threads[t].rest != []
    requires forall u :: 0 <= u < |s.threads| ==> s.threads[u].phase != Holding
    requires NoWriter(s) && NoReader(s) && (NoWaiter(s) || s.threads[t].phase == WaitingLock)
    ensures Enabled(s, t)
  {
    assert ThreadOk(s, t);
    NobodyHolds(s, s.threads[t].pool);
  }

  /** While anything is left to do, somebody can go on: a connection holder first, else the
      writer, else a reader, else the next SetPool, else anyone. */
  lemma NoDeadlock(s: System) returns (t: nat)
    requires Ok(s) && !AllDone(s)
    ensures Enabled(s, t)
  {
    if h :| 0 <= h < |s.threads| && s.threads[h].phase == Holding {
      HolderCanStep(s, h);
      return h;
    }
    if w :| 0 <= w < |s.threads| && IsWriter(s.threads[w].phase) {
      WriterCanStep(s, w);
      return w;
    }
    if r :| 0 <= r < |s.threads| && s.threads[r].phase == Reading {
      ReaderCanStep(s, r);
      return r;
    }
    if q :| 0 <= q < |s.threads| && s.threads[q].phase == WaitingLock {
      assert ThreadOk(s, q);
      OtherCanStep(s, q);
      return q;
    }
    t :| 0 <= t < |s.threads| && s.threads[t].rest != [];
    OtherCanStep(s, t);
  }

  // ---------------------------------------------------------------- everything finishes

  /** The operations left. */
  function Work(threads: seq<Thread>): nat {
    if threads == [] then 0 else |threads[0].rest| + Work(threads[1..])
  }

  lemma {:induction false} WorkOfUpdate(threads: seq<Thread>, t: nat, me: Thread)
    requires t < |threads|
    ensures Work(threads[t := me]) + |threads[t].rest| == Work(threads) + |me.rest|
  {
    if t == 0 {
      assert threads[t := me][1..] == threads[1..];
    } else {
      assert threads[t := me][1..] == threads[1..][t - 1 := me];
      WorkOfUpdate(threads[1..], t - 1, me);
    }
  }

  lemma StepsAreProgress(s: System, e: Event)
    requires Ok(s) && Possible(s, e) && !e.Spawn?
    ensures Work(Do(s, e).threads) < Work(s.threads)
  {
    assert ThreadOk(s, e.t);
    var me := Do(s, e).threads[e.t];
    assert Do(s, e).threads == s.threads[e.t := me];
    WorkOfUpdate(s.threads, e.t, me);
    if e.Fail? && s.threads[e.t].phase == Holding { UseIsNotLast(s.threads[e.t]); }
  }

  lemma UseIsNotLast(me: Thread)
    requires me.phase == Holding && Shaped(me.phase, me.rest) && me.rest != [] && me.rest[0] == Use
    ensures |me.rest| > 1
  {
    assert Shaped(Holding, me.rest[1..]);
  }

  lemma {:induction false} WorkOfSpawn(threads: seq<Thread>, me: Thread)
    ensures Work(threads + [me]) == Work(threads) + |me.rest|
  {
    if threads == [] {
      assert [me][1..] == [];
    } else {
      assert (threads + [me])[1..] == threads[1..] + [me];
      WorkOfSpawn(threads[1..], me);
    }
  }

  /** The operations that a schedule's new requests and SetPools bring in. */
  function Spawned(events: seq<Event>): nat {
    if events == [] then 0
    else (if events[0].Spawn? then |events[0].ops| else 0) + Spawned(events[1..])
  }

  /** The events of a schedule that are not starts. */
  function Moves(events: seq<Event>): nat {
    if events == [] then 0
    else (if events[0].Spawn? then 0 else 1) + Moves(events[1..])
  }

  lemma OneEvent(s: System, e: Event)
    requires Ok(s) && Possible(s, e)
    ensures Moves([e]) + Work(Do(s, e).threads) <= Work(s.threads) + Spawned([e])
  {
    if e.Spawn? {
      WorkOfSpawn(s.threads, Thread(Idle, e.ops, 0));
    } else {
      StepsAreProgress(s, e);
    }
    assert [e][1..] == [];
  }

  /** Whatever the schedule, and whoever joins on the way: there are no more steps than operations
      to do, and when no more step is possible, every request and every SetPool has returned. */
  lemma {:induction false} EveryScheduleCompletes(s: System, events: seq<Event>)
    requires Ok(s) && Schedule(s, events)
    ensures Moves(events) + Work(Run(s, events).threads) <= Work(s.threads) + Spawned(events)
    ensures (forall t: nat :: !Enabled(Run(s, events), t)) ==> AllDone(Run(s, events))
    decreases |events|
  {
    if events == [] {
      if !AllDone(s) { var t := NoDeadlock(s); }
    } else {
      OkAfter(s, events[0]);
      OneEvent(s, events[0]);
      assert [events[0]][1..] == [];
      EveryScheduleCompletes(Do(s, events[0]), events[1..]);
    }
  }

  // ---------------------------------------------------------------- the wait of SetPool

  /** While a SetPool waits in Close, nobody new gets a connection of its pool, whatever else
      starts and runs; and each holder can go on. */
  lemma WaitOnlyShrinks(s: System, w: nat, e: Event)
    requires Ok(s) && Possible(s, e)
    requires w < |s.threads| && s.threads[w].phase == Closing
    ensures Held(Do(s, e), s.threads[w].pool) <= Held(s, s.threads[w].pool)
    ensures forall h :: h in Held(s, s.threads[w].pool) ==> Enabled(s, h)
    ensures Held(s, s.threads[w].pool) == {} ==> Enabled(s, w)
  {
    var p := s.threads[w].pool;
    assert ThreadOk(s, w);
    HeldAfter(s, e, p);
    forall h | h in Held(s, p) ensures Enabled(s, h) { HolderCanStep(s, h); }
  }

  lemma WriterStays(s: System, w: nat, h: nat)
    requires Ok(s) && w < |s.threads| && s.threads[w].phase == Closing
    requires h < |s.threads| && s.threads[h].phase == Holding
    ensures Enabled(s, h)
    ensures var s' := Do(s, Step(h));
      w < |s'.threads| && s'.threads[w] == s.threads[w] && Work(s'.threads) < Work(s.threads)
  {
    HolderCanStep(s, h);
    StepsAreProgress(s, Step(h));
  }

  lemma WriterFinishes(s: System, w: nat)
    requires Ok(s) && w < |s.threads| && s.threads[w].phase == Closing && Held(s, s.threads[w].pool) == {}
    ensures Schedule(s, [Step(w), Step(w)])
    ensures var s' := Run(s, [Step(w), Step(w)]);
      w < |s'.threads| && s'.threads[w].phase == Idle && NoWriter(s') && NoReader(s')
  {
    assert ThreadOk(s, w);
    var s1 := Do(s, Step(w));
    OkAfter(s, Step(w));
    assert ThreadOk(s1, w);
    var s2 := Do(s1, Step(w));
    assert [Step(w), Step(w)][1..] == [Step(w)] && [Step(w)][1..] == [];
    assert Schedule(s2, []) && Schedule(s1, [Step(w)]);
    assert Run(s, [Step(w), Step(w)]) == Run(s1, [Step(w)]) == Run(s2, []) == s2;
    forall t | 0 <= t < |s2.threads| && t != w
      ensures !IsWriter(s2.threads[t].phase) && s2.threads[t].phase != Reading
    {
      assert Exclusive(s, w, t);
    }
  }

  /** A waiting SetPool needs nobody but the holders of the old pool's connections: when each of
      them goes on, it returns, the lock is free, and every waiting getPool may proceed. */
  lemma {:induction false} HoldersLetSetPoolReturn(s: System, w: nat) returns (events: seq<Event>)
    requires Ok(s) && w < |s.threads| && s.threads[w].phase == Closing
    ensures Schedule(s, events) && |events| <= Work(s.threads)
    ensures forall e :: e in events ==> e.Step? && (e.t == w || e.t in Held(s, s.threads[w].pool))
    ensures var s' := Run(s, events);
      w < |s'.threads| && s'.threads[w].phase == Idle && NoWriter(s') && NoReader(s')
    decreases Work(s.threads)
  {
    var p := s.threads[w].pool;
    if Held(s, p) == {} {
      events := [Step(w), Step(w)];
      WriterFinishes(s, w);
      ClosingWork(s, w);
    } else {
      var h :| h in Held(s, p);
      WriterStays(s, w, h);
      WaitOnlyShrinks(s, w, Step(h));
      OkAfter(s, Step(h));
      var s1 := Do(s, Step(h));
      var more := HoldersLetSetPoolReturn(s1, w);
      events := [Step(h)] + more;
      assert events[1..] == more;
    }
  }

  lemma {:induction false} WorkAtLeast(threads: seq<Thread>, t: nat)
    requires t < |threads|
    ensures Work(threads) >= |threads[t].rest|
  {
    if t > 0 { WorkAtLeast(threads[1..], t - 1); }
  }

  lemma ClosingWork(s: System, w: nat)
    requires Ok(s) && w < |s.threads| && s.threads[w].phase == Closing
    ensures Work(s.threads) >= 2
  {
    assert ThreadOk(s, w);
    WorkAtLeast(s.threads, w);
    var rest := s.threads[w].rest;
    assert rest != [] && Shaped(ClosedOld, rest[1..]);
  }

  // ---------------------------------------------------------------- why the shape matters

  /** What is left for a request that asks for the pool again while it holds a connection. */
  function GreedyTail(): seq<Op> { [RLock, ReadPool, Acquire, Use, Release, Release] }

  function GreedyOps(): seq<Op> { [RLock] + ([ReadPool] + ([Acquire] + GreedyTail())) }

  /** A greedy request and a SetPool among others that have not yet begun. */
  function Trio(greedy: Thread, writer: Thread, others: nat, pools: seq<PoolState>, max: nat): System {
    System([greedy, writer] + seq(others, i => Thread(Idle, Round(1), 0)), pools, max)
  }

  /** The greedy request gets its connection, then SetPool gets the lock. */
  function GreedySchedule(): seq<Event> {
    [Step(0), Step(0), Step(0), Step(1), Step(1), Step(1), Step(1)]
  }

  lemma StepThen(s: System, t: nat, s': System, rest: seq<Event>)
    requires Enabled(s, t) && Do(s, Step(t)) == s' && Schedule(s', rest)
    ensures Schedule(s, [Step(t)] + rest) && Run(s, [Step(t)] + rest) == Run(s', rest)
  {
    assert ([Step(t)] + rest)[1..] == rest;
  }

  /** One step of the greedy request before SetPool begins, */
  lemma GreedyStep(op: Op, tail: seq<Op>, phase: Phase, next: Phase, writer: Thread, others: nat, max: nat)
    requires max > 0 && op in {RLock, ReadPool, Acquire} && Follow(phase, op) == [next] && phase != Holding
    requires writer.phase == Idle
    ensures var s, s' := Trio(Thread(phase, [op] + tail, 0), writer, others, [Open], max),
                         Trio(Thread(next, tail, 0), writer, others, [Open], max);
      Enabled(s, 0) && Do(s, Step(0)) == s'
  {
    var s := Trio(Thread(phase, [op] + tail, 0), writer, others, [Open], max);
    var s' := Trio(Thread(next, tail, 0), writer, others, [Open], max);
    assert s.threads[0].rest[1..] == tail;
    NobodyHolds(s, 0);
    assert s.threads[0 := Thread(next, tail, 0)] == s'.threads;
  }

  /** and one step of SetPool while the greedy request holds its connection. */
  lemma WriterStep(op: Op, tail: seq<Op>, phase: Phase, next: Phase, others: nat,
                   pools: seq<PoolState>, pools': seq<PoolState>, max: nat)
    requires op in {Lock, Locked, Swap, CloseOld} && Follow(phase, op) == [next]
    requires |pools| > 0 && (op != CloseOld ==> |pools| == 1)
    requires pools' == if op == Swap then pools + [Open] else if op == CloseOld then pools[0 := Draining] else pools
    ensures var greedy := Thread(Holding, GreedyTail(), 0);
      var s, s' := Trio(greedy, Thread(phase, [op] + tail, 0), others, pools, max),
                   Trio(greedy, Thread(next, tail, 0), others, pools', max);
      Enabled(s, 1) && Do(s, Step(1)) == s'
  {
    var greedy := Thread(Holding, GreedyTail(), 0);
    var s := Trio(greedy, Thread(phase, [op] + tail, 0), others, pools, max);
    var s' := Trio(greedy, Thread(next, tail, 0), others, pools', max);
    assert s.threads[1].rest[1..] == tail;
    assert s.threads[1 := Thread(next, tail, 0)] == s'.threads;
  }

  lemma GreedyRuns(writer: Thread, others: nat, max: nat, rest: seq<Event>)
    requires max > 0 && writer.phase == Idle
    requires Schedule(Trio(Thread(Holding, GreedyTail(), 0), writer, others, [Open], max), rest)
    ensures var s, s' := Trio(Thread(Idle, GreedyOps(), 0), writer, others, [Open], max),
                         Trio(Thread(Holding, GreedyTail(), 0), writer, others, [Open], max);
      var events := [Step(0)] + ([Step(0)] + ([Step(0)] + rest));
      Schedule(s, events) && Run(s, events) == Run(s', rest)
  {
    var two := [Acquire] + GreedyTail();
    var one := [ReadPool] + two;
    var s1 := Trio(Thread(Reading, one, 0), writer, others, [Open], max);
    var s2 := Trio(Thread(HasPool, two, 0), writer, others, [Open], max);
    GreedyStep(Acquire, GreedyTail(), HasPool, Holding, writer, others, max);
    StepThen(s2, 0, Trio(Thread(Holding, GreedyTail(), 0), writer, others, [Open], max), rest);
    GreedyStep(ReadPool, two, Reading, HasPool, writer, others, max);
    StepThen(s1, 0, s2, [Step(0)] + rest);
    GreedyStep(RLock, one, Idle, Reading, writer, others, max);
    StepThen(Trio(Thread(Idle, GreedyOps(), 0), writer, others, [Open], max), 0, s1, [Step(0)] + ([Step(0)] + rest));
  }

  function HeldBy(writer: Thread, others: nat, pools: seq<PoolState>, max: nat): System {
    Trio(Thread(Holding, GreedyTail(), 0), writer, others, pools, max)
  }

  lemma SetPoolGetsTheLock(others: nat, max: nat, rest: seq<Event>)
    requires Schedule(HeldBy(Thread(Writing, [Swap] + ([CloseOld] + [AwaitOld, Unlock]), 0), others, [Open], max), rest)
    ensures var s, s' := HeldBy(Thread(Idle, SetPoolOps(), 0), others, [Open], max),
                         HeldBy(Thread(Writing, [Swap] + ([CloseOld] + [AwaitOld, Unlock]), 0), others, [Open], max);
      var events := [Step(1)] + ([Step(1)] + rest);
      Schedule(s, events) && Run(s, events) == Run(s', rest)
  {
    var two := [Swap] + ([CloseOld] + [AwaitOld, Unlock]);
    var one := [Locked] + two;
    assert SetPoolOps() == [Lock] + one;
    var s1 := HeldBy(Thread(WaitingLock, one, 0), others, [Open], max);
    WriterStep(Locked, two, WaitingLock, Writing, others, [Open], [Open], max);
    StepThen(s1, 1, HeldBy(Thread(Writing, two, 0), others, [Open], max), rest);
    WriterStep(Lock, one, Idle, WaitingLock, others, [Open], [Open], max);
    StepThen(HeldBy(Thread(Idle, SetPoolOps(), 0), others, [Open], max), 1, s1, [Step(1)] + rest);
  }

  lemma SetPoolSwaps(others: nat, max: nat)
    ensures var s, s' := HeldBy(Thread(Writing, [Swap] + ([CloseOld] + [AwaitOld, Unlock]), 0), others, [Open], max),
                         HeldBy(Thread(Closing, [AwaitOld, Unlock], 0), others, [Draining, Open], max);
      var events := [Step(1)] + ([Step(1)] + []);
      Schedule(s, events) && Run(s, events) == s'
  {
    var three := [CloseOld] + [AwaitOld, Unlock];
    var s3 := HeldBy(Thread(Swapped, three, 0), others, [Open, Open], max);
    var s4 := HeldBy(Thread(Closing, [AwaitOld, Unlock], 0), others, [Draining, Open], max);
    WriterStep(CloseOld, [AwaitOld, Unlock], Swapped, Closing, others, [Open, Open], [Draining, Open], max);
    StepThen(s3, 1, s4, []);
    WriterStep(Swap, three, Writing, Swapped, others, [Open], [Open, Open], max);
    StepThen(HeldBy(Thread(Writing, [Swap] + three, 0), others, [Open], max), 1, s3, [Step(1)] + []);
  }

  lemma Stuck(others: nat, max: nat)
    ensures var s := Trio(Thread(Holding, GreedyTail(), 0), Thread(Closing, [AwaitOld, Unlock], 0), others,
                          [Draining, Open], max);
      !AllDone(s) && forall t: nat :: !Enabled(s, t)
  {
    var s := Trio(Thread(Holding, GreedyTail(), 0), Thread(Closing, [AwaitOld, Unlock], 0), others,
                  [Draining, Open], max);
    assert s.threads[0].rest[0] == RLock && s.threads[1].rest[0] == AwaitOld;
    assert Holds(s, 0, 0) && 0 in Held(s, 0);
    assert !NoWriter(s);
    forall t: nat | t < |s.threads| ensures !Enabled(s, t) {
      if t >= 2 { assert s.threads[t] == Thread(Idle, Round(1), 0); }
    }
  }

  lemma GreedyIsNotShaped()
    ensures !Shaped(Idle, GreedyOps())
  {
    var two := [Acquire] + GreedyTail();
    var one := [ReadPool] + two;
    assert GreedyOps()[1..] == one && one[1..] == two && two[1..] == GreedyTail();
    assert !Shaped(Holding, GreedyTail());
    assert !Shaped(HasPool, two);
    assert !Shaped(Reading, one);
  }

  /** A request that asked for the pool again while holding a connection could stop everything:
      on this schedule SetPool waits for its connection, it waits for SetPool's lock, and so does
      everyone else. */
  lemma AskingWhileHoldingDeadlocks(max: nat, others: nat)
    requires max > 0
    ensures !Shaped(Idle, GreedyOps())
    ensures var s := Trio(Thread(Idle, GreedyOps(), 0), Thread(Idle, SetPoolOps(), 0), others, [Open], max);
      && Schedule(s, GreedySchedule())
      && var stuck := Run(s, GreedySchedule());
         !AllDone(stuck) && forall t: nat :: !Enabled(stuck, t)
  {
    var last := [Step(1)] + ([Step(1)] + []);
    var rest := [Step(1)] + ([Step(1)] + last);
    GreedyIsNotShaped();
    SetPoolSwaps(others, max);
    SetPoolGetsTheLock(others, max, last);
    GreedyRuns(Thread(Idle, SetPoolOps(), 0), others, max, rest);
    Stuck(others, max);
    assert GreedySchedule() == [Step(0)] + ([Step(0)] + ([Step(0)] + rest));
  }

  // ---------------------------------------------------------------- the method itself

  class Pool {
    var closed: bool
    var held: nat

    constructor ()
      ensures !closed && held == 0
    {
      closed, held := false, 0;
    }

    /** Refuses new acquires from now on. It returns only if the holders give back, while it
        waits, as many connections as are in use: `released` is how many they give back. */
    method Close(released: nat) returns (returned: bool)
      modifies this
      ensures closed && held == if released < old(held) then old(held) - released else 0
      ensures returned <==> old(held) <= released
    {
      closed := true;
      held := if released < held then held - released else 0;
      returned := held == 0;
    }
  }

  class PoolOwner {
    var pool: Pool?
    var locked: bool

    constructor (pool: Pool?)
      ensures this.pool == pool && !locked
    {
      this.pool, this.locked := pool, false;
    }

    /** The pool given is the repository's at once. The lock is free again exactly if the holders
        of the displaced pool give all its connections back, and then that pool is closed with
        none in use. Handing in the pool already in place would close it. */
    method SetPool(pool: Pool?, released: nat)
      requires !locked
      modifies this, this.pool
      ensures this.pool == pool
      ensures locked <==> old(this.pool) != null && released < old(this.pool.held)
      ensures old(this.pool) != null ==> old(this.pool).closed
      ensures old(this.pool) != null && !locked ==> old(this.pool).held == 0
      ensures pool != null && pool != old(this.pool) ==> pool.closed == old(pool.closed) && pool.held == old(pool.held)
    {
      locked := true;
      var displaced := this.pool;
      this.pool := pool;
      var returned := true;
      if displaced != null {
        returned := displaced.Close(released);
      }
      if returned {
        locked := false;
      }
    }
  }
}
