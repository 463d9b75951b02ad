/** The order service as a transition system. Any number of CreateOrder, GetOrder and CancelOrder
    calls are in flight; one action is one statement, one cache command, one remote call, or one
    event of the environment. Nothing is locked between the actions of a call, so every
    interleaving is a sequence of actions. An action that is not enabled changes nothing. */
module OrderSystem {
  import opened OrderModel
  import Text

  /** The database, the cache, and the user service's users. */
  datatype World = World(now: nat, tables: Tables, cache: map<string, Cached>, users: set<string>)

  datatype Fetcher = ForGet | ForCancel

  /** Where a call stands. `begun`, `readAt`, `wroteAt`, `doneAt` and `seenAt` are indices into
      the history; no action depends on them. */
  datatype Call =
    | Lookup(id: string, begun: nat)                              // GetOrder, before the cache GET
    | Fetch(who: Fetcher, id: string, begun: nat)                 // getFromDB, before the row query
    | Join(who: Fetcher, id: string, begun: nat, row: OrderRow, readAt: nat) // before the items query
    | Fill(id: string, begun: nat, order: Order, readAt: nat)     // GetOrder, before the cache SET
    | Updating(id: string, begun: nat)                            // CancelOrder, before the UPDATE
    | Deleting(id: string, begun: nat)                            // CancelOrder, before the cache DEL
    | Checking(userId: string, items: seq<Item>, begun: nat)      // CreateOrder, before GetUser
    | Opening(userId: string, items: seq<Item>, begun: nat, seenAt: nat) // before BEGIN and the INSERT
    | Writing(userId: string, items: seq<Item>, begun: nat, seenAt: nat,
              id: string, row: OrderRow, written: seq<ItemRow>)   // inside the transaction
    | GetDone(id: string, begun: nat, reply: Reply, readAt: nat, wroteAt: nat, doneAt: nat)
    | CancelDone(id: string, begun: nat, reply: Reply, updated: bool, readAt: nat)
    | CreateDone(userId: string, items: seq<Item>, reply: Reply)

  /** Which row read and which SET a cache entry comes from. */
  datatype Origin = Origin(readAt: nat, wroteAt: nat)

  /** When the call behind an order began, saw its user, and committed, and what it asked for. */
  datatype Birth = Birth(begun: nat, seenAt: nat, committedAt: nat, items: seq<Item>)

  /** What happened so far; no action depends on it. `past[i]` is the world before action `i`.
      An id is leaked when an UPDATE of it took effect and its DEL failed, or was never sent
      because the reply was lost or the process died. */
  datatype History = History(
    past: seq<World>, firstUpdate: map<string, nat>, lastDel: map<string, nat>, leaked: set<string>,
    origin: map<string, Origin>, born: map<string, Birth>)

  datatype State = State(w: World, calls: map<nat, Call>, h: History)

  datatype Action =
    | Tick(d: nat)
    | Evict(id: string)
    | AddUser(user: string)
    | RemoveUser(user: string)
    | Crash(c: nat)
    | BeginGet(c: nat, id: string)
    | BeginCancel(c: nat, id: string)
    | BeginCreate(c: nat, userId: string, items: seq<Item>)
    | CacheGet(c: nat, ok: bool)
    | ReadRow(c: nat, ok: bool)
    | ReadItems(c: nat, ok: bool, rows: seq<Item>)
    | CacheSet(c: nat, ok: bool)
    | Update(c: nat, outcome: Outcome)
    | Del(c: nat, ok: bool)
    | CheckUser(c: nat, ok: bool)
    | InsertOrder(c: nat, id: string, ok: bool)
    | InsertItem(c: nat, ok: bool)
    | Commit(c: nat, outcome: Outcome)

  function Init(): State {
    State(World(0, Tables(map[], []), map[], {}), map[], History([], map[], map[], {}, map[], map[]))
  }

  /** The index of the action being performed. */
  function At(s: State): nat { |s.h.past| }

  // ---------------------------------------------------------------- the four writes

  /** The UPDATE finds its row and takes effect. */
  predicate Cancels(s: State, a: Action) {
    a.Update? && a.c in s.calls && var k := s.calls[a.c];
    k.Updating? && !a.outcome.NotApplied? && k.id in s.w.tables.orders
  }

  /** The COMMIT takes effect; the primary key admits an id once. */
  predicate Commits(s: State, a: Action) {
    a.Commit? && a.c in s.calls && var k := s.calls[a.c];
    k.Writing? && |k.written| >= |k.items| && !a.outcome.NotApplied? && k.id !in s.w.tables.orders
  }

  predicate Fills(s: State, a: Action) {
    a.CacheSet? && a.ok && a.c in s.calls && s.calls[a.c].Fill?
  }

  predicate Deletes(s: State, a: Action) {
    a.Del? && a.ok && a.c in s.calls && s.calls[a.c].Deleting?
  }

  function NextTables(s: State, a: Action): Tables {
    if Cancels(s, a) then CancelRow(s.w.tables, s.calls[a.c].id)
    else if Commits(s, a) then
      CommitOrder(s.w.tables, s.calls[a.c].id, s.calls[a.c].row, s.calls[a.c].written)
    else s.w.tables
  }

  function NextCache(s: State, a: Action): map<string, Cached> {
    if Fills(s, a) then CachePut(s.w.cache, s.calls[a.c].order, s.w.now)
    else if Deletes(s, a) then CacheDrop(s.w.cache, s.calls[a.c].id)
    else if a.Evict? then CacheDrop(s.w.cache, a.id)
    else s.w.cache
  }

  function NextWorld(s: State, a: Action): World {
    World(if a.Tick? then s.w.now + a.d else s.w.now,
          NextTables(s, a),
          NextCache(s, a),
          if a.AddUser? then s.w.users + {a.user}
          else if a.RemoveUser? then s.w.users - {a.user}
          else s.w.users)
  }

  // ---------------------------------------------------------------- the calls

  /** How a read that ends without an order is reported. */
  function EndRead(s: State, k: Call, reply: Reply): Call
    requires k.Fetch? || k.Join?
  {
    if k.who == ForGet then GetDone(k.id, k.begun, reply, At(s), At(s), At(s))
    else CancelDone(k.id, k.begun, reply, true, At(s))
  }

  function OriginOf(s: State, id: string): Origin {
    if id in s.h.origin then s.h.origin[id] else Origin(0, 0)
  }

  /** A cache error counts as a miss. */
  function AfterCacheGet(s: State, k: Call, ok: bool): Call
    requires k.Lookup?
  {
    var hit := CacheLookup(s.w.cache, k.id, s.w.now);
    if ok && hit.Some? then
      GetDone(k.id, k.begun, Found(hit.value), OriginOf(s, k.id).readAt, OriginOf(s, k.id).wroteAt, At(s))
    else Fetch(ForGet, k.id, k.begun)
  }

  function AfterReadRow(s: State, k: Call, ok: bool): Call
    requires k.Fetch?
  {
    if !ok then EndRead(s, k, Failed)
    else if k.id !in s.w.tables.orders then EndRead(s, k, NotFound)
    else Join(k.who, k.id, k.begun, s.w.tables.orders[k.id], At(s))
  }

  /** The query may return the items in any order; other results are not possible. */
  ghost function AfterReadItems(s: State, k: Call, ok: bool, rows: seq<Item>): Call
    requires k.Join?
  {
    if !ok then EndRead(s, k, Failed)
    else if multiset(rows) != multiset(ItemsOf(s.w.tables.items, k.id)) then k
    else if k.who == ForGet then Fill(k.id, k.begun, BuildOrder(k.id, k.row, rows), k.readAt)
    else CancelDone(k.id, k.begun, Found(BuildOrder(k.id, k.row, rows)), true, k.readAt)
  }

  function AfterUpdate(s: State, k: Call, outcome: Outcome): Call
    requires k.Updating?
  {
    if k.id !in s.w.tables.orders && outcome.Applied? then CancelDone(k.id, k.begun, NotFound, false, At(s))
    else if outcome.Applied? then Deleting(k.id, k.begun)
    else CancelDone(k.id, k.begun, Failed, outcome.ReplyLost? && k.id in s.w.tables.orders, At(s))
  }

  /** The validations of CreateOrder. */
  predicate ValidRequest(userId: string, items: seq<Item>) {
    Text.TrimSpace(userId) != "" && items != [] && forall i :: 0 <= i < |items| ==> ValidItem(items[i])
  }

  function NewCreate(s: State, userId: string, items: seq<Item>): Call {
    if ValidRequest(userId, items) then Checking(Text.TrimSpace(userId), items, At(s))
    else CreateDone(Text.TrimSpace(userId), items, Failed)
  }

  function AfterCheckUser(s: State, k: Call, ok: bool): Call
    requires k.Checking?
  {
    if !ok then CreateDone(k.userId, k.items, Failed)
    else if k.userId !in s.w.users then CreateDone(k.userId, k.items, NotFound)
    else Opening(k.userId, k.items, k.begun, At(s))
  }

  /** BEGIN and the first INSERT; `created_at` is the time of the transaction's start. */
  function AfterInsertOrder(s: State, k: Call, id: string, ok: bool): Call
    requires k.Opening?
  {
    var row := NewRow(k.userId, k.items, s.w.now);
    if ok && id !in s.w.tables.orders && FitsNumeric(row.totalCents) then
      Writing(k.userId, k.items, k.begun, k.seenAt, id, row, [])
    else CreateDone(k.userId, k.items, Failed)
  }

  /** The INSERT of the next item, seen by nobody else before the commit. */
  function AfterInsertItem(s: State, k: Call, ok: bool): Call
    requires k.Writing?
  {
    if |k.written| >= |k.items| then k
    else
      var row := ToRow(k.id, k.items[|k.written|]);
      if ok && FitsItem(row) then k.(written := k.written + [row])
      else CreateDone(k.userId, k.items, Failed)
  }

  function AfterCommit(s: State, k: Call, outcome: Outcome): Call
    requires k.Writing?
  {
    if |k.written| < |k.items| then k
    else if outcome.Applied? && k.id !in s.w.tables.orders then
      CreateDone(k.userId, k.items,
        Found(Order(k.id, k.userId, k.items, Total(k.items), Pending, k.row.createdAt)))
    else CreateDone(k.userId, k.items, Failed)
  }

  predicate Begins(a: Action) { a.BeginGet? || a.BeginCancel? || a.BeginCreate? }

  function NewCall(s: State, a: Action): Call
    requires Begins(a)
  {
    match a
    case BeginGet(_, id) => if id == "" then GetDone(id, At(s), Failed, At(s), At(s), At(s)) else Lookup(id, At(s))
    case BeginCancel(_, id) => if id == "" then CancelDone(id, At(s), Failed, false, At(s)) else Updating(id, At(s))
    case BeginCreate(_, userId, items) => NewCreate(s, userId, items)
  }

  /** Where `a` takes call `k`; an action that is not the call's next one leaves it. */
  ghost function NextCall(s: State, a: Action, k: Call): Call {
    if a.CacheGet? && k.Lookup? then AfterCacheGet(s, k, a.ok)
    else if a.ReadRow? && k.Fetch? then AfterReadRow(s, k, a.ok)
    else if a.ReadItems? && k.Join? then AfterReadItems(s, k, a.ok, a.rows)
    else if a.CacheSet? && k.Fill? then
      GetDone(k.id, k.begun, Found(k.order), k.readAt, At(s), At(s))
    else if a.Update? && k.Updating? then AfterUpdate(s, k, a.outcome)
    else if a.Del? && k.Deleting? then Fetch(ForCancel, k.id, k.begun)
    else if a.CheckUser? && k.Checking? then AfterCheckUser(s, k, a.ok)
    else if a.InsertOrder? && k.Opening? then AfterInsertOrder(s, k, a.id, a.ok)
    else if a.InsertItem? && k.Writing? then AfterInsertItem(s, k, a.ok)
    else if a.Commit? && k.Writing? then AfterCommit(s, k, a.outcome)
    else k
  }

  ghost function NextCalls(s: State, a: Action): map<nat, Call> {
    if a.Tick? || a.Evict? || a.AddUser? || a.RemoveUser? then s.calls
    else if a.Crash? then s.calls - {a.c}
    else if a.c in s.calls then s.calls[a.c := NextCall(s, a, s.calls[a.c])]
    else if Begins(a) then s.calls[a.c := NewCall(s, a)]
    else s.calls
  }

  // ---------------------------------------------------------------- the history

  /** The cancelled id of this action is left with a cache entry that nobody will delete. */
  predicate Leaks(s: State, a: Action) {
    || (Cancels(s, a) && a.outcome.ReplyLost?)
    || (a.Del? && !a.ok && a.c in s.calls && s.calls[a.c].Deleting?)
    || (a.Crash? && a.c in s.calls && s.calls[a.c].Deleting?)
  }

  function NextHistory(s: State, a: Action): History {
    History(
      s.h.past + [s.w],
      if Cancels(s, a) && s.calls[a.c].id !in s.h.firstUpdate
        then s.h.firstUpdate[s.calls[a.c].id := At(s)] else s.h.firstUpdate,
      if Deletes(s, a) then s.h.lastDel[s.calls[a.c].id := At(s)] else s.h.lastDel,
      if Leaks(s, a) then s.h.leaked + {s.calls[a.c].id} else s.h.leaked,
      if Fills(s, a) then s.h.origin[s.calls[a.c].order.id := Origin(s.calls[a.c].readAt, At(s))]
        else s.h.origin,
      if Commits(s, a) then
        s.h.born[s.calls[a.c].id := Birth(s.calls[a.c].begun, s.calls[a.c].seenAt, At(s), s.calls[a.c].items)]
        else s.h.born)
  }

  ghost function Apply(s: State, a: Action): State {
    State(NextWorld(s, a), NextCalls(s, a), NextHistory(s, a))
  }

  ghost function Exec(s: State, acts: seq<Action>): State
    decreases |acts|
  {
    if acts == [] then s else Exec(Apply(s, acts[0]), acts[1..])
  }

  ghost predicate Reachable(s: State) {
    exists acts :: s == Exec(Init(), acts)
  }

  lemma ExecIs(s: State, a: Action, rest: seq<Action>)
    ensures Exec(s, [a] + rest) == Exec(Apply(s, a), rest)
  {
    assert ([a] + rest)[1..] == rest;
  }

  lemma ExecFive(s: State, a: Action, b: Action, c: Action, d: Action, e: Action)
    ensures Exec(s, [a, b, c, d, e]) == Apply(Apply(Apply(Apply(Apply(s, a), b), c), d), e)
  {
    var s1 := Apply(s, a);
    var s2 := Apply(s1, b);
    var s3 := Apply(s2, c);
    var s4 := Apply(s3, d);
    ExecIs(s, a, [b, c, d, e]);
    ExecIs(s1, b, [c, d, e]);
    ExecIs(s2, c, [d, e]);
    ExecIs(s3, d, [e]);
    ExecIs(s4, e, []);
    assert [a] + [b, c, d, e] == [a, b, c, d, e];
    assert [b] + [c, d, e] == [b, c, d, e];
    assert [c] + [d, e] == [c, d, e];
    assert [d] + [e] == [d, e];
    assert [e] + [] == [e];
  }

  lemma {:induction false} ExecSplits(s: State, a: seq<Action>, b: seq<Action>)
    ensures Exec(s, a + b) == Exec(Exec(s, a), b)
    decreases |a|
  {
    if a == [] {
      assert a + b == b;
    } else {
      assert (a + b)[1..] == a[1..] + b;
      ExecSplits(Apply(s, a[0]), a[1..], b);
    }
  }
}
