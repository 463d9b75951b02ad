/** What every action of the order service keeps, one invariant at a time. */
module OrderInvariants {
  import opened OrderModel
  import opened OrderSystem

  /** The world at instant `i`, the present included. */
  function WorldAt(s: State, i: nat): World
    requires i <= |s.h.past|
  {
    if i < |s.h.past| then s.h.past[i] else s.w
  }

  /** The past moment `i` is no later than the present, and the present grew out of it. */
  ghost predicate MomentOk(s: State, i: nat) {
    i < |s.h.past| ==>
      TablesOk(s.h.past[i].tables) && Grows(s.h.past[i].tables, s.w.tables) && s.h.past[i].now <= s.w.now
  }

  ghost predicate PastOk(s: State) {
    TablesOk(s.w.tables) && forall i: nat :: MomentOk(s, i)
  }

  /** The reply was what the database held at instant `i`. */
  ghost predicate AnsweredAt(h: History, i: nat, id: string, reply: Reply) {
    i < |h.past| && Answers(h.past[i].tables, id, reply)
  }

  ghost predicate IsCancelled(t: Tables, id: string) {
    id in t.orders && t.orders[id].status == CANCELLED
  }

  /** An entry written at `wroteAt` is served at `doneAt`: it lives five minutes from its SET. */
  ghost predicate WithinTtl(h: History, wroteAt: nat, doneAt: nat) {
    wroteAt < doneAt < |h.past| && h.past[doneAt].now < h.past[wroteAt].now + CACHE_TTL
  }

  ghost predicate UserSeen(h: History, userId: string, begun: nat, seenAt: nat) {
    begun <= seenAt < |h.past| && userId in h.past[seenAt].users
  }

  /** The stored order is the one that was requested, whatever its status by now. */
  ghost predicate StoredAsRequested(t: Tables, id: string, userId: string, items: seq<Item>, at: nat) {
    && id in t.orders
    && t.orders[id].(status := PENDING) == NewRow(userId, items, at)
    && ItemsOf(t.items, id) == ItemsOf(RowsFor(id, items), id)
  }

  ghost predicate ValidItems(items: seq<Item>) {
    forall i :: 0 <= i < |items| ==> ValidItem(items[i])
  }

  ghost predicate ReadOk(h: History, k: Call)
    requires k.Join?
  {
    && k.begun <= k.readAt < |h.past|
    && k.id in h.past[k.readAt].tables.orders && h.past[k.readAt].tables.orders[k.id] == k.row
    && (k.who == ForCancel ==> k.row.status == CANCELLED)
  }

  ghost predicate WritingOk(h: History, k: Call)
    requires k.Writing?
  {
    && ValidItems(k.items) && UserSeen(h, k.userId, k.begun, k.seenAt)
    && k.row == NewRow(k.userId, k.items, k.row.createdAt)
    && |k.written| <= |k.items| && k.written == RowsFor(k.id, k.items)[..|k.written|]
  }

  ghost predicate GetDoneOk(h: History, k: Call)
    requires k.GetDone?
  {
    k.reply != Failed ==>
      && AnsweredAt(h, k.readAt, k.id, k.reply)
      && k.readAt <= k.wroteAt <= k.doneAt < |h.past| && k.begun <= k.doneAt
      && (k.wroteAt < k.doneAt ==> k.reply.Found? && WithinTtl(h, k.wroteAt, k.doneAt))
      && (k.begun <= k.readAt || k.wroteAt < k.doneAt)
  }

  ghost predicate CancelDoneOk(h: History, k: Call)
    requires k.CancelDone?
  {
    && (k.reply.NotFound? ==> !k.updated && AnsweredAt(h, k.readAt, k.id, NotFound))
    && (k.reply.Found? ==> k.reply.order.status == Cancelled && k.begun <= k.readAt
                           && AnsweredAt(h, k.readAt, k.id, k.reply))
  }

  ghost predicate CreateDoneOk(t: Tables, k: Call)
    requires k.CreateDone?
  {
    k.reply.Found? ==>
      var o := k.reply.order;
      && o == Order(o.id, k.userId, k.items, Total(k.items), Pending, o.createdAt)
      && ValidItems(k.items) && StoredAsRequested(t, o.id, k.userId, k.items, o.createdAt)
  }

  /** What a call may rely on at each of its points, whatever the others do meanwhile. */
  ghost predicate CallOk(t: Tables, h: History, k: Call) {
    match k
    case Lookup(_, begun) => begun <= |h.past|
    case Fetch(who, id, begun) => begun <= |h.past| && (who == ForCancel ==> IsCancelled(t, id))
    case Join(_, _, _, _, _) => ReadOk(h, k)
    case Fill(id, begun, order, readAt) => begun <= readAt && AnsweredAt(h, readAt, id, Found(order))
    case Updating(_, begun) => begun <= |h.past|
    case Deleting(id, begun) => begun <= |h.past| && IsCancelled(t, id)
    case Checking(_, items, begun) => begun <= |h.past| && ValidItems(items)
    case Opening(userId, items, begun, seenAt) => ValidItems(items) && UserSeen(h, userId, begun, seenAt)
    case Writing(_, _, _, _, _, _, _) => WritingOk(h, k)
    case GetDone(_, _, _, _, _, _) => GetDoneOk(h, k)
    case CancelDone(_, _, _, _, _) => CancelDoneOk(h, k)
    case CreateDone(_, _, _) => CreateDoneOk(t, k)
  }

  ghost predicate CallAtOk(s: State, c: nat) {
    c in s.calls ==> CallOk(s.w.tables, s.h, s.calls[c])
  }

  ghost predicate CallsOk(s: State) { forall c :: CallAtOk(s, c) }

  ghost predicate EntryOk(s: State, id: string) {
    id in s.w.cache ==>
      && id in s.h.origin
      && var o := s.h.origin[id];
      && o.readAt <= o.wroteAt < |s.h.past|
      && AnsweredAt(s.h, o.readAt, id, Found(s.w.cache[id].order))
      && s.w.cache[id].expiresAt == s.h.past[o.wroteAt].now + CACHE_TTL
  }

  ghost predicate CacheOk(s: State) { forall id :: EntryOk(s, id) }

  /** Every stored order was asked for by a call that saw its user and then committed it. */
  ghost predicate BirthOk(s: State, id: string) {
    id in s.w.tables.orders ==>
      && id in s.h.born
      && var b := s.h.born[id];
      var row := s.w.tables.orders[id];
      && UserSeen(s.h, row.userId, b.begun, b.seenAt)
      && b.seenAt < b.committedAt < |s.h.past|
      && ValidItems(b.items)
      && StoredAsRequested(s.w.tables, id, row.userId, b.items, row.createdAt)
      && id !in s.h.past[b.committedAt].tables.orders
      && id in WorldAt(s, b.committedAt + 1).tables.orders
  }

  ghost predicate BornOk(s: State) { forall id :: BirthOk(s, id) }

  ghost predicate Inv(s: State) {
    PastOk(s) && CallsOk(s) && CacheOk(s) && BornOk(s)
  }

  // ---------------------------------------------------------------- one action

  lemma TablesAfter(s: State, a: Action)
    requires TablesOk(s.w.tables) && CallsOk(s)
    ensures TablesOk(NextTables(s, a)) && Grows(s.w.tables, NextTables(s, a))
  {
    if Commits(s, a) {
      var k := s.calls[a.c];
      assert CallAtOk(s, a.c) && k.written == RowsFor(k.id, k.items);
      CommitKeepsTablesOk(s.w.tables, k.id, k.row, k.items);
    } else if Cancels(s, a) {
      CancelKeepsTablesOk(s.w.tables, s.calls[a.c].id);
    }
  }

  lemma PastAfter(s: State, a: Action)
    requires PastOk(s) && CallsOk(s)
    ensures PastOk(Apply(s, a))
  {
    var s' := Apply(s, a);
    TablesAfter(s, a);
    forall i: nat ensures MomentOk(s', i) {
      if i < |s.h.past| {
        assert MomentOk(s, i);
        GrowthComposes(s.h.past[i].tables, s.w.tables, s'.w.tables);
      }
    }
  }

  /** What one call relies on, no action of another call can take away. */
  lemma CallFrame(t: Tables, h: History, t': Tables, h': History, k: Call)
    requires CallOk(t, h, k) && Grows(t, t') && h.past <= h'.past
    ensures CallOk(t', h', k)
  {
    if k.Fetch? || k.Deleting? { assert GrowsAt(t, t', k.id); }
    if k.CreateDone? && k.reply.Found? { assert GrowsAt(t, t', k.reply.order.id); }
  }

  /** The call that acts meets its own obligations at its next point: a read of the cache, */
  lemma AfterCacheGetOk(s: State, k: Call, ok: bool, h': History)
    requires k.Lookup? && EntryOk(s, k.id) && CallOk(s.w.tables, s.h, k) && h'.past == s.h.past + [s.w]
    ensures CallOk(s.w.tables, h', AfterCacheGet(s, k, ok))
  {}

  /** a read of the items, which are those of the row however long ago it was read, */
  lemma AfterReadItemsOk(s: State, k: Call, ok: bool, rows: seq<Item>, h': History)
    requires k.Join? && CallOk(s.w.tables, s.h, k) && h'.past == s.h.past + [s.w]
    requires MomentOk(s, k.readAt)
    ensures CallOk(s.w.tables, h', AfterReadItems(s, k, ok, rows))
  {
    assert GrowsAt(s.h.past[k.readAt].tables, s.w.tables, k.id);
  }

  /** the commit, */
  lemma AfterCommitOk(s: State, k: Call, outcome: Outcome, t': Tables, h': History)
    requires TablesOk(s.w.tables) && k.Writing? && CallOk(s.w.tables, s.h, k)
    requires s.h.past <= h'.past
    requires outcome.Applied? && |k.written| >= |k.items| && k.id !in s.w.tables.orders ==>
               t' == CommitOrder(s.w.tables, k.id, k.row, k.written)
    ensures CallOk(t', h', AfterCommit(s, k, outcome))
  {
    if outcome.Applied? && |k.written| >= |k.items| && k.id !in s.w.tables.orders {
      assert k.written == RowsFor(k.id, k.items);
      ConcatenatedRows(s.w.tables.items, k.written, k.id);
      RowsOfOthers(s.w.tables.items, k.id);
    }
  }

  /** and everything else. */
  lemma AfterOtherOk(s: State, a: Action, k: Call, t': Tables, h': History)
    requires !a.CacheGet? && !a.ReadItems? && !a.Commit? && CallOk(s.w.tables, s.h, k)
    requires NextCall(s, a, k) != k
    requires h'.past == s.h.past + [s.w] && Grows(s.w.tables, t')
    requires a.Update? && k.Updating? && a.outcome.Applied? && k.id in s.w.tables.orders ==> IsCancelled(t', k.id)
    ensures CallOk(t', h', NextCall(s, a, k))
  {
    if a.Del? { assert GrowsAt(s.w.tables, t', k.id); }
  }

  lemma NextCallOk(s: State, a: Action, k: Call, t': Tables, h': History)
    requires PastOk(s) && CacheOk(s) && CallOk(s.w.tables, s.h, k)
    requires h'.past == s.h.past + [s.w] && Grows(s.w.tables, t')
    requires a.Update? && k.Updating? && a.outcome.Applied? && k.id in s.w.tables.orders ==> IsCancelled(t', k.id)
    requires a.Commit? && k.Writing? && a.outcome.Applied? && |k.written| >= |k.items| && k.id !in s.w.tables.orders
             ==> t' == CommitOrder(s.w.tables, k.id, k.row, k.written)
    ensures CallOk(t', h', NextCall(s, a, k))
  {
    if NextCall(s, a, k) == k {
      CallFrame(s.w.tables, s.h, t', h', k);
    } else if a.CacheGet? {
      assert EntryOk(s, k.id);
      AfterCacheGetOk(s, k, a.ok, h');
      CallFrame(s.w.tables, h', t', h', NextCall(s, a, k));
    } else if a.ReadItems? {
      assert MomentOk(s, k.readAt);
      AfterReadItemsOk(s, k, a.ok, a.rows, h');
      CallFrame(s.w.tables, h', t', h', NextCall(s, a, k));
    } else if a.Commit? {
      AfterCommitOk(s, k, a.outcome, t', h');
    } else {
      AfterOtherOk(s, a, k, t', h');
    }
  }

  lemma CallsAfter(s: State, a: Action)
    requires PastOk(s) && CacheOk(s) && CallsOk(s)
    ensures CallsOk(Apply(s, a))
  {
    var s' := Apply(s, a);
    TablesAfter(s, a);
    forall c ensures CallAtOk(s', c) {
      assert CallAtOk(s, c);
      if c in s.calls && c in s'.calls {
        if s'.calls[c] == s.calls[c] {
          CallFrame(s.w.tables, s.h, s'.w.tables, s'.h, s.calls[c]);
        } else {
          NextCallOk(s, a, s.calls[c], s'.w.tables, s'.h);
        }
      }
    }
  }

  lemma CacheAfter(s: State, a: Action)
    requires CacheOk(s) && CallsOk(s)
    ensures CacheOk(Apply(s, a))
  {
    var s' := Apply(s, a);
    forall id ensures EntryOk(s', id) {
      assert EntryOk(s, id);
      if Fills(s, a) { assert CallAtOk(s, a.c); }
    }
  }

  lemma BirthFrame(s: State, a: Action, id: string)
    requires id in s.w.tables.orders && BirthOk(s, id) && GrowsAt(s.w.tables, NextTables(s, a), id)
    ensures BirthOk(Apply(s, a), id)
  {
    var s', b := Apply(s, a), s.h.born[id];
    assert s'.h.born[id] == b;
    assert WorldAt(s', b.committedAt + 1) == WorldAt(s, b.committedAt + 1);
  }

  lemma CommitBirth(s: State, a: Action)
    requires CallsOk(s) && TablesOk(s.w.tables) && Commits(s, a)
    ensures BirthOk(Apply(s, a), s.calls[a.c].id)
  {
    var s', k := Apply(s, a), s.calls[a.c];
    assert CallAtOk(s, a.c) && k.written == RowsFor(k.id, k.items);
    ConcatenatedRows(s.w.tables.items, k.written, k.id);
    RowsOfOthers(s.w.tables.items, k.id);
    assert WorldAt(s', |s.h.past| + 1) == s'.w;
  }

  lemma BornAfter(s: State, a: Action)
    requires BornOk(s) && CallsOk(s) && TablesOk(s.w.tables)
    ensures BornOk(Apply(s, a))
  {
    var s' := Apply(s, a);
    TablesAfter(s, a);
    forall id ensures BirthOk(s', id) {
      if id in s.w.tables.orders {
        assert BirthOk(s, id) && GrowsAt(s.w.tables, NextTables(s, a), id);
        BirthFrame(s, a, id);
      } else if id in s'.w.tables.orders {
        CommitBirth(s, a);
      }
    }
  }

  lemma InvAfter(s: State, a: Action)
    requires Inv(s)
    ensures Inv(Apply(s, a))
  {
    PastAfter(s, a);
    CallsAfter(s, a);
    CacheAfter(s, a);
    BornAfter(s, a);
  }

  lemma {:induction false} InvExec(s: State, acts: seq<Action>)
    requires Inv(s)
    ensures Inv(Exec(s, acts))
    decreases |acts|
  {
    if acts != [] {
      InvAfter(s, acts[0]);
      InvExec(Apply(s, acts[0]), acts[1..]);
    }
  }

  lemma ReachableInv(s: State)
    requires Reachable(s)
    ensures Inv(s)
  {
    var acts :| s == Exec(Init(), acts);
    InvExec(Init(), acts);
  }
}
