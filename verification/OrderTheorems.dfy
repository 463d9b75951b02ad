/** What clients of the order service can rely on, over every interleaving. */
module OrderTheorems {
  import opened OrderModel
  import opened OrderSystem
  import opened OrderInvariants
  import opened OrderStaleness
  import opened OrderTimeline

  // ---------------------------------------------------------------- GetOrder

  /** Every answer of GetOrder, whole with its items, is what the database said at one instant
      of the run. Either that instant is the call's own row query, between its begin and its end, or
      the answer came from the cache, where a GetOrder of the same order had put it: then the
      instant is that call's row query, and it is older than the end of this call by less than the
      300 seconds of an entry plus the time from there to the SET. */
  lemma GetIsBoundedlyStale(acts: seq<Action>, c: nat)
    requires c in After(acts).calls
    requires After(acts).calls[c].GetDone? && After(acts).calls[c].reply != Failed
    ensures var k := After(acts).calls[c];
      && k.begun < |acts| && acts[k.begun] == BeginGet(c, k.id)
      && k.readAt <= k.wroteAt <= k.doneAt < |acts|
      && Answers(WorldBefore(acts, k.readAt).tables, k.id, k.reply)
      && (AnsweredItself(acts, c, k)
          || (AnsweredByCache(acts, c, k)
              && var filled := WorldBefore(acts, k.wroteAt).now - WorldBefore(acts, k.readAt).now;
                 WorldBefore(acts, k.doneAt).now - WorldBefore(acts, k.readAt).now < 300_000_000_000 + filled))
  {
    var s := After(acts);
    var k := s.calls[c];
    AfterInv(acts);
    EveryRunIsTied(acts);
    assert CallAtOk(s, c) && CallTied(acts, s, c);
    ReachesThePast(acts, k.readAt);
    ReachesThePast(acts, k.wroteAt);
    ReachesThePast(acts, k.doneAt);
  }

  // ---------------------------------------------------------------- CreateOrder

  /** Whatever an action does, the tables stay as they are, gain one order with exactly its
      items, or have one order cancelled. */
  lemma TablesChangeAtomically(s: State, a: Action)
    requires Reachable(s)
    ensures var t, t' := s.w.tables, Apply(s, a).w.tables;
      || t' == t
      || (a.Commit? && a.c in s.calls && s.calls[a.c].Writing? && !a.outcome.NotApplied?
          && var k := s.calls[a.c];
             && k.id !in t.orders
             && t'.orders == t.orders[k.id := NewRow(k.userId, k.items, k.row.createdAt)]
             && t'.items == t.items + RowsFor(k.id, k.items)
             && ItemsOf(t'.items, k.id) == ItemsOf(RowsFor(k.id, k.items), k.id))
      || (a.Update? && a.c in s.calls && s.calls[a.c].Updating? && t' == CancelRow(t, s.calls[a.c].id))
  {
    ReachableInv(s);
    if Commits(s, a) {
      var k := s.calls[a.c];
      assert CallAtOk(s, a.c) && k.written == RowsFor(k.id, k.items);
      CommitKeepsTablesOk(s.w.tables, k.id, k.row, k.items);
    }
  }

  lemma {:induction false} CreateReplyIsFinal(s: State, acts: seq<Action>, c: nat)
    requires c in s.calls && s.calls[c].CreateDone? && Crash(c) !in acts
    ensures c in Exec(s, acts).calls && Exec(s, acts).calls[c] == s.calls[c]
    decreases |acts|
  {
    if acts != [] {
      assert acts[0] in acts;
      CreateReplyIsFinal(Apply(s, acts[0]), acts[1..], c);
    }
  }

  /** A COMMIT whose reply arrives decides the reply of its call. */
  lemma CommitDecidesTheReply(s: State, a: Action, rest: seq<Action>)
    requires Commits(s, a) && !a.outcome.ReplyLost? && Crash(a.c) !in rest
    ensures a.c in Exec(s, [a] + rest).calls
    ensures var k := Exec(s, [a] + rest).calls[a.c];
      && k.CreateDone? && k.reply.Found?
      && k.reply.order.id == s.calls[a.c].id && k.items == s.calls[a.c].items
  {
    ExecIs(s, a, rest);
    CreateReplyIsFinal(Apply(s, a), rest, a.c);
  }

  /** A CreateOrder that answers with an order has stored it as requested. One that answers with an
      error has committed nothing, unless it was the reply of its COMMIT that got lost. */
  lemma CreateRepliesHonestly(acts: seq<Action>, c: nat, i: nat)
    requires c in After(acts).calls && After(acts).calls[c].CreateDone? && Crash(c) !in acts
    requires i < |acts|
    ensures var k := After(acts).calls[c];
      k.reply.Found? ==>
        StoredAsRequested(After(acts).w.tables, k.reply.order.id, k.userId, k.items, k.reply.order.createdAt)
    ensures var s, k := Exec(Init(), acts[..i]), After(acts).calls[c];
      Commits(s, acts[i]) && acts[i].c == c && !acts[i].outcome.ReplyLost? ==>
        k.reply.Found? && k.reply.order.id == s.calls[c].id && k.items == s.calls[c].items
  {
    CreatedIsStored(acts, c);
    var s, rest := Exec(Init(), acts[..i]), acts[i + 1..];
    if Commits(s, acts[i]) && acts[i].c == c && !acts[i].outcome.ReplyLost? {
      assert acts == acts[..i] + ([acts[i]] + rest);
      ExecSplits(Init(), acts[..i], [acts[i]] + rest);
      CommitDecidesTheReply(s, acts[i], rest);
    }
  }

  lemma CreatedIsStored(acts: seq<Action>, c: nat)
    requires c in After(acts).calls && After(acts).calls[c].CreateDone?
    ensures var k := After(acts).calls[c];
      k.reply.Found? ==>
        StoredAsRequested(After(acts).w.tables, k.reply.order.id, k.userId, k.items, k.reply.order.createdAt)
  {
    AfterInv(acts);
    assert CallAtOk(After(acts), c);
  }

  /** Every stored order belongs to a user whom the user service had when the CreateOrder call that
      committed the order asked for him: after its begin, before its COMMIT. */
  lemma OrdersHaveHadUsers(acts: seq<Action>, id: string)
    requires id in After(acts).w.tables.orders
    ensures var s := After(acts);
      && id in s.h.born && var b, userId := s.h.born[id], s.w.tables.orders[id].userId;
      && CommittedAt(acts, id, userId, b)
      && userId in WorldBefore(acts, b.seenAt).users
      && id !in WorldBefore(acts, b.committedAt).tables.orders
      && id in WorldBefore(acts, b.committedAt + 1).tables.orders
  {
    var s := After(acts);
    AfterInv(acts);
    EveryRunIsTied(acts);
    assert BirthOk(s, id) && BirthTied(acts, s, id);
    var b := s.h.born[id];
    ReachesThePast(acts, b.seenAt);
    ReachesThePast(acts, b.committedAt);
    ReachesThePast(acts, b.committedAt + 1);
  }

  // ---------------------------------------------------------------- CancelOrder

  /** Only two statuses are ever stored, and a cancelled order stays cancelled. */
  lemma CancellationIsAbsorbing(acts: seq<Action>, i: nat, id: string)
    requires i < |acts| && id in WorldBefore(acts, i).tables.orders
    ensures id in After(acts).w.tables.orders
    ensures After(acts).w.tables.orders[id].status in {PENDING, CANCELLED}
    ensures IsCancelled(WorldBefore(acts, i).tables, id) ==> IsCancelled(After(acts).w.tables, id)
  {
    var s := After(acts);
    AfterInv(acts);
    ReachesThePast(acts, i);
    assert MomentOk(s, i) && OrderOk(s.w.tables, id);
    assert GrowsAt(s.h.past[i].tables, s.w.tables, id);
  }

  /** A CancelOrder whose UPDATE found the order never ends in not-found; not-found means that the
      order was not there at the call's UPDATE; and one that answers with an order answers with a
      cancelled one, as the call's own row query found it. */
  lemma CancelRepliesCancelled(acts: seq<Action>, c: nat)
    requires c in After(acts).calls && After(acts).calls[c].CancelDone?
    ensures var k := After(acts).calls[c];
      && CancelBegan(acts, c, k.id, k.begun)
      && (forall i: nat :: k.begun < i < |acts| && UpdateTook(acts, c, i) ==> !k.reply.NotFound?)
      && (k.reply.NotFound? ==>
            && k.begun < k.readAt < |acts| && acts[k.readAt] == Update(c, Applied)
            && k.id !in WorldBefore(acts, k.readAt).tables.orders)
      && (k.reply.Found? ==>
            && k.reply.order.status == Cancelled && k.begun < k.readAt && RowRead(acts, c, k.readAt)
            && Answers(WorldBefore(acts, k.readAt).tables, k.id, k.reply))
  {
    var s := After(acts);
    AfterInv(acts);
    EveryRunIsTied(acts);
    assert CallAtOk(s, c) && CallTied(acts, s, c);
    if !s.calls[c].reply.Failed? { ReachesThePast(acts, s.calls[c].readAt); }
  }

  /** Once cancelled, an order never changes again. */
  lemma CancelledIsFinal(acts: seq<Action>, i: nat, j: nat, id: string)
    requires i <= j <= |acts| && IsCancelled(WorldBefore(acts, i).tables, id)
    ensures var t, u := WorldBefore(acts, i).tables, WorldBefore(acts, j).tables;
      id in u.orders && u.orders[id] == t.orders[id] && ItemsOf(u.items, id) == ItemsOf(t.items, id)
  {
    RunsGrow(acts, i, j);
    assert GrowsAt(WorldBefore(acts, i).tables, WorldBefore(acts, j).tables, id);
  }

  /** Repeated cancels equal one, on any interleaving: whichever CancelOrder calls of an order
      answer with it, they answer the same, but for the order of the items. */
  lemma CancelsAgree(acts: seq<Action>, c: nat, d: nat)
    requires c in After(acts).calls && After(acts).calls[c].CancelDone? && After(acts).calls[c].reply.Found?
    requires d in After(acts).calls && After(acts).calls[d].CancelDone? && After(acts).calls[d].reply.Found?
    requires After(acts).calls[c].id == After(acts).calls[d].id
    ensures var one, other := After(acts).calls[c].reply.order, After(acts).calls[d].reply.order;
      one == other.(items := one.items) && multiset(one.items) == multiset(other.items)
  {
    CancelRepliesCancelled(acts, c);
    CancelRepliesCancelled(acts, d);
    var k, l := After(acts).calls[c], After(acts).calls[d];
    StatusAt(acts, k.readAt, k.id, k.reply);
    StatusAt(acts, l.readAt, l.id, l.reply);
    if k.readAt <= l.readAt {
      CancelledIsFinal(acts, k.readAt, l.readAt, k.id);
    } else {
      CancelledIsFinal(acts, l.readAt, k.readAt, k.id);
    }
  }

  lemma StatusAt(acts: seq<Action>, i: nat, id: string, reply: Reply)
    requires i <= |acts| && Answers(WorldBefore(acts, i).tables, id, reply)
    requires reply.Found? && reply.order.status == Cancelled
    ensures IsCancelled(WorldBefore(acts, i).tables, id)
  {
    AfterInv(acts[..i]);
    assert OrderOk(WorldBefore(acts, i).tables, id);
  }

  /** Later tables of a run grow out of earlier ones; this is what page walks rely on. */
  lemma RunsGrow(acts: seq<Action>, i: nat, j: nat)
    requires i <= j <= |acts|
    ensures Grows(WorldBefore(acts, i).tables, WorldBefore(acts, j).tables)
  {
    var some := acts[..j];
    AfterInv(some);
    ReachesThePast(some, i);
    if i < j {
      assert MomentOk(After(some), i);
      assert some[..i] == acts[..i];
    } else {
      forall id ensures GrowsAt(After(some).w.tables, After(some).w.tables, id) {}
    }
  }

  // ---------------------------------------------------------------- money

  predicate WholeCents(items: seq<Item>) {
    forall i :: 0 <= i < |items| ==> items[i].unitPrice == FromCents(RoundCents(items[i].unitPrice))
  }

  lemma {:induction false} TimesCents(n: nat, cents: int) returns (k: int)
    ensures Times(n, cents as real) == k as real
    ensures Times(n, FromCents(cents)) == FromCents(k)
  {
    if n == 0 {
      k := 0;
    } else {
      k := TimesCents(n - 1, cents);
      k := k + cents;
    }
  }

  lemma {:induction false} WholeCentsAreExact(id: string, items: seq<Item>) returns (k: int)
    requires WholeCents(items) && ValidItems(items)
    ensures StoredCents(RowsFor(id, items), id) == k as real && Total(items) == FromCents(k)
    ensures ItemsOf(RowsFor(id, items), id) == items
  {
    if items == [] {
      k := 0;
    } else {
      var rest, last := items[..|items| - 1], items[|items| - 1];
      k := WholeCentsAreExact(id, rest);
      StoredStep(id, items);
      var m := TimesCents(last.quantity, RoundCents(last.unitPrice));
      k := k + m;
      assert ToItem(ToRow(id, last)) == last;
      assert items == rest + [last];
    }
  }

  /** A stored total drifts from the value of the stored items by half a cent plus half a cent
      per unit at most, and not at all when every requested price was in whole cents. */
  lemma MoneyDrift(s: State, id: string)
    requires Reachable(s) && id in s.w.tables.orders
    ensures OrderOk(s.w.tables, id)
    ensures id in s.h.born
    ensures ItemsOf(s.w.tables.items, id) == ItemsOf(RowsFor(id, s.h.born[id].items), id)
    ensures WholeCents(s.h.born[id].items) ==>
      && FromCents(s.w.tables.orders[id].totalCents) == Total(s.h.born[id].items)
      && ItemsOf(s.w.tables.items, id) == s.h.born[id].items
  {
    ReachableInv(s);
    assert OrderOk(s.w.tables, id) && BirthOk(s, id);
    var items := s.h.born[id].items;
    if WholeCents(items) {
      var k := WholeCentsAreExact(id, items);
      RoundingWholeCents(k);
    }
  }

  /** What any reading of a stored order with prices in whole cents says. */
  lemma AnswerOfStored(t: Tables, id: string, userId: string, items: seq<Item>, at: nat, reply: Reply)
    requires StoredAsRequested(t, id, userId, items, at) && WholeCents(items) && ValidItems(items)
    requires Answers(t, id, reply) && reply.Found?
    ensures reply.order == Order(id, userId, reply.order.items, Total(items), reply.order.status, at)
    ensures multiset(reply.order.items) == multiset(items)
  {
    var cents := WholeCentsAreExact(id, items);
    RoundingWholeCents(cents);
    assert t.orders[id].totalCents == cents && t.orders[id].userId == userId && t.orders[id].createdAt == at by {
      assert t.orders[id].(status := PENDING) == NewRow(userId, items, at);
    }
  }

  lemma StoredWhenRead(s: State, k: Call, g: Call)
    requires Inv(s) && CallOk(s.w.tables, s.h, k) && CallOk(s.w.tables, s.h, g)
    requires k.CreateDone? && k.reply.Found?
    requires g.GetDone? && g.reply.Found? && g.id == k.reply.order.id
    ensures g.readAt < |s.h.past|
    ensures StoredAsRequested(s.h.past[g.readAt].tables, g.id, k.userId, k.items, k.reply.order.createdAt)
  {
    var t := s.h.past[g.readAt].tables;
    assert MomentOk(s, g.readAt);
    assert GrowsAt(t, s.w.tables, g.id) && OrderOk(t, g.id);
  }

  /** A stored status is "CANCELLED" from the first UPDATE of the order on, and "PENDING" before. */
  lemma StatusSinceUpdate(acts: seq<Action>, i: nat, id: string)
    requires i < |acts| && id in WorldBefore(acts, i).tables.orders
    ensures WorldBefore(acts, i).tables.orders[id].status
         == if exists j: nat :: j < i && UpdatesOrder(acts, id, j) then "CANCELLED" else "PENDING"
  {
    var s := After(acts);
    AfterInv(acts);
    ReachableStaleInv(s);
    HistoryIsTied(acts, id);
    ReachesThePast(acts, i);
    assert MomentOk(s, i) && UpdateOk(s, i, id) && WorldAt(s, i) == s.h.past[i];
    assert OrderOk(s.h.past[i].tables, id);
  }

  /** A GetOrder answers Cancelled if an UPDATE of the order took effect before the row was read,
      and Pending otherwise. */
  lemma GetAnswersStatus(acts: seq<Action>, g: nat)
    requires g in After(acts).calls && After(acts).calls[g].GetDone? && After(acts).calls[g].reply.Found?
    ensures var k := After(acts).calls[g];
      k.reply.order.status
      == if exists i: nat :: i < k.readAt && UpdatesOrder(acts, k.id, i) then Cancelled else Pending
  {
    GetIsBoundedlyStale(acts, g);
    StatusSinceUpdate(acts, After(acts).calls[g].readAt, After(acts).calls[g].id);
  }

  /** With prices in whole cents, every GetOrder that finds an order gives the reply that created it,
      but for the order of the items and for a cancel before the row was read. */
  lemma GetAgreesWithCreate(acts: seq<Action>, c: nat, g: nat)
    requires c in After(acts).calls && g in After(acts).calls
    requires After(acts).calls[c].CreateDone? && After(acts).calls[c].reply.Found?
    requires WholeCents(After(acts).calls[c].items)
    requires After(acts).calls[g].GetDone? && After(acts).calls[g].reply.Found?
    requires After(acts).calls[g].id == After(acts).calls[c].reply.order.id
    ensures var made, k := After(acts).calls[c].reply.order, After(acts).calls[g];
      var got := k.reply.order;
      && made.status == Pending
      && got == made.(items := got.items,
                      status := if exists i: nat :: i < k.readAt && UpdatesOrder(acts, k.id, i)
                                then Cancelled else Pending)
      && multiset(got.items) == multiset(made.items)
  {
    var s := After(acts);
    AfterInv(acts);
    GetAnswersStatus(acts, g);
    AgreesButForStatus(s, c, g);
  }

  lemma AgreesButForStatus(s: State, c: nat, g: nat)
    requires Inv(s) && c in s.calls && g in s.calls
    requires s.calls[c].CreateDone? && s.calls[c].reply.Found? && WholeCents(s.calls[c].items)
    requires s.calls[g].GetDone? && s.calls[g].reply.Found? && s.calls[g].id == s.calls[c].reply.order.id
    ensures var made, got := s.calls[c].reply.order, s.calls[g].reply.order;
      && made.status == Pending
      && got == made.(status := got.status, items := got.items)
      && multiset(got.items) == multiset(made.items)
  {
    assert CallAtOk(s, c) && CallAtOk(s, g);
    var k, r := s.calls[c], s.calls[g];
    StoredWhenRead(s, k, r);
    AnswerOfStored(s.h.past[r.readAt].tables, r.id, k.userId, k.items, k.reply.order.createdAt, r.reply);
  }
}
