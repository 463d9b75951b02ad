/** How the history that the states carry relates to the actions of the run: every index in it is
    the index of the action it is named after, performed by the call it belongs to. */
module OrderTimeline {
  import opened OrderModel
  import opened OrderSystem
  import opened OrderInvariants
  import Text

  // ---------------------------------------------------------------- the history is the run

  lemma {:induction false} HistoryGrows(s: State, acts: seq<Action>)
    ensures s.h.past <= Exec(s, acts).h.past
    ensures |Exec(s, acts).h.past| == |s.h.past| + |acts|
    decreases |acts|
  {
    if acts != [] { HistoryGrows(Apply(s, acts[0]), acts[1..]); }
  }

  /** `past[i]` is the world the first `i` actions of the run lead to. */
  lemma {:induction false} PastIsTheRun(s: State, acts: seq<Action>, i: nat)
    requires i < |acts|
    ensures |Exec(s, acts).h.past| == |s.h.past| + |acts|
    ensures Exec(s, acts).h.past[|s.h.past| + i] == Exec(s, acts[..i]).w
    decreases |acts|
  {
    var s1 := Apply(s, acts[0]);
    if i == 0 {
      HistoryGrows(s1, acts[1..]);
      assert s1.h.past[|s.h.past|] == s.w;
    } else {
      PastIsTheRun(s1, acts[1..], i - 1);
      assert acts[1..][..i - 1] == acts[..i][1..];
    }
  }

  /** The state a run from the empty system ends in. */
  ghost function After(acts: seq<Action>): State { Exec(Init(), acts) }

  ghost function StateBefore(acts: seq<Action>, i: nat): State
    requires i <= |acts|
  {
    After(acts[..i])
  }

  /** The world before action `i` of a run. */
  ghost function WorldBefore(acts: seq<Action>, i: nat): World
    requires i <= |acts|
  {
    StateBefore(acts, i).w
  }

  lemma ReachesThePast(acts: seq<Action>, i: nat)
    ensures |After(acts).h.past| == |acts|
    ensures i < |acts| ==> After(acts).h.past[i] == WorldBefore(acts, i)
    ensures WorldBefore(acts, |acts|) == After(acts).w
  {
    HistoryGrows(Init(), acts);
    if i < |acts| { PastIsTheRun(Init(), acts, i); }
    assert acts[..|acts|] == acts;
  }

  lemma AfterInv(acts: seq<Action>)
    ensures Reachable(After(acts)) && Inv(After(acts)) && |After(acts).h.past| == |acts|
  {
    ReachableInv(After(acts));
    HistoryGrows(Init(), acts);
  }

  // ---------------------------------------------------------------- actions of the run

  predicate GetBegan(acts: seq<Action>, c: nat, id: string, i: nat) {
    i < |acts| && acts[i] == BeginGet(c, id)
  }

  predicate CancelBegan(acts: seq<Action>, c: nat, id: string, i: nat) {
    i < |acts| && acts[i] == BeginCancel(c, id)
  }

  predicate Began(acts: seq<Action>, c: nat, who: Fetcher, id: string, i: nat) {
    if who == ForGet then GetBegan(acts, c, id, i) else CancelBegan(acts, c, id, i)
  }

  predicate CreateBegan(acts: seq<Action>, c: nat, userId: string, items: seq<Item>, i: nat) {
    && i < |acts| && acts[i].BeginCreate? && acts[i].c == c
    && Text.TrimSpace(acts[i].userId) == userId && acts[i].items == items
  }

  predicate RowRead(acts: seq<Action>, c: nat, i: nat) {
    i < |acts| && acts[i] == ReadRow(c, true)
  }

  /** Call `c` began with this request at `begun` and found its user at `seenAt`. */
  predicate UserFound(acts: seq<Action>, c: nat, userId: string, items: seq<Item>, begun: nat, seenAt: nat) {
    && CreateBegan(acts, c, userId, items, begun)
    && begun < seenAt < |acts| && acts[seenAt] == CheckUser(c, true)
  }

  /** Action `i` is an UPDATE of call `c` that found its row and took effect. */
  ghost predicate UpdateTook(acts: seq<Action>, c: nat, i: nat) {
    i < |acts| && acts[i].Update? && acts[i].c == c && Cancels(StateBefore(acts, i), acts[i])
  }

  ghost predicate NoUpdateTook(acts: seq<Action>, c: nat, begun: nat) {
    forall i: nat :: begun < i < |acts| ==> !UpdateTook(acts, c, i)
  }

  /** The SET at `wroteAt` was that of a GetOrder which had read the row of `id` at `readAt`. */
  ghost predicate FilledAt(acts: seq<Action>, id: string, order: Order, readAt: nat, wroteAt: nat) {
    && readAt < wroteAt < |acts| && acts[wroteAt].CacheSet? && acts[wroteAt].ok
    && var f := acts[wroteAt].c;
       RowRead(acts, f, readAt) && HasFill(StateBefore(acts, wroteAt), f, id, order, readAt)
  }

  predicate HasFill(s: State, f: nat, id: string, order: Order, readAt: nat) {
    && f in s.calls && s.calls[f].Fill?
    && s.calls[f].id == id && s.calls[f].order == order && s.calls[f].readAt == readAt
  }

  /** The COMMIT at `b.committedAt` was that of the CreateOrder which began and saw its user then. */
  ghost predicate CommittedAt(acts: seq<Action>, id: string, userId: string, b: Birth) {
    && b.seenAt < b.committedAt < |acts| && acts[b.committedAt].Commit?
    && UserFound(acts, acts[b.committedAt].c, userId, b.items, b.begun, b.seenAt)
    && CommitsOrder(StateBefore(acts, b.committedAt), acts[b.committedAt], id)
  }

  predicate CommitsOrder(s: State, a: Action, id: string) {
    Commits(s, a) && s.calls[a.c].id == id
  }

  // ---------------------------------------------------------------- what every run keeps

  /** A GetOrder was answered by its own row query, */
  predicate AnsweredItself(acts: seq<Action>, c: nat, k: Call)
    requires k.GetDone?
  {
    && k.begun < k.readAt && RowRead(acts, c, k.readAt) && k.wroteAt == k.doneAt < |acts|
    && (if k.reply.NotFound? then k.readAt == k.doneAt
        else k.readAt < k.doneAt && acts[k.doneAt].CacheSet? && acts[k.doneAt].c == c)
  }

  /** or by the cache, with what a GetOrder wrote there. */
  ghost predicate AnsweredByCache(acts: seq<Action>, c: nat, k: Call)
    requires k.GetDone?
  {
    && k.reply.Found? && k.begun < k.doneAt < |acts| && acts[k.doneAt] == CacheGet(c, true)
    && k.wroteAt < k.doneAt && FilledAt(acts, k.id, k.reply.order, k.readAt, k.wroteAt)
  }

  ghost predicate GetTied(acts: seq<Action>, c: nat, k: Call)
    requires k.GetDone?
  {
    && GetBegan(acts, c, k.id, k.begun)
    && (k.reply != Failed ==> AnsweredItself(acts, c, k) || AnsweredByCache(acts, c, k))
  }

  ghost predicate CancelTied(acts: seq<Action>, c: nat, k: Call)
    requires k.CancelDone?
  {
    && CancelBegan(acts, c, k.id, k.begun)
    && (!k.updated ==> NoUpdateTook(acts, c, k.begun))
    && (k.reply.Found? ==> k.begun < k.readAt && RowRead(acts, c, k.readAt))
    && (k.reply.NotFound? ==> k.begun < k.readAt < |acts| && acts[k.readAt] == Update(c, Applied))
  }

  ghost predicate Tied(acts: seq<Action>, c: nat, k: Call) {
    match k
    case Lookup(id, begun) => GetBegan(acts, c, id, begun)
    case Fetch(who, id, begun) => Began(acts, c, who, id, begun)
    case Join(who, id, begun, _, readAt) => Began(acts, c, who, id, begun) && begun < readAt && RowRead(acts, c, readAt)
    case Fill(id, begun, _, readAt) => GetBegan(acts, c, id, begun) && begun < readAt && RowRead(acts, c, readAt)
    case Updating(id, begun) => CancelBegan(acts, c, id, begun) && NoUpdateTook(acts, c, begun)
    case Deleting(id, begun) => CancelBegan(acts, c, id, begun)
    case Checking(userId, items, begun) => CreateBegan(acts, c, userId, items, begun)
    case Opening(userId, items, begun, seenAt) => UserFound(acts, c, userId, items, begun, seenAt)
    case Writing(userId, items, begun, seenAt, _, _, _) => UserFound(acts, c, userId, items, begun, seenAt)
    case GetDone(_, _, _, _, _, _) => GetTied(acts, c, k)
    case CancelDone(_, _, _, _, _) => CancelTied(acts, c, k)
    case CreateDone(_, _, _) => true
  }

  ghost predicate CallTied(acts: seq<Action>, s: State, c: nat) {
    c in s.calls ==> Tied(acts, c, s.calls[c])
  }

  ghost predicate EntryTied(acts: seq<Action>, s: State, id: string) {
    id in s.w.cache ==>
      id in s.h.origin && FilledAt(acts, id, s.w.cache[id].order, s.h.origin[id].readAt, s.h.origin[id].wroteAt)
  }

  ghost predicate BirthTied(acts: seq<Action>, s: State, id: string) {
    id in s.w.tables.orders ==>
      id in s.h.born && CommittedAt(acts, id, s.w.tables.orders[id].userId, s.h.born[id])
  }

  ghost predicate RunTied(acts: seq<Action>, s: State) {
    && s == After(acts) && |s.h.past| == |acts|
    && (forall c :: CallTied(acts, s, c))
    && (forall id :: EntryTied(acts, s, id))
    && (forall id :: BirthTied(acts, s, id))
  }

  // ---------------------------------------------------------------- one action more

  lemma StateBeforeStays(acts: seq<Action>, a: Action, i: nat)
    requires i <= |acts|
    ensures StateBefore(acts + [a], i) == StateBefore(acts, i)
  {
    assert (acts + [a])[..i] == acts[..i];
  }

  lemma StateBeforeLast(acts: seq<Action>, a: Action)
    ensures StateBefore(acts + [a], |acts|) == After(acts)
    ensures After(acts + [a]) == Apply(After(acts), a)
  {
    assert (acts + [a])[..|acts|] == acts;
    ExecSplits(Init(), acts, [a]);
    ExecIs(After(acts), a, []);
    assert [a] + [] == [a];
  }

  lemma FilledStays(acts: seq<Action>, a: Action, id: string, order: Order, readAt: nat, wroteAt: nat)
    requires FilledAt(acts, id, order, readAt, wroteAt)
    ensures FilledAt(acts + [a], id, order, readAt, wroteAt)
  {
    StateBeforeStays(acts, a, wroteAt);
  }

  lemma NoUpdateStays(acts: seq<Action>, a: Action, c: nat, begun: nat)
    requires NoUpdateTook(acts, c, begun)
    requires !(a.Update? && a.c == c && Cancels(After(acts), a))
    ensures NoUpdateTook(acts + [a], c, begun)
  {
    forall i: nat | begun < i < |acts + [a]| ensures !UpdateTook(acts + [a], c, i) {
      if i < |acts| {
        StateBeforeStays(acts, a, i);
        assert !UpdateTook(acts, c, i);
      } else {
        StateBeforeLast(acts, a);
      }
    }
  }

  /** What ties a call to the run stays true while it waits. */
  lemma TieStays(acts: seq<Action>, a: Action, c: nat, k: Call)
    requires Tied(acts, c, k)
    requires !(a.Update? && a.c == c && Cancels(After(acts), a))
    ensures Tied(acts + [a], c, k)
  {
    match k {
      case GetDone(_, _, _, _, _, _) =>
        if k.reply != Failed && !AnsweredItself(acts, c, k) {
          FilledStays(acts, a, k.id, k.reply.order, k.readAt, k.wroteAt);
        }
      case Updating(_, begun) => NoUpdateStays(acts, a, c, begun);
      case CancelDone(_, begun, _, updated, _) => if !updated { NoUpdateStays(acts, a, c, begun); }
      case _ =>
    }
  }

  /** The action of a call ties what it makes of the call: a cache lookup, */
  lemma LookupTied(acts: seq<Action>, s: State, a: Action, k: Call)
    requires |s.h.past| == |acts| && a.CacheGet? && k.Lookup? && Tied(acts, a.c, k) && EntryTied(acts, s, k.id)
    ensures Tied(acts + [a], a.c, AfterCacheGet(s, k, a.ok))
  {
    var hit := CacheLookup(s.w.cache, k.id, s.w.now);
    if a.ok && hit.Some? {
      FilledStays(acts, a, k.id, hit.value, s.h.origin[k.id].readAt, s.h.origin[k.id].wroteAt);
    }
  }

  /** an UPDATE, */
  lemma UpdateTied(acts: seq<Action>, s: State, a: Action, k: Call)
    requires s == After(acts) && |s.h.past| == |acts| && a.Update? && a.c in s.calls && s.calls[a.c] == k
    requires k.Updating? && Tied(acts, a.c, k)
    ensures Tied(acts + [a], a.c, AfterUpdate(s, k, a.outcome))
  {
    if !Cancels(s, a) { NoUpdateStays(acts, a, a.c, k.begun); }
  }

  /** a read, a fill or a DEL, */
  lemma ReadTied(acts: seq<Action>, s: State, a: Action, k: Call)
    requires |s.h.past| == |acts| && (a.ReadRow? || a.ReadItems? || a.CacheSet? || a.Del?) && Tied(acts, a.c, k)
    requires CallOk(s.w.tables, s.h, k) && NextCall(s, a, k) != k
    ensures Tied(acts + [a], a.c, NextCall(s, a, k))
  {}

  /** and the steps of a CreateOrder. */
  lemma CreateTied(acts: seq<Action>, s: State, a: Action, k: Call)
    requires |s.h.past| == |acts| && (a.CheckUser? || a.InsertOrder? || a.InsertItem? || a.Commit?)
    requires Tied(acts, a.c, k)
    requires NextCall(s, a, k) != k
    ensures Tied(acts + [a], a.c, NextCall(s, a, k))
  {}

  lemma NewTied(acts: seq<Action>, s: State, a: Action)
    requires |s.h.past| == |acts| && Begins(a)
    ensures Tied(acts + [a], a.c, NewCall(s, a))
  {
    if a.BeginCancel? {
      assert NoUpdateTook(acts + [a], a.c, |acts|);
    }
  }

  lemma CallTiedAfter(acts: seq<Action>, s: State, a: Action, c: nat)
    requires s == After(acts) && |s.h.past| == |acts| && CallTied(acts, s, c) && CallAtOk(s, c)
    requires c in s.calls && s.calls[c].Lookup? ==> EntryTied(acts, s, s.calls[c].id)
    ensures CallTied(acts + [a], Apply(s, a), c)
  {
    var s' := Apply(s, a);
    if c in s'.calls {
      if c !in s.calls {
        NewTied(acts, s, a);
      } else if s'.calls[c] == s.calls[c] {
        TieStays(acts, a, c, s.calls[c]);
      } else if a.CacheGet? {
        LookupTied(acts, s, a, s.calls[c]);
      } else if a.Update? {
        UpdateTied(acts, s, a, s.calls[c]);
      } else if a.ReadRow? || a.ReadItems? || a.CacheSet? || a.Del? {
        ReadTied(acts, s, a, s.calls[c]);
      } else {
        CreateTied(acts, s, a, s.calls[c]);
      }
    }
  }

  lemma EntryTiedAfter(acts: seq<Action>, s: State, a: Action, id: string)
    requires s == After(acts) && |s.h.past| == |acts| && EntryTied(acts, s, id)
    requires Fills(s, a) ==> CallTied(acts, s, a.c) && CallAtOk(s, a.c)
    ensures EntryTied(acts + [a], Apply(s, a), id)
  {
    var s' := Apply(s, a);
    if id in s'.w.cache {
      if Fills(s, a) && s.calls[a.c].order.id == id {
        StateBeforeLast(acts, a);
      } else {
        FilledStays(acts, a, id, s.w.cache[id].order, s.h.origin[id].readAt, s.h.origin[id].wroteAt);
      }
    }
  }

  lemma CommitTied(acts: seq<Action>, s: State, a: Action)
    requires s == After(acts) && |s.h.past| == |acts| && Commits(s, a) && CallTied(acts, s, a.c) && CallAtOk(s, a.c)
    ensures BirthTied(acts + [a], Apply(s, a), s.calls[a.c].id)
  {
    StateBeforeLast(acts, a);
  }

  lemma BirthStaysTied(acts: seq<Action>, s: State, a: Action, id: string)
    requires id in s.w.tables.orders && BirthTied(acts, s, id)
    ensures BirthTied(acts + [a], Apply(s, a), id)
  {
    StateBeforeStays(acts, a, s.h.born[id].committedAt);
    assert Apply(s, a).w.tables.orders[id].userId == s.w.tables.orders[id].userId;
    assert Apply(s, a).h.born[id] == s.h.born[id];
  }

  lemma BirthTiedAfter(acts: seq<Action>, s: State, a: Action, id: string)
    requires s == After(acts) && |s.h.past| == |acts| && BirthTied(acts, s, id)
    requires Commits(s, a) ==> CallTied(acts, s, a.c) && CallAtOk(s, a.c)
    ensures BirthTied(acts + [a], Apply(s, a), id)
  {
    if id in s.w.tables.orders {
      BirthStaysTied(acts, s, a, id);
    } else if Commits(s, a) && s.calls[a.c].id == id {
      CommitTied(acts, s, a);
    }
  }

  lemma RunTiedAfter(acts: seq<Action>, s: State, a: Action)
    requires RunTied(acts, s) && Inv(s)
    ensures RunTied(acts + [a], Apply(s, a))
  {
    StateBeforeLast(acts, a);
    forall c ensures CallTied(acts + [a], Apply(s, a), c) {
      assert CallTied(acts, s, c) && CallAtOk(s, c);
      if c in s.calls && s.calls[c].Lookup? { assert EntryTied(acts, s, s.calls[c].id); }
      CallTiedAfter(acts, s, a, c);
    }
    forall id ensures EntryTied(acts + [a], Apply(s, a), id) {
      assert EntryTied(acts, s, id);
      if Fills(s, a) { assert CallTied(acts, s, a.c) && CallAtOk(s, a.c); }
      EntryTiedAfter(acts, s, a, id);
    }
    forall id ensures BirthTied(acts + [a], Apply(s, a), id) {
      assert BirthTied(acts, s, id);
      if Commits(s, a) { assert CallTied(acts, s, a.c) && CallAtOk(s, a.c); }
      BirthTiedAfter(acts, s, a, id);
    }
  }

  /** Every run is tied to its history. */
  lemma {:induction false} EveryRunIsTied(acts: seq<Action>)
    ensures RunTied(acts, After(acts))
    decreases |acts|
  {
    if acts != [] {
      var before, last := acts[..|acts| - 1], acts[|acts| - 1];
      assert acts == before + [last];
      EveryRunIsTied(before);
      AfterInv(before);
      RunTiedAfter(before, After(before), last);
      StateBeforeLast(before, last);
    }
  }

  // ---------------------------------------------------------------- updates and deletes

  ghost predicate UpdatesOrder(acts: seq<Action>, id: string, i: nat) {
    i < |acts| && Cancels(StateBefore(acts, i), acts[i]) && StateBefore(acts, i).calls[acts[i].c].id == id
  }

  ghost predicate DeletesOrder(acts: seq<Action>, id: string, i: nat) {
    i < |acts| && Deletes(StateBefore(acts, i), acts[i]) && StateBefore(acts, i).calls[acts[i].c].id == id
  }

  ghost predicate LeaksOrder(acts: seq<Action>, id: string, i: nat) {
    i < |acts| && Leaks(StateBefore(acts, i), acts[i]) && StateBefore(acts, i).calls[acts[i].c].id == id
  }

  ghost predicate UpdatesTied(acts: seq<Action>, h: History, id: string) {
    && (id in h.firstUpdate ==> UpdatesOrder(acts, id, h.firstUpdate[id]))
    && (forall i: nat :: UpdatesOrder(acts, id, i) ==> id in h.firstUpdate && h.firstUpdate[id] <= i)
  }

  ghost predicate DeletesTied(acts: seq<Action>, h: History, id: string) {
    && (id in h.lastDel ==> DeletesOrder(acts, id, h.lastDel[id]))
    && (forall i: nat :: DeletesOrder(acts, id, i) ==> id in h.lastDel && i <= h.lastDel[id])
  }

  ghost predicate LeaksTied(acts: seq<Action>, h: History, id: string) {
    id in h.leaked <==> exists i: nat :: LeaksOrder(acts, id, i)
  }

  /** What an action did to an order does not depend on what comes later. */
  lemma EarlierStays(acts: seq<Action>, a: Action, id: string, i: nat)
    requires i < |acts|
    ensures UpdatesOrder(acts + [a], id, i) <==> UpdatesOrder(acts, id, i)
    ensures DeletesOrder(acts + [a], id, i) <==> DeletesOrder(acts, id, i)
    ensures LeaksOrder(acts + [a], id, i) <==> LeaksOrder(acts, id, i)
  {
    StateBeforeStays(acts, a, i);
  }

  lemma LastIsNow(acts: seq<Action>, a: Action, id: string)
    ensures var s := After(acts);
      && (UpdatesOrder(acts + [a], id, |acts|) <==> Cancels(s, a) && s.calls[a.c].id == id)
      && (DeletesOrder(acts + [a], id, |acts|) <==> Deletes(s, a) && s.calls[a.c].id == id)
      && (LeaksOrder(acts + [a], id, |acts|) <==> Leaks(s, a) && s.calls[a.c].id == id)
  {
    StateBeforeLast(acts, a);
  }

  lemma UpdatesTiedAfter(acts: seq<Action>, s: State, a: Action, id: string)
    requires s == After(acts) && |s.h.past| == |acts| && UpdatesTied(acts, s.h, id)
    ensures UpdatesTied(acts + [a], NextHistory(s, a), id)
  {
    LastIsNow(acts, a, id);
    if id in s.h.firstUpdate { EarlierStays(acts, a, id, s.h.firstUpdate[id]); }
    forall i: nat | UpdatesOrder(acts + [a], id, i)
      ensures id in NextHistory(s, a).firstUpdate && NextHistory(s, a).firstUpdate[id] <= i
    {
      if i < |acts| { EarlierStays(acts, a, id, i); }
    }
  }

  lemma DeletesTiedAfter(acts: seq<Action>, s: State, a: Action, id: string)
    requires s == After(acts) && |s.h.past| == |acts| && DeletesTied(acts, s.h, id)
    ensures DeletesTied(acts + [a], NextHistory(s, a), id)
  {
    LastIsNow(acts, a, id);
    if id in s.h.lastDel { EarlierStays(acts, a, id, s.h.lastDel[id]); }
    forall i: nat | DeletesOrder(acts + [a], id, i)
      ensures id in NextHistory(s, a).lastDel && i <= NextHistory(s, a).lastDel[id]
    {
      if i < |acts| { EarlierStays(acts, a, id, i); }
    }
  }

  lemma LeaksTiedAfter(acts: seq<Action>, s: State, a: Action, id: string)
    requires s == After(acts) && |s.h.past| == |acts| && LeaksTied(acts, s.h, id)
    ensures LeaksTied(acts + [a], NextHistory(s, a), id)
  {
    LastIsNow(acts, a, id);
    if id in s.h.leaked {
      var i: nat :| LeaksOrder(acts, id, i);
      EarlierStays(acts, a, id, i);
    }
    if i: nat :| LeaksOrder(acts + [a], id, i) && i < |acts| {
      EarlierStays(acts, a, id, i);
    }
  }

  /** The history knows the first effective UPDATE of every order, the last successful DEL, and
      whether a DEL was ever lost. */
  lemma {:induction false} HistoryIsTied(acts: seq<Action>, id: string)
    ensures var h := After(acts).h;
      |h.past| == |acts| && UpdatesTied(acts, h, id) && DeletesTied(acts, h, id) && LeaksTied(acts, h, id)
    decreases |acts|
  {
    HistoryGrows(Init(), acts);
    if acts != [] {
      var before, last := acts[..|acts| - 1], acts[|acts| - 1];
      assert acts == before + [last];
      HistoryIsTied(before, id);
      StateBeforeLast(before, last);
      UpdatesTiedAfter(before, After(before), last, id);
      DeletesTiedAfter(before, After(before), last, id);
      LeaksTiedAfter(before, After(before), last, id);
    }
  }
}
