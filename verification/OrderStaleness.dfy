/** When a cached order differs from the database, and when a cancel makes that impossible. */
module OrderStaleness {
  import opened OrderModel
  import opened OrderSystem
  import opened OrderInvariants

  /** The cache holds something else than the database does. */
  ghost predicate Stale(s: State, id: string) {
    id in s.w.cache && !Answers(s.w.tables, id, Found(s.w.cache[id].order))
  }

  /** A CancelOrder of `id` sits between its UPDATE and its DEL. */
  ghost predicate CancelInFlight(s: State, id: string) {
    exists c :: c in s.calls && s.calls[c].Deleting? && s.calls[c].id == id
  }

  predicate UpdatedBefore(h: History, id: string, i: nat) {
    id in h.firstUpdate && h.firstUpdate[id] < i
  }

  /** At instant `i` the row was cancelled exactly when an UPDATE had come before. */
  ghost predicate UpdateOk(s: State, i: nat, id: string) {
    i <= |s.h.past| && id in WorldAt(s, i).tables.orders ==>
      (IsCancelled(WorldAt(s, i).tables, id) <==> UpdatedBefore(s.h, id, i))
  }

  ghost predicate UpdatesOk(s: State) {
    && (forall id :: id in s.h.firstUpdate ==> id in s.w.tables.orders && s.h.firstUpdate[id] < |s.h.past|)
    && (forall i: nat, id :: UpdateOk(s, i, id))
  }

  ghost predicate DelOk(s: State, id: string) {
    && (id in s.h.lastDel ==>
          UpdatedBefore(s.h, id, s.h.lastDel[id]) && s.h.lastDel[id] < |s.h.past|)
    && (id in s.h.lastDel && id in s.w.cache ==> s.h.lastDel[id] < OriginOf(s, id).wroteAt)
    && (id in s.h.firstUpdate && id !in s.h.leaked && id !in s.h.lastDel ==> CancelInFlight(s, id))
  }

  ghost predicate DelsOk(s: State) { forall id :: DelOk(s, id) }

  lemma UpdateAfter(s: State, a: Action, i: nat, id: string)
    requires UpdatesOk(s) && CallsOk(s) && TablesOk(s.w.tables)
    ensures UpdateOk(Apply(s, a), i, id)
  {
    var s' := Apply(s, a);
    if i <= |s.h.past| {
      assert WorldAt(s', i) == WorldAt(s, i);
      assert UpdateOk(s, i, id);
    } else if i <= |s'.h.past| {
      assert UpdateOk(s, |s.h.past|, id);
      if Commits(s, a) { assert CallAtOk(s, a.c); }
    }
  }

  lemma UpdatesAfter(s: State, a: Action)
    requires UpdatesOk(s) && CallsOk(s) && TablesOk(s.w.tables)
    ensures UpdatesOk(Apply(s, a))
  {
    forall i: nat, id ensures UpdateOk(Apply(s, a), i, id) { UpdateAfter(s, a, i, id); }
  }

  lemma DelAfter(s: State, a: Action, id: string)
    requires CallsOk(s) && UpdatesOk(s) && DelOk(s, id)
    ensures DelOk(Apply(s, a), id)
  {
    var s' := Apply(s, a);
    if Deletes(s, a) {
      assert CallAtOk(s, a.c) && UpdateOk(s, |s.h.past|, s.calls[a.c].id);
    }
    if id in s'.h.firstUpdate && id !in s'.h.leaked && id !in s'.h.lastDel {
      if id !in s.h.firstUpdate {
        assert s'.calls[a.c] == Deleting(id, s.calls[a.c].begun);
      } else {
        StillInFlight(s, a, id);
      }
    }
  }

  lemma StillInFlight(s: State, a: Action, id: string)
    requires CancelInFlight(s, id) && id !in NextHistory(s, a).leaked && id !in NextHistory(s, a).lastDel
    ensures CancelInFlight(Apply(s, a), id)
  {
    var c :| c in s.calls && s.calls[c].Deleting? && s.calls[c].id == id;
    assert c in Apply(s, a).calls && Apply(s, a).calls[c] == s.calls[c];
  }

  lemma {:induction false} StaleInvExec(s: State, acts: seq<Action>)
    requires Inv(s) && UpdatesOk(s) && DelsOk(s)
    ensures UpdatesOk(Exec(s, acts)) && DelsOk(Exec(s, acts))
    decreases |acts|
  {
    if acts != [] {
      InvAfter(s, acts[0]);
      UpdatesAfter(s, acts[0]);
      forall id ensures DelOk(Apply(s, acts[0]), id) { assert DelOk(s, id); DelAfter(s, acts[0], id); }
      StaleInvExec(Apply(s, acts[0]), acts[1..]);
    }
  }

  lemma ReachableStaleInv(s: State)
    requires Reachable(s)
    ensures Inv(s) && UpdatesOk(s) && DelsOk(s)
  {
    var acts :| s == Exec(Init(), acts);
    ReachableInv(s);
    StaleInvExec(Init(), acts);
  }

  /** What one cache entry, the row it was read from and the present row have to do with each other. */
  lemma EntryFacts(s: State, id: string)
    requires Inv(s) && id in s.w.cache
    ensures id in s.w.tables.orders && id in s.h.origin && s.h.origin[id].readAt < |s.h.past|
    ensures var o := s.w.cache[id].order;
            var was := s.h.past[s.h.origin[id].readAt].tables;
            var row := s.w.tables.orders[id];
            && id in was.orders
            && o == BuildOrder(id, was.orders[id], o.items)
            && multiset(o.items) == multiset(ItemsOf(s.w.tables.items, id))
            && was.orders[id].status in {PENDING, CANCELLED} && row.status in {PENDING, CANCELLED}
            && (was.orders[id] == row || was.orders[id].(status := CANCELLED) == row)
  {
    assert EntryOk(s, id) && MomentOk(s, s.h.origin[id].readAt);
    var was := s.h.past[s.h.origin[id].readAt].tables;
    assert GrowsAt(was, s.w.tables, id) && OrderOk(was, id) && OrderOk(s.w.tables, id);
  }

  /** Everything in a cached order except its status is what the database has, always. */
  lemma OnlyStatusCanBeStale(s: State, id: string)
    requires Reachable(s) && id in s.w.cache
    ensures id in s.w.tables.orders
    ensures Answers(s.w.tables, id,
              Found(s.w.cache[id].order.(status := ParseOrderStatus(s.w.tables.orders[id].status))))
  {
    ReachableInv(s);
    EntryFacts(s, id);
  }

  /** The status is stale exactly when the entry was filled from a row read before the first
      UPDATE of the order, and one of three things happened to the DELs: none has succeeded and
      one is still to come, none has succeeded and one was lost, or the fill wrote after the last
      of them. Instant `i` is the world before action number `i`. */
  lemma StaleExactly(s: State, id: string)
    requires Reachable(s)
    ensures Stale(s, id) <==>
      && id in s.w.cache && id in s.h.firstUpdate
      && OriginOf(s, id).readAt <= s.h.firstUpdate[id]
      && (if id in s.h.lastDel
          then s.h.firstUpdate[id] < s.h.lastDel[id] < OriginOf(s, id).wroteAt
          else CancelInFlight(s, id) || id in s.h.leaked)
  {
    ReachableStaleInv(s);
    assert DelOk(s, id);
    if id in s.w.cache {
      EntryFacts(s, id);
      assert UpdateOk(s, s.h.origin[id].readAt, id) && UpdateOk(s, |s.h.past|, id);
    }
  }

  // ---------------------------------------------------------------- a cancel that settles the matter

  /** A GetOrder holds the order as it was before its first UPDATE and has yet to write it. */
  ghost predicate HoldsOldRow(k: Call, id: string) {
    || (k.Join? && k.who == ForGet && k.id == id && k.row.status != CANCELLED)
    || (k.Fill? && k.id == id && k.order.status != Cancelled)
  }

  ghost predicate OldFillInFlight(s: State, id: string) {
    exists c :: c in s.calls && HoldsOldRow(s.calls[c], id)
  }

  /** Nothing in the system remembers the order as anything but cancelled. */
  ghost predicate Settled(s: State, id: string) {
    && IsCancelled(s.w.tables, id)
    && !OldFillInFlight(s, id)
    && (id in s.w.cache ==> s.w.cache[id].order.status == Cancelled)
  }

  lemma NextCallHolds(s: State, a: Action, k: Call, id: string)
    requires IsCancelled(s.w.tables, id) && !HoldsOldRow(k, id)
    ensures !HoldsOldRow(NextCall(s, a, k), id)
  {}

  lemma SettledAfter(s: State, a: Action, id: string)
    requires Inv(s) && Settled(s, id)
    ensures Settled(Apply(s, a), id)
  {
    var s' := Apply(s, a);
    TablesAfter(s, a);
    assert GrowsAt(s.w.tables, s'.w.tables, id);
    forall c | c in s'.calls ensures !HoldsOldRow(s'.calls[c], id) {
      if c in s.calls {
        assert !HoldsOldRow(s.calls[c], id);
        NextCallHolds(s, a, s.calls[c], id);
      }
    }
    if Fills(s, a) {
      assert CallAtOk(s, a.c) && !HoldsOldRow(s.calls[a.c], id);
    }
  }

  lemma SettledNotStale(s: State, id: string)
    requires Inv(s) && Settled(s, id)
    ensures !Stale(s, id)
  {
    if id in s.w.cache { EntryFacts(s, id); }
  }

  lemma {:induction false} SettledForever(s: State, acts: seq<Action>, id: string)
    requires Inv(s) && Settled(s, id)
    ensures !Stale(Exec(s, acts), id)
    decreases |acts|
  {
    if acts == [] {
      SettledNotStale(s, id);
    } else {
      InvAfter(s, acts[0]);
      SettledAfter(s, acts[0], id);
      SettledForever(Apply(s, acts[0]), acts[1..], id);
    }
  }

  /** The schedule that lets an old fill through: its items query, if still to come, and its SET. */
  lemma OldSetMakesStale(s: State, c: nat, id: string)
    requires c in s.calls && CallAtOk(s, c) && HoldsOldRow(s.calls[c], id) && s.calls[c].Fill?
    requires IsCancelled(s.w.tables, id)
    ensures Stale(Exec(s, [CacheSet(c, true)]), id)
  {
    var s1 := Apply(s, CacheSet(c, true));
    assert Exec(s, [CacheSet(c, true)]) == s1 by {
      assert [CacheSet(c, true)][1..] == [];
    }
    assert id in s1.w.cache && s1.w.cache[id].order == s.calls[c].order;
    assert IsCancelled(s1.w.tables, id);
  }

  lemma OldReadLeadsToOldSet(s: State, c: nat, id: string, read: Action)
    requires Inv(s) && c in s.calls && HoldsOldRow(s.calls[c], id) && s.calls[c].Join?
    requires read == ReadItems(c, true, ItemsOf(s.w.tables.items, id)) && IsCancelled(s.w.tables, id)
    ensures var s1 := Apply(s, read);
            && c in s1.calls && CallAtOk(s1, c) && HoldsOldRow(s1.calls[c], id) && s1.calls[c].Fill?
            && IsCancelled(s1.w.tables, id)
  {
    var k := s.calls[c];
    assert CallAtOk(s, c) && MomentOk(s, k.readAt);
    assert OrderOk(s.h.past[k.readAt].tables, id);
    CallsAfter(s, read);
    assert CallAtOk(Apply(s, read), c);
  }

  lemma OldFillMakesStale(s: State, c: nat, id: string) returns (acts: seq<Action>)
    requires Inv(s) && c in s.calls && HoldsOldRow(s.calls[c], id) && IsCancelled(s.w.tables, id)
    ensures Stale(Exec(s, acts), id)
  {
    assert CallAtOk(s, c);
    if s.calls[c].Fill? {
      acts := [CacheSet(c, true)];
      OldSetMakesStale(s, c, id);
    } else {
      var read := ReadItems(c, true, ItemsOf(s.w.tables.items, id));
      OldReadLeadsToOldSet(s, c, id, read);
      OldSetMakesStale(Apply(s, read), c, id);
      acts := [read, CacheSet(c, true)];
      assert acts[1..] == [CacheSet(c, true)];
    }
  }

  lemma DelSettles(s: State, c: nat, id: string)
    requires Inv(s) && c in s.calls && s.calls[c].Deleting? && s.calls[c].id == id
    requires !OldFillInFlight(s, id)
    ensures Settled(Apply(s, Del(c, true)), id)
  {
    var s1 := Apply(s, Del(c, true));
    assert CallAtOk(s, c);
    forall g | g in s1.calls ensures !HoldsOldRow(s1.calls[g], id) {
      assert !HoldsOldRow(s.calls[g], id);
    }
  }

  /** However the run goes on, the cache never again differs from the database on `id`. */
  ghost predicate CoherentForever(s: State, id: string) {
    forall acts :: !Stale(Exec(s, acts), id)
  }

  /** A successful DEL of a cancel settles its order for the rest of every run, exactly when no
      GetOrder is still on its way to write an older row into the cache. */
  lemma CancelSettlesExactly(s: State, c: nat, id: string)
    requires Reachable(s) && c in s.calls && s.calls[c].Deleting? && s.calls[c].id == id
    ensures CoherentForever(Apply(s, Del(c, true)), id) <==> !OldFillInFlight(s, id)
  {
    ReachableInv(s);
    var s1 := Apply(s, Del(c, true));
    InvAfter(s, Del(c, true));
    if OldFillInFlight(s, id) {
      var g :| g in s.calls && HoldsOldRow(s.calls[g], id);
      assert s1.calls[g] == s.calls[g];
      assert CallAtOk(s, c);
      var acts := OldFillMakesStale(s1, g, id);
    } else {
      DelSettles(s, c, id);
      forall acts ensures !Stale(Exec(s1, acts), id) { SettledForever(s1, acts, id); }
    }
  }
}
