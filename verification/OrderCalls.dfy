/** What one repository call does when nothing runs beside it, as functions of the database and
    the cache, and the proof that each is an uninterrupted run of the transition system. */
module OrderCalls {
  import opened OrderModel
  import opened OrderSystem
  import Text

  /** The database and the cache; with no Redis client configured the cache stays empty. */
  datatype Store = Store(tables: Tables, cache: map<string, Cached>)

  /** Which of the commands of a GetOrder succeed. */
  datatype GetFaults = GetFaults(readOk: bool, rowOk: bool, itemsOk: bool, setOk: bool)

  datatype CancelFaults = CancelFaults(update: Outcome, delOk: bool, rowOk: bool, itemsOk: bool)

  /** `failAt` is the item whose INSERT fails, if there is such an item. */
  datatype CreateFaults = CreateFaults(insertOk: bool, failAt: nat, commit: Outcome)

  /** getFromDB. */
  function FetchReply(t: Tables, id: string, rowOk: bool, itemsOk: bool): Reply {
    if !rowOk then Failed
    else if id !in t.orders then NotFound
    else if !itemsOk then Failed
    else Found(BuildOrder(id, t.orders[id], ItemsOf(t.items, id)))
  }

  function GetReply(s: Store, hasCache: bool, now: nat, id: string, f: GetFaults): Reply {
    if hasCache && f.readOk && CacheLookup(s.cache, id, now).Some?
    then Found(CacheLookup(s.cache, id, now).value)
    else FetchReply(s.tables, id, f.rowOk, f.itemsOk)
  }

  function GetStore(s: Store, hasCache: bool, now: nat, id: string, f: GetFaults): Store {
    if hasCache && f.readOk && CacheLookup(s.cache, id, now).Some? then s
    else
      var reply := FetchReply(s.tables, id, f.rowOk, f.itemsOk);
      if hasCache && reply.Found? && f.setOk then s.(cache := CachePut(s.cache, reply.order, now)) else s
  }

  function CancelReply(s: Store, id: string, f: CancelFaults): Reply {
    if !f.update.Applied? then Failed
    else if id !in s.tables.orders then NotFound
    else FetchReply(CancelRow(s.tables, id), id, f.rowOk, f.itemsOk)
  }

  function CancelStore(s: Store, hasCache: bool, id: string, f: CancelFaults): Store {
    if f.update.NotApplied? || id !in s.tables.orders then s
    else Store(CancelRow(s.tables, id),
               if f.update.Applied? && hasCache && f.delOk then CacheDrop(s.cache, id) else s.cache)
  }

  predicate CreateSucceeds(t: Tables, id: string, items: seq<Item>, f: CreateFaults) {
    && f.insertOk && id !in t.orders && FitsNumeric(RoundCents(Total(items)))
    && f.failAt >= |items|
    && (forall i :: 0 <= i < |items| ==> FitsItem(ToRow(id, items[i])))
  }

  function CreateReply(t: Tables, now: nat, userId: string, items: seq<Item>, id: string, f: CreateFaults): Reply {
    if CreateSucceeds(t, id, items, f) && f.commit.Applied?
    then Found(Order(id, userId, items, Total(items), Pending, now))
    else Failed
  }

  function CreateTables(t: Tables, now: nat, userId: string, items: seq<Item>, id: string, f: CreateFaults): Tables {
    if CreateSucceeds(t, id, items, f) && !f.commit.NotApplied?
    then CommitOrder(t, id, NewRow(userId, items, now), RowsFor(id, items))
    else t
  }

  // ---------------------------------------------------------------- calls are runs

  function StoreOf(s: State): Store { Store(s.w.tables, s.w.cache) }

  ghost function Exec2(s: State, a: Action, b: Action): State { Apply(Apply(s, a), b) }

  /** The actions of one GetOrder, nothing between them. */
  ghost function GetActions(t: Tables, c: nat, id: string, f: GetFaults): seq<Action> {
    [BeginGet(c, id), CacheGet(c, f.readOk), ReadRow(c, f.rowOk),
     ReadItems(c, f.itemsOk, ItemsOf(t.items, id)), CacheSet(c, f.setOk)]
  }

  ghost function CancelActions(t: Tables, c: nat, id: string, f: CancelFaults): seq<Action> {
    [BeginCancel(c, id), Update(c, f.update), Del(c, f.delOk), ReadRow(c, f.rowOk),
     ReadItems(c, f.itemsOk, ItemsOf(t.items, id))]
  }

  /** Reading the row and the items with nothing between. */
  lemma FetchIsARun(s: State, c: nat, rowOk: bool, itemsOk: bool)
    requires c in s.calls && s.calls[c].Fetch?
    ensures var k := s.calls[c];
      var s' := Exec2(s, ReadRow(c, rowOk), ReadItems(c, itemsOk, ItemsOf(s.w.tables.items, k.id)));
      && s'.w == s.w && c in s'.calls
      && var reply := FetchReply(s.w.tables, k.id, rowOk, itemsOk);
         if reply.Found? && k.who == ForGet then s'.calls[c].Fill? && s'.calls[c].order == reply.order
         else (s'.calls[c].GetDone? || s'.calls[c].CancelDone?) && s'.calls[c].reply == reply
              && (s'.calls[c].GetDone? <==> k.who == ForGet)
  {}

  /** The cache GET with nothing before it: an answer, or a read follows. */
  lemma GetHeadIsARun(s: State, c: nat, id: string, ok: bool)
    requires c !in s.calls && id != ""
    ensures var s' := Exec2(s, BeginGet(c, id), CacheGet(c, ok));
      var hit := CacheLookup(s.w.cache, id, s.w.now);
      && s'.w == s.w && c in s'.calls
      && (if ok && hit.Some? then s'.calls[c].GetDone? && s'.calls[c].reply == Found(hit.value)
          else s'.calls[c].Fetch? && s'.calls[c].who == ForGet && s'.calls[c].id == id)
  {}

  lemma SetIsARun(s: State, c: nat, ok: bool)
    requires c in s.calls && (s.calls[c].Fill? || s.calls[c].GetDone?)
    ensures var s' := Apply(s, CacheSet(c, ok));
      && c in s'.calls && s'.calls[c].GetDone? && s'.w.tables == s.w.tables
      && (if s.calls[c].Fill? then
            && s'.calls[c].reply == Found(s.calls[c].order)
            && s'.w.cache == if ok then CachePut(s.w.cache, s.calls[c].order, s.w.now) else s.w.cache
          else s'.calls[c] == s.calls[c] && s'.w.cache == s.w.cache)
  {}

  /** GetOrder run alone: the reply and the cache are those of `GetReply` and `GetStore`. */
  lemma GetIsARun(s: State, c: nat, id: string, f: GetFaults)
    requires c !in s.calls && id != ""
    ensures var s' := Exec(s, GetActions(s.w.tables, c, id, f));
      && StoreOf(s') == GetStore(StoreOf(s), true, s.w.now, id, f)
      && c in s'.calls && s'.calls[c].GetDone?
      && s'.calls[c].reply == GetReply(StoreOf(s), true, s.w.now, id, f)
  {
    var items := ItemsOf(s.w.tables.items, id);
    ExecFive(s, BeginGet(c, id), CacheGet(c, f.readOk), ReadRow(c, f.rowOk),
             ReadItems(c, f.itemsOk, items), CacheSet(c, f.setOk));
    var s2 := Exec2(s, BeginGet(c, id), CacheGet(c, f.readOk));
    var s4 := Exec2(s2, ReadRow(c, f.rowOk), ReadItems(c, f.itemsOk, items));
    GetHeadIsARun(s, c, id, f.readOk);
    if s2.calls[c].Fetch? {
      FetchIsARun(s2, c, f.rowOk, f.itemsOk);
    } else {
      DoneStays(s2, c, f.rowOk, f.itemsOk, items);
    }
    SetIsARun(s4, c, f.setOk);
  }

  /** The UPDATE and the DEL with nothing between: a read follows, or the call has failed. */
  lemma CancelHeadIsARun(s: State, c: nat, id: string, f: CancelFaults)
    requires c in s.calls && s.calls[c].Updating? && s.calls[c].id == id
    ensures var s' := Exec2(s, Update(c, f.update), Del(c, f.delOk));
      && s'.w.tables == CancelStore(StoreOf(s), true, id, f).tables
      && s'.w.cache == CancelStore(StoreOf(s), true, id, f).cache
      && c in s'.calls
      && (if f.update.Applied? && id in s.w.tables.orders
          then s'.calls[c].Fetch? && s'.calls[c].who == ForCancel && s'.calls[c].id == id
          else s'.calls[c].CancelDone? && s'.calls[c].reply == CancelReply(StoreOf(s), id, f))
  {}

  /** Nothing the reading actions do concerns a call that is over. */
  lemma DoneStays(s: State, c: nat, rowOk: bool, itemsOk: bool, rows: seq<Item>)
    requires c in s.calls && (s.calls[c].CancelDone? || s.calls[c].GetDone?)
    ensures var s' := Exec2(s, ReadRow(c, rowOk), ReadItems(c, itemsOk, rows));
            s'.w == s.w && c in s'.calls && s'.calls[c] == s.calls[c]
  {}

  /** CancelOrder run alone. */
  lemma CancelIsARun(s: State, c: nat, id: string, f: CancelFaults)
    requires c !in s.calls && id != ""
    ensures var s' := Exec(s, CancelActions(s.w.tables, c, id, f));
      && StoreOf(s') == CancelStore(StoreOf(s), true, id, f)
      && c in s'.calls && s'.calls[c].CancelDone?
      && s'.calls[c].reply == CancelReply(StoreOf(s), id, f)
  {
    var acts := CancelActions(s.w.tables, c, id, f);
    ExecFive(s, acts[0], acts[1], acts[2], acts[3], acts[4]);
    var s1 := Apply(s, acts[0]);
    var s3 := Exec2(s1, acts[1], acts[2]);
    CancelHeadIsARun(s1, c, id, f);
    if s3.calls[c].Fetch? {
      FetchIsARun(s3, c, f.rowOk, f.itemsOk);
    } else {
      DoneStays(s3, c, f.rowOk, f.itemsOk, ItemsOf(s.w.tables.items, id));
    }
  }

  /** The INSERTs of the items from number `i` on. */
  ghost function InsertActions(c: nat, i: nat, n: nat, f: CreateFaults): seq<Action>
    requires i <= n
    decreases n - i
  {
    if i == n then [] else [InsertItem(c, i != f.failAt)] + InsertActions(c, i + 1, n, f)
  }

  lemma {:induction false} NoMoreInserts(s: State, c: nat, i: nat, n: nat, f: CreateFaults)
    requires i <= n && c in s.calls && s.calls[c].CreateDone?
    ensures var s' := Exec(s, InsertActions(c, i, n, f)); s'.w == s.w && c in s'.calls && s'.calls[c] == s.calls[c]
    decreases n - i
  {
    if i < n {
      ExecIs(s, InsertItem(c, i != f.failAt), InsertActions(c, i + 1, n, f));
      NoMoreInserts(Apply(s, InsertItem(c, i != f.failAt)), c, i + 1, n, f);
    }
  }

  /** Every item from number `i` on can be inserted. */
  predicate AllInsert(id: string, items: seq<Item>, i: nat, f: CreateFaults) {
    && (i <= f.failAt < |items| ==> false)
    && (forall j :: i <= j < |items| ==> FitsItem(ToRow(id, items[j])))
  }

  lemma OneInsert(s: State, c: nat, k: Call, i: nat, f: CreateFaults)
    requires c in s.calls && s.calls[c] == k && k.Writing? && i == |k.written| < |k.items|
    requires k.written == RowsFor(k.id, k.items)[..i]
    ensures var s1 := Apply(s, InsertItem(c, i != f.failAt));
      && s1.w == s.w && c in s1.calls
      && s1.calls[c] == if i != f.failAt && FitsItem(ToRow(k.id, k.items[i]))
                        then k.(written := RowsFor(k.id, k.items)[..i + 1])
                        else CreateDone(k.userId, k.items, Failed)
  {
    assert RowsFor(k.id, k.items)[..i] + [ToRow(k.id, k.items[i])] == RowsFor(k.id, k.items)[..i + 1];
  }

  lemma {:induction false} InsertsAreARun(s: State, c: nat, k: Call, i: nat, f: CreateFaults)
    requires c in s.calls && s.calls[c] == k && k.Writing? && i == |k.written| <= |k.items|
    requires k.written == RowsFor(k.id, k.items)[..i]
    ensures var s' := Exec(s, InsertActions(c, i, |k.items|, f));
      && s'.w == s.w && c in s'.calls
      && s'.calls[c] == if AllInsert(k.id, k.items, i, f)
                        then k.(written := RowsFor(k.id, k.items))
                        else CreateDone(k.userId, k.items, Failed)
    decreases |k.items| - i
  {
    if i == |k.items| {
      assert k.written == RowsFor(k.id, k.items);
    } else {
      var a := InsertItem(c, i != f.failAt);
      var s1 := Apply(s, a);
      ExecIs(s, a, InsertActions(c, i + 1, |k.items|, f));
      OneInsert(s, c, k, i, f);
      if s1.calls[c].Writing? {
        InsertsAreARun(s1, c, k.(written := RowsFor(k.id, k.items)[..i + 1]), i + 1, f);
      } else {
        NoMoreInserts(s1, c, i + 1, |k.items|, f);
      }
    }
  }

  /** The repository part of one CreateOrder. */
  ghost function CreateActions(c: nat, n: nat, id: string, f: CreateFaults): seq<Action> {
    [InsertOrder(c, id, f.insertOk)] + (InsertActions(c, 0, n, f) + [Commit(c, f.commit)])
  }

  /** The first INSERT, and the COMMIT of what has been written. */
  lemma CreateHeadIsARun(s: State, c: nat, k: Call, id: string, ok: bool)
    requires c in s.calls && s.calls[c] == k && k.Opening?
    ensures var s' := Apply(s, InsertOrder(c, id, ok));
      && s'.w == s.w && c in s'.calls
      && s'.calls[c] == if ok && id !in s.w.tables.orders && FitsNumeric(RoundCents(Total(k.items)))
                        then Writing(k.userId, k.items, k.begun, k.seenAt, id, NewRow(k.userId, k.items, s.w.now), [])
                        else CreateDone(k.userId, k.items, Failed)
  {}

  lemma CommitIsARun(s: State, c: nat, k: Call, outcome: Outcome)
    requires c in s.calls && s.calls[c] == k
    requires k.CreateDone? || (k.Writing? && |k.written| == |k.items| && k.id !in s.w.tables.orders)
    ensures var s' := Apply(s, Commit(c, outcome));
      && c in s'.calls && s'.calls[c].CreateDone? && s'.w.cache == s.w.cache && s'.w.users == s.w.users
      && (if k.CreateDone? then s'.calls[c] == k && s'.w.tables == s.w.tables
          else
            && s'.w.tables == (if outcome.NotApplied? then s.w.tables
                               else CommitOrder(s.w.tables, k.id, k.row, k.written))
            && s'.calls[c].reply ==
               if outcome.Applied?
               then Found(Order(k.id, k.userId, k.items, Total(k.items), Pending, k.row.createdAt)) else Failed)
  {}

  lemma CreateActionsSplit(s: State, c: nat, n: nat, id: string, f: CreateFaults)
    ensures Exec(s, CreateActions(c, n, id, f))
         == Apply(Exec(Apply(s, InsertOrder(c, id, f.insertOk)), InsertActions(c, 0, n, f)), Commit(c, f.commit))
  {
    var head, inserts, commit := InsertOrder(c, id, f.insertOk), InsertActions(c, 0, n, f), Commit(c, f.commit);
    ExecIs(s, head, inserts + [commit]);
    ExecSplits(Apply(s, head), inserts, [commit]);
    ExecIs(Exec(Apply(s, head), inserts), commit, []);
    assert [commit] + [] == [commit];
  }

  /** Create run alone, for a request whose user has been found. */
  lemma CreateIsARun(s: State, c: nat, id: string, f: CreateFaults)
    requires c in s.calls && s.calls[c].Opening?
    ensures var k := s.calls[c];
      var s' := Exec(s, CreateActions(c, |k.items|, id, f));
      && s'.w.tables == CreateTables(s.w.tables, s.w.now, k.userId, k.items, id, f)
      && s'.w.cache == s.w.cache && s'.w.users == s.w.users
      && c in s'.calls && s'.calls[c].CreateDone?
      && s'.calls[c].reply == CreateReply(s.w.tables, s.w.now, k.userId, k.items, id, f)
  {
    var k := s.calls[c];
    var head, inserts, commit := InsertOrder(c, id, f.insertOk), InsertActions(c, 0, |k.items|, f), Commit(c, f.commit);
    var s1 := Apply(s, head);
    var s2 := Exec(s1, inserts);
    CreateHeadIsARun(s, c, k, id, f.insertOk);
    if s1.calls[c].Writing? {
      InsertsAreARun(s1, c, s1.calls[c], 0, f);
    } else {
      NoMoreInserts(s1, c, 0, |k.items|, f);
    }
    CommitIsARun(s2, c, s2.calls[c], f.commit);
    CreateActionsSplit(s, c, |k.items|, id, f);
  }

  /** A whole CreateOrder: validation, the look for the user, and the repository part. */
  ghost function CreateOrderActions(c: nat, reqUser: string, items: seq<Item>, userOk: bool, id: string,
                                    f: CreateFaults): seq<Action>
  {
    [BeginCreate(c, reqUser, items)] + ([CheckUser(c, userOk)] + CreateActions(c, |items|, id, f))
  }

  /** Nothing the creating actions do concerns a CreateOrder that is over. */
  lemma CreateOver(s: State, c: nat, n: nat, id: string, f: CreateFaults)
    requires c in s.calls && s.calls[c].CreateDone?
    ensures var s' := Exec(s, CreateActions(c, n, id, f)); s'.w == s.w && c in s'.calls && s'.calls[c] == s.calls[c]
  {
    var head, inserts, commit := InsertOrder(c, id, f.insertOk), InsertActions(c, 0, n, f), Commit(c, f.commit);
    var s1 := Apply(s, head);
    var s2 := Exec(s1, inserts);
    assert s1.w == s.w && s1.calls[c] == s.calls[c];
    NoMoreInserts(s1, c, 0, n, f);
    CommitIsARun(s2, c, s2.calls[c], f.commit);
    CreateActionsSplit(s, c, n, id, f);
  }

  /** The validation and the look for the user, with nothing between. */
  lemma CreateBeginsAsARun(s: State, c: nat, reqUser: string, items: seq<Item>, userOk: bool)
    requires c !in s.calls
    ensures var s', user := Exec2(s, BeginCreate(c, reqUser, items), CheckUser(c, userOk)), Text.TrimSpace(reqUser);
      && s'.w == s.w && c in s'.calls
      && (if ValidRequest(reqUser, items) && userOk && user in s.w.users
          then s'.calls[c] == Opening(user, items, At(s), At(s) + 1)
          else s'.calls[c] == CreateDone(user, items,
                                         if ValidRequest(reqUser, items) && userOk then NotFound else Failed))
  {}

  /** CreateOrder run alone, from the request on. */
  lemma CreateOrderIsARun(s: State, c: nat, reqUser: string, items: seq<Item>, userOk: bool, id: string,
                          f: CreateFaults)
    requires c !in s.calls
    ensures var s', user := Exec(s, CreateOrderActions(c, reqUser, items, userOk, id, f)), Text.TrimSpace(reqUser);
      && s'.w.cache == s.w.cache && s'.w.users == s.w.users
      && c in s'.calls && s'.calls[c].CreateDone?
      && (if ValidRequest(reqUser, items) && userOk && user in s.w.users then
            && s'.w.tables == CreateTables(s.w.tables, s.w.now, user, items, id, f)
            && s'.calls[c].reply == CreateReply(s.w.tables, s.w.now, user, items, id, f)
          else
            && s'.w.tables == s.w.tables
            && s'.calls[c].reply == if ValidRequest(reqUser, items) && userOk then NotFound else Failed)
  {
    var begin, check := BeginCreate(c, reqUser, items), CheckUser(c, userOk);
    var s2 := Exec2(s, begin, check);
    CreateBeginsAsARun(s, c, reqUser, items, userOk);
    RepositoryPart(s, begin, check, CreateActions(c, |items|, id, f));
    if s2.calls[c].Opening? {
      CreateIsARun(s2, c, id, f);
    } else {
      CreateOver(s2, c, |items|, id, f);
    }
  }

  lemma RepositoryPart(s: State, begin: Action, check: Action, create: seq<Action>)
    ensures Exec(s, [begin] + ([check] + create)) == Exec(Exec2(s, begin, check), create)
  {
    ExecIs(s, begin, [check] + create);
    ExecIs(Apply(s, begin), check, create);
  }

  /** The existence check is not a lock: the user may be removed after the check and before the
      commit, and the order is stored all the same. */
  lemma OrderCanOutliveItsUser(s: State, c: nat, id: string, f: CreateFaults) returns (acts: seq<Action>)
    requires c in s.calls && s.calls[c].Checking? && s.calls[c].userId in s.w.users
    requires CreateSucceeds(s.w.tables, id, s.calls[c].items, f) && !f.commit.NotApplied?
    ensures var s', user := Exec(s, acts), s.calls[c].userId;
      id in s'.w.tables.orders && s'.w.tables.orders[id].userId == user && user !in s'.w.users
  {
    var k := s.calls[c];
    var check, remove, create := CheckUser(c, true), RemoveUser(k.userId), CreateActions(c, |k.items|, id, f);
    var s1 := Apply(s, check);
    var s2 := Apply(s1, remove);
    acts := [check] + ([remove] + create);
    ExecIs(s, check, [remove] + create);
    ExecIs(s1, remove, create);
    assert s2.calls[c] == Opening(k.userId, k.items, k.begun, At(s)) && s2.w.tables == s.w.tables;
    CreateIsARun(s2, c, id, f);
  }

  // ---------------------------------------------------------------- refinement

  /** Every cached order is what the database has, status included. */
  ghost predicate Coherent(s: Store) {
    forall id :: id in s.cache ==> Answers(s.tables, id, Found(s.cache[id].order))
  }

  /** One non-overlapping call, or a pause in which time passes and entries may vanish. */
  datatype Step =
    | GetStep(id: string, get: GetFaults)
    | CancelStep(id: string, cancel: CancelFaults)
    | CreateStep(userId: string, items: seq<Item>, id: string, create: CreateFaults)
    | Pause(d: nat, gone: set<string>)

  function StepStore(s: Store, hasCache: bool, now: nat, step: Step): Store {
    match step
    case GetStep(id, f) => GetStore(s, hasCache, now, id, f)
    case CancelStep(id, f) => CancelStore(s, hasCache, id, f)
    case CreateStep(userId, items, id, f) => s.(tables := CreateTables(s.tables, now, userId, items, id, f))
    case Pause(_, gone) => s.(cache := s.cache - gone)
  }

  function StepReply(s: Store, hasCache: bool, now: nat, step: Step): Reply {
    match step
    case GetStep(id, f) => GetReply(s, hasCache, now, id, f)
    case CancelStep(id, f) => CancelReply(s, id, f)
    case CreateStep(userId, items, id, f) => CreateReply(s.tables, now, userId, items, id, f)
    case Pause(_, _) => Failed
  }

  function StepNow(now: nat, step: Step): nat { if step.Pause? then now + step.d else now }

  /** The replies of a run of non-overlapping calls. */
  function Replies(s: Store, hasCache: bool, now: nat, steps: seq<Step>): (r: seq<Reply>)
    ensures |r| == |steps|
    decreases |steps|
  {
    if steps == [] then []
    else [StepReply(s, hasCache, now, steps[0])]
         + Replies(StepStore(s, hasCache, now, steps[0]), hasCache, StepNow(now, steps[0]), steps[1..])
  }

  /** No DEL fails, no UPDATE loses its reply, and items have positive quantities. */
  predicate Clean(step: Step) {
    match step
    case CancelStep(_, f) => f.delOk && !f.update.ReplyLost?
    case CreateStep(_, items, _, _) => forall i :: 0 <= i < |items| ==> ValidItem(items[i])
    case _ => true
  }

  /** The same answer, items in any order. Only when the database does not answer a GetOrder can
      the two differ: a hit needs no database. */
  ghost predicate Matches(step: Step, cached: Reply, plain: Reply) {
    || cached == plain
    || (cached.Found? && plain.Found?
        && cached.order == plain.order.(items := cached.order.items)
        && multiset(cached.order.items) == multiset(plain.order.items))
    || (step.GetStep? && !(step.get.rowOk && step.get.itemsOk) && plain == Failed)
  }

  lemma StepRefines(s: Store, p: Store, now: nat, step: Step)
    requires Coherent(s) && s.tables == p.tables && TablesOk(s.tables) && Clean(step)
    ensures var s', p' := StepStore(s, true, now, step), StepStore(p, false, now, step);
            Coherent(s') && s'.tables == p'.tables && TablesOk(s'.tables)
    ensures Matches(step, StepReply(s, true, now, step), StepReply(p, false, now, step))
    ensures step.GetStep? && StepReply(s, true, now, step) != Failed ==>
              Answers(s.tables, step.id, StepReply(s, true, now, step))
  {
    match step {
      case GetStep(id, f) =>
        if id in s.cache { assert Answers(s.tables, id, Found(s.cache[id].order)); }
      case CancelStep(id, f) =>
        CancelKeepsTablesOk(s.tables, id);
        CancelKeepsOthers(s, id, f);
      case CreateStep(userId, items, id, f) =>
        if CreateSucceeds(s.tables, id, items, f) {
          CommitKeepsTablesOk(s.tables, id, NewRow(userId, items, now), items);
          var t' := CreateTables(s.tables, now, userId, items, id, f);
          forall j | j in s.cache ensures Answers(t', j, Found(s.cache[j].order)) {
            assert Answers(s.tables, j, Found(s.cache[j].order));
            if t' != s.tables { assert GrowsAt(s.tables, t', j); }
          }
        }
      case Pause(_, gone) =>
    }
  }

  lemma CancelKeepsOthers(s: Store, id: string, f: CancelFaults)
    requires Coherent(s) && f.delOk && !f.update.ReplyLost?
    ensures Coherent(CancelStore(s, true, id, f))
  {
    var s' := CancelStore(s, true, id, f);
    forall j | j in s'.cache ensures Answers(s'.tables, j, Found(s'.cache[j].order)) {
      assert Answers(s.tables, j, Found(s.cache[j].order));
    }
  }

  /** Over any run of non-overlapping calls in which no DEL fails and no UPDATE reply is lost, the
      repository with a cache answers like the one without, whatever cache reads and writes fail
      or expire. */
  lemma {:induction false} CacheRefinesDatabase(s: Store, p: Store, now: nat, steps: seq<Step>)
    requires Coherent(s) && s.tables == p.tables && TablesOk(s.tables)
    requires forall i :: 0 <= i < |steps| ==> Clean(steps[i])
    ensures forall i :: 0 <= i < |steps| ==>
              Matches(steps[i], Replies(s, true, now, steps)[i], Replies(p, false, now, steps)[i])
    decreases |steps|
  {
    if steps != [] {
      StepRefines(s, p, now, steps[0]);
      CacheRefinesDatabase(StepStore(s, true, now, steps[0]), StepStore(p, false, now, steps[0]),
                           StepNow(now, steps[0]), steps[1..]);
    }
  }

  /** After one cancel has taken effect, however the second fares: the same tables, and the same
      reply once both reach the database. */
  lemma CancelTwice(s: Store, hasCache: bool, id: string, f: CancelFaults, g: CancelFaults)
    requires !f.update.NotApplied?
    ensures var s1 := CancelStore(s, hasCache, id, f);
      && CancelStore(s1, hasCache, id, g).tables == s1.tables
      && (f.update.Applied? && g.update.Applied? && f.rowOk == g.rowOk && f.itemsOk == g.itemsOk ==>
            CancelReply(s1, id, g) == CancelReply(s, id, f))
  {}
}
