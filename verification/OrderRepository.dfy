/** The repository, its cache and the server of the order service, statement by statement. Each
    method is tied to the function that describes its call; failures are parameters. */
module OrderRepository {
  import opened OrderModel
  import opened OrderSystem
  import opened OrderCalls
  import opened Paging
  import Text

  /** The order database: committed rows only. */
  class Database {
    var orders: map<string, OrderRow>
    var items: seq<ItemRow>

    constructor ()
      ensures orders == map[] && items == []
    {
      orders, items := map[], [];
    }

    ghost function Tables(): Tables
      reads this
    {
      OrderModel.Tables.Tables(orders, items)
    }
  }

  class Redis {
    var entries: map<string, Cached>
    var now: nat

    constructor ()
      ensures entries == map[] && now == 0
    {
      entries, now := map[], 0;
    }
  }

  class OrderCache {
    const rdb: Redis

    constructor (rdb: Redis)
      ensures this.rdb == rdb
    {
      this.rdb := rdb;
    }

    /** A failed GET and an absent or expired entry look the same to the caller. */
    method Get(id: string, ok: bool) returns (hit: Option<Order>)
      ensures hit == if ok then CacheLookup(rdb.entries, id, rdb.now) else None
    {
      if !ok { return None; }
      if id in rdb.entries && rdb.now < rdb.entries[id].expiresAt {
        return Some(rdb.entries[id].order);
      }
      return None;
    }

    method Set(order: Order, ok: bool)
      modifies rdb`entries
      ensures rdb.entries == if ok then CachePut(old(rdb.entries), order, rdb.now) else old(rdb.entries)
      ensures ok ==> forall at: nat :: CacheLookup(rdb.entries, order.id, at) ==
                       if at < rdb.now + 300_000_000_000 then Some(order) else None
      ensures forall id, at: nat :: id != order.id || !ok ==>
                                 CacheLookup(rdb.entries, id, at) == CacheLookup(old(rdb.entries), id, at)
    {
      if ok {
        rdb.entries := rdb.entries[order.id := Cached(order, rdb.now + CACHE_TTL)];
      }
    }

    method Invalidate(id: string, ok: bool)
      modifies rdb`entries
      ensures rdb.entries == if ok then CacheDrop(old(rdb.entries), id) else old(rdb.entries)
      ensures ok ==> forall at: nat :: CacheLookup(rdb.entries, id, at) == None
      ensures forall other, at: nat :: other != id || !ok ==>
                                    CacheLookup(rdb.entries, other, at) == CacheLookup(old(rdb.entries), other, at)
    {
      if ok {
        rdb.entries := rdb.entries - {id};
      }
    }
  }

  /** Which of the two queries of a List succeed. */
  datatype ListFaults = ListFaults(countOk: bool, listOk: bool)

  class OrderRepository {
    const db: Database
    const rdb: Redis
    /** False when the service runs without a Redis client. */
    const hasCache: bool
    const cache: OrderCache

    constructor (db: Database, rdb: Redis, hasCache: bool)
      ensures this.db == db && this.rdb == rdb && this.hasCache == hasCache && cache.rdb == rdb
    {
      this.db, this.rdb, this.hasCache := db, rdb, hasCache;
      this.cache := new OrderCache(rdb);
    }

    ghost predicate Valid() { cache.rdb == rdb }

    ghost function Contents(): Store
      reads db, rdb
    {
      Store(db.Tables(), rdb.entries)
    }

    /** The cache holds an entry of `id` that has not expired. */
    ghost predicate IsLive(id: string)
      reads rdb
    {
      hasCache && id in rdb.entries && rdb.now < rdb.entries[id].expiresAt
    }

    /** What the two queries for an order answer. */
    ghost predicate IsRead(reply: Reply, id: string, rowOk: bool, itemsOk: bool)
      reads db
    {
      && (reply.NotFound? <==> rowOk && id !in db.orders)
      && (reply.Found? <==> rowOk && itemsOk && id in db.orders)
      && (reply.Found? ==> HasRow(reply.order, id, db.orders[id]) && reply.order.items == ItemsOf(db.items, id))
    }

    /** One transaction: the rows it inserts are its own until the commit. */
    method Create(userId: string, items: seq<Item>, id: string, f: CreateFaults) returns (reply: Reply)
      modifies db
      ensures db.Tables() == CreateTables(old(db.Tables()), rdb.now, userId, items, id, f)
      ensures reply == CreateReply(old(db.Tables()), rdb.now, userId, items, id, f)
    {
      var total := 0.0;
      for i := 0 to |items|
        invariant total == Total(items[..i]) && db.Tables() == old(db.Tables())
      {
        total := total + items[i].quantity as real * items[i].unitPrice;
        TimesIsProduct(items[i].quantity, items[i].unitPrice);
        assert items[..i + 1][..i] == items[..i];
      }
      assert items[..|items|] == items;

      var totalCents := RoundCents(total);
      if !f.insertOk || id in db.orders || !FitsNumeric(totalCents) { return Failed; }
      var txOrders := db.orders[id := OrderRow(userId, PENDING, totalCents, rdb.now)];
      var txItems := [];
      for i := 0 to |items|
        invariant |txItems| == i <= f.failAt
        invariant forall j :: 0 <= j < i ==> txItems[j] == ToRow(id, items[j]) && FitsItem(txItems[j])
      {
        var row := ItemRow(id, items[i].productId, items[i].productName, items[i].quantity,
                           RoundCents(items[i].unitPrice));
        if i == f.failAt || !FitsItem(row) { return Failed; }
        txItems := txItems + [row];
      }
      assert txItems == RowsFor(id, items);

      if f.commit.NotApplied? { return Failed; }
      db.orders, db.items := txOrders, db.items + txItems;
      if f.commit.ReplyLost? { return Failed; }
      reply := Found(Order(id, userId, items, total, Pending, rdb.now));
    }

    method Get(id: string, f: GetFaults) returns (reply: Reply)
      requires Valid()
      modifies rdb`entries
      ensures Contents() == GetStore(old(Contents()), hasCache, rdb.now, id, f)
      ensures reply == GetReply(old(Contents()), hasCache, rdb.now, id, f)
      ensures old(IsLive(id)) && f.readOk ==>
                reply == Found(old(rdb.entries)[id].order) && rdb.entries == old(rdb.entries)
      ensures !(old(IsLive(id)) && f.readOk) ==>
        && IsRead(reply, id, f.rowOk, f.itemsOk)
        && rdb.entries == if reply.Found? && hasCache && f.setOk
                          then old(rdb.entries)[id := Cached(reply.order, rdb.now + 300_000_000_000)]
                          else old(rdb.entries)
    {
      if hasCache {
        var cached := cache.Get(id, f.readOk);
        if cached.Some? { return Found(cached.value); }
      }
      reply := GetFromDB(id, f.rowOk, f.itemsOk);
      if reply.Found? && hasCache {
        cache.Set(reply.order, f.setOk);
      }
    }

    method GetFromDB(id: string, rowOk: bool, itemsOk: bool) returns (reply: Reply)
      ensures reply == FetchReply(db.Tables(), id, rowOk, itemsOk)
      ensures IsRead(reply, id, rowOk, itemsOk)
    {
      if !rowOk { return Failed; }
      if id !in db.orders { return NotFound; }
      var row := db.orders[id];
      var items := GetItems(id, itemsOk);
      if items.None? { return Failed; }
      reply := Found(Order(id, row.userId, items.value, FromCents(row.totalCents),
                           ParseOrderStatus(row.status), row.createdAt));
    }

    method GetItems(id: string, ok: bool) returns (items: Option<seq<Item>>)
      ensures items == if ok then Some(ItemsOf(db.items, id)) else None
    {
      if !ok { return None; }
      var found := [];
      for i := 0 to |db.items|
        invariant found == ItemsOf(db.items[..i], id)
      {
        var row := db.items[i];
        if row.orderId == id {
          found := found + [Item(row.productId, row.productName, row.quantity, FromCents(row.unitCents))];
        }
        assert db.items[..i + 1][..i] == db.items[..i];
      }
      assert db.items[..|db.items|] == db.items;
      items := Some(found);
    }

    method Cancel(id: string, f: CancelFaults) returns (reply: Reply)
      requires Valid()
      modifies db`orders, rdb`entries
      ensures Contents() == CancelStore(old(Contents()), hasCache, id, f)
      ensures reply == CancelReply(old(Contents()), id, f)
      ensures db.orders == if id in old(db.orders) && !f.update.NotApplied?
                           then old(db.orders)[id := old(db.orders)[id].(status := "CANCELLED")] else old(db.orders)
      ensures rdb.entries == if id in old(db.orders) && f.update.Applied? && hasCache && f.delOk
                             then old(rdb.entries) - {id} else old(rdb.entries)
      ensures reply.NotFound? <==> f.update.Applied? && id !in old(db.orders)
      ensures reply.Found? <==> f.update.Applied? && id in old(db.orders) && f.rowOk && f.itemsOk
      ensures reply.Found? ==> HasRow(reply.order, id, db.orders[id]) && reply.order.items == ItemsOf(db.items, id)
    {
      if f.update.NotApplied? { return Failed; }
      if id in db.orders {
        db.orders := db.orders[id := db.orders[id].(status := CANCELLED)];
      }
      if f.update.ReplyLost? { return Failed; }
      if id !in db.orders { return NotFound; }
      if hasCache {
        cache.Invalidate(id, f.delOk);
      }
      reply := GetFromDB(id, f.rowOk, f.itemsOk);
    }

    /** `counted` is what the count query saw of the orders, and `ids` what ORDER BY yields when
        the list query runs. */
    method List(userId: string, page: int, pageSize: int, counted: map<string, OrderRow>, ids: seq<string>,
                f: ListFaults)
      returns (reply: ListReply)
      requires IsInt32(page) && IsInt32(pageSize) && IsListing(db.orders, userId, ids)
      ensures reply == if f.countOk && f.listOk
                       then ListOf(|Matching(counted, userId)|, db.orders, ids, page, pageSize) else ListFailed
    {
      var size, first := pageSize, page;
      if size <= 0 || size > 100 { size := 20; }
      if first < 1 { first := 1; }
      var offset := Wrap32((first - 1) * size);

      if !f.countOk { return ListFailed; }
      var total := |Matching(counted, userId)|;
      if total > MAX_INT32 { return ListFailed; }
      if offset < 0 || !f.listOk { return ListFailed; }
      var orders := Scan(Slice(ids, offset, size));
      reply := Listed(orders, total);
    }

    /** The loop over the rows of a list query. */
    method Scan(rows: seq<string>) returns (orders: seq<Order>)
      requires forall i :: 0 <= i < |rows| ==> rows[i] in db.orders
      ensures orders == Shown(db.orders, rows)
    {
      orders := [];
      for i := 0 to |rows|
        invariant |orders| == i
        invariant forall j :: 0 <= j < i ==> orders[j] == BuildOrder(rows[j], db.orders[rows[j]], [])
      {
        var row := db.orders[rows[i]];
        orders := orders + [Order(rows[i], row.userId, [], FromCents(row.totalCents),
                                  ParseOrderStatus(row.status), row.createdAt)];
      }
    }
  }

  // ---------------------------------------------------------------- the server

  /** The status codes the server answers with. */
  datatype Code = InvalidArgument | Internal | NotFoundCode

  datatype Response = Error(code: Code, item: int) | Ok(order: Order)

  /** The first invalid item of a request, or the number of items. */
  function FirstInvalid(items: seq<Item>): (n: nat)
    ensures n <= |items|
    ensures forall i :: 0 <= i < n ==> ValidItem(items[i])
    ensures n < |items| ==> !ValidItem(items[n])
  {
    if items == [] || !ValidItem(items[0]) then 0 else FirstInvalid(items[1..]) + 1
  }

  function ToResponse(reply: Reply): Response {
    match reply
    case Failed => Error(Internal, -1)
    case NotFound => Error(NotFoundCode, -1)
    case Found(order) => Ok(order)
  }

  /** No statement fails, and the reply of the COMMIT arrives. */
  predicate NoFault(items: seq<Item>, f: CreateFaults) {
    f.insertOk && f.failAt >= |items| && f.commit.Applied?
  }

  /** The requests that the validations let through and the columns hold: VARCHAR(100),
      VARCHAR(255) and NUMERIC(10,2). */
  predicate Storable(items: seq<Item>) {
    && items != []
    && (forall i :: 0 <= i < |items| ==>
          && 1 <= |items[i].productId| <= 100 && |items[i].productName| <= 255
          && items[i].quantity > 0 && 0.0 <= items[i].unitPrice < 99_999_999.995)
    && Total(items) < 99_999_999.995
  }

  lemma {:induction false} TotalIsPositive(items: seq<Item>)
    requires forall i :: 0 <= i < |items| ==> ValidItem(items[i])
    ensures Total(items) >= 0.0
  {
    if items != [] {
      var last := items[|items| - 1];
      TotalIsPositive(items[..|items| - 1]);
      TimesIsPositive(last.quantity, last.unitPrice);
    }
  }

  lemma {:induction false} TimesIsPositive(n: nat, x: real)
    requires x >= 0.0
    ensures Times(n, x) >= 0.0
  {
    if n > 0 { TimesIsPositive(n - 1, x); }
  }

  /** A valid request can be stored exactly when its texts and amounts fit. */
  lemma StorableSucceeds(items: seq<Item>, id: string, f: CreateFaults, t: Tables)
    ensures Storable(items) ==> items != [] && forall i :: 0 <= i < |items| ==> ValidItem(items[i])
    ensures id !in t.orders && NoFault(items, f) && items != []
            && (forall i :: 0 <= i < |items| ==> ValidItem(items[i])) ==>
              (CreateSucceeds(t, id, items, f) <==> Storable(items))
  {
    if forall i :: 0 <= i < |items| ==> ValidItem(items[i]) {
      TotalIsPositive(items);
      LargestAmount(Total(items));
      forall i | 0 <= i < |items|
        ensures FitsItem(ToRow(id, items[i])) <==>
          |items[i].productId| <= 100 && |items[i].productName| <= 255 && items[i].unitPrice < 99_999_999.995
      {
        assert ValidItem(items[i]);
        LargestAmount(items[i].unitPrice);
        RoundingDrift(items[i].unitPrice);
      }
    }
  }

  class OrderServiceServer {
    const repo: OrderRepository

    constructor (repo: OrderRepository)
      ensures this.repo == repo
    {
      this.repo := repo;
    }

    /** `users` and `userOk` are the user service: whom it has, and whether it answers. */
    method CreateOrder(reqUser: string, items: seq<Item>, users: set<string>, userOk: bool,
                       id: string, f: CreateFaults)
      returns (r: Response)
      modifies repo.db
      ensures !ValidRequest(reqUser, items) ==>
        && repo.db.Tables() == old(repo.db.Tables())
        && r == Error(InvalidArgument,
                      if Text.TrimSpace(reqUser) != "" && items != [] then FirstInvalid(items) else -1)
      ensures ValidRequest(reqUser, items) && !(userOk && Text.TrimSpace(reqUser) in users) ==>
        && repo.db.Tables() == old(repo.db.Tables())
        && r == Error(if userOk then NotFoundCode else Internal, -1)
      ensures ValidRequest(reqUser, items) && userOk && Text.TrimSpace(reqUser) in users ==>
        && repo.db.Tables() == CreateTables(old(repo.db.Tables()), repo.rdb.now, Text.TrimSpace(reqUser), items, id, f)
        && r == ToResponse(CreateReply(old(repo.db.Tables()), repo.rdb.now, Text.TrimSpace(reqUser), items, id, f))
      ensures userOk && Text.TrimSpace(reqUser) in users && id !in old(repo.db.orders) && NoFault(items, f) ==>
        (r.Ok? <==> Text.TrimSpace(reqUser) != "" && Storable(items))
      ensures r.Ok? ==>
        && r.order == Order(id, Text.TrimSpace(reqUser), items, Total(items), Pending, repo.rdb.now)
        && id !in old(repo.db.orders) && id in repo.db.orders
        && repo.db.orders == old(repo.db.orders)[id := repo.db.orders[id]]
        && repo.db.orders[id] == OrderRow(Text.TrimSpace(reqUser), "PENDING", RoundCents(Total(items)), repo.rdb.now)
        && |repo.db.items| == |old(repo.db.items)| + |items|
        && repo.db.items[..|old(repo.db.items)|] == old(repo.db.items)
        && forall i :: 0 <= i < |items| ==>
             repo.db.items[|old(repo.db.items)| + i]
             == ItemRow(id, items[i].productId, items[i].productName, items[i].quantity, RoundCents(items[i].unitPrice))
    {
      var userId := Text.TrimSpace(reqUser);
      StorableSucceeds(items, id, f, repo.db.Tables());
      if userId == "" { return Error(InvalidArgument, -1); }
      if |items| == 0 { return Error(InvalidArgument, -1); }
      for i := 0 to |items|
        invariant forall j :: 0 <= j < i ==> ValidItem(items[j])
      {
        if items[i].productId == "" || items[i].quantity <= 0 || items[i].unitPrice < 0.0 {
          assert !ValidItem(items[i]) && i == FirstInvalid(items);
          return Error(InvalidArgument, i);
        }
      }
      if !userOk { return Error(Internal, -1); }
      if userId !in users { return Error(NotFoundCode, -1); }
      var reply := repo.Create(userId, items, id, f);
      r := if reply.Found? then Ok(reply.order) else Error(Internal, -1);
    }

    method GetOrder(id: string, f: GetFaults) returns (r: Response)
      requires repo.Valid()
      modifies repo.rdb`entries
      ensures repo.db.Tables() == old(repo.db.Tables())
      ensures id == "" ==> repo.Contents() == old(repo.Contents()) && r == Error(InvalidArgument, -1)
      ensures id != "" ==>
        && repo.Contents() == GetStore(old(repo.Contents()), repo.hasCache, repo.rdb.now, id, f)
        && r == ToResponse(GetReply(old(repo.Contents()), repo.hasCache, repo.rdb.now, id, f))
      ensures id != "" && old(repo.IsLive(id)) && f.readOk ==> r == Ok(old(repo.rdb.entries)[id].order)
      ensures id != "" && !(old(repo.IsLive(id)) && f.readOk) ==>
        && (r == Error(NotFoundCode, -1) <==> f.rowOk && id !in repo.db.orders)
        && (r.Ok? <==> f.rowOk && f.itemsOk && id in repo.db.orders)
        && (r.Ok? ==> HasRow(r.order, id, repo.db.orders[id]) && r.order.items == ItemsOf(repo.db.items, id))
        && (!f.rowOk || (id in repo.db.orders && !f.itemsOk) ==> r == Error(Internal, -1))
    {
      if id == "" { return Error(InvalidArgument, -1); }
      var reply := repo.Get(id, f);
      if reply.Failed? { return Error(Internal, -1); }
      if reply.NotFound? { return Error(NotFoundCode, -1); }
      r := Ok(reply.order);
    }

    method CancelOrder(id: string, f: CancelFaults) returns (r: Response)
      requires repo.Valid()
      modifies repo.db`orders, repo.rdb`entries
      ensures id == "" ==> repo.Contents() == old(repo.Contents()) && r == Error(InvalidArgument, -1)
      ensures id != "" ==>
        && repo.Contents() == CancelStore(old(repo.Contents()), repo.hasCache, id, f)
        && r == ToResponse(CancelReply(old(repo.Contents()), id, f))
      ensures r.Ok? ==> r.order.id == id && r.order.status == Cancelled
      ensures id != "" ==>
        && (r == Error(NotFoundCode, -1) <==> f.update.Applied? && id !in old(repo.db.orders))
        && (r.Ok? <==> f.update.Applied? && id in old(repo.db.orders) && f.rowOk && f.itemsOk)
        && (!r.Ok? && r != Error(NotFoundCode, -1) ==> r == Error(Internal, -1))
        && (r.Ok? ==> HasRow(r.order, id, repo.db.orders[id]) && r.order.items == ItemsOf(repo.db.items, id))
    {
      if id == "" { return Error(InvalidArgument, -1); }
      var reply := repo.Cancel(id, f);
      if reply.Failed? { return Error(Internal, -1); }
      if reply.NotFound? { return Error(NotFoundCode, -1); }
      r := Ok(reply.order);
    }

    /** What the lemmas on answers say about this store. */
    lemma ListedRight(userId: string, reqPage: int, reqSize: int, counted: map<string, OrderRow>, ids: seq<string>)
      requires IsListing(repo.db.orders, userId, ids)
      ensures var r := AnswerOf(|Matching(counted, userId)|, repo.db.orders, ids, reqPage, reqSize);
        r.Page? ==>
          && r.total == |set x | x in counted && (userId == "" || counted[x].userId == userId)|
          && (forall i :: 0 <= i < |r.orders| ==>
                && r.orders[i].id in repo.db.orders && (userId == "" || r.orders[i].userId == userId)
                && HasRow(r.orders[i], r.orders[i].id, repo.db.orders[r.orders[i].id]) && r.orders[i].items == [])
          && (forall i, j :: 0 <= j < i < |r.orders| ==> r.orders[j].createdAt > r.orders[i].createdAt)
          && (reqPage <= 0 && reqSize <= 0 ==>
                && |r.orders| == (if |ids| < 20 then |ids| else 20) && (r.hasMore <==> r.total > 20)
                && forall i :: 0 <= i < |r.orders| ==> r.orders[i].id == ids[i])
    {
      var total := |Matching(counted, userId)|;
      var r := AnswerOf(total, repo.db.orders, ids, reqPage, reqSize);
      assert Matching(counted, userId) == set x | x in counted && (userId == "" || counted[x].userId == userId);
      MissingPagination(total, repo.db.orders, ids, reqPage, reqSize);
      if r.Page? {
        forall i | 0 <= i < |r.orders|
          ensures r.orders[i].id in repo.db.orders && (userId == "" || r.orders[i].userId == userId)
          ensures HasRow(r.orders[i], r.orders[i].id, repo.db.orders[r.orders[i].id]) && r.orders[i].items == []
          ensures forall j :: 0 <= j < i ==> r.orders[j].createdAt > r.orders[i].createdAt
        {
          PageHolds(total, repo.db.orders, userId, ids, reqPage, reqSize, i);
        }
      }
    }

    /** A missing pagination message is `0, 0`: the generated message's zero values. */
    method ListOrders(userId: string, reqPage: int, reqSize: int, counted: map<string, OrderRow>, ids: seq<string>,
                      f: ListFaults)
      returns (r: PageReply)
      requires IsInt32(reqPage) && IsInt32(reqSize) && IsListing(repo.db.orders, userId, ids)
      ensures r == if f.countOk && f.listOk
                   then AnswerOf(|Matching(counted, userId)|, repo.db.orders, ids, reqPage, reqSize) else PageFailed
      ensures r.Page? ==>
        && r.total == |set x | x in counted && (userId == "" || counted[x].userId == userId)|
        && (forall i :: 0 <= i < |r.orders| ==>
              && r.orders[i].id in repo.db.orders && (userId == "" || r.orders[i].userId == userId)
              && HasRow(r.orders[i], r.orders[i].id, repo.db.orders[r.orders[i].id]) && r.orders[i].items == [])
        && (forall i, j :: 0 <= j < i < |r.orders| ==> r.orders[j].createdAt > r.orders[i].createdAt)
      ensures r.Page? && reqPage <= 0 && reqSize <= 0 ==>
        && |r.orders| == (if |ids| < 20 then |ids| else 20) && (r.hasMore <==> r.total > 20)
        && forall i :: 0 <= i < |r.orders| ==> r.orders[i].id == ids[i]
    {
      ListedRight(userId, reqPage, reqSize, counted, ids);
      var page, pageSize := 1, 20;
      if reqPage > 0 { page := reqPage; }
      if reqSize > 0 { pageSize := reqSize; }
      var list := repo.List(userId, page, pageSize, counted, ids, f);
      if list.ListFailed? { return PageFailed; }
      var hasMore := list.total > Wrap32(page * pageSize);
      r := Page(list.orders, list.total, hasMore);
    }
  }
}
