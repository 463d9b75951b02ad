/** The data of the order service: messages, the rows of its two tables, its cache entries,
    and what one statement does to each. Identifiers are canonical lower-case UUID texts. */
module OrderModel {

  datatype Option<+T> = None | Some(value: T)

  /** A statement or commit takes effect, fails without effect, or takes effect while its reply
      is lost. */
  datatype Outcome = Applied | NotApplied | ReplyLost

  datatype OrderStatus = Unspecified | Pending | Confirmed | Shipped | Delivered | Cancelled

  datatype Item = Item(productId: string, productName: string, quantity: int, unitPrice: real)

  datatype Order = Order(
    id: string, userId: string, items: seq<Item>, total: real, status: OrderStatus, createdAt: nat)

  /** A row of `orders`; the NUMERIC(10,2) column is kept in cents. */
  datatype OrderRow = OrderRow(userId: string, status: string, totalCents: int, createdAt: nat)

  /** A row of `order_items`. */
  datatype ItemRow = ItemRow(
    orderId: string, productId: string, productName: string, quantity: int, unitCents: int)

  /** The committed contents of the database; `items` is in no particular order. */
  datatype Tables = Tables(orders: map<string, OrderRow>, items: seq<ItemRow>)

  /** What one repository call can answer. */
  datatype Reply = Failed | NotFound | Found(order: Order)

  datatype Cached = Cached(order: Order, expiresAt: nat)

  /** Five minutes, in nanoseconds. */
  const CACHE_TTL: nat := 300_000_000_000

  const PENDING := "PENDING"
  const CANCELLED := "CANCELLED"

  function ParseOrderStatus(s: string): OrderStatus {
    if s == "PENDING" then Pending
    else if s == "CONFIRMED" then Confirmed
    else if s == "SHIPPED" then Shipped
    else if s == "DELIVERED" then Delivered
    else if s == "CANCELLED" then Cancelled
    else Unspecified
  }

  /** The name of a status in the generated enumeration, without its prefix. */
  function StatusName(status: OrderStatus): string {
    match status
    case Unspecified => "UNSPECIFIED"
    case Pending => "PENDING"
    case Confirmed => "CONFIRMED"
    case Shipped => "SHIPPED"
    case Delivered => "DELIVERED"
    case Cancelled => "CANCELLED"
  }

  /** A text is read as the status of that name, and every other text as no status. */
  lemma StatusOfName(s: string, status: OrderStatus)
    requires status != Unspecified
    ensures ParseOrderStatus(s) == status <==> s == StatusName(status)
  {
    assert "PENDING"[0] == 'P' && "CONFIRMED"[1] == 'O' && "CANCELLED"[1] == 'A';
    assert "SHIPPED"[0] == 'S' && "DELIVERED"[0] == 'D' && "CONFIRMED"[0] == 'C' == "CANCELLED"[0];
  }

  // ---------------------------------------------------------------- money

  /** Rounding to two decimals, halves away from zero, as a NUMERIC(10,2) column does. */
  function RoundCents(x: real): int {
    if x >= 0.0 then (x * 100.0 + 0.5).Floor else -(0.5 - x * 100.0).Floor
  }

  function FromCents(cents: int): real { cents as real / 100.0 }

  /** `n` times `x`, by addition. */
  function Times(n: int, x: real): real
    decreases if n < 0 then -n else n
  {
    if n == 0 then 0.0 else if n < 0 then Times(n + 1, x) - x else Times(n - 1, x) + x
  }

  lemma {:induction false} TimesIsProduct(n: int, x: real)
    ensures Times(n, x) == n as real * x
    decreases if n < 0 then -n else n
  {
    if n < 0 {
      TimesIsProduct(n + 1, x);
      assert (n + 1) as real * x == n as real * x + x;
    } else if n > 0 {
      TimesIsProduct(n - 1, x);
      assert (n - 1) as real * x == n as real * x - x;
    }
  }

  /** The amount `Create` charges, before the column rounds it. */
  function Total(items: seq<Item>): real {
    if items == [] then 0.0
    else Total(items[..|items| - 1]) + Times(items[|items| - 1].quantity, items[|items| - 1].unitPrice)
  }

  // ---------------------------------------------------------------- order_items

  function ToRow(id: string, item: Item): ItemRow {
    ItemRow(id, item.productId, item.productName, item.quantity, RoundCents(item.unitPrice))
  }

  function ToItem(row: ItemRow): Item {
    Item(row.productId, row.productName, row.quantity, FromCents(row.unitCents))
  }

  /** The rows `Create` writes for an order, one per item. */
  function RowsFor(id: string, items: seq<Item>): (rows: seq<ItemRow>)
    ensures |rows| == |items|
    ensures forall i :: 0 <= i < |items| ==> rows[i] == ToRow(id, items[i])
  {
    seq(|items|, i requires 0 <= i < |items| => ToRow(id, items[i]))
  }

  /** `SELECT ... FROM order_items WHERE order_id = id`, in the order of the table. */
  function ItemsOf(rows: seq<ItemRow>, id: string): seq<Item> {
    if rows == [] then []
    else ItemsOf(rows[..|rows| - 1], id)
         + if rows[|rows| - 1].orderId == id then [ToItem(rows[|rows| - 1])] else []
  }

  /** The value of the items stored for an order, in cents. */
  function StoredCents(rows: seq<ItemRow>, id: string): real {
    if rows == [] then 0.0
    else StoredCents(rows[..|rows| - 1], id)
         + if rows[|rows| - 1].orderId == id
           then Times(rows[|rows| - 1].quantity, rows[|rows| - 1].unitCents as real) else 0.0
  }

  /** The number of units stored for an order. */
  function StoredUnits(rows: seq<ItemRow>, id: string): int {
    if rows == [] then 0
    else StoredUnits(rows[..|rows| - 1], id)
         + if rows[|rows| - 1].orderId == id then rows[|rows| - 1].quantity else 0
  }

  lemma {:induction false} ConcatenatedRows(a: seq<ItemRow>, b: seq<ItemRow>, id: string)
    ensures ItemsOf(a + b, id) == ItemsOf(a, id) + ItemsOf(b, id)
    ensures StoredCents(a + b, id) == StoredCents(a, id) + StoredCents(b, id)
    ensures StoredUnits(a + b, id) == StoredUnits(a, id) + StoredUnits(b, id)
  {
    if b == [] {
      assert a + b == a;
    } else {
      assert (a + b)[..|a + b| - 1] == a + b[..|b| - 1];
      ConcatenatedRows(a, b[..|b| - 1], id);
    }
  }

  lemma {:induction false} RowsOfOthers(rows: seq<ItemRow>, id: string)
    requires forall r :: r in rows ==> r.orderId != id
    ensures ItemsOf(rows, id) == [] && StoredCents(rows, id) == 0.0 && StoredUnits(rows, id) == 0
  {
    if rows != [] { RowsOfOthers(rows[..|rows| - 1], id); }
  }

  // ---------------------------------------------------------------- statements

  /** NUMERIC(10,2): at most eight digits before the point. */
  predicate FitsNumeric(cents: int) { -10_000_000_000 < cents < 10_000_000_000 }

  /** The column widths and CHECK constraints of `order_items`. */
  predicate FitsItem(row: ItemRow) {
    && |row.productId| <= 100 && |row.productName| <= 255
    && row.quantity > 0 && row.unitCents >= 0 && FitsNumeric(row.unitCents)
  }

  /** The row of a new order: its status is the column's default. */
  function NewRow(userId: string, items: seq<Item>, at: nat): OrderRow {
    OrderRow(userId, PENDING, RoundCents(Total(items)), at)
  }

  /** Commit of a transaction that inserted one order and its item rows. */
  function CommitOrder(t: Tables, id: string, row: OrderRow, rows: seq<ItemRow>): Tables {
    Tables(t.orders[id := row], t.items + rows)
  }

  /** `UPDATE orders SET status = 'CANCELLED' WHERE id = ...`. */
  function CancelRow(t: Tables, id: string): Tables {
    if id in t.orders then t.(orders := t.orders[id := t.orders[id].(status := CANCELLED)]) else t
  }

  /** Field by field, `o` is the order with this row; only its items are not in the row. */
  predicate HasRow(o: Order, id: string, row: OrderRow) {
    && o.id == id && o.userId == row.userId && o.createdAt == row.createdAt
    && 100.0 * o.total == row.totalCents as real
    && (row.status == "PENDING" ==> o.status == Pending)
    && (row.status == "CANCELLED" ==> o.status == Cancelled)
  }

  /** Is `reply` what the committed tables say about `id`? Items come in any order. */
  ghost predicate Answers(t: Tables, id: string, reply: Reply) {
    match reply
    case Failed => false
    case NotFound => id !in t.orders
    case Found(o) =>
      && id in t.orders
      && o == BuildOrder(id, t.orders[id], o.items)
      && multiset(o.items) == multiset(ItemsOf(t.items, id))
  }

  function BuildOrder(id: string, row: OrderRow, items: seq<Item>): Order {
    Order(id, row.userId, items, FromCents(row.totalCents), ParseOrderStatus(row.status), row.createdAt)
  }

  // ---------------------------------------------------------------- cache entries

  /** GET: an entry past its expiry is not there. */
  function CacheLookup(cache: map<string, Cached>, id: string, now: nat): Option<Order> {
    if id in cache && now < cache[id].expiresAt then Some(cache[id].order) else None
  }

  /** SET with the five minute expiry. */
  function CachePut(cache: map<string, Cached>, order: Order, now: nat): map<string, Cached> {
    cache[order.id := Cached(order, now + CACHE_TTL)]
  }

  /** DEL. */
  function CacheDrop(cache: map<string, Cached>, id: string): map<string, Cached> {
    cache - {id}
  }

  /** The commands that change the cache, as far as they succeed; eviction is a DEL. */
  datatype CacheCommand = SetEntry(order: Order, at: nat) | DelEntry(id: string)

  function CacheAfter(cmds: seq<CacheCommand>): map<string, Cached> {
    if cmds == [] then map[]
    else
      var before := CacheAfter(cmds[..|cmds| - 1]);
      match cmds[|cmds| - 1]
      case SetEntry(order, at) => CachePut(before, order, at)
      case DelEntry(id) => CacheDrop(before, id)
  }

  /** `cmd` is about `id`. */
  predicate Concerns(cmd: CacheCommand, id: string) {
    match cmd
    case SetEntry(order, _) => order.id == id
    case DelEntry(other) => other == id
  }

  /** Command `i` is the last one about `id`. */
  ghost predicate LastOn(cmds: seq<CacheCommand>, id: string, i: nat) {
    && i < |cmds| && Concerns(cmds[i], id)
    && (forall j :: i < j < |cmds| ==> !Concerns(cmds[j], id))
  }

  lemma {:induction false} UntouchedEntry(cmds: seq<CacheCommand>, id: string, n: nat)
    requires n <= |cmds| && forall j :: n <= j < |cmds| ==> !Concerns(cmds[j], id)
    ensures id in CacheAfter(cmds) <==> id in CacheAfter(cmds[..n])
    ensures id in CacheAfter(cmds) ==> CacheAfter(cmds)[id] == CacheAfter(cmds[..n])[id]
    decreases |cmds|
  {
    if n < |cmds| {
      assert cmds[..|cmds| - 1][..n] == cmds[..n];
      UntouchedEntry(cmds[..|cmds| - 1], id, n);
    } else {
      assert cmds[..n] == cmds;
    }
  }

  /** A lookup serves the order of the last command on its id, if that was a SET, at exactly the
      instants before five minutes have gone by, and nothing otherwise. */
  lemma LastCommandDecides(cmds: seq<CacheCommand>, id: string, now: nat)
    ensures (forall i :: 0 <= i < |cmds| ==> !Concerns(cmds[i], id)) ==> CacheLookup(CacheAfter(cmds), id, now) == None
    ensures forall i: nat :: LastOn(cmds, id, i) ==>
      CacheLookup(CacheAfter(cmds), id, now)
      == if cmds[i].SetEntry? && now < cmds[i].at + 300_000_000_000 then Some(cmds[i].order) else None
  {
    if forall i :: 0 <= i < |cmds| ==> !Concerns(cmds[i], id) { UntouchedEntry(cmds, id, 0); }
    forall i: nat | LastOn(cmds, id, i)
      ensures CacheLookup(CacheAfter(cmds), id, now)
           == if cmds[i].SetEntry? && now < cmds[i].at + 300_000_000_000 then Some(cmds[i].order) else None
    {
      UntouchedEntry(cmds, id, i + 1);
      assert cmds[..i + 1][..i] == cmds[..i];
    }
  }

  // ---------------------------------------------------------------- what every state keeps

  /** The total is the value of the stored items, up to half a cent for the total and half a cent
      for each unit. */
  ghost predicate DriftBounded(totalCents: int, stored: real, units: int) {
    var drift := totalCents as real - stored;
    -1.0 - units as real <= 2.0 * drift <= 1.0 + units as real
  }

  /** A stored status is one of two, and a stored total fits the stored items. */
  ghost predicate OrderOk(t: Tables, id: string) {
    id in t.orders ==>
      && t.orders[id].status in {PENDING, CANCELLED}
      && DriftBounded(t.orders[id].totalCents, StoredCents(t.items, id), StoredUnits(t.items, id))
  }

  ghost predicate TablesOk(t: Tables) {
    && (forall r :: r in t.items ==> r.orderId in t.orders)
    && (forall id :: OrderOk(t, id))
  }

  ghost predicate GrowsAt(t: Tables, u: Tables, id: string) {
    id in t.orders ==>
      && id in u.orders
      && (u.orders[id] == t.orders[id] || u.orders[id] == t.orders[id].(status := CANCELLED))
      && ItemsOf(u.items, id) == ItemsOf(t.items, id)
  }

  /** `u` can be a later state of `t`: orders stay, only their status changes and only to
      CANCELLED, and the items of an order never change. */
  ghost predicate Grows(t: Tables, u: Tables) {
    forall id :: GrowsAt(t, u, id)
  }

  /** The validations of `CreateOrder`. */
  predicate ValidItem(item: Item) {
    item.productId != "" && item.quantity > 0 && item.unitPrice >= 0.0
  }

  // ---------------------------------------------------------------- lemmas on statements

  /** Rounding goes to the nearest cent, and from the middle away from zero. */
  lemma {:induction false} RoundingDrift(x: real)
    ensures -0.5 <= RoundCents(x) as real - 100.0 * x <= 0.5
    ensures x >= 0.0 ==> RoundCents(x) as real > 100.0 * x - 0.5
    ensures x <= 0.0 ==> (RoundCents(x) as real) < 100.0 * x + 0.5
  {}

  /** Where the ten digits of a NUMERIC(10,2) end. */
  lemma LargestAmount(x: real)
    requires x >= 0.0
    ensures FitsNumeric(RoundCents(x)) <==> x < 99_999_999.995
  {
    RoundingDrift(x);
  }

  lemma {:induction false} RoundingWholeCents(c: int)
    ensures RoundCents(FromCents(c)) == c
  {
    assert FromCents(c) * 100.0 == c as real;
  }

  /** Rounding a price drifts by half a cent for each unit at most. */
  lemma {:induction false} UnitsDrift(n: nat, cents: int, p: real)
    requires -0.5 <= cents as real - 100.0 * p <= 0.5
    ensures var d := Times(n, cents as real) - 100.0 * Times(n, p);
            -(n as real) <= 2.0 * d <= n as real
  {
    if n > 0 { UnitsDrift(n - 1, cents, p); }
  }

  lemma StoredStep(id: string, items: seq<Item>)
    requires items != []
    ensures var rest, last := items[..|items| - 1], items[|items| - 1];
            && StoredCents(RowsFor(id, items), id)
               == StoredCents(RowsFor(id, rest), id) + Times(last.quantity, RoundCents(last.unitPrice) as real)
            && StoredUnits(RowsFor(id, items), id) == StoredUnits(RowsFor(id, rest), id) + last.quantity
            && ItemsOf(RowsFor(id, items), id) == ItemsOf(RowsFor(id, rest), id) + [ToItem(ToRow(id, last))]
  {
    var rows := RowsFor(id, items);
    assert rows[..|rows| - 1] == RowsFor(id, items[..|items| - 1]);
    assert rows[|rows| - 1] == ToRow(id, items[|items| - 1]);
  }

  lemma {:induction false} ItemsDrift(id: string, items: seq<Item>)
    requires forall i :: 0 <= i < |items| ==> items[i].quantity > 0
    ensures var d := StoredCents(RowsFor(id, items), id) - 100.0 * Total(items);
            var u := StoredUnits(RowsFor(id, items), id) as real;
            -u <= 2.0 * d <= u
  {
    if items != [] {
      var rest, last := items[..|items| - 1], items[|items| - 1];
      ItemsDrift(id, rest);
      RoundingDrift(last.unitPrice);
      UnitsDrift(last.quantity, RoundCents(last.unitPrice), last.unitPrice);
      StoredStep(id, items);
    }
  }

  /** The arithmetic behind the drift bound: rounding the total and rounding every price. */
  lemma NewOrderDrift(id: string, items: seq<Item>)
    requires forall i :: 0 <= i < |items| ==> items[i].quantity > 0
    ensures DriftBounded(RoundCents(Total(items)), StoredCents(RowsFor(id, items), id),
                         StoredUnits(RowsFor(id, items), id))
  {
    ItemsDrift(id, items);
    RoundingDrift(Total(items));
  }

  lemma CommitKeepsTablesOk(t: Tables, id: string, row: OrderRow, items: seq<Item>)
    requires TablesOk(t) && id !in t.orders
    requires row == NewRow(row.userId, items, row.createdAt)
    requires forall i :: 0 <= i < |items| ==> items[i].quantity > 0
    ensures var u := CommitOrder(t, id, row, RowsFor(id, items));
            && TablesOk(u) && Grows(t, u)
            && ItemsOf(u.items, id) == ItemsOf(RowsFor(id, items), id)
  {
    var rows := RowsFor(id, items);
    var u := CommitOrder(t, id, row, rows);
    NewOrderDrift(id, items);
    forall j
      ensures OrderOk(u, j) && GrowsAt(t, u, j)
      ensures j == id ==> ItemsOf(u.items, j) == ItemsOf(rows, j)
    {
      ConcatenatedRows(t.items, rows, j);
      if j == id {
        RowsOfOthers(t.items, j);
      } else {
        RowsOfOthers(rows, j);
        assert OrderOk(t, j);
      }
    }
  }

  lemma CancelKeepsTablesOk(t: Tables, id: string)
    requires TablesOk(t)
    ensures TablesOk(CancelRow(t, id)) && Grows(t, CancelRow(t, id))
  {
    var u := CancelRow(t, id);
    forall j ensures OrderOk(u, j) && GrowsAt(t, u, j) { assert OrderOk(t, j); }
  }

  lemma GrowthComposes(t: Tables, u: Tables, v: Tables)
    requires Grows(t, u) && Grows(u, v)
    ensures Grows(t, v)
  {
    forall id ensures GrowsAt(t, v, id) { assert GrowsAt(t, u, id) && GrowsAt(u, v, id); }
  }
}
