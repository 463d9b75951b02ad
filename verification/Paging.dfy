/** ListOrders: two clamps, int32 products, and what a client collects that follows has_more. */
module Paging {
  import opened OrderModel
  import opened Sets

  const MAX_INT32 := 0x7FFF_FFFF

  predicate IsInt32(x: int) { -0x8000_0000 <= x <= MAX_INT32 }

  /** Two's complement wrap-around of a 32 bit result. */
  function Wrap32(x: int): (r: int)
    ensures IsInt32(r)
    ensures IsInt32(x) ==> r == x
    ensures (x - r) % 0x1_0000_0000 == 0
  {
    (x + 0x8000_0000) % 0x1_0000_0000 - 0x8000_0000
  }

  /** The ids a query with this user filter is about; the empty filter takes all. */
  function Matching(orders: map<string, OrderRow>, user: string): set<string> {
    set id | id in orders && (user == "" || orders[id].userId == user)
  }

  /** What `ORDER BY created_at DESC` yields for the filter: each matching order once, newest
      first. Orders are taken to have distinct creation times. */
  ghost predicate IsListing(orders: map<string, OrderRow>, user: string, ids: seq<string>) {
    && (forall i :: 0 <= i < |ids| ==> ids[i] in Matching(orders, user))
    && (forall id :: id in Matching(orders, user) ==> id in ids)
    && (forall i, j :: 0 <= i < j < |ids| ==> orders[ids[i]].createdAt > orders[ids[j]].createdAt)
  }

  // ---------------------------------------------------------------- the two functions

  datatype ListReply = ListFailed | Listed(orders: seq<Order>, total: int)
  datatype PageReply = PageFailed | Page(orders: seq<Order>, total: int, hasMore: bool)

  function Min(a: int, b: int): int { if a < b then a else b }

  /** LIMIT and OFFSET. */
  function Slice<T>(s: seq<T>, offset: nat, limit: nat): seq<T> {
    s[Min(offset, |s|)..Min(offset + limit, |s|)]
  }

  /** The listed orders carry no items. */
  function Shown(orders: map<string, OrderRow>, ids: seq<string>): (r: seq<Order>)
    requires forall i :: 0 <= i < |ids| ==> ids[i] in orders
    ensures |r| == |ids|
    ensures forall i :: 0 <= i < |ids| ==> r[i] == BuildOrder(ids[i], orders[ids[i]], [])
  {
    seq(|ids|, i requires 0 <= i < |ids| => BuildOrder(ids[i], orders[ids[i]], []))
  }

  /** The page size the repository uses: 20 for everything outside 1..100. */
  function ClampSize(pageSize: int): int { if pageSize <= 0 || pageSize > 100 then 20 else pageSize }

  function ClampPage(page: int): int { if page < 1 then 1 else page }

  /** `List`, where the count query found `total` orders and the list query the listing `ids`: a
      count that does not fit its variable and a negative OFFSET are errors. */
  function ListOf(total: nat, orders: map<string, OrderRow>, ids: seq<string>, page: int, pageSize: int): ListReply
    requires forall i :: 0 <= i < |ids| ==> ids[i] in orders
  {
    var offset := Wrap32((ClampPage(page) - 1) * ClampSize(pageSize));
    if total > MAX_INT32 || offset < 0 then ListFailed
    else Listed(Shown(orders, Slice(ids, offset, ClampSize(pageSize))), total)
  }

  /** The defaults of `ListOrders` for a missing or non-positive request. */
  function AskedPage(reqPage: int): (p: int)
    ensures p >= 1
  {
    if reqPage > 0 then reqPage else 1
  }

  function AskedSize(reqSize: int): (k: int)
    ensures k >= 1
  {
    if reqSize > 0 then reqSize else 20
  }

  /** `ListOrders`: has_more compares the count with the asked page and size. */
  function AnswerOf(total: nat, orders: map<string, OrderRow>, ids: seq<string>, reqPage: int, reqSize: int): PageReply
    requires forall i :: 0 <= i < |ids| ==> ids[i] in orders
  {
    match ListOf(total, orders, ids, AskedPage(reqPage), AskedSize(reqSize))
    case ListFailed => PageFailed
    case Listed(shown, n) => Page(shown, n, n > Wrap32(AskedPage(reqPage) * AskedSize(reqSize)))
  }

  /** The same when both queries see one state of the tables. */
  function PageOf(orders: map<string, OrderRow>, ids: seq<string>, reqPage: int, reqSize: int): PageReply
    requires forall i :: 0 <= i < |ids| ==> ids[i] in orders
  {
    AnswerOf(|ids|, orders, ids, reqPage, reqSize)
  }

  // ---------------------------------------------------------------- what an answer holds

  /** `List` takes pages before the first for the first, and sizes outside 1..100 for 20. */
  lemma ListClamps(total: nat, orders: map<string, OrderRow>, ids: seq<string>, page: int, pageSize: int)
    requires forall i :: 0 <= i < |ids| ==> ids[i] in orders
    ensures page < 1 ==> ListOf(total, orders, ids, page, pageSize) == ListOf(total, orders, ids, 1, pageSize)
    ensures pageSize <= 0 || pageSize > 100 ==>
      ListOf(total, orders, ids, page, pageSize) == ListOf(total, orders, ids, page, 20)
  {}

  /** A missing page is the first, a missing size is 20. */
  lemma MissingPagination(total: nat, orders: map<string, OrderRow>, ids: seq<string>, reqPage: int, reqSize: int)
    requires forall i :: 0 <= i < |ids| ==> ids[i] in orders
    ensures reqPage <= 0 ==> AnswerOf(total, orders, ids, reqPage, reqSize) == AnswerOf(total, orders, ids, 1, reqSize)
    ensures reqSize <= 0 ==> AnswerOf(total, orders, ids, reqPage, reqSize) == AnswerOf(total, orders, ids, reqPage, 20)
    ensures reqPage <= 0 && reqSize <= 0 && total <= 2147483647 ==>
      var r := AnswerOf(total, orders, ids, reqPage, reqSize);
      && r.Page? && r.total == total && (r.hasMore <==> total > 20)
      && |r.orders| == (if |ids| < 20 then |ids| else 20)
      && forall i :: 0 <= i < |r.orders| ==> r.orders[i].id == ids[i]
  {}

  lemma SliceContents(orders: map<string, OrderRow>, ids: seq<string>, lo: nat, size: nat)
    requires forall i :: 0 <= i < |ids| ==> ids[i] in orders
    ensures var shown := Shown(orders, Slice(ids, lo, size));
      && (forall i :: 0 <= i < |shown| ==> lo + i < |ids| && shown[i].id == ids[lo + i])
      && (|shown| == size || (|shown| < size && |shown| == if lo < |ids| then |ids| - lo else 0))
  {}

  lemma AnswerIsSlice(total: nat, orders: map<string, OrderRow>, ids: seq<string>, p: nat, k: nat, lo: nat, size: nat)
    requires forall i :: 0 <= i < |ids| ==> ids[i] in orders
    requires p >= 1 && k >= 1 && total <= MAX_INT32 && size == ClampSize(k)
    requires lo == (p - 1) * size && lo <= MAX_INT32
    ensures var r := AnswerOf(total, orders, ids, p, k);
      r.Page? && r.orders == Shown(orders, Slice(ids, lo, size))
  {}

  /** A page of the asked size, or of 20 when more than 100 are asked for, is the part of the
      listing that follows the pages before it. `lo` is their number of orders. */
  lemma PageContents(total: nat, orders: map<string, OrderRow>, ids: seq<string>, p: nat, k: nat, lo: nat, size: nat)
    requires forall i :: 0 <= i < |ids| ==> ids[i] in orders
    requires p >= 1 && k >= 1 && total <= 2147483647
    requires size == (if k > 100 then 20 else k) && lo == (p - 1) * size && lo <= 2147483647
    ensures var r := AnswerOf(total, orders, ids, p, k);
      && r.Page?
      && (forall i :: 0 <= i < |r.orders| ==> lo + i < |ids| && r.orders[i].id == ids[lo + i])
      && (|r.orders| == size || (|r.orders| < size && |r.orders| == if lo < |ids| then |ids| - lo else 0))
  {
    AnswerIsSlice(total, orders, ids, p, k, lo, size);
    SliceContents(orders, ids, lo, size);
  }

  /** The order shown at place `i` is stored, passes the user filter, comes without its items, and
      is older than those before it. */
  lemma PageHolds(total: nat, orders: map<string, OrderRow>, user: string, ids: seq<string>,
                  reqPage: int, reqSize: int, i: nat)
    requires IsListing(orders, user, ids)
    requires AnswerOf(total, orders, ids, reqPage, reqSize).Page?
    requires i < |AnswerOf(total, orders, ids, reqPage, reqSize).orders|
    ensures var r := AnswerOf(total, orders, ids, reqPage, reqSize);
      && r.orders[i].id in orders && (user == "" || r.orders[i].userId == user)
      && HasRow(r.orders[i], r.orders[i].id, orders[r.orders[i].id]) && r.orders[i].items == []
      && (forall j :: 0 <= j < i ==> r.orders[j].createdAt > r.orders[i].createdAt)
  {
    var p, k := AskedPage(reqPage), AskedSize(reqSize);
    SlicePlaces(orders, user, ids, Wrap32((ClampPage(p) - 1) * ClampSize(k)), ClampSize(k), i);
  }

  lemma SlicePlaces(orders: map<string, OrderRow>, user: string, ids: seq<string>, offset: nat, size: nat, i: nat)
    requires IsListing(orders, user, ids) && i < |Slice(ids, offset, size)|
    ensures var rows := Slice(ids, offset, size);
      && offset + i < |ids| && rows[i] == ids[offset + i] && rows[i] in Matching(orders, user)
      && (forall j :: 0 <= j < i ==> orders[rows[j]].createdAt > orders[rows[i]].createdAt)
  {
    var rows := Slice(ids, offset, size);
    forall j | 0 <= j <= i ensures rows[j] == ids[offset + j] {}
  }

  /** The listing holds the orders of the user, or all orders for no user, and no others. */
  lemma ListingHolds(orders: map<string, OrderRow>, user: string, ids: seq<string>, id: string)
    requires IsListing(orders, user, ids)
    ensures id in ids <==> id in orders && (user == "" || orders[id].userId == user)
    ensures |ids| == |set x | x in orders && (user == "" || orders[x].userId == user)|
  {
    DistinctCount(ids);
    assert (set x | x in ids) == set x | x in orders && (user == "" || orders[x].userId == user);
  }

  // ---------------------------------------------------------------- one page

  lemma Product(a: nat, b: nat, k: nat)
    requires a <= b
    ensures a * k <= b * k && (b - a) * k == b * k - a * k
  {}

  /** For sizes up to 100 whose offset `lo` fits, a page shows its slice; */
  lemma PageShowsItsSlice(orders: map<string, OrderRow>, ids: seq<string>, p: nat, k: nat, lo: nat)
    requires forall i :: 0 <= i < |ids| ==> ids[i] in orders
    requires 1 <= p && 1 <= k <= 100 && |ids| <= MAX_INT32 && lo == (p - 1) * k <= MAX_INT32
    ensures var r := PageOf(orders, ids, p, k);
            r.Page? && r.total == |ids| && r.orders == Shown(orders, Slice(ids, lo, k))
  {}

  /** and if the end `hi` of the page fits too, has_more says whether anything comes after it. */
  lemma PageIsItsSlice(orders: map<string, OrderRow>, ids: seq<string>, p: nat, k: nat, lo: nat, hi: nat)
    requires forall i :: 0 <= i < |ids| ==> ids[i] in orders
    requires 1 <= p && 1 <= k <= 100 && |ids| <= MAX_INT32
    requires lo == (p - 1) * k && hi == p * k && hi <= MAX_INT32
    ensures hi == lo + k
    ensures PageOf(orders, ids, p, k) == Page(Shown(orders, Slice(ids, lo, k)), |ids|, |ids| > hi)
  {
    Product(p - 1, p, k);
    PageShowsItsSlice(orders, ids, p, k, lo);
  }

  // ---------------------------------------------------------------- the walk of a quiet store

  /** The number of pages of `n` orders: max(1, ceil(n / k)). */
  function PageCount(n: nat, k: nat): nat
    requires k > 0
  {
    if n == 0 then 1 else (n - 1) / k + 1
  }

  lemma LastPage(n: nat, k: nat)
    requires k > 0
    ensures PageCount(n, k) >= 1
    ensures (PageCount(n, k) - 1) * k <= n <= PageCount(n, k) * k < n + k || n == 0
    ensures n > 0 ==> (PageCount(n, k) - 1) * k < n
  {
    if n > 0 {
      var q, r := (n - 1) / k, (n - 1) % k;
      assert n - 1 == q * k + r;
      Product(q, q + 1, k);
    }
  }

  lemma PagesBefore(n: nat, k: nat, p: nat)
    requires k > 0 && p >= 1
    ensures n > p * k <==> p < PageCount(n, k)
  {
    LastPage(n, k);
    if p < PageCount(n, k) {
      Product(p, PageCount(n, k) - 1, k);
    } else {
      Product(PageCount(n, k), p, k);
    }
  }

  /** The largest multiple of the page size that an int32 holds. */
  function SafeTotal(k: nat): nat
    requires k > 0
  {
    MAX_INT32 - MAX_INT32 % k
  }

  lemma Multiples(m: nat, k: nat, n: nat)
    requires k > 0 && n == m * k
    ensures n <= MAX_INT32 <==> n <= SafeTotal(k)
  {
    var q := MAX_INT32 / k;
    assert SafeTotal(k) == q * k;
    if n <= MAX_INT32 && m > q {
      Product(q + 1, m, k);
      Product(q, q + 1, k);
    } else if m <= q {
      Product(m, q, k);
    }
  }

  /** The last page ends within int32 exactly when the total is at most that multiple. */
  lemma LastProductFits(n: nat, k: nat)
    requires 1 <= k <= MAX_INT32 && n <= MAX_INT32
    ensures PageCount(n, k) * k <= MAX_INT32 <==> n <= SafeTotal(k)
  {
    var last := PageCount(n, k);
    LastPage(n, k);
    Multiples(last, k, last * k);
    if n > 0 && n <= SafeTotal(k) && last * k > SafeTotal(k) {
      var q := MAX_INT32 / k;
      assert SafeTotal(k) == q * k;
      if last - 1 < q { Product(last, q, k); } else { Product(q, last - 1, k); }
    }
  }

  /** Where page `p` lies in a listing of `n` orders. */
  lemma PageBounds(n: nat, k: nat, p: nat, lo: nat, hi: nat)
    requires 1 <= k <= MAX_INT32 && n <= MAX_INT32 && 1 <= p <= PageCount(n, k)
    requires lo == (p - 1) * k && hi == p * k
    ensures hi == lo + k && lo <= n && (n > 0 ==> lo < n)
    ensures n > hi <==> p < PageCount(n, k)
    ensures n <= SafeTotal(k) ==> hi <= MAX_INT32
    ensures p == PageCount(n, k) ==> (hi <= MAX_INT32 <==> n <= SafeTotal(k))
  {
    var last := PageCount(n, k);
    LastPage(n, k);
    Product(p - 1, last - 1, k);
    Product(p, last, k);
    Product(p - 1, p, k);
    PagesBefore(n, k, p);
    LastProductFits(n, k);
  }

  /** Replies to a client that asks for page `p` and on while has_more holds, `calls` times at most. */
  function Walk(ask: int -> PageReply, p: int, calls: nat): seq<PageReply>
    decreases calls
  {
    if calls == 0 then []
    else if ask(p).Page? && ask(p).hasMore then [ask(p)] + Walk(ask, p + 1, calls - 1)
    else [ask(p)]
  }

  /** The orders of all pages, in the order they came. */
  function Collected(replies: seq<PageReply>): seq<Order> {
    if replies == [] then []
    else (if replies[0].Page? then replies[0].orders else []) + Collected(replies[1..])
  }

  /** Page `p` is the part of `all` between two cuts, and says whether it is the last one. */
  ghost predicate IsPart(ask: int -> PageReply, all: seq<Order>, cut: int -> int, last: nat, p: nat) {
    && 0 <= cut(p - 1) <= cut(p) <= |all|
    && ask(p).Page? && ask(p).orders == all[cut(p - 1)..cut(p)]
    && (ask(p).hasMore <==> p < last)
  }

  lemma {:induction false} PartsCollect(ask: int -> PageReply, all: seq<Order>, cut: int -> int, last: nat,
                                        p: nat, calls: nat)
    requires 1 <= p <= last && cut(last) == |all| && calls > last - p
    requires forall q: nat :: p <= q <= last ==> IsPart(ask, all, cut, last, q)
    ensures 0 <= cut(p - 1) <= |all|
    ensures |Walk(ask, p, calls)| == last - p + 1
    ensures Collected(Walk(ask, p, calls)) == all[cut(p - 1)..]
    decreases calls
  {
    assert IsPart(ask, all, cut, last, p);
    if p < last {
      PartsCollect(ask, all, cut, last, p + 1, calls - 1);
      var rest := Walk(ask, p + 1, calls - 1);
      assert ([ask(p)] + rest)[1..] == rest;
    } else {
      assert [ask(p)][1..] == [];
    }
  }

  /** A client of an unchanging store. */
  function AskOf(orders: map<string, OrderRow>, ids: seq<string>, k: int): int -> PageReply
    requires forall i :: 0 <= i < |ids| ==> ids[i] in orders
  {
    p => PageOf(orders, ids, p, k)
  }

  /** The end of page `q` in a listing of `n` orders. */
  function CutOf(k: nat, n: nat): int -> int { q => Min(q * k, n) }

  lemma CutAt(k: nat, n: nat, q: nat, end: nat)
    requires end == q * k
    ensures CutOf(k, n)(q) == Min(end, n)
  {}

  lemma ShownSlice(orders: map<string, OrderRow>, ids: seq<string>, lo: nat, hi: nat)
    requires forall i :: 0 <= i < |ids| ==> ids[i] in orders
    requires lo <= |ids| && lo <= hi
    ensures Shown(orders, Slice(ids, lo, hi - lo)) == Shown(orders, ids)[lo..Min(hi, |ids|)]
  {
    assert Slice(ids, lo, hi - lo) == ids[lo..Min(hi, |ids|)];
  }

  lemma QuietPage(orders: map<string, OrderRow>, ids: seq<string>, k: nat, p: nat, lo: nat, hi: nat)
    requires forall i :: 0 <= i < |ids| ==> ids[i] in orders
    requires 1 <= k <= 100 && |ids| <= SafeTotal(k) && 1 <= p <= PageCount(|ids|, k)
    requires lo == (p - 1) * k && hi == p * k
    ensures var r := AskOf(orders, ids, k)(p);
      && lo <= |ids| && lo <= hi
      && r.Page? && r.orders == Shown(orders, ids)[lo..Min(hi, |ids|)] && (r.hasMore <==> p < PageCount(|ids|, k))
      && (p == PageCount(|ids|, k) ==> |ids| <= hi)
  {
    PageBounds(|ids|, k, p, lo, hi);
    PageIsItsSlice(orders, ids, p, k, lo, hi);
    ShownSlice(orders, ids, lo, hi);
  }

  lemma QuietPart(orders: map<string, OrderRow>, ids: seq<string>, k: nat, p: nat, lo: nat, hi: nat)
    requires forall i :: 0 <= i < |ids| ==> ids[i] in orders
    requires 1 <= k <= 100 && |ids| <= SafeTotal(k) && 1 <= p <= PageCount(|ids|, k)
    requires lo == (p - 1) * k && hi == p * k
    ensures IsPart(AskOf(orders, ids, k), Shown(orders, ids), CutOf(k, |ids|), PageCount(|ids|, k), p)
    ensures p == PageCount(|ids|, k) ==> CutOf(k, |ids|)(p) == |ids|
    ensures CutOf(k, |ids|)(0) == 0
  {
    QuietPage(orders, ids, k, p, lo, hi);
    CutAt(k, |ids|, p - 1, lo);
    CutAt(k, |ids|, p, hi);
    CutAt(k, |ids|, 0, 0);
  }

  /** On a store that does not change, the pages are the whole listing, each order once and in
      order, and the walk ends after max(1, ceil(n / k)) calls. The bound on the listing is exact:
      see WalkWrapsExactlyAbove. */
  lemma QuietWalkIsTheListing(orders: map<string, OrderRow>, user: string, ids: seq<string>, k: nat, calls: nat)
    requires IsListing(orders, user, ids) && 1 <= k <= 100
    requires |ids| <= SafeTotal(k) && calls >= PageCount(|ids|, k)
    ensures Collected(Walk(AskOf(orders, ids, k), 1, calls)) == Shown(orders, ids)
    ensures |Walk(AskOf(orders, ids, k), 1, calls)| == PageCount(|ids|, k)
  {
    AtLeastOnePage(|ids|, k);
    QuietParts(orders, ids, k);
    PartsCollect(AskOf(orders, ids, k), Shown(orders, ids), CutOf(k, |ids|), PageCount(|ids|, k), 1, calls);
    assert Shown(orders, ids)[0..] == Shown(orders, ids);
  }

  lemma QuietParts(orders: map<string, OrderRow>, ids: seq<string>, k: nat)
    requires forall i :: 0 <= i < |ids| ==> ids[i] in orders
    requires 1 <= k <= 100 && |ids| <= SafeTotal(k)
    ensures forall q: nat :: 1 <= q <= PageCount(|ids|, k) ==>
              IsPart(AskOf(orders, ids, k), Shown(orders, ids), CutOf(k, |ids|), PageCount(|ids|, k), q)
    ensures CutOf(k, |ids|)(PageCount(|ids|, k)) == |ids| && CutOf(k, |ids|)(0) == 0
  {
    var last := PageCount(|ids|, k);
    AtLeastOnePage(|ids|, k);
    forall q: nat | 1 <= q <= last
      ensures IsPart(AskOf(orders, ids, k), Shown(orders, ids), CutOf(k, |ids|), last, q)
    {
      QuietPartAt(orders, ids, k, q);
    }
    QuietPartAt(orders, ids, k, last);
  }

  lemma QuietPartAt(orders: map<string, OrderRow>, ids: seq<string>, k: nat, p: nat)
    requires forall i :: 0 <= i < |ids| ==> ids[i] in orders
    requires 1 <= k <= 100 && |ids| <= SafeTotal(k) && 1 <= p <= PageCount(|ids|, k)
    ensures IsPart(AskOf(orders, ids, k), Shown(orders, ids), CutOf(k, |ids|), PageCount(|ids|, k), p)
    ensures p == PageCount(|ids|, k) ==> CutOf(k, |ids|)(p) == |ids|
    ensures CutOf(k, |ids|)(0) == 0
  {
    QuietPart(orders, ids, k, p, (p - 1) * k, p * k);
  }

  lemma AtLeastOnePage(n: nat, k: nat)
    requires k > 0
    ensures PageCount(n, k) >= 1
  {
    LastPage(n, k);
  }

  // ---------------------------------------------------------------- has_more

  /** Where the page after page `p` starts; a refused page starts after everything. */
  function NextStart(p: int, k: int): (start: int)
    ensures 0 <= start <= MAX_INT32
  {
    var offset := Wrap32(p * ClampSize(k));
    if offset < 0 then MAX_INT32 else offset
  }

  predicate HasOrders(r: PageReply) { r.Page? && r.orders != [] }

  lemma PageHasOrders(orders: map<string, OrderRow>, ids: seq<string>, p: int, k: int, offset: int)
    requires forall i :: 0 <= i < |ids| ==> ids[i] in orders
    requires p >= 1 && offset == Wrap32((p - 1) * ClampSize(AskedSize(k)))
    ensures var r := PageOf(orders, ids, p, k);
      && (r.Page? <==> |ids| <= MAX_INT32 && offset >= 0)
      && (r.Page? ==> (r.orders != [] <==> |ids| > offset))
      && (r.Page? ==> (r.hasMore <==> |ids| > Wrap32(p * AskedSize(k))))
  {}

  /** For every request: has_more says whether the next page has orders, exactly unless the number
      of orders lies between the start of that page and the product that has_more compares. */
  lemma HasMoreExactly(orders: map<string, OrderRow>, ids: seq<string>, reqPage: int, reqSize: int)
    requires forall i :: 0 <= i < |ids| ==> ids[i] in orders
    ensures var p, k := AskedPage(reqPage), AskedSize(reqSize);
      var r, next := PageOf(orders, ids, reqPage, reqSize), PageOf(orders, ids, p + 1, reqSize);
      var start, claim := NextStart(p, k), Wrap32(p * k);
      && (HasOrders(next) <==> start < |ids| <= MAX_INT32)
      && (r.Page? ==> ((r.hasMore <==> HasOrders(next)) <==>
                       !(start < |ids| <= claim) && !(claim < |ids| <= start)))
  {
    var p, k := AskedPage(reqPage), AskedSize(reqSize);
    PageHasOrders(orders, ids, p, k, Wrap32((p - 1) * ClampSize(k)));
    PageHasOrders(orders, ids, p + 1, k, Wrap32(p * ClampSize(k)));
  }

  /** For sizes up to 100, has_more is right exactly when its product has not wrapped below zero.
      Otherwise it is true while the next page is refused. */
  lemma HasMoreIsNextPage(orders: map<string, OrderRow>, ids: seq<string>, p: int, k: int)
    requires forall i :: 0 <= i < |ids| ==> ids[i] in orders
    requires p >= 1 && 1 <= k <= 100
    ensures var r, next := PageOf(orders, ids, p, k), PageOf(orders, ids, p + 1, k);
      r.Page? ==> ((r.hasMore <==> HasOrders(next)) <==> Wrap32(p * k) >= 0)
  {
    HasMoreExactly(orders, ids, p, k);
  }

  /** Above 100 the repository serves pages of 20 while has_more multiplies the asked size. While
      that product fits, has_more is wrong exactly when the list goes on beyond this page but not
      beyond the product. */
  lemma HasMoreAboveHundred(orders: map<string, OrderRow>, ids: seq<string>, p: int, k: int)
    requires forall i :: 0 <= i < |ids| ==> ids[i] in orders
    requires p >= 1 && k > 100 && p * k <= MAX_INT32
    ensures var r, next := PageOf(orders, ids, p, k), PageOf(orders, ids, p + 1, k);
      && (r.Page? <==> |ids| <= MAX_INT32)
      && (r.Page? ==> ((r.hasMore <==> HasOrders(next)) <==> !(p * 20 < |ids| <= p * k)))
  {
    Product(20, k, p);
    Product(p - 1, p, 20);
    HasMoreExactly(orders, ids, p, k);
    PageHasOrders(orders, ids, p, k, (p - 1) * 20);
  }

  /** Requests whose product wraps: an empty store says that there is more. */
  lemma EmptyStoreHasMore()
    ensures PageOf(map[], [], 42949673, 50) == Page([], 0, true)
    ensures PageOf(map[], [], 2, 1500000000) == Page([], 0, true)
  {}

  // ---------------------------------------------------------------- where int32 stops

  /** A walk over `n` orders never wraps exactly when `n` is within the largest multiple of the
      page size; otherwise its last page, which shows the end of the list, promises more. */
  lemma WalkWrapsExactlyAbove(orders: map<string, OrderRow>, ids: seq<string>, k: nat, p: nat, lo: nat)
    requires forall i :: 0 <= i < |ids| ==> ids[i] in orders
    requires 1 <= k <= 100 && |ids| <= MAX_INT32
    requires p == PageCount(|ids|, k) && lo == (p - 1) * k
    ensures p * k == Wrap32(p * k) <==> |ids| <= SafeTotal(k)
    ensures var last := PageOf(orders, ids, p, k);
      && lo <= |ids| && last.Page? && last.orders == Shown(orders, ids)[lo..]
      && (|ids| > 0 ==> last.orders != [])
      && (last.hasMore <==> |ids| > SafeTotal(k))
  {
    PageBounds(|ids|, k, p, lo, p * k);
    PageShowsItsSlice(orders, ids, p, k, lo);
    PagesBefore(|ids|, k, p);
    ShownSlice(orders, ids, lo, p * k);
  }

  /** In particular no size up to 100 wraps below 2^31 - 1 - 100 orders. */
  lemma SafeBelow(k: nat)
    requires 1 <= k <= 100
    ensures SafeTotal(k) > MAX_INT32 - 100
  {}

  // ---------------------------------------------------------------- the walk of a growing store

  /** The matching orders that are newer than `id`; they precede it in every listing. */
  function Newer(orders: map<string, OrderRow>, user: string, id: string): set<string>
    requires id in orders
  {
    set x | x in orders && x in Matching(orders, user) && orders[x].createdAt > orders[id].createdAt
  }

  lemma {:induction false} DistinctCount(ids: seq<string>)
    requires forall i, j :: 0 <= i < j < |ids| ==> ids[i] != ids[j]
    ensures |set x | x in ids| == |ids|
  {
    if ids != [] {
      var rest := ids[..|ids| - 1];
      DistinctCount(rest);
      assert (set x | x in ids) == (set x | x in rest) + {ids[|ids| - 1]};
    }
  }

  /** An order stands at the position given by the number of newer ones. */
  lemma PositionInListing(orders: map<string, OrderRow>, user: string, ids: seq<string>, id: string)
    requires IsListing(orders, user, ids) && id in Matching(orders, user)
    ensures |Newer(orders, user, id)| < |ids| && ids[|Newer(orders, user, id)|] == id
  {
    var i :| 0 <= i < |ids| && ids[i] == id;
    assert Newer(orders, user, id) == set x | x in ids[..i];
    DistinctCount(ids[..i]);
  }

  /** Hence the listing of a set of orders is unique. */
  lemma ListingIsUnique(orders: map<string, OrderRow>, user: string, a: seq<string>, b: seq<string>)
    requires IsListing(orders, user, a) && IsListing(orders, user, b)
    ensures a == b
  {
    if |a| > |b| {
      PositionInListing(orders, user, a, a[|b|]);
      PositionInListing(orders, user, b, a[|b|]);
    }
    if |b| > |a| {
      PositionInListing(orders, user, a, b[|a|]);
      PositionInListing(orders, user, b, b[|a|]);
    }
    forall i | 0 <= i < |a| ensures a[i] == b[i] {
      PositionInListing(orders, user, a, a[i]);
      PositionInListing(orders, user, b, a[i]);
    }
  }

  /** Inserts and cancellations can only move an order towards the end. */
  lemma PositionsNeverDecrease(t: Tables, u: Tables, user: string, id: string)
    requires Grows(t, u) && id in Matching(t.orders, user)
    ensures id in Matching(u.orders, user)
    ensures |Newer(t.orders, user, id)| <= |Newer(u.orders, user, id)|
  {
    assert GrowsAt(t, u, id);
    assert Newer(t.orders, user, id) <= Newer(u.orders, user, id) by {
      forall x | x in Newer(t.orders, user, id) ensures x in Newer(u.orders, user, id) { assert GrowsAt(t, u, x); }
    }
    SubsetCount(Newer(t.orders, user, id), Newer(u.orders, user, id));
  }

  /** One answered call of a walk: the tables as its count query saw them and, later, its list
      query, and the listing that the latter went through. */
  datatype Visit = Visit(counted: Tables, listed: Tables, ids: seq<string>)

  ghost predicate VisitOk(v: Visit, user: string) {
    && Grows(v.counted, v.listed) && IsListing(v.listed.orders, user, v.ids)
    && |Matching(v.counted.orders, user)| <= MAX_INT32
  }

  /** The reply to call number `j`, which asks for page `j + 1`. */
  ghost function ReplyTo(v: Visit, user: string, j: nat, k: nat): PageReply
    requires VisitOk(v, user)
  {
    AnswerOf(|Matching(v.counted.orders, user)|, v.listed.orders, v.ids, j + 1, k)
  }

  /** Every call of the walk. */
  ghost predicate VisitsOk(walk: seq<Visit>, user: string) {
    && (forall j :: 0 <= j < |walk| ==> VisitOk(walk[j], user))
    && (forall j :: 0 < j < |walk| ==> Grows(walk[j - 1].listed, walk[j].counted))
  }

  ghost predicate Answered(walk: seq<Visit>, user: string, k: nat, j: nat)
    requires VisitsOk(walk, user) && j < |walk|
  {
    ReplyTo(walk[j], user, j, k).Page?
  }

  /** Call `j` was told to go on. */
  ghost predicate GoesOn(walk: seq<Visit>, user: string, k: nat, j: nat)
    requires VisitsOk(walk, user) && j < |walk|
  {
    Answered(walk, user, k, j) && ReplyTo(walk[j], user, j, k).hasMore
  }

  /** The offset of page `p + 1` has wrapped. */
  predicate Refused(p: nat, k: nat) { Wrap32(p * k) < 0 }

  /** Call `j` was answered, and was the last one exactly when it was told that there is no more,
      or the next page is refused. */
  ghost predicate CallOk(walk: seq<Visit>, user: string, k: nat, j: nat)
    requires VisitsOk(walk, user) && j < |walk|
  {
    && Answered(walk, user, k, j)
    && (j < |walk| - 1 ==> GoesOn(walk, user, k, j))
    && (j == |walk| - 1 ==> !GoesOn(walk, user, k, j) || Refused(j + 1, k))
  }

  /** A walk while others create and cancel orders, even between the count and the list of a call. */
  ghost predicate TornWalk(walk: seq<Visit>, user: string, k: nat) {
    && walk != [] && VisitsOk(walk, user)
    && (forall j :: 0 <= j < |walk| ==> CallOk(walk, user, k, j))
  }

  /** How many orders `n` full pages have. */
  function Pages(n: nat, k: nat): nat {
    if n == 0 then 0 else Pages(n - 1, k) + k
  }

  lemma {:induction false} PagesIsProduct(n: nat, k: nat)
    ensures Pages(n, k) == n * k
  {
    if n > 0 {
      PagesIsProduct(n - 1, k);
      Product(n - 1, n, k);
    }
  }

  lemma StepWraps(lo: nat, hi: nat, k: nat)
    requires hi == lo + k && lo <= MAX_INT32 && k <= 100
    ensures Wrap32(hi) >= 0 <==> hi <= MAX_INT32
  {}

  /** An answered page shows its slice; has_more is right about the count unless it wraps. */
  lemma VisitShows(v: Visit, user: string, j: nat, k: nat, lo: nat)
    requires VisitOk(v, user) && 1 <= k <= 100 && lo == j * k && lo <= MAX_INT32
    ensures var r, total := ReplyTo(v, user, j, k), |Matching(v.counted.orders, user)|;
      && r.Page? && r.orders == Shown(v.listed.orders, Slice(v.ids, lo, k))
      && (r.hasMore <==> total > lo + k || lo + k > MAX_INT32)
  {
    Product(j, j + 1, k);
    StepWraps(lo, lo + k, k);
  }

  lemma AnsweredOffset(v: Visit, user: string, j: nat, k: nat, before: nat, lo: nat)
    requires VisitOk(v, user) && 1 <= k <= 100 && ReplyTo(v, user, j, k).Page?
    requires lo == j * k && lo == before + k && before <= MAX_INT32
    ensures lo <= MAX_INT32
  {
    StepWraps(before, lo, k);
  }

  /** The offsets of answered pages do not wrap. */
  lemma {:induction false} OffsetFits(walk: seq<Visit>, user: string, k: nat, j: nat)
    requires 1 <= k <= 100 && TornWalk(walk, user, k) && j < |walk|
    ensures Pages(j, k) <= MAX_INT32
  {
    if j > 0 {
      OffsetFits(walk, user, k, j - 1);
      PagesIsProduct(j, k);
      assert CallOk(walk, user, k, j);
      AnsweredOffset(walk[j], user, j, k, Pages(j - 1, k), Pages(j, k));
    }
  }

  lemma WalkShows(walk: seq<Visit>, user: string, k: nat, j: nat)
    requires 1 <= k <= 100 && TornWalk(walk, user, k) && j < |walk|
    ensures var r, v := ReplyTo(walk[j], user, j, k), walk[j];
      && r.Page? && r.orders == Shown(v.listed.orders, Slice(v.ids, Pages(j, k), k))
      && (r.hasMore <==> |Matching(v.counted.orders, user)| > Pages(j + 1, k) || Pages(j + 1, k) > MAX_INT32)
  {
    OffsetFits(walk, user, k, j);
    PagesIsProduct(j, k);
    VisitShows(walk[j], user, j, k, Pages(j, k));
  }

  // ---------------------------------------------------------------- what such a walk shows

  /** Page `j + 1` of the walk shows `id`. */
  ghost predicate ShownAt(walk: seq<Visit>, user: string, k: nat, j: nat, id: string)
    requires j < |walk| && VisitsOk(walk, user)
  {
    var v, r := walk[j], ReplyTo(walk[j], user, j, k);
    id in v.listed.orders && r.Page? && BuildOrder(id, v.listed.orders[id], []) in r.orders
  }

  /** Some page of the walk shows `id`. */
  ghost predicate Seen(walk: seq<Visit>, user: string, k: nat, id: string)
    requires VisitsOk(walk, user)
  {
    exists j: nat :: j < |walk| && ShownAt(walk, user, k, j, id)
  }

  /** The walk shows every order there was when it began. */
  ghost predicate SeesAll(walk: seq<Visit>, user: string, k: nat)
    requires walk != [] && VisitsOk(walk, user)
  {
    forall id :: id in Matching(walk[0].counted.orders, user) ==> Seen(walk, user, k, id)
  }

  /** The number of orders before `id` in the listing of call `j`. */
  ghost function Position(walk: seq<Visit>, user: string, j: nat, id: string): nat {
    if j < |walk| && id in walk[j].listed.orders then |Newer(walk[j].listed.orders, user, id)| else 0
  }

  /** The position of `id` lies on page `j + 1`. */
  ghost predicate Covers(walk: seq<Visit>, user: string, k: nat, j: nat, id: string) {
    Pages(j, k) <= Position(walk, user, j, id) < Pages(j + 1, k)
  }

  lemma SliceShows(orders: map<string, OrderRow>, ids: seq<string>, lo: nat, k: nat, i: nat)
    requires forall j :: 0 <= j < |ids| ==> ids[j] in orders
    requires forall j, l :: 0 <= j < l < |ids| ==> ids[j] != ids[l]
    requires i < |ids|
    ensures BuildOrder(ids[i], orders[ids[i]], []) in Shown(orders, Slice(ids, lo, k)) <==> lo <= i < lo + k
  {
    var page := Slice(ids, lo, k);
    var shown := Shown(orders, page);
    if lo <= i < lo + k {
      assert page[i - lo] == ids[i];
      assert shown[i - lo] == BuildOrder(ids[i], orders[ids[i]], []);
    }
  }

  /** A page shows exactly the orders whose positions it covers. */
  lemma ShownIsCovered(walk: seq<Visit>, user: string, k: nat, j: nat, id: string)
    requires 1 <= k <= 100 && TornWalk(walk, user, k) && j < |walk|
    requires id in Matching(walk[j].listed.orders, user)
    ensures ShownAt(walk, user, k, j, id) <==> Covers(walk, user, k, j, id)
  {
    var v := walk[j];
    WalkShows(walk, user, k, j);
    assert VisitOk(v, user);
    PositionInListing(v.listed.orders, user, v.ids, id);
    SliceShows(v.listed.orders, v.ids, Pages(j, k), k, Position(walk, user, j, id));
  }

  /** From the listing of one call to that of the next, an order only moves towards the end. */
  lemma NextPosition(walk: seq<Visit>, user: string, j: nat, id: string)
    requires VisitsOk(walk, user) && 0 < j < |walk| && id in Matching(walk[j - 1].listed.orders, user)
    ensures id in Matching(walk[j].listed.orders, user)
    ensures Position(walk, user, j - 1, id) <= Position(walk, user, j, id)
    ensures walk[j].listed.orders[id].createdAt == walk[j - 1].listed.orders[id].createdAt
  {
    var u, v := walk[j - 1], walk[j];
    assert VisitOk(v, user);
    PositionsNeverDecrease(u.listed, v.counted, user, id);
    PositionsNeverDecrease(v.counted, v.listed, user, id);
    assert GrowsAt(u.listed, v.counted, id) && GrowsAt(v.counted, v.listed, id);
  }

  /** The orders there were at the start are in every listing. */
  lemma {:induction false} InitialStays(walk: seq<Visit>, user: string, j: nat, id: string)
    requires VisitsOk(walk, user) && j < |walk| && id in Matching(walk[0].counted.orders, user)
    ensures id in Matching(walk[j].listed.orders, user)
  {
    if j == 0 {
      assert VisitOk(walk[0], user);
      PositionsNeverDecrease(walk[0].counted, walk[0].listed, user, id);
    } else {
      InitialStays(walk, user, j - 1, id);
      NextPosition(walk, user, j, id);
    }
  }

  /** An order that call `j` finds before the end of its page has been covered by then. */
  lemma {:induction false} CoveredSoFar(walk: seq<Visit>, user: string, k: nat, j: nat, id: string)
    returns (page: nat)
    requires VisitsOk(walk, user) && j < |walk| && id in Matching(walk[0].counted.orders, user)
    requires Position(walk, user, j, id) < Pages(j + 1, k)
    ensures page <= j && Covers(walk, user, k, page, id)
  {
    if Position(walk, user, j, id) >= Pages(j, k) {
      page := j;
    } else {
      InitialStays(walk, user, j - 1, id);
      NextPosition(walk, user, j, id);
      page := CoveredSoFar(walk, user, k, j - 1, id);
    }
  }

  lemma PositionBelow(walk: seq<Visit>, user: string, j: nat, id: string)
    requires VisitsOk(walk, user) && j < |walk| && id in Matching(walk[0].counted.orders, user)
    ensures id in Matching(walk[j].listed.orders, user) && Position(walk, user, j, id) < |walk[j].ids|
  {
    InitialStays(walk, user, j, id);
    assert VisitOk(walk[j], user);
    PositionInListing(walk[j].listed.orders, user, walk[j].ids, id);
  }

  /** A walk whose last listing ends within its pages has shown everything. Tears in earlier calls
      do no harm. */
  lemma TornWalkSeesAll(walk: seq<Visit>, user: string, k: nat)
    requires 1 <= k <= 100 && TornWalk(walk, user, k) && |walk[|walk| - 1].ids| <= Pages(|walk|, k)
    ensures SeesAll(walk, user, k)
  {
    forall id | id in Matching(walk[0].counted.orders, user) ensures Seen(walk, user, k, id) {
      PositionBelow(walk, user, |walk| - 1, id);
      var page := CoveredSoFar(walk, user, k, |walk| - 1, id);
      InitialStays(walk, user, page, id);
      ShownIsCovered(walk, user, k, page, id);
    }
  }

  /** `id` is the oldest order of the last listing. */
  ghost predicate LastOfAll(walk: seq<Visit>, id: string) {
    && walk != [] && walk[|walk| - 1].ids != []
    && var ids := walk[|walk| - 1].ids; ids[|ids| - 1] == id
  }

  lemma {:induction false} StaysListed(walk: seq<Visit>, user: string, i: nat, j: nat, id: string)
    requires VisitsOk(walk, user) && i <= j < |walk| && id in Matching(walk[i].listed.orders, user)
    ensures id in Matching(walk[j].listed.orders, user)
    ensures walk[j].listed.orders[id].createdAt == walk[i].listed.orders[id].createdAt
    decreases j
  {
    if i < j {
      StaysListed(walk, user, i, j - 1, id);
      NextPosition(walk, user, j, id);
    }
  }

  /** Nothing in a listing is older than its last order. */
  lemma OldestIsLast(v: Visit, user: string, id: string)
    requires VisitOk(v, user) && id in Matching(v.listed.orders, user)
    requires forall x :: x in Matching(v.listed.orders, user) ==>
               v.listed.orders[x].createdAt >= v.listed.orders[id].createdAt
    ensures |v.ids| > 0 && |Newer(v.listed.orders, user, id)| == |v.ids| - 1
  {
    PositionInListing(v.listed.orders, user, v.ids, id);
    assert v.ids[|v.ids| - 1] in Matching(v.listed.orders, user);
  }

  /** The oldest order of the last listing, if there at the start, is the last in every listing. */
  lemma LastInEvery(walk: seq<Visit>, user: string, j: nat, id: string)
    requires VisitsOk(walk, user) && LastOfAll(walk, id) && j < |walk|
    requires id in Matching(walk[0].counted.orders, user)
    ensures id in Matching(walk[j].listed.orders, user)
    ensures |walk[j].ids| > 0 && Position(walk, user, j, id) == |walk[j].ids| - 1
  {
    var v, last := walk[j], walk[|walk| - 1];
    InitialStays(walk, user, j, id);
    StaysListed(walk, user, j, |walk| - 1, id);
    assert VisitOk(v, user) && VisitOk(last, user);
    forall x | x in Matching(v.listed.orders, user)
      ensures v.listed.orders[x].createdAt >= v.listed.orders[id].createdAt
    {
      StaysListed(walk, user, j, |walk| - 1, x);
      assert x in last.ids;
    }
    OldestIsLast(v, user, id);
  }

  /** The listing of a call has no fewer orders than were counted before. */
  lemma CountedBefore(v: Visit, user: string)
    requires VisitOk(v, user)
    ensures |Matching(v.counted.orders, user)| <= |v.ids|
  {
    var before, after := Matching(v.counted.orders, user), set id | id in v.ids;
    forall id | id in before ensures id in after {
      assert GrowsAt(v.counted, v.listed, id);
    }
    DistinctCount(v.ids);
    SubsetCount(before, after);
  }

  /** A call that is told to go on lists more than the pages so far. */
  lemma GoingOnListsMore(walk: seq<Visit>, user: string, k: nat, j: nat)
    requires 1 <= k <= 100 && TornWalk(walk, user, k) && j < |walk| - 1
    ensures |walk[j].ids| > Pages(j + 1, k)
  {
    OffsetFits(walk, user, k, j + 1);
    WalkShows(walk, user, k, j);
    CountedBefore(walk[j], user);
    assert CallOk(walk, user, k, j);
  }

  /** A walk whose last listing goes on beyond its pages never showed the oldest order of it, if
      that was there at the start. */
  lemma TornWalkMissesTheOldest(walk: seq<Visit>, user: string, k: nat, id: string)
    requires 1 <= k <= 100 && TornWalk(walk, user, k) && LastOfAll(walk, id)
    requires id in Matching(walk[0].counted.orders, user) && |walk[|walk| - 1].ids| > Pages(|walk|, k)
    ensures !Seen(walk, user, k, id)
  {
    forall j: nat | j < |walk| ensures !ShownAt(walk, user, k, j, id) {
      if j < |walk| - 1 { GoingOnListsMore(walk, user, k, j); }
      LastInEvery(walk, user, j, id);
      ShownIsCovered(walk, user, k, j, id);
    }
  }

  /** So when nothing older than what is stored gets inserted, a walk shows every order of its
      start exactly when its last listing ends within the pages it asked for. */
  lemma TornWalkSeesAllExactly(walk: seq<Visit>, user: string, k: nat, oldest: string)
    requires 1 <= k <= 100 && TornWalk(walk, user, k)
    requires oldest in Matching(walk[0].counted.orders, user) && LastOfAll(walk, oldest)
    ensures SeesAll(walk, user, k) <==> |walk[|walk| - 1].ids| <= |walk| * k
  {
    PagesIsProduct(|walk|, k);
    if |walk[|walk| - 1].ids| <= Pages(|walk|, k) {
      TornWalkSeesAll(walk, user, k);
    } else {
      TornWalkMissesTheOldest(walk, user, k, oldest);
    }
  }

  /** Whatever gets inserted, and however old: a walk shows every order of its start exactly when
      it shows the oldest of them, which is when some call finds that before the end of its page. */
  lemma TornWalkSeesAllIfOldest(walk: seq<Visit>, user: string, k: nat, oldest: string)
    requires 1 <= k <= 100 && TornWalk(walk, user, k)
    requires oldest in Matching(walk[0].counted.orders, user)
    requires forall id :: id in Matching(walk[0].counted.orders, user) ==>
               walk[0].counted.orders[id].createdAt >= walk[0].counted.orders[oldest].createdAt
    ensures SeesAll(walk, user, k) <==>
      exists j: nat :: j < |walk| && Position(walk, user, j, oldest) < Pages(j + 1, k)
  {
    if j: nat :| j < |walk| && Position(walk, user, j, oldest) < Pages(j + 1, k) {
      forall id | id in Matching(walk[0].counted.orders, user) ensures Seen(walk, user, k, id) {
        OlderIsBehind(walk, user, j, id, oldest);
        var page := CoveredSoFar(walk, user, k, j, id);
        InitialStays(walk, user, page, id);
        ShownIsCovered(walk, user, k, page, id);
      }
    }
    if SeesAll(walk, user, k) {
      var j: nat :| j < |walk| && ShownAt(walk, user, k, j, oldest);
      InitialStays(walk, user, j, oldest);
      ShownIsCovered(walk, user, k, j, oldest);
    }
  }

  /** Of two orders there at the start, the older one stays behind. */
  lemma OlderIsBehind(walk: seq<Visit>, user: string, j: nat, id: string, older: string)
    requires VisitsOk(walk, user) && j < |walk|
    requires id in Matching(walk[0].counted.orders, user) && older in Matching(walk[0].counted.orders, user)
    requires walk[0].counted.orders[id].createdAt >= walk[0].counted.orders[older].createdAt
    ensures Position(walk, user, j, id) <= Position(walk, user, j, older)
  {
    assert VisitOk(walk[0], user);
    assert GrowsAt(walk[0].counted, walk[0].listed, id) && GrowsAt(walk[0].counted, walk[0].listed, older);
    InitialStays(walk, user, 0, id);
    InitialStays(walk, user, 0, older);
    StaysListed(walk, user, 0, j, id);
    StaysListed(walk, user, 0, j, older);
    SubsetCount(Newer(walk[j].listed.orders, user, id), Newer(walk[j].listed.orders, user, older));
  }

  /** Nothing matching was inserted between the count and the list of the last call. */
  ghost predicate LastCallIsWhole(walk: seq<Visit>, user: string) {
    walk != [] && |Matching(walk[|walk| - 1].counted.orders, user)| == |walk[|walk| - 1].ids|
  }

  /** A client that walks the pages while others create and cancel orders sees every order that was
      there when it began, if only its last call counts and lists the same orders. */
  lemma GrowingWalkMissesNothing(walk: seq<Visit>, user: string, k: nat)
    requires 1 <= k <= 100 && TornWalk(walk, user, k) && LastCallIsWhole(walk, user)
    ensures SeesAll(walk, user, k)
  {
    WholeCallEndsTheList(walk, user, k);
    TornWalkSeesAll(walk, user, k);
  }

  lemma RefusedIsBeyond(p: nat, k: nat)
    requires Refused(p, k)
    ensures Pages(p, k) > MAX_INT32
  {
    PagesIsProduct(p, k);
  }

  lemma WholeCallEndsTheList(walk: seq<Visit>, user: string, k: nat)
    requires 1 <= k <= 100 && TornWalk(walk, user, k) && LastCallIsWhole(walk, user)
    ensures |walk[|walk| - 1].ids| <= Pages(|walk|, k)
  {
    var j := |walk| - 1;
    assert VisitOk(walk[j], user) && CallOk(walk, user, k, j);
    if Refused(j + 1, k) {
      RefusedIsBeyond(j + 1, k);
    } else {
      WalkShows(walk, user, k, j);
    }
  }

  /** The smallest walk that fails: it counts one order and lists two, on pages of one. */
  lemma TornCallMissesAnOrder(first: OrderRow, second: OrderRow)
    requires first.createdAt < second.createdAt
    ensures var v := Visit(Tables(map["a" := first], []), Tables(map["a" := first, "b" := second], []), ["b", "a"]);
      TornWalk([v], "", 1) && !SeesAll([v], "", 1)
  {
    var t, u := Tables(map["a" := first], []), Tables(map["a" := first, "b" := second], []);
    var v := Visit(t, u, ["b", "a"]);
    assert "a" != "b" by { assert "a"[0] != "b"[0]; }
    assert Matching(u.orders, "") == {"a", "b"} && Matching(t.orders, "") == {"a"};
    forall id ensures GrowsAt(t, u, id) {}
    assert VisitOk(v, "");
    VisitShows(v, "", 0, 1, 0);
    assert CallOk([v], "", 1, 0);
    TornWalkMissesTheOldest([v], "", 1, "a");
  }
}
