/** BuildDashboard: the figures of a window from order and payment facts. */
module Reporting {
  import opened Width
  import opened Text
  import opened Sorting
  import opened Sums

  datatype OrderFact = OrderFact(occurredAt: int, orderId: nat, productId: string, quantity: nat, gmv: int64, status: string)

  datatype PaymentFact = PaymentFact(occurredAt: int, amount: int64, status: string)

  datatype ProductMetric = ProductMetric(productId: string, quantity: nat, gmv: int64)

  /** The averages are quotients of these figures.  Counters are far below their width; amounts wrap. */
  datatype Dashboard = Dashboard(gmv: int64, revenue: int64, orderCount: nat, attempts: nat, successes: nat, top: seq<ProductMetric>)

  datatype Window = Window(from: int, until: int) {
    predicate Has(t: int) {
      from <= t < until
    }
  }

  // ---------------------------------------------------------- what is counted

  predicate Paid(o: OrderFact, w: Window) {
    w.Has(o.occurredAt) && o.status == "paid"
  }

  predicate Settled(p: PaymentFact) {
    p.status == "success" || p.status == "settled"
  }

  function Gmv(w: Window): OrderFact -> int {
    (o: OrderFact) => if Paid(o, w) then o.gmv else 0
  }

  function GmvOf(w: Window, product: string): OrderFact -> int {
    (o: OrderFact) => if Paid(o, w) && o.productId == product then o.gmv else 0
  }

  function QuantityOf(w: Window, product: string): OrderFact -> int {
    (o: OrderFact) => if Paid(o, w) && o.productId == product then o.quantity else 0
  }

  function Attempt(w: Window): PaymentFact -> int {
    (p: PaymentFact) => if w.Has(p.occurredAt) then 1 else 0
  }

  function Success(w: Window): PaymentFact -> int {
    (p: PaymentFact) => if w.Has(p.occurredAt) && Settled(p) then 1 else 0
  }

  function Revenue(w: Window): PaymentFact -> int {
    (p: PaymentFact) => if w.Has(p.occurredAt) && Settled(p) then p.amount else 0
  }

  /** What one order fact adds: nothing unless it is paid and in the window, its first instant included and its end not. */
  lemma OrderAdds(w: Window, o: OrderFact, product: string)
    ensures var counts := w.from <= o.occurredAt && o.occurredAt < w.until && o.status == "paid";
      && Gmv(w)(o) == (if counts then o.gmv else 0)
      && GmvOf(w, product)(o) == (if counts && o.productId == product then o.gmv else 0)
      && QuantityOf(w, product)(o) == (if counts && o.productId == product then o.quantity else 0)
      && OrderIds([o], w) == (if counts then {o.orderId} else {}) && ProductIds([o], w) == (if counts then {o.productId} else {})
  {
    assert o in [o];
  }

  /** And one payment fact: an attempt if it is in the window, and a success with its amount if its status is one of
      these two. */
  lemma PaymentAdds(w: Window, p: PaymentFact)
    ensures var counts := w.from <= p.occurredAt && p.occurredAt < w.until;
      var succeeds := counts && (p.status == "success" || p.status == "settled");
      && Attempt(w)(p) == (if counts then 1 else 0) && Success(w)(p) == (if succeeds then 1 else 0)
      && Revenue(w)(p) == (if succeeds then p.amount else 0)
  {
  }

  /** The ids of the paid orders of the window. */
  function OrderIds(orders: seq<OrderFact>, w: Window): set<nat> {
    set o | o in orders && Paid(o, w) :: o.orderId
  }

  function ProductIds(orders: seq<OrderFact>, w: Window): set<string> {
    set o | o in orders && Paid(o, w) :: o.productId
  }

  /** A product's row, from the exact sums of its facts. */
  ghost predicate RowOf(m: ProductMetric, orders: seq<OrderFact>, w: Window) {
    && m.quantity == Total(orders, QuantityOf(w, m.productId))
    && m.gmv == Wrap64(Total(orders, GmvOf(w, m.productId)))
  }

  /** Larger GMV first, then the smaller id. */
  predicate Above(a: ProductMetric, b: ProductMetric) {
    a.gmv > b.gmv || (a.gmv == b.gmv && Less(a.productId, b.productId))
  }

  lemma AboveStrict()
    ensures StrictWeak(Above)
  {
    forall x: ProductMetric, y: ProductMetric ensures !(Above(x, y) && Above(y, x)) {
      LessTotal(x.productId, y.productId);
    }
    forall x: ProductMetric, y: ProductMetric, z: ProductMetric | !Above(y, x) && !Above(z, y) ensures !Above(z, x) {
      if x.gmv == z.gmv {
        LessTransitive(x.productId, y.productId, z.productId);
      }
    }
  }

  ghost predicate DistinctProducts(rows: seq<ProductMetric>) {
    forall i, j | 0 <= i < j < |rows| :: rows[i].productId != rows[j].productId
  }

  /** One row for each product, before sorting. */
  ghost predicate Rows(rows: seq<ProductMetric>, orders: seq<OrderFact>, w: Window) {
    && DistinctProducts(rows)
    && (forall m | m in rows :: m.productId in ProductIds(orders, w) && RowOf(m, orders, w))
    && (forall p | p in ProductIds(orders, w) :: exists m :: m in rows && m.productId == p)
  }

  /** The figures as the facts determine them; `ranking` lists all products, best first. */
  ghost predicate Correct(r: Dashboard, ranking: seq<ProductMetric>, w: Window, orders: seq<OrderFact>, payments: seq<PaymentFact>, limit: int) {
    && r.gmv == Wrap64(Total(orders, Gmv(w)))
    && r.orderCount == |OrderIds(orders, w)|
    && r.attempts == Total(payments, Attempt(w))
    && r.successes == Total(payments, Success(w))
    && r.revenue == Wrap64(Total(payments, Revenue(w)))
    && Rows(ranking, orders, w) && Sorted(ranking, Above)
    && r.top == if 0 < limit < |ranking| then ranking[..limit] else ranking
  }

  // ----------------------------------------------------------- the three loops

  /** The product table after some of the facts. */
  ghost predicate Table(products: map<string, ProductMetric>, orders: seq<OrderFact>, w: Window) {
    && products.Keys == ProductIds(orders, w)
    && forall p | p in products :: products[p].productId == p && RowOf(products[p], orders, w)
  }

  lemma NothingYet(orders: seq<OrderFact>, w: Window, product: string)
    requires product !in ProductIds(orders, w)
    ensures Total(orders, QuantityOf(w, product)) == 0 && Total(orders, GmvOf(w, product)) == 0
  {
    if orders != [] {
      var n := |orders| - 1;
      assert orders[n] in orders;
      NothingYet(orders[..n], w, product);
    }
  }

  lemma InAppend<T>(s: seq<T>, x: T)
    ensures forall y :: y in s + [x] <==> y in s || y == x
  {
    assert (s + [x])[|s|] == x;
    forall y | y in s ensures y in s + [x] {
      var k :| 0 <= k < |s| && s[k] == y;
      assert (s + [x])[k] == y;
    }
  }

  lemma IdsGrow(orders: seq<OrderFact>, o: OrderFact, w: Window)
    requires Paid(o, w)
    ensures OrderIds(orders + [o], w) == OrderIds(orders, w) + {o.orderId}
    ensures ProductIds(orders + [o], w) == ProductIds(orders, w) + {o.productId}
  {
    InAppend(orders, o);
  }

  lemma IdsKept(orders: seq<OrderFact>, o: OrderFact, w: Window)
    requires !Paid(o, w)
    ensures OrderIds(orders + [o], w) == OrderIds(orders, w)
    ensures ProductIds(orders + [o], w) == ProductIds(orders, w)
  {
    InAppend(orders, o);
  }

  /** A fact that does not concern a product leaves its row. */
  lemma RowKept(m: ProductMetric, orders: seq<OrderFact>, o: OrderFact, w: Window)
    requires RowOf(m, orders, w) && (!Paid(o, w) || o.productId != m.productId)
    ensures RowOf(m, orders + [o], w)
  {
    TotalAppend(orders, o, QuantityOf(w, m.productId));
    TotalAppend(orders, o, GmvOf(w, m.productId));
  }

  lemma RowGrows(m: ProductMetric, orders: seq<OrderFact>, o: OrderFact, w: Window)
    requires RowOf(m, orders, w) && Paid(o, w) && o.productId == m.productId
    ensures RowOf(m.(quantity := m.quantity + o.quantity, gmv := Wrap64(m.gmv + o.gmv)), orders + [o], w)
  {
    TotalAppend(orders, o, QuantityOf(w, m.productId));
    TotalAppend(orders, o, GmvOf(w, m.productId));
    WrapAdd(Total(orders, GmvOf(w, m.productId)), o.gmv);
  }

  /** The table with the product's new row. */
  lemma TableGrows(products: map<string, ProductMetric>, orders: seq<OrderFact>, o: OrderFact, w: Window, row: ProductMetric)
    requires Table(products, orders, w) && Paid(o, w) && row.productId == o.productId && RowOf(row, orders + [o], w)
    ensures Table(products[o.productId := row], orders + [o], w)
  {
    IdsGrow(orders, o, w);
    forall p | p in products && p != o.productId ensures RowOf(products[p], orders + [o], w) {
      RowKept(products[p], orders, o, w);
    }
  }

  /** One order fact enters the table. */
  method CountProduct(products: map<string, ProductMetric>, ghost orders: seq<OrderFact>, o: OrderFact, w: Window)
    returns (updated: map<string, ProductMetric>)
    requires Table(products, orders, w) && Paid(o, w)
    ensures Table(updated, orders + [o], w)
  {
    var metric := if o.productId in products then products[o.productId] else ProductMetric(o.productId, 0, 0);
    if o.productId !in products {
      NothingYet(orders, w, o.productId);
    }
    RowGrows(metric, orders, o, w);
    metric := metric.(quantity := metric.quantity + o.quantity, gmv := Wrap64(metric.gmv + o.gmv));
    TableGrows(products, orders, o, w, metric);
    updated := products[o.productId := metric];
  }

  lemma TableKept(products: map<string, ProductMetric>, orders: seq<OrderFact>, o: OrderFact, w: Window)
    requires Table(products, orders, w) && !Paid(o, w)
    ensures Table(products, orders + [o], w)
  {
    IdsKept(orders, o, w);
    forall p | p in products ensures RowOf(products[p], orders + [o], w) {
      RowKept(products[p], orders, o, w);
    }
  }

  /** What the order loop has counted so far. */
  datatype Counts = Counts(gmv: int64, orderCount: nat, seenOrders: set<nat>, products: map<string, ProductMetric>)

  ghost predicate Counted(c: Counts, orders: seq<OrderFact>, w: Window) {
    && c.gmv == Wrap64(Total(orders, Gmv(w)))
    && c.seenOrders == OrderIds(orders, w) && c.orderCount == |c.seenOrders|
    && Table(c.products, orders, w)
  }

  lemma CountsKept(c: Counts, orders: seq<OrderFact>, order: OrderFact, w: Window)
    requires Counted(c, orders, w) && !Paid(order, w)
    ensures Counted(c, orders + [order], w)
  {
    TotalAppend(orders, order, Gmv(w));
    IdsKept(orders, order, w);
    TableKept(c.products, orders, order, w);
  }

  lemma CountsGrow(c: Counts, orders: seq<OrderFact>, order: OrderFact, w: Window, seenOrders: set<nat>, orderCount: nat)
    requires Counted(c, orders, w) && Paid(order, w)
    requires seenOrders == c.seenOrders + {order.orderId}
    requires orderCount == if order.orderId in c.seenOrders then c.orderCount else c.orderCount + 1
    ensures Wrap64(c.gmv + order.gmv) == Wrap64(Total(orders + [order], Gmv(w)))
    ensures seenOrders == OrderIds(orders + [order], w) && orderCount == |seenOrders|
  {
    TotalAppend(orders, order, Gmv(w));
    WrapAdd(Total(orders, Gmv(w)), order.gmv);
    IdsGrow(orders, order, w);
    if order.orderId in c.seenOrders {
      assert seenOrders == c.seenOrders;
    }
  }

  method CountOrder(c: Counts, ghost orders: seq<OrderFact>, order: OrderFact, w: Window) returns (updated: Counts)
    requires Counted(c, orders, w)
    ensures Counted(updated, orders + [order], w)
  {
    if order.occurredAt < w.from || !(order.occurredAt < w.until) || order.status != "paid" {
      CountsKept(c, orders, order, w);
      return c;
    }
    var seenOrders, orderCount := c.seenOrders, c.orderCount;
    if order.orderId !in seenOrders {
      seenOrders := seenOrders + {order.orderId};
      orderCount := orderCount + 1;
    }
    var products := CountProduct(c.products, orders, order, w);
    CountsGrow(c, orders, order, w, seenOrders, orderCount);
    updated := Counts(Wrap64(c.gmv + order.gmv), orderCount, seenOrders, products);
  }

  method CountOrders(w: Window, orders: seq<OrderFact>) returns (c: Counts)
    ensures Counted(c, orders, w)
  {
    c := Counts(0, 0, {}, map[]);
    for i := 0 to |orders|
      invariant Counted(c, orders[..i], w)
    {
      assert orders[..i + 1] == orders[..i] + [orders[i]];
      c := CountOrder(c, orders[..i], orders[i], w);
    }
    assert orders[..|orders|] == orders;
  }

  method CountPayments(w: Window, payments: seq<PaymentFact>) returns (revenue: int64, attempts: nat, successes: nat)
    ensures attempts == Total(payments, Attempt(w)) && successes == Total(payments, Success(w))
    ensures revenue == Wrap64(Total(payments, Revenue(w)))
    ensures successes <= attempts
  {
    revenue, attempts, successes := 0, 0, 0;
    for i := 0 to |payments|
      invariant attempts == Total(payments[..i], Attempt(w)) && successes == Total(payments[..i], Success(w))
      invariant revenue == Wrap64(Total(payments[..i], Revenue(w)))
      invariant successes <= attempts
    {
      var payment := payments[i];
      assert payments[..i + 1] == payments[..i] + [payment];
      TotalAppend(payments[..i], payment, Attempt(w));
      TotalAppend(payments[..i], payment, Success(w));
      TotalAppend(payments[..i], payment, Revenue(w));
      if payment.occurredAt < w.from || !(payment.occurredAt < w.until) {
        continue;
      }
      attempts := attempts + 1;
      if payment.status == "success" || payment.status == "settled" {
        WrapAdd(Total(payments[..i], Revenue(w)), payment.amount);
        successes := successes + 1;
        revenue := Wrap64(revenue + payment.amount);
      }
    }
    assert payments[..|payments|] == payments;
  }

  /** The rows of every product that is not left. */
  ghost predicate Collected(rows: seq<ProductMetric>, products: map<string, ProductMetric>, left: set<string>) {
    && DistinctProducts(rows)
    && (forall m | m in rows :: m.productId in products && m.productId !in left && m == products[m.productId])
    && (forall p | p in products && p !in left :: products[p] in rows)
  }

  lemma CollectOne(rows: seq<ProductMetric>, products: map<string, ProductMetric>, left: set<string>, p: string)
    requires Collected(rows, products, left) && p in left && p in products && products[p].productId == p
    ensures Collected(rows + [products[p]], products, left - {p})
  {
    var longer := rows + [products[p]];
    assert forall i | 0 <= i < |rows| :: longer[i] == rows[i] && rows[i] in rows;
    assert longer[|rows|] == products[p];
    forall m | m in longer ensures m in rows || m == products[p] {}
    forall q | q in products && q !in left - {p} ensures products[q] in longer {
      if q != p { assert products[q] in rows; }
    }
  }

  lemma CollectedRows(rows: seq<ProductMetric>, products: map<string, ProductMetric>, orders: seq<OrderFact>, w: Window)
    requires Table(products, orders, w) && Collected(rows, products, {})
    ensures Rows(rows, orders, w)
  {
    forall p | p in ProductIds(orders, w) ensures exists m :: m in rows && m.productId == p {
      assert p in products && products[p] in rows;
    }
  }

  /** The rows of the table, in whatever order the map is traversed. */
  method CollectRows(products: map<string, ProductMetric>, ghost orders: seq<OrderFact>, ghost w: Window)
    returns (rows: seq<ProductMetric>)
    requires Table(products, orders, w)
    ensures Rows(rows, orders, w)
  {
    rows := [];
    var left := products.Keys;
    while left != {}
      invariant left <= products.Keys && Collected(rows, products, left)
      decreases |left|
    {
      var p: string :| p in left;
      CollectOne(rows, products, left, p);
      left, rows := left - {p}, rows + [products[p]];
    }
    CollectedRows(rows, products, orders, w);
  }

  lemma RowsRearranged(rows: seq<ProductMetric>, sorted: seq<ProductMetric>, orders: seq<OrderFact>, w: Window)
    requires Rows(rows, orders, w) && multiset(rows) == multiset(sorted)
    ensures Rows(sorted, orders, w)
  {
    assert DistinctBy(rows, (m: ProductMetric) => m.productId);
    DistinctRearranged(sorted, rows, (m: ProductMetric) => m.productId);
    assert DistinctProducts(sorted);
    forall m ensures m in sorted <==> m in rows {
      assert m in sorted <==> m in multiset(sorted);
      assert m in rows <==> m in multiset(rows);
    }
  }

  /** `ranking` is what the list was before it was cut to the limit. */
  method BuildDashboard(w: Window, orders: seq<OrderFact>, payments: seq<PaymentFact>, limit: int)
    returns (r: Dashboard, ghost ranking: seq<ProductMetric>)
    ensures Correct(r, ranking, w, orders, payments, limit)
    ensures r.successes <= r.attempts
  {
    var c := CountOrders(w, orders);
    var revenue, attempts, successes := CountPayments(w, payments);
    var rows := CollectRows(c.products, orders, w);
    AboveStrict();
    var sorted := Sort(rows, Above);
    RowsRearranged(rows, sorted, orders, w);
    ranking := sorted;
    var top := sorted;
    if limit > 0 && |sorted| > limit {
      top := sorted[..limit];
    }
    r := Dashboard(c.gmv, revenue, c.orderCount, attempts, successes, top);
  }

  // ---------------------------------------------------------------- theorems

  /** With a limit the kept products dominate every dropped one, strictly. */
  lemma KeptDominate(r: Dashboard, ranking: seq<ProductMetric>, w: Window, orders: seq<OrderFact>, payments: seq<PaymentFact>,
                     limit: int, i: nat, j: nat)
    requires Correct(r, ranking, w, orders, payments, limit)
    requires i < |r.top| && |r.top| <= j < |ranking|
    ensures var kept, dropped := r.top[i], ranking[j];
      && kept == ranking[i]
      && (kept.gmv > dropped.gmv || (kept.gmv == dropped.gmv && Less(kept.productId, dropped.productId)))
  {
    LessTotal(ranking[i].productId, ranking[j].productId);
    assert !Above(ranking[j], ranking[i]);
  }

  lemma RankingTies(ranking: seq<ProductMetric>)
    requires DistinctProducts(ranking)
    ensures NoTies(ranking, Above)
  {
    forall i, j | 0 <= i < j < |ranking| ensures Above(ranking[i], ranking[j]) || Above(ranking[j], ranking[i]) {
      LessTotal(ranking[i].productId, ranking[j].productId);
    }
  }

  lemma SameRow(m: ProductMetric, orders: seq<OrderFact>, orders': seq<OrderFact>, w: Window)
    requires multiset(orders) == multiset(orders')
    ensures RowOf(m, orders, w) <==> RowOf(m, orders', w)
  {
    TotalUnordered(orders, orders', QuantityOf(w, m.productId));
    TotalUnordered(orders, orders', GmvOf(w, m.productId));
  }

  lemma SameIds(orders: seq<OrderFact>, orders': seq<OrderFact>, w: Window)
    requires multiset(orders) == multiset(orders')
    ensures OrderIds(orders, w) == OrderIds(orders', w) && ProductIds(orders, w) == ProductIds(orders', w)
  {
    forall o ensures o in orders <==> o in orders' {
      assert o in orders <==> o in multiset(orders);
      assert o in orders' <==> o in multiset(orders');
    }
  }

  /** Two complete lists of rows for the same facts hold the same rows. */
  lemma SameRows(rows: seq<ProductMetric>, rows': seq<ProductMetric>, orders: seq<OrderFact>, orders': seq<OrderFact>, w: Window)
    requires Rows(rows, orders, w) && Rows(rows', orders', w) && multiset(orders) == multiset(orders')
    ensures multiset(rows) == multiset(rows')
  {
    SameIds(orders, orders', w);
    forall m ensures m in rows <==> m in rows' {
      if m in rows {
        var n :| n in rows' && n.productId == m.productId;
        SameRow(m, orders, orders', w);
      }
      if m in rows' {
        var n :| n in rows && n.productId == m.productId;
        SameRow(n, orders, orders', w);
      }
    }
    var key := (m: ProductMetric) => m.productId;
    assert DistinctBy(rows, key) && DistinctBy(rows', key);
    forall m ensures multiset(rows)[m] == multiset(rows')[m] {
      CountOne(rows, key, m);
      CountOne(rows', key, m);
    }
  }

  /** The dashboard is determined by the facts, whatever order they come in and whatever order the product
      table is traversed in. */
  lemma DashboardDetermined(r: Dashboard, ranking: seq<ProductMetric>, orders: seq<OrderFact>, payments: seq<PaymentFact>,
                            r': Dashboard, ranking': seq<ProductMetric>, orders': seq<OrderFact>, payments': seq<PaymentFact>,
                            w: Window, limit: int)
    requires Correct(r, ranking, w, orders, payments, limit) && Correct(r', ranking', w, orders', payments', limit)
    requires multiset(orders) == multiset(orders') && multiset(payments) == multiset(payments')
    ensures r == r' && ranking == ranking'
  {
    TotalUnordered(orders, orders', Gmv(w));
    SameIds(orders, orders', w);
    TotalUnordered(payments, payments', Attempt(w));
    TotalUnordered(payments, payments', Success(w));
    TotalUnordered(payments, payments', Revenue(w));
    SameRows(ranking, ranking', orders, orders', w);
    AboveStrict();
    RankingTies(ranking');
    SortedUnique(ranking, ranking', Above);
  }

  // ------------------------------------------------------------ conservation

  /** The exact GMV of the listed products together. */
  function GmvOfAll(rows: seq<ProductMetric>, orders: seq<OrderFact>, w: Window): int {
    Total(rows, (m: ProductMetric) => Total(orders, GmvOf(w, m.productId)))
  }

  lemma {:induction false} GmvOfAllAppend(rows: seq<ProductMetric>, orders: seq<OrderFact>, o: OrderFact, w: Window)
    requires DistinctProducts(rows)
    ensures GmvOfAll(rows, orders + [o], w)
         == GmvOfAll(rows, orders, w)
            + (if Paid(o, w) && exists m :: m in rows && m.productId == o.productId then o.gmv else 0)
  {
    if rows != [] {
      var n := |rows| - 1;
      GmvOfAllAppend(rows[..n], orders, o, w);
      TotalAppend(orders, o, GmvOf(w, rows[n].productId));
      TotalPrefix(rows, orders + [o], w);
      TotalPrefix(rows, orders, w);
      assert rows == rows[..n] + [rows[n]];
      if m :| m in rows[..n] && m.productId == o.productId {
        assert m in rows;
        var k :| 0 <= k < n && rows[k] == m;
      }
      assert rows[n] in rows;
    }
  }

  lemma TotalPrefix(rows: seq<ProductMetric>, orders: seq<OrderFact>, w: Window)
    requires rows != []
    ensures var n := |rows| - 1;
      GmvOfAll(rows, orders, w) == GmvOfAll(rows[..n], orders, w) + Total(orders, GmvOf(w, rows[n].productId))
  {
  }

  /** The products' exact GMVs add up to the GMV of all paid orders. */
  lemma {:induction false} GmvSplits(rows: seq<ProductMetric>, orders: seq<OrderFact>, w: Window)
    requires DistinctProducts(rows)
    requires forall o | o in orders && Paid(o, w) :: exists m :: m in rows && m.productId == o.productId
    ensures GmvOfAll(rows, orders, w) == Total(orders, Gmv(w))
  {
    if orders == [] {
      NoOrders(rows, w);
    } else {
      var n := |orders| - 1;
      GmvSplits(rows, orders[..n], w);
      GmvOfAllAppend(rows, orders[..n], orders[n], w);
      assert orders == orders[..n] + [orders[n]];
      assert orders[n] in orders;
    }
  }

  lemma {:induction false} NoOrders(rows: seq<ProductMetric>, w: Window)
    ensures GmvOfAll(rows, [], w) == 0
  {
    if rows != [] {
      NoOrders(rows[..|rows| - 1], w);
      TotalPrefix(rows, [], w);
    }
  }

  lemma {:induction false} WrappedRows(rows: seq<ProductMetric>, orders: seq<OrderFact>, w: Window)
    requires forall m | m in rows :: RowOf(m, orders, w)
    ensures Wrap64(Total(rows, (m: ProductMetric) => m.gmv)) == Wrap64(GmvOfAll(rows, orders, w))
  {
    if rows != [] {
      var n := |rows| - 1;
      WrappedRows(rows[..n], orders, w);
      assert rows[n] in rows;
      TotalPrefix(rows, orders, w);
      var a, b := Total(rows[..n], (m: ProductMetric) => m.gmv), GmvOfAll(rows[..n], orders, w);
      var x := Total(orders, GmvOf(w, rows[n].productId));
      WrapAdd(a, rows[n].gmv);
      WrapAdd(b, rows[n].gmv);
      WrapAdd(x, b);
    }
  }

  /** The GMV of the products, before the list is cut, adds up to the GMV of the window. */
  lemma GmvConserved(r: Dashboard, ranking: seq<ProductMetric>, w: Window, orders: seq<OrderFact>, payments: seq<PaymentFact>, limit: int)
    requires Correct(r, ranking, w, orders, payments, limit)
    ensures Wrap64(Total(ranking, (m: ProductMetric) => m.gmv)) == r.gmv
  {
    forall o | o in orders && Paid(o, w) ensures exists m :: m in ranking && m.productId == o.productId {
      assert o.productId in ProductIds(orders, w);
    }
    GmvSplits(ranking, orders, w);
    WrappedRows(ranking, orders, w);
  }
}
