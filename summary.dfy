/**
 * The production summary: the pending orders (staged or not) summed per
 * delivery date and item into a nested dictionary, the dates of that
 * dictionary in ascending order, and per date the catalog items worth a card.
 */
module Summary {
  import opened Types
  import opened Seqs
  import opened Strings

  /** `Record<date, Record<itemName, total>>`. */
  type Totals = map<string, map<string, int>>

  predicate IsPending(o: Order) { o.status == Pending }

  /** `orders.filter(o => o.status === 'pending')`: staged and uploaded alike, completed ones dropped. */
  function PendingOrders(orders: seq<Order>): (r: seq<Order>)
    ensures forall o :: o in r <==> o in orders && o.status == Pending
    ensures forall i :: 0 <= i < |r| ==> r[i].status == Pending
  {
    Filter(IsPending, orders)
  }

  // ---------------------------------------------------------------------------
  // The reference definition of the summary

  /** Whether `o` adds to the total of item `item` on date `date`. */
  predicate Counts(o: Order, date: string, item: string) {
    o.status == Pending && o.date == date && o.itemName == item
  }

  /** The sum of the quantities of the pending orders with this date and item. */
  function Quantity(orders: seq<Order>, date: string, item: string): int
    decreases |orders|
  {
    if orders == [] then 0
    else
      var last := orders[|orders| - 1];
      Quantity(orders[..|orders| - 1], date, item) + if Counts(last, date, item) then last.quantity else 0
  }

  /** The dates with at least one pending order. */
  function DatesOf(orders: seq<Order>): set<string>
    decreases |orders|
  {
    if orders == [] then {}
    else
      var last := orders[|orders| - 1];
      DatesOf(orders[..|orders| - 1]) + if last.status == Pending then {last.date} else {}
  }

  /** The items with at least one pending order on `date`. */
  function ItemsOn(orders: seq<Order>, date: string): set<string>
    decreases |orders|
  {
    if orders == [] then {}
    else
      var last := orders[|orders| - 1];
      ItemsOn(orders[..|orders| - 1], date) + if Counts(last, date, last.itemName) then {last.itemName} else {}
  }

  /** The dictionary the summary must build, key by key. */
  function Summary(orders: seq<Order>): Totals {
    map d | d in DatesOf(orders) :: map i | i in ItemsOn(orders, d) :: Quantity(orders, d, i)
  }

  // ---------------------------------------------------------------------------
  // Facts about the totals

  lemma {:induction false} DatesOfExist(orders: seq<Order>, d: string)
    ensures d in DatesOf(orders) <==> exists o :: o in orders && o.status == Pending && o.date == d
    decreases |orders|
  {
    if orders != [] {
      var prefix := orders[..|orders| - 1];
      assert orders == prefix + [orders[|orders| - 1]];
      DatesOfExist(prefix, d);
    }
  }

  lemma {:induction false} ItemsOnExist(orders: seq<Order>, d: string, i: string)
    ensures i in ItemsOn(orders, d) <==> exists o :: o in orders && Counts(o, d, i)
    decreases |orders|
  {
    if orders != [] {
      var prefix := orders[..|orders| - 1];
      assert orders == prefix + [orders[|orders| - 1]];
      ItemsOnExist(prefix, d, i);
    }
  }

  lemma {:induction false} ItemsOnWithinDates(orders: seq<Order>, d: string, i: string)
    ensures i in ItemsOn(orders, d) ==> d in DatesOf(orders)
    decreases |orders|
  {
    if orders != [] {
      ItemsOnWithinDates(orders[..|orders| - 1], d, i);
    }
  }

  /** An item without a pending order on the date totals zero. */
  lemma {:induction false} QuantityOutside(orders: seq<Order>, d: string, i: string)
    requires i !in ItemsOn(orders, d)
    ensures Quantity(orders, d, i) == 0
    decreases |orders|
  {
    if orders != [] {
      QuantityOutside(orders[..|orders| - 1], d, i);
    }
  }

  /**
   * The summary has a key for a date iff a pending order falls on it, an inner
   * key for an item iff a pending order of that item falls on that date, and
   * that entry is the sum of those orders' quantities.
   */
  lemma SummaryEntries(orders: seq<Order>, d: string, i: string)
    ensures d in Summary(orders) <==> exists o :: o in orders && o.status == Pending && o.date == d
    ensures d in Summary(orders) ==> (i in Summary(orders)[d] <==> exists o :: o in orders && Counts(o, d, i))
    ensures d in Summary(orders) && i in Summary(orders)[d] ==> Summary(orders)[d][i] == Quantity(orders, d, i)
  {
    DatesOfExist(orders, d);
    ItemsOnExist(orders, d, i);
  }

  lemma {:induction false} QuantityAppend(a: seq<Order>, b: seq<Order>, date: string, item: string)
    ensures Quantity(a + b, date, item) == Quantity(a, date, item) + Quantity(b, date, item)
    decreases |b|
  {
    if b == [] {
      assert a + b == a;
    } else {
      var b' := b[..|b| - 1];
      assert (a + b)[..|a + b| - 1] == a + b';
      QuantityAppend(a, b', date, item);
    }
  }

  /** A completed order adds nothing: appending one leaves the summary as it was. */
  lemma {:induction false} CompletedIgnored(orders: seq<Order>, o: Order)
    requires o.status == Completed
    ensures Summary(orders + [o]) == Summary(orders)
  {
    var s := orders + [o];
    assert s[..|s| - 1] == orders;
    assert DatesOf(s) == DatesOf(orders);
    forall d | d in DatesOf(orders) ensures Summary(s)[d] == Summary(orders)[d] {
      assert ItemsOn(s, d) == ItemsOn(orders, d);
    }
  }

  /** The reducer step `acc[date][item] = (acc[date][item] || 0) + quantity`. */
  function AddTo(acc: Totals, o: Order): (r: Totals)
    ensures r.Keys == acc.Keys + {o.date}
    ensures forall d :: d in acc && d != o.date ==> r[d] == acc[d]
  {
    var inner := if o.date in acc then acc[o.date] else map[];
    var prior := if o.itemName in inner then inner[o.itemName] else 0;
    acc[o.date := inner[o.itemName := prior + o.quantity]]
  }

  /** The step on the order's own date: its item's total grows by its quantity, the other items keep theirs. */
  lemma {:induction false} SnocOwnDate(orders: seq<Order>, o: Order)
    requires o.status == Pending
    ensures o.date in Summary(orders + [o])
    ensures Summary(orders + [o])[o.date] == AddTo(Summary(orders), o)[o.date]
  {
    var s := orders + [o];
    var d := o.date;
    assert s[..|s| - 1] == orders;
    var before := Summary(orders);
    var after := Summary(s)[d];
    var stepped := AddTo(before, o)[d];
    assert ItemsOn(s, d) == ItemsOn(orders, d) + {o.itemName};
    var inner := if d in before then before[d] else map[];
    if d !in before {
      forall i ensures i !in ItemsOn(orders, d) {
        ItemsOnWithinDates(orders, d, i);
      }
    }
    assert inner.Keys == ItemsOn(orders, d);
    assert after.Keys == stepped.Keys;
    forall i | i in after ensures after[i] == stepped[i] {
      if i !in ItemsOn(orders, d) {
        QuantityOutside(orders, d, i);
      }
    }
  }

  /** The step on any other date changes nothing there. */
  lemma {:induction false} SnocOtherDate(orders: seq<Order>, o: Order, d: string)
    requires d != o.date && d in DatesOf(orders)
    ensures Summary(orders + [o])[d] == Summary(orders)[d]
  {
    var s := orders + [o];
    assert s[..|s| - 1] == orders;
    assert ItemsOn(s, d) == ItemsOn(orders, d);
  }

  /** One reducer step turns the summary of a prefix into the summary of the next prefix. */
  lemma {:induction false} SummarySnoc(orders: seq<Order>, o: Order)
    requires o.status == Pending
    ensures Summary(orders + [o]) == AddTo(Summary(orders), o)
  {
    var s := orders + [o];
    assert s[..|s| - 1] == orders;
    assert DatesOf(s) == DatesOf(orders) + {o.date};
    SnocOwnDate(orders, o);
    forall d | d in DatesOf(orders) && d != o.date ensures Summary(s)[d] == AddTo(Summary(orders), o)[d] {
      SnocOtherDate(orders, o, d);
    }
  }

  /** Only pending orders count: the summary of the orders is that of their pending part. */
  lemma {:induction false} SummaryOfPending(orders: seq<Order>)
    ensures Summary(PendingOrders(orders)) == Summary(orders)
    decreases |orders|
  {
    if orders != [] {
      var prefix := orders[..|orders| - 1];
      var last := orders[|orders| - 1];
      assert orders == prefix + [last];
      FilterAppend(IsPending, prefix, [last]);
      assert [last][1..] == [];
      SummaryOfPending(prefix);
      if last.status == Pending {
        assert Filter(IsPending, [last]) == [last];
        SummarySnoc(PendingOrders(prefix), last);
        SummarySnoc(prefix, last);
      } else {
        assert Filter(IsPending, [last]) == [];
        assert PendingOrders(prefix) + [] == PendingOrders(prefix);
        CompletedIgnored(prefix, last);
      }
    }
  }

  lemma {:induction false} QuantityRemoveAt(b: seq<Order>, k: nat, date: string, item: string)
    requires k < |b|
    ensures Quantity(b, date, item) == Quantity(b[..k] + b[k + 1..], date, item) + Quantity([b[k]], date, item)
  {
    assert b == b[..k] + ([b[k]] + b[k + 1..]);
    QuantityAppend(b[..k], [b[k]] + b[k + 1..], date, item);
    QuantityAppend([b[k]], b[k + 1..], date, item);
    QuantityAppend(b[..k], b[k + 1..], date, item);
  }

  lemma TakeOut(a: seq<Order>, b: seq<Order>, k: nat)
    requires a != [] && multiset(a) == multiset(b)
    requires k < |b| && b[k] == a[|a| - 1]
    ensures multiset(a[..|a| - 1]) == multiset(b[..k] + b[k + 1..])
  {
    var x := a[|a| - 1];
    assert a == a[..|a| - 1] + [x];
    assert b == b[..k] + [x] + b[k + 1..];
    var left, right := multiset(a[..|a| - 1]), multiset(b[..k] + b[k + 1..]);
    assert left + multiset{x} == right + multiset{x};
    forall y ensures left[y] == right[y] {
      assert (left + multiset{x})[y] == (right + multiset{x})[y];
    }
    assert left == right;
  }

  /** Permuting the orders does not change any total. */
  lemma {:induction false} QuantityPermutation(a: seq<Order>, b: seq<Order>, date: string, item: string)
    requires multiset(a) == multiset(b)
    ensures Quantity(a, date, item) == Quantity(b, date, item)
    decreases |a|
  {
    if a != [] {
      var x := a[|a| - 1];
      var a' := a[..|a| - 1];
      assert x in multiset(b) by { assert x in a; }
      var k :| 0 <= k < |b| && b[k] == x;
      TakeOut(a, b, k);
      QuantityPermutation(a', b[..k] + b[k + 1..], date, item);
      QuantityRemoveAt(b, k, date, item);
      assert a == a' + [x];
      QuantityAppend(a', [x], date, item);
    } else {
      assert b == [];
    }
  }

  /** The summary does not depend on the order in which the orders arrive. */
  lemma {:induction false} SummaryPermutation(a: seq<Order>, b: seq<Order>)
    requires multiset(a) == multiset(b)
    ensures Summary(a) == Summary(b)
  {
    forall o ensures o in a <==> o in b {
      assert o in a <==> o in multiset(a);
      assert o in b <==> o in multiset(b);
    }
    forall d ensures d in DatesOf(a) <==> d in DatesOf(b) {
      DatesOfExist(a, d);
      DatesOfExist(b, d);
    }
    forall d | d in DatesOf(a) ensures Summary(a)[d] == Summary(b)[d] {
      forall i ensures i in ItemsOn(a, d) <==> i in ItemsOn(b, d) {
        ItemsOnExist(a, d, i);
        ItemsOnExist(b, d, i);
      }
      forall i | i in ItemsOn(a, d) ensures Quantity(a, d, i) == Quantity(b, d, i) {
        QuantityPermutation(a, b, d, i);
      }
    }
  }

  // ---------------------------------------------------------------------------
  // Grand total: the summary loses no quantity

  /** The sum of `f` over the values of a dictionary. */
  ghost function SumBy<V>(m: map<string, V>, f: V -> int): int
    decreases |m|
  {
    if m == map[] then 0
    else
      var k :| k in m;
      f(m[k]) + SumBy(m - {k}, f)
  }

  lemma {:induction false} SumByRemove<V>(m: map<string, V>, f: V -> int, k: string)
    requires k in m
    ensures SumBy(m, f) == f(m[k]) + SumBy(m - {k}, f)
    decreases |m|
  {
    var j :| j in m && SumBy(m, f) == f(m[j]) + SumBy(m - {j}, f);
    if j != k {
      assert m - {k} - {j} == m - {j} - {k};
      SumByRemove(m - {j}, f, k);
      SumByRemove(m - {k}, f, j);
    }
  }

  lemma {:induction false} SumByUpdate<V>(m: map<string, V>, f: V -> int, k: string, v: V)
    ensures SumBy(m[k := v], f) == SumBy(m, f) - (if k in m then f(m[k]) else 0) + f(v)
  {
    SumByRemove(m[k := v], f, k);
    if k in m {
      assert m[k := v] - {k} == m - {k};
      SumByRemove(m, f, k);
    } else {
      assert m[k := v] - {k} == m;
    }
  }

  function Id(v: int): int { v }

  /** The sum of the totals of one date. */
  ghost function DayTotal(m: map<string, int>): int {
    SumBy(m, Id)
  }

  /** The sum of every total in the nested dictionary. */
  ghost function GrandTotal(t: Totals): int {
    SumBy(t, DayTotal)
  }

  /** The sum of the quantities of all pending orders. */
  function PendingQuantity(orders: seq<Order>): int
    decreases |orders|
  {
    if orders == [] then 0
    else
      var last := orders[|orders| - 1];
      PendingQuantity(orders[..|orders| - 1]) + if last.status == Pending then last.quantity else 0
  }

  lemma {:induction false} GrandTotalAddTo(acc: Totals, o: Order)
    ensures GrandTotal(AddTo(acc, o)) == GrandTotal(acc) + o.quantity
  {
    var inner := if o.date in acc then acc[o.date] else map[];
    var prior := if o.itemName in inner then inner[o.itemName] else 0;
    SumByUpdate(inner, Id, o.itemName, prior + o.quantity);
    SumByUpdate(acc, DayTotal, o.date, inner[o.itemName := prior + o.quantity]);
    if o.date !in acc {
      assert DayTotal(inner) == 0;
    }
  }

  /** Every pending quantity lands in exactly one total: the totals add up to the pending quantity. */
  lemma {:induction false} GrandTotalIsPendingQuantity(orders: seq<Order>)
    ensures GrandTotal(Summary(orders)) == PendingQuantity(orders)
    decreases |orders|
  {
    if orders == [] {
      assert Summary(orders) == map[];
    } else {
      var prefix := orders[..|orders| - 1];
      var last := orders[|orders| - 1];
      assert orders == prefix + [last];
      GrandTotalIsPendingQuantity(prefix);
      if last.status == Pending {
        SummarySnoc(prefix, last);
        GrandTotalAddTo(Summary(prefix), last);
      } else {
        CompletedIgnored(prefix, last);
      }
    }
  }

  // ---------------------------------------------------------------------------
  // The reduce

  /** `reduce` with the step `AddTo`, from the empty dictionary. */
  function Reduce(orders: seq<Order>): Totals
    decreases |orders|
  {
    if orders == [] then map[] else AddTo(Reduce(orders[..|orders| - 1]), orders[|orders| - 1])
  }

  /** Over pending orders the reduce builds exactly the reference summary. */
  lemma {:induction false} ReduceIsSummary(orders: seq<Order>)
    requires forall i :: 0 <= i < |orders| ==> orders[i].status == Pending
    ensures Reduce(orders) == Summary(orders)
    decreases |orders|
  {
    if orders == [] {
      assert Summary(orders) == map[];
    } else {
      var prefix := orders[..|orders| - 1];
      ReduceIsSummary(prefix);
      assert orders == prefix + [orders[|orders| - 1]];
      SummarySnoc(prefix, orders[|orders| - 1]);
    }
  }

  /** One more order extends the reduce by one step. */
  lemma ReduceSnoc(orders: seq<Order>, k: nat)
    requires k < |orders|
    ensures Reduce(orders[..k + 1]) == AddTo(Reduce(orders[..k]), orders[k])
  {
    assert orders[..k + 1][..k] == orders[..k];
  }

  /** Reducing the pending orders gives the summary of all of them. */
  lemma ReducePending(orders: seq<Order>)
    ensures Reduce(PendingOrders(orders)) == Summary(orders)
  {
    ReduceIsSummary(PendingOrders(orders));
    SummaryOfPending(orders);
  }

  /** The dates of `orders` in the order they first occur, each once. */
  function FirstDates(orders: seq<Order>): seq<string>
    decreases |orders|
  {
    if orders == [] then []
    else
      var seen := FirstDates(orders[..|orders| - 1]);
      var d := orders[|orders| - 1].date;
      if d in seen then seen else seen + [d]
  }

  /** One more order adds its date at the end when it is new. */
  lemma FirstDatesSnoc(orders: seq<Order>, k: nat)
    requires k < |orders|
    ensures FirstDates(orders[..k + 1]) ==
      if orders[k].date in FirstDates(orders[..k]) then FirstDates(orders[..k]) else FirstDates(orders[..k]) + [orders[k].date]
  {
    assert orders[..k + 1][..k] == orders[..k];
  }

  /** The first-occurrence dates are exactly the dates present, each once. */
  lemma {:induction false} FirstDatesMembers(orders: seq<Order>)
    ensures Distinct(FirstDates(orders))
    ensures forall d :: d in FirstDates(orders) <==> exists o :: o in orders && o.date == d
    decreases |orders|
  {
    if orders != [] {
      var prefix := orders[..|orders| - 1];
      var last := orders[|orders| - 1];
      assert orders == prefix + [last];
      FirstDatesMembers(prefix);
      forall d ensures d in FirstDates(orders) <==> exists o :: o in orders && o.date == d {
        if d in FirstDates(prefix) {
          var o :| o in prefix && o.date == d;
          assert o in orders;
        }
        if exists o :: o in orders && o.date == d {
          var o :| o in orders && o.date == d;
          if o != last {
            assert o in prefix;
          }
        }
      }
    }
  }

  /** A date keeps its place once inserted: an earlier prefix's list is a prefix of the whole one. */
  lemma {:induction false} FirstDatesPrefix(orders: seq<Order>, k: nat)
    requires k <= |orders|
    ensures |FirstDates(orders[..k])| <= |FirstDates(orders)|
    ensures FirstDates(orders[..k]) == FirstDates(orders)[..|FirstDates(orders[..k])|]
    decreases |orders|
  {
    if k == |orders| {
      assert orders[..k] == orders;
    } else {
      var prefix := orders[..|orders| - 1];
      assert orders[..k] == prefix[..k];
      FirstDatesPrefix(prefix, k);
    }
  }

  /** `keys` lists each key of `summary` once, and nothing else. */
  ghost predicate KeyList(keys: seq<string>, summary: Totals) {
    Distinct(keys) && forall d :: d in keys <==> d in summary
  }

  /** A date joins the key list exactly when the reducer step creates its entry. */
  lemma KeysStep(summary: Totals, keys: seq<string>, o: Order)
    requires KeyList(keys, summary)
    ensures KeyList(if o.date in summary then keys else keys + [o.date], AddTo(summary, o))
  {
  }

  /**
   * `pendingOrders.reduce(...)`: the dictionary, built one order at a time, and
   * its keys in insertion order, which is the order `Object.keys` reports:
   * the dates of the pending orders in the order they first occur.
   */
  method DateSummaryMap(orders: seq<Order>) returns (summary: Totals, keys: seq<string>)
    ensures summary == Summary(orders)
    ensures keys == FirstDates(PendingOrders(orders))
    ensures Distinct(keys)
    ensures forall d :: d in keys <==> d in summary
  {
    var pending := PendingOrders(orders);
    summary := map[];
    keys := [];
    var k := 0;
    while k < |pending|
      invariant 0 <= k <= |pending|
      invariant summary == Reduce(pending[..k])
      invariant KeyList(keys, summary)
      invariant keys == FirstDates(pending[..k])
    {
      var o := pending[k];
      ReduceSnoc(pending, k);
      FirstDatesSnoc(pending, k);
      KeysStep(summary, keys, o);
      if o.date !in summary {
        keys := keys + [o.date];
      }
      summary := AddTo(summary, o);
      k := k + 1;
    }
    assert pending[..k] == pending;
    ReducePending(orders);
  }

  /**
   * `Object.keys(dateSummaryMap).sort(...)` by date; for `YYYY-MM-DD` keys the
   * chronological order is the code-point order.
   */
  function SortedDates(keys: seq<string>): (r: seq<string>)
    ensures multiset(r) == multiset(keys)
  {
    SortBy(LexLe, keys)
  }

  /** The sorted dates list each key once, in strictly ascending order. */
  lemma SortedDatesAscending(keys: seq<string>)
    requires Distinct(keys)
    ensures var r := SortedDates(keys);
      && Distinct(r)
      && (forall d :: d in r <==> d in keys)
      && (forall i, j :: 0 <= i < j < |r| ==> LexLt(r[i], r[j]))
  {
    var r := SortedDates(keys);
    LexLeIsTotalOrder();
    SortByIsSorted(LexLe, keys);
    DistinctPermutation(keys, r);
    forall d ensures d in r <==> d in keys {
      assert d in r <==> d in multiset(r);
      assert d in keys <==> d in multiset(keys);
    }
  }

  /**
   * `products.filter(p => dateSummaryMap[dateKey][p.itemName])`: the catalog
   * items, in catalog order, whose total on the date exists and is not zero.
   */
  function ShownProducts(products: seq<Product>, totals: map<string, int>): (r: seq<Product>)
    ensures forall p :: p in r <==> p in products && p.itemName in totals && totals[p.itemName] != 0
    ensures |r| <= |products|
  {
    Filter((p: Product) => p.itemName in totals && totals[p.itemName] != 0, products)
  }

  /** Catalog order survives the selection. */
  lemma ShownProductsKeepsOrder(a: seq<Product>, b: seq<Product>, totals: map<string, int>)
    ensures ShownProducts(a + b, totals) == ShownProducts(a, totals) + ShownProducts(b, totals)
  {
    FilterAppend((p: Product) => p.itemName in totals && totals[p.itemName] != 0, a, b);
  }

  /** An item ordered on a date but missing from the catalog gets no card. */
  lemma UncataloguedHidden(products: seq<Product>, totals: map<string, int>, item: string)
    requires forall p :: p in products ==> p.itemName != item
    ensures forall p :: p in ShownProducts(products, totals) ==> p.itemName != item
  {
  }

  // ---------------------------------------------------------------------------
  // Worked example

  const Noodle5 := Order(1, May1, "08:00", "A", "noodle", 5, Pending, false)
  const Noodle3 := Order(2, May1, "08:00", "B", "noodle", 3, Pending, true)
  const Noodle2Done := Order(3, May1, "08:00", "A", "noodle", 2, Completed, false)
  const Bun4 := Order(4, May2, "09:00", "A", "bun", 4, Pending, false)

  const May1 := "2024-05-01"
  const May2 := "2024-05-02"

  lemma {:induction false} WorkedExampleFirstTwo()
    ensures Summary([Noodle5, Noodle3]) == map[May1 := map["noodle" := 8]]
  {
    SummarySnoc([], Noodle5);
    assert [] + [Noodle5] == [Noodle5];
    assert Summary([]) == map[];
    assert Summary([Noodle5]) == map[May1 := map["noodle" := 5]];
    SummarySnoc([Noodle5], Noodle3);
    assert [Noodle5] + [Noodle3] == [Noodle5, Noodle3];
    var one := map[May1 := map["noodle" := 5]];
    assert one[May1]["noodle"] == 5;
    assert AddTo(one, Noodle3) == one[May1 := one[May1]["noodle" := 5 + 3]];
    assert one[May1]["noodle" := 8] == map["noodle" := 8];
    assert one[May1 := map["noodle" := 8]] == map[May1 := map["noodle" := 8]];
  }

  lemma {:induction false} WorkedExampleFirstThree()
    ensures Summary([Noodle5, Noodle3, Noodle2Done]) == map[May1 := map["noodle" := 8]]
  {
    WorkedExampleFirstTwo();
    CompletedIgnored([Noodle5, Noodle3], Noodle2Done);
    assert [Noodle5, Noodle3] + [Noodle2Done] == [Noodle5, Noodle3, Noodle2Done];
  }

  /** Two pending noodle orders add up, the completed one is ignored, and the bun has its own date. */
  lemma {:induction false} WorkedExample()
    ensures Summary([Noodle5, Noodle3, Noodle2Done, Bun4]) == map[May1 := map["noodle" := 8], May2 := map["bun" := 4]]
  {
    assert May1 != May2 by { assert May1[9] != May2[9]; }
    WorkedExampleFirstThree();
    SummarySnoc([Noodle5, Noodle3, Noodle2Done], Bun4);
    assert [Noodle5, Noodle3, Noodle2Done] + [Bun4] == [Noodle5, Noodle3, Noodle2Done, Bun4];
  }
}
