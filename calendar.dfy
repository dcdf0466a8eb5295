/**
 * The delivery calendar: orders grouped by date, the month grid of blank and
 * day cells keyed `YYYY-MM-DD`, each cell's badge and at most three preview
 * lines, and the day detail sorted by delivery time. The weekday of the first
 * of the month and the number of days are computed with JavaScript `Date`,
 * which is not modelled: they are inputs.
 */
module Calendar {
  import opened Wrappers
  import opened Types
  import opened Seqs
  import opened Strings

  /** The orders of `orders` falling on `date`, in input order. */
  function OnDate(orders: seq<Order>, date: string): (r: seq<Order>)
    ensures forall o :: o in r <==> o in orders && o.date == date
    ensures forall i :: 0 <= i < |r| ==> r[i].date == date
  {
    Filter((o: Order) => o.date == date, orders)
  }

  lemma OnDateSnoc(orders: seq<Order>, o: Order, date: string)
    ensures OnDate(orders + [o], date) == OnDate(orders, date) + if o.date == date then [o] else []
  {
    FilterAppend((o: Order) => o.date == date, orders, [o]);
    assert [o][1..] == [];
  }

  /** The grouping holds exactly the dates of `orders`, each with its orders in input order. */
  ghost predicate GroupsOf(groups: map<string, seq<Order>>, orders: seq<Order>) {
    && (forall d :: d in groups <==> exists o :: o in orders && o.date == d)
    && (forall d :: d in groups ==> groups[d] == OnDate(orders, d))
  }

  /** The group `o` joins: its date's group so far, or a fresh one. */
  function Pushed(groups: map<string, seq<Order>>, o: Order): map<string, seq<Order>> {
    groups[o.date := (if o.date in groups then groups[o.date] else []) + [o]]
  }

  lemma {:induction false} PushedKeys(groups: map<string, seq<Order>>, orders: seq<Order>, o: Order, d: string)
    requires d in groups <==> exists x :: x in orders && x.date == d
    ensures d in Pushed(groups, o) <==> exists x :: x in orders + [o] && x.date == d
  {
    if d in groups {
      var x :| x in orders && x.date == d;
      assert x in orders + [o];
    }
    if exists x :: x in orders + [o] && x.date == d {
      var x :| x in orders + [o] && x.date == d;
      assert x in orders || x == o;
    }
  }

  lemma {:induction false} PushedGroup(groups: map<string, seq<Order>>, orders: seq<Order>, o: Order, d: string)
    requires GroupsOf(groups, orders)
    requires d in Pushed(groups, o)
    ensures Pushed(groups, o)[d] == OnDate(orders + [o], d)
  {
    OnDateSnoc(orders, o, d);
    if d == o.date && o.date !in groups {
      FilterNonePass((x: Order) => x.date == d, orders);
    }
  }

  /** One reducer step: push `o` onto its date's group, creating the group when absent. */
  lemma {:induction false} GroupStep(groups: map<string, seq<Order>>, orders: seq<Order>, o: Order)
    requires GroupsOf(groups, orders)
    ensures GroupsOf(Pushed(groups, o), orders + [o])
  {
    forall d ensures d in Pushed(groups, o) <==> exists x :: x in orders + [o] && x.date == d {
      PushedKeys(groups, orders, o, d);
    }
    forall d | d in Pushed(groups, o) ensures Pushed(groups, o)[d] == OnDate(orders + [o], d) {
      PushedGroup(groups, orders, o, d);
    }
  }

  /**
   * `orders.reduce(...)` into `Record<date, Order[]>`: one group per date that
   * occurs, holding that date's orders of any status in input order.
   */
  method GroupByDate(orders: seq<Order>) returns (groups: map<string, seq<Order>>)
    ensures forall d :: d in groups <==> exists o :: o in orders && o.date == d
    ensures forall d :: d in groups ==> groups[d] == OnDate(orders, d)
  {
    groups := map[];
    var k := 0;
    while k < |orders|
      invariant 0 <= k <= |orders|
      invariant GroupsOf(groups, orders[..k])
    {
      var o := orders[k];
      assert orders[..k + 1] == orders[..k] + [o];
      GroupStep(groups, orders[..k], o);
      groups := Pushed(groups, o);
      k := k + 1;
    }
    assert orders[..k] == orders;
    assert GroupsOf(groups, orders);
  }

  /** `ordersByDate[dateStr] || []`. */
  function DayOrders(groups: map<string, seq<Order>>, date: string): (r: seq<Order>)
    ensures date in groups ==> r == groups[date]
    ensures date !in groups ==> r == []
  {
    if date in groups then groups[date] else []
  }

  /** Each order sits in the group of its own date and in no other. */
  lemma GroupedOnce(orders: seq<Order>, groups: map<string, seq<Order>>, o: Order, d: string)
    requires forall d :: d in groups ==> groups[d] == OnDate(orders, d)
    requires forall d :: d in groups <==> exists o :: o in orders && o.date == d
    requires o in orders
    ensures o in DayOrders(groups, d) <==> d == o.date
  {
  }

  // ---------------------------------------------------------------------------
  // The month grid

  /** `${year}-${String(month + 1).padStart(2, '0')}-${String(d).padStart(2, '0')}`, `month` counted from 0. */
  function DateKey(year: nat, month: nat, day: nat): string {
    NatToString(year) + "-" + PadStart2(NatToString(month + 1)) + "-" + PadStart2(NatToString(day))
  }

  /** For a four-digit year the key is `YYYY-MM-DD`, and its fields read back as the year, month + 1 and day. */
  lemma DateKeyShape(year: nat, month: nat, day: nat)
    requires 1000 <= year < 10000 && month < 12 && 1 <= day <= 31
    ensures var r := DateKey(year, month, day);
      && |r| == 10 && r[4] == '-' && r[7] == '-'
      && AllDigits(r[..4]) && AllDigits(r[5..7]) && AllDigits(r[8..])
      && DigitsValue(r[..4]) == year && DigitsValue(r[5..7]) == month + 1 && DigitsValue(r[8..]) == day
  {
    var y := NatToString(year);
    var m := PadStart2(NatToString(month + 1));
    var dd := PadStart2(NatToString(day));
    NatToStringLength(year);
    NatToStringRoundTrip(year);
    TwoDigits(month + 1);
    TwoDigits(day);
    var r := DateKey(year, month, day);
    assert r == y + "-" + m + "-" + dd;
    assert r[..4] == y;
    assert r[5..7] == m;
    assert r[8..] == dd;
  }

  /** Different days of a month get different keys. */
  lemma DateKeyInjective(year: nat, month: nat, d1: nat, d2: nat)
    requires 1000 <= year < 10000 && month < 12 && 1 <= d1 <= 31 && 1 <= d2 <= 31
    ensures DateKey(year, month, d1) == DateKey(year, month, d2) <==> d1 == d2
  {
    DateKeyShape(year, month, d1);
    DateKeyShape(year, month, d2);
  }

  /** A grid cell: a leading blank, or day `day` with its key and its orders. */
  datatype Cell = Blank | Day(day: nat, date: string, orders: seq<Order>)

  /** The cell the grid holds at position `i`. */
  function CellAt(year: nat, month: nat, firstDayOfMonth: nat, groups: map<string, seq<Order>>, i: nat): Cell {
    if i < firstDayOfMonth then Blank
    else
      var d := i - firstDayOfMonth + 1;
      Day(d, DateKey(year, month, d), DayOrders(groups, DateKey(year, month, d)))
  }

  lemma CellsSnoc(days: seq<Cell>, cell: Cell, year: nat, month: nat, firstDayOfMonth: nat, groups: map<string, seq<Order>>)
    requires forall j :: 0 <= j < |days| ==> days[j] == CellAt(year, month, firstDayOfMonth, groups, j)
    requires cell == CellAt(year, month, firstDayOfMonth, groups, |days|)
    ensures forall j :: 0 <= j < |days| + 1 ==> (days + [cell])[j] == CellAt(year, month, firstDayOfMonth, groups, j)
  {
  }

  /** The two `for` loops: `firstDayOfMonth` blanks, then one cell per day 1..daysInMonth. */
  method BuildDays(year: nat, month: nat, firstDayOfMonth: nat, daysInMonth: nat, groups: map<string, seq<Order>>)
    returns (days: seq<Cell>)
    ensures |days| == firstDayOfMonth + daysInMonth
    ensures forall i :: 0 <= i < |days| ==> days[i] == CellAt(year, month, firstDayOfMonth, groups, i)
  {
    days := [];
    var i := 0;
    while i < firstDayOfMonth
      invariant 0 <= i <= firstDayOfMonth && |days| == i
      invariant forall j :: 0 <= j < i ==> days[j] == Blank
    {
      days := days + [Blank];
      i := i + 1;
    }
    var d := 1;
    while d <= daysInMonth
      invariant 1 <= d <= daysInMonth + 1 && |days| == firstDayOfMonth + d - 1
      invariant forall j :: 0 <= j < |days| ==> days[j] == CellAt(year, month, firstDayOfMonth, groups, j)
    {
      var dateStr := DateKey(year, month, d);
      var cell := Day(d, dateStr, DayOrders(groups, dateStr));
      assert cell == CellAt(year, month, firstDayOfMonth, groups, |days|);
      CellsSnoc(days, cell, year, month, firstDayOfMonth, groups);
      days := days + [cell];
      d := d + 1;
    }
  }

  /** The day cells number the days 1..daysInMonth in order, each with its own `YYYY-MM-DD` key. */
  lemma DayCellsNumbered(year: nat, month: nat, firstDayOfMonth: nat, groups: map<string, seq<Order>>, i: nat, j: nat)
    requires 1000 <= year < 10000 && month < 12
    requires firstDayOfMonth <= i < j < firstDayOfMonth + 31
    ensures CellAt(year, month, firstDayOfMonth, groups, i).Day?
    ensures CellAt(year, month, firstDayOfMonth, groups, i).day == i - firstDayOfMonth + 1
    ensures CellAt(year, month, firstDayOfMonth, groups, i).date != CellAt(year, month, firstDayOfMonth, groups, j).date
  {
    DateKeyInjective(year, month, i - firstDayOfMonth + 1, j - firstDayOfMonth + 1);
  }

  // ---------------------------------------------------------------------------
  // What a day cell shows

  /** `dayOrders.some(o => o.isLocal)`. */
  function AnyLocal(orders: seq<Order>): (r: bool)
    ensures r <==> exists i :: 0 <= i < |orders| && orders[i].isLocal
  {
    if orders == [] then false
    else orders[0].isLocal || (assert forall i :: 0 < i < |orders| ==> orders[i] == orders[1..][i - 1]; AnyLocal(orders[1..]))
  }

  /** The corner badge: the order count, coloured as "pending sync" or "synced". */
  datatype Badge = NoBadge | CountBadge(count: nat, pendingSync: bool)

  function BadgeOf(dayOrders: seq<Order>): (b: Badge)
    ensures b.NoBadge? <==> |dayOrders| == 0
    ensures b.CountBadge? ==> b.count == |dayOrders|
    ensures b.CountBadge? ==> (b.pendingSync <==> exists o :: o in dayOrders && o.isLocal)
  {
    if |dayOrders| > 0 then CountBadge(|dayOrders|, AnyLocal(dayOrders)) else NoBadge
  }

  /** `dayOrders.slice(0, 3)`: the first three orders or all of them. */
  function PreviewLines(dayOrders: seq<Order>): (r: seq<Order>)
    ensures |r| <= 3 && |r| == if |dayOrders| < 3 then |dayOrders| else 3
    ensures r == dayOrders[..|r|]
  {
    dayOrders[..if |dayOrders| < 3 then |dayOrders| else 3]
  }

  /** The "+ n more" line: present exactly when there are more than three orders. */
  function MoreLine(dayOrders: seq<Order>): (r: Option<nat>)
    ensures r.Some? <==> |dayOrders| > 3
    ensures r.Some? ==> r.value > 0
  {
    if |dayOrders| > 3 then Some(|dayOrders| - 3) else None
  }

  /** Every order of the day is either previewed or counted in the "more" line. */
  lemma PreviewAccountsForAll(dayOrders: seq<Order>)
    ensures |PreviewLines(dayOrders)| + (if MoreLine(dayOrders).Some? then MoreLine(dayOrders).value else 0) == |dayOrders|
  {
  }

  /** The day detail dialog. */
  datatype Detail = Detail(date: string, orders: seq<Order>)

  class CalendarState {
    var selected: Option<Detail>

    constructor ()
      ensures selected == None
    {
      selected := None;
    }

    /** A click on a day opens its detail only when the day has orders. */
    method ClickDay(date: string, dayOrders: seq<Order>)
      modifies this
      ensures |dayOrders| > 0 ==> selected == Some(Detail(date, dayOrders))
      ensures |dayOrders| == 0 ==> selected == old(selected)
    {
      if |dayOrders| > 0 {
        selected := Some(Detail(date, dayOrders));
      }
    }

    method Close()
      modifies this
      ensures selected == None
    {
      selected := None;
    }
  }

  /** The detail's comparator `a.deliveryTime.localeCompare(b.deliveryTime)`, as code-point order. */
  predicate TimeLe(a: Order, b: Order) {
    LexLe(a.deliveryTime, b.deliveryTime)
  }

  lemma TimeLeIsTotalPreorder()
    ensures Total(TimeLe) && Transitive(TimeLe)
  {
    forall a: Order, b: Order ensures TimeLe(a, b) || TimeLe(b, a) {
      LexLeTotal(a.deliveryTime, b.deliveryTime);
    }
    forall a: Order, b: Order, c: Order | TimeLe(a, b) && TimeLe(b, c) ensures TimeLe(a, c) {
      LexLeTransitive(a.deliveryTime, b.deliveryTime, c.deliveryTime);
    }
  }

  /**
   * `selectedDayOrders.orders.sort(...)`: sorts the day's array in place,
   * ascending by delivery time, keeping the same orders.
   */
  method SortDetail(a: array<Order>)
    modifies a
    ensures a[..] == SortBy(TimeLe, old(a[..]))
    ensures SortedBy(TimeLe, a[..])
    ensures multiset(a[..]) == multiset(old(a[..]))
  {
    var sorted := SortBy(TimeLe, a[..]);
    TimeLeIsTotalPreorder();
    SortByIsSorted(TimeLe, a[..]);
    var i := 0;
    while i < a.Length
      invariant 0 <= i <= a.Length && |sorted| == a.Length
      invariant forall j :: 0 <= j < i ==> a[j] == sorted[j]
    {
      a[i] := sorted[i];
      i := i + 1;
    }
    assert a[..] == sorted;
  }
}
