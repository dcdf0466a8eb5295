/**
 * The order list: a sorted copy of the orders (by date, then delivery time),
 * the date column without the year, the count badge, and a delete control on
 * staged orders only.
 */
module Preview {
  import opened Types
  import opened Seqs
  import opened Strings
  import TimeFormat

  /**
   * The comparator: an earlier date first; on the same date, the earlier
   * delivery time. Dates compare as `Date` values, which for `YYYY-MM-DD`
   * strings is code-point order.
   */
  predicate OrderLe(a: Order, b: Order) {
    if a.date != b.date then LexLe(a.date, b.date) else LexLe(a.deliveryTime, b.deliveryTime)
  }

  lemma OrderLeIsTotalPreorder()
    ensures Total(OrderLe) && Transitive(OrderLe)
  {
    forall a: Order, b: Order ensures OrderLe(a, b) || OrderLe(b, a) {
      LexLeTotal(a.date, b.date);
      LexLeTotal(a.deliveryTime, b.deliveryTime);
    }
    forall a: Order, b: Order, c: Order | OrderLe(a, b) && OrderLe(b, c) ensures OrderLe(a, c) {
      if a.date == b.date && b.date == c.date {
        LexLeTransitive(a.deliveryTime, b.deliveryTime, c.deliveryTime);
      } else if a.date != b.date && b.date != c.date {
        LexLeTransitive(a.date, b.date, c.date);
        if a.date == c.date {
          LexLeAntisymmetric(a.date, b.date);
          assert false;
        }
      }
    }
  }

  /** `[...orders].sort(...)`: a sorted copy; `orders` itself is a value and keeps its order. */
  function SortedOrders(orders: seq<Order>): (r: seq<Order>)
    ensures multiset(r) == multiset(orders) && |r| == |orders|
  {
    SortBy(OrderLe, orders)
  }

  /** The copy is ascending by date, and by delivery time within a date. */
  lemma SortedOrdersOrdered(orders: seq<Order>)
    ensures var r := SortedOrders(orders);
      forall i, j :: 0 <= i < j < |r| ==>
        && LexLe(r[i].date, r[j].date)
        && (r[i].date == r[j].date ==> LexLe(r[i].deliveryTime, r[j].deliveryTime))
  {
    OrderLeIsTotalPreorder();
    SortByIsSorted(OrderLe, orders);
    var r := SortedOrders(orders);
    forall i, j | 0 <= i < j < |r| ensures LexLe(r[i].date, r[j].date) {
      assert OrderLe(r[i], r[j]);
      LexLeTotal(r[i].date, r[i].date);
    }
  }

  // ---------------------------------------------------------------------------
  // `dateStr.split('-').slice(1).join('/')`

  /** `s.split(sep)` for a one-character separator. */
  function Split(s: string, sep: char): (r: seq<string>)
    ensures |r| >= 1
    ensures forall k :: 0 <= k < |r| ==> sep !in r[k]
    decreases |s|
  {
    if s == [] then [""]
    else
      var rest := Split(s[1..], sep);
      if s[0] == sep then [""] + rest else [[s[0]] + rest[0]] + rest[1..]
  }

  /** `parts.join(sep)`. */
  function Join(parts: seq<string>, sep: char): string
    decreases |parts|
  {
    if parts == [] then ""
    else if |parts| == 1 then parts[0]
    else parts[0] + [sep] + Join(parts[1..], sep)
  }

  /** Joining what was split with the same separator gives back the string. */
  lemma {:induction false} JoinSplit(s: string, sep: char)
    ensures Join(Split(s, sep), sep) == s
    decreases |s|
  {
    if s != [] {
      var rest := Split(s[1..], sep);
      JoinSplit(s[1..], sep);
      if s[0] == sep {
        assert Split(s, sep)[1..] == rest;
      } else {
        var r := Split(s, sep);
        if |rest| == 1 {
          assert r == [[s[0]] + rest[0]];
        } else {
          assert r[1..] == rest[1..];
          assert Join(rest, sep) == rest[0] + [sep] + Join(rest[1..], sep);
        }
      }
      assert s == [s[0]] + s[1..];
    }
  }

  /** A field without the separator, then the separator, splits off as the first part. */
  lemma {:induction false} SplitField(a: string, b: string, sep: char)
    requires sep !in a
    ensures Split(a + [sep] + b, sep) == [a] + Split(b, sep)
    decreases |a|
  {
    if a == [] {
      assert a + [sep] + b == [sep] + b;
      assert ([sep] + b)[1..] == b;
    } else {
      assert (a + [sep] + b)[1..] == a[1..] + [sep] + b;
      SplitField(a[1..], b, sep);
      assert a == [a[0]] + a[1..];
    }
  }

  lemma {:induction false} SplitWhole(a: string, sep: char)
    requires sep !in a
    ensures Split(a, sep) == [a]
    decreases |a|
  {
    if a != [] {
      SplitWhole(a[1..], sep);
      assert a == [a[0]] + a[1..];
    }
  }

  /** The date column without the weekday suffix: drop the year field, join the rest with '/'. */
  function DatePart(dateStr: string): (r: string)
    ensures dateStr == "" ==> r == ""
  {
    if dateStr == "" then "" else Join(Split(dateStr, '-')[1..], '/')
  }

  /** For `YYYY-MM-DD` the column shows `MM/DD`. */
  lemma DatePartOfIsoDate(y: string, m: string, d: string)
    requires '-' !in y && '-' !in m && '-' !in d
    ensures DatePart(y + "-" + m + "-" + d) == m + "/" + d
  {
    var s := y + "-" + m + "-" + d;
    assert s == y + ['-'] + (m + ['-'] + d);
    SplitField(y, m + ['-'] + d, '-');
    SplitField(m, d, '-');
    SplitWhole(d, '-');
    assert Split(s, '-') == [y, m, d];
    assert Split(s, '-')[1..] == [m, d];
    assert Join([m, d], '/') == m + ['/'] + Join([d], '/');
  }

  lemma DatePartExample()
    ensures DatePart("2024-05-01") == "05/01"
  {
    assert "2024-05-01" == "2024" + "-" + "05" + "-" + "01";
    DatePartOfIsoDate("2024", "05", "01");
    assert "05" + "/" + "01" == "05/01";
  }

  // ---------------------------------------------------------------------------
  // What the list shows

  /** One line of the list: the order, its time column, and whether it has a delete button. */
  datatype Line = Line(order: Order, time: string, canDelete: bool)

  /** The whole list: its count badge and its lines. */
  datatype Listing = Listing(count: nat, lines: seq<Line>)

  function ListingOf(orders: seq<Order>): (r: Listing)
    ensures r.count == |orders| && |r.lines| == |orders|
    ensures forall k :: 0 <= k < |r.lines| ==> (r.lines[k].canDelete <==> r.lines[k].order.isLocal)
    ensures forall k :: 0 <= k < |r.lines| ==> r.lines[k].order == SortedOrders(orders)[k]
    ensures forall k :: 0 <= k < |r.lines| ==> r.lines[k].time == TimeFormat.FormatDisplayTime(r.lines[k].order.deliveryTime)
  {
    var sorted := SortedOrders(orders);
    Listing(|orders|, seq(|sorted|, k requires 0 <= k < |sorted| =>
      Line(sorted[k], TimeFormat.FormatDisplayTime(sorted[k].deliveryTime), sorted[k].isLocal)))
  }

  /** Every input order has a line, every line an input order, and only staged ones can be deleted. */
  lemma ListingShowsEveryOrder(orders: seq<Order>, o: Order)
    ensures o in orders <==> exists k :: 0 <= k < |ListingOf(orders).lines| && ListingOf(orders).lines[k].order == o
    ensures forall k :: 0 <= k < |ListingOf(orders).lines| && ListingOf(orders).lines[k].canDelete ==> ListingOf(orders).lines[k].order.isLocal
  {
    var sorted := SortedOrders(orders);
    assert o in orders <==> o in multiset(orders);
    assert o in sorted <==> o in multiset(sorted);
    if o in sorted {
      var k :| 0 <= k < |sorted| && sorted[k] == o;
      assert ListingOf(orders).lines[k].order == o;
    }
  }
}
