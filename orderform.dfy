/**
 * Order admission: the form that picks a date, an open store, a delivery time
 * and item rows, checks them, warns about duplicates and emits one staged
 * order per row into the application's order list.
 */
module OrderForm {
  import opened Wrappers
  import opened Types
  import opened Seqs
  import opened TimeFormat
  import App

  /** A row's quantity input: a number, or blank while the field is cleared. */
  datatype Qty = Blank | Num(n: int)

  datatype Row = Row(itemName: string, quantity: Qty)

  /** The row every reset starts from: no item, quantity 1. */
  const BlankRow := Row("", Num(1))

  datatype FormError = MissingFields | NoValidItems

  /** An entry of the duplicate warning: the order the row would become, before time normalisation. */
  datatype Conflict = Conflict(date: string, deliveryTime: string, storeName: string, itemName: string, quantity: int)

  /** `Number(q)`: a blank input reads as 0. */
  function NumberOf(q: Qty): int {
    match q
    case Blank => 0
    case Num(n) => n
  }

  // ---------------------------------------------------------------------------
  // Store eligibility

  function AvailableStores(stores: seq<Store>, date: string): (r: seq<Store>)
    ensures forall s :: s in r <==> s in stores && date !in s.holidayDates
    ensures |r| <= |stores|
  {
    Filter((s: Store) => date !in s.holidayDates, stores)
  }

  /** The eligible stores keep the order of the store list. */
  lemma {:induction false} AvailableStoresKeepsOrder(a: seq<Store>, b: seq<Store>, date: string)
    ensures AvailableStores(a + b, date) == AvailableStores(a, date) + AvailableStores(b, date)
  {
    FilterAppend((s: Store) => date !in s.holidayDates, a, b);
  }

  /** A store closed on 2024-05-01 is offered on every other date and not on that one. */
  lemma HolidayExcludesOnlyThatDate(s: Store, date: string)
    requires s.holidayDates == ["2024-05-01"]
    ensures s in AvailableStores([s], date) <==> date != "2024-05-01"
  {
  }

  /** The position of the first store named `name` at or after `from`. */
  function FindFrom(stores: seq<Store>, name: string, from: nat): (r: Option<nat>)
    requires from <= |stores|
    ensures r.None? <==> forall i :: from <= i < |stores| ==> stores[i].storeName != name
    ensures r.Some? ==> from <= r.value < |stores| && stores[r.value].storeName == name
    ensures r.Some? ==> forall j :: from <= j < r.value ==> stores[j].storeName != name
    decreases |stores| - from
  {
    if from == |stores| then None
    else if stores[from].storeName == name then Some(from)
    else FindFrom(stores, name, from + 1)
  }

  /** `stores.find(s => s.storeName === name)`: the first store with that name. */
  function FindStore(stores: seq<Store>, name: string): (r: Option<Store>)
    ensures r.None? <==> forall i :: 0 <= i < |stores| ==> stores[i].storeName != name
    ensures r.Some? ==> r.value.storeName == name
    ensures r.Some? ==> exists i :: 0 <= i < |stores| && stores[i] == r.value && (forall j :: 0 <= j < i ==> stores[j].storeName != name)
  {
    match FindFrom(stores, name, 0)
    case None => None
    case Some(i) => Some(stores[i])
  }

  function RowsFromDefaults(items: seq<StoreDefaultItem>): seq<Row> {
    seq(|items|, k requires 0 <= k < |items| => Row(items[k].itemName, Num(items[k].quantity)))
  }

  // ---------------------------------------------------------------------------
  // Row validation

  /** A row the normal submit accepts: an item and a positive quantity. */
  predicate IsValidRow(r: Row) {
    r.itemName != "" && r.quantity.Num? && r.quantity.n > 0
  }

  /** A row the duplicate override accepts: an item and a non-blank quantity, of any sign. */
  predicate IsOverrideRow(r: Row) {
    r.itemName != "" && r.quantity.Num?
  }

  function ValidRows(rows: seq<Row>): (r: seq<Row>)
    ensures forall x :: x in r <==> x in rows && IsValidRow(x)
  {
    Filter(IsValidRow, rows)
  }

  function OverrideRows(rows: seq<Row>): (r: seq<Row>)
    ensures forall x :: x in r <==> x in rows && IsOverrideRow(x)
  {
    Filter(IsOverrideRow, rows)
  }

  /** The override keeps every row the normal path keeps, in the same order, and possibly more. */
  lemma OverrideIsWeaker(rows: seq<Row>)
    ensures ValidRows(OverrideRows(rows)) == ValidRows(rows)
  {
    FilterWeaker(IsValidRow, IsOverrideRow, rows);
  }

  /** A row with an item and a quantity of zero or less is refused by submit but admitted by the override. */
  lemma OverrideAdmitsNonPositive(r: Row)
    requires r.itemName != "" && r.quantity.Num? && r.quantity.n <= 0
    ensures ValidRows([r]) == [] && OverrideRows([r]) == [r]
  {
  }

  // ---------------------------------------------------------------------------
  // Duplicate detection

  /** `existingOrders.some(o => same date, store and item)`. */
  function AnyOrderFor(existing: seq<Order>, date: string, storeName: string, itemName: string): (r: bool)
    ensures r <==> exists o :: o in existing && o.date == date && o.storeName == storeName && o.itemName == itemName
  {
    if existing == [] then false
    else
      assert existing == [existing[0]] + existing[1..];
      var o := existing[0];
      (o.date == date && o.storeName == storeName && o.itemName == itemName)
      || AnyOrderFor(existing[1..], date, storeName, itemName)
  }

  /** The valid rows that collide with an existing order, in row order. */
  function FlaggedRows(rows: seq<Row>, existing: seq<Order>, date: string, storeName: string): (r: seq<Row>)
    ensures forall x :: x in r <==> x in rows && AnyOrderFor(existing, date, storeName, x.itemName)
  {
    Filter((x: Row) => AnyOrderFor(existing, date, storeName, x.itemName), rows)
  }

  function ConflictOf(row: Row, date: string, deliveryTime: string, storeName: string): Conflict {
    Conflict(date, deliveryTime, storeName, row.itemName, NumberOf(row.quantity))
  }

  /** The warning the submit raises: one entry per flagged row. */
  function Conflicts(rows: seq<Row>, existing: seq<Order>, date: string, deliveryTime: string, storeName: string): seq<Conflict> {
    var flagged := FlaggedRows(rows, existing, date, storeName);
    seq(|flagged|, k requires 0 <= k < |flagged| => ConflictOf(flagged[k], date, deliveryTime, storeName))
  }

  /**
   * A row is named in the warning iff some existing order, staged or saved and
   * of any quantity, has the same date, store and item.
   */
  lemma ConflictsExactlyDuplicates(rows: seq<Row>, existing: seq<Order>, date: string, deliveryTime: string, storeName: string, r: Row)
    requires r in rows
    ensures ConflictOf(r, date, deliveryTime, storeName) in Conflicts(rows, existing, date, deliveryTime, storeName)
        <==> exists o :: o in existing && o.date == date && o.storeName == storeName && o.itemName == r.itemName
  {
    var flagged := FlaggedRows(rows, existing, date, storeName);
    var c := Conflicts(rows, existing, date, deliveryTime, storeName);
    if ConflictOf(r, date, deliveryTime, storeName) in c {
      var k :| 0 <= k < |c| && c[k] == ConflictOf(r, date, deliveryTime, storeName);
      assert flagged[k] in flagged;
      assert flagged[k].itemName == r.itemName;
    }
    if AnyOrderFor(existing, date, storeName, r.itemName) {
      var k :| 0 <= k < |flagged| && flagged[k] == r;
      assert c[k] == ConflictOf(r, date, deliveryTime, storeName);
    }
  }

  lemma ConflictsSnoc(rows: seq<Row>, row: Row, existing: seq<Order>, date: string, deliveryTime: string, storeName: string)
    ensures Conflicts(rows + [row], existing, date, deliveryTime, storeName)
         == Conflicts(rows, existing, date, deliveryTime, storeName)
            + if AnyOrderFor(existing, date, storeName, row.itemName) then [ConflictOf(row, date, deliveryTime, storeName)] else []
  {
    FilterAppend((x: Row) => AnyOrderFor(existing, date, storeName, x.itemName), rows, [row]);
  }

  /** The `forEach` of `handleSubmit` that collects the duplicate warning. */
  method FindDuplicates(validRows: seq<Row>, existing: seq<Order>, date: string, deliveryTime: string, storeName: string)
    returns (duplicates: seq<Conflict>)
    ensures duplicates == Conflicts(validRows, existing, date, deliveryTime, storeName)
  {
    duplicates := [];
    var i := 0;
    while i < |validRows|
      invariant 0 <= i <= |validRows|
      invariant duplicates == Conflicts(validRows[..i], existing, date, deliveryTime, storeName)
    {
      var row := validRows[i];
      assert validRows[..i + 1] == validRows[..i] + [row];
      ConflictsSnoc(validRows[..i], row, existing, date, deliveryTime, storeName);
      if AnyOrderFor(existing, date, storeName, row.itemName) {
        duplicates := duplicates + [ConflictOf(row, date, deliveryTime, storeName)];
      }
      i := i + 1;
    }
    assert validRows[..i] == validRows;
  }

  // ---------------------------------------------------------------------------
  // Quantity stepper

  /** `adjustQuantity`: `Math.max(1, (Number(q) || 0) + delta)`. */
  function Adjusted(q: Qty, delta: int): (r: int)
    ensures r >= 1
    ensures NumberOf(q) + delta >= 1 ==> r == NumberOf(q) + delta
  {
    var current := NumberOf(q);
    if current + delta > 1 then current + delta else 1
  }

  /** The order a row becomes: staged, pending, with the normalised time and the next object identity. */
  function NewOrder(row: Row, date: string, deliveryTime: string, storeName: string, ref: nat): Order {
    Order(ref, date, FormatTimeStr(deliveryTime), storeName, row.itemName, NumberOf(row.quantity), Pending, true)
  }

  /** `after` is `before` followed by one new order per row, in row order. */
  ghost predicate AppendsOrdersFor(before: seq<Order>, after: seq<Order>, rows: seq<Row>,
                                   date: string, deliveryTime: string, storeName: string, firstRef: nat)
  {
    && |after| == |before| + |rows|
    && after[..|before|] == before
    && forall k :: 0 <= k < |rows| ==> after[|before| + k] == NewOrder(rows[k], date, deliveryTime, storeName, firstRef + k)
  }

  /** What a submit decides about the form as it stands. */
  datatype Verdict = Rejected(error: FormError) | Warned(duplicates: seq<Conflict>) | Admissible

  /**
   * The decision `handleSubmit` takes: missing date, store or time first, then
   * no valid row, then any duplicate; otherwise every valid row is admitted.
   */
  function Review(date: string, storeName: string, deliveryTime: string, rows: seq<Row>, existing: seq<Order>): Verdict {
    if date == "" || storeName == "" || deliveryTime == "" then Rejected(MissingFields)
    else
      var valid := ValidRows(rows);
      if valid == [] then Rejected(NoValidItems)
      else
        var duplicates := Conflicts(valid, existing, date, deliveryTime, storeName);
        if duplicates != [] then Warned(duplicates) else Admissible
  }

  /**
   * What the decision means: missing fields are reported as such; a submit is
   * refused iff a field is missing or no row is valid; a warning lists every
   * duplicate and is never empty; the admissible case is exactly the one where
   * no valid row collides with an existing order.
   */
  lemma ReviewDecides(date: string, storeName: string, deliveryTime: string, rows: seq<Row>, existing: seq<Order>)
    ensures var v := Review(date, storeName, deliveryTime, rows, existing);
      && (v == Rejected(MissingFields) <==> date == "" || storeName == "" || deliveryTime == "")
      && (v.Rejected? <==> date == "" || storeName == "" || deliveryTime == "" || forall r :: r in rows ==> !IsValidRow(r))
      && (v.Warned? ==> v.duplicates == Conflicts(ValidRows(rows), existing, date, deliveryTime, storeName) && v.duplicates != [])
      && (v.Admissible? <==> !v.Rejected? && forall r :: r in rows && IsValidRow(r) ==> !AnyOrderFor(existing, date, storeName, r.itemName))
  {
    var valid := ValidRows(rows);
    var flagged := FlaggedRows(valid, existing, date, storeName);
    assert |Conflicts(valid, existing, date, deliveryTime, storeName)| == |flagged|;
    if valid != [] {
      assert valid[0] in valid;
    }
    if flagged != [] {
      assert flagged[0] in flagged;
    }
  }

  lemma AppendsOrdersForSnoc(before: seq<Order>, after: seq<Order>, rows: seq<Row>, row: Row,
                             date: string, deliveryTime: string, storeName: string, firstRef: nat)
    requires AppendsOrdersFor(before, after, rows, date, deliveryTime, storeName, firstRef)
    ensures AppendsOrdersFor(before, after + [NewOrder(row, date, deliveryTime, storeName, firstRef + |rows|)],
                             rows + [row], date, deliveryTime, storeName, firstRef)
  {
    var after' := after + [NewOrder(row, date, deliveryTime, storeName, firstRef + |rows|)];
    assert after'[..|before|] == after[..|before|];
  }

  /**
   * Each row becomes a new object: identities handed out from `firstRef` on,
   * above every existing one, so no new order equals an existing order and a
   * list of distinct objects stays one.
   */
  lemma FreshOrdersStayDistinct(before: seq<Order>, after: seq<Order>, rows: seq<Row>,
                                date: string, deliveryTime: string, storeName: string, firstRef: nat)
    requires AppendsOrdersFor(before, after, rows, date, deliveryTime, storeName, firstRef)
    requires App.RefsBelow(before, firstRef)
    ensures App.RefsBelow(after, firstRef + |rows|)
    ensures forall k :: |before| <= k < |after| ==> after[k] !in before
    ensures App.DistinctRefs(before) ==> App.DistinctRefs(after)
  {
    forall i | 0 <= i < |before| ensures after[i] == before[i] {
      assert after[..|before|][i] == after[i];
    }
    forall i | |before| <= i < |after| ensures after[i].ref == firstRef + (i - |before|) {
      assert after[|before| + (i - |before|)] == NewOrder(rows[i - |before|], date, deliveryTime, storeName, firstRef + (i - |before|));
    }
  }

  class OrderFormState {
    var date: string
    var deliveryTime: string
    var storeName: string
    var rows: seq<Row>
    var error: Option<FormError>
    var duplicateWarning: Option<seq<Conflict>>

    /** The row list is never empty. */
    ghost predicate Valid()
      reads this
    {
      |rows| > 0
    }

    constructor (today: string)
      ensures Valid()
      ensures date == today && deliveryTime == "08:00" && storeName == "" && rows == [BlankRow]
      ensures error == None && duplicateWarning == None
    {
      date, deliveryTime, storeName := today, "08:00", "";
      rows := [BlankRow];
      error, duplicateWarning := None, None;
    }

    method SelectDate(d: string)
      modifies this`date
      ensures date == d
    {
      date := d;
    }

    /** The time input keeps at most five characters. */
    method SetDeliveryTime(value: string)
      modifies this`deliveryTime
      ensures deliveryTime == value[..if |value| < 5 then |value| else 5]
    {
      deliveryTime := value[..if |value| < 5 then |value| else 5];
    }

    /** `applyStoreDefaults`: take the store's time and, when it has any, its default rows. */
    method ApplyStoreDefaults(stores: seq<Store>, name: string) returns (applied: bool)
      requires Valid()
      modifies this`deliveryTime, this`rows
      ensures Valid()
      ensures var found := FindStore(stores, name);
        && applied == (found.Some? && |found.value.defaultItems| > 0)
        && deliveryTime == (if found.Some? && found.value.deliveryTime != "" then FormatTimeStr(found.value.deliveryTime) else old(deliveryTime))
        && rows == if applied then RowsFromDefaults(found.value.defaultItems) else old(rows)
    {
      applied := false;
      var found := FindStore(stores, name);
      if found.Some? {
        var store := found.value;
        if store.deliveryTime != "" {
          deliveryTime := FormatTimeStr(store.deliveryTime);
        }
        if |store.defaultItems| > 0 {
          rows := RowsFromDefaults(store.defaultItems);
          applied := true;
        }
      }
    }

    /** `handleStoreChange`: select the store, then its defaults or a single blank row. */
    method HandleStoreChange(stores: seq<Store>, name: string) returns (applied: bool)
      requires Valid()
      modifies this`storeName, this`deliveryTime, this`rows
      ensures Valid() && storeName == name
      ensures name == "" ==> !applied && rows == old(rows) && deliveryTime == old(deliveryTime)
      ensures name != "" ==> var found := FindStore(stores, name);
        && applied == (found.Some? && |found.value.defaultItems| > 0)
        && deliveryTime == (if found.Some? && found.value.deliveryTime != "" then FormatTimeStr(found.value.deliveryTime) else old(deliveryTime))
        && rows == if applied then RowsFromDefaults(found.value.defaultItems) else [BlankRow]
    {
      storeName := name;
      applied := false;
      if name != "" {
        applied := ApplyStoreDefaults(stores, name);
        if !applied {
          rows := [BlankRow];
        }
      }
    }

    method AddRow()
      requires Valid()
      modifies this`rows
      ensures Valid() && rows == old(rows) + [BlankRow]
    {
      rows := rows + [BlankRow];
    }

    /** `removeRow`: removing the only row leaves a fresh blank row instead. */
    method RemoveRow(index: nat)
      requires Valid()
      modifies this`rows
      ensures Valid()
      ensures rows == if |old(rows)| == 1 then [BlankRow] else RemoveAt(old(rows), index)
    {
      if |rows| == 1 {
        rows := [BlankRow];
        return;
      }
      rows := RemoveAt(rows, index);
    }

    /** `clearRows`, gated by the confirmation dialog. */
    method ClearRows(confirmed: bool)
      requires Valid()
      modifies this`rows
      ensures Valid()
      ensures rows == if confirmed then [BlankRow] else old(rows)
    {
      if confirmed {
        rows := [BlankRow];
      }
    }

    method UpdateRowItem(index: nat, itemName: string)
      requires Valid() && index < |rows|
      modifies this`rows
      ensures Valid()
      ensures rows == old(rows)[index := old(rows)[index].(itemName := itemName)]
    {
      rows := rows[index := rows[index].(itemName := itemName)];
    }

    method UpdateRowQuantity(index: nat, quantity: Qty)
      requires Valid() && index < |rows|
      modifies this`rows
      ensures Valid()
      ensures rows == old(rows)[index := old(rows)[index].(quantity := quantity)]
    {
      rows := rows[index := rows[index].(quantity := quantity)];
    }

    /** The `-`/`+` buttons: only row `index` changes, and its quantity is at least 1. */
    method AdjustQuantity(index: nat, delta: int)
      requires Valid() && index < |rows|
      modifies this`rows
      ensures Valid()
      ensures rows == old(rows)[index := old(rows)[index].(quantity := Num(Adjusted(old(rows)[index].quantity, delta)))]
      ensures rows[index].quantity.Num? && rows[index].quantity.n >= 1
    {
      var newQty := Adjusted(rows[index].quantity, delta);
      UpdateRowQuantity(index, Num(newQty));
    }

    /**
     * `processSubmission`: emit one staged order per row through the
     * application's `onAddOrder`, then reset the rows, the store and the warning.
     */
    method ProcessSubmission(app: App.AppState, validRows: seq<Row>, firstRef: nat)
      requires App.RefsBelow(app.allOrders, firstRef)
      modifies this`rows, this`storeName, this`duplicateWarning, app
      ensures Valid() && rows == [BlankRow] && storeName == "" && duplicateWarning == None
      ensures AppendsOrdersFor(old(app.allOrders), app.allOrders, validRows, date, deliveryTime, old(storeName), firstRef)
      ensures App.RefsBelow(app.allOrders, firstRef + |validRows|)
      ensures forall k :: |old(app.allOrders)| <= k < |app.allOrders| ==> app.allOrders[k] !in old(app.allOrders)
      ensures App.DistinctRefs(old(app.allOrders)) ==> App.DistinctRefs(app.allOrders)
      ensures app.stores == old(app.stores) && app.products == old(app.products) && app.message == old(app.message)
      ensures app.loading == old(app.loading) && app.syncing == old(app.syncing) && app.currentView == old(app.currentView)
    {
      var i := 0;
      while i < |validRows|
        modifies app
        invariant 0 <= i <= |validRows|
        invariant AppendsOrdersFor(old(app.allOrders), app.allOrders, validRows[..i], date, deliveryTime, storeName, firstRef)
        invariant app.stores == old(app.stores) && app.products == old(app.products) && app.message == old(app.message)
        invariant app.loading == old(app.loading) && app.syncing == old(app.syncing) && app.currentView == old(app.currentView)
      {
        assert validRows[..i + 1] == validRows[..i] + [validRows[i]];
        AppendsOrdersForSnoc(old(app.allOrders), app.allOrders, validRows[..i], validRows[i], date, deliveryTime, storeName, firstRef);
        app.AddOrder(NewOrder(validRows[i], date, deliveryTime, storeName, firstRef + i));
        i := i + 1;
      }
      assert validRows[..i] == validRows;
      FreshOrdersStayDistinct(old(app.allOrders), app.allOrders, validRows, date, deliveryTime, storeName, firstRef);
      rows := [BlankRow];
      storeName := "";
      duplicateWarning := None;
    }

    /** The checks `handleSubmit` runs before it changes anything, in its order. */
    method Judge(existing: seq<Order>) returns (verdict: Verdict, valid: seq<Row>)
      ensures verdict == Review(date, storeName, deliveryTime, rows, existing)
      ensures valid == ValidRows(rows)
    {
      valid := ValidRows(rows);
      if date == "" || storeName == "" || deliveryTime == "" {
        verdict := Rejected(MissingFields);
      } else if |valid| == 0 {
        verdict := Rejected(NoValidItems);
      } else {
        var duplicates := FindDuplicates(valid, existing, date, deliveryTime, storeName);
        verdict := if |duplicates| > 0 then Warned(duplicates) else Admissible;
      }
    }

    /**
     * `handleSubmit`: check the required fields and the rows, then either raise
     * the duplicate warning (admitting nothing) or admit every valid row.
     */
    method HandleSubmit(app: App.AppState, firstRef: nat)
      requires Valid() && App.RefsBelow(app.allOrders, firstRef)
      modifies this, app
      ensures Valid() && date == old(date) && deliveryTime == old(deliveryTime)
      ensures app.stores == old(app.stores) && app.products == old(app.products) && app.message == old(app.message)
      ensures app.loading == old(app.loading) && app.syncing == old(app.syncing) && app.currentView == old(app.currentView)
      ensures Review(old(date), old(storeName), old(deliveryTime), old(rows), old(app.allOrders)).Rejected? ==>
        && error == Some(Review(old(date), old(storeName), old(deliveryTime), old(rows), old(app.allOrders)).error)
        && app.allOrders == old(app.allOrders)
        && rows == old(rows) && storeName == old(storeName) && duplicateWarning == old(duplicateWarning)
      ensures Review(old(date), old(storeName), old(deliveryTime), old(rows), old(app.allOrders)).Warned? ==>
        && error == None && app.allOrders == old(app.allOrders)
        && duplicateWarning == Some(Review(old(date), old(storeName), old(deliveryTime), old(rows), old(app.allOrders)).duplicates)
        && rows == old(rows) && storeName == old(storeName)
      ensures Review(old(date), old(storeName), old(deliveryTime), old(rows), old(app.allOrders)).Admissible? ==>
        && error == None && duplicateWarning == None && rows == [BlankRow] && storeName == ""
        && AppendsOrdersFor(old(app.allOrders), app.allOrders, ValidRows(old(rows)), date, deliveryTime, old(storeName), firstRef)
        && App.RefsBelow(app.allOrders, firstRef + |ValidRows(old(rows))|)
      ensures forall k :: |old(app.allOrders)| <= k < |app.allOrders| ==> app.allOrders[k] !in old(app.allOrders)
      ensures App.DistinctRefs(old(app.allOrders)) ==> App.DistinctRefs(app.allOrders)
    {
      var verdict, valid := Judge(app.allOrders);
      error := None;
      match verdict
      case Rejected(e) =>
        error := Some(e);
      case Warned(duplicates) =>
        duplicateWarning := Some(duplicates);
      case Admissible =>
        ProcessSubmission(app, valid, firstRef);
    }

    /**
     * The warning's confirm button: admit every row with an item and a non-blank
     * quantity. Unlike submit it does not re-check that the quantity is positive.
     */
    method ConfirmDuplicates(app: App.AppState, firstRef: nat)
      requires duplicateWarning.Some? && App.RefsBelow(app.allOrders, firstRef)
      modifies this`rows, this`storeName, this`duplicateWarning, app
      ensures Valid() && rows == [BlankRow] && storeName == "" && duplicateWarning == None
      ensures AppendsOrdersFor(old(app.allOrders), app.allOrders, OverrideRows(old(rows)), date, deliveryTime, old(storeName), firstRef)
      ensures App.RefsBelow(app.allOrders, firstRef + |OverrideRows(old(rows))|)
      ensures forall k :: |old(app.allOrders)| <= k < |app.allOrders| ==> app.allOrders[k] !in old(app.allOrders)
      ensures App.DistinctRefs(old(app.allOrders)) ==> App.DistinctRefs(app.allOrders)
      ensures app.stores == old(app.stores) && app.products == old(app.products) && app.message == old(app.message)
      ensures app.loading == old(app.loading) && app.syncing == old(app.syncing) && app.currentView == old(app.currentView)
    {
      ProcessSubmission(app, OverrideRows(rows), firstRef);
    }

    /** The warning's cancel button: admit nothing. */
    method CancelDuplicates()
      modifies this`duplicateWarning
      ensures duplicateWarning == None
    {
      duplicateWarning := None;
    }
  }
}
