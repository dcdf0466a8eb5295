/**
 * Store management: the list operations behind adding, editing and deleting
 * stores, the holiday toggle, the default-item editor and its quantity
 * stepper, and the editor state (`editingStore`, `newStore`, `isAdding`)
 * whose saves go to the application's `stores` through `onUpdateStores`.
 */
module Stores {
  import opened Wrappers
  import opened Types
  import opened Seqs
  import opened Strings
  import Calendar
  import App

  // ---------------------------------------------------------------------------
  // Holidays: a sorted set of `YYYY-MM-DD` strings

  /** Strictly ascending: sorted and without repetitions. */
  ghost predicate StrictlySorted(s: seq<string>) {
    forall i, j :: 0 <= i < j < |s| ==> LexLt(s[i], s[j])
  }

  /** `dates.filter(d => d !== date)`. */
  function Without(dates: seq<string>, date: string): (r: seq<string>)
    ensures forall x :: x in r <==> x in dates && x != date
  {
    Filter((x: string) => x != date, dates)
  }

  /** `toggleHoliday`: remove every copy of a date that is present, else add it and sort. */
  function ToggleHoliday(dates: seq<string>, date: string): (r: seq<string>)
    ensures date in dates ==> date !in r
    ensures date !in dates ==> date in r && |r| == |dates| + 1
    ensures forall x :: x != date ==> (x in r <==> x in dates)
  {
    if date in dates then Without(dates, date)
    else
      var r := SortBy(LexLe, dates + [date]);
      assert forall x :: x in r <==> x in multiset(dates + [date]);
      r
  }

  lemma {:induction false} WithoutSorted(dates: seq<string>, date: string)
    requires StrictlySorted(dates)
    ensures StrictlySorted(Without(dates, date))
    decreases |dates|
  {
    if dates != [] {
      var tail := dates[1..];
      assert StrictlySorted(tail) by {
        forall i, j | 0 <= i < j < |tail| ensures LexLt(tail[i], tail[j]) {
          assert tail[i] == dates[i + 1] && tail[j] == dates[j + 1];
        }
      }
      WithoutSorted(tail, date);
      var rest := Without(tail, date);
      forall k | 0 <= k < |rest| ensures LexLt(dates[0], rest[k]) {
        assert rest[k] in tail;
        var m :| 0 <= m < |tail| && tail[m] == rest[k];
        assert dates[m + 1] == rest[k];
      }
    }
  }

  lemma StrictIsDistinct(s: seq<string>)
    requires StrictlySorted(s)
    ensures Distinct(s)
  {
  }

  /** Adding a date that is absent and sorting gives a strictly sorted list again. */
  lemma InsertSorted(dates: seq<string>, date: string)
    requires StrictlySorted(dates) && date !in dates
    ensures StrictlySorted(SortBy(LexLe, dates + [date]))
  {
    var s := dates + [date];
    var r := SortBy(LexLe, s);
    assert Distinct(s) by {
      forall i, j | 0 <= i < j < |s| ensures s[i] != s[j] {
        if j == |dates| {
          assert s[i] in dates;
        } else {
          assert LexLt(dates[i], dates[j]);
        }
      }
    }
    DistinctPermutation(s, r);
    LexLeIsTotalOrder();
    SortByIsSorted(LexLe, s);
  }

  /** The first element of a strictly sorted list is below every other one. */
  lemma StrictMin(s: seq<string>, x: string)
    requires StrictlySorted(s) && x in s
    ensures LexLe(s[0], x)
  {
    LexLeTotal(s[0], s[0]);
  }

  lemma EmptyTogether(a: seq<string>, b: seq<string>)
    requires forall x :: x in a <==> x in b
    ensures a == [] <==> b == []
  {
    if a != [] {
      assert a[0] in b;
    }
    if b != [] {
      assert b[0] in a;
    }
  }

  /** Two strictly sorted lists with the same elements are the same list. */
  lemma {:induction false} SortedSetsEqual(a: seq<string>, b: seq<string>)
    requires StrictlySorted(a) && StrictlySorted(b)
    requires forall x :: x in a <==> x in b
    ensures a == b
    decreases |a|
  {
    EmptyTogether(a, b);
    if a != [] {
      StrictMin(a, b[0]);
      StrictMin(b, a[0]);
      LexLeAntisymmetric(a[0], b[0]);
      var a', b' := a[1..], b[1..];
      forall x ensures x in a' <==> x in b' {
        assert x in a' <==> x in a && x != a[0] by {
          if x in a' {
            var k :| 0 <= k < |a'| && a'[k] == x;
            assert a[k + 1] == x && LexLt(a[0], a[k + 1]);
          }
          assert a == [a[0]] + a';
        }
        assert x in b' <==> x in b && x != b[0] by {
          if x in b' {
            var k :| 0 <= k < |b'| && b'[k] == x;
            assert b[k + 1] == x && LexLt(b[0], b[k + 1]);
          }
          assert b == [b[0]] + b';
        }
      }
      SortedSetsEqual(a', b');
      assert a == [a[0]] + a' && b == [b[0]] + b';
    }
  }

  /** On a strictly sorted list the toggle keeps it strictly sorted. */
  lemma ToggleKeepsSorted(dates: seq<string>, date: string)
    requires StrictlySorted(dates)
    ensures StrictlySorted(ToggleHoliday(dates, date))
  {
    if date in dates {
      WithoutSorted(dates, date);
    } else {
      InsertSorted(dates, date);
    }
  }

  /** On a strictly sorted list, toggling the same date twice restores the list. */
  lemma ToggleTwice(dates: seq<string>, date: string)
    requires StrictlySorted(dates)
    ensures ToggleHoliday(ToggleHoliday(dates, date), date) == dates
  {
    var once := ToggleHoliday(dates, date);
    ToggleKeepsSorted(dates, date);
    ToggleKeepsSorted(once, date);
    SortedSetsEqual(ToggleHoliday(once, date), dates);
  }

  // ---------------------------------------------------------------------------
  // The store list

  datatype AddError = EmptyName | DuplicateName

  predicate NameTaken(stores: seq<Store>, name: string) {
    exists s :: s in stores && s.storeName == name
  }

  /** No two stores share a name. */
  ghost predicate UniqueNames(stores: seq<Store>) {
    forall i, j :: 0 <= i < j < |stores| ==> stores[i].storeName != stores[j].storeName
  }

  /** `handleAddStore`: an empty name is ignored, a taken name is refused with an alert, anything else is appended. */
  function AddStore(stores: seq<Store>, newStore: Store): (r: Result<seq<Store>, AddError>)
    ensures r == Failure(EmptyName) <==> newStore.storeName == ""
    ensures r == Failure(DuplicateName) <==> newStore.storeName != "" && NameTaken(stores, newStore.storeName)
    ensures r.Success? ==> r.value == stores + [newStore]
  {
    if newStore.storeName == "" then Failure(EmptyName)
    else if NameTaken(stores, newStore.storeName) then Failure(DuplicateName)
    else Success(stores + [newStore])
  }

  /** What `stores` becomes: the appended list, or the old one when refused. */
  function AfterAdd(stores: seq<Store>, newStore: Store): seq<Store> {
    match AddStore(stores, newStore)
    case Success(s) => s
    case Failure(_) => stores
  }

  /** Store names stay unique through an add. */
  lemma AddKeepsNamesUnique(stores: seq<Store>, newStore: Store)
    requires UniqueNames(stores)
    ensures UniqueNames(AfterAdd(stores, newStore))
  {
    if AddStore(stores, newStore).Success? {
      var r := stores + [newStore];
      forall i, j | 0 <= i < j < |r| ensures r[i].storeName != r[j].storeName {
        if j == |stores| {
          assert r[i] in stores;
        }
      }
    }
  }

  /** `handleSaveEdit`: every store with the edited store's name is replaced by it. */
  function SaveEdit(stores: seq<Store>, edited: Store): (r: seq<Store>)
    ensures |r| == |stores|
    ensures forall i :: 0 <= i < |r| ==> r[i] == if stores[i].storeName == edited.storeName then edited else stores[i]
  {
    seq(|stores|, i requires 0 <= i < |stores| => if stores[i].storeName == edited.storeName then edited else stores[i])
  }

  /** Names are untouched by a save, so they stay unique, and with unique names at most one store changes. */
  lemma SaveEditKeepsNames(stores: seq<Store>, edited: Store)
    ensures forall i :: 0 <= i < |stores| ==> SaveEdit(stores, edited)[i].storeName == stores[i].storeName
    ensures UniqueNames(stores) ==> UniqueNames(SaveEdit(stores, edited))
    ensures UniqueNames(stores) ==> forall i, j :: 0 <= i < j < |stores| ==>
      SaveEdit(stores, edited)[i] == stores[i] || SaveEdit(stores, edited)[j] == stores[j]
  {
  }

  /** The delete button: `stores.filter(s => s.storeName !== name)`, once confirmed. */
  function DeleteStore(stores: seq<Store>, name: string): (r: seq<Store>)
    ensures forall s :: s in r <==> s in stores && s.storeName != name
    ensures |r| <= |stores|
  {
    Filter((s: Store) => s.storeName != name, stores)
  }

  /** Deleting a store just added gives back the list it was added to. */
  lemma AddThenDelete(stores: seq<Store>, newStore: Store)
    requires AddStore(stores, newStore).Success?
    ensures DeleteStore(AfterAdd(stores, newStore), newStore.storeName) == stores
  {
    var f := (s: Store) => s.storeName != newStore.storeName;
    FilterAppend(f, stores, [newStore]);
    FilterAllPass(f, stores);
    assert [newStore][1..] == [];
  }

  // ---------------------------------------------------------------------------
  // Default items

  const NewDefaultItem := StoreDefaultItem("", 1)

  /** `addDefaultItem`: one blank line at the end. */
  function AddDefaultItem(store: Store): (r: Store)
    ensures r.defaultItems == store.defaultItems + [NewDefaultItem]
    ensures r.(defaultItems := store.defaultItems) == store
  {
    store.(defaultItems := store.defaultItems + [NewDefaultItem])
  }

  /** `removeDefaultItem`: line `index` goes, the others keep their order. */
  function RemoveDefaultItem(store: Store, index: nat): (r: Store)
    ensures index < |store.defaultItems| ==> |r.defaultItems| == |store.defaultItems| - 1
    ensures index < |store.defaultItems| ==> multiset(r.defaultItems) == multiset(store.defaultItems) - multiset{store.defaultItems[index]}
    ensures r.(defaultItems := store.defaultItems) == store
  {
    if index < |store.defaultItems| then
      RemoveAtMultiset(store.defaultItems, index);
      store.(defaultItems := RemoveAt(store.defaultItems, index))
    else store
  }

  /** The two fields of a default line the editor can set. */
  datatype ItemField = ItemName(name: string) | ItemQuantity(quantity: int)

  function SetField(item: StoreDefaultItem, field: ItemField): StoreDefaultItem {
    match field
    case ItemName(name) => item.(itemName := name)
    case ItemQuantity(q) => item.(quantity := q)
  }

  /** `updateDefaultItem`: only line `index` changes, and in that line only the given field. */
  function UpdateDefaultItem(store: Store, index: nat, field: ItemField): (r: Store)
    requires index < |store.defaultItems|
    ensures |r.defaultItems| == |store.defaultItems|
    ensures forall k :: 0 <= k < |r.defaultItems| && k != index ==> r.defaultItems[k] == store.defaultItems[k]
    ensures field.ItemName? ==> r.defaultItems[index] == store.defaultItems[index].(itemName := field.name)
    ensures field.ItemQuantity? ==> r.defaultItems[index] == store.defaultItems[index].(quantity := field.quantity)
    ensures r.(defaultItems := store.defaultItems) == store
  {
    store.(defaultItems := store.defaultItems[index := SetField(store.defaultItems[index], field)])
  }

  /** The stepper's minus button: `Math.max(1, q - 1)`. */
  function StepDown(q: int): (r: int)
    ensures r >= 1
    ensures q > 1 ==> r == q - 1
    ensures q <= 1 ==> r == 1
  {
    if q - 1 > 1 then q - 1 else 1
  }

  /** The stepper's plus button: `q + 1`. */
  function StepUp(q: int): (r: int)
    ensures r > q
  {
    q + 1
  }

  /** Minus undoes plus for any quantity the stepper can show, and never goes below 1. */
  lemma StepRoundTrip(q: int)
    requires q >= 1
    ensures StepDown(StepUp(q)) == q
    ensures StepDown(q) >= 1
  {
  }

  // ---------------------------------------------------------------------------
  // The holiday grid

  datatype HolidayCell = Filler | DayButton(day: nat, date: string, isHoliday: bool)

  function HolidayCellAt(year: nat, month: nat, firstDayOfMonth: nat, holidays: seq<string>, i: nat): HolidayCell {
    if i < firstDayOfMonth then Filler
    else
      var d := i - firstDayOfMonth + 1;
      DayButton(d, Calendar.DateKey(year, month, d), Calendar.DateKey(year, month, d) in holidays)
  }

  lemma HolidayCellsSnoc(days: seq<HolidayCell>, cell: HolidayCell, year: nat, month: nat, firstDayOfMonth: nat, holidays: seq<string>)
    requires forall j :: 0 <= j < |days| ==> days[j] == HolidayCellAt(year, month, firstDayOfMonth, holidays, j)
    requires cell == HolidayCellAt(year, month, firstDayOfMonth, holidays, |days|)
    ensures forall j :: 0 <= j < |days| + 1 ==> (days + [cell])[j] == HolidayCellAt(year, month, firstDayOfMonth, holidays, j)
  {
  }

  /** `renderCalendar`: `firstDayOfMonth` fillers, then one button per day, red when that day is a holiday. */
  method HolidayGrid(year: nat, month: nat, firstDayOfMonth: nat, daysInMonth: nat, holidays: seq<string>)
    returns (days: seq<HolidayCell>)
    ensures |days| == firstDayOfMonth + daysInMonth
    ensures forall i :: 0 <= i < |days| ==> days[i] == HolidayCellAt(year, month, firstDayOfMonth, holidays, i)
  {
    days := [];
    var i := 0;
    while i < firstDayOfMonth
      invariant 0 <= i <= firstDayOfMonth && |days| == i
      invariant forall j :: 0 <= j < i ==> days[j] == Filler
    {
      days := days + [Filler];
      i := i + 1;
    }
    var d := 1;
    while d <= daysInMonth
      invariant 1 <= d <= daysInMonth + 1 && |days| == firstDayOfMonth + d - 1
      invariant forall j :: 0 <= j < |days| ==> days[j] == HolidayCellAt(year, month, firstDayOfMonth, holidays, j)
    {
      var dateStr := Calendar.DateKey(year, month, d);
      var cell := DayButton(d, dateStr, dateStr in holidays);
      assert cell == HolidayCellAt(year, month, firstDayOfMonth, holidays, |days|);
      HolidayCellsSnoc(days, cell, year, month, firstDayOfMonth, holidays);
      days := days + [cell];
      d := d + 1;
    }
  }

  // ---------------------------------------------------------------------------
  // The editor

  /** The empty form a new store starts from. */
  const BlankStore := Store("", "", [], "08:00", [])

  class StoreEditor {
    var editingStore: Option<Store>
    var newStore: Store
    var isAdding: bool

    constructor ()
      ensures editingStore == None && newStore == BlankStore && !isAdding
    {
      editingStore := None;
      newStore := BlankStore;
      isAdding := false;
    }

    /** `editingStore || newStore`: the store the form shows and edits. */
    function Current(): (s: Store)
      reads this
      ensures editingStore.Some? ==> s == editingStore.value
      ensures editingStore.None? ==> s == newStore
    {
      if editingStore.Some? then editingStore.value else newStore
    }

    /** `if (editingStore) setEditingStore(updated); else setNewStore(updated);` */
    method Put(updated: Store)
      modifies this`editingStore, this`newStore
      ensures Current() == updated
      ensures old(editingStore).Some? ==> editingStore == Some(updated) && newStore == old(newStore)
      ensures old(editingStore).None? ==> editingStore == None && newStore == updated
    {
      if editingStore.Some? {
        editingStore := Some(updated);
      } else {
        newStore := updated;
      }
    }

    /** The "new store" button. */
    method StartAdding()
      modifies this`isAdding, this`editingStore
      ensures isAdding && editingStore == None
    {
      isAdding := true;
      editingStore := None;
    }

    /** A card's edit button loads a copy of that store. */
    method StartEdit(store: Store)
      modifies this`isAdding, this`editingStore
      ensures !isAdding && editingStore == Some(store)
    {
      editingStore := Some(store);
      isAdding := false;
    }

    /** The form's close and cancel buttons. */
    method Cancel()
      modifies this`isAdding, this`editingStore
      ensures !isAdding && editingStore == None
    {
      isAdding := false;
      editingStore := None;
    }

    /** The name can be typed only into a new store: while editing, the key is fixed. */
    method SetName(name: string)
      modifies this`newStore
      ensures editingStore.None? ==> newStore == old(newStore).(storeName := name)
      ensures editingStore.Some? ==> newStore == old(newStore)
    {
      if editingStore.None? {
        newStore := newStore.(storeName := name);
      }
    }

    method SetPhone(phone: string)
      modifies this`editingStore, this`newStore
      ensures Current() == old(Current()).(phone := phone)
      ensures old(editingStore).Some? ==> editingStore.Some? && newStore == old(newStore)
      ensures old(editingStore).None? ==> editingStore == None
    {
      Put(Current().(phone := phone));
    }

    /** The time input keeps the first five characters typed. */
    method SetDeliveryTime(value: string)
      modifies this`editingStore, this`newStore
      ensures Current() == old(Current()).(deliveryTime := value[..if |value| < 5 then |value| else 5])
      ensures old(editingStore).Some? ==> editingStore.Some? && newStore == old(newStore)
      ensures old(editingStore).None? ==> editingStore == None
    {
      Put(Current().(deliveryTime := value[..if |value| < 5 then |value| else 5]));
    }

    /** A click on a day of the holiday grid. */
    method ToggleHolidayOf(date: string)
      modifies this`editingStore, this`newStore
      ensures Current() == old(Current()).(holidayDates := ToggleHoliday(old(Current()).holidayDates, date))
      ensures old(editingStore).Some? ==> editingStore.Some? && newStore == old(newStore)
      ensures old(editingStore).None? ==> editingStore == None
    {
      var store := Current();
      Put(store.(holidayDates := ToggleHoliday(store.holidayDates, date)));
    }

    method AddItem()
      modifies this`editingStore, this`newStore
      ensures Current() == AddDefaultItem(old(Current()))
      ensures old(editingStore).Some? ==> editingStore.Some? && newStore == old(newStore)
      ensures old(editingStore).None? ==> editingStore == None
    {
      Put(AddDefaultItem(Current()));
    }

    method RemoveItem(index: nat)
      modifies this`editingStore, this`newStore
      ensures Current() == RemoveDefaultItem(old(Current()), index)
      ensures old(editingStore).Some? ==> editingStore.Some? && newStore == old(newStore)
      ensures old(editingStore).None? ==> editingStore == None
    {
      Put(RemoveDefaultItem(Current(), index));
    }

    /** The item picker, the quantity box and the stepper of line `index`. */
    method UpdateItem(index: nat, field: ItemField)
      requires index < |Current().defaultItems|
      modifies this`editingStore, this`newStore
      ensures Current() == UpdateDefaultItem(old(Current()), index, field)
      ensures old(editingStore).Some? ==> editingStore.Some? && newStore == old(newStore)
      ensures old(editingStore).None? ==> editingStore == None
    {
      Put(UpdateDefaultItem(Current(), index, field));
    }

    /** `handleSaveEdit`: write the edited store back by name and close the form. */
    method HandleSaveEdit(app: App.AppState)
      modifies this`editingStore, app`stores
      ensures old(editingStore).None? ==> app.stores == old(app.stores) && editingStore == None
      ensures old(editingStore).Some? ==> app.stores == SaveEdit(old(app.stores), old(editingStore).value) && editingStore == None
    {
      if editingStore.Some? {
        app.SetStores(SaveEdit(app.stores, editingStore.value));
        editingStore := None;
      }
    }

    /** `handleAddStore`: returns whether the duplicate-name alert was shown. */
    method HandleAddStore(app: App.AppState) returns (alerted: bool)
      modifies this`newStore, this`isAdding, app`stores
      ensures alerted <==> AddStore(old(app.stores), old(newStore)) == Failure(DuplicateName)
      ensures app.stores == AfterAdd(old(app.stores), old(newStore))
      ensures AddStore(old(app.stores), old(newStore)).Success? ==> newStore == BlankStore && !isAdding
      ensures AddStore(old(app.stores), old(newStore)).Failure? ==> newStore == old(newStore) && isAdding == old(isAdding)
    {
      alerted := false;
      match AddStore(app.stores, newStore)
      case Failure(e) =>
        alerted := e == DuplicateName;
      case Success(s) =>
        app.SetStores(s);
        newStore := BlankStore;
        isAdding := false;
    }

    /** The form's save button: add when adding, otherwise save the edit. */
    method Confirm(app: App.AppState) returns (alerted: bool)
      modifies this`newStore, this`isAdding, this`editingStore, app`stores
      ensures old(isAdding) ==> app.stores == AfterAdd(old(app.stores), old(newStore)) && editingStore == old(editingStore)
      ensures old(isAdding) ==> (alerted <==> AddStore(old(app.stores), old(newStore)) == Failure(DuplicateName))
      ensures old(isAdding) && AddStore(old(app.stores), old(newStore)).Success? ==> newStore == BlankStore && !isAdding
      ensures old(isAdding) && AddStore(old(app.stores), old(newStore)).Failure? ==> newStore == old(newStore) && isAdding
      ensures !old(isAdding) ==> !alerted && !isAdding && editingStore == None && newStore == old(newStore)
      ensures !old(isAdding) && old(editingStore).Some? ==> app.stores == SaveEdit(old(app.stores), old(editingStore).value)
      ensures !old(isAdding) && old(editingStore).None? ==> app.stores == old(app.stores)
    {
      if isAdding {
        alerted := HandleAddStore(app);
      } else {
        HandleSaveEdit(app);
        alerted := false;
      }
    }

    /** A card's delete button, gated by the confirmation dialog. */
    method Delete(app: App.AppState, name: string, confirmed: bool)
      modifies app`stores
      ensures app.stores == if confirmed then DeleteStore(old(app.stores), name) else old(app.stores)
    {
      if confirmed {
        app.SetStores(DeleteStore(app.stores, name));
      }
    }
  }
}
