# noodle order entry — a Dafny model

This project models the core of the noodle order-entry front end. It is a single-page React application for people who take delivery orders for a noodle and bun workshop. A remote spreadsheet stores the orders, stores and catalog.

The application keeps one list of orders. Some orders came from the sheet. Others are staged in memory and flagged `isLocal`. The model covers these parts:

- **App** (`app.dfy`). The application state with its order list, stores, catalog, view and toast. It implements:
  - loading, which merges a fetched snapshot with the staged orders;
  - the sync button, which uploads and then reloads;
  - deleting a staged order;
  - the callbacks that append orders and replace the stores and the catalog.
- **OrderForm** (`orderform.dfy`). The order entry form:
  - stores closed on the chosen date are hidden;
  - picking a store applies its default rows and time;
  - the row editor and its quantity stepper;
  - the submit decision: missing fields, then no valid row, then duplicates;
  - the duplicate warning with its confirm and cancel buttons;
  - emitting one staged order per row.
- **TimeFormat** (`timeformat.dfy`). The `(\d{1,2}):(\d{2})` time normalisation. Four components share it. Without a match the order form falls back to "08:00", and the three display helpers (store list, calendar, order list) show the first five characters.
- **Summary** (`summary.dfy`). The production summary. Pending quantities are summed per date and item, by the same reduce the component uses. It also covers the ascending date list and the catalog cards shown per date.
- **Calendar** (`calendar.dfy`). The delivery calendar:
  - grouping orders by date;
  - the month grid of blank and day cells keyed `YYYY-MM-DD`;
  - each cell's badge, its three preview lines and the "+ n more" line;
  - the day detail, sorted in place by delivery time.
- **Preview** (`preview.dfy`). The order list: a sorted copy by date, then time; the date column without the year; the count; and delete buttons on staged orders only.
- **Stores** (`stores.dfy`). Store management:
  - the holiday toggle on a sorted date list;
  - adding with duplicate-name refusal, editing by name, and deleting;
  - the default items editor and its stepper;
  - the holiday grid;
  - the editor state, `editingStore`, `newStore` and `isAdding`.
- **Products** (`products.dfy`). Catalog management: adding, removing by position, and editing one row through an edit buffer.

## How the model is built

Data and state:

- Components that hold React state become classes.
  - `App.AppState`, `OrderForm.OrderFormState`, `Calendar.CalendarState`, `Stores.StoreEditor` and `Products.ProductEditor` update their fields in methods.
  - `App.AppState` is the application's state. The child components receive it and change only the fields their callbacks reach, for example `modifies app\`stores`.
- Pure derivations are functions, with lemmas about them. These derivations are the filters, the reduce, the sorts and the formatting helpers.
- In-place sorting of the day detail keeps the JavaScript array as a Dafny `array`.
- Every order carries `ref`, which stands for the identity of its JavaScript object. `deleteOrder` compares objects with `!==`. The order form creates a new object for each row (`components/OrderForm.tsx:231`). The model therefore requires the form's first identity, `firstRef`, to lie above every identity in the list (`App.RefsBelow`). It proves that the new orders differ from every existing one and that a list of distinct objects (`App.DistinctRefs`) stays distinct. On such a list a delete removes exactly the clicked entry (`App.DeleteRemovesOne`).

Outside effects:

- The network is not modelled. A load receives its outcome as a `FetchResult`, either the fetched graph or a failure. A sync also receives whether its upload succeeded.
- Toast texts become an enumerated `Message`.
- Confirmation dialogs and alerts become a boolean argument or result.

Ordering:

- Dates and times are compared in code-point lexicographic order, `Strings.LexLe`. For `YYYY-MM-DD` and `HH:MM` strings this is the same order as `Date` arithmetic and `localeCompare`.

Four behaviours are modelled as the code is written, although the user interface suggests otherwise:

- **Duplicate override.** The warning only asks whether to submit the same rows anyway, so one expects the rows submit would admit. The confirm button instead re-filters the rows more weakly than submit does. It keeps rows with an item and a non-blank quantity, so a zero or negative quantity gets through (`components/OrderForm.tsx:290`). See `OrderForm.OverrideIsWeaker` and `OrderForm.OverrideAdmitsNonPositive`.
- **Sync in other views.** The sync button reads as uploading unsaved work. A sync from the stores or products view saves that collection. The staged orders are then dropped without being uploaded (`App.tsx:59-68`). See `App.AppState.SyncToCloud`.
- **Failed reload after upload.** The orders uploaded by a sync are cleared before the reload (`App.tsx:68-69`). If that reload fails, only the remote orders remain, and the toast reports a load failure.
- **Idempotent load.** Loading the same snapshot twice gives the same list only when the snapshot contains no staged order. See `App.LoadIdempotent`.

One more behaviour is shown by a lemma: `Products.RemoveWhileEditingOverwritesNext`. Product editing works by position. Removing an earlier row while a row is being edited makes the save overwrite the next product.

## Model

| member | source | states |
|---|---|---|
| App.LocalOnly | App.tsx:29 | the staged orders are exactly the orders flagged `isLocal` |
| App.RemoteOnly | App.tsx:68 | what survives the pre-reload clear is exactly the orders not flagged `isLocal` |
| App.SplitCounts | App.tsx:29 | every copy of an order lands in exactly one of the two filters; together they give back the list as a multiset |
| App.MergeLoad | App.tsx:28-31 | after a load the fetched orders come first, unchanged; an order is present iff it was fetched or was staged before |
| App.MergeLoadCounts | App.tsx:28-31 | a load keeps every copy of every fetched and every staged order and drops the previously loaded ones |
| App.WithoutIdentical | App.tsx:82 | the target is gone, every other order keeps its count, and the length drops by the target's count |
| App.DropCount | App.tsx:82 | the filter's length is the input length minus the number of copies of the target |
| App.AdmitThenLoad | App.tsx:28-31 | admitting staged orders and then loading gives the load of the earlier list followed by the admitted orders: staged work survives a reload, in order |
| App.LoadIdempotent | App.tsx:28-31 | when the snapshot holds no staged order, loading it twice equals loading it once |
| App.DeleteRemovesOne | App.tsx:82 | on a list of distinct objects the identity filter removes one entry when the target is present and none otherwise, and the list stays distinct |
| App.ClearThenLoad | App.tsx:68-69 | clearing the staged orders and then loading leaves exactly the fetched orders |
| App.AppState.constructor | App.tsx:13-19 | empty collections, loading, not syncing, orders view, no message |
| App.AppState.LoadData | App.tsx:21-38 | on success it replaces stores and catalog and merges orders; on failure it changes no data and reports `LoadFailed`; the loading flag ends cleared when it was raised |
| App.AppState.AddOrder | App.tsx:187 | appends exactly one order and touches nothing else |
| App.AppState.DeleteOrder | App.tsx:80-86 | a staged order is removed (all identical entries); a saved one is kept and the user alerted; on a list of distinct objects exactly the clicked entry goes and the list stays distinct |
| App.AppState.SetView | App.tsx:112 | the view becomes the chosen one |
| App.AppState.SetStores | App.tsx:194 | `onUpdateStores` replaces the stores and nothing else |
| App.AppState.SetProducts | App.tsx:195 | `onUpdateProducts` replaces the catalog and nothing else |
| App.AppState.SyncToCloud | App.tsx:44-78 | the request depends on the view; with no staged order in the orders view nothing is sent; a failed upload keeps every collection for a retry; a successful upload followed by a successful reload leaves exactly the fetched collections; a failed reload leaves only the remote orders; after a successful upload no staged order remains unless the reload returned it; syncing ends cleared |
| TimeFormat.MatchAt | components/OrderForm.tsx:47-51 | a match at one position is already zero-padded `HH:MM` |
| TimeFormat.FirstMatchFrom | components/OrderForm.tsx:47 | no match iff no position matches; otherwise the match at the leftmost matching position |
| TimeFormat.FormatTimeStr | components/OrderForm.tsx:45-54 | always `HH:MM`; "08:00" for an empty or unmatched input, otherwise the first match |
| TimeFormat.FormatDisplayTime | components/CalendarView.tsx:29-38 | "08:00" for empty input, the first match as `HH:MM`, otherwise the first five characters |
| TimeFormat.ClockMatchesItself | components/OrderForm.tsx:47 | an `HH:MM` string is its own first match |
| TimeFormat.FormatTimeStrIdempotent | components/OrderForm.tsx:45-54 | normalising twice equals normalising once |
| TimeFormat.DisplayOfNormalised | components/OrderPreview.tsx:27-36 | the display of a normalised time is that time |
| TimeFormat.FormatPadsHour | components/OrderForm.tsx:49 | "9:30" becomes "09:30" |
| TimeFormat.FormatSkipsDatePrefix | components/StoreManagement.tsx:22-23 | a leading date is skipped: "2024-05-01 07:45" gives "07:45" |
| TimeFormat.FallbacksDiffer | components/OrderForm.tsx:53 | without a match the form falls back to "08:00" while the display keeps the text |
| Strings.LexLeIsTotalOrder | components/Summary.tsx:30 | the string order used for dates and times is total, transitive and antisymmetric |
| Strings.NatToStringRoundTrip | components/CalendarView.tsx:56 | the decimal digits written for a number read back as that number |
| Strings.TwoDigits | components/CalendarView.tsx:56 | `String(n).padStart(2, '0')` below 100 is two digits reading back as `n` |
| OrderForm.AvailableStores | components/OrderForm.tsx:101 | a store is offered iff the date is not among its holidays |
| OrderForm.AvailableStoresKeepsOrder | components/OrderForm.tsx:101 | the offered stores keep the store list's order |
| OrderForm.HolidayExcludesOnlyThatDate | components/OrderForm.tsx:101 | a store closed on 2024-05-01 is offered exactly on the other dates |
| OrderForm.FindFrom | components/OrderForm.tsx:109 | the first position with the name, or none iff no store has it |
| OrderForm.FindStore | components/OrderForm.tsx:109 | none iff no store has the name; otherwise the first store with that name |
| OrderForm.ValidRows | components/OrderForm.tsx:193 | exactly the rows with an item and a positive quantity |
| OrderForm.OverrideRows | components/OrderForm.tsx:290 | exactly the rows with an item and a non-blank quantity |
| OrderForm.OverrideIsWeaker | components/OrderForm.tsx:290 | the override keeps every row submit keeps, in the same order |
| OrderForm.OverrideAdmitsNonPositive | components/OrderForm.tsx:290 | a row with quantity zero or less is refused by submit and admitted by the override |
| OrderForm.AnyOrderFor | components/OrderForm.tsx:202-206 | true iff some existing order has the same date, store and item |
| OrderForm.FlaggedRows | components/OrderForm.tsx:201-207 | exactly the rows colliding with an existing order |
| OrderForm.ConflictsExactlyDuplicates | components/OrderForm.tsx:201-217 | a row is in the warning iff an existing order, staged or saved and of any quantity, shares its date, store and item |
| OrderForm.ConflictsSnoc | components/OrderForm.tsx:201-217 | the warning grows by one entry exactly for a colliding row |
| OrderForm.FindDuplicates | components/OrderForm.tsx:200-217 | the loop collects exactly the warning, in row order |
| OrderForm.Adjusted | components/OrderForm.tsx:173-177 | the stepped quantity is at least 1 and is the sum whenever that is at least 1 |
| OrderForm.ReviewDecides | components/OrderForm.tsx:183-226 | missing fields are reported first; a submit is refused iff a field is missing or no row is valid; a warning lists the duplicates and is never empty; admission happens iff no valid row collides |
| OrderForm.AppendsOrdersForSnoc | components/OrderForm.tsx:230-240 | emitting the next row extends the list by that row's staged pending order |
| OrderForm.FreshOrdersStayDistinct | components/OrderForm.tsx:230-240 | orders created with identities from `firstRef` on, above every existing one, equal no existing order and keep a list of distinct objects distinct |
| OrderForm.OrderFormState.constructor | components/OrderForm.tsx:56-68 | today's date, 08:00, no store, one blank row, no error and no warning |
| OrderForm.OrderFormState.SelectDate | components/OrderForm.tsx:103-106 | the date becomes the chosen one |
| OrderForm.OrderFormState.SetDeliveryTime | components/OrderForm.tsx:404 | the time keeps at most the first five characters typed |
| OrderForm.OrderFormState.ApplyStoreDefaults | components/OrderForm.tsx:108-124 | with the store found: its normalised time when it has one, and its default rows when it has any; it reports whether rows were applied |
| OrderForm.OrderFormState.HandleStoreChange | components/OrderForm.tsx:126-136 | the store is selected; a non-empty name applies the defaults or resets to one blank row |
| OrderForm.OrderFormState.AddRow | components/OrderForm.tsx:149-151 | one blank row is appended |
| OrderForm.OrderFormState.RemoveRow | components/OrderForm.tsx:153-159 | the indexed row goes; the only row is replaced by a blank one |
| OrderForm.OrderFormState.ClearRows | components/OrderForm.tsx:161-165 | once confirmed, a single blank row |
| OrderForm.OrderFormState.UpdateRowItem | components/OrderForm.tsx:167-171 | only that row's item changes |
| OrderForm.OrderFormState.UpdateRowQuantity | components/OrderForm.tsx:167-171 | only that row's quantity changes |
| OrderForm.OrderFormState.AdjustQuantity | components/OrderForm.tsx:173-177 | only that row changes, and its quantity is at least 1 |
| OrderForm.OrderFormState.ProcessSubmission | components/OrderForm.tsx:228-248 | one staged pending order per row, in row order, with the normalised time and a new identity, so no new order equals an existing one and distinct objects stay distinct; then one blank row, no store and no warning; the app's other fields are untouched |
| OrderForm.OrderFormState.Judge | components/OrderForm.tsx:186-223 | the checks compute the decision and the valid rows |
| OrderForm.OrderFormState.HandleSubmit | components/OrderForm.tsx:183-226 | when refused, the error is set and nothing changes; when warned, the warning is set and nothing is admitted; otherwise every valid row is admitted as a new object and the form reset |
| OrderForm.OrderFormState.ConfirmDuplicates | components/OrderForm.tsx:290 | admits the override rows as new objects and resets the form |
| OrderForm.OrderFormState.CancelDuplicates | components/OrderForm.tsx:284 | the warning is dismissed and nothing is admitted |
| Summary.PendingOrders | components/Summary.tsx:13 | exactly the pending orders, staged or not |
| Summary.DatesOfExist | components/Summary.tsx:24-28 | a date is a key iff a pending order falls on it |
| Summary.ItemsOnExist | components/Summary.tsx:24-28 | an item is a key of a date iff a pending order of it falls on that date |
| Summary.ItemsOnWithinDates | components/Summary.tsx:24-28 | an item appears under a date only when that date is a key |
| Summary.QuantityOutside | components/Summary.tsx:24-28 | an item with no pending order on a date totals zero there |
| Summary.SummaryEntries | components/Summary.tsx:24-28 | a date key iff a pending order on it; an item key iff a pending order of it on that date; the entry is the sum of those quantities |
| Summary.QuantityAppend | components/Summary.tsx:24-28 | totals add over concatenation |
| Summary.CompletedIgnored | components/Summary.tsx:13 | appending a completed order leaves the summary unchanged |
| Summary.AddTo | components/Summary.tsx:25-26 | the reducer step adds the order's date to the keys and leaves every other date alone |
| Summary.SnocOwnDate | components/Summary.tsx:25-26 | on the order's date the step equals the reference summary of the longer list |
| Summary.SnocOtherDate | components/Summary.tsx:25-26 | on another date the step changes nothing |
| Summary.SummarySnoc | components/Summary.tsx:24-28 | one reducer step takes the summary of a prefix to the summary of the next prefix |
| Summary.SummaryOfPending | components/Summary.tsx:13 | summarising the pending part equals summarising everything |
| Summary.QuantityPermutation | components/Summary.tsx:24-28 | totals do not depend on the order of the orders |
| Summary.SummaryPermutation | components/Summary.tsx:24-28 | the summary does not depend on the order of the orders |
| Summary.GrandTotalAddTo | components/Summary.tsx:26 | a reducer step raises the sum of all totals by the order's quantity |
| Summary.GrandTotalIsPendingQuantity | components/Summary.tsx:24-28 | the totals add up to the sum of all pending quantities: no quantity is lost or counted twice |
| Summary.ReduceIsSummary | components/Summary.tsx:24-28 | over pending orders the reduce builds exactly the reference summary |
| Summary.ReducePending | components/Summary.tsx:13-28 | reducing the pending orders gives the summary of the whole list |
| Summary.KeysStep | components/Summary.tsx:25 | a date joins the key list exactly when the step creates its entry |
| Summary.DateSummaryMap | components/Summary.tsx:24-28 | the loop builds the reference summary, and its keys in insertion order: the pending orders' dates in order of first occurrence, each once |
| Summary.FirstDatesSnoc | components/Summary.tsx:25 | a new date joins the insertion-order key list at its end; a known date leaves it alone |
| Summary.FirstDatesMembers | components/Summary.tsx:24-28 | the insertion-order key list holds each present date once and nothing else |
| Summary.FirstDatesPrefix | components/Summary.tsx:25 | a date keeps its place once inserted: an earlier prefix's key list is a prefix of the whole one |
| Summary.SortedDates | components/Summary.tsx:30 | the sorted dates are a permutation of the keys |
| Summary.SortedDatesAscending | components/Summary.tsx:30 | the sorted dates list each key once, strictly ascending |
| Summary.ShownProducts | components/Summary.tsx:67-68 | a catalog item gets a card iff its total on the date exists and is not zero |
| Summary.ShownProductsKeepsOrder | components/Summary.tsx:67-68 | the cards keep catalog order |
| Summary.UncataloguedHidden | components/Summary.tsx:67-68 | an item missing from the catalog gets no card |
| Summary.WorkedExample | components/Summary.tsx:24-28 | 5+3 noodles pending and 2 completed on May 1, and 4 buns on May 2, give `{May 1: {noodle: 8}, May 2: {bun: 4}}` |
| Calendar.OnDate | components/CalendarView.tsx:41-45 | exactly the orders on that date, in input order |
| Calendar.OnDateSnoc | components/CalendarView.tsx:43 | pushing an order extends only its own date's group |
| Calendar.PushedKeys | components/CalendarView.tsx:42-43 | after a push a date is a key iff some order so far has it |
| Calendar.PushedGroup | components/CalendarView.tsx:42-43 | after a push each group is exactly its date's orders so far, in order |
| Calendar.GroupStep | components/CalendarView.tsx:42-43 | one reducer step keeps the grouping exact |
| Calendar.GroupByDate | components/CalendarView.tsx:41-45 | a date is a key iff some order has it, and its group is that date's orders in input order |
| Calendar.DayOrders | components/CalendarView.tsx:57 | a day's group, or empty |
| Calendar.GroupedOnce | components/CalendarView.tsx:41-45 | each order is in its own date's group and in no other |
| Calendar.DateKeyShape | components/CalendarView.tsx:56 | for a four-digit year the key is `YYYY-MM-DD` whose fields read back as the year, month + 1 and day |
| Calendar.DateKeyInjective | components/CalendarView.tsx:56 | two days of a month get the same key iff they are the same day |
| Calendar.BuildDays | components/CalendarView.tsx:47-57 | the grid is `firstDayOfMonth` blanks followed by one cell per day with its key and its group |
| Calendar.DayCellsNumbered | components/CalendarView.tsx:54-56 | the day cells number the days in order, with distinct keys |
| Calendar.AnyLocal | components/CalendarView.tsx:74 | true iff some order of the day is staged |
| Calendar.BadgeOf | components/CalendarView.tsx:72-76 | a badge iff the day has orders; it shows the count and is marked pending iff some order is staged |
| Calendar.PreviewLines | components/CalendarView.tsx:81 | the first three orders, or all of them |
| Calendar.MoreLine | components/CalendarView.tsx:87-89 | present iff more than three orders, showing a positive count |
| Calendar.PreviewAccountsForAll | components/CalendarView.tsx:81-89 | the preview lines and the "more" count add up to the day's orders |
| Calendar.CalendarState.constructor | components/CalendarView.tsx:12 | no day is open |
| Calendar.CalendarState.ClickDay | components/CalendarView.tsx:63 | a day opens only when it has orders |
| Calendar.CalendarState.Close | components/CalendarView.tsx:145 | no day is open |
| Calendar.TimeLeIsTotalPreorder | components/CalendarView.tsx:148 | the time comparator is total and transitive |
| Calendar.SortDetail | components/CalendarView.tsx:148 | the array ends sorted by delivery time and holds the same orders |
| Preview.OrderLeIsTotalPreorder | components/OrderPreview.tsx:13-17 | date-then-time is total and transitive |
| Preview.SortedOrders | components/OrderPreview.tsx:13 | the sorted copy is a permutation of the orders |
| Preview.SortedOrdersOrdered | components/OrderPreview.tsx:13-17 | ascending by date, and by time within a date |
| Preview.Split | components/OrderPreview.tsx:24 | at least one part, none containing the separator |
| Preview.JoinSplit | components/OrderPreview.tsx:24 | joining what was split gives back the string |
| Preview.SplitField | components/OrderPreview.tsx:24 | a separator-free field followed by the separator splits off first |
| Preview.DatePart | components/OrderPreview.tsx:19-24 | an empty date shows nothing |
| Preview.DatePartOfIsoDate | components/OrderPreview.tsx:24 | `Y-M-D` shows as `M/D` |
| Preview.DatePartExample | components/OrderPreview.tsx:24 | "2024-05-01" shows as "05/01" |
| Preview.ListingOf | components/OrderPreview.tsx:51-100 | the count is the number of orders; one line per order in sorted order, with the display time; a delete button iff staged |
| Preview.ListingShowsEveryOrder | components/OrderPreview.tsx:63-81 | every order has a line and every line is an order; only staged lines can be deleted |
| Stores.Without | components/StoreManagement.tsx:35 | exactly the other dates |
| Stores.ToggleHoliday | components/StoreManagement.tsx:32-38 | a present date is removed; an absent one is added; no other date changes |
| Stores.WithoutSorted | components/StoreManagement.tsx:35 | removal keeps the list strictly sorted |
| Stores.InsertSorted | components/StoreManagement.tsx:37 | adding an absent date and sorting gives a strictly sorted list |
| Stores.SortedSetsEqual | components/StoreManagement.tsx:32-38 | two strictly sorted lists with the same dates are equal |
| Stores.ToggleKeepsSorted | components/StoreManagement.tsx:32-38 | the toggle keeps a strictly sorted list strictly sorted |
| Stores.ToggleTwice | components/StoreManagement.tsx:32-38 | toggling a date twice restores the list |
| Stores.AddStore | components/StoreManagement.tsx:51-57 | an empty name is refused silently; a taken name is refused with an alert; otherwise the store is appended |
| Stores.AddKeepsNamesUnique | components/StoreManagement.tsx:53-57 | store names stay unique through an add |
| Stores.SaveEdit | components/StoreManagement.tsx:47 | every store with the edited name is replaced, the others kept, the length unchanged |
| Stores.SaveEditKeepsNames | components/StoreManagement.tsx:47 | names are untouched, so they stay unique; with unique names at most one store changes |
| Stores.DeleteStore | components/StoreManagement.tsx:321 | exactly the stores with another name |
| Stores.AddThenDelete | components/StoreManagement.tsx:57 | deleting a store just added gives back the earlier list |
| Stores.AddDefaultItem | components/StoreManagement.tsx:63-70 | one blank line is appended; no other field changes |
| Stores.RemoveDefaultItem | components/StoreManagement.tsx:72-79 | exactly one copy of the indexed line goes; no other field changes |
| Stores.UpdateDefaultItem | components/StoreManagement.tsx:81-87 | only the indexed line's chosen field changes |
| Stores.StepDown | components/StoreManagement.tsx:234 | `max(1, q - 1)` |
| Stores.StepUp | components/StoreManagement.tsx:241 | the quantity grows |
| Stores.StepRoundTrip | components/StoreManagement.tsx:234 | minus undoes plus and never goes below 1 |
| Stores.HolidayGrid | components/StoreManagement.tsx:89-120 | `firstDayOfMonth` fillers, then one button per day with its key, red iff a holiday |
| Stores.StoreEditor.constructor | components/StoreManagement.tsx:13-15 | not editing, a blank new store, not adding |
| Stores.StoreEditor.Current | components/StoreManagement.tsx:126 | the edited store when editing, otherwise the new store |
| Stores.StoreEditor.Put | components/StoreManagement.tsx:41-42 | an update goes to the edited store when editing, otherwise to the new store |
| Stores.StoreEditor.StartAdding | components/StoreManagement.tsx:141 | adding, not editing |
| Stores.StoreEditor.StartEdit | components/StoreManagement.tsx:315 | editing a copy of the store, not adding |
| Stores.StoreEditor.Cancel | components/StoreManagement.tsx:281 | neither adding nor editing |
| Stores.StoreEditor.SetName | components/StoreManagement.tsx:171-174 | the name changes only on a new store |
| Stores.StoreEditor.SetPhone | components/StoreManagement.tsx:186 | only the phone of the shown store changes; the other slot (the draft new store while editing) is kept |
| Stores.StoreEditor.SetDeliveryTime | components/StoreManagement.tsx:197-200 | the shown store's time becomes the first five characters typed; the other slot (the draft new store while editing) is kept |
| Stores.StoreEditor.ToggleHolidayOf | components/StoreManagement.tsx:108 | the shown store's holidays are toggled at that date; the other slot (the draft new store while editing) is kept |
| Stores.StoreEditor.AddItem | components/StoreManagement.tsx:214 | the shown store gains a blank default line; the other slot (the draft new store while editing) is kept |
| Stores.StoreEditor.RemoveItem | components/StoreManagement.tsx:243 | the shown store loses the indexed line; the other slot (the draft new store while editing) is kept |
| Stores.StoreEditor.UpdateItem | components/StoreManagement.tsx:227 | the shown store's indexed line gets the new field; the other slot (the draft new store while editing) is kept |
| Stores.StoreEditor.HandleSaveEdit | components/StoreManagement.tsx:45-49 | when editing, the stores get the edit by name and the form closes; otherwise nothing changes |
| Stores.StoreEditor.HandleAddStore | components/StoreManagement.tsx:51-60 | the stores become the result of the add; on success the form resets and closes; the alert is shown iff the name was taken |
| Stores.StoreEditor.Confirm | components/StoreManagement.tsx:288 | the save button adds when adding, with the alert iff the name is taken and the form reset iff the add succeeded; otherwise it saves the edit and closes the form |
| Stores.StoreEditor.Delete | components/StoreManagement.tsx:321 | once confirmed, every store with that name goes |
| Products.AddProduct | components/ProductManagement.tsx:16-20 | an empty name or unit adds nothing; otherwise the product is appended |
| Products.ReplaceAt | components/ProductManagement.tsx:35-36 | in range only that position changes; at the end it appends |
| Products.ReplaceWithSame | components/ProductManagement.tsx:35-36 | saving an untouched buffer changes nothing |
| Products.ReplaceTwice | components/ProductManagement.tsx:35-36 | of two saves at one position the later wins |
| Products.RemoveTakesOneCopy | components/ProductManagement.tsx:24 | removal takes exactly one copy of that product |
| Products.AddThenRemoveLast | components/ProductManagement.tsx:18 | adding and then removing the last position restores the catalog |
| Products.RemoveWhileEditingOverwritesNext | components/ProductManagement.tsx:28-40 | editing B in [A, B, C], removing A and saving gives [B, B]: C is lost |
| Products.ProductEditor.constructor | components/ProductManagement.tsx:12-14 | a blank product with unit 斤, no row in edit mode, no buffer |
| Products.ProductEditor.SetNewName | components/ProductManagement.tsx:60 | only the new product's name changes |
| Products.ProductEditor.SetNewUnit | components/ProductManagement.tsx:70 | only the new product's unit changes |
| Products.ProductEditor.HandleAdd | components/ProductManagement.tsx:16-20 | the catalog gets the add; the form resets only when something was added |
| Products.ProductEditor.HandleRemove | components/ProductManagement.tsx:22-26 | once confirmed, the position is removed |
| Products.ProductEditor.StartEdit | components/ProductManagement.tsx:28-31 | the row is in edit mode with a copy of its product |
| Products.ProductEditor.SetBufferName | components/ProductManagement.tsx:91 | only the buffer's name changes |
| Products.ProductEditor.SetBufferUnit | components/ProductManagement.tsx:96 | only the buffer's unit changes |
| Products.ProductEditor.CancelEdit | components/ProductManagement.tsx:111 | leaves edit mode |
| Products.ProductEditor.SaveEdit | components/ProductManagement.tsx:33-40 | without an edited row or a buffer nothing happens; otherwise the buffer is written at the index and edit mode ends |

## Left out

- The transport to the remote sheet (`services/api.ts`) is not part of this model. Fetch and upload outcomes are arguments.
- JavaScript `Date` arithmetic is not modelled. This covers the weekday of the first of the month, the number of days in a month, `changeMonth`/`goToToday`/`viewDate`, the "today" highlight, the form's date picker grid, and today's date for the form's initial state. The grids take `firstDayOfMonth` and `daysInMonth` as inputs.
- `formatDateWithDay` is not modelled. The weekday suffix (`(一)` and so on) needs `Date`. `Preview.DatePart` models only the date part of the order list's column. Summary's heading is modelled as the date key itself.
- The toast DOM element, `window.scrollTo`, the 4-second message auto-clear, the loading screen and the click-outside listener are presentation only.
- `isProcessing` is not modelled: it is set and cleared inside one synchronous call and is never seen.
- `localeCompare` collation and `Array.prototype.sort`'s UTF-16 order are modelled as code-point order. They agree on the ASCII `YYYY-MM-DD` and `HH:MM` strings the application stores.
- Preview.OrderLeIsTotalPreorder: dates compare by string order, not by `new Date(...).getTime()`. Malformed dates, where that yields NaN, and differently written equal dates are not modelled.
- Calendar.SortDetail and Preview.SortedOrders: the result is defined through `Seqs.SortBy`. That is an insertion sort that places each element after the ones equal to it, so the result is the output of a stable sort, which JavaScript's sort also gives. Only the result is modelled, not the algorithm the engine runs.
- `Number(...)` coercion of arbitrary input text is replaced by `Qty = Blank | Num(n)` with integer quantities. Fractional quantities are not modelled.
- The Order fields `createdAt` and `id` are not used by the core and are not modelled.
- App.AppState.SyncToCloud: the upload and the reload are one step. Events during the awaits are not modelled: adding, deleting, switching the view, a manual reload racing the sync's own. So an order staged during the upload, which `App.tsx:68` drops unsent, is not shown.
- Products.ReplaceAt: a save at an index past the end appends the buffer. JavaScript would leave holes; that state is reachable only after removing rows while editing.
- Products.ProductEditor.StartEdit: requires an index in range, since an edit button exists only for an existing row.
- Stores.UpdateDefaultItem: requires an index in range, since the editor calls it only from a rendered line.
- OrderForm.OrderFormState.UpdateRowItem: requires an index in range, since the form calls it only from a rendered row. Past the end, `newRows[index] = …` would leave holes in the array, and that is not modelled.
- OrderForm.OrderFormState.UpdateRowQuantity: requires an index in range, for the same reason as UpdateRowItem.
- The product and store `<select>` options are not modelled: they are read-only rendering of the catalog and the store list.
