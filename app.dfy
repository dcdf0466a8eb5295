/**
 * The application's top-level state: the combined order list (remote orders
 * plus orders staged in memory, told apart by `isLocal`), the stores and the
 * catalog, and the operations that reconcile them with the remote sheet.
 * The network is not modelled: each call receives the outcome of its fetch
 * or upload as an argument.
 */
module App {
  import opened Wrappers
  import opened Types
  import opened Seqs

  datatype View = OrdersView | StoresView | ProductsView

  /** What `fetchAppData` delivered: the whole object graph, or a thrown error. */
  datatype FetchResult = Fetched(data: AppData) | FetchFailed

  /** The toast the application shows; its Chinese text is reduced to its kind. */
  datatype Message = LoadFailed | NoLocalOrders | OrdersUploaded(count: nat) | StoresSaved | ProductsSaved | SyncFailed

  /** The bulk write a sync sends, if any. */
  datatype SyncRequest =
    | NoRequest
    | SaveOrders(orders: seq<Order>)
    | SaveStores(stores: seq<Store>)
    | SaveProducts(products: seq<Product>)

  predicate IsLocal(o: Order) { o.isLocal }

  predicate IsRemote(o: Order) { !o.isLocal }

  /** `prev.filter(o => o.isLocal)`: the staged orders, in their order. */
  function LocalOnly(s: seq<Order>): (r: seq<Order>)
    ensures forall o :: o in r <==> o in s && o.isLocal
  {
    Filter(IsLocal, s)
  }

  /** `prev.filter(o => !o.isLocal)`: the orders that came from the sheet, in their order. */
  function RemoteOnly(s: seq<Order>): (r: seq<Order>)
    ensures forall o :: o in r <==> o in s && !o.isLocal
  {
    Filter(IsRemote, s)
  }

  /** The two filters split the list: every copy of an order lands in exactly one of them. */
  lemma SplitCounts(s: seq<Order>)
    ensures forall o :: multiset(LocalOnly(s))[o] == if o.isLocal then multiset(s)[o] else 0
    ensures forall o :: multiset(RemoteOnly(s))[o] == if o.isLocal then 0 else multiset(s)[o]
    ensures multiset(LocalOnly(s)) + multiset(RemoteOnly(s)) == multiset(s)
  {
    FilterMultiset(IsLocal, s);
    FilterMultiset(IsRemote, s);
    assert forall o :: (multiset(LocalOnly(s)) + multiset(RemoteOnly(s)))[o] == multiset(s)[o];
  }

  /** The order list after a successful load: the fetched orders, then the orders still staged. */
  function MergeLoad(fetched: seq<Order>, prev: seq<Order>): (r: seq<Order>)
    ensures |fetched| <= |r| && r[..|fetched|] == fetched
    ensures forall o :: o in r <==> o in fetched || (o in prev && o.isLocal)
  {
    fetched + LocalOnly(prev)
  }

  /** A load keeps every copy of every fetched order and of every staged order, and drops the previously loaded ones. */
  lemma MergeLoadCounts(fetched: seq<Order>, prev: seq<Order>)
    ensures forall o :: multiset(MergeLoad(fetched, prev))[o] == multiset(fetched)[o] + if o.isLocal then multiset(prev)[o] else 0
  {
    SplitCounts(prev);
  }

  /** `prev.filter(o => o !== target)`: every entry identical to `target` goes, the rest keep their order. */
  function WithoutIdentical(s: seq<Order>, target: Order): (r: seq<Order>)
    ensures target !in r
    ensures forall o :: o != target ==> multiset(r)[o] == multiset(s)[o]
    ensures |r| == |s| - multiset(s)[target]
  {
    DropCount(s, target);
    FilterMultiset(o => o != target, s);
    Filter(o => o != target, s)
  }

  lemma {:induction false} DropCount(s: seq<Order>, target: Order)
    ensures |Filter(o => o != target, s)| == |s| - multiset(s)[target]
  {
    if s != [] {
      DropCount(s[1..], target);
      assert s == [s[0]] + s[1..];
    }
  }

  // ---------------------------------------------------------------------------
  // Object identity

  /** No two entries of the list are the same JavaScript object. */
  predicate DistinctRefs(s: seq<Order>) {
    forall i, j :: 0 <= i < j < |s| ==> s[i].ref != s[j].ref
  }

  /** Every entry was created before identity `bound` was handed out. */
  predicate RefsBelow(s: seq<Order>, bound: nat) {
    forall i :: 0 <= i < |s| ==> s[i].ref < bound
  }

  /** In a list of distinct objects each order occurs at most once. */
  lemma {:induction false} DistinctRefsOnce(s: seq<Order>, o: Order)
    requires DistinctRefs(s)
    ensures multiset(s)[o] == if o in s then 1 else 0
    decreases |s|
  {
    if s != [] {
      var tail := s[1..];
      assert s == [s[0]] + tail;
      assert DistinctRefs(tail) by {
        forall i, j | 0 <= i < j < |tail| ensures tail[i].ref != tail[j].ref {
          assert tail[i] == s[i + 1] && tail[j] == s[j + 1];
        }
      }
      DistinctRefsOnce(tail, o);
      if s[0] == o {
        forall k | 0 <= k < |tail| ensures tail[k] != o {
          assert tail[k] == s[k + 1];
        }
      }
    }
  }

  /** Filtering a list of distinct objects leaves a list of distinct objects. */
  lemma {:induction false} FilterKeepsDistinctRefs(f: Order -> bool, s: seq<Order>)
    requires DistinctRefs(s)
    ensures DistinctRefs(Filter(f, s))
    decreases |s|
  {
    if s != [] {
      var tail := s[1..];
      assert DistinctRefs(tail) by {
        forall i, j | 0 <= i < j < |tail| ensures tail[i].ref != tail[j].ref {
          assert tail[i] == s[i + 1] && tail[j] == s[j + 1];
        }
      }
      FilterKeepsDistinctRefs(f, tail);
      var rest := Filter(f, tail);
      if f(s[0]) {
        var r := [s[0]] + rest;
        forall k | 0 <= k < |rest| ensures rest[k].ref != s[0].ref {
          assert rest[k] in tail;
          var m :| 0 <= m < |tail| && tail[m] == rest[k];
          assert s[m + 1] == rest[k];
        }
        forall i, j | 0 <= i < j < |r| ensures r[i].ref != r[j].ref {
          assert r[j] == rest[j - 1];
          if i > 0 {
            assert r[i] == rest[i - 1];
          }
        }
      }
    }
  }

  /**
   * `deleteOrder` compares objects, so on a list of distinct objects it removes
   * exactly the clicked entry: one entry fewer when it is present, none otherwise.
   */
  lemma DeleteRemovesOne(s: seq<Order>, target: Order)
    requires DistinctRefs(s)
    ensures DistinctRefs(WithoutIdentical(s, target))
    ensures |WithoutIdentical(s, target)| == if target in s then |s| - 1 else |s|
  {
    DistinctRefsOnce(s, target);
    FilterKeepsDistinctRefs(o => o != target, s);
  }

  /**
   * Staged orders survive a reload and keep their order: loading after a batch
   * of admissions gives what loading before them would have given, followed by the batch.
   */
  lemma {:induction false} AdmitThenLoad(fetched: seq<Order>, prev: seq<Order>, batch: seq<Order>)
    requires forall i :: 0 <= i < |batch| ==> batch[i].isLocal
    ensures MergeLoad(fetched, prev + batch) == MergeLoad(fetched, prev) + batch
  {
    FilterAppend(IsLocal, prev, batch);
    FilterAllPass(IsLocal, batch);
    assert LocalOnly(prev + batch) == LocalOnly(prev) + batch;
    assert fetched + (LocalOnly(prev) + batch) == (fetched + LocalOnly(prev)) + batch;
  }

  /** Loading the same snapshot twice equals loading it once, when the snapshot holds no staged order. */
  lemma {:induction false} LoadIdempotent(fetched: seq<Order>, prev: seq<Order>)
    requires forall i :: 0 <= i < |fetched| ==> !fetched[i].isLocal
    ensures MergeLoad(fetched, MergeLoad(fetched, prev)) == MergeLoad(fetched, prev)
  {
    var staged := LocalOnly(prev);
    assert MergeLoad(fetched, prev) == fetched + staged;
    FilterAppend(IsLocal, fetched, staged);
    FilterNonePass(IsLocal, fetched);
    FilterAllPass(IsLocal, staged);
    assert LocalOnly(fetched + staged) == LocalOnly(fetched) + LocalOnly(staged);
    assert LocalOnly(fetched + staged) == staged;
  }

  /** Dropping the staged orders and then loading leaves exactly the fetched orders. */
  lemma {:induction false} ClearThenLoad(fetched: seq<Order>, prev: seq<Order>)
    ensures MergeLoad(fetched, RemoteOnly(prev)) == fetched
  {
    FilterNonePass(IsLocal, RemoteOnly(prev));
  }

  /** The toast a successful save shows. */
  function SavedMessage(request: SyncRequest): Message {
    match request
    case SaveOrders(batch) => OrdersUploaded(|batch|)
    case SaveStores(_) => StoresSaved
    case SaveProducts(_) => ProductsSaved
    case NoRequest => NoLocalOrders
  }

  class AppState {
    var stores: seq<Store>
    var products: seq<Product>
    var allOrders: seq<Order>
    var loading: bool
    var syncing: bool
    var currentView: View
    var message: Option<Message>

    constructor ()
      ensures stores == [] && products == [] && allOrders == []
      ensures loading && !syncing && currentView == OrdersView && message == None
    {
      stores, products, allOrders := [], [], [];
      loading, syncing := true, false;
      currentView := OrdersView;
      message := None;
    }

    /**
     * `loadData`: on success replaces stores and products and merges the fetched
     * orders with the staged ones; on failure keeps everything and reports it.
     */
    method LoadData(fetch: FetchResult, showLoading: bool)
      modifies this
      ensures syncing == old(syncing) && currentView == old(currentView)
      ensures loading == if showLoading then false else old(loading)
      ensures fetch.Fetched? ==>
        && stores == fetch.data.stores && products == fetch.data.products
        && allOrders == MergeLoad(fetch.data.orders, old(allOrders))
        && message == old(message)
      ensures fetch.FetchFailed? ==>
        && stores == old(stores) && products == old(products) && allOrders == old(allOrders)
        && message == Some(LoadFailed)
    {
      if showLoading {
        loading := true;
      }
      if fetch.Fetched? {
        var merged := MergeLoad(fetch.data.orders, allOrders);
        stores, products, allOrders := fetch.data.stores, fetch.data.products, merged;
      } else {
        message := Some(LoadFailed);
      }
      if showLoading {
        loading := false;
      }
    }

    /** The order form's `onAddOrder`: append one order and touch nothing else. */
    method AddOrder(o: Order)
      modifies this
      ensures allOrders == old(allOrders) + [o]
      ensures stores == old(stores) && products == old(products) && message == old(message)
      ensures loading == old(loading) && syncing == old(syncing) && currentView == old(currentView)
    {
      allOrders := allOrders + [o];
    }

    /** `deleteOrder`: only a staged order can be removed; for a saved one the user is only alerted. */
    method DeleteOrder(target: Order) returns (alerted: bool)
      modifies this
      ensures alerted == !target.isLocal
      ensures allOrders == if target.isLocal then WithoutIdentical(old(allOrders), target) else old(allOrders)
      ensures DistinctRefs(old(allOrders)) ==>
        DistinctRefs(allOrders) && |allOrders| == if target.isLocal && target in old(allOrders) then |old(allOrders)| - 1 else |old(allOrders)|
      ensures stores == old(stores) && products == old(products) && message == old(message)
      ensures loading == old(loading) && syncing == old(syncing) && currentView == old(currentView)
    {
      if target.isLocal {
        if DistinctRefs(allOrders) {
          DeleteRemovesOne(allOrders, target);
        }
        allOrders := WithoutIdentical(allOrders, target);
        alerted := false;
      } else {
        alerted := true;
      }
    }

    method SetView(v: View)
      modifies this`currentView
      ensures currentView == v
    {
      currentView := v;
    }

    /** `onUpdateStores`. */
    method SetStores(s: seq<Store>)
      modifies this`stores
      ensures stores == s
    {
      stores := s;
    }

    /** `onUpdateProducts`. */
    method SetProducts(p: seq<Product>)
      modifies this`products
      ensures products == p
    {
      products := p;
    }

    /**
     * `handleSyncToCloud`. The upload button is disabled while a sync runs, hence
     * `!syncing`. In the orders view the staged orders are uploaded; in the other
     * views the stores or the catalog are. After ANY successful save the staged
     * orders are dropped and the data reloaded, so in the stores and products
     * views staged orders are lost without being uploaded. A failed upload keeps
     * everything for a retry; a failed reload after a successful upload leaves
     * only the remote orders.
     */
    method SyncToCloud(uploadSucceeds: bool, reload: FetchResult) returns (request: SyncRequest)
      requires !syncing
      modifies this
      ensures !syncing && loading == old(loading) && currentView == old(currentView)
      ensures request == match old(currentView)
        case OrdersView => if LocalOnly(old(allOrders)) == [] then NoRequest else SaveOrders(LocalOnly(old(allOrders)))
        case StoresView => SaveStores(old(stores))
        case ProductsView => SaveProducts(old(products))
      ensures request.NoRequest? ==>
        allOrders == old(allOrders) && stores == old(stores) && products == old(products) && message == Some(NoLocalOrders)
      ensures !request.NoRequest? && !uploadSucceeds ==>
        allOrders == old(allOrders) && stores == old(stores) && products == old(products) && message == Some(SyncFailed)
      ensures !request.NoRequest? && uploadSucceeds && reload.Fetched? ==>
        && allOrders == reload.data.orders && stores == reload.data.stores && products == reload.data.products
        && message == Some(SavedMessage(request))
      ensures !request.NoRequest? && uploadSucceeds && reload.FetchFailed? ==>
        allOrders == RemoteOnly(old(allOrders)) && stores == old(stores) && products == old(products) && message == Some(LoadFailed)
      ensures !request.NoRequest? && uploadSucceeds ==>
        forall o :: o in allOrders && o.isLocal ==> reload.Fetched? && o in reload.data.orders
    {
      syncing := true;
      message := None;
      match currentView {
        case OrdersView =>
          var staged := LocalOnly(allOrders);
          if staged == [] {
            request := NoRequest;
            message := Some(NoLocalOrders);
            syncing := false;
            return;
          }
          request := SaveOrders(staged);
        case StoresView =>
          request := SaveStores(stores);
        case ProductsView =>
          request := SaveProducts(products);
      }
      if !uploadSucceeds {
        message := Some(SyncFailed);
        syncing := false;
        return;
      }
      message := Some(SavedMessage(request));
      ghost var before := allOrders;
      allOrders := RemoteOnly(allOrders);
      LoadData(reload, false);
      if reload.Fetched? {
        ClearThenLoad(reload.data.orders, before);
      }
      syncing := false;
    }
  }
}
