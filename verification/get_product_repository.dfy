/** `GetProductRepository.getProducts`: the shared merge, with a result list
    that lives outside the `try`, so whatever the loop appended before an
    exception stays in front of the fallback entries. */
module GetProductRepository {
  import opened Common
  import opened Domain
  import opened Catalogue
  import ProductDao
  import opened GetProductLocalRepository
  import opened ProductUIMapper
  import opened Reconcile
  import opened LocalFallback

  /** The returned list and the store as the call leaves it. */
  datatype Outcome = Outcome(products: seq<ProductUiModel>, store: ProductDao.ProductTable)

  /** The record the loop builds field by field for one catalogue item. */
  function InlineMerge(api: ApiProduct, local: Option<ProductLocalInfo>): ProductUiModel {
    ProductUiModel(api.id, api.picture, api.name, api.category, api.likes, api.price, api.originalPrice,
                   if local.Some? then local.value.favorite else false,
                   if local.Some? then local.value.rate else None)
  }

  /** The field-by-field record is the one the mapper builds. */
  lemma InlineMergeIsMapper(api: ApiProduct, local: Option<ProductLocalInfo>)
    ensures InlineMerge(api, local) == MapToUiModel(api, local)
  {
  }

  /** `getProducts` as written. A failed fetch gives one stub per stored
      overlay, in store order. A back-fill write that throws after `k` items
      leaves those `k` merged items in the list and appends a stub for every
      overlay then in the store. */
  function GetProducts(fetch: Fetch, fault: WriteFault, store: ProductDao.ProductTable): (o: Outcome)
    ensures var run := Run(fetch, fault, store);
            && o.store == run.store
            && (run.failure.None? ==> o.products == run.merged)
            && (run.failure.Some? ==> o.products == run.merged + Entries(GetLocalProductInfo(run.store), RepositoryBlanks))
  {
    var run := Run(fetch, fault, store);
    if run.failure.None? then Outcome(run.merged, run.store)
    else Outcome(run.merged + Entries(GetLocalProductInfo(run.store), RepositoryBlanks), run.store)
  }

  /** On a successful fetch with no failing write: one entry per catalogue item,
      in catalogue order, its catalogue half copied and its overlay half read
      from the store, or "not a favorite, not rated" when there is none. */
  lemma SuccessMergesEachItem(fetch: Fetch, fault: WriteFault, store: ProductDao.ProductTable)
    requires Completes(fetch, fault, store)
    ensures var o := GetProducts(fetch, fault, store);
            var api := fetch.products;
            && |o.products| == |api|
            && forall j :: 0 <= j < |api| ==>
                 && CatalogueOf(o.products[j]) == api[j]
                 && o.products[j].favorite == (api[j].id in store && store[api[j].id].favorite)
                 && o.products[j].rate == (if api[j].id in store then store[api[j].id].rate else None)
  {
  }

  /** When the fetch fails: one stub per stored overlay, ordered by id, with the
      stored favorite flag and rating; the store is untouched. */
  lemma FetchFailureGivesStubs(fetch: Fetch, fault: WriteFault, store: ProductDao.ProductTable)
    requires fetch.FetchFailed?
    ensures var o := GetProducts(fetch, fault, store);
            && o.store == store
            && |o.products| == |store|
            && (forall i, j :: 0 <= i < j < |o.products| ==> o.products[i].id < o.products[j].id)
            && forall i :: 0 <= i < |o.products| ==>
                 && o.products[i].id in store
                 && OverlayOf(o.products[i]).ToDto() == store[o.products[i].id]
                 && CatalogueOf(o.products[i]) == Placeholder(o.products[i].id, RepositoryBlanks)
  {
    var run := Run(fetch, fault, store);
    assert run.merged == [] && run.store == store;
    var stubs := Entries(GetLocalProductInfo(store), RepositoryBlanks);
    assert GetProducts(fetch, fault, store).products == [] + stubs == stubs;
    EntriesOfStore(store, RepositoryBlanks, stubs);
  }

  /** A back-fill write that throws after `k` items keeps the `k` merged items
      in front: the result is longer than the store by exactly `k`. */
  lemma PartialFailureKeepsPrefix(fetch: Fetch, fault: WriteFault, store: ProductDao.ProductTable)
    requires fetch.Fetched? && !Completes(fetch, fault, store)
    ensures var o := GetProducts(fetch, fault, store);
            var k := StopIndex(fetch.products, store, fault);
            && |o.products| == k + |o.store|
            && o.products[..k] == Run(fetch, fault, store).merged
  {
    var o := GetProducts(fetch, fault, store);
    var run := Run(fetch, fault, store);
    assert (run.merged + Entries(GetLocalProductInfo(run.store), RepositoryBlanks))[..|run.merged|] == run.merged;
  }

  /** The ids listed from position `from` on. */
  function IdsFrom(ps: seq<ProductUiModel>, from: nat): set<int> {
    set i | from <= i < |ps| :: ps[i].id
  }

  /** As written, every id merged before the failing write shows up a second
      time among the stubs: merged ids all have an overlay by then. */
  lemma PartialFailureRepeatsIds(fetch: Fetch, fault: WriteFault, store: ProductDao.ProductTable)
    requires fetch.Fetched? && !Completes(fetch, fault, store)
    ensures var o := GetProducts(fetch, fault, store);
            var k := StopIndex(fetch.products, store, fault);
            forall j :: 0 <= j < k ==> o.products[j].id in IdsFrom(o.products, k)
  {
    var run := Run(fetch, fault, store);
    MergedIdsAreStored(fetch, fault, store);
    var stubs := Entries(GetLocalProductInfo(run.store), RepositoryBlanks);
    EntriesOfStore(run.store, RepositoryBlanks, stubs);
    RepeatsFromCoverage(run.merged, stubs, run.store.Keys,
                        GetProducts(fetch, fault, store).products);
  }

  /** Every id the shared block merged has a row in the store it leaves. */
  lemma MergedIdsAreStored(fetch: Fetch, fault: WriteFault, store: ProductDao.ProductTable)
    requires fetch.Fetched?
    ensures var run := Run(fetch, fault, store);
            forall j :: 0 <= j < |run.merged| ==> run.merged[j].id in run.store
  {
    var api := fetch.products;
    var k := StopIndex(api, store, fault);
    var run := Run(fetch, fault, store);
    assert forall j :: 0 <= j < k ==> run.merged[j] == MapToUiModel(api[j], GetProductLocalInfo(store, api[j].id));
    RunWritesOnlyDefaults(fetch, fault, store);
    ReachedIdsAreStored(api, k, store, run.store, run.merged);
  }

  lemma ReachedIdsAreStored(api: seq<ApiProduct>, k: nat, store: ProductDao.ProductTable,
                            t': ProductDao.ProductTable, merged: seq<ProductUiModel>)
    requires k <= |api| && |merged| == k
    requires forall j :: 0 <= j < k ==> merged[j].id == api[j].id
    requires forall id :: id in t' <==> id in store || exists j :: 0 <= j < k && api[j].id == id
    ensures forall j :: 0 <= j < k ==> merged[j].id in t'
  {
  }

  lemma RepeatsFromCoverage(merged: seq<ProductUiModel>, stubs: seq<ProductUiModel>, keys: set<int>, all: seq<ProductUiModel>)
    requires all == merged + stubs
    requires forall j :: 0 <= j < |merged| ==> merged[j].id in keys
    requires forall id :: id in keys ==> exists i :: 0 <= i < |stubs| && stubs[i].id == id
    ensures forall j :: 0 <= j < |merged| ==> all[j].id in IdsFrom(all, |merged|)
  {
    forall j | 0 <= j < |merged|
      ensures all[j].id in IdsFrom(all, |merged|)
    {
      var m :| 0 <= m < |stubs| && stubs[m].id == merged[j].id;
      assert all[|merged| + m] == stubs[m];
      assert all[j] == merged[j];
    }
  }

  /** Two catalogue products, the first already stored and the second not, in
      a store holding only the first, and a store that rejects the second
      product's back-fill write: the result lists the first product twice. */
  lemma PartialFailureExample(a: ApiProduct, b: ApiProduct, store: ProductDao.ProductTable, message: string)
    requires store.Keys == {a.id} && b.id != a.id
    ensures var o := GetProducts(Fetched([a, b]), WriteFailsAt(1, message), store);
            |o.products| == 2 && o.products[0].id == a.id && o.products[1].id == a.id
  {
    var fetch := Fetched([a, b]);
    var fault := WriteFailsAt(1, message);
    var o := GetProducts(fetch, fault, store);
    ExampleRun(a, b, store, message);
    PartialFailureKeepsPrefix(fetch, fault, store);
    PartialFailureRepeatsIds(fetch, fault, store);
    assert o.products[0] == Run(fetch, fault, store).merged[0];
    SecondOfTwoRepeatsFirst(o.products);
  }

  /** In that example the loop stops after the first product, having merged
      it and left the store as it was. */
  lemma ExampleRun(a: ApiProduct, b: ApiProduct, store: ProductDao.ProductTable, message: string)
    requires store.Keys == {a.id} && b.id != a.id
    ensures var run := Run(Fetched([a, b]), WriteFailsAt(1, message), store);
            && StopIndex([a, b], store, WriteFailsAt(1, message)) == 1
            && !Completes(Fetched([a, b]), WriteFailsAt(1, message), store)
            && |run.merged| == 1 && run.merged[0].id == a.id
            && |run.store| == 1
  {
    var fetch := Fetched([a, b]);
    var fault := WriteFailsAt(1, message);
    assert StopIndex([a, b], store, fault) == 1;
    var run := Run(fetch, fault, store);
    RunWritesOnlyDefaults(fetch, fault, store);
    OnlyReachedIdStored([a, b], store, run.store);
  }

  lemma OnlyReachedIdStored(api: seq<ApiProduct>, store: ProductDao.ProductTable, t': ProductDao.ProductTable)
    requires |api| > 0 && store.Keys == {api[0].id}
    requires forall x :: x in t' <==> x in store || exists j :: 0 <= j < 1 && api[j].id == x
    ensures |t'| == 1
  {
    assert t'.Keys == {api[0].id};
  }

  lemma SecondOfTwoRepeatsFirst(ps: seq<ProductUiModel>)
    requires |ps| == 2 && ps[0].id in IdsFrom(ps, 1)
    ensures ps[1].id == ps[0].id
  {
  }

  /** `getProducts` as its fallback comment describes it: when the merge is
      interrupted, only the stored products are returned. */
  function GetProductsCorrected(fetch: Fetch, fault: WriteFault, store: ProductDao.ProductTable): (o: Outcome)
    ensures var run := Run(fetch, fault, store);
            && o.store == run.store
            && (run.failure.None? ==> o.products == run.merged)
            && (run.failure.Some? ==> o.products == Entries(GetLocalProductInfo(run.store), RepositoryBlanks))
  {
    var run := Run(fetch, fault, store);
    if run.failure.None? then Outcome(run.merged, run.store)
    else Outcome(Entries(GetLocalProductInfo(run.store), RepositoryBlanks), run.store)
  }

  /** No id is listed twice, as long as the catalogue lists none twice. */
  lemma CorrectedIdsDistinct(fetch: Fetch, fault: WriteFault, store: ProductDao.ProductTable)
    requires fetch.Fetched? ==> forall i, j :: 0 <= i < j < |fetch.products| ==> fetch.products[i].id != fetch.products[j].id
    ensures var o := GetProductsCorrected(fetch, fault, store);
            forall i, j :: 0 <= i < j < |o.products| ==> o.products[i].id != o.products[j].id
  {
  }

  /** The correction changes nothing when the merge completes, and on an
      interrupted merge returns exactly the stubs that the as-written version
      appends. */
  lemma CorrectionOnlyDropsPrefix(fetch: Fetch, fault: WriteFault, store: ProductDao.ProductTable)
    ensures var o := GetProducts(fetch, fault, store);
            var c := GetProductsCorrected(fetch, fault, store);
            var run := Run(fetch, fault, store);
            && c.store == o.store
            && (run.failure.None? ==> c.products == o.products)
            && (run.failure.Some? ==> o.products == run.merged + c.products)
  {
  }
}
