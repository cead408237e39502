/** The home screen's view model: each coroutine body as one transition from
    (screen state, overlay store) to (screen state, overlay store). */
module HomeViewModel {
  import opened Common
  import opened Domain
  import opened Catalogue
  import ProductDao
  import opened GetProductLocalRepository
  import opened ProductUIMapper
  import opened Reconcile
  import opened LocalFallback

  /** `HomeUiState`; an empty `error` means "no error". */
  datatype HomeUiState = HomeUiState(products: seq<ProductUiModel>, isLoading: bool, error: string)

  /** The state the screen starts from: no products, not loading, no error. */
  const InitialState: HomeUiState := HomeUiState([], false, "")

  /** A screen state together with the overlay store. */
  datatype Home = Home(state: HomeUiState, store: ProductDao.ProductTable)

  const FetchErrorPrefix: string := "Erreur lors de la récupération des produits : "
  const FavoriteError: string := "Impossible de mettre en favori"

  /** `onError`: shows the message and changes nothing else. */
  function OnError(s: HomeUiState, errorMessage: string): (s': HomeUiState)
    ensures s'.error == errorMessage
    ensures s'.products == s.products && s'.isLoading == s.isLoading
  {
    s.(error := errorMessage)
  }

  /** `updateErrorState`: clears the message and changes nothing else. */
  function UpdateErrorState(s: HomeUiState): (s': HomeUiState)
    ensures s'.error == ""
    ensures s'.products == s.products && s'.isLoading == s.isLoading
  {
    s.(error := "")
  }

  /** Acknowledging an error forgets it, and clearing is idempotent. */
  lemma ErrorAcknowledged(s: HomeUiState, errorMessage: string)
    ensures UpdateErrorState(OnError(s, errorMessage)) == UpdateErrorState(s)
    ensures UpdateErrorState(UpdateErrorState(s)) == UpdateErrorState(s)
    ensures s.error == "" ==> UpdateErrorState(s) == s
  {
  }

  /** What the private `getProducts` returns, the state it leaves, and the store. */
  datatype Load = Load(state: HomeUiState, products: seq<ProductUiModel>, store: ProductDao.ProductTable)

  /** `getProducts`: the shared merge; if it is interrupted, partial work is
      dropped, the error is shown, loading stops, and one placeholder per
      stored overlay is returned. */
  function GetProducts(s: HomeUiState, fetch: Fetch, fault: WriteFault, store: ProductDao.ProductTable): (r: Load)
    ensures var run := Run(fetch, fault, store);
            && r.store == run.store
            && (run.failure.None? ==> r.state == s && r.products == run.merged)
            && (run.failure.Some? ==>
                  && r.state == s.(isLoading := false, error := FetchErrorPrefix + run.failure.value)
                  && r.products == Entries(GetLocalProductInfo(run.store), ViewModelBlanks))
  {
    var run := Run(fetch, fault, store);
    if run.failure.None? then Load(s, run.merged, run.store)
    else Load(s.(isLoading := false, error := FetchErrorPrefix + run.failure.value),
              Entries(GetLocalProductInfo(run.store), ViewModelBlanks), run.store)
  }

  /** `fetchProducts`: loading starts with the error cleared; the products are
      then shown and loading stops. The error stays empty unless the merge was
      interrupted, in which case it names the exception. */
  function FetchProducts(s: HomeUiState, fetch: Fetch, fault: WriteFault, store: ProductDao.ProductTable): (r: Home)
    ensures var run := Run(fetch, fault, store);
            && r.store == run.store
            && !r.state.isLoading
            && r.state.products == GetProducts(s, fetch, fault, store).products
            && r.state.error == (if run.failure.None? then "" else FetchErrorPrefix + run.failure.value)
  {
    var started := s.(isLoading := true, error := "");
    var load := GetProducts(started, fetch, fault, store);
    Home(load.state.(products := load.products, isLoading := false), load.store)
  }

  /** After a complete fetch the screen shows the catalogue in order, each
      product with the overlay the store held for it. */
  lemma FetchShowsCatalogue(s: HomeUiState, fetch: Fetch, fault: WriteFault, store: ProductDao.ProductTable)
    requires Completes(fetch, fault, store)
    ensures var r := FetchProducts(s, fetch, fault, store);
            && r.state.error == ""
            && |r.state.products| == |fetch.products|
            && forall j :: 0 <= j < |fetch.products| ==>
                 r.state.products[j] == MapToUiModel(fetch.products[j], GetProductLocalInfo(store, fetch.products[j].id))
  {
  }

  /** When the fetch fails the screen shows one placeholder per stored product,
      ordered by id, keeping each one's favorite flag and rating. */
  lemma FetchFailureShowsPlaceholders(s: HomeUiState, fetch: Fetch, fault: WriteFault, store: ProductDao.ProductTable)
    requires fetch.FetchFailed?
    ensures var r := FetchProducts(s, fetch, fault, store);
            && r.store == store
            && r.state.error == FetchErrorPrefix + fetch.message
            && |r.state.products| == |store|
            && (forall i, j :: 0 <= i < j < |r.state.products| ==> r.state.products[i].id < r.state.products[j].id)
            && forall i :: 0 <= i < |r.state.products| ==>
                 && r.state.products[i].id in store
                 && OverlayOf(r.state.products[i]).ToDto() == store[r.state.products[i].id]
                 && CatalogueOf(r.state.products[i]) == Placeholder(r.state.products[i].id, ViewModelBlanks)
  {
    var r := FetchProducts(s, fetch, fault, store);
    assert r.state.products == Entries(GetLocalProductInfo(store), ViewModelBlanks);
    EntriesOfStore(store, ViewModelBlanks, r.state.products);
  }

  /** The list after a successful toggle: the matching entries get the new
      flag, every other field and entry is kept. */
  function WithFavorite(products: seq<ProductUiModel>, id: int, favorite: bool): (r: seq<ProductUiModel>)
    ensures |r| == |products|
    ensures forall i :: 0 <= i < |products| ==>
              r[i] == if products[i].id == id then products[i].(favorite := favorite) else products[i]
  {
    if |products| == 0 then []
    else
      var p := products[0];
      [if p.id == id then p.(favorite := favorite) else p] + WithFavorite(products[1..], id, favorite)
  }

  /** `toggleFavorite`: the store gets the negation of the flag the caller
      passed, for the caller's id; then the matching list entries take that
      value. If the write throws, only the error changes. */
  function ToggleFavorite(s: HomeUiState, product: ProductUiModel, store: ProductDao.ProductTable, writeFails: bool): (r: Home)
    ensures writeFails ==> r == Home(s.(error := FavoriteError), store)
    ensures !writeFails ==>
              && r.store == UpdateFavoriteStatus(store, product.id, !product.favorite)
              && r.state.isLoading == s.isLoading && r.state.error == s.error
              && |r.state.products| == |s.products|
              && forall i :: 0 <= i < |s.products| ==>
                   && CatalogueOf(r.state.products[i]) == CatalogueOf(s.products[i])
                   && r.state.products[i].rate == s.products[i].rate
                   && r.state.products[i].favorite == (if s.products[i].id == product.id then !product.favorite
                                                      else s.products[i].favorite)
  {
    if writeFails then Home(s.(error := FavoriteError), store)
    else
      var newFavorite := !product.favorite;
      var store' := UpdateFavoriteStatus(store, product.id, newFavorite);
      Home(s.(products := WithFavorite(s.products, product.id, newFavorite)), store')
  }

  /** After a toggle the store and every matching entry agree on the flag. */
  lemma ToggleSyncsStoreAndScreen(s: HomeUiState, product: ProductUiModel, store: ProductDao.ProductTable)
    requires product.id in store
    ensures var r := ToggleFavorite(s, product, store, false);
            forall i :: 0 <= i < |r.state.products| && r.state.products[i].id == product.id ==>
              r.state.products[i].favorite == r.store[product.id].favorite
  {
  }

  /** Toggling, then toggling the updated product, restores the list, and the
      store too when its flag agreed with the caller's. */
  lemma DoubleToggleRestores(s: HomeUiState, product: ProductUiModel, store: ProductDao.ProductTable)
    requires forall i :: 0 <= i < |s.products| && s.products[i].id == product.id ==> s.products[i].favorite == product.favorite
    ensures var once := ToggleFavorite(s, product, store, false);
            var twice := ToggleFavorite(once.state, product.(favorite := !product.favorite), once.store, false);
            && twice.state == s
            && (product.id in store && store[product.id].favorite == product.favorite ==> twice.store == store)
  {
    var once := ToggleFavorite(s, product, store, false);
    var twice := ToggleFavorite(once.state, product.(favorite := !product.favorite), once.store, false);
    assert twice.state.products == s.products;
  }
}
