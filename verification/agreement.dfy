/** Where the three product-list builders (the repository's and the two view
    models') coincide, and where they part. */
module Agreement {
  import opened Common
  import opened Catalogue
  import ProductDao
  import opened GetProductLocalRepository
  import opened ProductUIMapper
  import opened Reconcile
  import GetProductRepository
  import HomeViewModel
  import DetailViewModel
  import opened LocalFallback

  /** The two view models build the same list and leave the same store on every
      input; when the merge is interrupted both stop loading and report the
      same message. */
  lemma ViewModelsAgree(s: HomeViewModel.HomeUiState, ui: DetailViewModel.DetailUiState,
                        fetch: Fetch, fault: WriteFault, store: ProductDao.ProductTable)
    ensures var h := HomeViewModel.GetProducts(s, fetch, fault, store);
            var d := DetailViewModel.GetProducts(ui, fetch, fault, store);
            && h.products == d.products
            && h.store == d.store
            && (Run(fetch, fault, store).failure.Some? ==>
                  && !h.state.isLoading && !d.ui.isLoading
                  && d.ui.error == Some(h.state.error))
  {
  }

  /** When the shared block completes, all three builders return the same list
      and leave the same store. */
  lemma SuccessPathsCoincide(s: HomeViewModel.HomeUiState, ui: DetailViewModel.DetailUiState,
                             fetch: Fetch, fault: WriteFault, store: ProductDao.ProductTable)
    requires Completes(fetch, fault, store)
    ensures var o := GetProductRepository.GetProducts(fetch, fault, store);
            var h := HomeViewModel.GetProducts(s, fetch, fault, store);
            var d := DetailViewModel.GetProducts(ui, fetch, fault, store);
            && o.products == h.products == d.products
            && o.store == h.store == d.store
  {
  }

  /** The repository's placeholder and the view models' differ in name,
      category and original price only. */
  lemma PlaceholdersDiffer(id: int)
    ensures Placeholder(id, RepositoryBlanks).(name := "Produit local inconnu", category := "Inconnu", originalPrice := None)
            == Placeholder(id, ViewModelBlanks)
    ensures Placeholder(id, RepositoryBlanks) != Placeholder(id, ViewModelBlanks)
  {
  }

  /** When the shared block is interrupted, the repository keeps the items it
      merged in front and the view models drop them; behind that prefix both
      list the same stored overlays, in the same order, differing only in the
      invented catalogue half. */
  lemma FallbacksDifferOnlyInPlaceholders(s: HomeViewModel.HomeUiState, fetch: Fetch, fault: WriteFault,
                                          store: ProductDao.ProductTable)
    requires !Completes(fetch, fault, store)
    ensures var run := Run(fetch, fault, store);
            var o := GetProductRepository.GetProducts(fetch, fault, store);
            var h := HomeViewModel.GetProducts(s, fetch, fault, store);
            var infos := GetLocalProductInfo(run.store);
            && o.store == h.store
            && |run.merged| <= |o.products|
            && o.products[..|run.merged|] == run.merged
            && o.products[|run.merged|..] == Entries(infos, RepositoryBlanks)
            && h.products == Entries(infos, ViewModelBlanks)
  {
    FailureIffInterrupted(fetch, fault, store);
    var run := Run(fetch, fault, store);
    var stubs := Entries(GetLocalProductInfo(run.store), RepositoryBlanks);
    assert (run.merged + stubs)[..|run.merged|] == run.merged;
    assert (run.merged + stubs)[|run.merged|..] == stubs;
  }

  /** The corrected repository and the view models return lists of the same
      length carrying the same overlays, equal outright when the merge
      completes. */
  lemma CorrectedMatchesViewModels(s: HomeViewModel.HomeUiState, fetch: Fetch, fault: WriteFault,
                                   store: ProductDao.ProductTable)
    ensures var c := GetProductRepository.GetProductsCorrected(fetch, fault, store);
            var h := HomeViewModel.GetProducts(s, fetch, fault, store);
            && c.store == h.store
            && |c.products| == |h.products|
            && (forall i :: 0 <= i < |h.products| ==> OverlayOf(c.products[i]) == OverlayOf(h.products[i]))
            && (Completes(fetch, fault, store) ==> c.products == h.products)
  {
    FailureIffInterrupted(fetch, fault, store);
    var run := Run(fetch, fault, store);
    if run.failure.Some? {
      EntriesDifferOnlyInBlanks(GetLocalProductInfo(run.store), RepositoryBlanks, ViewModelBlanks);
    }
  }
}
