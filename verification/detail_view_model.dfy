/** The detail screen's view model: each coroutine body as one transition over
    its three observable values (screen state, selected product, share text)
    and the stores it touches. */
module DetailViewModel {
  import opened Common
  import opened Domain
  import opened Catalogue
  import ProductDao
  import UserDao
  import UserRepository
  import opened GetProductLocalRepository
  import opened ProductUIMapper
  import opened Reconcile
  import opened LocalFallback

  /** `DetailUiState`. The source declares `error` as a nullable resource id
      but stores messages in it; here it holds the message. */
  datatype DetailUiState = DetailUiState(
    products: seq<ProductUiModel>,
    isLoading: bool,
    error: Option<string>,
    errorMessage: Option<string>,
    user: Option<User>)

  /** The state the screen starts from. */
  const InitialUiState: DetailUiState := DetailUiState([], false, None, None, None)

  /** The three values the view model exposes. */
  datatype DetailState = DetailState(ui: DetailUiState, productState: Option<ProductUiModel>, shareContent: Option<string>)

  /** The view model's values together with the overlay store. */
  datatype Detail = Detail(vm: DetailState, store: ProductDao.ProductTable)

  const FetchErrorPrefix: string := "Erreur lors de la récupération des produits : "
  const NotFoundError: string := "Produit non trouvé"
  const FavoriteError: string := "Impossible de mettre en favori"
  const SharePrefix: string := "Découvrez ce produit : "
  const UserNotFoundError: string := "User not found"

  /** The user the screen asks for. */
  const CurrentUserId: int := 1

  /** What the private `getProducts` returns, the screen state it leaves, and the store. */
  datatype Load = Load(ui: DetailUiState, products: seq<ProductUiModel>, store: ProductDao.ProductTable)

  /** `getProducts`: the shared merge; if it is interrupted, partial work is
      dropped, the error is shown, loading stops, and one placeholder per
      stored overlay is returned. */
  function GetProducts(ui: DetailUiState, fetch: Fetch, fault: WriteFault, store: ProductDao.ProductTable): (r: Load)
    ensures var run := Run(fetch, fault, store);
            && r.store == run.store
            && (run.failure.None? ==> r.ui == ui && r.products == run.merged)
            && (run.failure.Some? ==>
                  && r.ui == ui.(isLoading := false, error := Some(FetchErrorPrefix + run.failure.value))
                  && r.products == Entries(GetLocalProductInfo(run.store), ViewModelBlanks))
  {
    var run := Run(fetch, fault, store);
    if run.failure.None? then Load(ui, run.merged, run.store)
    else Load(ui.(isLoading := false, error := Some(FetchErrorPrefix + run.failure.value)),
              Entries(GetLocalProductInfo(run.store), ViewModelBlanks), run.store)
  }

  /** `find { it.id == id }`: the first entry with the id, or `null`. */
  function Find(products: seq<ProductUiModel>, id: int): (r: Option<ProductUiModel>)
    ensures r.None? <==> forall i :: 0 <= i < |products| ==> products[i].id != id
    ensures r.Some? ==> exists i :: 0 <= i < |products| && products[i] == r.value && r.value.id == id
                                    && forall j :: 0 <= j < i ==> products[j].id != id
  {
    if |products| == 0 then None
    else if products[0].id == id then Some(products[0])
    else
      var r := Find(products[1..], id);
      assert forall i :: 1 <= i < |products| ==> products[i] == products[1..][i - 1];
      r
  }

  /** `fetchProductDetails`: loading starts with the error cleared; if the
      merged list has the product, the screen lists just that product and it
      becomes the selected one, otherwise the screen shows "not found" and keeps
      its products and selection. Loading stops either way. */
  function FetchProductDetails(vm: DetailState, productId: int, fetch: Fetch, fault: WriteFault,
                               store: ProductDao.ProductTable): (r: Detail)
    ensures var load := GetProducts(vm.ui.(isLoading := true, error := Some("")), fetch, fault, store);
            && r.store == load.store
            && !r.vm.ui.isLoading
            && r.vm.shareContent == vm.shareContent
            && r.vm.ui.user == vm.ui.user && r.vm.ui.errorMessage == vm.ui.errorMessage
            && (Find(load.products, productId).Some? ==>
                  && r.vm.ui.products == [Find(load.products, productId).value]
                  && r.vm.productState == Find(load.products, productId)
                  && r.vm.ui.error == load.ui.error)
            && (Find(load.products, productId).None? ==>
                  && r.vm.ui.products == vm.ui.products
                  && r.vm.productState == vm.productState
                  && r.vm.ui.error == Some(NotFoundError))
  {
    var started := vm.ui.(isLoading := true, error := Some(""));
    var load := GetProducts(started, fetch, fault, store);
    match Find(load.products, productId)
    case Some(p) => Detail(vm.(ui := load.ui.(products := [p], isLoading := false), productState := Some(p)), load.store)
    case None => Detail(vm.(ui := load.ui.(isLoading := false, error := Some(NotFoundError))), load.store)
  }

  /** With a complete merge, a product of the catalogue is selected with the
      overlay the store held for it, and the error stays cleared. */
  lemma DetailsOfCatalogueProduct(vm: DetailState, fetch: Fetch, fault: WriteFault, store: ProductDao.ProductTable, j: nat)
    requires Completes(fetch, fault, store) && j < |fetch.products|
    requires forall i :: 0 <= i < j ==> fetch.products[i].id != fetch.products[j].id
    ensures var api := fetch.products[j];
            var r := FetchProductDetails(vm, api.id, fetch, fault, store);
            && r.vm.productState == Some(MapToUiModel(api, GetProductLocalInfo(store, api.id)))
            && r.vm.ui.products == [MapToUiModel(api, GetProductLocalInfo(store, api.id))]
            && r.vm.ui.error == Some("")
  {
    var load := GetProducts(vm.ui.(isLoading := true, error := Some("")), fetch, fault, store);
    assert forall i :: 0 <= i <= j ==> load.products[i].id == fetch.products[i].id;
    FindsFirst(load.products, fetch.products[j].id, j);
  }

  lemma FindsFirst(products: seq<ProductUiModel>, id: int, j: nat)
    requires j < |products| && products[j].id == id
    requires forall i :: 0 <= i < j ==> products[i].id != id
    ensures Find(products, id) == Some(products[j])
  {
    var r := Find(products, id);
    var i :| 0 <= i < |products| && products[i] == r.value && r.value.id == id
             && forall m :: 0 <= m < i ==> products[m].id != id;
    assert !(i < j) && !(j < i);
  }

  /** The likes after a toggle to `favorite`: one more when it becomes a
      favorite, one fewer otherwise, on a 32-bit `Int`: past the largest value
      it wraps to the smallest, and below the smallest to the largest. */
  function LikesAfter(likes: int32, favorite: bool): (r: int32)
    ensures favorite && likes as int < Int32Max ==> r as int == likes as int + 1
    ensures !favorite && Int32Min < likes as int ==> r as int == likes as int - 1
    ensures favorite && likes as int == Int32Max ==> r as int == Int32Min
    ensures !favorite && likes as int == Int32Min ==> r as int == Int32Max
  {
    if favorite then Succ(likes) else Pred(likes)
  }

  /** A product after a toggle to `favorite`. */
  function Toggled(p: ProductUiModel, favorite: bool): (r: ProductUiModel)
    ensures r.favorite == favorite && r.likes == LikesAfter(p.likes, favorite)
    ensures r.(likes := p.likes, favorite := p.favorite) == p
  {
    p.(favorite := favorite, likes := LikesAfter(p.likes, favorite))
  }

  /** The list after a successful toggle: the matching entries are toggled,
      every other entry is kept. */
  function WithToggled(products: seq<ProductUiModel>, id: int, favorite: bool): (r: seq<ProductUiModel>)
    ensures |r| == |products|
    ensures forall i :: 0 <= i < |products| ==>
              r[i] == if products[i].id == id then Toggled(products[i], favorite) else products[i]
  {
    if |products| == 0 then []
    else
      var p := products[0];
      [if p.id == id then Toggled(p, favorite) else p] + WithToggled(products[1..], id, favorite)
  }

  /** `toggleFavorite`: the store gets the negation of the flag the caller
      passed, for the caller's id. The selected product, whatever its id, and
      the matching list entries take that flag, with one like more or fewer;
      no selection stays no selection. If the write throws, only the error
      changes. */
  function ToggleFavorite(vm: DetailState, product: ProductUiModel, store: ProductDao.ProductTable, writeFails: bool): (r: Detail)
    ensures writeFails ==> r == Detail(vm.(ui := vm.ui.(error := Some(FavoriteError))), store)
    ensures !writeFails ==>
              && r.store == UpdateFavoriteStatus(store, product.id, !product.favorite)
              && r.vm.shareContent == vm.shareContent
              && r.vm.ui == vm.ui.(products := r.vm.ui.products)
              && (vm.productState.None? ==> r.vm.productState.None?)
              && (vm.productState.Some? ==> r.vm.productState == Some(Toggled(vm.productState.value, !product.favorite)))
              && |r.vm.ui.products| == |vm.ui.products|
              && forall i :: 0 <= i < |vm.ui.products| ==>
                   r.vm.ui.products[i] == if vm.ui.products[i].id == product.id
                                          then Toggled(vm.ui.products[i], !product.favorite)
                                          else vm.ui.products[i]
  {
    if writeFails then Detail(vm.(ui := vm.ui.(error := Some(FavoriteError))), store)
    else
      var newFavorite := !product.favorite;
      var store' := UpdateFavoriteStatus(store, product.id, newFavorite);
      var selected := match vm.productState
        case None => None
        case Some(p) => Some(Toggled(p, newFavorite));
      Detail(DetailState(vm.ui.(products := WithToggled(vm.ui.products, product.id, newFavorite)), selected, vm.shareContent),
             store')
  }

  /** Toggling back and forth restores every likes count, wrap-around included. */
  lemma LikesRoundTrip(likes: int32, favorite: bool)
    ensures LikesAfter(LikesAfter(likes, favorite), !favorite) == likes
  {
    PredSuccInverse(likes);
  }

  /** Toggling, then toggling the updated product, restores the list and the
      selected product's likes; their flags, and the store's, come back when
      they agreed with the caller's. */
  lemma DoubleToggleRestores(vm: DetailState, product: ProductUiModel, store: ProductDao.ProductTable)
    requires forall i :: 0 <= i < |vm.ui.products| && vm.ui.products[i].id == product.id ==>
               vm.ui.products[i].favorite == product.favorite
    ensures var once := ToggleFavorite(vm, product, store, false);
            var twice := ToggleFavorite(once.vm, product.(favorite := !product.favorite), once.store, false);
            && twice.vm.ui == vm.ui
            && (vm.productState.Some? ==> twice.vm.productState.Some? && twice.vm.productState.value.likes == vm.productState.value.likes)
            && (vm.productState.Some? && vm.productState.value.favorite == product.favorite ==> twice.vm == vm)
            && (product.id in store && store[product.id].favorite == product.favorite ==> twice.store == store)
  {
    var once := ToggleFavorite(vm, product, store, false);
    var twice := ToggleFavorite(once.vm, product.(favorite := !product.favorite), once.store, false);
    forall i | 0 <= i < |vm.ui.products|
      ensures twice.vm.ui.products[i] == vm.ui.products[i]
    {
      LikesRoundTrip(vm.ui.products[i].likes, !product.favorite);
    }
    if vm.productState.Some? {
      LikesRoundTrip(vm.productState.value.likes, !product.favorite);
    }
  }

  /** The text offered for sharing a product. */
  function ShareText(name: string): (t: string)
    ensures |t| == |SharePrefix| + |name|
    ensures t[..|SharePrefix|] == SharePrefix && t[|SharePrefix|..] == name
  {
    SharePrefix + name
  }

  /** Distinct names give distinct share texts: the name can be read back. */
  lemma ShareTextInjective(a: string, b: string)
    requires ShareText(a) == ShareText(b)
    ensures a == b
  {
    assert a == ShareText(a)[|SharePrefix|..];
  }

  /** `prepareShareContent`: only the share text changes, to the prefix
      followed by the product's name. */
  function PrepareShareContent(vm: DetailState, product: ProductUiModel): (r: DetailState)
    ensures r.ui == vm.ui && r.productState == vm.productState
    ensures r.shareContent == Some(ShareText(product.name))
  {
    vm.(shareContent := Some(ShareText(product.name)))
  }

  /** `getUserAndUpdateState`: the whole screen state is replaced: no products,
      not loading, and either user 1 or, when there is no such user, the
      placeholder user with a "not found" error. The user table is only read. */
  function GetUserAndUpdateState(vm: DetailState, users: UserDao.UserTable): (r: DetailState)
    ensures r.productState == vm.productState && r.shareContent == vm.shareContent
    ensures r.ui.products == [] && !r.ui.isLoading && r.ui.errorMessage.None?
    ensures CurrentUserId in users.rows ==>
              && r.ui.user == Some(User.FromDto(users.rows[CurrentUserId]))
              && r.ui.error.None?
    ensures CurrentUserId !in users.rows ==>
              && r.ui.user == Some(User(0, "Unknown", ""))
              && r.ui.error == Some(UserNotFoundError)
  {
    match UserRepository.GetUserById(users, CurrentUserId)
    case Some(user) => vm.(ui := DetailUiState([], false, None, None, Some(user)))
    case None => vm.(ui := DetailUiState([], false, Some(UserNotFoundError), None, Some(User(0, "Unknown", ""))))
  }

  /** Loading the user forgets whatever products the screen listed. */
  lemma UserLoadClearsProducts(vm: DetailState, users: UserDao.UserTable)
    ensures GetUserAndUpdateState(vm, users).ui == GetUserAndUpdateState(vm.(ui := InitialUiState), users).ui
  {
  }
}
