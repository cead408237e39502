/** `ProductUIMapper`: one catalogue product plus its optional overlay. */
module ProductUIMapper {
  import opened Common
  import opened Domain
  import opened Catalogue

  /** `mapToUiModel`: the catalogue half is copied from `api`; the overlay half
      comes from `local`, defaulting to "not a favorite" and "not rated". */
  function MapToUiModel(api: ApiProduct, local: Option<ProductLocalInfo>): (r: ProductUiModel)
    ensures CatalogueOf(r) == api
    ensures r.favorite <==> local.Some? && local.value.favorite
    ensures r.rate == (if local.Some? then local.value.rate else None)
  {
    ProductUiModel(api.id, api.picture, api.name, api.category, api.likes, api.price, api.originalPrice,
                   if local.Some? then local.value.favorite else false,
                   if local.Some? then local.value.rate else None)
  }

  /** A missing overlay reads as the default overlay of the product. */
  lemma MissingOverlayIsDefault(api: ApiProduct)
    ensures MapToUiModel(api, None) == MapToUiModel(api, Some(DefaultLocalInfo(api.id)))
  {
  }

  /** The overlay's own id plays no part: the result carries the catalogue id. */
  lemma OverlayIdIgnored(api: ApiProduct, local: ProductLocalInfo, otherId: int)
    ensures MapToUiModel(api, Some(local)) == MapToUiModel(api, Some(local.(id := otherId)))
    ensures MapToUiModel(api, Some(local)).id == api.id
  {
  }

  /** Splitting a unified product into its halves and mapping them back gives
      the product again; mapping a present overlay keeps all of its state. */
  lemma SplitAndMerge(p: ProductUiModel, api: ApiProduct, local: ProductLocalInfo)
    ensures MapToUiModel(CatalogueOf(p), Some(OverlayOf(p))) == p
    ensures OverlayOf(MapToUiModel(api, Some(local))) == local.(id := api.id)
  {
  }
}
