/** Records of the remote catalogue and of the unified product shown on screen. */
module Catalogue {
  import opened Common
  import opened Domain

  datatype PictureApiResponse = PictureApiResponse(url: string, description: string)

  /** One element of the remote catalogue (`clothes.json`). */
  datatype ApiProduct = ApiProduct(
    id: int,
    picture: PictureApiResponse,
    name: string,
    category: string,
    likes: int32,
    price: real,
    originalPrice: Option<real>)

  /** A catalogue product together with its local overlay. */
  datatype ProductUiModel = ProductUiModel(
    id: int,
    picture: PictureApiResponse,
    name: string,
    category: string,
    likes: int32,
    price: real,
    originalPrice: Option<real>,
    favorite: bool,
    rate: Option<real>)

  /** The catalogue half of a unified product. */
  function CatalogueOf(p: ProductUiModel): ApiProduct {
    ApiProduct(p.id, p.picture, p.name, p.category, p.likes, p.price, p.originalPrice)
  }

  /** The overlay half of a unified product. */
  function OverlayOf(p: ProductUiModel): ProductLocalInfo {
    ProductLocalInfo(p.id, p.favorite, p.rate)
  }
}
