/** The overlay store as the rest of the app sees it: `ProductLocalInfo`
    records over the `product` table. */
module GetProductLocalRepository {
  import opened Common
  import opened Entities
  import opened Domain
  import ProductDao

  /** `rows.map { ProductLocalInfo(0).fromDto(it) }`. */
  function FromDtos(rows: seq<ProductEntity>): (infos: seq<ProductLocalInfo>)
    ensures |infos| == |rows|
    ensures forall i :: 0 <= i < |rows| ==> infos[i] == ProductLocalInfo(0).FromDto(rows[i])
  {
    if |rows| == 0 then [] else [ProductLocalInfo(0).FromDto(rows[0])] + FromDtos(rows[1..])
  }

  /** Every stored overlay, in the table's scan order (ascending id). */
  function GetLocalProductInfo(t: ProductDao.ProductTable): (infos: seq<ProductLocalInfo>)
    ensures |infos| == |t|
    ensures forall i, j :: 0 <= i < j < |infos| ==> infos[i].id < infos[j].id
    ensures forall i :: 0 <= i < |infos| ==> infos[i].id in t && infos[i].ToDto() == t[infos[i].id]
    ensures forall k :: k in t ==> ProductLocalInfo(0).FromDto(t[k]) in infos
  {
    var rows := ProductDao.GetAll(t);
    var infos := FromDtos(rows);
    FromDtosMirrorsRows(t, rows, infos);
    infos
  }

  lemma FromDtosMirrorsRows(t: ProductDao.ProductTable, rows: seq<ProductEntity>, infos: seq<ProductLocalInfo>)
    requires forall i, j :: 0 <= i < j < |rows| ==> rows[i].id < rows[j].id
    requires forall i :: 0 <= i < |rows| ==> rows[i].id in t && t[rows[i].id] == rows[i]
    requires forall k :: k in t ==> t[k] in rows
    requires |infos| == |rows| && forall i :: 0 <= i < |rows| ==> infos[i] == ProductLocalInfo(0).FromDto(rows[i])
    ensures forall i, j :: 0 <= i < j < |infos| ==> infos[i].id < infos[j].id
    ensures forall i :: 0 <= i < |infos| ==> infos[i].id in t && infos[i].ToDto() == t[infos[i].id]
    ensures forall k :: k in t ==> ProductLocalInfo(0).FromDto(t[k]) in infos
  {
    forall k | k in t
      ensures ProductLocalInfo(0).FromDto(t[k]) in infos
    {
      var i :| 0 <= i < |rows| && rows[i] == t[k];
      assert infos[i] == ProductLocalInfo(0).FromDto(t[k]);
    }
  }

  /** The overlay of one product, or `null` when the table has no row for it. */
  function GetProductLocalInfo(t: ProductDao.ProductTable, id: int): (r: Option<ProductLocalInfo>)
    ensures r.None? <==> id !in t
    ensures r.Some? ==> r.value.id == id && r.value.ToDto() == t[id]
  {
    match ProductDao.GetProductLocalInfo(t, id)
    case None => None
    case Some(e) => Some(ProductLocalInfo(e.id, e.favorite, e.rate))
  }

  function InsertOrUpdateProductLocalInfo(t: ProductDao.ProductTable, info: ProductLocalInfo): (t': ProductDao.ProductTable)
    ensures t'.Keys == t.Keys + {info.id}
    ensures forall k :: k in t && k != info.id ==> t'[k] == t[k]
  {
    ProductDao.InsertOrUpdate(t, info.ToDto())
  }

  /** What is written can be read back unchanged. */
  lemma ReadBackAfterWrite(t: ProductDao.ProductTable, info: ProductLocalInfo)
    ensures GetProductLocalInfo(InsertOrUpdateProductLocalInfo(t, info), info.id) == Some(info)
  {
  }

  /** Passes the id and flag to the table unchanged: the row under `id`, if
      any, takes the flag, and nothing else changes. */
  function UpdateFavoriteStatus(t: ProductDao.ProductTable, id: int, favorite: bool): (t': ProductDao.ProductTable)
    ensures t'.Keys == t.Keys
    ensures id in t ==> t'[id] == t[id].(favorite := favorite)
    ensures forall k :: k in t && k != id ==> t'[k] == t[k]
  {
    ProductDao.UpdateFavoriteStatus(t, id, favorite)
  }

  /** Favorite flips are visible through the single-product read, and leave
      the rating alone. */
  lemma FavoriteReadBack(t: ProductDao.ProductTable, id: int, favorite: bool)
    requires id in t
    ensures GetProductLocalInfo(UpdateFavoriteStatus(t, id, favorite), id)
            == Some(ProductLocalInfo(id, favorite, t[id].rate))
  {
  }
}
