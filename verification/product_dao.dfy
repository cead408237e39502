/** The `product` table, keyed by catalogue id, and its four statements. */
module ProductDao {
  import opened Common
  import opened Entities

  /** Each row is stored under its own primary key. */
  type ProductTable = t: map<int, ProductEntity> | forall k :: k in t ==> t[k].id == k
    witness map[]

  /** `SELECT * FROM product WHERE id = :id`. */
  function GetProductLocalInfo(t: ProductTable, id: int): (r: Option<ProductEntity>)
    ensures r.None? <==> id !in t
    ensures r.Some? ==> r.value.id == id && r.value in t.Values
  {
    if id in t then Some(t[id]) else None
  }

  /** `@Insert(onConflict = REPLACE)`: the row for `product.id` becomes `product`,
      whether or not one was there. */
  function InsertOrUpdate(t: ProductTable, product: ProductEntity): (t': ProductTable)
    ensures t'.Keys == t.Keys + {product.id}
    ensures GetProductLocalInfo(t', product.id) == Some(product)
    ensures forall k :: k in t && k != product.id ==> t'[k] == t[k]
  {
    t[product.id := product]
  }

  /** Writing the same row twice leaves the table as writing it once. */
  lemma InsertOrUpdateIdempotent(t: ProductTable, product: ProductEntity)
    ensures InsertOrUpdate(InsertOrUpdate(t, product), product) == InsertOrUpdate(t, product)
  {
  }

  /** The rows stored under `ids`, in the order of `ids`. */
  function RowsAt(t: ProductTable, ids: seq<int>): (rows: seq<ProductEntity>)
    requires forall i :: 0 <= i < |ids| ==> ids[i] in t
    ensures |rows| == |ids|
    ensures forall i :: 0 <= i < |ids| ==> rows[i] == t[ids[i]]
  {
    if |ids| == 0 then [] else [t[ids[0]]] + RowsAt(t, ids[1..])
  }

  /** `SELECT * FROM product`: every row once, in ascending id order, which is
      the order SQLite scans a table whose primary key is an integer. */
  function GetAll(t: ProductTable): (rows: seq<ProductEntity>)
    ensures |rows| == |t|
    ensures forall i, j :: 0 <= i < j < |rows| ==> rows[i].id < rows[j].id
    ensures forall i :: 0 <= i < |rows| ==> rows[i].id in t && t[rows[i].id] == rows[i]
    ensures forall k :: k in t ==> t[k] in rows
  {
    var ids := SortedKeys(t.Keys);
    var rows := RowsAt(t, ids);
    GetAllCoversTable(t, ids, rows);
    rows
  }

  lemma GetAllCoversTable(t: ProductTable, ids: seq<int>, rows: seq<ProductEntity>)
    requires StrictlyIncreasing(ids) && (forall x :: x in ids <==> x in t)
    requires |rows| == |ids| && forall i :: 0 <= i < |ids| ==> ids[i] in t && rows[i] == t[ids[i]]
    ensures forall i :: 0 <= i < |rows| ==> rows[i].id == ids[i]
    ensures forall i, j :: 0 <= i < j < |rows| ==> rows[i].id < rows[j].id
    ensures forall i :: 0 <= i < |rows| ==> rows[i].id in t && t[rows[i].id] == rows[i]
    ensures forall k :: k in t ==> t[k] in rows
  {
    forall i | 0 <= i < |rows|
      ensures rows[i].id == ids[i]
    {
      assert ids[i] in ids;
    }
    forall k | k in t
      ensures t[k] in rows
    {
      assert k in ids;
      var i :| 0 <= i < |ids| && ids[i] == k;
      assert rows[i] == t[k];
    }
  }

  /** `UPDATE product SET favorite = :favorite WHERE id = :id`: an update never
      creates a row. */
  function UpdateFavoriteStatus(t: ProductTable, id: int, favorite: bool): (t': ProductTable)
    ensures t'.Keys == t.Keys
    ensures id in t ==> t'[id].favorite == favorite && t'[id].rate == t[id].rate
    ensures forall k :: k in t && k != id ==> t'[k] == t[k]
    ensures id !in t ==> t' == t
  {
    if id in t then t[id := t[id].(favorite := favorite)] else t
  }
}
