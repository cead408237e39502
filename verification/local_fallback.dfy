/** The catch blocks' fallback: when the merge is interrupted, every stored
    overlay is listed beside an invented catalogue half. The repository and
    the two view models build it the same way and differ only in the values
    they invent for name, category and original price. */
module LocalFallback {
  import opened Common
  import opened Domain
  import opened Catalogue
  import ProductDao
  import opened GetProductLocalRepository
  import opened ProductUIMapper
  import opened Reconcile

  /** The values a fallback invents for the catalogue fields that vary between
      the copies; picture, likes and price are always empty, zero and zero. */
  datatype Blanks = Blanks(name: string, category: string, originalPrice: Option<real>)

  /** The repository's choice: empty texts and an original price of zero. */
  const RepositoryBlanks: Blanks := Blanks("", "", Some(0.0))

  /** The view models' choice: placeholder texts and no original price. */
  const ViewModelBlanks: Blanks := Blanks("Produit local inconnu", "Inconnu", None)

  /** The invented catalogue half for a stored id. */
  function Placeholder(id: int, b: Blanks): (a: ApiProduct)
    ensures a.id == id
  {
    ApiProduct(id, PictureApiResponse("", ""), b.name, b.category, 0, 0.0, b.originalPrice)
  }

  /** The fallback entries: one per overlay, in order, keeping its state. */
  function Entries(infos: seq<ProductLocalInfo>, b: Blanks): (r: seq<ProductUiModel>)
    ensures |r| == |infos|
    ensures forall i :: 0 <= i < |infos| ==> OverlayOf(r[i]) == infos[i] && CatalogueOf(r[i]) == Placeholder(infos[i].id, b)
  {
    if |infos| == 0 then [] else [MapToUiModel(Placeholder(infos[0].id, b), Some(infos[0]))] + Entries(infos[1..], b)
  }

  /** Two placeholders for the same id are equal exactly when their invented
      values are. */
  lemma PlaceholderDeterminesBlanks(id: int, b: Blanks, b': Blanks)
    ensures Placeholder(id, b) == Placeholder(id, b') <==> b == b'
  {
    if Placeholder(id, b) == Placeholder(id, b') {
      assert b.name == Placeholder(id, b).name == Placeholder(id, b').name == b'.name;
    }
  }

  /** Fallback lists built from the same overlays with different invented
      values pair up entry for entry with the same overlay, and they are equal
      exactly when there is nothing to list or the invented values agree. */
  lemma EntriesDifferOnlyInBlanks(infos: seq<ProductLocalInfo>, b: Blanks, b': Blanks)
    ensures var e := Entries(infos, b);
            var e' := Entries(infos, b');
            && |e| == |e'|
            && (forall i :: 0 <= i < |e| ==> e[i].id == e'[i].id && OverlayOf(e[i]) == OverlayOf(e'[i]))
            && (e == e' <==> |infos| == 0 || b == b')
  {
    var e := Entries(infos, b);
    var e' := Entries(infos, b');
    if |infos| > 0 && e == e' {
      assert CatalogueOf(e[0]) == CatalogueOf(e'[0]);
      PlaceholderDeterminesBlanks(infos[0].id, b, b');
    }
    if b == b' {
      forall i | 0 <= i < |e|
        ensures e[i] == e'[i]
      {
        SplitAndMerge(e[i], CatalogueOf(e[i]), OverlayOf(e[i]));
        SplitAndMerge(e'[i], CatalogueOf(e'[i]), OverlayOf(e'[i]));
      }
    }
  }

  /** The fallback for a whole store: one entry per row, ordered by id, each
      carrying its row's state beside the invented catalogue half, and every
      row has one. */
  lemma EntriesOfStore(t: ProductDao.ProductTable, b: Blanks, shown: seq<ProductUiModel>)
    requires shown == Entries(GetLocalProductInfo(t), b)
    ensures |shown| == |t|
    ensures forall i, j :: 0 <= i < j < |shown| ==> shown[i].id < shown[j].id
    ensures forall i :: 0 <= i < |shown| ==>
              && shown[i].id in t
              && OverlayOf(shown[i]).ToDto() == t[shown[i].id]
              && CatalogueOf(shown[i]) == Placeholder(shown[i].id, b)
    ensures forall id :: id in t ==> exists i :: 0 <= i < |shown| && shown[i].id == id
  {
    var infos := GetLocalProductInfo(t);
    OverlaysOfStore(t, shown);
    forall i | 0 <= i < |shown|
      ensures CatalogueOf(shown[i]) == Placeholder(shown[i].id, b)
    {
      assert shown[i].id == OverlayOf(shown[i]).id == infos[i].id;
    }
  }
}
