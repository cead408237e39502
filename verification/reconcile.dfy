/** The part every product-list builder shares: fetch the catalogue, take a
    snapshot of the overlay store, and walk the catalogue in order, writing a
    default overlay for each product the snapshot lacks and merging each
    product with its overlay. The builders differ only in what they do when
    this is interrupted. */
module Reconcile {
  import opened Common
  import opened Domain
  import opened Catalogue
  import ProductDao
  import opened GetProductLocalRepository
  import opened ProductUIMapper

  /** The outcome of the remote catalogue request. */
  datatype Fetch = Fetched(products: seq<ApiProduct>) | FetchFailed(message: string)

  /** Whether the store write that back-fills the overlay of catalogue item
      `item` throws. A fault at an item that needs no write never fires. */
  datatype WriteFault = NoWriteFault | WriteFailsAt(item: nat, message: string)

  /** What the shared part leaves behind: the products merged so far, the
      store, and the message of the exception that stopped it, if any. */
  datatype MergeRun = MergeRun(merged: seq<ProductUiModel>, store: ProductDao.ProductTable, failure: Option<string>)

  /** `associateBy { it.id }`: one entry per id; a later element replaces an
      earlier one with the same id. */
  function AssociateById(infos: seq<ProductLocalInfo>): (m: map<int, ProductLocalInfo>)
    ensures forall k :: k in m <==> exists i :: 0 <= i < |infos| && infos[i].id == k
    ensures forall k :: k in m ==> m[k].id == k && m[k] in infos
    ensures forall i :: (0 <= i < |infos| && forall j :: i < j < |infos| ==> infos[j].id != infos[i].id)
                        ==> m[infos[i].id] == infos[i]
  {
    if |infos| == 0 then map[]
    else
      var front := infos[..|infos| - 1];
      var last := infos[|infos| - 1];
      AssociateStep(infos, AssociateById(front));
      AssociateById(front)[last.id := last]
  }

  /** Adding the last element to the association of all the others. */
  lemma AssociateStep(infos: seq<ProductLocalInfo>, m: map<int, ProductLocalInfo>)
    requires |infos| > 0
    requires var front := infos[..|infos| - 1];
             && (forall k :: k in m <==> exists i :: 0 <= i < |front| && front[i].id == k)
             && (forall k :: k in m ==> m[k].id == k && m[k] in front)
             && (forall i :: (0 <= i < |front| && forall j :: i < j < |front| ==> front[j].id != front[i].id)
                             ==> m[front[i].id] == front[i])
    ensures var m' := m[infos[|infos| - 1].id := infos[|infos| - 1]];
            && (forall k :: k in m' <==> exists i :: 0 <= i < |infos| && infos[i].id == k)
            && (forall k :: k in m' ==> m'[k].id == k && m'[k] in infos)
            && (forall i :: (0 <= i < |infos| && forall j :: i < j < |infos| ==> infos[j].id != infos[i].id)
                            ==> m'[infos[i].id] == infos[i])
  {
    var front := infos[..|infos| - 1];
    var n := |infos| - 1;
    var last := infos[n];
    var m' := m[last.id := last];
    assert forall i :: 0 <= i < n ==> front[i] == infos[i];
    forall k | k in m'
      ensures exists i :: 0 <= i < |infos| && infos[i].id == k
    {
      if k == last.id {
        assert infos[n].id == k;
      } else {
        var i :| 0 <= i < |front| && front[i].id == k;
        assert infos[i].id == k;
      }
    }
    forall k | exists i :: 0 <= i < |infos| && infos[i].id == k
      ensures k in m'
    {
      var i :| 0 <= i < |infos| && infos[i].id == k;
      if i < n {
        assert front[i].id == k;
      }
    }
    forall i | 0 <= i < |infos| && (forall j :: i < j < |infos| ==> infos[j].id != infos[i].id)
      ensures m'[infos[i].id] == infos[i]
    {
      if i < n {
        assert infos[n].id != infos[i].id;
        assert forall j :: i < j < |front| ==> front[j].id != front[i].id;
      }
    }
  }

  /** `map[id]` on a Kotlin map: `null` when absent. */
  function Lookup(m: map<int, ProductLocalInfo>, id: int): (r: Option<ProductLocalInfo>)
    ensures r.None? <==> id !in m
    ensures r.Some? ==> r.value == m[id]
  {
    if id in m then Some(m[id]) else None
  }

  /** The by-id view of the overlay store taken before the loop starts. */
  function Snapshot(t: ProductDao.ProductTable): map<int, ProductLocalInfo> {
    AssociateById(GetLocalProductInfo(t))
  }

  /** Looking an id up in the snapshot reads the same overlay as asking the
      store for that one product. */
  lemma SnapshotReadsStore(t: ProductDao.ProductTable, id: int)
    ensures Lookup(Snapshot(t), id) == GetProductLocalInfo(t, id)
  {
    var infos := GetLocalProductInfo(t);
    if id in t {
      assert ProductLocalInfo(0).FromDto(t[id]) in infos;
      var i :| 0 <= i < |infos| && infos[i] == ProductLocalInfo(0).FromDto(t[id]);
      assert infos[i].id == id;
      var found := Snapshot(t)[id];
      ProductLocalInfoRoundTrip(found, t[id]);
      ProductLocalInfoRoundTrip(GetProductLocalInfo(t, id).value, t[id]);
    }
  }

  /** A list that carries, position by position, the overlays the store lists
      has one entry per stored row, ordered by id, each with its row's state. */
  lemma OverlaysOfStore(t: ProductDao.ProductTable, ps: seq<ProductUiModel>)
    requires |ps| == |GetLocalProductInfo(t)|
    requires forall i :: 0 <= i < |ps| ==> OverlayOf(ps[i]) == GetLocalProductInfo(t)[i]
    ensures |ps| == |t|
    ensures forall i, j :: 0 <= i < j < |ps| ==> ps[i].id < ps[j].id
    ensures forall i :: 0 <= i < |ps| ==> ps[i].id in t && OverlayOf(ps[i]).ToDto() == t[ps[i].id]
    ensures forall id :: id in t ==> exists i :: 0 <= i < |ps| && ps[i].id == id
  {
    OverlaysFollowRows(t, GetLocalProductInfo(t), ps);
  }

  lemma OverlaysFollowRows(t: ProductDao.ProductTable, infos: seq<ProductLocalInfo>, ps: seq<ProductUiModel>)
    requires forall i, j :: 0 <= i < j < |infos| ==> infos[i].id < infos[j].id
    requires forall i :: 0 <= i < |infos| ==> infos[i].id in t && infos[i].ToDto() == t[infos[i].id]
    requires forall k :: k in t ==> ProductLocalInfo(0).FromDto(t[k]) in infos
    requires |ps| == |infos| && forall i :: 0 <= i < |ps| ==> OverlayOf(ps[i]) == infos[i]
    ensures forall i, j :: 0 <= i < j < |ps| ==> ps[i].id < ps[j].id
    ensures forall i :: 0 <= i < |ps| ==> ps[i].id in t && OverlayOf(ps[i]).ToDto() == t[ps[i].id]
    ensures forall id :: id in t ==> exists i :: 0 <= i < |ps| && ps[i].id == id
  {
    assert forall i :: 0 <= i < |ps| ==> ps[i].id == OverlayOf(ps[i]).id == infos[i].id;
    forall id | id in t
      ensures exists i :: 0 <= i < |ps| && ps[i].id == id
    {
      var i :| 0 <= i < |infos| && infos[i] == ProductLocalInfo(0).FromDto(t[id]);
      assert ps[i].id == infos[i].id == id;
    }
  }

  /** Whether the write for catalogue item `i` is the one that throws. */
  predicate FailsAt(fault: WriteFault, i: nat) {
    fault.WriteFailsAt? && fault.item == i
  }

  /** How many catalogue items are merged before a back-fill write throws:
      all of them, unless the faulty write is one the loop needs to make. This
      is the closed form that `MergeFromSpec` and `Run` tie the loop to. */
  function StopIndex(api: seq<ApiProduct>, t: ProductDao.ProductTable, fault: WriteFault): (k: nat)
    ensures k <= |api|
    ensures k < |api| <==> fault.WriteFailsAt? && fault.item < |api| && api[fault.item].id !in t
    ensures k < |api| ==> FailsAt(fault, k)
  {
    if fault.WriteFailsAt? && fault.item < |api| && api[fault.item].id !in t then fault.item else |api|
  }

  /** The ids of `items` that the loop finds missing from the snapshot, whose
      keys are `known`. */
  function NeedsRow(items: seq<ApiProduct>, known: set<int>): set<int> {
    set j | 0 <= j < |items| && items[j].id !in known :: items[j].id
  }

  lemma NeedsRowExtend(front: seq<ApiProduct>, last: ApiProduct, known: set<int>)
    ensures NeedsRow(front + [last], known)
            == NeedsRow(front, known) + (if last.id in known then {} else {last.id})
  {
    var items := front + [last];
    forall id | id in NeedsRow(items, known)
      ensures id in NeedsRow(front, known) || (id == last.id && last.id !in known)
    {
      var j :| 0 <= j < |items| && items[j].id !in known && items[j].id == id;
      if j < |front| {
        assert items[j] == front[j];
      }
    }
    forall id | id in NeedsRow(front, known)
      ensures id in NeedsRow(items, known)
    {
      var j :| 0 <= j < |front| && front[j].id !in known && front[j].id == id;
      assert items[j] == front[j];
    }
    if last.id !in known {
      assert items[|front|] == last;
    }
  }

  /** The writes the loop makes over `items`: a default overlay for every id
      not in `known`, in catalogue order. */
  function Backfill(t: ProductDao.ProductTable, items: seq<ApiProduct>, known: set<int>): ProductDao.ProductTable {
    if |items| == 0 then t
    else
      var t0 := Backfill(t, items[..|items| - 1], known);
      var last := items[|items| - 1];
      if last.id in known then t0 else InsertOrUpdateProductLocalInfo(t0, DefaultLocalInfo(last.id))
  }

  /** The back-fill adds a default overlay for each missing id, and for
      nothing else; every other row is left as it was. */
  lemma {:induction false} BackfillWrites(t: ProductDao.ProductTable, items: seq<ApiProduct>, known: set<int>)
    ensures var t' := Backfill(t, items, known);
            && (forall id :: id in t' <==> id in t || id in NeedsRow(items, known))
            && (forall id :: id in t && id !in NeedsRow(items, known) ==> t'[id] == t[id])
            && (forall id :: id in NeedsRow(items, known) ==> t'[id] == DefaultLocalInfo(id).ToDto())
  {
    if |items| > 0 {
      var front := items[..|items| - 1];
      var last := items[|items| - 1];
      assert items == front + [last];
      NeedsRowExtend(front, last, known);
      BackfillWrites(t, front, known);
    }
  }

  /** The loop body from catalogue item `i` on, as written: look the id up in
      the snapshot; when it is missing, write the default overlay (which may
      throw); then merge the item and append it. */
  function MergeFrom(api: seq<ApiProduct>, snap: map<int, ProductLocalInfo>, fault: WriteFault,
                     i: nat, store: ProductDao.ProductTable, acc: seq<ProductUiModel>): MergeRun
    requires i <= |api|
    decreases |api| - i
  {
    if i == |api| then MergeRun(acc, store, None)
    else
      var local := Lookup(snap, api[i].id);
      if local.None? && FailsAt(fault, i) then MergeRun(acc, store, Some(fault.message))
      else
        var store' := if local.None? then InsertOrUpdateProductLocalInfo(store, DefaultLocalInfo(api[i].id)) else store;
        MergeFrom(api, snap, fault, i + 1, store', acc + [MapToUiModel(api[i], local)])
  }

  /** The first `i` catalogue items are merged against the overlays `s0` held
      and back-filled into `s0`. */
  predicate MergedUpTo(api: seq<ApiProduct>, s0: ProductDao.ProductTable, i: nat,
                       store: ProductDao.ProductTable, merged: seq<ProductUiModel>)
  {
    && i <= |api|
    && |merged| == i
    && (forall j :: 0 <= j < i ==> merged[j] == MapToUiModel(api[j], GetProductLocalInfo(s0, api[j].id)))
    && store == Backfill(s0, api[..i], s0.Keys)
  }

  /** One turn of the loop that does not throw keeps the invariant. */
  lemma MergeStep(api: seq<ApiProduct>, fault: WriteFault, i: nat,
                  store: ProductDao.ProductTable, acc: seq<ProductUiModel>, s0: ProductDao.ProductTable)
    requires i < StopIndex(api, s0, fault)
    requires MergedUpTo(api, s0, i, store, acc)
    ensures var local := Lookup(Snapshot(s0), api[i].id);
            var store' := if local.None? then InsertOrUpdateProductLocalInfo(store, DefaultLocalInfo(api[i].id)) else store;
            && !(local.None? && FailsAt(fault, i))
            && MergedUpTo(api, s0, i + 1, store', acc + [MapToUiModel(api[i], local)])
  {
    SnapshotReadsStore(s0, api[i].id);
    ExtendMerged(api, fault, i, store, acc, s0, Lookup(Snapshot(s0), api[i].id));
  }

  /** The step of `MergeStep`, given the overlay the snapshot yields. */
  lemma ExtendMerged(api: seq<ApiProduct>, fault: WriteFault, i: nat,
                     store: ProductDao.ProductTable, acc: seq<ProductUiModel>, s0: ProductDao.ProductTable,
                     local: Option<ProductLocalInfo>)
    requires i < StopIndex(api, s0, fault)
    requires MergedUpTo(api, s0, i, store, acc)
    requires local == GetProductLocalInfo(s0, api[i].id)
    ensures var store' := if local.None? then InsertOrUpdateProductLocalInfo(store, DefaultLocalInfo(api[i].id)) else store;
            && !(local.None? && FailsAt(fault, i))
            && MergedUpTo(api, s0, i + 1, store', acc + [MapToUiModel(api[i], local)])
  {
    BackfillStep(s0, api, i);
    var acc' := acc + [MapToUiModel(api[i], local)];
    assert forall j :: 0 <= j < i ==> acc'[j] == acc[j];
  }

  /** The loop's invariant, carried from item `i` to its end. */
  lemma {:induction false} MergeFromSpec(api: seq<ApiProduct>, fault: WriteFault, i: nat,
                                         store: ProductDao.ProductTable, acc: seq<ProductUiModel>, s0: ProductDao.ProductTable)
    requires i <= StopIndex(api, s0, fault)
    requires MergedUpTo(api, s0, i, store, acc)
    ensures var r := MergeFrom(api, Snapshot(s0), fault, i, store, acc);
            var k := StopIndex(api, s0, fault);
            && MergedUpTo(api, s0, k, r.store, r.merged)
            && r.failure == (if k < |api| then Some(fault.message) else None)
    decreases |api| - i
  {
    var k := StopIndex(api, s0, fault);
    if i < k {
      var local := Lookup(Snapshot(s0), api[i].id);
      var store' := if local.None? then InsertOrUpdateProductLocalInfo(store, DefaultLocalInfo(api[i].id)) else store;
      MergeStep(api, fault, i, store, acc, s0);
      MergeFromSpec(api, fault, i + 1, store', acc + [MapToUiModel(api[i], local)], s0);
    } else if i < |api| {
      SnapshotReadsStore(s0, api[i].id);
    }
  }

  /** Back-filling one more catalogue item is one more conditional write. */
  lemma BackfillStep(s0: ProductDao.ProductTable, api: seq<ApiProduct>, i: nat)
    requires i < |api|
    ensures Backfill(s0, api[..i + 1], s0.Keys)
            == if api[i].id in s0 then Backfill(s0, api[..i], s0.Keys)
               else InsertOrUpdateProductLocalInfo(Backfill(s0, api[..i], s0.Keys), DefaultLocalInfo(api[i].id))
  {
    assert api[..i + 1][..i] == api[..i];
    assert api[..i + 1][i] == api[i];
  }

  /** The shared `try` block. On a failed fetch nothing is merged or written.
      Otherwise catalogue item `j` is merged with the overlay the store held
      for its id before the loop, in catalogue order, up to the first
      back-fill write that throws. */
  function Run(fetch: Fetch, fault: WriteFault, store: ProductDao.ProductTable): (r: MergeRun)
    ensures fetch.FetchFailed? ==> r == MergeRun([], store, Some(fetch.message))
    ensures fetch.Fetched? ==>
              var api := fetch.products;
              var k := StopIndex(api, store, fault);
              && |r.merged| == k
              && (forall j :: 0 <= j < k ==> r.merged[j] == MapToUiModel(api[j], GetProductLocalInfo(store, api[j].id)))
              && r.failure == (if k < |api| then Some(fault.message) else None)
              && r.store == Backfill(store, api[..k], store.Keys)
  {
    match fetch
    case FetchFailed(message) => MergeRun([], store, Some(message))
    case Fetched(api) =>
      assert api[..0] == [];
      MergeFromSpec(api, fault, 0, store, [], store);
      MergeFrom(api, Snapshot(store), fault, 0, store, [])
  }

  /** The writes of the shared block: every catalogue id it reached that the
      store lacked gets the default overlay, and no existing overlay changes. */
  lemma RunWritesOnlyDefaults(fetch: Fetch, fault: WriteFault, store: ProductDao.ProductTable)
    ensures fetch.FetchFailed? ==> Run(fetch, fault, store).store == store
    ensures fetch.Fetched? ==>
              var api := fetch.products;
              var k := StopIndex(api, store, fault);
              var t' := Run(fetch, fault, store).store;
              && (forall id :: id in t' <==> id in store || exists j :: 0 <= j < k && api[j].id == id)
              && (forall id :: id in store ==> t'[id] == store[id])
              && (forall id :: id in t' && id !in store ==> t'[id] == DefaultLocalInfo(id).ToDto())
  {
    if fetch.Fetched? {
      var k := StopIndex(fetch.products, store, fault);
      BackfillWrites(store, fetch.products[..k], store.Keys);
      BackfillPrefix(fetch.products, store, k);
    }
  }

  /** Back-filling a prefix from a store adds exactly the prefix's missing ids. */
  lemma BackfillPrefix(api: seq<ApiProduct>, store: ProductDao.ProductTable, k: nat)
    requires k <= |api|
    ensures forall id :: id in NeedsRow(api[..k], store.Keys) <==> id !in store && exists j :: 0 <= j < k && api[j].id == id
  {
    var prefix := api[..k];
    forall id | (exists j :: 0 <= j < k && api[j].id == id) && id !in store
      ensures id in NeedsRow(prefix, store.Keys)
    {
      var j :| 0 <= j < k && api[j].id == id;
      assert prefix[j] == api[j];
    }
    forall id | id in NeedsRow(prefix, store.Keys)
      ensures exists j :: 0 <= j < k && api[j].id == id
    {
      var j :| 0 <= j < |prefix| && prefix[j].id !in store.Keys && prefix[j].id == id;
      assert api[j] == prefix[j];
    }
  }

  /** Whether the shared part completes. */
  predicate Completes(fetch: Fetch, fault: WriteFault, store: ProductDao.ProductTable) {
    fetch.Fetched? && StopIndex(fetch.products, store, fault) == |fetch.products|
  }

  /** After a complete run every catalogue id has an overlay, and the merge has
      one entry per catalogue item, in catalogue order, with its id. */
  lemma CompleteRunCoversCatalogue(fetch: Fetch, fault: WriteFault, store: ProductDao.ProductTable)
    requires Completes(fetch, fault, store)
    ensures var r := Run(fetch, fault, store);
            && r.failure.None?
            && |r.merged| == |fetch.products|
            && (forall j :: 0 <= j < |fetch.products| ==> r.merged[j].id == fetch.products[j].id)
            && (forall j :: 0 <= j < |fetch.products| ==> fetch.products[j].id in r.store)
  {
    var r := Run(fetch, fault, store);
    RunWritesOnlyDefaults(fetch, fault, store);
    forall j | 0 <= j < |fetch.products|
      ensures fetch.products[j].id in r.store
    {
      assert exists i :: 0 <= i < |fetch.products| && fetch.products[i].id == fetch.products[j].id;
    }
  }

  /** A run stops early exactly when the fetch fails or a needed back-fill write
      throws. */
  lemma FailureIffInterrupted(fetch: Fetch, fault: WriteFault, store: ProductDao.ProductTable)
    ensures Run(fetch, fault, store).failure.None? <==> Completes(fetch, fault, store)
  {
  }
}
