# Joiefull catalogue reconciliation, in Dafny

Joiefull is an Android clothing catalogue. The products come from a remote JSON
catalogue. The user's own state for each product is kept in an embedded SQLite
store, in a `product` table keyed by catalogue id. That state is the favorite
flag and the rating, called the *overlay* below. The store also has `user` and
`review` tables.

This project models the part of the app that is not presentation:

- merging the catalogue with the overlays, and writing a default overlay for
  every catalogue product the store lacks;
- what happens when that merge is interrupted;
- the favorite toggle;
- the review upsert and the rating propagation;
- the three tables with their DAO statements, and the conversions between
  domain records and table rows;
- the category filter.

There are three copies of the merge: `GetProductRepository.getProducts`,
`HomeViewModel.getProducts` and `DetailViewModel.getProducts`. Their `try`
blocks do the same thing, so they are modelled once as `Reconcile.Run`. Each
copy adds only its own `catch` block on top. The three `catch` blocks build
their fallback list the same way and differ only in the values they invent for
a product the catalogue did not supply, so that list is modelled once as
`LocalFallback.Entries`. `Agreement` proves where the copies coincide and where
they differ.

Modelling choices:

- Each table is a `map` from primary key to row. A subset type states that
  every row sits under its own id.
- `user` and `review` have auto-generated keys. Their tables also carry the
  largest key ever handed out, SQLite's `sqlite_sequence` entry. An id of 0 asks
  for the next key.
- A `SELECT` without `ORDER BY` on an integer-keyed table is read in ascending
  key order.
- The remote fetch is an input, `Fetched(products)` or `FetchFailed(message)`.
- A store write that throws is also an input. `WriteFault` names the catalogue
  item whose back-fill write throws, and the toggles take a `writeFails` flag.
- Kotlin's `Int` is the `int32` newtype where arithmetic happens, which is the
  detail screen's likes ±1, with wrap-around. Prices and ratings are `real` and
  are never computed with.
- Each coroutine body is one pure transition from (state, store) to
  (state, store).

Two details of the code worth knowing:

- The repository's fallback entries carry empty names and categories. The view
  models' copies use "Produit local inconnu" and "Inconnu"
  (`Agreement.PlaceholdersDiffer`).
- `DetailUiState.error` is declared `Int?`, but every assignment gives it a
  message, so the model holds the message.

## Model

Source paths are relative to the repository root, below
`app/src/main/java/com/nedrysystems/joiefull/`, written out in full in each row.

| member | source | states |
|---|---|---|
| Domain.DefaultLocalInfo | app/src/main/java/com/nedrysystems/joiefull/domain/model/ProductLocalInfo.kt:14-18 | an overlay built from an id alone is not a favorite and not rated |
| Domain.FromDtoIgnoresReceiver | app/src/main/java/com/nedrysystems/joiefull/domain/model/ProductLocalInfo.kt:41-47 | `fromDto` gives the same overlay whatever receiver it is called on |
| Domain.ProductLocalInfoRoundTrip | app/src/main/java/com/nedrysystems/joiefull/domain/model/ProductLocalInfo.kt:25-47 | overlay to row and back is the identity, and row to overlay and back is the identity |
| Domain.ReviewRoundTrip | app/src/main/java/com/nedrysystems/joiefull/domain/model/Review.kt:29-55 | review to row and back, and row to review and back, are both the identity |
| Domain.NewUser | app/src/main/java/com/nedrysystems/joiefull/domain/model/User.kt:14-18 | a user given only a name and a picture has id 0, "allocate one" |
| Domain.UserRoundTrip | app/src/main/java/com/nedrysystems/joiefull/domain/model/User.kt:24-48 | user to row and back, and row to user and back, are both the identity |
| AutoIncrement.AssignedKey | app/src/main/java/com/nedrysystems/joiefull/data/entity/UserEntity.kt:17-18 | an id of 0 gets a key that is new to the table and above every key handed out; any other id is kept |
| AutoIncrement.Advance | app/src/main/java/com/nedrysystems/joiefull/data/entity/UserEntity.kt:17-18 | the allocation counter never decreases and covers the key just stored |
| ProductDao.GetProductLocalInfo | app/src/main/java/com/nedrysystems/joiefull/data/dao/ProductDao.kt:22-23 | `null` exactly when no row has the id; otherwise a stored row with that id |
| ProductDao.InsertOrUpdate | app/src/main/java/com/nedrysystems/joiefull/data/dao/ProductDao.kt:32-33 | the row for the id becomes the given row, whether or not one existed; the key set grows by that id only; other rows are unchanged |
| ProductDao.InsertOrUpdateIdempotent | app/src/main/java/com/nedrysystems/joiefull/data/dao/ProductDao.kt:32-33 | writing the same row twice is writing it once |
| ProductDao.GetAll | app/src/main/java/com/nedrysystems/joiefull/data/dao/ProductDao.kt:40-41 | every stored row exactly once, nothing else, in ascending id order |
| ProductDao.UpdateFavoriteStatus | app/src/main/java/com/nedrysystems/joiefull/data/dao/ProductDao.kt:49-50 | sets only the flag of the matching row and keeps its rating; the key set is unchanged; an absent id leaves the table as it was |
| UserDao.Insert | app/src/main/java/com/nedrysystems/joiefull/data/dao/UserDao.kt:18-19 | a non-zero id replaces the row under it; id 0 adds one row under a fresh key; all other rows are unchanged |
| UserDao.GetUserById | app/src/main/java/com/nedrysystems/joiefull/data/dao/UserDao.kt:27-28 | the row under the id, or `null` exactly when there is none |
| ReviewDao.InsertReview | app/src/main/java/com/nedrysystems/joiefull/data/dao/ReviewDAO.kt:16-17 | replaces the review under the same key, or adds one under a fresh key for id 0; other reviews are unchanged |
| ReviewDao.GetReviewByUserAndProduct | app/src/main/java/com/nedrysystems/joiefull/data/dao/ReviewDAO.kt:33-34 | `null` exactly when no review matches both ids; otherwise the stored matching review with the least key |
| ReviewDao.UpdateProductRating | app/src/main/java/com/nedrysystems/joiefull/data/dao/ReviewDAO.kt:24-25 | the matching product row's rating becomes the integer as a real, and its flag is kept; other rows are unchanged; an absent id creates no row |
| GetProductLocalRepository.GetLocalProductInfo | app/src/main/java/com/nedrysystems/joiefull/data/repository/GetProductLocalRepository.kt:26-29 | one overlay per stored row, in ascending id order, each equal to its row field for field |
| GetProductLocalRepository.GetProductLocalInfo | app/src/main/java/com/nedrysystems/joiefull/data/repository/GetProductLocalRepository.kt:38-47 | `null` exactly when no row has the id; otherwise an overlay with that id, equal to the row |
| GetProductLocalRepository.InsertOrUpdateProductLocalInfo | app/src/main/java/com/nedrysystems/joiefull/data/repository/GetProductLocalRepository.kt:55-61 | the key set grows by the overlay's id only, and other rows are unchanged |
| GetProductLocalRepository.ReadBackAfterWrite | app/src/main/java/com/nedrysystems/joiefull/data/repository/GetProductLocalRepository.kt:38-61 | an overlay that was written reads back unchanged |
| GetProductLocalRepository.UpdateFavoriteStatus | app/src/main/java/com/nedrysystems/joiefull/data/repository/GetProductLocalRepository.kt:70-72 | the row under the id, if any, takes the flag with its rating kept; no row is added or removed and other rows are unchanged |
| GetProductLocalRepository.FavoriteReadBack | app/src/main/java/com/nedrysystems/joiefull/data/repository/GetProductLocalRepository.kt:38-72 | after a flag update the single-product read shows the new flag and the old rating |
| UserRepository.GetUserById | app/src/main/java/com/nedrysystems/joiefull/data/repository/UserRepository.kt:28-35 | `null` exactly when the table has no row for the id; otherwise a user with that id that converts back to the row |
| UserRepository.StoredUserReadsBack | app/src/main/java/com/nedrysystems/joiefull/data/repository/UserRepository.kt:28-35 | a user stored under a non-zero id reads back unchanged |
| UserRepository.NewUserReadsBack | app/src/main/java/com/nedrysystems/joiefull/data/repository/UserRepository.kt:28-35 | a user stored with id 0 reads back under its newly allocated key, with its name and picture |
| ReviewRepository.AddReview | app/src/main/java/com/nedrysystems/joiefull/data/repository/ReviewRepository.kt:31-50 | afterwards the pair's review carries the submitted rate and comment, unvalidated; an existing first review is rewritten in place and the pair's review set is kept; with at most one review before there is exactly one after; every review other than the pair's first keeps its row; no key is added when the pair had a review, and only the freshly allocated key, holding the new review, when it had none; the other tables are unchanged |
| ReviewRepository.OtherPairsUntouched | app/src/main/java/com/nedrysystems/joiefull/data/repository/ReviewRepository.kt:31-50 | a submission leaves the reviews of every other (user, product) pair as they were: the same keys, holding the same rows |
| ReviewRepository.SecondSubmissionReplacesFirst | app/src/main/java/com/nedrysystems/joiefull/data/repository/ReviewRepository.kt:31-50 | two submissions for a fresh pair leave one review, with the second submission's rate and comment |
| ReviewRepository.UpdateProductRating | app/src/main/java/com/nedrysystems/joiefull/data/repository/ReviewRepository.kt:61-64 | the product table gets the table statement with the same arguments; reviews and users are unchanged |
| ReviewRepository.RatingIsOverwritten | app/src/main/java/com/nedrysystems/joiefull/data/repository/ReviewRepository.kt:31-64 | submitting a review and then propagating its rate leaves exactly that rate on the product and keeps its flag |
| FilterProductsByCategory.Invoke | app/src/main/java/com/nedrysystems/joiefull/domain/usecase/productApi/FilterProductsByCategoryUseCase.kt:22-27 | every result has the category; each product of the category keeps its multiplicity and others are gone; the result is an order-preserving subsequence |
| FilterProductsByCategory.KeepsEveryMatch | app/src/main/java/com/nedrysystems/joiefull/domain/usecase/productApi/FilterProductsByCategoryUseCase.kt:26 | every input product of the category is in the result |
| FilterProductsByCategory.Idempotent | app/src/main/java/com/nedrysystems/joiefull/domain/usecase/productApi/FilterProductsByCategoryUseCase.kt:22-27 | filtering twice by a category is filtering once |
| ProductUIMapper.MapToUiModel | app/src/main/java/com/nedrysystems/joiefull/ui/mapper/ProductUIMapper.kt:25-40 | the catalogue half, id included, is the catalogue product; the flag is set only when an overlay says so; the rating is the overlay's or `null` |
| ProductUIMapper.MissingOverlayIsDefault | app/src/main/java/com/nedrysystems/joiefull/ui/mapper/ProductUIMapper.kt:37-38 | no overlay maps like the default overlay of the product |
| ProductUIMapper.OverlayIdIgnored | app/src/main/java/com/nedrysystems/joiefull/ui/mapper/ProductUIMapper.kt:30 | the overlay's own id plays no part; the result has the catalogue id |
| ProductUIMapper.SplitAndMerge | app/src/main/java/com/nedrysystems/joiefull/ui/mapper/ProductUIMapper.kt:25-40 | a product split into its catalogue and overlay halves maps back to itself, and mapping keeps every field of a present overlay |
| Reconcile.AssociateById | app/src/main/java/com/nedrysystems/joiefull/data/repository/GetProductRepository.kt:31 | the by-id map has exactly the ids present; each value has its key's id and comes from the list; the last element with an id wins |
| Reconcile.SnapshotReadsStore | app/src/main/java/com/nedrysystems/joiefull/data/repository/GetProductRepository.kt:24-35 | looking an id up in the snapshot gives the same overlay as asking the store for it |
| Reconcile.StopIndex | app/src/main/java/com/nedrysystems/joiefull/data/repository/GetProductRepository.kt:33-45 | the closed-form stop position that `Reconcile.MergeFromSpec` and `Reconcile.Run` tie the loop to: short of the whole catalogue exactly when the faulty write belongs to a catalogue item missing from the store, and then at that item |
| Reconcile.BackfillWrites | app/src/main/java/com/nedrysystems/joiefull/data/repository/GetProductRepository.kt:37-45 | the back-fill adds a default overlay for each missing id and nothing else, and leaves every other row as it was |
| Reconcile.MergeFromSpec | app/src/main/java/com/nedrysystems/joiefull/data/repository/GetProductRepository.kt:33-62 | the loop as written merges every item before the stop index against the snapshot, back-fills exactly those items, and reports the fault's message iff it stopped early |
| Reconcile.Run | app/src/main/java/com/nedrysystems/joiefull/data/repository/GetProductRepository.kt:19-62 | a failed fetch merges and writes nothing; otherwise item `j` before the stop index is the mapper applied to it and to the overlay the store held for its id, in catalogue order, and the store is the back-fill of those items |
| Reconcile.RunWritesOnlyDefaults | app/src/main/java/com/nedrysystems/joiefull/data/repository/GetProductRepository.kt:35-45 | the store gains rows only for reached catalogue ids, only as default overlays, and existing rows are never modified |
| Reconcile.CompleteRunCoversCatalogue | app/src/main/java/com/nedrysystems/joiefull/data/repository/GetProductRepository.kt:33-62 | after a complete run every catalogue id has an overlay, and the merge lists the catalogue ids in order |
| Reconcile.FailureIffInterrupted | app/src/main/java/com/nedrysystems/joiefull/data/repository/GetProductRepository.kt:19-63 | an exception reaches the `catch` exactly when the fetch fails or a needed back-fill write throws |
| GetProductRepository.InlineMergeIsMapper | app/src/main/java/com/nedrysystems/joiefull/data/repository/GetProductRepository.kt:48-59 | the record the repository's loop builds field by field is the mapper's |
| LocalFallback.Entries | app/src/main/java/com/nedrysystems/joiefull/data/repository/GetProductRepository.kt:66-84 | one fallback entry per overlay, in order, carrying that overlay beside the catalogue half invented for its id |
| LocalFallback.PlaceholderDeterminesBlanks | app/src/main/java/com/nedrysystems/joiefull/ui/home/HomeViewModel.kt:141-151 | two invented catalogue halves for one id are equal exactly when the invented name, category and original price are |
| LocalFallback.EntriesDifferOnlyInBlanks | app/src/main/java/com/nedrysystems/joiefull/ui/detail/DetailViewModel.kt:142-155 | fallback lists built from the same overlays pair up entry for entry with the same id and overlay, and are equal exactly when empty or built with the same invented values |
| LocalFallback.EntriesOfStore | app/src/main/java/com/nedrysystems/joiefull/data/repository/GetProductRepository.kt:66-84 | the fallback for a whole store has one entry per row, ordered by id, each with its row's flag and rating, and every row has one |
| GetProductRepository.GetProducts | app/src/main/java/com/nedrysystems/joiefull/data/repository/GetProductRepository.kt:16-89 | the merge when it completes; otherwise whatever it merged, followed by one stub per overlay in the store as the loop left it |
| GetProductRepository.SuccessMergesEachItem | app/src/main/java/com/nedrysystems/joiefull/data/repository/GetProductRepository.kt:33-62 | one entry per catalogue item, in order, with the catalogue fields copied and the flag and rating of the stored row, or false and `null` |
| GetProductRepository.FetchFailureGivesStubs | app/src/main/java/com/nedrysystems/joiefull/data/repository/GetProductRepository.kt:63-86 | a failed fetch gives one stub per stored row, ordered by id, with the row's flag and rating; the store is untouched |
| GetProductRepository.PartialFailureKeepsPrefix | app/src/main/java/com/nedrysystems/joiefull/data/repository/GetProductRepository.kt:17-85 | a write that throws after `k` items keeps those `k` merged items in front, and the list is longer than the store by `k` |
| GetProductRepository.PartialFailureRepeatsIds | app/src/main/java/com/nedrysystems/joiefull/data/repository/GetProductRepository.kt:17-85 | after a write throws, every id merged before it appears again among the stubs |
| GetProductRepository.PartialFailureExample | app/src/main/java/com/nedrysystems/joiefull/data/repository/GetProductRepository.kt:17-85 | a stored product followed by a new one whose write throws gives the stored product twice |
| GetProductRepository.GetProductsCorrected | app/src/main/java/com/nedrysystems/joiefull/data/repository/GetProductRepository.kt:63-86 | as `GetProducts`, but an interrupted merge returns only the stubs, as the fallback's comment says |
| GetProductRepository.CorrectedIdsDistinct | app/src/main/java/com/nedrysystems/joiefull/data/repository/GetProductRepository.kt:63-86 | with a catalogue that lists no id twice, the corrected list never lists an id twice |
| GetProductRepository.CorrectionOnlyDropsPrefix | app/src/main/java/com/nedrysystems/joiefull/data/repository/GetProductRepository.kt:16-89 | the correction changes nothing when the merge completes, and otherwise drops exactly the merged prefix |
| HomeViewModel.OnError | app/src/main/java/com/nedrysystems/joiefull/ui/home/HomeViewModel.kt:56-59 | only the error changes, to the message |
| HomeViewModel.UpdateErrorState | app/src/main/java/com/nedrysystems/joiefull/ui/home/HomeViewModel.kt:64-66 | only the error changes, to empty |
| HomeViewModel.ErrorAcknowledged | app/src/main/java/com/nedrysystems/joiefull/ui/home/HomeViewModel.kt:56-66 | clearing after a report forgets the report; clearing is idempotent and a no-op on a clear state |
| HomeViewModel.GetProducts | app/src/main/java/com/nedrysystems/joiefull/ui/home/HomeViewModel.kt:93-157 | the merge and an unchanged state when it completes; otherwise the partial work is dropped, loading stops, the error names the exception, and one placeholder per stored overlay is returned |
| HomeViewModel.FetchProducts | app/src/main/java/com/nedrysystems/joiefull/ui/home/HomeViewModel.kt:72-85 | loading ends; the screen shows what `getProducts` returned; the error is empty unless the merge was interrupted |
| HomeViewModel.FetchShowsCatalogue | app/src/main/java/com/nedrysystems/joiefull/ui/home/HomeViewModel.kt:72-132 | after a complete fetch the screen shows each catalogue item in order with its stored overlay, and no error |
| HomeViewModel.FetchFailureShowsPlaceholders | app/src/main/java/com/nedrysystems/joiefull/ui/home/HomeViewModel.kt:133-154 | after a failed fetch the screen shows one placeholder per stored row, ordered by id, with its flag and rating, the store is untouched, and the error names the failure |
| HomeViewModel.WithFavorite | app/src/main/java/com/nedrysystems/joiefull/ui/home/HomeViewModel.kt:194-196 | matching entries get the flag; every other field and entry is kept |
| HomeViewModel.ToggleFavorite | app/src/main/java/com/nedrysystems/joiefull/ui/home/HomeViewModel.kt:174-207 | the store gets the negation of the caller's flag for its id; matching entries show it, with every other field and entry kept; a failed write changes only the error |
| HomeViewModel.ToggleSyncsStoreAndScreen | app/src/main/java/com/nedrysystems/joiefull/ui/home/HomeViewModel.kt:178-199 | after a toggle of a stored product, the store and every matching entry agree on the flag |
| HomeViewModel.DoubleToggleRestores | app/src/main/java/com/nedrysystems/joiefull/ui/home/HomeViewModel.kt:174-207 | two toggles restore the list, and the store when its flag matched the caller's |
| DetailViewModel.GetProducts | app/src/main/java/com/nedrysystems/joiefull/ui/detail/DetailViewModel.kt:103-157 | the merge and an unchanged state when it completes; otherwise the partial work is dropped, loading stops, the error names the exception, and one placeholder per stored overlay is returned |
| DetailViewModel.Find | app/src/main/java/com/nedrysystems/joiefull/ui/detail/DetailViewModel.kt:77 | `null` exactly when no entry has the id; otherwise the first entry that has it |
| DetailViewModel.FetchProductDetails | app/src/main/java/com/nedrysystems/joiefull/ui/detail/DetailViewModel.kt:73-95 | a found product becomes the selection and the only entry listed; otherwise "not found" is shown and the list and selection are kept; loading ends either way |
| DetailViewModel.DetailsOfCatalogueProduct | app/src/main/java/com/nedrysystems/joiefull/ui/detail/DetailViewModel.kt:73-81 | after a complete merge a catalogue product is selected with the overlay the store held for it |
| DetailViewModel.LikesAfter | app/src/main/java/com/nedrysystems/joiefull/ui/detail/DetailViewModel.kt:189-197 | one like more when the product becomes a favorite, one fewer otherwise, wrapping at the ends of `Int` |
| DetailViewModel.ToggleFavorite | app/src/main/java/com/nedrysystems/joiefull/ui/detail/DetailViewModel.kt:167-210 | the store gets the negated flag; matching entries and any selection take it with likes ±1; no selection stays none; other entries and fields are kept; a failed write changes only the error |
| DetailViewModel.LikesRoundTrip | app/src/main/java/com/nedrysystems/joiefull/ui/detail/DetailViewModel.kt:189-197 | one like more and then one fewer, or the reverse, restores the count, wrap-around included |
| DetailViewModel.DoubleToggleRestores | app/src/main/java/com/nedrysystems/joiefull/ui/detail/DetailViewModel.kt:167-210 | two toggles restore every entry's flag and likes, the selection's likes, and the store when its flag matched |
| DetailViewModel.ShareText | app/src/main/java/com/nedrysystems/joiefull/ui/detail/DetailViewModel.kt:220 | the text is "Découvrez ce produit : " followed by exactly the name |
| DetailViewModel.ShareTextInjective | app/src/main/java/com/nedrysystems/joiefull/ui/detail/DetailViewModel.kt:220 | the name can be read back from the share text |
| DetailViewModel.PrepareShareContent | app/src/main/java/com/nedrysystems/joiefull/ui/detail/DetailViewModel.kt:219-222 | only the share text changes, to the product's share text |
| DetailViewModel.GetUserAndUpdateState | app/src/main/java/com/nedrysystems/joiefull/ui/detail/DetailViewModel.kt:229-249 | the screen state is replaced: no products, not loading, and user 1 with no error, or the "Unknown" user with "User not found" |
| DetailViewModel.UserLoadClearsProducts | app/src/main/java/com/nedrysystems/joiefull/ui/detail/DetailViewModel.kt:236-246 | the state after loading the user does not depend on the state before |
| Agreement.ViewModelsAgree | app/src/main/java/com/nedrysystems/joiefull/ui/detail/DetailViewModel.kt:103-157 | the two view models return the same list and leave the same store on every input, and report the same message when interrupted |
| Agreement.SuccessPathsCoincide | app/src/main/java/com/nedrysystems/joiefull/data/repository/GetProductRepository.kt:16-62 | when the merge completes, the repository and both view models return the same list and store |
| Agreement.PlaceholdersDiffer | app/src/main/java/com/nedrysystems/joiefull/data/repository/GetProductRepository.kt:72-82 | the repository's placeholder differs from the view models' only in name, category and original price |
| Agreement.FallbacksDifferOnlyInPlaceholders | app/src/main/java/com/nedrysystems/joiefull/data/repository/GetProductRepository.kt:62-86 | when the merge is interrupted, the repository keeps the merged prefix and the view models drop it; behind it both list the fallback of the same store, with the repository's and the view models' invented values respectively |
| Agreement.CorrectedMatchesViewModels | app/src/main/java/com/nedrysystems/joiefull/data/repository/GetProductRepository.kt:63-86 | the corrected repository list has the view models' length and overlays on every input, and equals their list when the merge completes |

## Left out

- Networking, JSON decoding, logging, Compose UI, dependency injection and the
  one-line use-case classes. The fetch is an input, and each use case is its
  repository call.
- Coroutines, `StateFlow` and `LiveData`. Each `launch` body is one sequential
  transition, so overlapping toggles and their races are not modelled.
- The `catch` blocks of `fetchProducts` and `fetchProductDetails`. They are
  unreachable here: `getProducts` catches everything inside its own `try`, and
  store reads never fail in the model.
- Store reads that throw. Only the back-fill write and the toggle's write can
  fail. The toggle's read after its write is discarded by the source and is
  not modelled.
- Floating point. Prices and ratings are `real`, and nothing computes with them.
- Ids are unbounded integers. Room's 64-bit rowid, the cast back to `Int`, and
  AUTOINCREMENT exhaustion are not modelled.
- ReviewEntity.kt is not part of this model. The review row's fields are
  taken from `Review.toDto` and `Review.fromDto`.
- The `AppDatabase` singleton and its seed-user insert on creation, which are
  concurrency and platform I/O. `AppDatabase.Tables` only groups the three
  tables.

## Findings

| source | as written | input that shows it | evidently intended | confidence | as-written member | corrected member |
|---|---|---|---|---|---|---|
| app/src/main/java/com/nedrysystems/joiefull/data/repository/GetProductRepository.kt:17-85 | the result list is declared before the `try`, so when a back-fill write throws mid-loop the merged items stay and a stub for every stored overlay is appended after them, the merged ones included | a catalogue of product 1 (already stored) and product 2 (not stored), a store holding only 1, and the write of 2's default overlay throwing: the result lists id 1 twice, once merged and once as a stub | only the local products, as the fallback's comment says | not executed; medium | GetProductRepository.PartialFailureExample | GetProductRepository.GetProductsCorrected |
