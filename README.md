# Boards categories in Dafny

This project models the category logic of the Mattermost Boards app
(`server/boards/app/category.go`). A category is a named group of boards that
belongs to one user in one team, which the model calls a scope. The logic
creates, updates, deletes and reorders categories. All its effects go through
a persistence store.

The model is imperative, like the Go code:

- **Store class.** `CategoryStore.Store` holds four things:
  - the store's tables as one value (`StoreData`): categories by ID, the category order of each scope, and the board memberships of each category;
  - the set of calls that fail (`failing`);
  - the order it commits for a reorder request (`committed`), a function of the scope's current order and the requested one that only names IDs from either;
  - a log of every write request, failed or not (`requests`).

  A category read made after `n` write requests fails when `GetCategoryCall(n)` is in `failing`. So the re-read after a write can fail on its own.
- **App class.** `CategoryApp.App` holds the store and a log of the change notifications sent. Its methods are the operations of `category.go`. Each contract says, case by case, which result is returned, which requests are made and what the new store state is.
- **Caller's category.** `CreateCategory` and `UpdateCategory` change the caller's category in place. It is a `MutableCategory` object, and its fields are rewritten step by step as in the source.
- **Visitor callbacks.** A Go closure that updates the variables it captures becomes a step function over a state value holding those variables.
  - `Paging.Fold` visits items with early stop.
  - `Paging.Walk` specifies the 50-per-page walk of `ForEachUserCategory`.
  - `Migration.MovePlan` and `Reorder.OrderError` state what the board migration and the reorder check decide.

  The methods that loop (`VisitAll`, `ForEachUserCategory`, `VerifyNewCategoriesMatchExisting`, `CollectBoardIds`) are proved against these functions. Lemmas then prove what the source promises about the functions.

Modules: `CategoryModel` (model.dfy), `Paging` (paging.dfy), `CategoryStore`
(store.dfy), `Migration` (migration.dfy), `Reorder` (reorder.dfy) and
`CategoryApp` (category.dfy).

## Model

| member | source | states |
|---|---|---|
| CategoryModel.Hydrated | server/boards/app/category.go:24 | Hydration keeps the name, owner, team and deletion time. It gives an ID-less category the generated ID and an untyped one the custom type. An empty creation time becomes the clock reading, and an empty update time becomes the creation time; set times are kept, so both end up non-zero. |
| CategoryModel.MutableCategory.Hydrate | server/boards/app/category.go:46 | The caller's category is replaced, in place, by its hydrated form. |
| CategoryModel.IsValid | server/boards/app/category.go:25-27 | A category is valid exactly when its ID, name, user ID and team ID are non-empty and its type is custom or system. Otherwise the result is an invalid-category error. |
| Paging.Fold | server/boards/app/category.go:258-262 | A visit with early stop hands at most all items to the callback. It stops only after at least one item. A visit that does not stop sees every item and reports no error. |
| Paging.FoldConcat | server/boards/app/category.go:250-266 | Visiting two pages one after the other is resuming the visit of the first with the second, unless the callback stopped in the first. |
| Paging.WalkFrom | server/boards/app/category.go:250-266 | The walk from one page on. A failing page read ends it with that page's error. A callback that stops ends it with the callback's error. A page shorter than 50 ends it with no error. Otherwise it goes on with the next page. Its properties are stated by `WalkVisitsAll`, `WalkStopsEarly` and `WalkFailsAtFirstBadPage`. |
| Paging.Walk | server/boards/app/category.go:247-268 | What `ForEachUserCategory` does: the walk from page 0. |
| Paging.WalkVisitsAll | server/boards/app/category.go:247-268 | When no page read fails, the page walk visits the whole listing in store order, from page 0, and stops only where the callback stops. Its outcome is that of one visit over the whole listing. |
| Paging.WalkStopsEarly | server/boards/app/category.go:258-262 | When the callback stops within the first k + 1 pages, or the listing ends there, and those pages can be read, the walk's outcome is that of one visit over the whole listing. Failing reads of later pages make no difference, because those pages are never read. |
| Paging.WalkFromStopsEarly | server/boards/app/category.go:250-266 | The same from any page on: readable pages up to k and a stop within them give the outcome of visiting the rest of the listing at once. |
| Paging.WalkFailsAt | server/boards/app/category.go:250-262 | For any callback: when pages 0 to q - 1 can be read, are full, and the callback does not stop within them, a failing read of page q ends the walk with that page's error and the state the callback had reached. |
| Paging.WalkFromFailsAt | server/boards/app/category.go:250-266 | The same from any starting page. |
| Paging.WalkFailsAtFirstBadPage | server/boards/app/category.go:251-257 | With a callback that never stops, a failing page read ends the walk with the error of the first failing page. |
| CategoryStore.BoardIds | server/boards/app/category.go:181-184 | The board IDs of membership records have the records' length and order. |
| CategoryStore.Without | server/boards/app/category.go:186 | A membership record survives removal of some boards exactly when its board is not among them. |
| CategoryStore.BoardsMovedEffect | server/boards/app/category.go:186 | Reassigning boards leaves categories and orders alone. The target then ends with the moved boards in order, the user's other categories lose them, and other users' categories are untouched. |
| CategoryStore.BoardsMovedAt | server/boards/app/category.go:186 | After a reassignment, the target has its other records followed by the moved boards. The user's other categories lose the moved boards, and any other category is as before. |
| CategoryStore.WithoutOwnBoards | server/boards/app/category.go:181-186 | Removing all of a list's own boards from it leaves nothing. |
| CategoryStore.BoardIdsOfMemberships | server/boards/app/category.go:186 | New membership records built from board IDs give those IDs back. |
| CategoryStore.CreatedIsListedLast | server/boards/app/category.go:29 | In a valid model store, a newly stored undeleted category is listed last in its scope, after everything listed before. |
| CategoryStore.BoardsListingEntries | server/boards/app/category.go:154 | Each entry of a scope's board listing is the stored, live category with a non-empty ID, together with its stored boards. |
| CategoryStore.Store.GetCategory | server/boards/app/category.go:20 | A read returns the stored category, a not-found error, or the read's failure. |
| CategoryStore.Store.CreateCategory | server/boards/app/category.go:29 | The create request is logged. The store adds the category, last in its scope's order, unless the call fails or the ID is taken; in that case nothing changes. |
| CategoryStore.Store.UpdateCategory | server/boards/app/category.go:83 | The update request is logged. The stored record is overwritten unless the call fails. |
| CategoryStore.Store.DeleteCategory | server/boards/app/category.go:129 | The delete request is logged. Unless the call fails, the category is marked deleted at the given time if it belongs to the given user and team; otherwise the data stays as it was. |
| CategoryStore.Store.GetUserCategories | server/boards/app/category.go:251-254 | A page read returns that page of the scope's listing, or the page's failure. |
| CategoryStore.Store.GetUserCategoryBoards | server/boards/app/category.go:154 | Returns the scope's listing with its boards, or the read's failure. |
| CategoryStore.Store.ReorderCategories | server/boards/app/category.go:198 | The reorder request is logged. Unless the call fails, the store's committed order for the current order and the request is stored and returned. |
| CategoryStore.Store.AddUpdateCategoryBoard | server/boards/app/category.go:186 | The reassignment request is logged. The boards are moved unless the call fails. |
| Migration.ScanStep | server/boards/app/category.go:154-168 | The migration visitor for one category: it takes the category as the source if the IDs match, and takes its ID as the default if it is named "Boards". It is done once both are known. Its properties are stated by the `Scan…` lemmas below. |
| Migration.ScanStepFor | server/boards/app/category.go:154 | The visitor closure with the source ID it captures. |
| Migration.Scan | server/boards/app/category.go:154-168 | The visit of that closure over a listing, from nothing found. |
| Migration.MovePlan | server/boards/app/category.go:169-184 | What the migration decides from a scanned listing, in the source's order: the visitor's error, category not found, no default found, or the move of the source's board IDs to the default's ID. Its meaning is stated by `MovePlanOutcome` and `MovePlanFromStore`. |
| Migration.ScanStops | server/boards/app/category.go:163-167 | The scan visitor never reports an error. It is done exactly when it holds both the source and a default ID. |
| Migration.ScanSource | server/boards/app/category.go:155-157 | The scan holds the source exactly when the visited part of the listing contains it, and then it holds that listed entry. |
| Migration.ScanDefault | server/boards/app/category.go:159-161 | The scan holds a default ID exactly when the visited part has a category named "Boards", and the ID is one such category's. |
| Migration.ScanStopsFirst | server/boards/app/category.go:163-166 | A stopped scan stops at the first category by which both the source and a default have been seen. |
| Migration.ScanInvariant | server/boards/app/category.go:154-168 | The scan never fails. It holds the source exactly when the visited part contains it, and a default ID, belonging to a category named "Boards", exactly when the visited part has one. It stops exactly when the listing has both, right at the first category by which both were seen. |
| Migration.ScanFinds | server/boards/app/category.go:154-168 | The scan finds the source exactly when it is listed. Given the source, it finds a default exactly when some category is named "Boards". |
| Migration.MovePlanOutcome | server/boards/app/category.go:169-184 | The plan is the category-not-found error exactly when the source is not listed. It is the no-default error when no category has the default name. Otherwise it moves the listed source's board IDs, in order, to a listed category named "Boards". |
| Migration.MovePlanFromStore | server/boards/app/category.go:145-186 | On a store's listing, a successful plan moves exactly the stored boards of the source to a live category of the scope named "Boards". |
| Migration.SourceNamedDefaultIsTarget | server/boards/app/category.go:155-161 | When the source itself is named "Boards", the scan picks the source as the default category. |
| Reorder.Accepts | server/boards/app/category.go:221-242 | The acceptance condition of the order check: as many proposed IDs as distinct existing IDs, each of them existing. Its relation to permutations is stated by the lemmas below. |
| Reorder.OrderError | server/boards/app/category.go:221-244 | The error the order check reports: the length mismatch first, then the first proposed ID that does not exist, with the scope. Its meaning is stated by `OrderErrorMeaning`. |
| Reorder.FirstMissing | server/boards/app/category.go:232-242 | Every proposed ID before the returned index exists, and the one at it does not (when it is inside the list). |
| Reorder.OrderErrorMeaning | server/boards/app/category.go:221-244 | The check reports nothing exactly when the length equals the number of distinct existing IDs and every proposed ID exists. A length mismatch is always reported as such. Any other rejection names a missing proposed ID with the scope. |
| Reorder.AcceptedDistinctIsPermutation | server/boards/app/category.go:221-242 | An accepted order without repeated IDs is a permutation of the existing IDs. |
| Reorder.PermutationAccepted | server/boards/app/category.go:221-242 | Every permutation of the existing IDs is accepted. |
| Reorder.DuplicatesNotRejected | server/boards/app/category.go:221-242 | Repeating one existing ID as many times as there are existing IDs is accepted. With two or more existing IDs that order leaves some of them out. |
| CategoryApp.IdSet | server/boards/app/category.go:211-214 | The existing-categories map as a set: the distinct IDs of a listing. |
| CategoryApp.CollectId | server/boards/app/category.go:213-216 | The collecting visitor: add the category's ID, and never stop or fail. |
| CategoryApp.FoldCollectsIds | server/boards/app/category.go:211-216 | The collecting visitor never stops and ends holding exactly the IDs of the listing. |
| CategoryApp.WalkCollectsIds | server/boards/app/category.go:213-219 | If the pages can be read, the walk collects exactly the IDs of the whole listing. Otherwise it fails with the first unreadable page's error. |
| CategoryApp.MigrationPlan | server/boards/app/category.go:145-179 | What the migration decides on a store: the listing read's failure, or the plan of the scan over the listing. |
| CategoryApp.AcceptedIdsInScope | server/boards/app/category.go:194-198 | Every ID of an order the check accepts names a stored category of the scope, so the store reorder is only called with such IDs. |
| CategoryApp.VisitAll | server/boards/app/category.go:258-262 | The visit loop computes the visit with early stop. |
| CategoryApp.CollectBoardIds | server/boards/app/category.go:181-184 | The filled slice holds the source's board IDs, index by index. |
| CategoryApp.App.GetCategory | server/boards/app/category.go:19-21 | The result is the store's read. |
| CategoryApp.App.CreateCategory | server/boards/app/category.go:23-43 | The caller's category is hydrated. It is written only if valid; an invalid category changes nothing else. A failed store write, or an ID already stored, changes only the request log. A failed re-read returns its error with the category already stored and nothing notified. A successful create stores it last in its scope and returns the re-read record. That record is valid, stored, typed custom unless the caller typed it, and notified. |
| CategoryApp.App.UpdateCategory | server/boards/app/category.go:45-97 | See the first list after this table. |
| CategoryApp.App.DeleteCategory | server/boards/app/category.go:99-143 | See the second list after this table. |
| CategoryApp.App.MigratedThenDeleted | server/boards/app/category.go:125-142 | The outcome once Delete's checks have passed. A failed migration is reported with no write and no delete. Otherwise the boards move first and only then is the delete requested. A successful delete returns and notifies the re-read record, marked deleted at `now`. |
| CategoryApp.App.MigrateThenDelete | server/boards/app/category.go:125-142 | The part of `DeleteCategory` after its checks meets `MigratedThenDeleted`. |
| CategoryApp.App.MoveBoardsToDefaultCategory | server/boards/app/category.go:145-191 | A scan failure, a missing source or a missing default is reported with no write. Otherwise exactly one reassignment of the planned boards to the planned default category is requested, and it changes the store as the store defines it. |
| CategoryApp.App.ForEachUserCategoryBoard | server/boards/app/category.go:154 | The outcome is the visit over the scope's listing with boards, or the listing read's failure with the callback never called. |
| CategoryApp.App.VerifyNewCategoriesMatchExisting | server/boards/app/category.go:210-245 | When the pages can be read, the result is the order-check error over the distinct existing IDs. It is nothing exactly when the order is accepted, and the length mismatch comes first. Otherwise the result is the first failing page's error. |
| CategoryApp.App.ReorderCategories | server/boards/app/category.go:193-208 | A rejected order or an unreadable listing returns an error with no write and no notification. An accepted order is sent to the store. On success the order the store committed, which need not be the input, is stored, returned and notified. |
| CategoryApp.App.ForEachUserCategory | server/boards/app/category.go:247-268 | The page loop computes exactly the page walk of 50 per page. |
| CategoryApp.DeletionMovesBoardsToDefault | server/boards/app/category.go:125-131 | After a successful delete of a category not named "Boards", its boards, in order, end last in another category, the default. The deleted category keeps none and carries the delete time. The default's record is as before. |
| CategoryApp.DeletionOfCategoryNamedDefaultKeepsBoards | server/boards/app/category.go:155-161 | Deleting a live, listed category that is itself named "Boards" moves its boards onto itself. They stay with the now-deleted category. |

`CategoryApp.App.UpdateCategory` states, in the source's order of checks:

- Each pre-write check fails with no store change and leaves the caller's category hydrated: invalid after hydration, the read fails or finds nothing, already deleted (a category-deleted error), another owner or team (permission denied).
- Past those checks, the category written keeps the stored type.
- A stored system category also keeps its stored name and has `deleteAt == 0`.
- `updateAt` is the clock reading.
- Only a category that passes the second validity check is written.
- A failed store write changes only the request log. A failed re-read returns its error with the update already stored and nothing notified.
- On success, the re-read record is returned and notified.
- If any write request is made, both validity checks passed.

`CategoryApp.App.DeleteCategory` states, in the source's order of checks:

- If the category is already deleted, the stored record is returned with no write, before any ownership check.
- Each of these returns its error with no write: another owner (permission denied), another team (invalid category), a system category.
- Next, the board migration runs.
- The store delete is requested only after that migration succeeds.
- The end state is the moved boards with the category marked deleted at `now`.
- On success, the re-read deleted record is returned and notified.

Deleting a custom category that is itself named "Boards" picks that category
as the default (`Migration.SourceNamedDefaultIsTarget`). Its boards are then
"moved" onto it, and they stay with it after it is marked deleted
(`CategoryApp.DeletionOfCategoryNamedDefaultKeepsBoards`). The model keeps
this behaviour as the code has it.

## Left out

- The change notifications (`go func() { a.wsAdapter.Broadcast… }()`) are fire-and-forget goroutines. They are modelled as a log appended in the order the goroutines are started. Delivery and its order are not modelled.
- `utils.GetMillis` is the `now` parameter. The ID generator used by `Hydrate` is the `newId` parameter.
- `UpdateCategory` and `CreateCategory`: `Hydrate` and `UpdateCategory` each read the clock; the model gives both the same reading `now`.
- `model.Category.Hydrate` and `IsValid` are not part of this model; their Go definitions live in `model/category.go`. `Hydrated` and `IsValid` are defined from the rules the operations rely on: generated ID, timestamps and custom type when empty; non-empty IDs, name, owner and team; a known type. Whitespace trimming is not modelled.
- `ForEachUserCategoryBoard` and `AddUpdateUserCategoryBoard` are not part of this model. The first is modelled as one store read of the listing with boards, then a visit. The second is modelled as one store call, with the reassignment semantics of `StoreData.BoardsMoved`.
- The SQL store behind `a.store` is not part of this model. Its behaviour is the model's own `Store` class: categories by ID, an order per scope, memberships per category, and a chosen set of failing calls.
- Error wrapping and message formatting (`fmt.Errorf` with `%w`) are left out. Only the error kind and the IDs or lengths it carries are modelled. The store errors are one `StoreFailure` kind that names the failing call.
- CategoryStore.Store.ReorderCategories: the order the store commits is left to its `committed` function, which only has to name IDs of the current or the requested order. The model does not say what happens to live categories that an accepted order repeats or leaves out. If a store commits the request as given, an accepted `[A, A]` for the IDs `{A, B}` leaves B live but out of the scope's listing. Later order checks and migration scans then do not see B.
- CategoryApp.App.CreateCategory: the model store keeps exactly the category it is given. So the re-read record returned equals the one written, and the contract cannot tell returning the re-read record from returning the in-memory category.
- CategoryApp.App.UpdateCategory: the same holds for the record written by an update.
- CategoryApp.App.DeleteCategory: the same holds for a delete, which only sets the deletion time of the stored record.
- `ErrCannotUpdateSystemCategory` is declared but never used in the file, so it has no counterpart.
- `server/channels/store/sqlstore/role_store_test.go` holds no category logic.
- Races between concurrent calls, such as the read-check-write gaps, are not modelled. Every operation runs alone.
