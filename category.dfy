/** The category operations of the Boards app
    (server/boards/app/category.go): get, create, update, delete with board
    migration, reorder with its check, and the page walk over a user's
    categories. Every operation is a read-check-write sequence on the store. */
module CategoryApp {
  import opened CategoryModel
  import opened Paging
  import opened CategoryStore
  import opened Migration
  import opened Reorder

  /** A change notification the app sends after a successful write. */
  datatype Broadcast =
    | CategoryChange(category: Category)
    | CategoryReorder(teamId: string, userId: string, order: seq<string>)

  /** The distinct IDs of a listing. */
  function IdSet(cs: seq<Category>): set<string>
  {
    set i | 0 <= i < |cs| :: cs[i].id
  }

  /** The callback of verifyNewCategoriesMatchExisting: note the category's ID. */
  function CollectId(ids: set<string>, c: Category): Step<set<string>>
  {
    Step(ids + {c.id}, false, None)
  }

  lemma {:induction false} FoldCollectsIds(cs: seq<Category>, ids: set<string>)
    ensures Fold(cs, CollectId, ids) == Visit(ids + IdSet(cs), |cs|, false, None)
    decreases |cs|
  {
    if cs != [] {
      var P := cs[..|cs| - 1];
      FoldCollectsIds(P, ids);
      assert IdSet(cs) == IdSet(P) + {cs[|cs| - 1].id} by {
        assert forall i :: 0 <= i < |P| ==> P[i] == cs[i];
      }
      var st := CollectId(ids + IdSet(P), cs[|cs| - 1]);
      assert Fold(cs, CollectId, ids) == Visit(st.state, |P| + 1, st.done || st.err.Some?, st.err);
      assert st.state == ids + IdSet(cs);
    } else {
      assert IdSet(cs) == {};
      assert ids + IdSet(cs) == ids;
    }
  }

  /** The page walk with the collecting visitor ends with the IDs of the
      whole listing when the pages can be read, and otherwise with the
      failure of the first page that cannot. */
  lemma WalkCollectsIds(listing: seq<Category>, failing: set<Call>)
    ensures PagesReadable(listing, failing) ==> Walk(listing, failing, CollectId, {}) == (IdSet(listing), None)
    ensures !PagesReadable(listing, failing) ==>
              exists q: nat :: q <= |listing| / PerPage && UserCategoriesPage(q) in failing
                               && (forall p: nat :: p < q ==> UserCategoriesPage(p) !in failing)
                               && Walk(listing, failing, CollectId, {}).1 == Some(StoreFailure(UserCategoriesPage(q)))
  {
    if PagesReadable(listing, failing) {
      WalkVisitsAll(listing, failing, CollectId, {});
      FoldCollectsIds(listing, {});
      assert {} + IdSet(listing) == IdSet(listing);
    } else {
      assert NeverStops(CollectId);
      WalkFailsAtFirstBadPage(listing, failing, CollectId, {});
    }
  }

  /** Every ID of an order the check accepts names a stored category of the scope. */
  lemma AcceptedIdsInScope(d: StoreData, s: Scope, order: seq<string>)
    requires d.Valid() && Accepts(IdSet(d.Listing(s)), order)
    ensures forall id :: id in order ==> d.InScope(id, s)
  {
    var L := d.Listing(s);
    forall id | id in order ensures d.InScope(id, s) {
      var k :| 0 <= k < |order| && order[k] == id;
      var i :| 0 <= i < |L| && L[i].id == id;
      assert L[i] in L;
    }
  }

  /** What moveBoardsToDefaultCategory decides on a store in state `d`:
      the failure of the listing read, or the plan of the scan. */
  function MigrationPlan(d: StoreData, failing: set<Call>, userId: string, teamId: string, sourceId: string): Result<Move>
  {
    if UserCategoryBoardsCall in failing then Err(StoreFailure(UserCategoryBoardsCall))
    else MovePlan(d.BoardsListing(Scope(userId, teamId)), sourceId)
  }

  /** Hands `items` to `step` in order until it is done or fails. */
  method VisitAll<T, S>(items: seq<T>, step: (S, T) -> Step<S>, init: S) returns (v: Visit<S>)
    ensures v == Fold(items, step, init)
  {
    v := Visit(init, 0, false, None);
    for i := 0 to |items|
      invariant v == Fold(items[..i], step, init)
      invariant !v.stopped
    {
      assert items[..i + 1][..i] == items[..i];
      var st := step(v.state, items[i]);
      v := Visit(st.state, v.visited + 1, st.done || st.err.Some?, st.err);
      if v.stopped {
        assert items[..i + 1] + items[i + 1..] == items;
        FoldIgnoresRest(items[..i + 1], items[i + 1..], step, init);
        return;
      }
    }
    assert items[..|items|] == items;
  }

  /** The board IDs of membership records, collected into a new array. */
  method CollectBoardIds(ms: seq<BoardMetadata>) returns (ids: seq<string>)
    ensures |ids| == |ms| && forall i :: 0 <= i < |ms| ==> ids[i] == ms[i].boardId
    ensures ids == BoardIds(ms)
  {
    var a := new string[|ms|];
    for i := 0 to |ms|
      invariant forall j :: 0 <= j < i ==> a[j] == ms[j].boardId
    {
      a[i] := ms[i].boardId;
    }
    ids := a[..];
  }

  class App {
    const store: Store
    /** The notifications sent so far, in the order they were dispatched. */
    var broadcasts: seq<Broadcast>

    constructor (store: Store)
      ensures this.store == store && broadcasts == []
    {
      this.store := store;
      broadcasts := [];
    }

    twostate predicate NothingWritten()
      reads this, store
    {
      store.data == old(store.data) && store.requests == old(store.requests) && broadcasts == old(broadcasts)
    }

    method GetCategory(categoryId: string) returns (r: Result<Category>)
      ensures r == store.ReadCategory(categoryId)
    {
      r := store.GetCategory(categoryId);
    }

    method CreateCategory(category: MutableCategory, newId: string, now: Millis) returns (r: Result<Category>)
      requires store.Valid()
      modifies this, store, category
      ensures store.Valid()
      ensures category.value == Hydrated(old(category.value), newId, now)
      ensures var h := Hydrated(old(category.value), newId, now);
              IsValid(h).Some? ==> r == Err(IsValid(h).value) && NothingWritten()
      ensures var h := Hydrated(old(category.value), newId, now);
              IsValid(h).None? ==> store.requests == old(store.requests) + [CreateRequest(h)]
      ensures var h := Hydrated(old(category.value), newId, now);
              IsValid(h).None? && (CreateCall in store.failing || h.id in old(store.data.categories)) ==>
                r == Err(StoreFailure(CreateCall)) && store.data == old(store.data) && broadcasts == old(broadcasts)
      ensures var h := Hydrated(old(category.value), newId, now);
              var reread := GetCategoryCall(|old(store.requests)| + 1);
              IsValid(h).None? && CreateCall !in store.failing && h.id !in old(store.data.categories) ==>
                && store.data == old(store.data).Created(h)
                && (reread in store.failing ==> r == Err(StoreFailure(reread)) && broadcasts == old(broadcasts))
                && (reread !in store.failing ==> r == Ok(h) && broadcasts == old(broadcasts) + [CategoryChange(h)])
      ensures r.Ok? ==> IsValid(r.value).None? && store.data.categories[r.value.id] == r.value
                        && (old(category.value).kind == Unset ==> r.value.kind == Custom)
                        && (old(category.value).kind != Unset ==> r.value.kind == old(category.value).kind)
    {
      category.Hydrate(newId, now);
      var invalid := IsValid(category.value);
      if invalid.Some? {
        return Err(invalid.value);
      }
      var writeErr := store.CreateCategory(category.value);
      if writeErr.Some? {
        return Err(writeErr.value);
      }
      r := store.GetCategory(category.value.id);
      if r.Ok? {
        broadcasts := broadcasts + [CategoryChange(r.value)];
      }
    }

    method UpdateCategory(category: MutableCategory, newId: string, now: Millis) returns (r: Result<Category>)
      requires store.Valid()
      modifies this, store, category
      ensures store.Valid()
      // The checks before anything is written, in order.
      ensures var h := Hydrated(old(category.value), newId, now);
              var pre := old(store.ReadCategory(h.id));
              && (IsValid(h).Some? ==> r == Err(IsValid(h).value) && category.value == h && NothingWritten())
              && (IsValid(h).None? && pre.Err? ==> r == Err(pre.error) && category.value == h && NothingWritten())
              && (IsValid(h).None? && pre.Ok? && pre.value.deleteAt != 0 ==>
                    r == Err(CategoryDeleted) && category.value == h && NothingWritten())
              && (IsValid(h).None? && pre.Ok? && pre.value.deleteAt == 0
                  && (pre.value.userId != h.userId || pre.value.teamId != h.teamId) ==>
                    r == Err(CategoryPermissionDenied) && category.value == h && NothingWritten())
      // Past the checks: the stored type is kept, a system category keeps its
      // name and is undeleted, and the update time is the clock reading.
      ensures var h := Hydrated(old(category.value), newId, now);
              var pre := old(store.ReadCategory(h.id));
              IsValid(h).None? && pre.Ok? && pre.value.deleteAt == 0
              && pre.value.userId == h.userId && pre.value.teamId == h.teamId ==>
                var w := category.value;
                && w.id == h.id && w.userId == h.userId && w.teamId == h.teamId && w.createAt == h.createAt
                && w.kind == pre.value.kind
                && (pre.value.kind == System ==> w.name == pre.value.name && w.deleteAt == 0)
                && (pre.value.kind != System ==> w.name == h.name && w.deleteAt == h.deleteAt)
                && w.updateAt == now
                && (IsValid(w).Some? ==> r == Err(IsValid(w).value) && NothingWritten())
                && (IsValid(w).None? ==>
                      && store.requests == old(store.requests) + [UpdateRequest(w)]
                      && (UpdateCall in store.failing ==>
                            r == Err(StoreFailure(UpdateCall)) && store.data == old(store.data)
                            && broadcasts == old(broadcasts))
                      && (UpdateCall !in store.failing ==>
                            var reread := GetCategoryCall(|old(store.requests)| + 1);
                            && store.data == old(store.data).Updated(w)
                            && (reread in store.failing ==>
                                  r == Err(StoreFailure(reread)) && broadcasts == old(broadcasts))
                            && (reread !in store.failing ==>
                                  r == Ok(w) && broadcasts == old(broadcasts) + [CategoryChange(w)])))
      ensures var h := Hydrated(old(category.value), newId, now);
              var pre := old(store.ReadCategory(h.id));
              r.Ok? ==> pre.Ok? && r.value.kind == pre.value.kind
                        && (pre.value.kind == System ==> r.value.name == pre.value.name && r.value.deleteAt == 0)
      ensures store.requests != old(store.requests) ==>
                IsValid(Hydrated(old(category.value), newId, now)).None? && IsValid(category.value).None?
    {
      category.Hydrate(newId, now);
      var invalid := IsValid(category.value);
      if invalid.Some? {
        return Err(invalid.value);
      }
      var existing := store.GetCategory(category.value.id);
      if existing.Err? {
        return Err(existing.error);
      }
      if existing.value.deleteAt != 0 {
        return Err(CategoryDeleted);
      }
      if existing.value.userId != category.value.userId {
        return Err(CategoryPermissionDenied);
      }
      if existing.value.teamId != category.value.teamId {
        return Err(CategoryPermissionDenied);
      }
      category.value := category.value.(kind := existing.value.kind);
      if existing.value.kind == System {
        category.value := category.value.(name := existing.value.name, deleteAt := 0);
      }
      category.value := category.value.(updateAt := now);
      invalid := IsValid(category.value);
      if invalid.Some? {
        return Err(invalid.value);
      }
      var writeErr := store.UpdateCategory(category.value);
      if writeErr.Some? {
        return Err(writeErr.value);
      }
      r := store.GetCategory(category.value.id);
      if r.Ok? {
        broadcasts := broadcasts + [CategoryChange(r.value)];
      }
    }

    method DeleteCategory(categoryId: string, userId: string, teamId: string, now: Millis) returns (r: Result<Category>)
      requires store.Valid()
      modifies this, store
      ensures store.Valid()
      // Already deleted: the stored record, before any ownership check.
      ensures var pre := old(store.ReadCategory(categoryId));
              && (pre.Err? ==> r == pre && NothingWritten())
              && (pre.Ok? && pre.value.deleteAt != 0 ==> r == pre && NothingWritten())
              && (pre.Ok? && pre.value.deleteAt == 0 && pre.value.userId != userId ==>
                    r == Err(CategoryPermissionDenied) && NothingWritten())
              && (pre.Ok? && pre.value.deleteAt == 0 && pre.value.userId == userId && pre.value.teamId != teamId ==>
                    r == Err(InvalidCategory("category doesn't belong to the team")) && NothingWritten())
              && (pre.Ok? && pre.value.deleteAt == 0 && pre.value.userId == userId && pre.value.teamId == teamId
                  && pre.value.kind == System ==>
                    r == Err(CannotDeleteSystemCategory) && NothingWritten())
      // Past the checks: the boards move first, and only then the delete.
      ensures var pre := old(store.ReadCategory(categoryId));
              pre.Ok? && pre.value.deleteAt == 0 && pre.value.userId == userId && pre.value.teamId == teamId
              && pre.value.kind != System ==>
                MigratedThenDeleted(categoryId, userId, teamId, now, pre.value, r)
      // The store delete is requested only after a successful migration.
      ensures DeleteRequest(categoryId, userId, teamId) in store.requests[|old(store.requests)|..] ==>
                MigrationPlan(old(store.data), store.failing, userId, teamId, categoryId).Ok?
                && AddUpdateCategoryBoardCall !in store.failing
    {
      var existing := store.GetCategory(categoryId);
      if existing.Err? {
        return existing;
      }
      if existing.value.deleteAt != 0 {
        return existing;
      }
      if existing.value.userId != userId {
        return Err(CategoryPermissionDenied);
      }
      if existing.value.teamId != teamId {
        return Err(InvalidCategory("category doesn't belong to the team"));
      }
      if existing.value.kind == System {
        return Err(CannotDeleteSystemCategory);
      }
      r := MigrateThenDelete(categoryId, userId, teamId, now, existing.value);
    }

    /** The outcome of deleting `existing`, stored under `categoryId` in the
        scope given, once the checks have passed: a failed migration is
        reported with no store change and no delete; otherwise the boards are
        moved, and only then the delete is requested; a successful delete
        returns and notifies the re-read record, marked deleted at `now`. */
    twostate predicate MigratedThenDeleted(categoryId: string, userId: string, teamId: string, now: Millis,
                                           existing: Category, new r: Result<Category>)
      reads this, store
    {
      var plan := MigrationPlan(old(store.data), store.failing, userId, teamId, categoryId);
      && (plan.Err? ==> r == Err(plan.error) && NothingWritten())
      && (plan.Ok? ==>
            var move := AddUpdateCategoryBoardRequest(userId, plan.value.target, plan.value.boardIds);
            var moved := old(store.data).BoardsMoved(userId, plan.value.target, plan.value.boardIds);
            && (AddUpdateCategoryBoardCall in store.failing ==>
                  r == Err(StoreFailure(AddUpdateCategoryBoardCall)) && store.data == old(store.data)
                  && store.requests == old(store.requests) + [move] && broadcasts == old(broadcasts))
            && (AddUpdateCategoryBoardCall !in store.failing ==>
                  && store.requests == old(store.requests) + [move, DeleteRequest(categoryId, userId, teamId)]
                  && (DeleteCall in store.failing ==>
                        r == Err(StoreFailure(DeleteCall)) && store.data == moved
                        && broadcasts == old(broadcasts))
                  && (DeleteCall !in store.failing ==>
                        var reread := GetCategoryCall(|old(store.requests)| + 2);
                        var deleted := existing.(deleteAt := now);
                        && store.data == moved.SoftDeleted(categoryId, Scope(userId, teamId), now)
                        && (reread in store.failing ==>
                              r == Err(StoreFailure(reread)) && broadcasts == old(broadcasts))
                        && (reread !in store.failing ==>
                              r == Ok(deleted) && broadcasts == old(broadcasts) + [CategoryChange(deleted)]))))
    }

    /** The part of DeleteCategory after its checks. */
    method MigrateThenDelete(categoryId: string, userId: string, teamId: string, now: Millis, existing: Category)
      returns (r: Result<Category>)
      requires store.Valid()
      requires categoryId in store.data.categories && store.data.categories[categoryId] == existing
      requires existing.userId == userId && existing.teamId == teamId
      modifies this, store
      ensures store.Valid()
      ensures MigratedThenDeleted(categoryId, userId, teamId, now, existing, r)
      ensures DeleteRequest(categoryId, userId, teamId) in store.requests[|old(store.requests)|..] ==>
                MigrationPlan(old(store.data), store.failing, userId, teamId, categoryId).Ok?
                && AddUpdateCategoryBoardCall !in store.failing
    {
      var moveErr := MoveBoardsToDefaultCategory(userId, teamId, categoryId);
      if moveErr.Some? {
        return Err(moveErr.value);
      }
      var deleteErr := store.DeleteCategory(categoryId, userId, teamId, now);
      if deleteErr.Some? {
        return Err(deleteErr.value);
      }
      r := store.GetCategory(categoryId);
      if r.Ok? {
        broadcasts := broadcasts + [CategoryChange(r.value)];
      }
    }

    method MoveBoardsToDefaultCategory(userId: string, teamId: string, sourceCategoryId: string) returns (err: Option<Error>)
      requires store.Valid()
      modifies store
      ensures store.Valid()
      ensures var plan := MigrationPlan(old(store.data), store.failing, userId, teamId, sourceCategoryId);
              && (plan.Err? ==>
                    err == Some(plan.error) && store.data == old(store.data) && store.requests == old(store.requests))
              && (plan.Ok? ==>
                    && store.requests == old(store.requests)
                         + [AddUpdateCategoryBoardRequest(userId, plan.value.target, plan.value.boardIds)]
                    && (AddUpdateCategoryBoardCall in store.failing ==>
                          err == Some(StoreFailure(AddUpdateCategoryBoardCall)) && store.data == old(store.data))
                    && (AddUpdateCategoryBoardCall !in store.failing ==>
                          err == None
                          && store.data == old(store.data).BoardsMoved(userId, plan.value.target, plan.value.boardIds)))
    {
      var found, walkErr := ForEachUserCategoryBoard(userId, teamId, ScanStepFor(sourceCategoryId), NothingFound);
      if walkErr.Some? {
        return walkErr;
      }
      if found.source.None? {
        return Some(CategoryNotFound(None));
      }
      if found.defaultId == "" {
        return Some(NoDefaultCategoryFound);
      }
      var boardIds := CollectBoardIds(found.source.value.boardMetadata);
      err := store.AddUpdateCategoryBoard(userId, found.defaultId, boardIds);
    }

    /** The walk over the user's categories with their boards, read at once. */
    method ForEachUserCategoryBoard<S>(userId: string, teamId: string, step: (S, CategoryBoards) -> Step<S>, init: S)
      returns (state: S, err: Option<Error>)
      ensures UserCategoryBoardsCall in store.failing ==>
                state == init && err == Some(StoreFailure(UserCategoryBoardsCall))
      ensures UserCategoryBoardsCall !in store.failing ==>
                var v := Fold(store.data.BoardsListing(Scope(userId, teamId)), step, init);
                state == v.state && err == v.err
    {
      var listing := store.GetUserCategoryBoards(userId, teamId);
      if listing.Err? {
        return init, Some(listing.error);
      }
      var v := VisitAll(listing.value, step, init);
      return v.state, v.err;
    }

    method ReorderCategories(userId: string, teamId: string, newCategoryOrder: seq<string>) returns (r: Result<seq<string>>)
      requires store.Valid()
      modifies this, store
      ensures store.Valid()
      ensures var L := old(store.data.Listing(Scope(userId, teamId)));
              var readable := PagesReadable(L, store.failing);
              && (!(readable && Accepts(IdSet(L), newCategoryOrder)) ==> r.Err? && NothingWritten())
              && (readable && |newCategoryOrder| != |IdSet(L)| ==>
                    r == Err(CategoriesLengthMismatch(|newCategoryOrder|, |IdSet(L)|, userId, teamId)))
              && (readable && !Accepts(IdSet(L), newCategoryOrder) ==>
                    r == Err(OrderError(IdSet(L), newCategoryOrder, userId, teamId).value))
              && (readable && Accepts(IdSet(L), newCategoryOrder) ==>
                    && store.requests == old(store.requests) + [ReorderRequest(userId, teamId, newCategoryOrder)]
                    && (ReorderCall in store.failing ==>
                          r == Err(StoreFailure(ReorderCall)) && store.data == old(store.data)
                          && broadcasts == old(broadcasts))
                    // What is returned and notified is the order the store
                    // committed, which need not be the requested one.
                    && (ReorderCall !in store.failing ==>
                          var order := store.committed(old(store.data.OrderOf(Scope(userId, teamId))), newCategoryOrder);
                          && store.data == old(store.data).Reordered(Scope(userId, teamId), order)
                          && r == Ok(order)
                          && broadcasts == old(broadcasts) + [CategoryReorder(teamId, userId, order)]))
    {
      var mismatch := VerifyNewCategoriesMatchExisting(userId, teamId, newCategoryOrder);
      if mismatch.Some? {
        return Err(mismatch.value);
      }
      AcceptedIdsInScope(store.data, Scope(userId, teamId), newCategoryOrder);
      r := store.ReorderCategories(userId, teamId, newCategoryOrder);
      if r.Ok? {
        broadcasts := broadcasts + [CategoryReorder(teamId, userId, r.value)];
      }
    }

    method VerifyNewCategoriesMatchExisting(userId: string, teamId: string, newCategoryOrder: seq<string>)
      returns (err: Option<Error>)
      ensures var L := store.data.Listing(Scope(userId, teamId));
              PagesReadable(L, store.failing) ==>
                && err == OrderError(IdSet(L), newCategoryOrder, userId, teamId)
                && (err.None? <==> Accepts(IdSet(L), newCategoryOrder))
                && (|newCategoryOrder| != |IdSet(L)| ==>
                      err == Some(CategoriesLengthMismatch(|newCategoryOrder|, |IdSet(L)|, userId, teamId)))
      ensures var L := store.data.Listing(Scope(userId, teamId));
              !PagesReadable(L, store.failing) ==>
                exists q: nat :: q <= |L| / PerPage && UserCategoriesPage(q) in store.failing
                                 && (forall p: nat :: p < q ==> UserCategoriesPage(p) !in store.failing)
                                 && err == Some(StoreFailure(UserCategoriesPage(q)))
    {
      var existing, walkErr := ForEachUserCategory(userId, teamId, CollectId, {});
      ghost var L := store.data.Listing(Scope(userId, teamId));
      OrderErrorMeaning(IdSet(L), newCategoryOrder, userId, teamId);
      WalkCollectsIds(L, store.failing);
      if walkErr.Some? {
        return walkErr;
      }
      if |newCategoryOrder| != |existing| {
        return Some(CategoriesLengthMismatch(|newCategoryOrder|, |existing|, userId, teamId));
      }
      for i := 0 to |newCategoryOrder|
        invariant forall j :: 0 <= j < i ==> newCategoryOrder[j] in existing
      {
        if newCategoryOrder[i] !in existing {
          return Some(CategoryNotFound(Some(ScopedId(newCategoryOrder[i], userId, teamId))));
        }
      }
      return None;
    }

    /** Visits the user's categories page by page, `PerPage` at a time,
        starting at page 0, until a page read fails, the callback is done or
        fails, or a page is short. */
    method ForEachUserCategory<S>(userId: string, teamId: string, step: (S, Category) -> Step<S>, init: S)
      returns (state: S, err: Option<Error>)
      ensures (state, err) == Walk(store.data.Listing(Scope(userId, teamId)), store.failing, step, init)
    {
      ghost var L := store.data.Listing(Scope(userId, teamId));
      var page: nat := 0;
      state := init;
      while true
        invariant page * PerPage <= |L|
        invariant WalkFrom(L, page, store.failing, step, state) == Walk(L, store.failing, step, init)
        decreases |L| - page * PerPage
      {
        var categories := store.GetUserCategories(userId, teamId, page, PerPage);
        if categories.Err? {
          return state, Some(categories.error);
        }
        var v := VisitAll(categories.value, step, state);
        state := v.state;
        if v.stopped {
          return state, v.err;
        }
        if |categories.value| < PerPage {
          return state, None;
        }
        page := page + 1;
      }
    }
  }

  /** Deleting a live category whose name is not the default name: its
      boards, in order, end up last in the default category the scan picked,
      which is another category; none stay with the deleted category, whose
      deletion time is the clock reading; the default category's record is
      left as it was. */
  lemma DeletionMovesBoardsToDefault(d: StoreData, s: Scope, sourceId: string, now: Millis)
    requires d.Valid() && d.IsLive(sourceId, s)
    requires d.categories[sourceId].name != DefaultCategoryName
    requires MovePlan(d.BoardsListing(s), sourceId).Ok?
    ensures var m := MovePlan(d.BoardsListing(s), sourceId).value;
            var d' := d.BoardsMoved(s.userId, m.target, m.boardIds).SoftDeleted(sourceId, s, now);
            && m.target != sourceId
            && m.boardIds == BoardIds(d.BoardsOf(sourceId))
            && d'.BoardsOf(sourceId) == []
            && BoardIds(d'.BoardsOf(m.target))[|d'.BoardsOf(m.target)| - |m.boardIds|..] == m.boardIds
            && sourceId in d'.categories && d'.categories[sourceId].deleteAt == now
            && m.target in d.categories && m.target in d'.categories
            && d'.categories[m.target] == d.categories[m.target]
  {
    var m := MovePlan(d.BoardsListing(s), sourceId).value;
    MovePlanFromStore(d, s, sourceId);
    BoardsMovedEffect(d, s.userId, m.target, m.boardIds);
    WithoutOwnBoards(d.BoardsOf(sourceId));
  }

  /** Deleting a live category whose own name is the default name: the scan
      picks that category itself as the default, so its boards are moved onto
      itself and stay with it after it is marked deleted. */
  lemma DeletionOfCategoryNamedDefaultKeepsBoards(d: StoreData, s: Scope, sourceId: string, now: Millis)
    requires d.Valid() && d.IsLive(sourceId, s) && sourceId in d.OrderOf(s)
    requires d.categories[sourceId].name == DefaultCategoryName
    ensures var plan := MovePlan(d.BoardsListing(s), sourceId);
            plan.Ok? && plan.value.target == sourceId
            && var d' := d.BoardsMoved(s.userId, sourceId, plan.value.boardIds).SoftDeleted(sourceId, s, now);
               && BoardIds(d'.BoardsOf(sourceId)) == BoardIds(d.BoardsOf(sourceId))
               && sourceId in d'.categories && d'.categories[sourceId].deleteAt == now
  {
    var L := d.BoardsListing(s);
    MovePlanFromStore(d, s, sourceId);
    BoardsListingEntries(d, s);
    assert HasId(L, sourceId) by {
      // The source is live in the scope, so it is listed.
      ListedWhenLive(d, s, sourceId);
    }
    forall i | 0 <= i < |L| && L[i].category.id == sourceId
      ensures L[i].category.name == DefaultCategoryName
    {
      assert L[i] in L;
    }
    SourceNamedDefaultIsTarget(L, sourceId);
    var plan := MovePlan(L, sourceId);
    BoardsMovedEffect(d, s.userId, sourceId, plan.value.boardIds);
    WithoutOwnBoards(d.BoardsOf(sourceId));
    BoardIdsOfMemberships(plan.value.boardIds);
  }

  /** A live category that appears in its scope's order is listed. */
  lemma ListedWhenLive(d: StoreData, s: Scope, id: string)
    requires d.Valid() && d.IsLive(id, s) && id in d.OrderOf(s)
    ensures HasId(d.BoardsListing(s), id)
  {
    LiveInHas(d, d.OrderOf(s), s, id);
    var cs := d.Listing(s);
    var i :| 0 <= i < |cs| && cs[i].id == id;
    assert d.BoardsListing(s)[i].category.id == id;
  }

  lemma {:induction false} LiveInHas(d: StoreData, ids: seq<string>, s: Scope, id: string)
    requires d.Valid() && d.IsLive(id, s) && id in ids
    ensures exists i :: 0 <= i < |d.LiveIn(ids, s)| && d.LiveIn(ids, s)[i].id == id
    decreases |ids|
  {
    if ids[0] == id {
      assert d.LiveIn(ids, s)[0].id == id;
    } else {
      LiveInHas(d, ids[1..], s, id);
      var rest := d.LiveIn(ids[1..], s);
      var i :| 0 <= i < |rest| && rest[i].id == id;
      var head := if d.IsLive(ids[0], s) then [d.categories[ids[0]]] else [];
      assert d.LiveIn(ids, s) == head + rest;
      assert d.LiveIn(ids, s)[|head| + i].id == id;
    }
  }
}
