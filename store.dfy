/** The persistence store the category logic calls. Its state is a value
    (`StoreData`) so that "the store did not change" is one equation; the
    `Store` class holds that value, the set of calls that fail, and the log of
    every write request it received. */
module CategoryStore {
  import opened CategoryModel
  import opened Paging

  /** A write request made to the store, successful or not. */
  datatype Request =
    | CreateRequest(category: Category)
    | UpdateRequest(category: Category)
    | DeleteRequest(categoryId: string, userId: string, teamId: string)
    | ReorderRequest(userId: string, teamId: string, order: seq<string>)
    | AddUpdateCategoryBoardRequest(userId: string, categoryId: string, boardIds: seq<string>)

  /** The board IDs of membership records, in their order. */
  function BoardIds(ms: seq<BoardMetadata>): (ids: seq<string>)
    ensures |ids| == |ms|
    ensures forall i :: 0 <= i < |ms| ==> ids[i] == ms[i].boardId
  {
    if ms == [] then [] else [ms[0].boardId] + BoardIds(ms[1..])
  }

  /** Fresh, visible membership records for the given boards, in order. */
  function Memberships(ids: seq<string>): (ms: seq<BoardMetadata>)
    ensures |ms| == |ids|
    ensures forall i :: 0 <= i < |ids| ==> ms[i] == BoardMetadata(ids[i], false)
  {
    if ids == [] then [] else [BoardMetadata(ids[0], false)] + Memberships(ids[1..])
  }

  /** The records of `ms` whose board is not among `ids`, in order. */
  function Without(ms: seq<BoardMetadata>, ids: seq<string>): (r: seq<BoardMetadata>)
    ensures forall m :: m in r <==> m in ms && m.boardId !in ids
  {
    if ms == [] then []
    else (if ms[0].boardId in ids then [] else [ms[0]]) + Without(ms[1..], ids)
  }

  /** The store's tables: categories by ID, the category order of every
      scope, and the board memberships of every category. */
  datatype StoreData = StoreData(
    categories: map<string, Category>,
    order: map<Scope, seq<string>>,
    boards: map<string, seq<BoardMetadata>>)
  {
    /** Every category is filed under its own, non-empty ID, and every ID in
        a scope's order names a stored category of that scope. */
    ghost predicate Valid()
    {
      && "" !in categories
      && (forall id :: id in categories ==> categories[id].id == id)
      && (forall s, id :: s in order && id in order[s] ==> InScope(id, s))
    }

    /** Category `id` is stored and belongs to scope `s`. */
    predicate InScope(id: string, s: Scope)
    {
      id in categories && categories[id].userId == s.userId && categories[id].teamId == s.teamId
    }

    function OrderOf(s: Scope): seq<string>
    {
      if s in order then order[s] else []
    }

    function BoardsOf(id: string): seq<BoardMetadata>
    {
      if id in boards then boards[id] else []
    }

    /** A category the listing of scope `s` shows: stored, in `s`, not deleted. */
    predicate IsLive(id: string, s: Scope)
    {
      id in categories && categories[id].userId == s.userId && categories[id].teamId == s.teamId
      && categories[id].deleteAt == 0
    }

    function LiveIn(ids: seq<string>, s: Scope): (cs: seq<Category>)
      ensures |cs| <= |ids|
      ensures forall c :: c in cs ==>
                (c in categories.Values && c.userId == s.userId && c.teamId == s.teamId && c.deleteAt == 0)
    {
      if ids == [] then []
      else (if IsLive(ids[0], s) then [categories[ids[0]]] else []) + LiveIn(ids[1..], s)
    }

    /** The undeleted categories of scope `s`, in the scope's order. */
    function Listing(s: Scope): seq<Category>
    {
      LiveIn(OrderOf(s), s)
    }

    function WithBoards(cs: seq<Category>): (r: seq<CategoryBoards>)
      ensures |r| == |cs|
      ensures forall i :: 0 <= i < |cs| ==> r[i] == CategoryBoards(cs[i], BoardsOf(cs[i].id))
    {
      if cs == [] then [] else [CategoryBoards(cs[0], BoardsOf(cs[0].id))] + WithBoards(cs[1..])
    }

    /** The listing of scope `s` with every category's board memberships. */
    function BoardsListing(s: Scope): seq<CategoryBoards>
    {
      WithBoards(Listing(s))
    }

    /** After inserting `c`: filed under its ID, last in its scope's order. */
    function Created(c: Category): StoreData
    {
      var s := Scope(c.userId, c.teamId);
      this.(categories := categories[c.id := c], order := order[s := OrderOf(s) + [c.id]])
    }

    /** After writing `c` over the stored category with its ID, if there is one. */
    function Updated(c: Category): StoreData
    {
      if c.id in categories then this.(categories := categories[c.id := c]) else this
    }

    /** After marking category `id` deleted at `now`, if it belongs to `s`. */
    function SoftDeleted(id: string, s: Scope, now: Millis): StoreData
    {
      if id in categories && categories[id].userId == s.userId && categories[id].teamId == s.teamId
      then this.(categories := categories[id := categories[id].(deleteAt := now)])
      else this
    }

    /** After storing `ids` as the category order of scope `s`. */
    function Reordered(s: Scope, ids: seq<string>): StoreData
    {
      this.(order := order[s := ids])
    }

    /** After moving the boards `ids` of user `userId` into category `target`:
        they leave every category of the user and are appended to the target. */
    function BoardsMoved(userId: string, target: string, ids: seq<string>): StoreData
    {
      var stripped := map k | k in boards ::
        if k in categories && categories[k].userId == userId then Without(boards[k], ids) else boards[k];
      this.(boards := stripped[target := Without(BoardsOf(target), ids) + Memberships(ids)])
    }
  }

  /** A way of committing a reorder that only ever names IDs of the current
      order or of the requested one. */
  ghost predicate CommitsKnownIds(committed: (seq<string>, seq<string>) -> seq<string>)
  {
    forall current, requested, id :: id in committed(current, requested) ==> id in current || id in requested
  }

  /** The store, as the category logic sees it through its calls. */
  class Store {
    var data: StoreData
    /** The calls that fail; each such call changes nothing. */
    const failing: set<Call>
    /** The order the store commits for a reorder request, from the scope's
        current order and the requested one. */
    const committed: (seq<string>, seq<string>) -> seq<string>
    /** Every write request received so far, in order. */
    var requests: seq<Request>

    constructor (data: StoreData, failing: set<Call>, committed: (seq<string>, seq<string>) -> seq<string>)
      requires data.Valid() && CommitsKnownIds(committed)
      ensures Valid() && this.data == data && this.failing == failing && this.committed == committed
      ensures requests == []
    {
      this.data := data;
      this.failing := failing;
      this.committed := committed;
      requests := [];
    }

    ghost predicate Valid()
      reads this
    {
      data.Valid() && CommitsKnownIds(committed)
    }

    /** What a category read returns at this point. */
    function ReadCategory(id: string): Result<Category>
      reads this
    {
      if GetCategoryCall(|requests|) in failing then Err(StoreFailure(GetCategoryCall(|requests|)))
      else if id in data.categories then Ok(data.categories[id])
      else Err(NotFound(id))
    }

    method GetCategory(id: string) returns (r: Result<Category>)
      ensures r == ReadCategory(id)
    {
      if GetCategoryCall(|requests|) in failing {
        r := Err(StoreFailure(GetCategoryCall(|requests|)));
      } else if id in data.categories {
        r := Ok(data.categories[id]);
      } else {
        r := Err(NotFound(id));
      }
    }

    method CreateCategory(c: Category) returns (err: Option<Error>)
      requires Valid() && c.id != ""
      modifies this
      ensures Valid()
      ensures requests == old(requests) + [CreateRequest(c)]
      ensures CreateCall in failing || c.id in old(data.categories) ==>
                err == Some(StoreFailure(CreateCall)) && data == old(data)
      ensures CreateCall !in failing && c.id !in old(data.categories) ==>
                err == None && data == old(data).Created(c)
    {
      requests := requests + [CreateRequest(c)];
      if CreateCall in failing || c.id in data.categories {
        err := Some(StoreFailure(CreateCall));
      } else {
        data := data.Created(c);
        err := None;
      }
    }

    method UpdateCategory(c: Category) returns (err: Option<Error>)
      requires Valid()
      requires c.id in data.categories ==> data.InScope(c.id, Scope(c.userId, c.teamId))
      modifies this
      ensures Valid()
      ensures requests == old(requests) + [UpdateRequest(c)]
      ensures UpdateCall in failing ==> err == Some(StoreFailure(UpdateCall)) && data == old(data)
      ensures UpdateCall !in failing ==> err == None && data == old(data).Updated(c)
    {
      requests := requests + [UpdateRequest(c)];
      if UpdateCall in failing {
        err := Some(StoreFailure(UpdateCall));
      } else {
        data := data.Updated(c);
        err := None;
      }
    }

    method DeleteCategory(categoryId: string, userId: string, teamId: string, now: Millis) returns (err: Option<Error>)
      requires Valid()
      modifies this
      ensures Valid()
      ensures requests == old(requests) + [DeleteRequest(categoryId, userId, teamId)]
      ensures DeleteCall in failing ==> err == Some(StoreFailure(DeleteCall)) && data == old(data)
      ensures DeleteCall !in failing ==>
                err == None && data == old(data).SoftDeleted(categoryId, Scope(userId, teamId), now)
    {
      requests := requests + [DeleteRequest(categoryId, userId, teamId)];
      if DeleteCall in failing {
        err := Some(StoreFailure(DeleteCall));
      } else {
        data := data.SoftDeleted(categoryId, Scope(userId, teamId), now);
        err := None;
      }
    }

    /** One page of the listing of a scope. */
    method GetUserCategories(userId: string, teamId: string, page: nat, perPage: nat) returns (r: Result<seq<Category>>)
      ensures UserCategoriesPage(page) in failing ==> r == Err(StoreFailure(UserCategoriesPage(page)))
      ensures UserCategoriesPage(page) !in failing ==>
                r == Ok(PageOf(data.Listing(Scope(userId, teamId)), page, perPage))
    {
      if UserCategoriesPage(page) in failing {
        r := Err(StoreFailure(UserCategoriesPage(page)));
      } else {
        r := Ok(PageOf(data.Listing(Scope(userId, teamId)), page, perPage));
      }
    }

    /** The whole listing of a scope with the categories' boards. */
    method GetUserCategoryBoards(userId: string, teamId: string) returns (r: Result<seq<CategoryBoards>>)
      ensures UserCategoryBoardsCall in failing ==> r == Err(StoreFailure(UserCategoryBoardsCall))
      ensures UserCategoryBoardsCall !in failing ==> r == Ok(data.BoardsListing(Scope(userId, teamId)))
    {
      if UserCategoryBoardsCall in failing {
        r := Err(StoreFailure(UserCategoryBoardsCall));
      } else {
        r := Ok(data.BoardsListing(Scope(userId, teamId)));
      }
    }

    /** Commits a new category order for a scope and returns the order it
        holds afterwards. */
    method ReorderCategories(userId: string, teamId: string, newOrder: seq<string>) returns (r: Result<seq<string>>)
      requires Valid()
      requires forall id :: id in newOrder ==> data.InScope(id, Scope(userId, teamId))
      modifies this
      ensures Valid()
      ensures requests == old(requests) + [ReorderRequest(userId, teamId, newOrder)]
      ensures ReorderCall in failing ==> r == Err(StoreFailure(ReorderCall)) && data == old(data)
      ensures ReorderCall !in failing ==>
                var order := committed(old(data.OrderOf(Scope(userId, teamId))), newOrder);
                && data == old(data).Reordered(Scope(userId, teamId), order)
                && data.OrderOf(Scope(userId, teamId)) == order
                && r == Ok(order)
    {
      requests := requests + [ReorderRequest(userId, teamId, newOrder)];
      if ReorderCall in failing {
        r := Err(StoreFailure(ReorderCall));
      } else {
        var s := Scope(userId, teamId);
        data := data.Reordered(s, committed(data.OrderOf(s), newOrder));
        r := Ok(data.OrderOf(s));
      }
    }

    /** Moves boards of a user into one of the user's categories. */
    method AddUpdateCategoryBoard(userId: string, categoryId: string, boardIds: seq<string>) returns (err: Option<Error>)
      requires Valid()
      modifies this
      ensures Valid()
      ensures requests == old(requests) + [AddUpdateCategoryBoardRequest(userId, categoryId, boardIds)]
      ensures AddUpdateCategoryBoardCall in failing ==>
                err == Some(StoreFailure(AddUpdateCategoryBoardCall)) && data == old(data)
      ensures AddUpdateCategoryBoardCall !in failing ==>
                err == None && data == old(data).BoardsMoved(userId, categoryId, boardIds)
    {
      requests := requests + [AddUpdateCategoryBoardRequest(userId, categoryId, boardIds)];
      if AddUpdateCategoryBoardCall in failing {
        err := Some(StoreFailure(AddUpdateCategoryBoardCall));
      } else {
        data := data.BoardsMoved(userId, categoryId, boardIds);
        err := None;
      }
    }
  }

  /** Every entry of a scope's board listing is the stored category with
      that ID, live in the scope, together with its stored boards. */
  lemma {:induction false} BoardsListingEntries(d: StoreData, s: Scope)
    requires d.Valid()
    ensures forall cb :: cb in d.BoardsListing(s) ==>
              cb.category.id in d.categories && d.categories[cb.category.id] == cb.category
              && d.IsLive(cb.category.id, s) && cb.category.id != ""
              && cb.boardMetadata == d.BoardsOf(cb.category.id)
  {
    var L := d.BoardsListing(s);
    forall cb | cb in L
      ensures cb.category.id in d.categories && d.categories[cb.category.id] == cb.category
              && d.IsLive(cb.category.id, s) && cb.category.id != ""
              && cb.boardMetadata == d.BoardsOf(cb.category.id)
    {
      var i :| 0 <= i < |L| && L[i] == cb;
      assert d.Listing(s)[i] in d.Listing(s);
    }
  }

  /** Membership records rebuilt from their board IDs give the IDs back. */
  lemma {:induction false} BoardIdsOfMemberships(ids: seq<string>)
    ensures BoardIds(Memberships(ids)) == ids
  {
    var ms := Memberships(ids);
    assert |BoardIds(ms)| == |ids|;
    forall i | 0 <= i < |ids| ensures BoardIds(ms)[i] == ids[i] {
    }
  }

  /** Removing boards from records that all name one of them leaves nothing. */
  lemma {:induction false} WithoutCovered(ms: seq<BoardMetadata>, ids: seq<string>)
    requires forall i :: 0 <= i < |ms| ==> ms[i].boardId in ids
    ensures Without(ms, ids) == []
  {
    if ms != [] {
      WithoutCovered(ms[1..], ids);
    }
  }

  /** Removing all of a list's own boards from it leaves nothing. */
  lemma WithoutOwnBoards(ms: seq<BoardMetadata>)
    ensures Without(ms, BoardIds(ms)) == []
  {
    WithoutCovered(ms, BoardIds(ms));
  }

  /** What moving a user's boards into a target category does to the
      memberships: the target ends with the moved boards, in order; every
      other category of the user keeps exactly its records for other boards;
      categories of other users are untouched. */
  lemma BoardsMovedEffect(d: StoreData, userId: string, target: string, ids: seq<string>)
    ensures var d' := d.BoardsMoved(userId, target, ids);
            d'.categories == d.categories && d'.order == d.order
            && d'.BoardsOf(target) == Without(d.BoardsOf(target), ids) + Memberships(ids)
            && BoardIds(d'.BoardsOf(target))[|d'.BoardsOf(target)| - |ids|..] == ids
            && (forall k :: k != target && k in d.categories && d.categories[k].userId == userId ==>
                  d'.BoardsOf(k) == Without(d.BoardsOf(k), ids))
            && (forall k :: k != target && !(k in d.categories && d.categories[k].userId == userId) ==>
                  d'.BoardsOf(k) == d.BoardsOf(k))
  {
    var d' := d.BoardsMoved(userId, target, ids);
    BoardsMovedAt(d, userId, target, ids, target);
    MembershipsLast(Without(d.BoardsOf(target), ids), ids);
    forall k | k != target
      ensures d'.BoardsOf(k) == if k in d.categories && d.categories[k].userId == userId
                                then Without(d.BoardsOf(k), ids) else d.BoardsOf(k)
    {
      BoardsMovedAt(d, userId, target, ids, k);
    }
  }

  /** The memberships of one category after a reassignment. */
  lemma BoardsMovedAt(d: StoreData, userId: string, target: string, ids: seq<string>, k: string)
    ensures d.BoardsMoved(userId, target, ids).BoardsOf(k)
              == if k == target then Without(d.BoardsOf(target), ids) + Memberships(ids)
                 else if k in d.categories && d.categories[k].userId == userId then Without(d.BoardsOf(k), ids)
                 else d.BoardsOf(k)
  {
    if k != target && k !in d.boards {
      assert Without([], ids) == [];
    }
  }

  /** Records appended after `w` for the boards `ids` end its board IDs. */
  lemma MembershipsLast(w: seq<BoardMetadata>, ids: seq<string>)
    ensures var t := w + Memberships(ids);
            BoardIds(t)[|t| - |ids|..] == ids
  {
    var t := w + Memberships(ids);
    forall i | 0 <= i < |ids| ensures BoardIds(t)[|t| - |ids|..][i] == ids[i] {
      assert t[|w| + i] == Memberships(ids)[i];
    }
  }

  lemma {:induction false} LiveInAppend(d: StoreData, ids: seq<string>, x: string, s: Scope)
    ensures d.LiveIn(ids + [x], s) == d.LiveIn(ids, s) + d.LiveIn([x], s)
    decreases |ids|
  {
    if ids == [] {
      assert [] + [x] == [x];
    } else {
      assert (ids + [x])[1..] == ids[1..] + [x];
      LiveInAppend(d, ids[1..], x, s);
    }
  }

  /** The listing over `ids` only depends on the categories those IDs name. */
  lemma {:induction false} LiveInFrame(d: StoreData, d': StoreData, ids: seq<string>, s: Scope)
    requires forall i :: 0 <= i < |ids| ==> (d.IsLive(ids[i], s) <==> d'.IsLive(ids[i], s))
    requires forall i :: 0 <= i < |ids| && d.IsLive(ids[i], s) && d'.IsLive(ids[i], s) ==> d.categories[ids[i]] == d'.categories[ids[i]]
    ensures d.LiveIn(ids, s) == d'.LiveIn(ids, s)
    decreases |ids|
  {
    if ids != [] {
      LiveInFrame(d, d', ids[1..], s);
    }
  }

  /** A new undeleted category is listed last in its scope, after the
      categories that were listed before. */
  lemma CreatedIsListedLast(d: StoreData, c: Category)
    requires d.Valid() && c.id !in d.categories && c.deleteAt == 0
    ensures var s := Scope(c.userId, c.teamId);
            d.Created(c).Listing(s) == d.Listing(s) + [c]
  {
    var s := Scope(c.userId, c.teamId);
    var d' := d.Created(c);
    var ids := d.OrderOf(s);
    assert s in d.order ==> c.id !in d.order[s];
    assert d'.OrderOf(s) == ids + [c.id];
    LiveInAppend(d', ids, c.id, s);
    LiveInFrame(d, d', ids, s);
    assert d'.LiveIn([c.id], s) == [c] + d'.LiveIn([], s);
  }
}
