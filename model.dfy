/** The values the category logic works on: categories, their board
    memberships, the errors the operations report, and the two helpers the
    Boards model package gives every category (Hydrate and IsValid). */
module CategoryModel {

  datatype Option<T> = None | Some(value: T)

  datatype Result<T> = Ok(value: T) | Err(error: Error)

  /** Milliseconds since the epoch, as the clock hands them out: always positive. */
  type Millis = t: int | t > 0 witness 1

  /** The name the default category of every (user, team) scope carries. */
  const DefaultCategoryName := "Boards"

  /** A type string other than the three the category logic knows. */
  type OtherTypeName = s: string | s != "" && s != "custom" && s != "system" witness "x"

  /** The category type. In the source it is a string; the empty string is
      `Unset` and anything other than "custom" or "system" is `Unknown`. */
  datatype CategoryType = Unset | Custom | System | Unknown(name: OtherTypeName)

  /** A category as the store keeps it. `deleteAt == 0` means active; any
      other value is the soft-delete time. */
  datatype Category = Category(
    id: string,
    name: string,
    userId: string,
    teamId: string,
    createAt: int,
    updateAt: int,
    deleteAt: int,
    kind: CategoryType)

  /** One board membership record of a category. */
  datatype BoardMetadata = BoardMetadata(boardId: string, hidden: bool)

  /** A category together with its ordered board memberships. */
  datatype CategoryBoards = CategoryBoards(category: Category, boardMetadata: seq<BoardMetadata>)

  /** The (user, team) pair a category belongs to. */
  datatype Scope = Scope(userId: string, teamId: string)

  /** The category ID and scope an order check names when it reports a missing ID. */
  datatype ScopedId = ScopedId(categoryId: string, userId: string, teamId: string)

  /** The store calls that can fail. A `GetCategoryCall(n)` is a category read
      made after the store has received `n` write requests. */
  datatype Call =
    | GetCategoryCall(afterRequests: nat)
    | CreateCall
    | UpdateCall
    | DeleteCall
    | UserCategoriesPage(page: nat)
    | UserCategoryBoardsCall
    | ReorderCall
    | AddUpdateCategoryBoardCall

  /** The error kinds of the category logic, with the IDs they carry. */
  datatype Error =
    | NotFound(id: string)
    | StoreFailure(call: Call)
    | InvalidCategory(reason: string)
    | CategoryDeleted
    | CategoryPermissionDenied
    | CannotDeleteSystemCategory
    | CategoryNotFound(detail: Option<ScopedId>)
    | NoDefaultCategoryFound
    | CategoriesLengthMismatch(proposed: nat, existing: nat, userId: string, teamId: string)

  /** The category `Hydrate` derives from `c`: a generated ID when it has
      none, the clock reading as creation time when it has none, the creation
      time as update time when it has none, and the custom type when it has
      none. */
  function Hydrated(c: Category, newId: string, now: Millis): (h: Category)
    ensures h.name == c.name && h.userId == c.userId && h.teamId == c.teamId
    ensures h.deleteAt == c.deleteAt
    ensures c.id != "" ==> h.id == c.id
    ensures c.id == "" ==> h.id == newId
    ensures c.createAt == 0 ==> h.createAt == now
    ensures c.createAt != 0 ==> h.createAt == c.createAt
    ensures c.updateAt == 0 ==> h.updateAt == h.createAt
    ensures c.updateAt != 0 ==> h.updateAt == c.updateAt
    ensures h.createAt != 0 && h.updateAt != 0
    ensures c.kind == Unset ==> h.kind == Custom
    ensures c.kind != Unset ==> h.kind == c.kind
  {
    var createAt := if c.createAt == 0 then now else c.createAt;
    c.(id := if c.id == "" then newId else c.id,
       createAt := createAt,
       updateAt := if c.updateAt == 0 then createAt else c.updateAt,
       kind := if c.kind == Unset then Custom else c.kind)
  }

  /** The structural check on a category: `None` when it is valid, otherwise
      the invalid-category error naming the first rule it breaks. */
  function IsValid(c: Category): (r: Option<Error>)
    ensures r.None? <==> c.id != "" && c.name != "" && c.userId != "" && c.teamId != ""
                         && (c.kind == Custom || c.kind == System)
    ensures r.Some? ==> r.value.InvalidCategory?
  {
    if c.id == "" then Some(InvalidCategory("category ID cannot be empty"))
    else if c.name == "" then Some(InvalidCategory("category name cannot be empty"))
    else if c.userId == "" then Some(InvalidCategory("category user ID cannot be empty"))
    else if c.teamId == "" then Some(InvalidCategory("category team id ID cannot be empty"))
    else if !(c.kind == Custom || c.kind == System) then Some(InvalidCategory("invalid category type"))
    else None
  }

  /** The *model.Category a caller hands to CreateCategory or UpdateCategory.
      Those operations change its fields in place, and the caller sees the
      changes. */
  class MutableCategory {
    var value: Category

    constructor (c: Category)
      ensures value == c
    {
      value := c;
    }

    /** Fills in the fields the caller may leave empty. */
    method Hydrate(newId: string, now: Millis)
      modifies this
      ensures value == Hydrated(old(value), newId, now)
    {
      if value.id == "" {
        value := value.(id := newId);
      }
      if value.createAt == 0 {
        value := value.(createAt := now);
      }
      if value.updateAt == 0 {
        value := value.(updateAt := value.createAt);
      }
      if value.kind == Unset {
        value := value.(kind := Custom);
      }
    }
  }
}
