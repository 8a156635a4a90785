/** The scan of moveBoardsToDefaultCategory
    (server/boards/app/category.go:145-191): the callback it hands to the
    walk over the user's categories with their boards, and what the scan
    decides, before any board is moved. */
module Migration {
  import opened CategoryModel
  import opened Paging
  import opened CategoryStore

  /** The variables the callback captures: the source category with its
      boards once seen, and the ID of the last category seen with the default
      name ("" while none). */
  datatype ScanState = ScanState(source: Option<CategoryBoards>, defaultId: string)

  const NothingFound := ScanState(None, "")

  /** The callback for one category: remember it if it is the source, take its
      ID if it has the default name, and be done once both are known. */
  function ScanStep(sourceId: string, st: ScanState, cb: CategoryBoards): Step<ScanState>
  {
    var source := if cb.category.id == sourceId then Some(cb) else st.source;
    var defaultId := if cb.category.name == DefaultCategoryName then cb.category.id else st.defaultId;
    Step(ScanState(source, defaultId), source.Some? && defaultId != "", None)
  }

  function ScanStepFor(sourceId: string): (ScanState, CategoryBoards) -> Step<ScanState>
  {
    (st, cb) => ScanStep(sourceId, st, cb)
  }

  /** The scan over a listing. */
  function Scan(listing: seq<CategoryBoards>, sourceId: string): Visit<ScanState>
  {
    Fold(listing, ScanStepFor(sourceId), NothingFound)
  }

  predicate HasId(listing: seq<CategoryBoards>, id: string)
  {
    exists i :: 0 <= i < |listing| && listing[i].category.id == id
  }

  predicate HasDefault(listing: seq<CategoryBoards>)
  {
    exists i :: 0 <= i < |listing| && listing[i].category.name == DefaultCategoryName
  }

  predicate IdsNonEmpty(listing: seq<CategoryBoards>)
  {
    forall i :: 0 <= i < |listing| ==> listing[i].category.id != ""
  }

  /** Where the boards go and which boards, as the scan decides it. */
  datatype Move = Move(target: string, boardIds: seq<string>)

  /** What moveBoardsToDefaultCategory decides from the listing it scanned:
      the errors it reports, or the target category and the board IDs it
      hands to the reassignment. */
  function MovePlan(listing: seq<CategoryBoards>, sourceId: string): Result<Move>
  {
    var r := Scan(listing, sourceId);
    if r.err.Some? then Err(r.err.value)
    else if r.state.source.None? then Err(CategoryNotFound(None))
    else if r.state.defaultId == "" then Err(NoDefaultCategoryFound)
    else Ok(Move(r.state.defaultId, BoardIds(r.state.source.value.boardMetadata)))
  }

  lemma PrefixFacts(listing: seq<CategoryBoards>, n: nat, id: string)
    requires 0 < n <= |listing|
    ensures HasId(listing[..n], id) <==> HasId(listing[..n - 1], id) || listing[n - 1].category.id == id
    ensures HasDefault(listing[..n]) <==> HasDefault(listing[..n - 1]) || listing[n - 1].category.name == DefaultCategoryName
  {
    var P, L := listing[..n - 1], listing[..n];
    assert forall i :: 0 <= i < n - 1 ==> P[i] == L[i];
    assert L[n - 1] == listing[n - 1];
  }

  /** One more category for the scan: the scan of the listing without it,
      resumed with that category unless it had stopped already. */
  lemma ScanUnfold(listing: seq<CategoryBoards>, sourceId: string)
    requires |listing| > 0
    ensures var rP := Scan(listing[..|listing| - 1], sourceId);
            Scan(listing, sourceId)
              == if rP.stopped then rP
                 else
                   var st := ScanStep(sourceId, rP.state, listing[|listing| - 1]);
                   Visit(st.state, rP.visited + 1, st.done, None)
  {
  }

  /** The scan never fails, and it stops exactly when it holds both a source
      and a default ID. */
  lemma {:induction false} ScanStops(listing: seq<CategoryBoards>, sourceId: string)
    ensures var r := Scan(listing, sourceId);
            r.err == None && (r.stopped <==> r.state.source.Some? && r.state.defaultId != "")
    decreases |listing|
  {
    if |listing| > 0 {
      ScanStops(listing[..|listing| - 1], sourceId);
      ScanUnfold(listing, sourceId);
    }
  }

  /** The scan holds the source exactly when the part of the listing it
      visited contains it, and then it holds that listed entry. */
  lemma {:induction false} ScanSource(listing: seq<CategoryBoards>, sourceId: string)
    ensures var r := Scan(listing, sourceId);
            && (r.state.source.Some? <==> HasId(listing[..r.visited], sourceId))
            && (r.state.source.Some? ==>
                  r.state.source.value.category.id == sourceId && r.state.source.value in listing)
    decreases |listing|
  {
    var n := |listing|;
    if n == 0 {
      assert listing[..0] == [];
    } else {
      var P := listing[..n - 1];
      ScanSource(P, sourceId);
      ScanUnfold(listing, sourceId);
      var rP := Scan(P, sourceId);
      if rP.stopped {
        assert listing[..rP.visited] == P[..rP.visited];
      } else {
        assert P[..n - 1] == P;
        assert listing[..n] == listing;
        PrefixFacts(listing, n, sourceId);
      }
    }
  }

  /** The scan holds a default ID exactly when the part of the listing it
      visited has a category with the default name, and that ID is the ID of
      one such visited category. */
  lemma {:induction false} ScanDefault(listing: seq<CategoryBoards>, sourceId: string)
    requires IdsNonEmpty(listing)
    ensures var r := Scan(listing, sourceId);
            && (r.state.defaultId != "" <==> HasDefault(listing[..r.visited]))
            && (r.state.defaultId != "" ==>
                  exists i :: 0 <= i < r.visited && listing[i].category.name == DefaultCategoryName
                              && listing[i].category.id == r.state.defaultId)
    decreases |listing|
  {
    var n := |listing|;
    if n == 0 {
      assert listing[..0] == [];
    } else {
      var P := listing[..n - 1];
      assert IdsNonEmpty(P);
      ScanDefault(P, sourceId);
      ScanUnfold(listing, sourceId);
      var rP := Scan(P, sourceId);
      var r := Scan(listing, sourceId);
      if rP.stopped {
        assert listing[..rP.visited] == P[..rP.visited];
        if r.state.defaultId != "" {
          var i :| 0 <= i < rP.visited && P[i].category.name == DefaultCategoryName
                   && P[i].category.id == rP.state.defaultId;
          assert listing[i] == P[i];
        }
      } else {
        assert P[..n - 1] == P;
        assert listing[..n] == listing;
        PrefixFacts(listing, n, sourceId);
        if listing[n - 1].category.name != DefaultCategoryName && r.state.defaultId != "" {
          var i :| 0 <= i < rP.visited && P[i].category.name == DefaultCategoryName
                   && P[i].category.id == rP.state.defaultId;
          assert listing[i] == P[i];
        }
      }
    }
  }

  /** When the scan stops, it stops at the first category by which both the
      source and a category with the default name have been seen. */
  lemma {:induction false} ScanStopsFirst(listing: seq<CategoryBoards>, sourceId: string)
    requires IdsNonEmpty(listing)
    ensures var r := Scan(listing, sourceId);
            r.stopped ==> !(HasId(listing[..r.visited - 1], sourceId) && HasDefault(listing[..r.visited - 1]))
    decreases |listing|
  {
    var n := |listing|;
    if n > 0 {
      var P := listing[..n - 1];
      assert IdsNonEmpty(P);
      ScanUnfold(listing, sourceId);
      var rP := Scan(P, sourceId);
      if rP.stopped {
        ScanStopsFirst(P, sourceId);
        assert listing[..rP.visited - 1] == P[..rP.visited - 1];
      } else {
        ScanStops(P, sourceId);
        ScanSource(P, sourceId);
        ScanDefault(P, sourceId);
        assert P[..n - 1] == P;
        assert listing[..n - 1] == P;
      }
    }
  }

  /** The scan over any listing: it never fails; it holds the source exactly
      when the part it visited contains it, and a default ID exactly when
      that part contains a category with the default name; it stops exactly
      when the listing has both, and then right at the first category by
      which both have been seen. */
  lemma ScanInvariant(listing: seq<CategoryBoards>, sourceId: string)
    requires IdsNonEmpty(listing)
    ensures var r := Scan(listing, sourceId);
            && r.err == None
            && (r.state.source.Some? <==> HasId(listing[..r.visited], sourceId))
            && (r.state.source.Some? ==>
                  r.state.source.value.category.id == sourceId && r.state.source.value in listing)
            && (r.state.defaultId != "" <==> HasDefault(listing[..r.visited]))
            && (r.state.defaultId != "" ==>
                  exists i :: 0 <= i < r.visited && listing[i].category.name == DefaultCategoryName
                              && listing[i].category.id == r.state.defaultId)
            && (r.stopped <==> HasId(listing, sourceId) && HasDefault(listing))
            && (r.stopped ==> r.state.source.Some? && r.state.defaultId != "")
            && (r.stopped ==> !(HasId(listing[..r.visited - 1], sourceId) && HasDefault(listing[..r.visited - 1])))
  {
    ScanStops(listing, sourceId);
    ScanSource(listing, sourceId);
    ScanDefault(listing, sourceId);
    ScanStopsFirst(listing, sourceId);
    var r := Scan(listing, sourceId);
    if r.stopped {
      var v := listing[..r.visited];
      var i :| 0 <= i < |v| && v[i].category.id == sourceId;
      var j :| 0 <= j < |v| && v[j].category.name == DefaultCategoryName;
      assert listing[i] == v[i] && listing[j] == v[j];
    } else {
      assert listing[..r.visited] == listing;
    }
  }

  /** The scan finds the source exactly when the listing holds it, and then
      a default ID exactly when the listing holds a category with the
      default name. */
  lemma ScanFinds(listing: seq<CategoryBoards>, sourceId: string)
    requires IdsNonEmpty(listing)
    ensures var r := Scan(listing, sourceId);
            && (r.state.source.Some? <==> HasId(listing, sourceId))
            && (r.state.source.Some? ==> (r.state.defaultId != "" <==> HasDefault(listing)))
  {
    ScanInvariant(listing, sourceId);
    var r := Scan(listing, sourceId);
    if !r.stopped {
      assert listing[..r.visited] == listing;
    }
  }

  /** The outcome of the scan: the category-not-found error exactly when the
      source is not listed, the no-default error when it is listed but no
      category has the default name, and otherwise a move of the listed
      source's boards, in their order, to a listed category with the default
      name. */
  lemma MovePlanOutcome(listing: seq<CategoryBoards>, sourceId: string)
    requires IdsNonEmpty(listing)
    ensures MovePlan(listing, sourceId) == Err(CategoryNotFound(None)) <==> !HasId(listing, sourceId)
    ensures HasId(listing, sourceId) && !HasDefault(listing) ==>
              MovePlan(listing, sourceId) == Err(NoDefaultCategoryFound)
    ensures MovePlan(listing, sourceId).Ok? <==> HasId(listing, sourceId) && HasDefault(listing)
    ensures MovePlan(listing, sourceId).Ok? ==>
              var m := MovePlan(listing, sourceId).value;
              && (exists i :: 0 <= i < |listing| && listing[i].category.id == sourceId
                              && m.boardIds == BoardIds(listing[i].boardMetadata))
              && (exists j :: 0 <= j < |listing| && listing[j].category.name == DefaultCategoryName
                              && listing[j].category.id == m.target)
  {
    ScanInvariant(listing, sourceId);
    ScanFinds(listing, sourceId);
    var r := Scan(listing, sourceId);
    if r.state.source.Some? && r.state.defaultId != "" {
      var cb := r.state.source.value;
      var i :| 0 <= i < |listing| && listing[i] == cb;
    }
  }

  /** On a listing the store produced, the plan moves exactly the stored
      boards of the source to a live category of the scope that has the
      default name. */
  lemma MovePlanFromStore(d: StoreData, s: Scope, sourceId: string)
    requires d.Valid()
    ensures IdsNonEmpty(d.BoardsListing(s))
    ensures var plan := MovePlan(d.BoardsListing(s), sourceId);
            plan.Ok? ==>
              && plan.value.boardIds == BoardIds(d.BoardsOf(sourceId))
              && d.IsLive(plan.value.target, s)
              && d.categories[plan.value.target].name == DefaultCategoryName
  {
    var L := d.BoardsListing(s);
    BoardsListingEntries(d, s);
    assert IdsNonEmpty(L) by {
      forall i | 0 <= i < |L| ensures L[i].category.id != "" {
        assert L[i] in L;
      }
    }
    MovePlanOutcome(L, sourceId);
    var plan := MovePlan(L, sourceId);
    if plan.Ok? {
      var i :| 0 <= i < |L| && L[i].category.id == sourceId && plan.value.boardIds == BoardIds(L[i].boardMetadata);
      assert L[i] in L;
      var j :| 0 <= j < |L| && L[j].category.name == DefaultCategoryName && L[j].category.id == plan.value.target;
      assert L[j] in L;
    }
  }

  lemma {:induction false} SourceNamedDefaultStops(listing: seq<CategoryBoards>, sourceId: string)
    requires sourceId != ""
    requires forall i :: 0 <= i < |listing| && listing[i].category.id == sourceId ==>
               listing[i].category.name == DefaultCategoryName
    ensures var r := Scan(listing, sourceId);
            r.state.source.Some? ==> r.stopped && r.state.defaultId == sourceId
    decreases |listing|
  {
    var n := |listing|;
    if n > 0 {
      var P := listing[..n - 1];
      SourceNamedDefaultStops(P, sourceId);
      var rP := Scan(P, sourceId);
      assert Scan(listing, sourceId) ==
             (if rP.stopped then rP
              else
                var st := ScanStepFor(sourceId)(rP.state, listing[n - 1]);
                Visit(st.state, rP.visited + 1, st.done || st.err.Some?, st.err));
    }
  }

  /** When the source itself has the default name, the scan picks the source
      as the default category: its boards are moved onto itself. */
  lemma SourceNamedDefaultIsTarget(listing: seq<CategoryBoards>, sourceId: string)
    requires IdsNonEmpty(listing) && HasId(listing, sourceId)
    requires forall i :: 0 <= i < |listing| && listing[i].category.id == sourceId ==>
               listing[i].category.name == DefaultCategoryName
    ensures MovePlan(listing, sourceId).Ok? && MovePlan(listing, sourceId).value.target == sourceId
  {
    var i :| 0 <= i < |listing| && listing[i].category.id == sourceId;
    ScanFinds(listing, sourceId);
    ScanInvariant(listing, sourceId);
    SourceNamedDefaultStops(listing, sourceId);
  }
}
