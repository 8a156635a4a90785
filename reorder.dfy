/** What verifyNewCategoriesMatchExisting (server/boards/app/category.go:210-245)
    accepts as a new category order, as functions of the set of existing
    category IDs, and how that relates to being a permutation of them. */
module Reorder {
  import opened CategoryModel

  /** The order check's acceptance condition: as many proposed IDs as there
      are distinct existing ones, each of them existing. */
  predicate Accepts(existing: set<string>, proposed: seq<string>)
  {
    |proposed| == |existing| && forall i :: 0 <= i < |proposed| ==> proposed[i] in existing
  }

  /** The index of the first proposed ID that does not exist, or the length
      of the proposal when every one exists. */
  function FirstMissing(existing: set<string>, proposed: seq<string>): (k: nat)
    ensures k <= |proposed|
    ensures forall j :: 0 <= j < k ==> proposed[j] in existing
    ensures k < |proposed| ==> proposed[k] !in existing
    decreases |proposed|
  {
    if proposed == [] then 0
    else if proposed[0] !in existing then 0
    else 1 + FirstMissing(existing, proposed[1..])
  }

  /** The error the order check reports, if any: the length mismatch first,
      otherwise the first proposed ID that does not exist. */
  function OrderError(existing: set<string>, proposed: seq<string>, userId: string, teamId: string): Option<Error>
  {
    if |proposed| != |existing| then
      Some(CategoriesLengthMismatch(|proposed|, |existing|, userId, teamId))
    else
      var k := FirstMissing(existing, proposed);
      if k < |proposed| then Some(CategoryNotFound(Some(ScopedId(proposed[k], userId, teamId))))
      else None
  }

  /** The check reports nothing exactly when it accepts; a length mismatch is
      always reported as such, whatever the IDs; any other rejection names a
      proposed ID that does not exist, with the scope. */
  lemma OrderErrorMeaning(existing: set<string>, proposed: seq<string>, userId: string, teamId: string)
    ensures OrderError(existing, proposed, userId, teamId).None? <==> Accepts(existing, proposed)
    ensures |proposed| != |existing| ==>
              OrderError(existing, proposed, userId, teamId)
                == Some(CategoriesLengthMismatch(|proposed|, |existing|, userId, teamId))
    ensures |proposed| == |existing| && !Accepts(existing, proposed) ==>
              exists k :: 0 <= k < |proposed| && proposed[k] !in existing
                          && OrderError(existing, proposed, userId, teamId)
                             == Some(CategoryNotFound(Some(ScopedId(proposed[k], userId, teamId))))
  {
    var k := FirstMissing(existing, proposed);
    if |proposed| == |existing| && !Accepts(existing, proposed) {
      var i :| 0 <= i < |proposed| && proposed[i] !in existing;
      assert k < |proposed|;
    }
  }

  predicate Distinct(s: seq<string>)
  {
    forall i, j :: 0 <= i < j < |s| ==> s[i] != s[j]
  }

  function Elements(s: seq<string>): set<string>
  {
    set x | x in s
  }

  lemma {:induction false} DistinctElements(s: seq<string>)
    requires Distinct(s)
    ensures |Elements(s)| == |s|
    decreases |s|
  {
    if s != [] {
      DistinctElements(s[1..]);
      assert Elements(s) == {s[0]} + Elements(s[1..]);
      assert s[0] !in Elements(s[1..]);
    }
  }

  /** An accepted order without repeated IDs is a permutation of the existing set. */
  lemma AcceptedDistinctIsPermutation(existing: set<string>, proposed: seq<string>)
    requires Accepts(existing, proposed) && Distinct(proposed)
    ensures Elements(proposed) == existing
  {
    var e := Elements(proposed);
    DistinctElements(proposed);
    assert e <= existing;
    assert |existing - e| == |existing| - |e|;
  }

  /** Every permutation of the existing set is accepted. */
  lemma PermutationAccepted(existing: set<string>, proposed: seq<string>)
    requires Distinct(proposed) && Elements(proposed) == existing
    ensures Accepts(existing, proposed)
  {
    DistinctElements(proposed);
  }

  /** Repeated IDs are not rejected: repeating one existing ID as often as
      there are existing IDs is accepted, though with two or more existing
      IDs it leaves some of them out. */
  lemma DuplicatesNotRejected(existing: set<string>, id: string)
    requires id in existing
    ensures var proposed := seq(|existing|, _ => id);
            Accepts(existing, proposed)
            && (|existing| >= 2 ==> Elements(proposed) != existing)
  {
    var proposed := seq(|existing|, _ => id);
    if |existing| >= 2 {
      assert Elements(proposed) <= {id};
      var rest := existing - {id};
      assert |rest| >= 1;
      var other :| other in rest;
      assert other !in Elements(proposed);
    }
  }
}
