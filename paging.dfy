/** Visiting a sequence with a callback that may stop early, and the page walk
    of ForEachUserCategory (server/boards/app/category.go:247-268) as a
    function of the store's listing. A callback that in the source updates
    variables it captures is modelled as a step function over a state `S`
    that holds those variables. */
module Paging {
  import opened CategoryModel

  /** The size of every page ForEachUserCategory asks the store for. */
  const PerPage: nat := 50

  /** What a callback returns for one item: its new captured state, whether it
      is done, and the error it reports, if any. */
  datatype Step<S> = Step(state: S, done: bool, err: Option<Error>)

  /** The outcome of visiting items: the final captured state, how many items
      were handed to the callback, whether the callback stopped the visit,
      and the error it stopped with. */
  datatype Visit<S> = Visit(state: S, visited: nat, stopped: bool, err: Option<Error>)

  /** Hands the items to `step` in order, stopping right after the first item
      for which it reports done or an error. */
  function Fold<T, S>(items: seq<T>, step: (S, T) -> Step<S>, init: S): (r: Visit<S>)
    ensures r.visited <= |items|
    ensures r.stopped ==> r.visited > 0
    ensures !r.stopped ==> r.visited == |items| && r.err == None
    decreases |items|
  {
    if items == [] then Visit(init, 0, false, None)
    else
      var r := Fold(items[..|items| - 1], step, init);
      if r.stopped then r
      else
        var st := step(r.state, items[|items| - 1]);
        Visit(st.state, r.visited + 1, st.done || st.err.Some?, st.err)
  }

  /** Continues a visit that ended with `r` over further items. */
  function Resume<T, S>(r: Visit<S>, rest: seq<T>, step: (S, T) -> Step<S>): Visit<S>
  {
    if r.stopped then r
    else
      var q := Fold(rest, step, r.state);
      q.(visited := r.visited + q.visited)
  }

  /** Visiting `a + b` is visiting `a` and, unless the callback stopped there,
      going on with `b` from the state `a` left. */
  lemma {:induction false} FoldConcat<T, S>(a: seq<T>, b: seq<T>, step: (S, T) -> Step<S>, init: S)
    ensures Fold(a + b, step, init) == Resume(Fold(a, step, init), b, step)
    decreases |b|
  {
    if b == [] {
      assert a + b == a;
    } else {
      var b' := b[..|b| - 1];
      FoldConcat(a, b', step, init);
      assert (a + b)[..|a + b| - 1] == a + b';
      assert (a + b)[|a + b| - 1] == b[|b| - 1];
    }
  }

  /** Once the callback stops, later items make no difference. */
  lemma FoldIgnoresRest<T, S>(a: seq<T>, b: seq<T>, step: (S, T) -> Step<S>, init: S)
    requires Fold(a, step, init).stopped
    ensures Fold(a + b, step, init) == Fold(a, step, init)
  {
    FoldConcat(a, b, step, init);
  }

  /** The items of page `page` when every page holds `perPage` items. */
  function PageOf<T>(items: seq<T>, page: nat, perPage: nat): seq<T>
  {
    var start := page * perPage;
    if start >= |items| then []
    else items[start..if start + perPage <= |items| then start + perPage else |items|]
  }

  /** The page walk from page `page` on, over the listing the store pages
      through: a page read that fails ends the walk with its error; the
      callback stopping ends it with the callback's error; a page shorter
      than `PerPage` is the last one. */
  function WalkFrom<S>(listing: seq<Category>, page: nat, failing: set<Call>,
                       step: (S, Category) -> Step<S>, s: S): (S, Option<Error>)
    requires page * PerPage <= |listing|
    decreases |listing| - page * PerPage
  {
    if UserCategoriesPage(page) in failing then (s, Some(StoreFailure(UserCategoriesPage(page))))
    else
      var items := PageOf(listing, page, PerPage);
      var r := Fold(items, step, s);
      if r.stopped then (r.state, r.err)
      else if |items| < PerPage then (r.state, None)
      else WalkFrom(listing, page + 1, failing, step, r.state)
  }

  /** The whole walk, which starts at page 0. */
  function Walk<S>(listing: seq<Category>, failing: set<Call>, step: (S, Category) -> Step<S>, init: S): (S, Option<Error>)
  {
    WalkFrom(listing, 0, failing, step, init)
  }

  /** No read of a page the walk may reach without the callback stopping
      fails: the pages 0 to |listing| / PerPage. */
  predicate PagesReadable(listing: seq<Category>, failing: set<Call>)
  {
    forall p: nat :: p <= |listing| / PerPage ==> UserCategoriesPage(p) !in failing
  }

  lemma {:induction false} WalkFromVisitsRest<S>(listing: seq<Category>, page: nat, failing: set<Call>,
                                                 step: (S, Category) -> Step<S>, s: S)
    requires page * PerPage <= |listing|
    requires forall p: nat :: page <= p <= |listing| / PerPage ==> UserCategoriesPage(p) !in failing
    ensures var r := Fold(listing[page * PerPage..], step, s);
            WalkFrom(listing, page, failing, step, s) == (r.state, r.err)
    decreases |listing| - page * PerPage
  {
    var start := page * PerPage;
    var items := PageOf(listing, page, PerPage);
    assert page <= |listing| / PerPage;
    if |items| < PerPage {
      assert items == listing[start..];
    } else {
      var rest := listing[start + PerPage..];
      assert listing[start..] == items + rest;
      FoldConcat(items, rest, step, s);
      var r := Fold(items, step, s);
      if !r.stopped {
        assert (page + 1) * PerPage == start + PerPage;
        WalkFromVisitsRest(listing, page + 1, failing, step, r.state);
      }
    }
  }

  /** When the pages can be read, the walk hands every category of the
      listing to the callback, in listing order, until the callback stops:
      its outcome is the one of visiting the whole listing at once. */
  lemma WalkVisitsAll<S>(listing: seq<Category>, failing: set<Call>, step: (S, Category) -> Step<S>, init: S)
    requires PagesReadable(listing, failing)
    ensures var r := Fold(listing, step, init);
            Walk(listing, failing, step, init) == (r.state, r.err)
  {
    WalkFromVisitsRest(listing, 0, failing, step, init);
    assert listing[0..] == listing;
  }

  lemma {:induction false} WalkFromStopsEarly<S>(listing: seq<Category>, page: nat, k: nat, failing: set<Call>,
                                                 step: (S, Category) -> Step<S>, s: S)
    requires page * PerPage <= |listing| && page <= k
    requires forall p: nat :: page <= p <= k ==> UserCategoriesPage(p) !in failing
    requires |listing| < (k + 1) * PerPage || Fold(listing[page * PerPage..(k + 1) * PerPage], step, s).stopped
    ensures var r := Fold(listing[page * PerPage..], step, s);
            WalkFrom(listing, page, failing, step, s) == (r.state, r.err)
    decreases |listing| - page * PerPage
  {
    var start := page * PerPage;
    var items := PageOf(listing, page, PerPage);
    if |items| < PerPage {
      assert items == listing[start..];
    } else {
      var rest := listing[start + PerPage..];
      assert listing[start..] == items + rest;
      FoldConcat(items, rest, step, s);
      var r := Fold(items, step, s);
      if !r.stopped {
        assert page < k;
        if (k + 1) * PerPage <= |listing| {
          var mid := listing[start + PerPage..(k + 1) * PerPage];
          assert listing[start..(k + 1) * PerPage] == items + mid;
          FoldConcat(items, mid, step, s);
        }
        assert (page + 1) * PerPage == start + PerPage;
        WalkFromStopsEarly(listing, page + 1, k, failing, step, r.state);
      }
    }
  }

  /** ForEachUserCategory stops as soon as the callback reports done or an
      error: when the callback stops within the first k + 1 pages (or the
      listing ends there) and those pages can be read, the walk's outcome is
      the one of visiting the listing at once, whatever the reads of later
      pages would do. */
  lemma WalkStopsEarly<S>(listing: seq<Category>, k: nat, failing: set<Call>,
                          step: (S, Category) -> Step<S>, init: S)
    requires forall p: nat :: p <= k ==> UserCategoriesPage(p) !in failing
    requires |listing| < (k + 1) * PerPage || Fold(listing[..(k + 1) * PerPage], step, init).stopped
    ensures var r := Fold(listing, step, init);
            Walk(listing, failing, step, init) == (r.state, r.err)
  {
    assert listing[0..] == listing;
    assert |listing| >= (k + 1) * PerPage ==> listing[0..(k + 1) * PerPage] == listing[..(k + 1) * PerPage];
    WalkFromStopsEarly(listing, 0, k, failing, step, init);
  }

  /** A callback that never stops and never fails. */
  ghost predicate NeverStops<S(!new), T(!new)>(step: (S, T) -> Step<S>)
  {
    forall s: S, x: T :: !step(s, x).done && step(s, x).err == None
  }

  /** The arithmetic of pages: a page that starts inside the listing is at
      most the last page number; a full page is followed by one that starts
      inside the listing; a short page is the last one. */
  lemma PageBounds<T>(listing: seq<T>, page: nat)
    requires page * PerPage <= |listing|
    ensures page <= |listing| / PerPage
    ensures |PageOf(listing, page, PerPage)| == PerPage ==> (page + 1) * PerPage <= |listing|
    ensures |PageOf(listing, page, PerPage)| < PerPage ==> |listing| / PerPage == page
  {
  }

  lemma {:induction false} WalkFromFailsAtFirstBadPage<S(!new)>(listing: seq<Category>, page: nat, failing: set<Call>,
                                                          step: (S, Category) -> Step<S>, s: S)
    requires page * PerPage <= |listing|
    requires NeverStops(step)
    requires exists p: nat :: page <= p <= |listing| / PerPage && UserCategoriesPage(p) in failing
    ensures exists q: nat :: page <= q <= |listing| / PerPage && UserCategoriesPage(q) in failing
              && (forall p: nat :: page <= p < q ==> UserCategoriesPage(p) !in failing)
              && WalkFrom(listing, page, failing, step, s).1 == Some(StoreFailure(UserCategoriesPage(q)))
    decreases |listing| - page * PerPage
  {
    PageBounds(listing, page);
    if UserCategoriesPage(page) in failing {
      assert WalkFrom(listing, page, failing, step, s).1 == Some(StoreFailure(UserCategoriesPage(page)));
    } else {
      var items := PageOf(listing, page, PerPage);
      var r := Fold(items, step, s);
      NeverStopsFold(items, step, s);
      var p: nat :| page <= p <= |listing| / PerPage && UserCategoriesPage(p) in failing;
      assert |items| == PerPage;
      assert WalkFrom(listing, page, failing, step, s) == WalkFrom(listing, page + 1, failing, step, r.state);
      WalkFromFailsAtFirstBadPage(listing, page + 1, failing, step, r.state);
    }
  }

  /** The walk reaches page `q` when the pages before it are readable and
      full and the callback does not stop within them; a failing read of
      page `q` then ends the walk with that page's error, with the state the
      callback left. */
  lemma {:induction false} WalkFromFailsAt<S>(listing: seq<Category>, page: nat, q: nat, failing: set<Call>,
                                              step: (S, Category) -> Step<S>, s: S)
    requires page <= q && q * PerPage <= |listing|
    requires forall p: nat :: page <= p < q ==> UserCategoriesPage(p) !in failing
    requires !Fold(listing[page * PerPage..q * PerPage], step, s).stopped
    requires UserCategoriesPage(q) in failing
    ensures WalkFrom(listing, page, failing, step, s)
            == (Fold(listing[page * PerPage..q * PerPage], step, s).state, Some(StoreFailure(UserCategoriesPage(q))))
    decreases q - page
  {
    var start := page * PerPage;
    if page == q {
      assert listing[start..q * PerPage] == [];
    } else {
      assert start + PerPage <= q * PerPage <= |listing|;
      var items := PageOf(listing, page, PerPage);
      assert items == listing[start..start + PerPage];
      var mid := listing[start + PerPage..q * PerPage];
      assert listing[start..q * PerPage] == items + mid;
      FoldConcat(items, mid, step, s);
      var r := Fold(items, step, s);
      assert (page + 1) * PerPage == start + PerPage;
      WalkFromFailsAt(listing, page + 1, q, failing, step, r.state);
    }
  }

  /** From page 0: with pages 0 to q - 1 readable and full and a callback
      that does not stop within them, a failing page q ends the walk with its
      error. */
  lemma WalkFailsAt<S>(listing: seq<Category>, q: nat, failing: set<Call>, step: (S, Category) -> Step<S>, init: S)
    requires q * PerPage <= |listing|
    requires forall p: nat :: p < q ==> UserCategoriesPage(p) !in failing
    requires !Fold(listing[..q * PerPage], step, init).stopped
    requires UserCategoriesPage(q) in failing
    ensures Walk(listing, failing, step, init)
            == (Fold(listing[..q * PerPage], step, init).state, Some(StoreFailure(UserCategoriesPage(q))))
  {
    assert listing[0..q * PerPage] == listing[..q * PerPage];
    WalkFromFailsAt(listing, 0, q, failing, step, init);
  }

  /** When some page the walk would read fails and the callback never stops,
      the walk reports the failure of the first such page. */
  lemma WalkFailsAtFirstBadPage<S(!new)>(listing: seq<Category>, failing: set<Call>, step: (S, Category) -> Step<S>, init: S)
    requires NeverStops(step)
    requires !PagesReadable(listing, failing)
    ensures exists q: nat :: q <= |listing| / PerPage && UserCategoriesPage(q) in failing
              && (forall p: nat :: p < q ==> UserCategoriesPage(p) !in failing)
              && Walk(listing, failing, step, init).1 == Some(StoreFailure(UserCategoriesPage(q)))
  {
    WalkFromFailsAtFirstBadPage(listing, 0, failing, step, init);
  }

  lemma {:induction false} NeverStopsFold<T(!new), S(!new)>(items: seq<T>, step: (S, T) -> Step<S>, init: S)
    requires NeverStops(step)
    ensures !Fold(items, step, init).stopped
    decreases |items|
  {
    if items != [] {
      NeverStopsFold(items[..|items| - 1], step, init);
    }
  }
}
