/** The catalog page (`src/pages/AllApps.jsx`): a live search over app titles,
    case-insensitive, followed by an optional sort by downloads. The 300 ms delay,
    the loading flag and the timer cleanup are left out: the search effect runs
    at once whenever the term or the order changes. */
module AllApps {
  import opened Seqs
  import opened Apps
  import opened DownloadSort

  /** The search test: the app's lowered title contains the lowered term. */
  function MatchesTerm(term: string): App -> bool
  {
    (a: App) => Includes(LowerStr(a.title), LowerStr(term))
  }

  /** The search step: the catalog apps whose title matches the term. */
  function Search(catalog: seq<App>, term: string): (r: seq<App>)
    ensures |r| <= |catalog|
  {
    Filter(catalog, MatchesTerm(term))
  }

  /** What the page shows: the search result, sorted by downloads unless the order
      is the empty string (no sort chosen). */
  function Results(catalog: seq<App>, term: string, order: string): (r: seq<App>)
    ensures |r| == |Search(catalog, term)|
  {
    var found := Search(catalog, term);
    if order == "" then found else SortBy(order, found)
  }

  /** The search keeps exactly the apps whose lowered title contains the lowered
      term, in catalog order. */
  lemma SearchSelectsMatches(catalog: seq<App>, term: string)
    ensures forall a :: a in Search(catalog, term) <==>
      a in catalog && (exists i :: OccursAt(LowerStr(a.title), LowerStr(term), i))
    ensures IsSubsequence(Search(catalog, term), catalog)
    ensures forall a ::
      multiset(Search(catalog, term))[a]
        == if exists i :: OccursAt(LowerStr(a.title), LowerStr(term), i) then multiset(catalog)[a] else 0
  {
    FilterMembers(catalog, MatchesTerm(term));
    FilterCounts(catalog, MatchesTerm(term));
    FilterSubsequence(catalog, MatchesTerm(term));
    forall a | a in catalog
      ensures MatchesTerm(term)(a) <==> exists i :: OccursAt(LowerStr(a.title), LowerStr(term), i)
    {
      IncludesIffOccurs(LowerStr(a.title), LowerStr(term));
    }
  }

  /** An app whose title contains the term exactly as typed is always found. */
  lemma SearchFindsVerbatimTitle(catalog: seq<App>, term: string, a: App)
    requires a in catalog && Includes(a.title, term)
    ensures a in Search(catalog, term)
  {
    IncludesLowered(a.title, term);
    FilterMembers(catalog, MatchesTerm(term));
  }

  /** An empty search term shows the whole catalog, in catalog order. */
  lemma EmptyTermShowsAll(catalog: seq<App>)
    ensures Search(catalog, "") == catalog
    ensures Results(catalog, "", "") == catalog
  {
    forall a | a in catalog
      ensures MatchesTerm("")(a)
    {
      assert LowerStr("") == "";
      EmptyIncludedEverywhere(LowerStr(a.title));
    }
    FilterKeepsAll(catalog, MatchesTerm(""));
  }

  /** Sorting never adds or drops an app: the results hold the same apps as the
      search, as often, whatever the order; so at most the catalog's apps. */
  lemma ResultsAreSearchReordered(catalog: seq<App>, term: string, order: string)
    ensures multiset(Results(catalog, term, order)) == multiset(Search(catalog, term))
    ensures multiset(Results(catalog, term, order)) <= multiset(catalog)
    ensures |Results(catalog, term, order)| <= |catalog|
  {
    SortByPermutes(order, Search(catalog, term));
    FilterCounts(catalog, MatchesTerm(term));
  }

  /** With an order chosen the results run by downloads, high to low for "desc"
      and low to high otherwise, and apps with equal downloads stay in catalog
      order. */
  lemma ResultsOrdered(catalog: seq<App>, term: string, order: string, k: int)
    requires order != ""
    ensures var r := Results(catalog, term, order);
      forall i, j :: 0 <= i < j < |r| ==>
        if order == "desc" then r[i].downloads >= r[j].downloads else r[i].downloads <= r[j].downloads
    ensures Filter(Results(catalog, term, order), WithDownloads(k)) == Filter(Search(catalog, term), WithDownloads(k))
  {
    SortByOrdered(order, Search(catalog, term));
    SortByStable(order, Search(catalog, term), k);
  }

  /** The search-then-sort the effect performs: filter into a new array, then sort
      that array in place when an order is chosen. */
  method SearchAndSort(catalog: seq<App>, term: string, order: string) returns (results: seq<App>)
    ensures results == Results(catalog, term, order)
  {
    var found := Filter(catalog, MatchesTerm(term));
    var a := new App[|found|](i requires 0 <= i < |found| => found[i]);
    assert a[..] == found;
    if order != "" {
      SortInPlace(a, order);
    }
    results := a[..];
  }

  class AllAppsPage {
    /** The catalog the page searches. */
    const catalog: seq<App>
    var searchTerm: string
    var sortOrder: string
    /** The apps the page shows. */
    var apps: seq<App>

    ghost predicate Valid()
      reads this
    {
      apps == Results(catalog, searchTerm, sortOrder)
    }

    /** The page starts with no term, no order and the whole catalog shown. */
    constructor (catalog: seq<App>)
      ensures this.catalog == catalog && searchTerm == "" && sortOrder == ""
      ensures apps == catalog && Valid()
    {
      this.catalog := catalog;
      searchTerm := "";
      sortOrder := "";
      apps := catalog;
      EmptyTermShowsAll(catalog);
    }

    /** Typing a new term reruns the search with the current order. */
    method SetSearchTerm(term: string)
      modifies this
      ensures searchTerm == term && sortOrder == old(sortOrder)
      ensures apps == Results(catalog, term, sortOrder) && Valid()
    {
      searchTerm := term;
      apps := SearchAndSort(catalog, searchTerm, sortOrder);
    }

    /** Choosing an order reruns the search with the current term. */
    method SetSortOrder(order: string)
      modifies this
      ensures sortOrder == order && searchTerm == old(searchTerm)
      ensures apps == Results(catalog, searchTerm, order) && Valid()
    {
      sortOrder := order;
      apps := SearchAndSort(catalog, searchTerm, sortOrder);
    }
  }
}
