/**
 * The state of the search box component of src/components/SearchBar.jsx:
 * the typed query, the at most five results shown under it, and whether
 * the dropdown is open. The posts it searches are the loaded posts, passed
 * in once.
 */
module SearchBar {
  import opened Text
  import opened Seqs
  import opened PostLoader

  /** A query whose trimmed form is shorter than this, in UTF-16 code units, searches nothing. */
  const MinQueryLength := 2

  /** The dropdown lists at most this many results. */
  const MaxResults := 5

  /** `filtered.slice(0, 5)`: the first results, up to the cap. */
  function FirstResults(found: seq<Post>): (shown: seq<Post>)
    ensures |shown| <= MaxResults && |shown| <= |found|
    ensures shown == found[..|shown|]
    ensures |shown| < MaxResults ==> shown == found
  {
    if |found| <= MaxResults then found else found[..MaxResults]
  }

  /** The results the box holds after the query `query` is typed. */
  function ResultsFor(allPosts: seq<Post>, query: string): (shown: seq<Post>)
    ensures |shown| <= MaxResults
    ensures forall p :: p in shown ==> p in allPosts && MatchesQuery(p, query)
  {
    if Utf16Length(Trim(query)) < MinQueryLength then [] else FirstResults(MatchingPosts(allPosts, query))
  }

  /**
   * What the box lists: nothing for a query shorter than two UTF-16 code
   * units once trimmed; otherwise the first up to five posts, in the given order,
   * whose title, preview or topic contains the untrimmed query ignoring case.
   */
  lemma ResultsForSpec(allPosts: seq<Post>, query: string)
    ensures var shown := ResultsFor(allPosts, query);
      && |shown| <= MaxResults
      && (Utf16Length(Trim(query)) < MinQueryLength ==> shown == [])
      && (Utf16Length(Trim(query)) >= MinQueryLength ==>
            && shown == MatchingPosts(allPosts, query)[..|shown|]
            && (|shown| < MaxResults ==> shown == MatchingPosts(allPosts, query))
            && (shown == [] <==> forall p :: p in allPosts ==> !MatchesQuery(p, query)))
  {
    if Utf16Length(Trim(query)) >= MinQueryLength {
      var found := MatchingPosts(allPosts, query);
      if found != [] {
        assert found[0] in found;
        assert FirstResults(found)[0] == found[0];
      }
    }
  }

  /** Given the loaded posts, the box shows a prefix of what `searchPosts` returns for the same query. */
  lemma ResultsArePrefixOfSearch(dir: Directory, query: string)
    ensures var shown := ResultsFor(GetAllPosts(dir), query);
      shown == SearchPosts(dir, query)[..|shown|]
  {
  }

  /** A single character outside the Basic Multilingual Plane is two code units long, so it is searched for. */
  lemma AstralQueryIsSearched(allPosts: seq<Post>)
    ensures ResultsFor(allPosts, "\U{1F600}") == FirstResults(MatchingPosts(allPosts, "\U{1F600}"))
  {
    var q := "\U{1F600}";
    assert !IsSpace(q[0]);
    assert TrimStart(q) == q;
    assert TrimEnd(q) == q;
    assert Utf16Length(q) == CodeUnits(q[0]) + Utf16Length(q[1..]);
  }

  class SearchBarState {
    const allPosts: seq<Post>
    var query: string
    var results: seq<Post>
    var isOpen: bool

    /**
     * The results always belong to the current query, and the dropdown is
     * open only over a non-empty list.
     */
    ghost predicate Valid()
      reads this
    {
      && results == ResultsFor(allPosts, query)
      && (isOpen ==> results != [])
    }

    constructor(allPosts: seq<Post>)
      ensures Valid()
      ensures this.allPosts == allPosts && query == "" && results == [] && !isOpen
    {
      this.allPosts := allPosts;
      query, results, isOpen := "", [], false;
    }

    /** `handleSearch`: the input's `onChange`. */
    method HandleSearch(searchQuery: string)
      modifies this
      ensures Valid()
      ensures query == searchQuery
      ensures Utf16Length(Trim(searchQuery)) < MinQueryLength ==> results == [] && !isOpen
      ensures Utf16Length(Trim(searchQuery)) >= MinQueryLength ==>
        && results == FirstResults(MatchingPosts(allPosts, searchQuery))
        && (isOpen <==> MatchingPosts(allPosts, searchQuery) != [])
    {
      query := searchQuery;
      if Utf16Length(Trim(searchQuery)) < MinQueryLength {
        results := [];
        isOpen := false;
        return;
      }
      var filtered := MatchingPosts(allPosts, searchQuery);
      results := FirstResults(filtered);
      isOpen := |filtered| > 0;
      if filtered != [] {
        assert results[0] == filtered[0];
      }
    }

    /** `handleClear`: the clear button, and following a result. */
    method HandleClear()
      modifies this
      ensures Valid()
      ensures query == "" && results == [] && !isOpen
    {
      query := "";
      results := [];
      isOpen := false;
    }

    /** A click on the backdrop closes the dropdown and keeps the query and results. */
    method CloseDropdown()
      modifies this
      ensures old(Valid()) ==> Valid()
      ensures query == old(query) && results == old(results) && !isOpen
    {
      isOpen := false;
    }
  }
}
