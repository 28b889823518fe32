/**
 * The state of the search panel component of src/components/SearchButton.jsx:
 * whether the panel is open, the typed term, and every post matching it.
 */
module SearchButton {
  import opened Text
  import opened PostLoader
  import SearchBar

  /** The results the panel holds after `term` is typed: no cap, unlike the search box. */
  function FoundFor(allPosts: seq<Post>, term: string): (found: seq<Post>)
    ensures forall p :: p in found <==>
      Utf16Length(Trim(term)) >= SearchBar.MinQueryLength && p in allPosts && MatchesQuery(p, term)
  {
    if Utf16Length(Trim(term)) < SearchBar.MinQueryLength then [] else MatchingPosts(allPosts, term)
  }

  /**
   * The "No posts found" line: drawn inside the open panel, for a term of
   * two UTF-16 code units or more, untrimmed, with no results.
   */
  predicate ShowsNoPostsFound(isOpen: bool, searchTerm: string, results: seq<Post>) {
    isOpen && Utf16Length(searchTerm) >= 2 && results == []
  }

  /**
   * Right after typing, "No posts found" shows exactly when the panel is
   * open, the term is two code units or more, and it either trims to fewer
   * than two or matches no post.
   */
  lemma NoPostsFoundIff(isOpen: bool, allPosts: seq<Post>, term: string)
    ensures ShowsNoPostsFound(isOpen, term, FoundFor(allPosts, term)) <==>
      && isOpen && Utf16Length(term) >= 2
      && (Utf16Length(Trim(term)) < 2 || forall p :: p in allPosts ==> !MatchesQuery(p, term))
  {
    if Utf16Length(Trim(term)) >= 2 && FoundFor(allPosts, term) != [] {
      assert FoundFor(allPosts, term)[0] in FoundFor(allPosts, term);
    }
  }

  /** In the open panel, a term of two or more white-space characters shows "No posts found", whatever the posts. */
  lemma BlankTermShowsNoPostsFound(allPosts: seq<Post>, term: string)
    requires |term| >= 2 && AllSpace(term)
    ensures ShowsNoPostsFound(true, term, FoundFor(allPosts, term))
  {
    TrimBlank(term);
  }

  /** The search box shows the first up to five of the panel's results for the same input. */
  lemma BoxShowsPrefixOfPanel(allPosts: seq<Post>, term: string)
    ensures var shown := SearchBar.ResultsFor(allPosts, term);
      |shown| <= |FoundFor(allPosts, term)| && shown == FoundFor(allPosts, term)[..|shown|]
  {
  }

  class SearchButtonState {
    const allPosts: seq<Post>
    var isOpen: bool
    var searchTerm: string
    var results: seq<Post>

    constructor(allPosts: seq<Post>)
      ensures this.allPosts == allPosts && !isOpen && searchTerm == "" && results == []
    {
      this.allPosts := allPosts;
      isOpen, searchTerm, results := false, "", [];
    }

    /** The Search button flips the panel open or shut. */
    method Toggle()
      modifies this
      ensures isOpen == !old(isOpen) && searchTerm == old(searchTerm) && results == old(results)
    {
      isOpen := !isOpen;
    }

    /** A click on the backdrop shuts the panel. */
    method Close()
      modifies this
      ensures !isOpen && searchTerm == old(searchTerm) && results == old(results)
      ensures !ShowsNoPostsFound(isOpen, searchTerm, results)
    {
      isOpen := false;
    }

    /** `handleSearch`: the input's `onChange`. */
    method HandleSearch(term: string)
      modifies this
      ensures searchTerm == term && isOpen == old(isOpen)
      ensures Utf16Length(Trim(term)) < SearchBar.MinQueryLength ==> results == []
      ensures Utf16Length(Trim(term)) >= SearchBar.MinQueryLength ==> results == MatchingPosts(allPosts, term)
      ensures results == FoundFor(allPosts, term)
    {
      searchTerm := term;
      if Utf16Length(Trim(term)) < SearchBar.MinQueryLength {
        results := [];
        return;
      }
      results := MatchingPosts(allPosts, term);
    }

    /** Following a result shuts the panel and empties the term; the results stay. */
    method SelectResult()
      modifies this
      ensures !isOpen && searchTerm == "" && results == old(results)
      ensures !ShowsNoPostsFound(isOpen, searchTerm, results)
    {
      isOpen := false;
      searchTerm := "";
    }
  }
}
