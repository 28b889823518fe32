/**
 * The state of the post grid component of src/components/PostList.jsx: the
 * posts of one topic, passed in once, and the ones the chosen subtopic
 * filter lets through.
 */
module PostList {
  import opened Seqs
  import opened PostLoader

  /** The filter value of the "All" button. */
  const AllSubtopics := "all"

  function Tagged(subtopic: string): Post -> bool {
    (p: Post) => subtopic in p.subtopics
  }

  /**
   * What `handleFilter(subtopic)` shows: every post for `'all'`, otherwise
   * the posts listing `subtopic` exactly (case counts), in their order.
   */
  function FilterBySubtopic(posts: seq<Post>, subtopic: string): (shown: seq<Post>)
    ensures subtopic == AllSubtopics ==> shown == posts
    ensures subtopic != AllSubtopics ==>
      && (forall p :: p in shown <==> p in posts && subtopic in p.subtopics)
      && Subsequence(shown, posts)
      && (forall p :: multiset(shown)[p] == if subtopic in p.subtopics then multiset(posts)[p] else 0)
  {
    if subtopic == AllSubtopics then posts
    else
      FilterSubsequence(posts, Tagged(subtopic));
      FilterCounts(posts, Tagged(subtopic));
      Filter(posts, Tagged(subtopic))
  }

  /** "No posts found in this topic.": the component renders only this when it gets no posts. */
  predicate ShowsTopicEmpty(posts: seq<Post>) {
    posts == []
  }

  /** "No posts match this filter.": there are posts, but the filter let none through. */
  predicate ShowsNoMatch(posts: seq<Post>, filteredPosts: seq<Post>) {
    posts != [] && filteredPosts == []
  }

  /**
   * After a filter is chosen, "No posts match this filter." shows exactly
   * when there are posts, the choice is not `'all'`, and no post lists it.
   */
  lemma NoMatchIff(posts: seq<Post>, subtopic: string)
    ensures ShowsNoMatch(posts, FilterBySubtopic(posts, subtopic)) <==>
      posts != [] && subtopic != AllSubtopics && forall p :: p in posts ==> subtopic !in p.subtopics
  {
    var shown := FilterBySubtopic(posts, subtopic);
    if shown != [] {
      assert shown[0] in shown;
    }
  }

  class PostListState {
    const posts: seq<Post>
    var filteredPosts: seq<Post>

    /** The grid starts with every post. */
    constructor(posts: seq<Post>)
      ensures this.posts == posts && filteredPosts == posts
    {
      this.posts := posts;
      filteredPosts := posts;
    }

    /**
     * `handleFilter`: always filters the original posts, so the new state
     * depends on the argument alone and not on the filters chosen before.
     */
    method HandleFilter(subtopic: string)
      modifies this
      ensures filteredPosts == FilterBySubtopic(posts, subtopic)
    {
      if subtopic == AllSubtopics {
        filteredPosts := posts;
      } else {
        filteredPosts := Filter(posts, Tagged(subtopic));
      }
    }
  }
}
