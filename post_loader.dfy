/**
 * The content index of src/utils/PostLoader.js: every query reloads the
 * posts directory, turns each markdown file into a post record with default
 * fields, sorts the records newest first, and filters, deduplicates, sorts
 * or searches that list.
 *
 * The directory is an input: `None` when it cannot be listed, otherwise its
 * entries in enumeration order, each carrying the front matter and body the
 * parser produced, or `None` when reading or parsing that file fails.
 */
module PostLoader {
  import opened Wrappers
  import opened Seqs
  import opened Text

  /**
   * A post date as the sort compares it: a parsed timestamp, or `None` for
   * a missing, empty or unparseable date (the record then holds `''`).
   */
  type DateKey = Option<int>

  /** The front-matter fields the loader reads; `None` is an absent field. */
  datatype FrontMatter = FrontMatter(
    title: Option<string>,
    date: DateKey,
    preview: Option<string>,
    topic: Option<string>,
    subtopics: Option<seq<string>>,
    image: Option<string>)

  datatype ParsedFile = ParsedFile(data: FrontMatter, content: string)

  datatype DirEntry = DirEntry(name: string, parsed: Option<ParsedFile>)

  type Directory = Option<seq<DirEntry>>

  datatype Post = Post(
    slug: string,
    content: string,
    title: string,
    date: DateKey,
    preview: string,
    topic: string,
    subtopics: seq<string>,
    image: string)

  const MarkdownExtension := ".md"
  const DefaultTitle := "Untitled"
  const DefaultTopic := "Uncategorized"

  predicate IsMarkdown(name: string) {
    |name| >= |MarkdownExtension| && name[|name| - |MarkdownExtension|..] == MarkdownExtension
  }

  /** A string field is used only when it is truthy, that is present and not empty. */
  predicate Truthy(v: Option<string>) {
    v.Some? && v.value != ""
  }

  /** `value || fallback` for an optional string field. */
  function OrDefault(v: Option<string>, fallback: string): string {
    if Truthy(v) then v.value else fallback
  }

  /** The record one markdown file becomes. */
  function BuildPost(e: DirEntry): (p: Post)
    requires IsMarkdown(e.name) && e.parsed.Some?
    ensures p.slug + MarkdownExtension == e.name
    ensures p.content == e.parsed.value.content && p.date == e.parsed.value.data.date
    ensures p.title != "" && p.topic != ""
    ensures var d := e.parsed.value.data;
      && (Truthy(d.title) ==> p.title == d.title.value) && (!Truthy(d.title) ==> p.title == DefaultTitle)
      && (Truthy(d.preview) ==> p.preview == d.preview.value) && (!Truthy(d.preview) ==> p.preview == "")
      && (Truthy(d.topic) ==> p.topic == d.topic.value) && (!Truthy(d.topic) ==> p.topic == DefaultTopic)
      && (d.subtopics.Some? ==> p.subtopics == d.subtopics.value) && (d.subtopics.None? ==> p.subtopics == [])
      && (Truthy(d.image) ==> p.image == d.image.value) && (!Truthy(d.image) ==> p.image == "")
  {
    var d := e.parsed.value.data;
    var slug := e.name[..|e.name| - |MarkdownExtension|];
    assert slug + MarkdownExtension == e.name;
    Post(
      slug := slug,
      content := e.parsed.value.content,
      title := OrDefault(d.title, DefaultTitle),
      date := d.date,
      preview := OrDefault(d.preview, ""),
      topic := OrDefault(d.topic, DefaultTopic),
      subtopics := if d.subtopics.Some? then d.subtopics.value else [],
      image := OrDefault(d.image, ""))
  }

  function MarkdownEntries(entries: seq<DirEntry>): seq<DirEntry> {
    Filter(entries, (e: DirEntry) => IsMarkdown(e.name))
  }

  /** Reading or parsing some markdown file failed (files with other names are never read). */
  predicate SomeFileFails(entries: seq<DirEntry>) {
    exists e :: e in entries && IsMarkdown(e.name) && e.parsed.None?
  }

  /** The `filter`/`map` stage: one post per markdown file, in directory order. */
  function BuildPosts(entries: seq<DirEntry>): (posts: seq<Post>)
    requires !SomeFileFails(entries)
    ensures |posts| == |MarkdownEntries(entries)|
    ensures forall k :: 0 <= k < |posts| ==>
      posts[k].slug + MarkdownExtension == MarkdownEntries(entries)[k].name
      && posts[k] == BuildPost(MarkdownEntries(entries)[k])
  {
    var md := MarkdownEntries(entries);
    assert forall e :: e in md ==> e in entries && IsMarkdown(e.name);
    seq(|md|, k requires 0 <= k < |md| => BuildPost(md[k]))
  }

  /** File names are unique in a directory listing. */
  predicate DistinctNames(entries: seq<DirEntry>) {
    forall i, j :: 0 <= i < j < |entries| ==> entries[i].name != entries[j].name
  }

  /** A post's slug names the post uniquely. */
  predicate SlugsIdentify(posts: seq<Post>) {
    forall a, b :: a in posts && b in posts && a.slug == b.slug ==> a == b
  }

  /** Distinct file names give distinct slugs: a slug is its file name less `.md`. */
  lemma BuiltSlugsIdentify(entries: seq<DirEntry>)
    requires !SomeFileFails(entries) && DistinctNames(entries)
    ensures SlugsIdentify(BuildPosts(entries))
  {
    var md := MarkdownEntries(entries);
    var posts := BuildPosts(entries);
    forall a, b | a in posts && b in posts && a.slug == b.slug ensures a == b {
      var i :| 0 <= i < |posts| && posts[i] == a;
      var j :| 0 <= j < |posts| && posts[j] == b;
      assert md[i].name == md[j].name;
      assert md[i] in entries && md[j] in entries;
      var x :| 0 <= x < |entries| && entries[x] == md[i];
      var y :| 0 <= y < |entries| && entries[y] == md[j];
      assert x == y;
    }
  }

  // ---- the sort: `new Date(b.date) - new Date(a.date)`, stable ----

  /** `a` sorts no later than `b` in a newest-first list; a post without a date counts as oldest. */
  predicate AtLeastAsRecent(a: DateKey, b: DateKey) {
    b.None? || (a.Some? && a.value >= b.value)
  }

  predicate NewestFirst(posts: seq<Post>) {
    forall i, j :: 0 <= i < j < |posts| ==> AtLeastAsRecent(posts[i].date, posts[j].date)
  }

  function HasDate(d: DateKey): Post -> bool {
    (p: Post) => p.date == d
  }

  /** The posts of `posts` carrying date `d`, in their order. */
  function DatedOn(posts: seq<Post>, d: DateKey): seq<Post> {
    Filter(posts, HasDate(d))
  }

  /** Puts `p` in front of the first post it is at least as recent as. */
  function InsertByDate(p: Post, sorted: seq<Post>): (r: seq<Post>)
    ensures multiset(r) == multiset(sorted) + multiset{p}
    ensures NewestFirst(sorted) ==> NewestFirst(r)
    decreases |sorted|
  {
    if sorted == [] || AtLeastAsRecent(p.date, sorted[0].date) then
      assert NewestFirst(sorted) ==> NewestFirst([p] + sorted) by {
        if NewestFirst(sorted) { NewerFirst(p, sorted); }
      }
      [p] + sorted
    else
      var rest := InsertByDate(p, sorted[1..]);
      assert sorted == [sorted[0]] + sorted[1..];
      assert NewestFirst(sorted) ==> NewestFirst([sorted[0]] + rest) by {
        if NewestFirst(sorted) {
          assert forall q :: q in rest ==> AtLeastAsRecent(sorted[0].date, q.date) by {
            assert forall q :: q in rest <==> q in multiset(rest);
            assert forall q :: q in sorted[1..] ==> AtLeastAsRecent(sorted[0].date, q.date);
          }
          NewerFirst(sorted[0], rest);
        }
      }
      [sorted[0]] + rest
  }

  lemma NewerFirst(p: Post, s: seq<Post>)
    requires NewestFirst(s)
    requires s == [] || AtLeastAsRecent(p.date, s[0].date) || forall q :: q in s ==> AtLeastAsRecent(p.date, q.date)
    ensures NewestFirst([p] + s)
  {
    var r := [p] + s;
    forall i, j | 0 <= i < j < |r| ensures AtLeastAsRecent(r[i].date, r[j].date) {
      assert r[j] == s[j - 1];
      if i > 0 {
        assert r[i] == s[i - 1];
      } else if forall q :: q in s ==> AtLeastAsRecent(p.date, q.date) {
        assert s[j - 1] in s;
      } else {
        assert AtLeastAsRecent(s[0].date, s[j - 1].date);
      }
    }
  }

  /** The stable descending sort, as an insertion sort. */
  function SortByDate(posts: seq<Post>): (r: seq<Post>)
    ensures NewestFirst(r)
    ensures multiset(r) == multiset(posts)
    decreases |posts|
  {
    if posts == [] then []
    else
      assert posts == [posts[0]] + posts[1..];
      InsertByDate(posts[0], SortByDate(posts[1..]))
  }

  /** Inserting `p` puts it ahead of every post of the same date. */
  lemma {:induction false} InsertByDateStable(p: Post, sorted: seq<Post>, d: DateKey)
    ensures DatedOn(InsertByDate(p, sorted), d) == DatedOn([p], d) + DatedOn(sorted, d)
    decreases |sorted|
  {
    if sorted == [] || AtLeastAsRecent(p.date, sorted[0].date) {
      FilterAppend([p], sorted, HasDate(d));
    } else {
      var head, tail := sorted[0], sorted[1..];
      var rest := InsertByDate(p, tail);
      assert sorted == [head] + tail;
      assert InsertByDate(p, sorted) == [head] + rest;
      InsertByDateStable(p, tail, d);
      FilterBehindHead(head, p, tail, rest, HasDate(d));
    }
  }

  /**
   * The sort is stable: the posts sharing any one date appear in the same
   * relative order as before sorting.
   */
  lemma {:induction false} SortByDateStable(posts: seq<Post>, d: DateKey)
    ensures DatedOn(SortByDate(posts), d) == DatedOn(posts, d)
    decreases |posts|
  {
    if posts != [] {
      assert posts == [posts[0]] + posts[1..];
      InsertByDateStable(posts[0], SortByDate(posts[1..]), d);
      SortByDateStable(posts[1..], d);
      FilterAppend([posts[0]], posts[1..], HasDate(d));
    }
  }

  // ---- getAllPosts ----

  /** Listing the directory fails, or reading or parsing one of its markdown files does. */
  predicate LoadFails(dir: Directory) {
    dir.None? || SomeFileFails(dir.value)
  }

  /** `getAllPosts`: every markdown file's record, newest first, or nothing at all on any failure. */
  function GetAllPosts(dir: Directory): (posts: seq<Post>)
    ensures LoadFails(dir) ==> posts == []
    ensures !LoadFails(dir) ==> NewestFirst(posts) && multiset(posts) == multiset(BuildPosts(dir.value))
  {
    if LoadFails(dir) then [] else SortByDate(BuildPosts(dir.value))
  }

  /** Posts with equal dates keep directory order. */
  lemma GetAllPostsStable(dir: Directory, d: DateKey)
    requires !LoadFails(dir)
    ensures DatedOn(GetAllPosts(dir), d) == DatedOn(BuildPosts(dir.value), d)
  {
    SortByDateStable(BuildPosts(dir.value), d);
  }

  /** Each loaded post is the record of one markdown file of the directory. */
  lemma LoadedPostsComeFromFiles(dir: Directory, p: Post)
    requires p in GetAllPosts(dir)
    ensures !LoadFails(dir)
    ensures exists e :: e in dir.value && IsMarkdown(e.name) && e.parsed.Some? && p == BuildPost(e)
  {
    var built := BuildPosts(dir.value);
    assert p in multiset(built);
    var k :| 0 <= k < |built| && built[k] == p;
    assert MarkdownEntries(dir.value)[k] in dir.value;
  }

  /** With unique file names, a slug names one loaded post. */
  lemma LoadedSlugsIdentify(dir: Directory)
    requires dir.Some? ==> DistinctNames(dir.value)
    ensures SlugsIdentify(GetAllPosts(dir))
  {
    if !LoadFails(dir) {
      BuiltSlugsIdentify(dir.value);
      var built := BuildPosts(dir.value);
      assert forall p :: p in GetAllPosts(dir) <==> p in multiset(built);
    }
  }

  // ---- getAllTopics ----

  function TopicsOf(posts: seq<Post>): (topics: seq<string>)
    ensures forall t :: t in topics <==> exists p :: p in posts && p.topic == t
  {
    var topics := seq(|posts|, i requires 0 <= i < |posts| => posts[i].topic);
    assert forall p :: p in posts ==> p.topic in topics by {
      forall p | p in posts ensures p.topic in topics {
        var i :| 0 <= i < |posts| && posts[i] == p;
        assert topics[i] == p.topic;
      }
    }
    topics
  }

  /** `getAllTopics`: every topic of the loaded posts once, ascending; topics differing in case stay apart. */
  function GetAllTopics(dir: Directory): (topics: seq<string>)
    ensures StrictlyAscending(topics)
    ensures forall t :: t in topics <==> exists p :: p in GetAllPosts(dir) && p.topic == t
  {
    var distinct := Distinct(TopicsOf(GetAllPosts(dir)));
    SortDistinct(distinct);
    SortStrings(distinct)
  }

  // ---- getPostsByTopic ----

  /** `post.topic.toLowerCase() === topic.toLowerCase()`. */
  predicate TopicMatches(p: Post, topic: string) {
    Lower(p.topic) == Lower(topic)
  }

  function OfTopic(topic: string): Post -> bool {
    (p: Post) => TopicMatches(p, topic)
  }

  /** `getPostsByTopic`: the loaded posts whose topic equals `topic` ignoring case, in load order. */
  function GetPostsByTopic(dir: Directory, topic: string): (posts: seq<Post>)
    ensures forall p :: p in posts <==> p in GetAllPosts(dir) && Lower(p.topic) == Lower(topic)
    ensures Subsequence(posts, GetAllPosts(dir))
    ensures forall p :: multiset(posts)[p] == if TopicMatches(p, topic) then multiset(GetAllPosts(dir))[p] else 0
  {
    FilterSubsequence(GetAllPosts(dir), OfTopic(topic));
    FilterCounts(GetAllPosts(dir), OfTopic(topic));
    Filter(GetAllPosts(dir), OfTopic(topic))
  }

  /** Topic arguments that differ only in letter case select the same posts. */
  lemma PostsByTopicIgnoresCase(dir: Directory, t1: string, t2: string)
    requires Lower(t1) == Lower(t2)
    ensures GetPostsByTopic(dir, t1) == GetPostsByTopic(dir, t2)
  {
    FilterCongruent(GetAllPosts(dir), OfTopic(t1), OfTopic(t2));
  }

  // ---- getSubtopicsByTopic ----

  /** Whether `s` is a subtopic of one of `posts`. */
  predicate HasSubtopic(posts: seq<Post>, s: string) {
    exists i :: 0 <= i < |posts| && s in posts[i].subtopics
  }

  lemma HasSubtopicExtend(posts: seq<Post>, i: int, s: string)
    requires 0 <= i < |posts|
    ensures HasSubtopic(posts[..i + 1], s) <==> HasSubtopic(posts[..i], s) || s in posts[i].subtopics
  {
    if HasSubtopic(posts[..i + 1], s) {
      var k :| 0 <= k < i + 1 && s in posts[..i + 1][k].subtopics;
      if k < i {
        assert posts[..i][k] == posts[..i + 1][k];
      }
    }
    if HasSubtopic(posts[..i], s) {
      var k :| 0 <= k < i && s in posts[..i][k].subtopics;
      assert posts[..i + 1][k] == posts[..i][k];
    }
    if s in posts[i].subtopics {
      assert posts[..i + 1][i] == posts[i];
    }
  }

  /** No post of `posts` has a subtopic exactly when every subtopic list is empty. */
  lemma NoSubtopics(posts: seq<Post>)
    ensures (forall s :: !HasSubtopic(posts, s)) <==> forall p :: p in posts ==> p.subtopics == []
  {
    if exists p :: p in posts && p.subtopics != [] {
      var p :| p in posts && p.subtopics != [];
      var k :| 0 <= k < |posts| && posts[k] == p;
      assert HasSubtopic(posts, p.subtopics[0]);
    }
  }

  /** Adds `subs` to `seen` in order, skipping what is already there: `subtopics.add` over one post. */
  method AddAll(seen: seq<string>, subs: seq<string>) returns (r: seq<string>)
    requires NoDuplicates(seen)
    ensures NoDuplicates(r)
    ensures forall s :: s in r <==> s in seen || s in subs
  {
    r := seen;
    var j := 0;
    while j < |subs|
      invariant 0 <= j <= |subs|
      invariant NoDuplicates(r)
      invariant forall s :: s in r <==> s in seen || s in subs[..j]
    {
      if subs[j] !in r {
        r := r + [subs[j]];
      }
      assert subs[..j + 1] == subs[..j] + [subs[j]];
      j := j + 1;
    }
    assert subs[..j] == subs;
  }

  /**
   * The subtopics of `posts`, each once, ascending. The loops add to a set,
   * kept in insertion order, as the source's `Set` does, and sort it.
   */
  method SortedSubtopics(posts: seq<Post>) returns (subtopics: seq<string>)
    ensures StrictlyAscending(subtopics)
    ensures forall s :: s in subtopics <==> HasSubtopic(posts, s)
    ensures subtopics == [] <==> forall p :: p in posts ==> p.subtopics == []
  {
    var seen: seq<string> := [];
    var i := 0;
    while i < |posts|
      invariant 0 <= i <= |posts|
      invariant NoDuplicates(seen)
      invariant forall s :: s in seen <==> HasSubtopic(posts[..i], s)
    {
      seen := AddAll(seen, posts[i].subtopics);
      forall s ensures HasSubtopic(posts[..i + 1], s) <==> HasSubtopic(posts[..i], s) || s in posts[i].subtopics {
        HasSubtopicExtend(posts, i, s);
      }
      i := i + 1;
    }
    assert posts[..i] == posts;
    SortDistinct(seen);
    subtopics := SortStrings(seen);
    NoSubtopics(posts);
    if subtopics != [] {
      assert subtopics[0] in seen;
    }
  }

  /** `getSubtopicsByTopic`: the subtopics of the posts of `topic`, each once, ascending. */
  method GetSubtopicsByTopic(dir: Directory, topic: string) returns (subtopics: seq<string>)
    ensures StrictlyAscending(subtopics)
    ensures forall s :: s in subtopics <==> HasSubtopic(GetPostsByTopic(dir, topic), s)
    ensures subtopics == [] <==> forall p :: p in GetPostsByTopic(dir, topic) ==> p.subtopics == []
  {
    subtopics := SortedSubtopics(GetPostsByTopic(dir, topic));
  }

  // ---- getPost ----

  predicate PostAt(p: Post, topic: string, slug: string) {
    TopicMatches(p, topic) && p.slug == slug
  }

  function At(topic: string, slug: string): Post -> bool {
    (p: Post) => PostAt(p, topic, slug)
  }

  /** `getPost`: the first loaded post whose topic matches `topic` ignoring case and whose slug is `slug`. */
  function GetPost(dir: Directory, topic: string, slug: string): (r: Option<Post>)
    ensures r.Some? ==> r.value in GetAllPosts(dir) && Lower(r.value.topic) == Lower(topic) && r.value.slug == slug
    ensures r.None? <==> forall p :: p in GetAllPosts(dir) ==> Lower(p.topic) != Lower(topic) || p.slug != slug
    ensures r.Some? ==> exists i ::
              && 0 <= i < |GetAllPosts(dir)| && GetAllPosts(dir)[i] == r.value
              && forall j :: 0 <= j < i ==> !PostAt(GetAllPosts(dir)[j], topic, slug)
  {
    Find(GetAllPosts(dir), At(topic, slug))
  }

  /**
   * The address `/<lower-cased topic>/<slug>` that post cards and
   * `generateStaticParams` build for a loaded post leads back to that post
   * (to one with its slug and topic in any case, and to it alone when file
   * names are unique, as they are in a directory).
   */
  lemma PostUrlResolves(dir: Directory, p: Post)
    requires p in GetAllPosts(dir)
    ensures GetPost(dir, Lower(p.topic), p.slug).Some?
    ensures dir.Some? && DistinctNames(dir.value) ==> GetPost(dir, Lower(p.topic), p.slug) == Some(p)
  {
    LowerIdempotent(p.topic);
    assert TopicMatches(p, Lower(p.topic));
    if dir.Some? && DistinctNames(dir.value) {
      LoadedSlugsIdentify(dir);
    }
  }

  // ---- searchPosts ----

  /** The search test: the lower-cased query occurs in the lower-cased title, preview or topic. */
  predicate MatchesQuery(p: Post, query: string) {
    || Includes(Lower(p.title), Lower(query))
    || Includes(Lower(p.preview), Lower(query))
    || Includes(Lower(p.topic), Lower(query))
  }

  function Matches(query: string): Post -> bool {
    (p: Post) => MatchesQuery(p, query)
  }

  /** The posts of `posts` that match `query`, in their order: shared by the search and the two search components. */
  function MatchingPosts(posts: seq<Post>, query: string): (found: seq<Post>)
    ensures forall p :: p in found <==> p in posts && MatchesQuery(p, query)
    ensures Subsequence(found, posts)
    ensures forall p :: multiset(found)[p] == if MatchesQuery(p, query) then multiset(posts)[p] else 0
  {
    FilterSubsequence(posts, Matches(query));
    FilterCounts(posts, Matches(query));
    Filter(posts, Matches(query))
  }

  /** `searchPosts`: the loaded posts matching `query`, in load order. */
  function SearchPosts(dir: Directory, query: string): (found: seq<Post>)
    ensures forall p :: p in found <==> p in GetAllPosts(dir) && MatchesQuery(p, query)
    ensures Subsequence(found, GetAllPosts(dir))
    ensures forall p :: multiset(found)[p] == if MatchesQuery(p, query) then multiset(GetAllPosts(dir))[p] else 0
  {
    MatchingPosts(GetAllPosts(dir), query)
  }

  /** The empty query is included in every field, so it returns every post. */
  lemma SearchEmptyQuery(dir: Directory)
    ensures SearchPosts(dir, "") == GetAllPosts(dir)
  {
    forall p | p in GetAllPosts(dir) ensures MatchesQuery(p, "") {
      IncludesEmpty(Lower(p.title));
    }
    FilterKeepsAll(GetAllPosts(dir), Matches(""));
  }

  /** Queries that differ only in letter case find the same posts. */
  lemma SearchIgnoresCase(posts: seq<Post>, q1: string, q2: string)
    requires Lower(q1) == Lower(q2)
    ensures MatchingPosts(posts, q1) == MatchingPosts(posts, q2)
  {
    FilterCongruent(posts, Matches(q1), Matches(q2));
  }
}
