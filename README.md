# Blog portfolio core, modelled in Dafny

This project models the content and mailing-list core of a Next.js blog
portfolio.

- **The post loader.** Each query re-reads the posts directory. It turns every
  markdown file into a post record with default fields and sorts the records
  newest first. Over that list it answers the topic list, the posts of a topic,
  the subtopics of a topic, a single post and a text search.
- **The subscriber store.** A JSON file holds the subscribed addresses. Adding
  and removing rewrite the file. There is also the address-shape check.
- **Three of the components that hold state.** These are the search box
  (SearchBar), the search panel (SearchButton) and the post grid (PostList),
  whose `filteredPosts` the subtopic buttons set.
- **The topic style table** and its lookup.

The file system and the front-matter parser are inputs. A directory listing is
`None` when it cannot be read. Otherwise it is a list of entries, each carrying
what the parser produced for that file, or `None` when reading or parsing it
fails. The subscriber file is `None` while it does not exist. A component's
state is a class whose fields are its React state variables. Its props are
`const` fields, and each handler is a method.

Modules:

| file | module |
|---|---|
| `wrappers.dfy` | `Wrappers` |
| `seqs.dfy` | `Seqs`: `filter`, `find`, the deduplication done by `Set` |
| `text.dfy` | `Text`: `toLowerCase`, `includes`, `trim`, `\s`, the default string sort |
| `post_loader.dfy` | `PostLoader` |
| `subscribers.dfy` | `Subscribers` |
| `search_bar.dfy` | `SearchBar` |
| `search_button.dfy` | `SearchButton` |
| `post_list.dfy` | `PostList` |
| `topics.dfy` | `Topics` |

## Model

| member | source | states |
|---|---|---|
| PostLoader.BuildPost | src/utils/PostLoader.js:23-38 | The slug plus `.md` gives back the file name. Content and date are copied. Each optional field takes the front-matter value exactly when that value is truthy, and its default otherwise. Title and topic are never empty. |
| PostLoader.BuildPosts | src/utils/PostLoader.js:21-39 | There is one record per markdown entry, in directory order. Record k is built from the k-th `.md` entry, and its slug is that file's name less `.md`. |
| PostLoader.BuiltSlugsIdentify | src/utils/PostLoader.js:22-24 | When file names are distinct, two built posts with the same slug are the same post. |
| PostLoader.InsertByDate | src/utils/PostLoader.js:40 | One insertion step of the sort. It adds exactly the one post (a multiset equation) and keeps a newest-first list newest first. |
| PostLoader.NewerFirst | src/utils/PostLoader.js:40 | A post at least as recent as the head of a newest-first list, or as all of it, can go in front. |
| PostLoader.SortByDate | src/utils/PostLoader.js:40 | The result is newest first and a permutation of the input. |
| PostLoader.InsertByDateStable | src/utils/PostLoader.js:40 | The inserted post goes ahead of every post with the same date. |
| PostLoader.SortByDateStable | src/utils/PostLoader.js:40 | For every date, the posts carrying it keep their relative input order. This is the stability of `Array.prototype.sort`. |
| PostLoader.GetAllPosts | src/utils/PostLoader.js:15-47 | Any listing, reading or parsing failure gives `[]`. Otherwise the result is a permutation of the built records, newest first under the total date order in which a post without a valid date is oldest. |
| PostLoader.GetAllPostsStable | src/utils/PostLoader.js:21-40 | Loaded posts with equal dates keep directory order, under the same total date order. |
| PostLoader.LoadedPostsComeFromFiles | src/utils/PostLoader.js:21-39 | Every loaded post is the record of some markdown file of a directory that loaded. |
| PostLoader.LoadedSlugsIdentify | src/utils/PostLoader.js:19-40 | With unique file names, a slug names at most one loaded post. |
| PostLoader.TopicsOf | src/utils/PostLoader.js:52 | `posts.map(post => post.topic)` holds exactly the topics of the posts. |
| PostLoader.GetAllTopics | src/utils/PostLoader.js:50-54 | Strictly ascending (code-point order; see Text.SortStrings), so each topic appears once. A string is listed iff some loaded post has it as its topic, with case significant. |
| PostLoader.GetPostsByTopic | src/utils/PostLoader.js:57-62 | A post is selected iff it is loaded and its topic equals the argument ignoring ASCII case. Every copy of a selected post is kept and load order is kept (subsequence). |
| PostLoader.PostsByTopicIgnoresCase | src/utils/PostLoader.js:59-61 | Topic arguments equal up to case select the same list. |
| PostLoader.HasSubtopicExtend | src/utils/PostLoader.js:69-71 | One more post adds exactly its own subtopics to those seen. |
| PostLoader.NoSubtopics | src/utils/PostLoader.js:69-73 | No subtopic is found iff every post's subtopic list is empty. |
| PostLoader.AddAll | src/utils/PostLoader.js:70 | Adding one post's subtopics to the set leaves no repeats. The set holds exactly the old members and the new subtopics. |
| PostLoader.GetSubtopicsByTopic | src/utils/PostLoader.js:65-74 | Strictly ascending (code-point order; see Text.SortStrings). A string is listed iff it is a subtopic of some post of the topic. The result is empty iff all those posts have empty subtopic lists. |
| PostLoader.SortedSubtopics | src/utils/PostLoader.js:67-73 | The two `forEach` loops fill the set and the result is sorted: strictly ascending (code-point order; see Text.SortStrings), and a string is listed iff some post of the list has it as a subtopic. |
| PostLoader.GetPost | src/utils/PostLoader.js:77-84 | A found post is loaded and matches the topic (ignoring case) and the slug. The result is `undefined` (`None`) iff no loaded post matches. The post found is the first match in load order. |
| PostLoader.PostUrlResolves | src/components/PostCard.jsx:4 | The URL built from a loaded post, `/<topic lower-cased>/<slug>`, finds a post. With unique file names it finds that very post. |
| PostLoader.MatchesQuery | src/utils/PostLoader.js:92-95 | The search test: the lower-cased query occurs in the lower-cased title, preview or topic. |
| PostLoader.MatchingPosts | src/utils/PostLoader.js:89-96 | A post is kept iff its lower-cased title, preview or topic includes the lower-cased query. Every copy of a kept post stays, in order. |
| PostLoader.SearchPosts | src/utils/PostLoader.js:87-97 | `searchPosts`: the loaded posts matching the query, each with its multiplicity, as a subsequence of the loaded list. |
| PostLoader.SearchEmptyQuery | src/utils/PostLoader.js:89-96 | The empty query returns every loaded post. |
| PostLoader.SearchIgnoresCase | src/utils/PostLoader.js:89-96 | Queries equal up to case find the same posts. |
| Seqs.Filter | src/utils/PostLoader.js:59-61 | `filter` keeps exactly the elements passing the test and is never longer than its input. |
| Seqs.FilterCounts | src/utils/subscribers.js:49 | `filter` keeps every occurrence of a passing value and none of a failing one. |
| Seqs.FilterSubsequence | src/utils/PostLoader.js:91-96 | `filter` keeps the order of what it keeps. |
| Seqs.FilterAppend | src/utils/PostLoader.js:40 | Filtering a concatenation filters each part. The sort's stability proof relies on this. |
| Seqs.FilterBehindHead | src/utils/PostLoader.js:40 | Two posts that cannot both pass may swap without changing what the filter keeps. |
| Seqs.FilterCongruent | src/utils/PostLoader.js:59-61 | Tests that agree on the elements select the same elements. |
| Seqs.FilterKeepsAll | src/components/PostList.jsx:14-16 | A test every element passes keeps the whole sequence. |
| Seqs.FilterKeepsLength | src/utils/subscribers.js:49-51 | The length stays the same iff every element passes. |
| Seqs.Find | src/utils/PostLoader.js:79-83 | `find` gives `None` iff no element passes. Otherwise it gives the first element that passes. |
| Seqs.FindIsFirstOfFilter | src/utils/PostLoader.js:79-83 | `find` is the head of `filter`. |
| Seqs.Distinct | src/utils/PostLoader.js:52 | `[...new Set(xs)]` has no repeats and the same members as `xs`. |
| Seqs.PermutationKeepsNoDuplicates | src/utils/PostLoader.js:52-53 | Sorting a list without repeats cannot create one. |
| Seqs.FilterKeepsNoDuplicates | src/utils/subscribers.js:49 | Filtering a list without repeats cannot create one. |
| Text.LowerChar | src/utils/PostLoader.js:60 | The result is never an upper-case ASCII letter. An upper-case letter moves by `'a' - 'A'`, and every other character is unchanged. |
| Text.Lower | src/utils/PostLoader.js:60 | Same length, lowered character by character. |
| Text.LowerIdempotent | src/components/PostCard.jsx:4 | Lower-casing twice is lower-casing once. |
| Text.IncludesIsSubstring | src/utils/PostLoader.js:93-95 | `includes` holds iff the query equals a slice of the string. |
| Text.IncludesEmpty | src/utils/PostLoader.js:93 | Every string includes `""`. |
| Text.Utf16Length | src/components/SearchBar.jsx:14 | `length` in UTF-16 code units: between the number of characters and twice it, and zero only for `""`. |
| Text.Utf16LengthIsLength | src/components/SearchButton.jsx:78 | The code-unit length equals the character count iff no character lies outside the Basic Multilingual Plane. |
| Text.TrimStart | src/components/SearchBar.jsx:14 | Removes a leading run of white space only. What is left does not start with white space. |
| Text.TrimEnd | src/components/SearchBar.jsx:14 | Removes a trailing run of white space only. What is left does not end with white space. |
| Text.Trim | src/components/SearchBar.jsx:14 | Never longer than the input. A non-empty result neither starts nor ends with white space. |
| Text.TrimIsSlice | src/components/SearchBar.jsx:14 | `trim` keeps one slice of the input and removes only white space around it. |
| Text.TrimBlank | src/components/SearchButton.jsx:14 | A string of white space only trims to `""`. |
| Text.StrLeTotal | src/utils/PostLoader.js:53 | The default sort order relates any two strings. |
| Text.StrLeAntisymmetric | src/utils/PostLoader.js:53 | Two strings that are each at most the other are equal. |
| Text.StrLeTransitive | src/utils/PostLoader.js:53 | The default sort order is transitive. |
| Text.InsertString | src/utils/PostLoader.js:53 | One insertion step: keeps the list ascending and adds exactly one element. |
| Text.LeastFirst | src/utils/PostLoader.js:53 | A string no greater than the head of an ascending list can go in front. |
| Text.SortStrings | src/utils/PostLoader.js:53 | `sort()`: the result is ascending and a permutation of the input. |
| Text.SortDistinct | src/utils/PostLoader.js:73 | Sorting values without repeats gives a strictly ascending list of the same values. |
| Subscribers.IndexOf | src/utils/subscribers.js:61 | The first `@`: `None` iff there is none. Otherwise the position holds `@` and nothing before it does. |
| Subscribers.IsValidEmail | src/utils/subscribers.js:60-63 | A valid address has at least five characters, contains `@` and contains no white space anywhere. |
| Subscribers.IsValidEmailMatchesPattern | src/utils/subscribers.js:60-63 | The character scan accepts exactly the strings matching `^[^\s@]+@[^\s@]+\.[^\s@]+$`, with the regular expression stated as a split into three runs. |
| Subscribers.Without | src/utils/subscribers.js:49 | Exactly the addresses other than `email` remain, each with its multiplicity, in order; every copy of `email` goes. |
| Subscribers.WithoutKeepsLengthIffAbsent | src/utils/subscribers.js:49-53 | The "nothing removed" test succeeds iff the address is not stored. |
| Subscribers.WithoutAbsent | src/utils/subscribers.js:49-53 | Removing an absent address leaves the list unchanged. |
| Subscribers.AddThenRemoveRestores | src/utils/subscribers.js:27-57 | Adding a new address and then removing it restores the list. |
| Subscribers.AppendAbsentKeepsNoDuplicates | src/utils/subscribers.js:33-38 | Appending an absent address keeps the list free of repeats. |
| Subscribers.WithoutKeepsNoDuplicates | src/utils/subscribers.js:49-55 | Removal keeps the list free of repeats. |
| Subscribers.SubscriberStore.constructor | src/utils/subscribers.js:4 | The store starts on the given file state. |
| Subscribers.SubscriberStore.GetSubscribers | src/utils/subscribers.js:7-24 | Returns the stored list, or `[]` for a missing file. Afterwards the file exists and holds that list. |
| Subscribers.SubscriberStore.AddSubscriber | src/utils/subscribers.js:27-42 | Succeeds iff the address is absent, appending it and answering "Subscribed successfully". Otherwise the list is unchanged and the answer is "Already subscribed". Keeps the list free of repeats. |
| Subscribers.SubscriberStore.RemoveSubscriber | src/utils/subscribers.js:45-57 | Succeeds iff the address is stored. On success it writes the list without it and answers "Unsubscribed successfully". Otherwise the list is unchanged and the answer is "Email not found". Keeps the list free of repeats. |
| SearchBar.FirstResults | src/components/SearchBar.jsx:28 | `slice(0, 5)`: a prefix of at most five posts, and the whole input when it has fewer. |
| SearchBar.ResultsFor | src/components/SearchBar.jsx:14-28 | At most five posts, each of them one of the posts searched and matching the query. |
| SearchBar.ResultsForSpec | src/components/SearchBar.jsx:11-30 | A query whose trimmed form is shorter than two UTF-16 code units lists nothing. Otherwise the list is a prefix of at most five matching posts, all of them when there are fewer. It is empty iff no post matches. |
| SearchBar.AstralQueryIsSearched | src/components/SearchBar.jsx:14 | A query of one character outside the Basic Multilingual Plane, two code units long, is searched for. |
| SearchBar.ResultsArePrefixOfSearch | src/components/SearchBar.jsx:20-28 | For the loaded posts and any query, the box shows a prefix of what `searchPosts` returns for the same query. |
| SearchBar.SearchBarState.constructor | src/components/SearchBar.jsx:7-9 | Initial state: empty query, no results, closed, and the invariant holds. |
| SearchBar.SearchBarState.HandleSearch | src/components/SearchBar.jsx:11-30 | Stores the query. A query trimming to fewer than two UTF-16 code units clears the results and closes the dropdown. Otherwise it stores the first five matches and opens iff something matched. Establishes the invariant: the results belong to the query and the dropdown is open only over results. |
| SearchBar.SearchBarState.HandleClear | src/components/SearchBar.jsx:32-36 | Empties query and results and closes the dropdown. Establishes the invariant. |
| SearchBar.SearchBarState.CloseDropdown | src/components/SearchBar.jsx:66 | The backdrop closes the dropdown and keeps query and results. Preserves the invariant. |
| SearchButton.FoundFor | src/components/SearchButton.jsx:14-25 | A post is found iff the trimmed term has two UTF-16 code units or more and the post matches the term. |
| SearchButton.ShowsNoPostsFound | src/components/SearchButton.jsx:37-78 | The message is drawn only inside the open panel, for an untrimmed term of two code units or more, with no results. |
| SearchButton.NoPostsFoundIff | src/components/SearchButton.jsx:78-82 | After typing, "No posts found" shows iff the panel is open, the untrimmed term has at least two code units, and either the term trims below two or no post matches. |
| SearchButton.BlankTermShowsNoPostsFound | src/components/SearchButton.jsx:14 | In the open panel, two or more white-space characters show "No posts found". |
| SearchButton.BoxShowsPrefixOfPanel | src/components/SearchButton.jsx:11-26 | For the same input, the search box shows a prefix of the panel's results. |
| SearchButton.SearchButtonState.constructor | src/components/SearchButton.jsx:7-9 | Initial state: closed, empty term, no results. |
| SearchButton.SearchButtonState.Toggle | src/components/SearchButton.jsx:31 | Flips the panel and changes nothing else. |
| SearchButton.SearchButtonState.Close | src/components/SearchButton.jsx:41 | The backdrop shuts the panel and changes nothing else, so "No posts found" is no longer shown. |
| SearchButton.SearchButtonState.HandleSearch | src/components/SearchButton.jsx:11-26 | Stores the term. Gives no results for a term trimming to fewer than two UTF-16 code units, and otherwise every matching post, uncapped. The panel stays as it was. |
| SearchButton.SearchButtonState.SelectResult | src/components/SearchButton.jsx:62-65 | Following a result shuts the panel and empties the term while the results stay, so "No posts found" is not shown. |
| PostList.FilterBySubtopic | src/components/PostList.jsx:10-19 | `'all'` shows every post. Any other value shows exactly the posts listing that subtopic, each with its multiplicity, in order. |
| PostList.ShowsTopicEmpty | src/components/PostList.jsx:21-27 | "No posts found in this topic." is drawn exactly when the component gets no posts. |
| PostList.ShowsNoMatch | src/components/PostList.jsx:39-43 | "No posts match this filter." is drawn when there are posts and the filtered list is empty. |
| PostList.NoMatchIff | src/components/PostList.jsx:39-43 | "No posts match this filter." shows iff there are posts, the choice is not `'all'`, and no post lists it. |
| PostList.PostListState.constructor | src/components/PostList.jsx:8 | The grid starts with every post. |
| PostList.PostListState.HandleFilter | src/components/PostList.jsx:10-19 | The new list depends on the argument alone, because it is always computed from the original posts. |
| Topics.GetTopicConfigAsWritten | src/config/topics.js:31-33 | Own keys give their entry. The twelve names inherited from `Object.prototype` give the inherited member. Every other name gives the default entry. |
| Topics.AsWrittenConstructorIsNotAStyle | src/config/topics.js:31-33 | The topic name `constructor` gets something that is not a style entry. |
| Topics.GetTopicConfig | src/config/topics.js:2-33 | Always one of the table's styles: the topic's own entry, else the default entry. |
| Topics.AsWrittenAgreesOutsideInherited | src/config/topics.js:31-33 | Outside the inherited names, the code as written and the corrected lookup agree. |
| Topics.NamedTopicsHaveOwnStyles | src/config/topics.js:2-28 | The five named topics have five distinct styles, none of them the fallback. |
| Topics.LookupIsCaseSensitive | src/config/topics.js:31-33 | `immunology` falls back to the default while `Immunology` does not. |

## Left out

- Reading the disk, parsing JSON and running the front-matter parser are outside the model. Their outcome is an input: entries with parsed data, or `None` for a failure.
- The subscriber file is assumed to hold a JSON list of strings. A file that `JSON.parse` rejects, which throws in the source, is not modelled.
- `console.error` logging, `async`/`await` and any interleaving of concurrent requests are left out. Interleaved requests could lose an update of the subscriber file.
- The routes, scripts, pages and all rendering are left out. The displayed messages are modelled as predicates on the state (`ShowsNoPostsFound`, which includes the panel being open, `ShowsNoMatch`, `ShowsTopicEmpty`).
- PostLoader.InsertByDate: dates are abstract keys (`Option<int>`). A post without a valid date, including one without a `date:` field (default `''`), sorts as oldest. In the source `new Date('')` is `NaN`, and the comparator then returns `NaN`, which the sort treats as "equal". The comparator is then inconsistent, so once any post lacks a valid date the order of the whole list is engine-defined, dated posts included. Date-string parsing itself is not modelled.
- PostLoader.SortByDate: uses the same total order. It agrees with the source only when every post has a valid date.
- PostLoader.GetAllPosts: "newest first" holds under the total order above. The source promises it only when every loaded post has a valid date; otherwise its order is engine-defined. The posts directory is created when it is missing, and a new directory lists as empty; this is modelled only through its result, `[]`.
- PostLoader.GetAllPostsStable: the same limit. With a post lacking a valid date the source guarantees no order, even among posts of equal date.
- PostLoader.BuildPost: front-matter fields are typed. A non-string title or a non-list `subtopics` value, which YAML allows, is not modelled.
- Text.Lower: covers the ASCII letters only. `toLowerCase` also maps other Unicode letters, and some of them to several characters.
- Text.SortStrings: the string order compares characters as code points. JavaScript compares UTF-16 code units, which orders characters outside the Basic Multilingual Plane differently.

## Findings

| source | as written | input that shows it | evidently intended | confidence | as-written member | corrected member |
|---|---|---|---|---|---|---|
| src/config/topics.js:31-33 | `topicConfig[topicName] \|\| topicConfig['default']` also finds the properties every object inherits from `Object.prototype`, which are truthy | the call `getTopicConfig('constructor')` (likewise `'toString'`, `'__proto__'`, …) returns the `Object` function instead of a style, so its `icon` and `color` are `undefined`; no caller in the repository passes such a name today, so the defect is latent | every name that is not one of the table's own keys gets the default style | not executed | Topics.GetTopicConfigAsWritten, Topics.AsWrittenConstructorIsNotAStyle | Topics.GetTopicConfig |
