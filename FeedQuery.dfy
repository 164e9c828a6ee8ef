/** The feed query: the list of posts the dashboard shows for the active tab,
    the search box and the feed selector. A post is kept when it passes the
    tab rule, the source filter and the search, in that order; the kept posts
    are then sorted newest-first or most-liked-first when the selector asks
    for it, and otherwise keep their original order. */
module FeedQuery {
  import opened Types
  import opened Text
  import opened StableSort

  // Stage 1: the tab rule. It looks at the active tab's name only.

  predicate TabAllows(activeTab: Option<Tab>, p: Post) {
    && (activeTab.Some? && activeTab.value.name == "Crypto" ==>
          p.authorHandle == "VitalikButerin" || p.source == RSS)
    && (activeTab.Some? && activeTab.value.name == "Work" ==>
          p.authorHandle == "techcrunch")
  }

  // Stage 2: the source filter.

  /** The source a selector value restricts the feed to, if it restricts it. */
  function RequiredSource(filter: FeedFilter): Option<Source> {
    match filter
    case OnlyX => Some(X)
    case OnlyRSS => Some(RSS)
    case OnlyYouTube => Some(YouTube)
    case _ => None
  }

  predicate SourceAllows(filter: FeedFilter, p: Post) {
    RequiredSource(filter).None? || p.source == RequiredSource(filter).value
  }

  // Stage 3: the search box.

  /** What a search string asks for once it has been lower-cased. */
  datatype Search =
    | Everything
    | FromHandle(handle: string)
    | FromSource(name: string)
    | FreeText(needle: string)

  /** Lower-cases the query; an empty result searches for nothing, a `from:`
      or `source:` prefix (in that priority) selects an operator whose operand
      is the trimmed text after the prefix, anything else is a free-text
      search for the whole lower-cased query. */
  function ParseSearch(query: string): (r: Search)
    ensures r == Everything <==> query == []
  {
    var q := Lower(query);
    if q == [] then Everything
    else if StartsWith(q, "from:") then FromHandle(Trim(ReplaceFirst(q, "from:", "")))
    else if StartsWith(q, "source:") then FromSource(Trim(ReplaceFirst(q, "source:", "")))
    else FreeText(q)
  }

  predicate Matches(search: Search, p: Post) {
    match search
    case Everything => true
    case FromHandle(h) => Contains(Lower(p.authorHandle), h)
    case FromSource(n) => Contains(Lower(SourceName(p.source)), n)
    case FreeText(q) =>
      Contains(Lower(p.content), q) || Contains(Lower(p.authorName), q) ||
      Contains(Lower(p.authorHandle), q)
  }

  predicate SearchAllows(query: string, p: Post) {
    Matches(ParseSearch(query), p)
  }

  /** A post is kept when it passes all three stages. */
  predicate Keep(activeTab: Option<Tab>, query: string, filter: FeedFilter, p: Post) {
    TabAllows(activeTab, p) && SourceAllows(filter, p) && SearchAllows(query, p)
  }

  /** `posts.filter(keep)`: the posts satisfying `keep`, in their order. */
  function Filter(posts: seq<Post>, keep: Post -> bool): seq<Post> {
    if posts == [] then []
    else
      var last := posts[|posts| - 1];
      Filter(posts[..|posts| - 1], keep) + (if keep(last) then [last] else [])
  }

  /** The positions in `posts` of the posts satisfying `keep`, in increasing
      order. */
  function KeptIndices(posts: seq<Post>, keep: Post -> bool): seq<nat> {
    if posts == [] then []
    else KeptIndices(posts[..|posts| - 1], keep) + (if keep(posts[|posts| - 1]) then [|posts| - 1] else [])
  }

  /** The three stages as one predicate on posts. */
  function Stages(activeTab: Option<Tab>, query: string, filter: FeedFilter): Post -> bool {
    p => Keep(activeTab, query, filter, p)
  }

  /** The kept posts in their original order. */
  function FilterPosts(posts: seq<Post>, activeTab: Option<Tab>, query: string, filter: FeedFilter): seq<Post> {
    Filter(posts, Stages(activeTab, query, filter))
  }

  /** The feed as the dashboard shows it. */
  function Query(posts: seq<Post>, activeTab: Option<Tab>, query: string, filter: FeedFilter): seq<Post> {
    var kept := FilterPosts(posts, activeTab, query, filter);
    if filter == Recent then SortDesc(ByDate, kept)
    else if filter == Popular then SortDesc(ByLikes, kept)
    else kept
  }

  // Properties of the filter.

  /** The i-th kept post is the post at the i-th kept position. */
  lemma {:induction false} KeptIndicesLocate(posts: seq<Post>, keep: Post -> bool)
    ensures var r := Filter(posts, keep);
            var idx := KeptIndices(posts, keep);
            && |idx| == |r|
            && (forall i :: 0 <= i < |idx| ==> idx[i] < |posts| && r[i] == posts[idx[i]])
  {
    if posts != [] {
      var init := posts[..|posts| - 1];
      KeptIndicesLocate(init, keep);
      assert forall n :: 0 <= n < |init| ==> init[n] == posts[n];
    }
  }

  /** The kept positions are strictly increasing. */
  lemma {:induction false} KeptIndicesIncrease(posts: seq<Post>, keep: Post -> bool)
    ensures forall i :: 0 <= i < |KeptIndices(posts, keep)| ==> KeptIndices(posts, keep)[i] < |posts|
    ensures forall i, j :: 0 <= i < j < |KeptIndices(posts, keep)| ==> KeptIndices(posts, keep)[i] < KeptIndices(posts, keep)[j]
  {
    if posts != [] {
      var init := posts[..|posts| - 1];
      KeptIndicesIncrease(init, keep);
    }
  }

  /** A position is kept exactly when its post satisfies `keep`. */
  lemma {:induction false} KeptIndicesExact(posts: seq<Post>, keep: Post -> bool)
    ensures var idx := KeptIndices(posts, keep);
            forall n :: 0 <= n < |posts| ==> (n in idx <==> keep(posts[n]))
  {
    if posts != [] {
      var init := posts[..|posts| - 1];
      KeptIndicesExact(init, keep);
      KeptIndicesIncrease(init, keep);
      assert forall n :: 0 <= n < |init| ==> init[n] == posts[n];
    }
  }

  /** The filter picks out of `posts`, in increasing position, exactly the
      posts that satisfy `keep`: it keeps the original order, fabricates
      nothing and repeats nothing. */
  lemma {:induction false} FilterIsOrderedSelection(posts: seq<Post>, keep: Post -> bool)
    ensures var r := Filter(posts, keep);
            var idx := KeptIndices(posts, keep);
            && |idx| == |r|
            && (forall i :: 0 <= i < |idx| ==> idx[i] < |posts| && r[i] == posts[idx[i]])
            && (forall i, j :: 0 <= i < j < |idx| ==> idx[i] < idx[j])
            && (forall n :: 0 <= n < |posts| ==> (n in idx <==> keep(posts[n])))
  {
    KeptIndicesLocate(posts, keep);
    KeptIndicesIncrease(posts, keep);
    KeptIndicesExact(posts, keep);
  }

  /** Each post occurs in the filtered list as often as in `posts` if it
      satisfies `keep`, and not at all otherwise. */
  lemma {:induction false} FilterCounts(posts: seq<Post>, keep: Post -> bool)
    ensures forall x :: multiset(Filter(posts, keep))[x] == if keep(x) then multiset(posts)[x] else 0
  {
    if posts != [] {
      var init := posts[..|posts| - 1];
      FilterCounts(init, keep);
      assert posts == init + [posts[|posts| - 1]];
    }
  }

  /** Filtering by two predicates that agree on every post gives the same
      list. */
  lemma {:induction false} FilterAgrees(posts: seq<Post>, keep1: Post -> bool, keep2: Post -> bool)
    requires forall p :: keep1(p) == keep2(p)
    ensures Filter(posts, keep1) == Filter(posts, keep2)
  {
    if posts != [] {
      FilterAgrees(posts[..|posts| - 1], keep1, keep2);
    }
  }

  // Properties of the whole query.

  /** In every mode the feed holds exactly the posts that pass every stage,
      each as often as it occurs in `posts`. */
  lemma QueryCounts(posts: seq<Post>, activeTab: Option<Tab>, query: string, filter: FeedFilter)
    ensures forall x :: multiset(Query(posts, activeTab, query, filter))[x] ==
                        if Keep(activeTab, query, filter, x) then multiset(posts)[x] else 0
  {
    FilterCounts(posts, Stages(activeTab, query, filter));
  }

  /** Every post in the feed passes the tab rule, the source filter and the
      search. */
  lemma QueryKeepsOnlyPassing(posts: seq<Post>, activeTab: Option<Tab>, query: string, filter: FeedFilter)
    ensures forall x :: x in Query(posts, activeTab, query, filter) ==>
                        x in posts && Keep(activeTab, query, filter, x)
  {
    QueryCounts(posts, activeTab, query, filter);
    forall x | x in Query(posts, activeTab, query, filter)
      ensures x in posts && Keep(activeTab, query, filter, x)
    {
      assert x in multiset(Query(posts, activeTab, query, filter));
    }
  }

  /** Outside the two sorting modes the feed is the filtered list itself: the
      kept posts at increasing positions of `posts`. */
  lemma QueryUnsorted(posts: seq<Post>, activeTab: Option<Tab>, query: string, filter: FeedFilter)
    requires filter != Recent && filter != Popular
    ensures var r := Query(posts, activeTab, query, filter);
            var idx := KeptIndices(posts, Stages(activeTab, query, filter));
            && |idx| == |r|
            && (forall i :: 0 <= i < |idx| ==> idx[i] < |posts| && r[i] == posts[idx[i]])
            && (forall i, j :: 0 <= i < j < |idx| ==> idx[i] < idx[j])
            && (forall n :: 0 <= n < |posts| ==> (n in idx <==> Keep(activeTab, query, filter, posts[n])))
  {
    FilterIsOrderedSelection(posts, Stages(activeTab, query, filter));
  }

  /** `recent` orders the kept posts newest first; posts with the same date
      keep their filtered order. */
  lemma QueryRecent(posts: seq<Post>, activeTab: Option<Tab>, query: string)
    ensures var r := Query(posts, activeTab, query, Recent);
            var kept := FilterPosts(posts, activeTab, query, Recent);
            && (forall i, j :: 0 <= i < j < |r| ==> r[i].date >= r[j].date)
            && multiset(r) == multiset(kept)
            && (forall v :: WithKey(ByDate, r, v) == WithKey(ByDate, kept, v))
  {
    SortDescStableAll(ByDate, FilterPosts(posts, activeTab, query, Recent));
  }

  /** `popular` orders the kept posts by likes, largest first; posts with the
      same count keep their filtered order. */
  lemma QueryPopular(posts: seq<Post>, activeTab: Option<Tab>, query: string)
    ensures var r := Query(posts, activeTab, query, Popular);
            var kept := FilterPosts(posts, activeTab, query, Popular);
            && (forall i, j :: 0 <= i < j < |r| ==> r[i].likes >= r[j].likes)
            && multiset(r) == multiset(kept)
            && (forall v :: WithKey(ByLikes, r, v) == WithKey(ByLikes, kept, v))
  {
    SortDescStableAll(ByLikes, FilterPosts(posts, activeTab, query, Popular));
  }

  // The tab rule.

  /** On a tab named `Crypto` only posts by `VitalikButerin` or from RSS
      reach the feed. */
  lemma CryptoTab(posts: seq<Post>, tab: Tab, query: string, filter: FeedFilter)
    requires tab.name == "Crypto"
    ensures forall x :: x in Query(posts, Some(tab), query, filter) ==>
                        x.authorHandle == "VitalikButerin" || x.source == RSS
  {
    QueryKeepsOnlyPassing(posts, Some(tab), query, filter);
  }

  /** On a tab named `Work` only posts by `techcrunch` reach the feed. */
  lemma WorkTab(posts: seq<Post>, tab: Tab, query: string, filter: FeedFilter)
    requires tab.name == "Work"
    ensures forall x :: x in Query(posts, Some(tab), query, filter) ==> x.authorHandle == "techcrunch"
  {
    QueryKeepsOnlyPassing(posts, Some(tab), query, filter);
  }

  /** Any other tab name, like having no active tab, restricts nothing. */
  lemma OtherTabUnrestricted(posts: seq<Post>, tab: Option<Tab>, query: string, filter: FeedFilter)
    requires tab.None? || (tab.value.name != "Crypto" && tab.value.name != "Work")
    ensures FilterPosts(posts, tab, query, filter) == FilterPosts(posts, None, query, filter)
    ensures Query(posts, tab, query, filter) == Query(posts, None, query, filter)
  {
    FilterAgrees(posts, Stages(tab, query, filter), Stages(None, query, filter));
  }

  // The source filter.

  /** Selecting `X`, `RSS` or `YouTube` shows only posts of that source. */
  lemma SourceFilterRestricts(posts: seq<Post>, activeTab: Option<Tab>, query: string, filter: FeedFilter)
    requires RequiredSource(filter).Some?
    ensures forall x :: x in Query(posts, activeTab, query, filter) ==> x.source == RequiredSource(filter).value
  {
    QueryKeepsOnlyPassing(posts, activeTab, query, filter);
  }

  /** `all`, `recent` and `popular` do not restrict sources: every post that
      passes the tab rule and the search reaches the feed. */
  lemma {:induction false} OrderingModesKeepAllSources(posts: seq<Post>, activeTab: Option<Tab>, query: string, filter: FeedFilter)
    requires RequiredSource(filter).None?
    ensures forall x :: multiset(Query(posts, activeTab, query, filter))[x] ==
                        if TabAllows(activeTab, x) && SearchAllows(query, x) then multiset(posts)[x] else 0
  {
    QueryCounts(posts, activeTab, query, filter);
  }

  // The search box.

  /** An empty query keeps every post that passed the tab rule and the source
      filter. */
  lemma EmptyQueryKeepsAll(p: Post)
    ensures ParseSearch("") == Everything && SearchAllows("", p)
  {
  }

  lemma {:induction false} LowerOfSpaces(s: string)
    requires forall i :: 0 <= i < |s| ==> IsSpace(s[i])
    ensures Lower(s) == s
  {
    if s != [] {
      LowerOfSpaces(s[1..]);
    }
  }

  lemma ParseFreeText(query: string)
    requires Lower(query) != []
    requires !StartsWith(Lower(query), "from:") && !StartsWith(Lower(query), "source:")
    ensures ParseSearch(query) == FreeText(Lower(query))
  {
  }

  /** A query made only of whitespace is not empty: the search is trimmed
      only after an operator prefix, so it becomes a free-text search for the
      whitespace itself. */
  lemma WhitespaceQueryIsFreeText(query: string)
    requires query != [] && forall i :: 0 <= i < |query| ==> IsSpace(query[i])
    ensures ParseSearch(query) == FreeText(query)
  {
    LowerOfSpaces(query);
    FirstCharMismatch(query, "from:");
    FirstCharMismatch(query, "source:");
    ParseFreeText(query);
  }

  /** With a `from:` prefix a post is kept exactly when its lower-cased handle
      contains the trimmed text after the prefix. */
  lemma FromOperator(query: string, p: Post)
    requires StartsWith(Lower(query), "from:")
    ensures SearchAllows(query, p) <==> Contains(Lower(p.authorHandle), Trim(Lower(query)[5..]))
  {
    ReplaceLeadingPattern(Lower(query), "from:");
  }

  /** Without `from:`, a `source:` prefix keeps a post exactly when its
      lower-cased source name contains the trimmed text after the prefix. */
  lemma SourceOperator(query: string, p: Post)
    requires !StartsWith(Lower(query), "from:") && StartsWith(Lower(query), "source:")
    ensures SearchAllows(query, p) <==> Contains(Lower(SourceName(p.source)), Trim(Lower(query)[7..]))
  {
    ParseSourceOperator(query);
  }

  lemma ParseSourceOperator(query: string)
    requires !StartsWith(Lower(query), "from:") && StartsWith(Lower(query), "source:")
    ensures ParseSearch(query) == FromSource(Trim(Lower(query)[7..]))
  {
    ReplaceLeadingPattern(Lower(query), "source:");
  }

  /** An operator whose operand is empty after trimming keeps every post. */
  lemma EmptyOperandKeepsAll(query: string, p: Post)
    requires ParseSearch(query) == FromHandle([]) || ParseSearch(query) == FromSource([])
    ensures SearchAllows(query, p)
  {
    ContainsEmpty(Lower(p.authorHandle));
    ContainsEmpty(Lower(SourceName(p.source)));
  }

  /** Without an operator prefix a non-empty query keeps a post exactly when
      the whole lower-cased query occurs in its lower-cased content, author
      name or handle. */
  lemma FreeTextSearch(query: string, p: Post)
    requires Lower(query) != []
    requires !StartsWith(Lower(query), "from:") && !StartsWith(Lower(query), "source:")
    ensures SearchAllows(query, p) <==>
              Contains(Lower(p.content), Lower(query)) ||
              Contains(Lower(p.authorName), Lower(query)) ||
              Contains(Lower(p.authorHandle), Lower(query))
  {
    ParseFreeText(query);
  }

  /** The search ignores the case of ASCII letters in the query. */
  lemma SearchIgnoresQueryCase(query: string, p: Post)
    ensures SearchAllows(Lower(query), p) == SearchAllows(query, p)
  {
    LowerIdempotent(query);
  }
}
