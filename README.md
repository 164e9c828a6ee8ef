# Curated feed: the feed query and the dashboard handlers, in Dafny

This project models the logic of the curated-feed dashboard (`App.tsx`). The
dashboard gathers mock posts from X, RSS and YouTube into named tabs, also
called streams. Its core has two parts:

- **The feed query** (`filteredPosts`) is a pure function of the posts, the
  active tab, the search box and the feed selector. A post is kept when it
  passes three stages:
  1. the tab rule, which is keyed on the tab's *name*: `Crypto` keeps posts
     by `VitalikButerin` or from RSS, `Work` keeps posts by `techcrunch`;
  2. the source filter (`X`, `RSS`, `YouTube`);
  3. the search, which is lower-cased and supports `from:` and `source:`
     operators, or else a free-text match on content, author name and handle.

  The kept posts are then sorted stably, newest first for `recent` or most
  liked first for `popular`. Any other mode leaves them in their original
  order.
- **The handlers** replace the component state: the posts, the tabs and the
  active tab id. They are like, bookmark, add tab, delete tab, update tab and
  select tab.

Modules:

- `Types`: posts, tabs, the feed selector and tab patches.
- `Text`: ASCII lower-casing, trimming, prefix and substring tests, and
  first-occurrence replacement.
- `StableSort`: a stable descending insertion sort. It comes with a proof that
  a stable descending sort has exactly one possible output, so it agrees with
  the built-in stable `Array.prototype.sort`.
- `FeedQuery`: the three stages, the query and its properties.
- `PostUpdates`: the like and bookmark toggles, and how they commute with the
  query.
- `TabUpdates`: the tab lookup, and appending, removing and patching tabs.
- `App`: the class `FeedApp`, whose fields are the component state and whose
  methods are the handlers.
- `Summary`: the prompt built from the feed, and the banner text chosen from
  the generator's reply.

Dates are integer millisecond timestamps. The optional `isLiked` and
`isBookmarked` flags are booleans whose absence reads as `false`. Inputs are
sequences, which are values, so the query cannot change the posts it is given.

The model follows the code in these details, which are easy to get wrong:

- The tab rule looks only at the tab's name (`Crypto` and `Work`). A tab's
  `sources` and `rssUrls` do not affect the feed.
- There is no tag filter and no `#` operator; `tags` is never read.
- The query is tested for emptiness before any trimming, so a query of only
  spaces is a free-text search for those spaces.
- The feed does not deduplicate: a post that occurs twice in the input and
  passes every stage occurs twice in the result.
- Tab ids are not unique by construction (random ids, and patches may set an
  id). When every tab carries the active id, deleting it leaves no tab and
  reading the first remaining tab throws; `App.FeedApp.DeleteTab` reports that
  as `crashed`.

## Model

| member | source | states |
|---|---|---|
| `FeedQuery.TabAllows` | App.tsx:31-36 | the tab rule; its effect on the feed is stated by `CryptoTab`, `WorkTab` and `OtherTabUnrestricted` |
| `FeedQuery.SourceAllows` | App.tsx:39-41 | the source filter: a post passes iff the selector requires no source or the post has the required one; stated on the feed by `SourceFilterRestricts` and `OrderingModesKeepAllSources` |
| `FeedQuery.ParseSearch` | App.tsx:44-54 | the lower-cased query selects "everything" exactly when the query is empty; the operator cases are stated by `FromOperator`, `SourceOperator` and `FreeTextSearch` |
| `FeedQuery.Matches` | App.tsx:47-58 | the per-post search test of each search kind; stated by `FromOperator`, `SourceOperator`, `EmptyOperandKeepsAll` and `FreeTextSearch` |
| `FeedQuery.Query` | App.tsx:28-69 | the feed: filter, then sort for `recent` or `popular`; its contracts are `QueryCounts`, `QueryKeepsOnlyPassing`, `QueryUnsorted`, `QueryRecent` and `QueryPopular` |
| `FeedQuery.FilterIsOrderedSelection` | App.tsx:29-59 | `posts.filter(keep)` is the posts at strictly increasing positions of the input, and a position is selected iff its post satisfies `keep` (for the feed, passes every stage) |
| `FeedQuery.FilterCounts` | App.tsx:29-59 | each post occurs in `posts.filter(keep)` as often as in the input if it satisfies `keep`, and otherwise not at all |
| `FeedQuery.FilterAgrees` | App.tsx:29 | filtering by two predicates that agree on every post gives the same list |
| `FeedQuery.QueryCounts` | App.tsx:28-69 | in every mode the feed holds exactly the posts passing every stage, with their input multiplicity (sorting only permutes) |
| `FeedQuery.QueryKeepsOnlyPassing` | App.tsx:29-59 | every post in the feed comes from the input and passes the tab rule, the source filter and the search |
| `FeedQuery.QueryUnsorted` | App.tsx:61-68 | outside `recent` and `popular` the feed is the kept posts in their original order |
| `FeedQuery.QueryRecent` | App.tsx:62-63 | under `recent` the feed is a permutation of the kept posts with non-increasing date, and posts of equal date keep their relative order |
| `FeedQuery.QueryPopular` | App.tsx:64-65 | under `popular` the feed is a permutation of the kept posts with non-increasing likes, and posts of equal likes keep their relative order |
| `FeedQuery.CryptoTab` | App.tsx:31-33 | on a tab named `Crypto` every post shown is by `VitalikButerin` or from RSS |
| `FeedQuery.WorkTab` | App.tsx:34-36 | on a tab named `Work` every post shown is by `techcrunch` |
| `FeedQuery.OtherTabUnrestricted` | App.tsx:31-36 | any other tab name gives the same feed as no active tab |
| `FeedQuery.SourceFilterRestricts` | App.tsx:39-41 | selecting `X`, `RSS` or `YouTube` shows only posts with exactly that source |
| `FeedQuery.OrderingModesKeepAllSources` | App.tsx:39-41 | under `all`, `recent` and `popular` every post passing the tab rule and the search is shown, whatever its source |
| `FeedQuery.EmptyQueryKeepsAll` | App.tsx:44-45 | the empty query parses to "everything" and keeps every post |
| `FeedQuery.WhitespaceQueryIsFreeText` | App.tsx:44-45 | a non-empty all-whitespace query is not treated as empty: it is a free-text search for itself |
| `FeedQuery.FromOperator` | App.tsx:47-50 | with a `from:` prefix a post is kept iff its lower-cased handle contains the trimmed text after the prefix |
| `FeedQuery.SourceOperator` | App.tsx:51-54 | without `from:`, a `source:` prefix keeps a post iff its lower-cased source contains the trimmed operand |
| `FeedQuery.EmptyOperandKeepsAll` | App.tsx:47-54 | an operator with an empty trimmed operand keeps every post |
| `FeedQuery.FreeTextSearch` | App.tsx:56-58 | with no prefix a post is kept iff the whole lower-cased query occurs in its lower-cased content, author name or handle |
| `FeedQuery.SearchIgnoresQueryCase` | App.tsx:44 | lower-casing the query first does not change which posts the search keeps |
| `StableSort.SortDesc` | App.tsx:61-66 | the sorted list has non-increasing keys and is a permutation of the input |
| `StableSort.SortDescStable` | App.tsx:61-66 | the sort is stable: for every key, the posts with that key keep their input order |
| `StableSort.InsertSpec` | App.tsx:61-66 | inserting into a sorted list keeps it sorted, adds exactly the new post, and places it ahead of the posts with its key |
| `StableSort.StableSortIsUnique` | App.tsx:61-66 | two descending lists with the same posts of every key, in the same order, are equal |
| `StableSort.SortDescIsTheStableSort` | App.tsx:63 | any stable descending rearrangement, such as the one the built-in stable sort produces, equals `SortDesc` |
| `StableSort.SortDescOfSorted` | App.tsx:61-66 | sorting an already sorted list changes nothing |
| `Text.Lower` | App.tsx:44 | `toLowerCase` keeps the length and lower-cases each character in place |
| `Text.Contains` | App.tsx:49 | `includes`; `ContainsIffOccurs` states that it holds iff the needle occurs at some offset |
| `Text.ReplaceFirst` | App.tsx:48 | `replace` with a string pattern; `ReplaceLeadingPattern` states its effect when the string starts with the pattern |
| `Text.LowerIdempotent` | App.tsx:44 | lower-casing a lower-cased string changes nothing |
| `Text.TrimStart` | App.tsx:48 | removes exactly the leading whitespace: the result is a suffix that does not start with whitespace |
| `Text.TrimEnd` | App.tsx:48 | removes exactly the trailing whitespace: the result is a prefix that does not end with whitespace |
| `Text.Trim` | App.tsx:48 | the result is a slice with only whitespace outside it and no whitespace at either end |
| `Text.ContainsIffOccurs` | App.tsx:49 | the substring test holds iff the needle occurs at some offset |
| `Text.ContainsEmpty` | App.tsx:49 | every string contains the empty string |
| `Text.ReplaceLeadingPattern` | App.tsx:48 | replacing the first occurrence of a prefix the string starts with drops that prefix |
| `PostUpdates.Toggled` | App.tsx:78 | a toggle keeps the id and always changes the post; `ToggledEffect` states exactly which fields change |
| `PostUpdates.ToggleWhere` | App.tsx:76-86 | toggles exactly the posts with the id, leaving length, order and all other posts unchanged |
| `PostUpdates.ToggledEffect` | App.tsx:76-86 | a like flips `isLiked` and moves `likes` by -1 if it was liked and +1 if not, and changes no other field; a bookmark flips `isBookmarked` and changes no other field; toggling twice restores the post |
| `PostUpdates.ToggleTwiceRestores` | App.tsx:76-86 | liking twice, or bookmarking twice, restores the post list |
| `PostUpdates.ToggledKeep` | App.tsx:29-59 | no feed stage reads likes or the flags |
| `PostUpdates.FilterAfterToggle` | App.tsx:76-86 | for any filter that does not look at what a toggle changes, toggling then filtering equals filtering then toggling |
| `PostUpdates.SortAfterToggle` | App.tsx:61-66 | sorting commutes with a toggle that leaves the sort key alone |
| `PostUpdates.QueryAfterToggle` | App.tsx:76-86 | a bookmark never changes which posts are shown or their order, and a like does not either unless the feed is sorted by likes |
| `PostUpdates.LikeCanReorderPopularFeed` | App.tsx:64-65 | under `popular`, liking the second of two equally liked posts moves it to the front |
| `TabUpdates.NewTab` | App.tsx:91 | the tab `addTab` appends; `App.FeedApp.AddTab` states that it is appended and activated |
| `TabUpdates.Patched` | App.tsx:104 | `{ ...t, ...updates }`; `UpdateWhere`, `UpdateKeepsIds` and `UpdateTwice` state its effect on the tab list |
| `TabUpdates.UpdateWhere` | App.tsx:103-105 | merges the patch into exactly the tabs with the id, keeping length, order and the other tabs |
| `TabUpdates.RemoveId` | App.tsx:98 | no tab with the id remains; `RemoveCounts`, `RemoveAppend` and `RemoveIdFirst` state which tabs survive and in what order |
| `TabUpdates.RemoveAppend` | App.tsx:98 | removal distributes over concatenation, so survivors keep their relative order, also when ids repeat |
| `TabUpdates.RemoveIdFirst` | App.tsx:98-100 | the first surviving tab is the first input tab without the id; every tab before it carries the id |
| `TabUpdates.RemoveCounts` | App.tsx:98 | every tab with another id is kept as often as it occurred |
| `TabUpdates.RemoveAbsent` | App.tsx:98 | removing an id no tab has changes nothing |
| `TabUpdates.RemoveUnique` | App.tsx:98 | with unique ids, removing the id of the tab at position k removes exactly that tab, keeping the rest in order |
| `TabUpdates.RemoveKeepsUnique` | App.tsx:96-101 | removal keeps ids unique |
| `TabUpdates.RemoveLeavesATab` | App.tsx:97-100 | with unique ids and at least two tabs, the first tab without the id survives the removal, so the list is not empty |
| `TabUpdates.RemoveSharedIdEmpties` | App.tsx:98-100 | two tabs sharing an id are both removed, leaving no first tab to activate |
| `TabUpdates.AppendFresh` | App.tsx:89-94 | appending a tab with a fresh id keeps ids unique |
| `TabUpdates.UpdateKeepsIds` | App.tsx:103-105 | a patch without a new id keeps every tab's id, so unique ids stay unique and the same ids stay present |
| `TabUpdates.UpdateTwice` | App.tsx:103-105 | applying the same id-keeping update twice equals applying it once |
| `TabUpdates.FindTab` | App.tsx:23-26 | finds a tab iff some tab has the id, and the tab found is the first one with that id |
| `TabUpdates.FindTabHasId` | App.tsx:23-26 | the lookup finds a tab iff some tab has the id |
| `App.FeedApp.constructor` | App.tsx:15-17 | starts with the given posts and tabs, with the first tab active; the state is valid when the tab ids are unique |
| `App.FeedApp.Feed` | App.tsx:28-69 | the current feed holds only posts of the state that pass every stage for the active tab |
| `App.FeedApp.ActiveTab` | App.tsx:23-26 | the active tab is a listed tab with the active id, and in a valid state it exists |
| `App.FeedApp.HandleLike` | App.tsx:76-80 | posts become the like-toggled list; validity is kept; outside `popular` every feed is the like-toggled old feed |
| `App.FeedApp.HandleBookmark` | App.tsx:82-86 | posts become the bookmark-toggled list; validity is kept; every feed is the bookmark-toggled old feed |
| `App.FeedApp.AddTab` | App.tsx:89-94 | appends one `New Stream` tab with no sources, no RSS URLs and notifications off, and activates it; with a fresh id the state stays valid and the new tab is the active tab |
| `App.FeedApp.DeleteTab` | App.tsx:96-101 | with at most one tab nothing changes; otherwise the tabs with the id are removed and, if the active tab was removed, the first remaining tab, which is the first old tab without the id, becomes active; if none remains the handler crashes, leaving the tabs empty and the active id as it was; a valid state never crashes and stays valid |
| `App.FeedApp.UpdateTab` | App.tsx:103-105 | the tabs become the patched list; an id-keeping patch keeps the state valid |
| `App.FeedApp.SelectTab` | App.tsx:149 | the active id becomes the chosen id; choosing a listed tab keeps the state valid |
| `Summary.SummaryPrompt` | App.tsx:108-115 | no request is made exactly when the feed is empty; `PromptQuotesFeed` states the prompt text |
| `Summary.PromptHeader` | App.tsx:115 | the fixed text before the quoted posts, with an absent tab name rendered as `undefined`; `PromptQuotesFeed` states that the prompt starts with it |
| `Summary.QuotedContents` | App.tsx:115 | the contents of the first ten posts (fewer if the feed is shorter), in feed order |
| `Summary.SplitJoin` | App.tsx:115 | for a non-empty list of lines, joining with line feeds and splitting again gives back the lines, when none holds a line feed |
| `Summary.PromptQuotesFeed` | App.tsx:108-115 | for a non-empty feed the prompt is the fixed header followed by exactly the quoted contents, one per line, when none of the quoted contents holds a line feed |
| `Summary.SummaryText` | App.tsx:125-128 | the banner is never blank: a failure shows the failure notice, a non-empty reply text is shown as is, and a missing or empty text shows "Summary unavailable." |

## Left out

- The rendered interface: the component tree, `WalletGate` (a simulated wallet connection on a timer), `SettingsModal` (avatar upload), `PostCard` (presentation, including its floating-point like formatting) and the sidebar's local edit state. The sidebar's `saveName` and `addRss` only call `updateTab` with a `name` or `rssUrls` patch, which `App.FeedApp.UpdateTab` covers.
- The login state (`appState`, `user`, `handleConnect`): it only chooses which screen to render.
- The summary request itself is a network call to a text generator. Only the prompt and the banner text chosen from the reply are modelled; the `isSummarizing` and `tabSummary` state is not.
- The random id of a new tab: `App.FeedApp.AddTab` takes the id as a parameter, and keeps the state valid only if the id is new.
- Memoisation and the scheduling of state updates: each handler is one synchronous transition, and the feed is recomputed from the current state by `App.FeedApp.Feed`.
- The search box and the feed selector are plain setters; `App.FeedApp.Feed` takes their values as parameters.
- `toLowerCase` and `trim` are modelled on ASCII only: letters A to Z, and space, tab, line feed, vertical tab, form feed and carriage return.
- Dates are integer milliseconds. An invalid `Date`, whose time is NaN, is not modelled.
- `likes` is an unbounded integer. JavaScript numbers beyond 2^53 are not modelled.
- A patch that sets a field explicitly to `undefined` is not modelled; a field is either present with a value or absent.
- The fixture data and the type declarations have no behaviour.
- `App.FeedApp.DeleteTab`: when it crashes, the model keeps the empty tab list that was set before the throw and leaves the active id unchanged. It does not model how the framework reports the error or whether it re-renders afterwards.
