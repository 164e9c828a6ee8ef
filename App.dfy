/** The dashboard's state and its handlers. Each handler is one synchronous
    transition that replaces the posts, the tabs or the active tab id, as the
    component's state setters do. */
module App {
  import opened Types
  import opened FeedQuery
  import opened PostUpdates
  import opened TabUpdates

  class FeedApp {
    var posts: seq<Post>
    var tabs: seq<Tab>
    var activeTabId: string

    /** There is at least one tab, tab ids are unique and the active id names
        one of the tabs. */
    ghost predicate Valid()
      reads this
    {
      |tabs| >= 1 && UniqueIds(tabs) && HasId(tabs, activeTabId)
    }

    /** Starts on the first of the initial tabs. */
    constructor (initialPosts: seq<Post>, initialTabs: seq<Tab>)
      requires |initialTabs| >= 1
      ensures posts == initialPosts && tabs == initialTabs && activeTabId == initialTabs[0].id
      ensures UniqueIds(initialTabs) ==> Valid()
    {
      posts := initialPosts;
      tabs := initialTabs;
      activeTabId := initialTabs[0].id;
    }

    /** The first tab whose id is the active id; in a valid state it exists. */
    function ActiveTab(): (r: Option<Tab>)
      reads this
      ensures r.Some? ==> r.value in tabs && r.value.id == activeTabId
      ensures Valid() ==> r.Some?
    {
      FindTabHasId(tabs, activeTabId);
      FindTab(tabs, activeTabId)
    }

    /** The feed for the current state, a search string and a selector:
        only posts of the state that pass every stage for the active tab. */
    function Feed(query: string, filter: FeedFilter): (r: seq<Post>)
      reads this
      ensures forall x :: x in r ==> x in posts && Keep(ActiveTab(), query, filter, x)
    {
      QueryKeepsOnlyPassing(posts, ActiveTab(), query, filter);
      Query(posts, ActiveTab(), query, filter)
    }

    method HandleLike(id: string)
      modifies this`posts
      ensures posts == ToggleWhere(old(posts), id, Like)
      ensures old(Valid()) ==> Valid()
      ensures forall query, filter :: filter != Popular ==>
                Feed(query, filter) == ToggleWhere(old(Feed(query, filter)), id, Like)
    {
      posts := ToggleWhere(posts, id, Like);
      forall query, filter | filter != Popular
        ensures Feed(query, filter) == ToggleWhere(old(Feed(query, filter)), id, Like)
      {
        QueryAfterToggle(old(posts), id, Like, ActiveTab(), query, filter);
      }
    }

    method HandleBookmark(id: string)
      modifies this`posts
      ensures posts == ToggleWhere(old(posts), id, Bookmark)
      ensures old(Valid()) ==> Valid()
      ensures forall query, filter ::
                Feed(query, filter) == ToggleWhere(old(Feed(query, filter)), id, Bookmark)
    {
      posts := ToggleWhere(posts, id, Bookmark);
      forall query, filter
        ensures Feed(query, filter) == ToggleWhere(old(Feed(query, filter)), id, Bookmark)
      {
        QueryAfterToggle(old(posts), id, Bookmark, ActiveTab(), query, filter);
      }
    }

    /** Appends a `New Stream` tab with the given id and activates it. The id
        must be new for the state to stay valid. */
    method AddTab(newId: string)
      modifies this`tabs, this`activeTabId
      ensures tabs == old(tabs) + [NewTab(newId)]
      ensures activeTabId == newId
      ensures old(Valid()) && !HasId(old(tabs), newId) ==> Valid() && ActiveTab() == Some(NewTab(newId))
    {
      tabs := tabs + [NewTab(newId)];
      activeTabId := newId;
      if old(Valid()) && !HasId(old(tabs), newId) {
        AppendFresh(old(tabs), NewTab(newId));
        assert tabs[|tabs| - 1] == NewTab(newId);
      }
    }

    /** Refuses to delete the last tab; otherwise drops the tabs with the id
        and, if the active tab was among them, activates the first remaining
        tab. When every tab carried the active id nothing remains, and reading
        the first remaining tab throws after the new (empty) tab list has been
        set: `crashed` reports that, and the active id is then left as it was.
        A valid state never crashes. */
    method DeleteTab(id: string) returns (crashed: bool)
      modifies this`tabs, this`activeTabId
      ensures |old(tabs)| <= 1 ==> tabs == old(tabs) && activeTabId == old(activeTabId)
      ensures |old(tabs)| > 1 ==> tabs == RemoveId(old(tabs), id)
      ensures crashed <==> |old(tabs)| > 1 && old(activeTabId) == id && tabs == []
      ensures |old(tabs)| > 1 && old(activeTabId) == id && !crashed ==> |tabs| >= 1 && activeTabId == tabs[0].id
      ensures |old(tabs)| > 1 && old(activeTabId) == id && !crashed ==>
                exists k :: && 0 <= k < |old(tabs)| && old(tabs)[k].id == activeTabId != id
                            && forall j :: 0 <= j < k ==> old(tabs)[j].id == id
      ensures old(activeTabId) != id || crashed ==> activeTabId == old(activeTabId)
      ensures old(Valid()) ==> !crashed && Valid()
    {
      if |tabs| <= 1 {
        return false;
      }
      ghost var wasValid := Valid();
      ghost var oldTabs, oldActive := tabs, activeTabId;
      if wasValid {
        RemoveLeavesATab(oldTabs, id);
        RemoveKeepsUnique(oldTabs, id);
      }
      var newTabs := RemoveId(tabs, id);
      tabs := newTabs;
      if activeTabId == id {
        if newTabs == [] {
          return true;
        }
        activeTabId := newTabs[0].id;
        RemoveIdFirst(oldTabs, id);
      }
      crashed := false;
      if wasValid && oldActive != id {
        var k :| 0 <= k < |oldTabs| && oldTabs[k].id == activeTabId;
        RemoveCounts(oldTabs, id);
        assert oldTabs[k] in multiset(oldTabs);
        assert oldTabs[k] in multiset(tabs);
      }
    }

    /** Merges the patch into the tabs with the id. A patch that keeps ids
        keeps the state valid. */
    method UpdateTab(id: string, patch: TabPatch)
      modifies this`tabs
      ensures tabs == UpdateWhere(old(tabs), id, patch)
      ensures old(Valid()) && (patch.id.None? || patch.id == Some(id)) ==> Valid()
    {
      tabs := UpdateWhere(tabs, id, patch);
      if patch.id.None? || patch.id == Some(id) {
        UpdateKeepsIds(old(tabs), id, patch);
      }
    }

    /** Makes the tab with the id active, as selecting it in the sidebar does. */
    method SelectTab(id: string)
      modifies this`activeTabId
      ensures activeTabId == id
      ensures old(Valid()) && HasId(tabs, id) ==> Valid()
    {
      activeTabId := id;
    }
  }
}
