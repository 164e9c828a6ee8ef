/** The like and bookmark toggles, applied to every post that carries the
    given id, and how they interact with the feed query. */
module PostUpdates {
  import opened Types
  import opened StableSort
  import opened FeedQuery

  datatype Toggle = Like | Bookmark

  /** A like flips `isLiked` and moves the count by one: down when the post
      was liked, up when it was not. A bookmark flips `isBookmarked` only. */
  function Toggled(action: Toggle, p: Post): (r: Post)
    ensures r.id == p.id && r != p
  {
    match action
    case Like => p.(isLiked := !p.isLiked, likes := if p.isLiked then p.likes - 1 else p.likes + 1)
    case Bookmark => p.(isBookmarked := !p.isBookmarked)
  }

  /** Toggles the posts whose id is `id` and leaves the others as they are,
      keeping length and order. */
  function ToggleWhere(posts: seq<Post>, id: string, action: Toggle): (r: seq<Post>)
    ensures |r| == |posts|
    ensures forall i :: 0 <= i < |posts| ==>
              r[i] == if posts[i].id == id then Toggled(action, posts[i]) else posts[i]
  {
    if posts == [] then []
    else [if posts[0].id == id then Toggled(action, posts[0]) else posts[0]] + ToggleWhere(posts[1..], id, action)
  }

  lemma ToggleWhereAppend(s: seq<Post>, t: seq<Post>, id: string, action: Toggle)
    ensures ToggleWhere(s + t, id, action) == ToggleWhere(s, id, action) + ToggleWhere(t, id, action)
  {
    var l := ToggleWhere(s + t, id, action);
    var r := ToggleWhere(s, id, action) + ToggleWhere(t, id, action);
    assert |l| == |r|;
    forall i | 0 <= i < |l| ensures l[i] == r[i] {
      if i < |s| {
        assert (s + t)[i] == s[i];
      } else {
        assert (s + t)[i] == t[i - |s|];
      }
    }
  }

  /** Toggling a post changes its flag and, for a like, its count, and
      nothing else; toggling twice restores the post. */
  lemma ToggledEffect(action: Toggle, p: Post)
    ensures Toggled(action, p).id == p.id && Toggled(action, Toggled(action, p)) == p
    ensures action == Like ==>
              Toggled(action, p).isLiked == !p.isLiked &&
              Toggled(action, p).likes == p.likes + (if p.isLiked then -1 else 1)
    ensures action == Bookmark ==>
              Toggled(action, p).isBookmarked == !p.isBookmarked && Toggled(action, p).likes == p.likes
    ensures action == Like ==> Toggled(action, p).(isLiked := p.isLiked, likes := p.likes) == p
    ensures action == Bookmark ==> Toggled(action, p).(isBookmarked := p.isBookmarked) == p
  {
  }

  /** Liking twice, or bookmarking twice, restores the list. */
  lemma ToggleTwiceRestores(posts: seq<Post>, id: string, action: Toggle)
    ensures ToggleWhere(ToggleWhere(posts, id, action), id, action) == posts
  {
    var once := ToggleWhere(posts, id, action);
    var twice := ToggleWhere(once, id, action);
    forall i | 0 <= i < |posts| ensures twice[i] == posts[i] {
      ToggledEffect(action, posts[i]);
    }
  }

  /** The feed stages never look at likes or flags. */
  lemma ToggledKeep(action: Toggle, activeTab: Option<Tab>, query: string, filter: FeedFilter, p: Post)
    ensures Keep(activeTab, query, filter, Toggled(action, p)) == Keep(activeTab, query, filter, p)
  {
  }

  lemma FilterSnoc(init: seq<Post>, x: Post, keep: Post -> bool)
    ensures Filter(init + [x], keep) == Filter(init, keep) + (if keep(x) then [x] else [])
  {
    assert (init + [x])[..|init|] == init;
  }

  /** Toggling then filtering is filtering then toggling, for any filter that
      does not look at what the toggle changes. */
  lemma {:induction false} FilterAfterToggle(posts: seq<Post>, id: string, action: Toggle, keep: Post -> bool)
    requires forall p :: keep(Toggled(action, p)) == keep(p)
    ensures Filter(ToggleWhere(posts, id, action), keep) == ToggleWhere(Filter(posts, keep), id, action)
  {
    if posts != [] {
      var n := |posts|;
      var init, last := posts[..n - 1], posts[n - 1];
      var last' := if last.id == id then Toggled(action, last) else last;
      var tail := if keep(last) then [last] else [];
      var tail' := if keep(last') then [last'] else [];
      assert posts == init + [last];
      assert ToggleWhere(tail, id, action) == tail';
      calc {
        Filter(ToggleWhere(posts, id, action), keep);
        { ToggleWhereAppend(init, [last], id, action); }
        Filter(ToggleWhere(init, id, action) + [last'], keep);
        { FilterSnoc(ToggleWhere(init, id, action), last', keep); }
        Filter(ToggleWhere(init, id, action), keep) + tail';
        { FilterAfterToggle(init, id, action, keep); }
        ToggleWhere(Filter(init, keep), id, action) + ToggleWhere(tail, id, action);
        { ToggleWhereAppend(Filter(init, keep), tail, id, action); }
        ToggleWhere(Filter(init, keep) + tail, id, action);
        { FilterSnoc(init, last, keep); }
        ToggleWhere(Filter(posts, keep), id, action);
      }
    }
  }

  /** A toggle that does not move the sort key. */
  predicate KeepsKey(action: Toggle, k: SortKey) {
    action == Bookmark || k == ByDate
  }

  lemma {:induction false} WithKeyAfterToggle(k: SortKey, s: seq<Post>, id: string, action: Toggle, v: int)
    requires KeepsKey(action, k)
    ensures WithKey(k, ToggleWhere(s, id, action), v) == ToggleWhere(WithKey(k, s, v), id, action)
  {
    if s != [] {
      WithKeyAfterToggle(k, s[1..], id, action, v);
      var t := ToggleWhere(s, id, action);
      assert t[1..] == ToggleWhere(s[1..], id, action);
      var head := if Key(k, s[0]) == v then [s[0]] else [];
      ToggleWhereAppend(head, WithKey(k, s[1..], v), id, action);
    }
  }

  /** Sorting commutes with a toggle that leaves the sort key alone. The proof
      goes through `SortDescIsTheStableSort`: toggling the sorted list gives a
      sorted, stable rearrangement of the toggled list. */
  lemma SortAfterToggle(k: SortKey, s: seq<Post>, id: string, action: Toggle)
    requires KeepsKey(action, k)
    ensures SortDesc(k, ToggleWhere(s, id, action)) == ToggleWhere(SortDesc(k, s), id, action)
  {
    var sorted := SortDesc(k, s);
    var r := ToggleWhere(sorted, id, action);
    forall v ensures WithKey(k, r, v) == WithKey(k, ToggleWhere(s, id, action), v) {
      WithKeyAfterToggle(k, sorted, id, action, v);
      WithKeyAfterToggle(k, s, id, action, v);
      SortDescStable(k, s, v);
    }
    assert SortedDesc(k, r);
    SortDescIsTheStableSort(k, ToggleWhere(s, id, action), r);
  }

  /** A bookmark never changes which posts the feed shows or their order, and
      neither does a like unless the feed is sorted by likes. */
  lemma QueryAfterToggle(posts: seq<Post>, id: string, action: Toggle,
                         activeTab: Option<Tab>, query: string, filter: FeedFilter)
    requires action == Bookmark || filter != Popular
    ensures Query(ToggleWhere(posts, id, action), activeTab, query, filter) ==
            ToggleWhere(Query(posts, activeTab, query, filter), id, action)
  {
    forall p ensures Stages(activeTab, query, filter)(Toggled(action, p)) == Stages(activeTab, query, filter)(p) {
      ToggledKeep(action, activeTab, query, filter, p);
    }
    FilterAfterToggle(posts, id, action, Stages(activeTab, query, filter));
    var kept := FilterPosts(posts, activeTab, query, filter);
    if filter == Recent {
      SortAfterToggle(ByDate, kept, id, action);
    } else if filter == Popular {
      SortAfterToggle(ByLikes, kept, id, action);
    }
  }

  lemma UnrestrictedPair(a: Post, b: Post, filter: FeedFilter)
    requires RequiredSource(filter).None?
    ensures FilterPosts([a, b], None, "", filter) == [a, b]
  {
    EmptyQueryKeepsAll(a);
    EmptyQueryKeepsAll(b);
    FilterSnoc([], a, Stages(None, "", filter));
    FilterSnoc([a], b, Stages(None, "", filter));
    assert [] + [a] == [a] && [a] + [b] == [a, b];
  }

  lemma SortSingle(k: SortKey, y: Post)
    ensures SortDesc(k, [y]) == [y]
  {
    assert [y][1..] == [];
  }

  lemma InsertBeforeOrAfter(k: SortKey, x: Post, y: Post)
    ensures Insert(k, x, [y]) == if Key(k, x) >= Key(k, y) then [x, y] else [y, x]
  {
    assert [y][1..] == [];
  }

  lemma SortPair(k: SortKey, x: Post, y: Post)
    ensures SortDesc(k, [x, y]) == if Key(k, x) >= Key(k, y) then [x, y] else [y, x]
  {
    assert [x, y][1..] == [y];
    SortSingle(k, y);
    InsertBeforeOrAfter(k, x, y);
  }

  /** Under `popular` the feed is the kept posts sorted by likes. */
  lemma PopularOfKept(posts: seq<Post>, activeTab: Option<Tab>, query: string, a: Post, b: Post)
    requires FilterPosts(posts, activeTab, query, Popular) == [a, b]
    ensures Query(posts, activeTab, query, Popular) == if a.likes >= b.likes then [a, b] else [b, a]
  {
    SortPair(ByLikes, a, b);
  }

  lemma LikeSecondOfPair(a: Post, b: Post)
    requires a.id != b.id
    ensures ToggleWhere([a, b], b.id, Like) == [a, Toggled(Like, b)]
  {
  }

  /** The exception is real: under `popular`, liking the second of two
      unliked posts with equal counts moves it to the front, although before
      the like the feed kept them in their original order. */
  lemma LikeCanReorderPopularFeed(a: Post, b: Post)
    requires a.id != b.id && a.likes == b.likes && !b.isLiked
    ensures Query([a, b], None, "", Popular) == [a, b]
    ensures Query(ToggleWhere([a, b], b.id, Like), None, "", Popular) == [Toggled(Like, b), a]
  {
    PopularPair(a, b);
    PopularPair(a, Toggled(Like, b));
    LikeSecondOfPair(a, b);
  }

  lemma PopularPair(a: Post, b: Post)
    ensures Query([a, b], None, "", Popular) == if a.likes >= b.likes then [a, b] else [b, a]
  {
    UnrestrictedPair(a, b, Popular);
    PopularOfKept([a, b], None, "", a, b);
  }
}
