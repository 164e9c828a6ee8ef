/** Stable descending sort of posts by an integer key: the behaviour of
    `[...result].sort((a, b) => key(b) - key(a))` with the stable
    `Array.prototype.sort`. It is written as an insertion sort; the lemma
    `StableSortIsUnique` shows that any stable, descending permutation is equal
    to it, so the choice of algorithm does not matter. */
module StableSort {
  import opened Types

  /** The two orderings the feed offers: newest first, most liked first. */
  datatype SortKey = ByDate | ByLikes

  function Key(k: SortKey, p: Post): int {
    match k
    case ByDate => p.date
    case ByLikes => p.likes
  }

  /** Keys never increase from left to right. */
  predicate SortedDesc(k: SortKey, s: seq<Post>) {
    forall i, j :: 0 <= i < j < |s| ==> Key(k, s[i]) >= Key(k, s[j])
  }

  /** The posts of `s` whose key is `v`, in their order in `s`. A sort is
      stable exactly when this sequence is the same before and after it for
      every `v`. */
  function WithKey(k: SortKey, s: seq<Post>, v: int): seq<Post> {
    if s == [] then []
    else (if Key(k, s[0]) == v then [s[0]] else []) + WithKey(k, s[1..], v)
  }

  predicate AllAtMost(k: SortKey, s: seq<Post>, bound: int) {
    forall i :: 0 <= i < |s| ==> Key(k, s[i]) <= bound
  }

  /** Places `x` in front of the first post whose key is not larger, so that
      `x` stays ahead of every post of equal key. */
  function Insert(k: SortKey, x: Post, s: seq<Post>): seq<Post> {
    if s == [] || Key(k, x) >= Key(k, s[0]) then [x] + s
    else [s[0]] + Insert(k, x, s[1..])
  }

  lemma WithKeyCons(k: SortKey, a: Post, s: seq<Post>, v: int)
    ensures WithKey(k, [a] + s, v) == (if Key(k, a) == v then [a] else []) + WithKey(k, s, v)
  {
    assert ([a] + s)[1..] == s;
  }

  lemma {:induction false} InsertBound(k: SortKey, x: Post, s: seq<Post>, bound: int)
    requires AllAtMost(k, s, bound) && Key(k, x) <= bound
    ensures AllAtMost(k, Insert(k, x, s), bound)
  {
    if s != [] && Key(k, x) < Key(k, s[0]) {
      InsertBound(k, x, s[1..], bound);
    }
  }

  lemma {:induction false} InsertSorted(k: SortKey, x: Post, s: seq<Post>)
    requires SortedDesc(k, s)
    ensures SortedDesc(k, Insert(k, x, s))
  {
    if s != [] && Key(k, x) < Key(k, s[0]) {
      var t := s[1..];
      InsertSorted(k, x, t);
      InsertBound(k, x, t, Key(k, s[0]));
      var r' := Insert(k, x, t);
      assert Insert(k, x, s) == [s[0]] + r';
    }
  }

  lemma {:induction false} InsertMultiset(k: SortKey, x: Post, s: seq<Post>)
    ensures multiset(Insert(k, x, s)) == multiset(s) + multiset{x}
  {
    if s != [] && Key(k, x) < Key(k, s[0]) {
      InsertMultiset(k, x, s[1..]);
      assert s == [s[0]] + s[1..];
    }
  }

  lemma SortedTail(k: SortKey, s: seq<Post>)
    requires SortedDesc(k, s) && s != []
    ensures SortedDesc(k, s[1..])
  {
    forall i, j | 0 <= i < j < |s[1..]| ensures Key(k, s[1..][i]) >= Key(k, s[1..][j]) {
      assert s[1..][i] == s[i + 1] && s[1..][j] == s[j + 1];
    }
  }

  lemma {:induction false} InsertWithKey(k: SortKey, x: Post, s: seq<Post>, v: int)
    ensures WithKey(k, Insert(k, x, s), v) == (if Key(k, x) == v then [x] else []) + WithKey(k, s, v)
  {
    if s == [] || Key(k, x) >= Key(k, s[0]) {
      WithKeyCons(k, x, s, v);
    } else {
      var t := s[1..];
      InsertWithKey(k, x, t, v);
      var h0 := if Key(k, s[0]) == v then [s[0]] else [];
      var hx := if Key(k, x) == v then [x] else [];
      var w := WithKey(k, t, v);
      assert WithKey(k, Insert(k, x, s), v) == h0 + (hx + w);
      assert WithKey(k, s, v) == h0 + w;
      if h0 == [] {
        assert h0 + (hx + w) == hx + w && h0 + w == w;
      } else {
        assert hx == [];
        assert hx + (h0 + w) == h0 + w && hx + w == w;
      }
    }
  }

  /** Inserting into a sorted sequence keeps it sorted, adds exactly `x`, and
      puts `x` ahead of the posts that share its key. */
  lemma InsertSpec(k: SortKey, x: Post, s: seq<Post>)
    requires SortedDesc(k, s)
    ensures SortedDesc(k, Insert(k, x, s))
    ensures multiset(Insert(k, x, s)) == multiset(s) + multiset{x}
    ensures forall v :: WithKey(k, Insert(k, x, s), v) == (if Key(k, x) == v then [x] else []) + WithKey(k, s, v)
  {
    InsertSorted(k, x, s);
    InsertMultiset(k, x, s);
    forall v ensures WithKey(k, Insert(k, x, s), v) == (if Key(k, x) == v then [x] else []) + WithKey(k, s, v) {
      InsertWithKey(k, x, s, v);
    }
  }

  /** Stable insertion sort, largest key first: the result is sorted and a
      permutation of the input. */
  function SortDesc(k: SortKey, s: seq<Post>): (r: seq<Post>)
    ensures SortedDesc(k, r)
    ensures multiset(r) == multiset(s)
  {
    if s == [] then []
    else
      var t := SortDesc(k, s[1..]);
      InsertSorted(k, s[0], t);
      InsertMultiset(k, s[0], t);
      assert s == [s[0]] + s[1..];
      Insert(k, s[0], t)
  }

  /** The sort is stable: for every key, the posts with that key appear in
      the same order before and after sorting. */
  lemma {:induction false} SortDescStable(k: SortKey, s: seq<Post>, v: int)
    ensures WithKey(k, SortDesc(k, s), v) == WithKey(k, s, v)
  {
    if s != [] {
      SortDescStable(k, s[1..], v);
      InsertWithKey(k, s[0], SortDesc(k, s[1..]), v);
    }
  }

  lemma SortDescStableAll(k: SortKey, s: seq<Post>)
    ensures forall v :: WithKey(k, SortDesc(k, s), v) == WithKey(k, s, v)
  {
    forall v ensures WithKey(k, SortDesc(k, s), v) == WithKey(k, s, v) {
      SortDescStable(k, s, v);
    }
  }

  lemma {:induction false} WithKeyHead(k: SortKey, s: seq<Post>)
    requires s != []
    ensures WithKey(k, s, Key(k, s[0])) == [s[0]] + WithKey(k, s[1..], Key(k, s[0]))
  {
  }

  /** A post with key `v` in a sorted sequence bounds the key of its head. */
  lemma {:induction false} WithKeyBoundsHead(k: SortKey, s: seq<Post>, v: int)
    requires SortedDesc(k, s) && WithKey(k, s, v) != []
    ensures s != [] && Key(k, s[0]) >= v
  {
    if s != [] && Key(k, s[0]) != v {
      assert SortedDesc(k, s[1..]);
      WithKeyBoundsHead(k, s[1..], v);
      assert Key(k, s[1]) >= v;
    }
  }

  /** Two descending sequences with the same posts of every key start with
      the same post. */
  lemma SameHead(k: SortKey, r1: seq<Post>, r2: seq<Post>)
    requires SortedDesc(k, r1) && SortedDesc(k, r2) && r1 != []
    requires forall v :: WithKey(k, r1, v) == WithKey(k, r2, v)
    ensures r2 != [] && r1[0] == r2[0]
  {
    var a := r1[0];
    WithKeyHead(k, r1);
    WithKeyBoundsHead(k, r2, Key(k, a));
    var b := r2[0];
    WithKeyHead(k, r2);
    WithKeyBoundsHead(k, r1, Key(k, b));
    assert WithKey(k, r1, Key(k, a))[0] == a;
    assert WithKey(k, r2, Key(k, b))[0] == b;
  }

  /** Dropping a common head keeps the posts of every key equal. */
  lemma SameTails(k: SortKey, r1: seq<Post>, r2: seq<Post>, v: int)
    requires r1 != [] && r2 != [] && r1[0] == r2[0]
    requires WithKey(k, r1, v) == WithKey(k, r2, v)
    ensures WithKey(k, r1[1..], v) == WithKey(k, r2[1..], v)
  {
    var h := if Key(k, r1[0]) == v then [r1[0]] else [];
    var t1, t2 := WithKey(k, r1[1..], v), WithKey(k, r2[1..], v);
    assert WithKey(k, r1, v) == h + t1 && WithKey(k, r2, v) == h + t2;
    assert (h + t1)[|h|..] == t1 && (h + t2)[|h|..] == t2;
  }

  /** Two descending sequences holding the same posts of every key, in the
      same order, are equal: a stable descending sort has exactly one
      possible output. */
  lemma {:induction false} StableSortIsUnique(k: SortKey, r1: seq<Post>, r2: seq<Post>)
    requires SortedDesc(k, r1) && SortedDesc(k, r2)
    requires forall v :: WithKey(k, r1, v) == WithKey(k, r2, v)
    ensures r1 == r2
    decreases |r1|
  {
    if r1 == [] {
      if r2 != [] {
        WithKeyHead(k, r2);
      }
    } else {
      SameHead(k, r1, r2);
      forall v ensures WithKey(k, r1[1..], v) == WithKey(k, r2[1..], v) {
        SameTails(k, r1, r2, v);
      }
      SortedTail(k, r1);
      SortedTail(k, r2);
      StableSortIsUnique(k, r1[1..], r2[1..]);
      assert r1 == [r1[0]] + r1[1..] && r2 == [r2[0]] + r2[1..];
    }
  }

  /** Any stable, descending rearrangement of `s` is `SortDesc(k, s)`. */
  lemma SortDescIsTheStableSort(k: SortKey, s: seq<Post>, r: seq<Post>)
    requires SortedDesc(k, r)
    requires forall v :: WithKey(k, r, v) == WithKey(k, s, v)
    ensures r == SortDesc(k, s)
  {
    SortDescStableAll(k, s);
    StableSortIsUnique(k, r, SortDesc(k, s));
  }

  /** Sorting a sequence that is already in descending order changes nothing,
      so sorting twice is sorting once. */
  lemma SortDescOfSorted(k: SortKey, s: seq<Post>)
    requires SortedDesc(k, s)
    ensures SortDesc(k, s) == s
  {
    SortDescStableAll(k, s);
    StableSortIsUnique(k, s, SortDesc(k, s));
  }
}
