/** The table updates behind the tab (stream) handlers: appending a new tab,
    removing the tabs with an id, and merging a partial tab into the tabs
    with an id. */
module TabUpdates {
  import opened Types

  /** The first tab whose id is `id`, if any. */
  function FindTab(tabs: seq<Tab>, id: string): (r: Option<Tab>)
    ensures r.None? <==> forall i :: 0 <= i < |tabs| ==> tabs[i].id != id
    ensures r.Some? ==> exists i :: 0 <= i < |tabs| && tabs[i] == r.value && tabs[i].id == id &&
                                    forall j :: 0 <= j < i ==> tabs[j].id != id
  {
    if tabs == [] then None
    else if tabs[0].id == id then Some(tabs[0])
    else
      var r := FindTab(tabs[1..], id);
      assert r.Some? ==> exists i :: 0 <= i < |tabs[1..]| && tabs[1..][i] == r.value && tabs[1..][i].id == id &&
                                     forall j :: 0 <= j < i ==> tabs[1..][j].id != id;
      assert forall i :: 1 <= i < |tabs| ==> tabs[i] == tabs[1..][i - 1];
      r
  }

  /** The tab `addTab` appends: an empty, silent stream called `New Stream`. */
  function NewTab(id: string): Tab {
    Tab(id, "New Stream", [], [], false, None)
  }

  /** Every tab id occurs once. */
  predicate UniqueIds(tabs: seq<Tab>) {
    forall i, j :: 0 <= i < j < |tabs| ==> tabs[i].id != tabs[j].id
  }

  predicate HasId(tabs: seq<Tab>, id: string) {
    exists i :: 0 <= i < |tabs| && tabs[i].id == id
  }

  /** `{ ...t, ...patch }`: the patch's present fields win. */
  function Patched(t: Tab, patch: TabPatch): Tab {
    Tab(
      if patch.id.Some? then patch.id.value else t.id,
      if patch.name.Some? then patch.name.value else t.name,
      if patch.sources.Some? then patch.sources.value else t.sources,
      if patch.rssUrls.Some? then patch.rssUrls.value else t.rssUrls,
      if patch.notificationsEnabled.Some? then patch.notificationsEnabled.value else t.notificationsEnabled,
      if patch.defaultFilter.Some? then patch.defaultFilter else t.defaultFilter
    )
  }

  /** Merges the patch into every tab whose id is `id`; the other tabs, the
      length and the order are unchanged. */
  function UpdateWhere(tabs: seq<Tab>, id: string, patch: TabPatch): (r: seq<Tab>)
    ensures |r| == |tabs|
    ensures forall i :: 0 <= i < |tabs| ==>
              r[i] == if tabs[i].id == id then Patched(tabs[i], patch) else tabs[i]
  {
    if tabs == [] then []
    else [if tabs[0].id == id then Patched(tabs[0], patch) else tabs[0]] + UpdateWhere(tabs[1..], id, patch)
  }

  /** The tabs whose id is not `id`, in their order. */
  function RemoveId(tabs: seq<Tab>, id: string): (r: seq<Tab>)
    ensures forall i :: 0 <= i < |r| ==> r[i].id != id
  {
    if tabs == [] then []
    else (if tabs[0].id == id then [] else [tabs[0]]) + RemoveId(tabs[1..], id)
  }

  /** Removal drops every tab with the id and keeps every other tab as often
      as it occurred. */
  lemma {:induction false} RemoveCounts(tabs: seq<Tab>, id: string)
    ensures forall t :: multiset(RemoveId(tabs, id))[t] == if t.id == id then 0 else multiset(tabs)[t]
  {
    if tabs != [] {
      RemoveCounts(tabs[1..], id);
      assert tabs == [tabs[0]] + tabs[1..];
    }
  }

  /** Removal distributes over concatenation, so the surviving tabs keep
      their relative order. */
  lemma {:induction false} RemoveAppend(s: seq<Tab>, t: seq<Tab>, id: string)
    ensures RemoveId(s + t, id) == RemoveId(s, id) + RemoveId(t, id)
  {
    if s != [] {
      assert (s + t)[1..] == s[1..] + t;
      RemoveAppend(s[1..], t, id);
    } else {
      assert s + t == t;
    }
  }

  /** The first surviving tab is the first tab of the input whose id is not
      `id`: every tab before it carries the id. */
  lemma {:induction false} RemoveIdFirst(tabs: seq<Tab>, id: string)
    requires RemoveId(tabs, id) != []
    ensures exists k :: && 0 <= k < |tabs| && tabs[k] == RemoveId(tabs, id)[0]
                        && forall j :: 0 <= j < k ==> tabs[j].id == id
  {
    if tabs[0].id == id {
      RemoveIdFirst(tabs[1..], id);
      var k :| && 0 <= k < |tabs[1..]| && tabs[1..][k] == RemoveId(tabs[1..], id)[0]
               && forall j :: 0 <= j < k ==> tabs[1..][j].id == id;
      assert tabs[k + 1] == RemoveId(tabs, id)[0];
      forall j | 0 <= j < k + 1 ensures tabs[j].id == id {
        if j > 0 {
          assert tabs[j] == tabs[1..][j - 1];
        }
      }
    } else {
      assert tabs[0] == RemoveId(tabs, id)[0];
    }
  }

  /** Removing an id no tab carries changes nothing. */
  lemma {:induction false} RemoveAbsent(tabs: seq<Tab>, id: string)
    requires !HasId(tabs, id)
    ensures RemoveId(tabs, id) == tabs
  {
    if tabs != [] {
      assert !HasId(tabs[1..], id) by {
        forall i | 0 <= i < |tabs[1..]| ensures tabs[1..][i].id != id {
          assert tabs[1..][i] == tabs[i + 1];
        }
      }
      RemoveAbsent(tabs[1..], id);
    }
  }

  /** With unique ids, removing the id of the tab at position `k` removes
      exactly that tab and keeps the others in order. */
  lemma {:induction false} RemoveUnique(tabs: seq<Tab>, id: string, k: nat)
    requires UniqueIds(tabs) && k < |tabs| && tabs[k].id == id
    ensures RemoveId(tabs, id) == tabs[..k] + tabs[k + 1..]
  {
    if k == 0 {
      assert !HasId(tabs[1..], id) by {
        forall i | 0 <= i < |tabs[1..]| ensures tabs[1..][i].id != id {
          assert tabs[1..][i] == tabs[i + 1];
        }
      }
      RemoveAbsent(tabs[1..], id);
    } else {
      assert UniqueIds(tabs[1..]) by {
        forall i, j | 0 <= i < j < |tabs[1..]| ensures tabs[1..][i].id != tabs[1..][j].id {
          assert tabs[1..][i] == tabs[i + 1] && tabs[1..][j] == tabs[j + 1];
        }
      }
      RemoveUnique(tabs[1..], id, k - 1);
      assert tabs[1..][..k - 1] + tabs[1..][k..] == tabs[1..k] + tabs[k + 1..];
      assert tabs[..k] == [tabs[0]] + tabs[1..k];
    }
  }

  lemma {:induction false} RemoveKeepsUnique(tabs: seq<Tab>, id: string)
    requires UniqueIds(tabs)
    ensures UniqueIds(RemoveId(tabs, id))
  {
    if exists k :: 0 <= k < |tabs| && tabs[k].id == id {
      var k :| 0 <= k < |tabs| && tabs[k].id == id;
      RemoveUnique(tabs, id, k);
      var r := tabs[..k] + tabs[k + 1..];
      forall i, j | 0 <= i < j < |r| ensures r[i].id != r[j].id {
        var i' := if i < k then i else i + 1;
        var j' := if j < k then j else j + 1;
        assert r[i] == tabs[i'] && r[j] == tabs[j'];
      }
    } else {
      RemoveAbsent(tabs, id);
    }
  }

  /** With unique ids and at least two tabs, some tab survives the removal of
      any id, so the list after `deleteTab` is never empty. */
  lemma RemoveLeavesATab(tabs: seq<Tab>, id: string)
    requires UniqueIds(tabs) && |tabs| > 1
    ensures HasId(RemoveId(tabs, id), if tabs[0].id == id then tabs[1].id else tabs[0].id)
    ensures |RemoveId(tabs, id)| >= 1
  {
    var keep := if tabs[0].id == id then tabs[1] else tabs[0];
    RemoveCounts(tabs, id);
    assert keep in multiset(tabs);
    assert keep in multiset(RemoveId(tabs, id));
    var r := RemoveId(tabs, id);
    var k :| 0 <= k < |r| && r[k] == keep;
  }

  /** Ids are not unique by construction: when every tab carries the id,
      nothing remains, so there is no first remaining tab to activate. */
  lemma RemoveSharedIdEmpties(a: Tab, b: Tab)
    requires a.id == b.id
    ensures RemoveId([a, b], a.id) == []
  {
    assert [a, b][1..] == [b] && [b][1..] == [];
    assert RemoveId([b], a.id) == [] + RemoveId([], a.id);
  }

  /** Appending a tab with a fresh id keeps the ids unique. */
  lemma AppendFresh(tabs: seq<Tab>, t: Tab)
    requires UniqueIds(tabs) && !HasId(tabs, t.id)
    ensures UniqueIds(tabs + [t]) && HasId(tabs + [t], t.id)
  {
    assert (tabs + [t])[|tabs|] == t;
  }

  /** A patch that leaves ids alone keeps every tab's id, so unique ids stay
      unique and the same ids are present. */
  lemma UpdateKeepsIds(tabs: seq<Tab>, id: string, patch: TabPatch)
    requires patch.id.None? || patch.id == Some(id)
    ensures forall i :: 0 <= i < |tabs| ==> UpdateWhere(tabs, id, patch)[i].id == tabs[i].id
    ensures UniqueIds(tabs) ==> UniqueIds(UpdateWhere(tabs, id, patch))
    ensures forall x :: HasId(UpdateWhere(tabs, id, patch), x) <==> HasId(tabs, x)
  {
    var r := UpdateWhere(tabs, id, patch);
    forall x ensures HasId(r, x) <==> HasId(tabs, x) {
      if HasId(r, x) {
        var i :| 0 <= i < |r| && r[i].id == x;
        assert tabs[i].id == x;
      }
      if HasId(tabs, x) {
        var i :| 0 <= i < |tabs| && tabs[i].id == x;
        assert r[i].id == x;
      }
    }
  }

  /** Applying the same update twice is applying it once, as long as the
      patch does not move the tab to another id. */
  lemma UpdateTwice(tabs: seq<Tab>, id: string, patch: TabPatch)
    requires patch.id.None? || patch.id == Some(id)
    ensures UpdateWhere(UpdateWhere(tabs, id, patch), id, patch) == UpdateWhere(tabs, id, patch)
  {
  }

  /** The lookup `FindTab` finds a tab exactly when some tab has the id. */
  lemma FindTabHasId(tabs: seq<Tab>, id: string)
    ensures FindTab(tabs, id).Some? <==> HasId(tabs, id)
  {
  }
}
