/** What importing makes of any Perses document, written by the exporter or by hand. */
module DashboardImport {
  import opened Options
  import opened Dashboards

  // ------------------------------------------------------------- positions in the grid

  /** The panel key a grid item refers to, or none. */
  function RefKey(it: Item): string {
    match it.ref
    case None => ""
    case Some(ref) => LastSegment(ref)
  }

  /** How many of the first `n` items refer to a panel key. */
  function Keyed(items: seq<Item>, n: nat): nat
    requires n <= |items|
  {
    if n == 0 then 0 else Keyed(items, n - 1) + if RefKey(items[n - 1]) == "" then 0 else 1
  }

  /** The last of the first `n` items that refers to `key`. */
  ghost predicate IsLastRef(items: seq<Item>, n: nat, key: string, i: nat)
    requires n <= |items|
  {
    i < n && RefKey(items[i]) == key && forall j | i < j < n :: RefKey(items[j]) != key
  }

  ghost predicate Referred(items: seq<Item>, n: nat, key: string)
    requires n <= |items|
  {
    exists i | 0 <= i < n :: RefKey(items[i]) == key
  }

  lemma IndexNext(items: seq<Item>, n: nat)
    requires n < |items|
    ensures IndexOf(items[..n + 1]) == IndexItem(IndexOf(items[..n]), items[n])
  {
    assert items[..n + 1][..n] == items[..n];
  }

  lemma {:induction false} KeyedCounts(items: seq<Item>, n: nat)
    requires n <= |items|
    ensures IndexOf(items[..n]).next == Keyed(items, n)
  {
    if n > 0 {
      KeyedCounts(items, n - 1);
      IndexNext(items, n - 1);
    }
  }

  /** A key is in the index exactly when some item refers to it. */
  lemma {:induction false} IndexHas(items: seq<Item>, n: nat, key: string)
    requires n <= |items| && key != ""
    ensures key in IndexOf(items[..n]).orders <==> Referred(items, n, key)
    ensures key in IndexOf(items[..n]).widths <==> Referred(items, n, key)
  {
    if n > 0 {
      IndexHas(items, n - 1, key);
      IndexNext(items, n - 1);
      assert Referred(items, n, key) <==> Referred(items, n - 1, key) || RefKey(items[n - 1]) == key;
    }
  }

  /** The last item that refers to a key decides its position and width. */
  lemma {:induction false} LastRefDecides(items: seq<Item>, n: nat, key: string, i: nat)
    requires n <= |items| && key != "" && IsLastRef(items, n, key, i)
    ensures var ix := IndexOf(items[..n]);
      && key in ix.orders && ix.orders[key] == Keyed(items, i)
      && key in ix.widths && ix.widths[key] == if items[i].width == 0.0 then 8.0 else items[i].width
  {
    IndexNext(items, n - 1);
    if i == n - 1 {
      KeyedCounts(items, i);
    } else {
      LastRefDecides(items, n - 1, key, i);
    }
  }

  /** A reference is read as what follows its last slash. */
  lemma LastSegmentIs(head: string, key: string)
    requires '/' !in key
    ensures LastSegment(key) == key && LastSegment(head + "/" + key) == key
    decreases |key|
  {
    LastSegmentAfter(head + "/", key);
    if key != "" {
      var n := |key| - 1;
      assert key[n] in key && key == key[..n] + [key[n]];
      LastSegmentIs(head, key[..n]);
    }
  }

  // ---------------------------------------------------------------------- the result

  /** The dashboard's name: the display name if there is one, even an empty one, else the name in
      the metadata. */
  predicate NamedBy(doc: Doc, name: string) {
    || doc.displayName == Some(name)
    || (doc.displayName.None? && doc.metaName == Some(name))
  }

  predicate HasQuery(pd: PanelDoc) {
    pd.query.Some? && pd.query.value != ""
  }

  /** What one panel comes in as: its own title or else its key, its query, its unit if any, and
      one, two or three columns. */
  predicate ComesInAs(ix: Index, key: string, pd: PanelDoc, p: Panel) {
    && p.title == (if pd.title.Some? then pd.title.value else key)
    && pd.query == Some(p.query) && p.query != ""
    && p.unit == (if pd.unit.Some? then pd.unit.value else "")
    && p.w in {Some(1.0), Some(2.0), Some(3.0)}
    && (var cols := if key in ix.widths then ix.widths[key] else 8.0;
        && (p.w == Some(3.0) <==> cols >= 24.0)
        && (p.w == Some(1.0) <==> cols < 16.0))
  }

  lemma ImportPanelIff(ix: Index, key: string, pd: PanelDoc)
    ensures ImportPanel(ix, key, pd).Success? <==> HasQuery(pd)
    ensures HasQuery(pd) ==> ComesInAs(ix, key, pd, ImportPanel(ix, key, pd).value)
    ensures !HasQuery(pd) ==> ImportPanel(ix, key, pd) == Failure(QueryMissing(key))
  {}

  /** The first key whose panel has no query. */
  ghost predicate FirstUnqueried(panels: map<string, PanelDoc>, keys: seq<string>, i: nat) {
    && i < |keys| && keys[i] in panels && !HasQuery(panels[keys[i]])
    && forall j | 0 <= j < i :: keys[j] in panels && HasQuery(panels[keys[j]])
  }

  /** Every panel comes in when each has a query. */
  lemma PanelsComeIn(ix: Index, panels: map<string, PanelDoc>, keys: seq<string>, ps: seq<Panel>)
    requires (forall k | k in keys :: k in panels) && ImportPanels(ix, panels, keys) == Success(ps)
    ensures |ps| == |keys|
    ensures forall i | 0 <= i < |keys| :: HasQuery(panels[keys[i]]) && ComesInAs(ix, keys[i], panels[keys[i]], ps[i])
  {
    ImportPanelsIff(ix, panels, keys, ps);
    forall i | 0 <= i < |keys|
      ensures HasQuery(panels[keys[i]]) && ComesInAs(ix, keys[i], panels[keys[i]], ps[i])
    {
      ImportPanelIff(ix, keys[i], panels[keys[i]]);
    }
  }

  /** And otherwise the import stops at the first that has none. */
  lemma {:induction false} PanelsStop(ix: Index, panels: map<string, PanelDoc>, keys: seq<string>) returns (i: nat)
    requires (forall k | k in keys :: k in panels) && ImportPanels(ix, panels, keys).Failure?
    ensures FirstUnqueried(panels, keys, i) && ImportPanels(ix, panels, keys) == Failure(QueryMissing(keys[i]))
    decreases |keys|
  {
    var n := |keys| - 1;
    var front := keys[..n];
    if ImportPanels(ix, panels, front).Failure? {
      i := PanelsStop(ix, panels, front);
    } else {
      i := n;
      PanelsComeIn(ix, panels, front, ImportPanels(ix, panels, front).value);
      ImportPanelIff(ix, keys[n], panels[keys[n]]);
      assert forall j | 0 <= j < n :: front[j] == keys[j];
    }
  }

  lemma SortedHasAll(ix: Index, keys: seq<string>)
    ensures |SortKeys(ix, keys)| == |keys| && forall k :: k in SortKeys(ix, keys) <==> k in keys
  {
    SortKeysMembers(ix, keys);
    var s := SortKeys(ix, keys);
    assert |multiset(s)| == |multiset(keys)|;
    forall k ensures k in s <==> k in keys {
      assert k in multiset(s) <==> k in s;
      assert k in multiset(keys) <==> k in keys;
    }
  }

  /** The panels a document holds are in an order: every key once, by grid position, those no
      item refers to at 999. */
  ghost predicate InGridOrder(items: seq<Item>, keys: seq<string>, order: seq<string>) {
    && multiset(order) == multiset(keys)
    && forall i, j | 0 <= i < j < |order| :: OrderOf(IndexOf(items), order[i]) <= OrderOf(IndexOf(items), order[j])
  }

  /** What a grid position is, for every key of a document: 999 when no item refers to it, and
      otherwise the number of keyed items before the last that does. */
  lemma PositionIs(items: seq<Item>, key: string)
    requires key != ""
    ensures !Referred(items, |items|, key) ==> OrderOf(IndexOf(items), key) == 999
    ensures forall i: nat | IsLastRef(items, |items|, key, i) :: OrderOf(IndexOf(items), key) == Keyed(items, i)
  {
    assert items[..|items|] == items;
    IndexHas(items, |items|, key);
    forall i: nat | IsLastRef(items, |items|, key, i) ensures OrderOf(IndexOf(items), key) == Keyed(items, i) {
      LastRefDecides(items, |items|, key, i);
    }
  }

  lemma NameIs(doc: Doc)
    ensures Name(doc) != "" ==> NamedBy(doc, Name(doc))
    ensures forall name | NamedBy(doc, name) :: name == Name(doc)
  {}

  /** Which error an import stops at, in the order they are looked for. */
  lemma ImportFailsWith(doc: Doc, keys: seq<string>)
    requires doc.panels.Some? ==> Enumerates(keys, doc.panels.value)
    ensures var named := exists name :: NamedBy(doc, name) && name != "";
      && (Imported(doc, keys) == Failure(NotADashboard) <==> doc.kind != "Dashboard")
      && (Imported(doc, keys) == Failure(NameMissing) <==> doc.kind == "Dashboard" && !named)
      && (Imported(doc, keys) == Failure(PanelsMissing) <==> doc.kind == "Dashboard" && named && doc.panels.None?)
      && (Imported(doc, keys) == Failure(NoPanels) <==> doc.kind == "Dashboard" && named && doc.panels == Some(map[]))
  {
    NameIs(doc);
    if doc.kind == "Dashboard" && Name(doc) != "" && doc.panels.Some? {
      var ix, panels := IndexOf(doc.items), doc.panels.value;
      SortedKeysKnown(ix, keys, panels);
      SortedHasAll(ix, keys);
      var order := SortKeys(ix, keys);
      if ImportPanels(ix, panels, order).Success? {
        PanelsComeIn(ix, panels, order, ImportPanels(ix, panels, order).value);
      } else {
        var _ := PanelsStop(ix, panels, order);
      }
      PanelsQueried(panels, keys, order);
    }
  }

  /** When an import succeeds. */
  lemma ImportSucceedsIff(doc: Doc, keys: seq<string>)
    requires doc.panels.Some? ==> Enumerates(keys, doc.panels.value)
    ensures Imported(doc, keys).Success? <==>
      && doc.kind == "Dashboard" && (exists name :: NamedBy(doc, name) && name != "")
      && doc.panels.Some? && doc.panels.value != map[]
      && forall k | k in doc.panels.value :: HasQuery(doc.panels.value[k])
  {
    NameIs(doc);
    if doc.kind == "Dashboard" && Name(doc) != "" && doc.panels.Some? {
      var ix, panels := IndexOf(doc.items), doc.panels.value;
      SortedKeysKnown(ix, keys, panels);
      SortedHasAll(ix, keys);
      var order := SortKeys(ix, keys);
      if ImportPanels(ix, panels, order).Success? {
        PanelsComeIn(ix, panels, order, ImportPanels(ix, panels, order).value);
      } else {
        var _ := PanelsStop(ix, panels, order);
      }
      PanelsQueried(panels, keys, order);
    }
  }

  /** What it gives: the name, the description and all panels of the document in grid order. */
  lemma ImportGives(doc: Doc, keys: seq<string>)
    requires doc.panels.Some? ==> Enumerates(keys, doc.panels.value)
    requires Imported(doc, keys).Success?
    ensures var r, order := Imported(doc, keys).value, SortKeys(IndexOf(doc.items), keys);
      && r.name != "" && NamedBy(doc, r.name) && r.description == doc.description
      && InGridOrder(doc.items, keys, order) && |r.panels| == |order|
      && forall i | 0 <= i < |order| ::
           order[i] in doc.panels.value && ComesInAs(IndexOf(doc.items), order[i], doc.panels.value[order[i]], r.panels[i])
  {
    var ix := IndexOf(doc.items);
    NameIs(doc);
    SortedKeysKnown(ix, keys, doc.panels.value);
    SortKeysMembers(ix, keys);
    SortKeysOrdered(ix, keys);
    PanelsComeIn(ix, doc.panels.value, SortKeys(ix, keys), Imported(doc, keys).value.panels);
  }

  /** Which missing query an import stops at: the first in grid order. */
  lemma ImportStopsAtFirst(doc: Doc, keys: seq<string>) returns (i: nat)
    requires doc.panels.Some? ==> Enumerates(keys, doc.panels.value)
    requires Imported(doc, keys).Failure? && Imported(doc, keys).error.QueryMissing?
    ensures doc.panels.Some? && FirstUnqueried(doc.panels.value, SortKeys(IndexOf(doc.items), keys), i)
    ensures Imported(doc, keys) == Failure(QueryMissing(SortKeys(IndexOf(doc.items), keys)[i]))
  {
    var ix := IndexOf(doc.items);
    SortedKeysKnown(ix, keys, doc.panels.value);
    i := PanelsStop(ix, doc.panels.value, SortKeys(ix, keys));
  }

  lemma PanelsQueried(panels: map<string, PanelDoc>, keys: seq<string>, order: seq<string>)
    requires Enumerates(keys, panels) && |order| == |keys| && forall k :: k in order <==> k in keys
    ensures order == [] <==> panels == map[]
    ensures (forall k | k in panels :: HasQuery(panels[k])) <==>
      forall i | 0 <= i < |order| :: order[i] in panels && HasQuery(panels[order[i]])
  {
    if order != [] { assert order[0] in order; }
    if forall i | 0 <= i < |order| :: order[i] in panels && HasQuery(panels[order[i]]) {
      forall k | k in panels ensures HasQuery(panels[k]) {
        assert k in order;
        var i :| 0 <= i < |order| && order[i] == k;
      }
    }
  }
}
