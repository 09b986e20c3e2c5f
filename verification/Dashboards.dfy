/** Dashboards as Perses documents: export with grid packing, import, and the round trip.
    YAML text is left to its library; a document stands for its parsed form. */
module Dashboards {
  import opened Options
  import opened StableSort
  import opened Numerals

  /** `unit` is empty when there is none; `w` is the span asked for, if any. */
  datatype Panel = Panel(title: string, query: string, unit: string, w: Option<real>)

  datatype Dashboard = Dashboard(id: string, name: string, description: string, panels: seq<Panel>)

  /** The parts of a Perses panel the importer looks at, each absent or of another type as none. */
  datatype PanelDoc = PanelDoc(title: Option<string>, query: Option<string>, unit: Option<string>)

  /** A grid item; a missing width is zero. */
  datatype Item = Item(x: real, y: int, width: real, height: int, ref: Option<string>)

  /** The items are those of all layouts in order. */
  datatype Doc = Doc(
    kind: string, metaName: Option<string>, displayName: Option<string>, description: Option<string>,
    panels: Option<map<string, PanelDoc>>, items: seq<Item>)

  const GRID_COLS: real := 24.0
  const ROW_H: int := 8

  // ------------------------------------------------------------------- panel keys

  predicate IsAlnum(c: char) {
    'A' <= c <= 'Z' || 'a' <= c <= 'z' || '0' <= c <= '9'
  }

  function Upper(c: char): char {
    if 'a' <= c <= 'z' then (c as int - 'a' as int + 'A' as int) as char else c
  }

  /** The words of the title, maximal runs of letters and digits, capitalised and joined. */
  function Pascal(title: string, starting: bool): string {
    if title == "" then ""
    else if !IsAlnum(title[0]) then Pascal(title[1..], true)
    else [if starting then Upper(title[0]) else title[0]] + Pascal(title[1..], false)
  }

  function PanelKey(title: string, i: nat): string {
    var pascal := Pascal(title, true);
    if pascal != "" then pascal else "Panel" + Decimal(i + 1)
  }

  predicate AllAlnum(s: string) {
    forall c | c in s :: IsAlnum(c)
  }

  lemma {:induction false} PascalIsAlnum(title: string, starting: bool)
    ensures AllAlnum(Pascal(title, starting))
    decreases |title|
  {
    if title != "" {
      PascalIsAlnum(title[1..], !IsAlnum(title[0]));
    }
  }

  /** Keys are never empty and never contain the separator of references. */
  lemma KeyIsReferable(title: string, i: nat)
    ensures PanelKey(title, i) != "" && '/' !in PanelKey(title, i)
  {
    PascalIsAlnum(title, true);
    DecimalReadsBack(i + 1);
    assert AllAlnum(PanelKey(title, i));
  }

  // ------------------------------------------------------------------ grid packing

  function Span(p: Panel): real {
    if p.w.Some? && 1.0 <= p.w.value <= 3.0 then p.w.value else 1.0
  }

  function Width(p: Panel): real {
    Span(p) * 8.0
  }

  /** Where the next item would go if it fits: after the last one of its row. */
  function Cursor(ps: seq<Panel>): (real, int) {
    if ps == [] then (0.0, 0)
    else
      var n := |ps| - 1;
      var (x, y) := Place(Cursor(ps[..n]), ps[n]);
      (x + Width(ps[n]), y)
  }

  /** Where a panel goes: at the cursor, or at the start of the next row. */
  function Place(cursor: (real, int), p: Panel): (real, int) {
    if cursor.0 + Width(p) > GRID_COLS then (0.0, cursor.1 + ROW_H) else cursor
  }

  function ItemOf(ps: seq<Panel>, i: nat): Item
    requires i < |ps|
  {
    var (x, y) := Place(Cursor(ps[..i]), ps[i]);
    Item(x, y, Width(ps[i]), ROW_H, Some(RefTo(PanelKey(ps[i].title, i))))
  }

  const REF_PREFIX := "#/spec/panels/"

  function RefTo(key: string): string {
    REF_PREFIX + key
  }

  function Layout(ps: seq<Panel>): (r: seq<Item>)
    ensures |r| == |ps| && forall i | 0 <= i < |ps| :: r[i] == ItemOf(ps, i)
  {
    seq(|ps|, i requires 0 <= i < |ps| => ItemOf(ps, i))
  }

  predicate Overlap(a: Item, b: Item) {
    && a.x < b.x + b.width && b.x < a.x + a.width
    && a.y < b.y + b.height && b.y < a.y + a.height
  }

  /** `b` comes after `a` in reading order, clear of it. */
  predicate Beyond(a: Item, b: Item) {
    a.y + a.height <= b.y || (a.y == b.y && a.x + a.width <= b.x)
  }

  lemma {:induction false} CursorInGrid(ps: seq<Panel>)
    ensures 0.0 <= Cursor(ps).0 <= GRID_COLS
  {
    if ps != [] { CursorInGrid(ps[..|ps| - 1]); }
  }

  lemma {:induction false} LaterIsBeyond(ps: seq<Panel>, i: nat, j: nat)
    requires i < j < |ps|
    ensures Beyond(ItemOf(ps, i), ItemOf(ps, j))
    decreases j
  {
    CursorInGrid(ps[..j]);
    CursorInGrid(ps[..j - 1]);
    assert ps[..j][..j - 1] == ps[..j - 1];
    var last := ItemOf(ps, j - 1);
    assert Cursor(ps[..j]) == (last.x + last.width, last.y);
    if i < j - 1 { LaterIsBeyond(ps, i, j - 1); }
  }

  /** Every item is eight high, as many times eight wide as the span asked for when that is from
      one to three and else eight, and refers to the panel's key. */
  lemma ItemsAre(ps: seq<Panel>, i: nat)
    requires i < |ps|
    ensures var r := Layout(ps)[i];
      && r.height == 8
      && r.width == (if ps[i].w.Some? && 1.0 <= ps[i].w.value <= 3.0 then 8.0 * ps[i].w.value else 8.0)
      && r.ref == Some("#/spec/panels/" + PanelKey(ps[i].title, i))
  {}

  /** For every list of panels and every requested span: the items stay within the 24 columns of
      the grid and no two of them overlap. */
  lemma GridPacksWithoutOverlap(ps: seq<Panel>)
    ensures forall i | 0 <= i < |ps| :: 0.0 <= Layout(ps)[i].x && Layout(ps)[i].x + Layout(ps)[i].width <= 24.0
    ensures forall i, j | 0 <= i < j < |ps| ::
      Beyond(Layout(ps)[i], Layout(ps)[j]) && !Overlap(Layout(ps)[i], Layout(ps)[j])
  {
    forall i | 0 <= i < |ps|
      ensures 0.0 <= Layout(ps)[i].x && Layout(ps)[i].x + Layout(ps)[i].width <= GRID_COLS
    {
      CursorInGrid(ps[..i]);
    }
    forall i, j | 0 <= i < j < |ps|
      ensures Beyond(Layout(ps)[i], Layout(ps)[j]) && !Overlap(Layout(ps)[i], Layout(ps)[j])
    {
      LaterIsBeyond(ps, i, j);
    }
  }

  /** No space is left that the next panel would fit in: the first item is at the origin, and
      each other one is right beside the one before it, or, when it does not fit there, at the
      start of the next row. */
  lemma GridPacksTightly(ps: seq<Panel>)
    ensures var r := Layout(ps);
      && (r != [] ==> r[0].x == 0.0 && r[0].y == 0)
      && forall i | 0 < i < |r| ::
           var right := r[i - 1].x + r[i - 1].width;
           if right + r[i].width <= 24.0 then r[i].x == right && r[i].y == r[i - 1].y
           else r[i].x == 0.0 && r[i].y == r[i - 1].y + 8
  {
    forall i | 0 < i < |ps| ensures Cursor(ps[..i]) == (ItemOf(ps, i - 1).x + Width(ps[i - 1]), ItemOf(ps, i - 1).y) {
      assert ps[..i][..i - 1] == ps[..i - 1];
    }
    assert ps != [] ==> ps[..0] == [];
  }

  // ------------------------------------------------------------------------ export

  function Present(s: string): Option<string> {
    if s == "" then None else Some(s)
  }

  function PanelDocOf(p: Panel): PanelDoc {
    PanelDoc(Some(p.title), Some(p.query), Present(p.unit))
  }

  /** Panels by key; of several with one key the last stays. */
  function PanelMap(ps: seq<Panel>): map<string, PanelDoc> {
    if ps == [] then map[]
    else
      var n := |ps| - 1;
      PanelMap(ps[..n])[PanelKey(ps[n].title, n) := PanelDocOf(ps[n])]
  }

  function Exported(d: Dashboard): Doc {
    Doc("Dashboard", Some(d.id), Some(d.name), Present(d.description), Some(PanelMap(d.panels)), Layout(d.panels))
  }

  lemma ExportStep(ps: seq<Panel>, i: nat)
    requires i < |ps|
    ensures PanelMap(ps[..i + 1]) == PanelMap(ps[..i])[PanelKey(ps[i].title, i) := PanelDocOf(ps[i])]
    ensures var (x, y) := Place(Cursor(ps[..i]), ps[i]); Cursor(ps[..i + 1]) == (x + Width(ps[i]), y)
  {
    assert ps[..i + 1][..i] == ps[..i];
  }

  /** The head of an exported document. */
  lemma ExportIs(d: Dashboard)
    ensures var doc := Exported(d);
      && doc.kind == "Dashboard" && doc.metaName == Some(d.id) && doc.displayName == Some(d.name)
      && (doc.description.None? <==> d.description == "")
      && (d.description != "" ==> doc.description == Some(d.description))
      && doc.panels == Some(PanelMap(d.panels)) && doc.items == Layout(d.panels)
  {}

  method ToPerses(d: Dashboard) returns (doc: Doc)
    ensures doc == Exported(d)
  {
    var panels: map<string, PanelDoc> := map[];
    var items: seq<Item> := [];
    var x, y := 0.0, 0;
    for i := 0 to |d.panels|
      invariant panels == PanelMap(d.panels[..i])
      invariant |items| == i && forall j | 0 <= j < i :: items[j] == ItemOf(d.panels, j)
      invariant (x, y) == Cursor(d.panels[..i])
    {
      var p := d.panels[i];
      ExportStep(d.panels, i);
      var key := PanelKey(p.title, i);
      var w := if p.w.Some? && p.w.value >= 1.0 && p.w.value <= 3.0 then p.w.value else 1.0;
      var width := w * 8.0;
      if x + width > GRID_COLS {
        x := 0.0;
        y := y + ROW_H;
      }
      panels := panels[key := PanelDocOf(p)];
      items := items + [Item(x, y, width, ROW_H, Some(RefTo(key)))];
      x := x + width;
    }
    assert d.panels[..|d.panels|] == d.panels;
    assert items == Layout(d.panels);
    doc := Doc("Dashboard", Some(d.id), Some(d.name), Present(d.description), Some(panels), items);
  }

  // ------------------------------------------------------------------------ import

  datatype Error = NotADashboard | NameMissing | PanelsMissing | QueryMissing(key: string) | NoPanels

  datatype Parsed = Parsed(name: string, description: Option<string>, panels: seq<Panel>)

  datatype Result<+T> = Success(value: T) | Failure(error: Error)

  /** The part of a reference after its last slash. */
  function LastSegment(ref: string): string {
    if ref == "" || ref[|ref| - 1] == '/' then ""
    else LastSegment(ref[..|ref| - 1]) + [ref[|ref| - 1]]
  }

  /** Widths and positions by panel key, from the items in order. */
  datatype Index = Index(widths: map<string, real>, orders: map<string, int>, next: int)

  function IndexOf(items: seq<Item>): Index {
    if items == [] then Index(map[], map[], 0)
    else IndexItem(IndexOf(items[..|items| - 1]), items[|items| - 1])
  }

  function IndexItem(ix: Index, it: Item): Index {
    if it.ref.None? || LastSegment(it.ref.value) == "" then ix
    else
      var key := LastSegment(it.ref.value);
      Index(ix.widths[key := if it.width == 0.0 then 8.0 else it.width], ix.orders[key := ix.next], ix.next + 1)
  }

  function OrderOf(ix: Index, key: string): int {
    if key in ix.orders then ix.orders[key] else 999
  }

  /** The key the entries are sorted by. */
  function GridOrder(ix: Index): string -> real {
    (key: string) => OrderOf(ix, key) as real
  }

  /** The keys in the order of their positions in the grid. */
  function SortKeys(ix: Index, keys: seq<string>): seq<string> {
    Sort(GridOrder(ix), keys)
  }

  function Columns(cols: real): real {
    if cols >= 24.0 then 3.0 else if cols >= 16.0 then 2.0 else 1.0
  }

  function ImportPanel(ix: Index, key: string, pd: PanelDoc): Result<Panel> {
    if pd.query.None? || pd.query.value == "" then Failure(QueryMissing(key))
    else
      var title := if pd.title.Some? then pd.title.value else key;
      var unit := if pd.unit.Some? then pd.unit.value else "";
      var cols := if key in ix.widths then ix.widths[key] else 8.0;
      Success(Panel(title, pd.query.value, unit, Some(Columns(cols))))
  }

  /** The panels of the keys in order, up to the first that has no query. */
  function ImportPanels(ix: Index, panels: map<string, PanelDoc>, keys: seq<string>): Result<seq<Panel>>
    requires forall k | k in keys :: k in panels
  {
    if keys == [] then Success([])
    else
      var n := |keys| - 1;
      match ImportPanels(ix, panels, keys[..n])
      case Failure(e) => Failure(e)
      case Success(ps) =>
        match ImportPanel(ix, keys[n], panels[keys[n]])
        case Failure(e) => Failure(e)
        case Success(p) => Success(ps + [p])
  }

  /** The order in which the runtime enumerates the panel map: every key once. */
  predicate Enumerates(keys: seq<string>, panels: map<string, PanelDoc>) {
    && (forall i, j | 0 <= i < j < |keys| :: keys[i] != keys[j])
    && (forall k | k in keys :: k in panels)
    && forall k | k in panels :: k in keys
  }

  lemma SortKeysMembers(ix: Index, keys: seq<string>)
    ensures multiset(SortKeys(ix, keys)) == multiset(keys)
  {
    SortSorts(GridOrder(ix), keys);
  }

  function Name(doc: Doc): string {
    match doc.displayName
    case Some(name) => name
    case None => (match doc.metaName case Some(name) => name case None => "")
  }

  lemma SortedKeysKnown(ix: Index, keys: seq<string>, panels: map<string, PanelDoc>)
    requires forall k | k in keys :: k in panels
    ensures forall k | k in SortKeys(ix, keys) :: k in panels
  {
    SortKeysMembers(ix, keys);
    forall k | k in SortKeys(ix, keys) ensures k in panels {
      assert k in multiset(SortKeys(ix, keys));
    }
  }

  function ImportInOrder(ix: Index, panels: map<string, PanelDoc>, keys: seq<string>): Result<seq<Panel>>
    requires forall k | k in keys :: k in panels
  {
    SortedKeysKnown(ix, keys, panels);
    ImportPanels(ix, panels, SortKeys(ix, keys))
  }

  function Imported(doc: Doc, keys: seq<string>): Result<Parsed>
    requires doc.panels.Some? ==> Enumerates(keys, doc.panels.value)
  {
    if doc.kind != "Dashboard" then Failure(NotADashboard)
    else if Name(doc) == "" then Failure(NameMissing)
    else if doc.panels.None? then Failure(PanelsMissing)
    else
      match ImportInOrder(IndexOf(doc.items), doc.panels.value, keys)
      case Failure(e) => Failure(e)
      case Success(ps) =>
        if ps == [] then Failure(NoPanels) else Success(Parsed(Name(doc), doc.description, ps))
  }

  method ParsePerses(doc: Doc, keys: seq<string>) returns (r: Result<Parsed>)
    requires doc.panels.Some? ==> Enumerates(keys, doc.panels.value)
    ensures r == Imported(doc, keys)
  {
    if doc.kind != "Dashboard" {
      return Failure(NotADashboard);
    }
    if Name(doc) == "" {
      return Failure(NameMissing);
    }
    if doc.panels.None? {
      return Failure(PanelsMissing);
    }
    var ix := IndexItems(doc.items);
    SortedKeysKnown(ix, keys, doc.panels.value);
    var panels := ImportEntries(ix, doc.panels.value, SortKeys(ix, keys));
    if panels.Failure? {
      return Failure(panels.error);
    }
    if panels.value == [] {
      return Failure(NoPanels);
    }
    return Success(Parsed(Name(doc), doc.description, panels.value));
  }

  method IndexItems(items: seq<Item>) returns (ix: Index)
    ensures ix == IndexOf(items)
  {
    ix := Index(map[], map[], 0);
    for i := 0 to |items|
      invariant ix == IndexOf(items[..i])
    {
      assert items[..i + 1][..i] == items[..i];
      ix := IndexItem(ix, items[i]);
    }
    assert items[..|items|] == items;
  }

  method ImportEntries(ix: Index, pmap: map<string, PanelDoc>, entries: seq<string>) returns (r: Result<seq<Panel>>)
    requires forall k | k in entries :: k in pmap
    ensures r == ImportPanels(ix, pmap, entries)
  {
    var panels: seq<Panel> := [];
    for i := 0 to |entries|
      invariant forall k | k in entries[..i] :: k in pmap
      invariant ImportPanels(ix, pmap, entries[..i]) == Success(panels)
    {
      assert entries[i] in entries && forall k | k in entries[..i + 1] :: k in entries;
      assert entries[..i + 1][..i] == entries[..i];
      var p := ImportPanel(ix, entries[i], pmap[entries[i]]);
      if p.Failure? {
        ImportStopsAtFailure(ix, pmap, entries, i + 1, p.error);
        return Failure(p.error);
      }
      panels := panels + [p.value];
    }
    assert entries[..|entries|] == entries;
    return Success(panels);
  }

  lemma {:induction false} ImportStopsAtFailure(ix: Index, panels: map<string, PanelDoc>, keys: seq<string>, i: nat, e: Error)
    requires i <= |keys| && (forall k | k in keys :: k in panels)
    requires forall k | k in keys[..i] :: k in panels
    requires ImportPanels(ix, panels, keys[..i]) == Failure(e)
    ensures ImportPanels(ix, panels, keys) == Failure(e)
    decreases |keys| - i
  {
    if i == |keys| {
      assert keys[..i] == keys;
    } else {
      assert forall k | k in keys[..i + 1] :: k in keys;
      assert keys[..i + 1][..i] == keys[..i];
      ImportStopsAtFailure(ix, panels, keys, i + 1, e);
    }
  }

  // -------------------------------------------------------------------- round trip

  function KeyAt(ps: seq<Panel>, i: nat): string
    requires i < |ps|
  {
    PanelKey(ps[i].title, i)
  }

  function KeyList(ps: seq<Panel>): (r: seq<string>)
    ensures |r| == |ps| && forall i | 0 <= i < |ps| :: r[i] == KeyAt(ps, i)
  {
    seq(|ps|, i requires 0 <= i < |ps| => KeyAt(ps, i))
  }

  predicate Distinct(s: seq<string>) {
    forall i, j | 0 <= i < j < |s| :: s[i] != s[j]
  }

  /** What a panel comes back as: its span rounded down to whole columns, its other parts as they were. */
  function Normalised(p: Panel): Panel {
    p.(w := Some(Columns(Width(p))))
  }

  function NormalisedAll(ps: seq<Panel>): (r: seq<Panel>)
    ensures |r| == |ps| && forall i | 0 <= i < |ps| :: r[i] == Normalised(ps[i])
  {
    seq(|ps|, i requires 0 <= i < |ps| => Normalised(ps[i]))
  }

  /** The span that comes back: the one asked for, rounded down, when it was from 1 to 3, else 1. */
  lemma SpansRoundDown(p: Panel)
    ensures Normalised(p).w == Some(if p.w.Some? && 1.0 <= p.w.value <= 3.0 then p.w.value.Floor as real else 1.0)
    ensures p.w in {Some(1.0), Some(2.0), Some(3.0)} <==> Normalised(p) == p
  {
  }

  lemma {:induction false} LastSegmentAfter(prefix: string, key: string)
    requires '/' !in key && prefix != "" && prefix[|prefix| - 1] == '/'
    ensures LastSegment(prefix + key) == key
    decreases |key|
  {
    if key == "" {
      assert prefix + key == prefix;
    } else {
      var n := |key| - 1;
      var ref := prefix + key;
      assert key[n] in key && ref[|ref| - 1] == key[n];
      assert ref[..|ref| - 1] == prefix + key[..n];
      LastSegmentAfter(prefix, key[..n]);
      assert key == key[..n] + [key[n]];
    }
  }

  /** A reference written on export is read back as the key it was made from. */
  lemma RefReadsBack(title: string, i: nat)
    ensures LastSegment(RefTo(PanelKey(title, i))) == PanelKey(title, i) != ""
  {
    KeyIsReferable(title, i);
    LastSegmentAfter(REF_PREFIX, PanelKey(title, i));
  }

  lemma {:induction false} IndexOfLayout(ps: seq<Panel>, m: nat)
    requires m <= |ps| && Distinct(KeyList(ps))
    ensures var ix := IndexOf(Layout(ps)[..m]); ix.next == m && forall i | 0 <= i < m ::
      && KeyAt(ps, i) in ix.orders && ix.orders[KeyAt(ps, i)] == i
      && KeyAt(ps, i) in ix.widths && ix.widths[KeyAt(ps, i)] == Width(ps[i])
  {
    if m > 0 {
      IndexOfLayout(ps, m - 1);
      RefReadsBack(ps[m - 1].title, m - 1);
      var items := Layout(ps)[..m];
      assert items[..m - 1] == Layout(ps)[..m - 1];
      assert items[m - 1] == ItemOf(ps, m - 1);
      var key := KeyAt(ps, m - 1);
      var before := IndexOf(Layout(ps)[..m - 1]);
      assert IndexOf(items) == Index(before.widths[key := Width(ps[m - 1])], before.orders[key := m - 1], m);
      assert key == KeyList(ps)[m - 1];
      forall i | 0 <= i < m - 1 ensures KeyAt(ps, i) != key {
        assert KeyList(ps)[i] == KeyAt(ps, i);
      }
    }
  }

  lemma {:induction false} PanelMapKeys(ps: seq<Panel>)
    ensures forall k :: k in PanelMap(ps) <==> k in KeyList(ps)
  {
    if ps != [] {
      var n := |ps| - 1;
      PanelMapKeys(ps[..n]);
      assert KeyList(ps) == KeyList(ps[..n]) + [KeyAt(ps, n)];
    }
  }

  lemma {:induction false} PanelMapAt(ps: seq<Panel>, i: nat)
    requires i < |ps| && Distinct(KeyList(ps))
    ensures KeyAt(ps, i) in PanelMap(ps) && PanelMap(ps)[KeyAt(ps, i)] == PanelDocOf(ps[i])
    decreases |ps|
  {
    var n := |ps| - 1;
    if i < n {
      assert KeyList(ps) == KeyList(ps[..n]) + [KeyAt(ps, n)];
      forall a, b | 0 <= a < b < n ensures KeyList(ps[..n])[a] != KeyList(ps[..n])[b] {
        assert KeyList(ps)[a] != KeyList(ps)[b];
      }
      PanelMapAt(ps[..n], i);
      assert KeyList(ps)[i] != KeyList(ps)[n];
    }
  }

  predicate Ordered(ix: Index, s: seq<string>) {
    forall i, j | 0 <= i < j < |s| :: OrderOf(ix, s[i]) <= OrderOf(ix, s[j])
  }

  lemma SortKeysOrdered(ix: Index, keys: seq<string>)
    ensures Ordered(ix, SortKeys(ix, keys))
  {
    SortSorts(GridOrder(ix), keys);
    var s := SortKeys(ix, keys);
    forall i, j | 0 <= i < j < |s| ensures OrderOf(ix, s[i]) <= OrderOf(ix, s[j]) {
      assert GridOrder(ix)(s[i]) <= GridOrder(ix)(s[j]);
    }
  }

  lemma {:induction false} DistinctCounts(s: seq<string>, x: string)
    ensures Distinct(s) ==> multiset(s)[x] == if x in s then 1 else 0
  {
    if s != [] && Distinct(s) {
      var n := |s| - 1;
      assert s == s[..n] + [s[n]];
      DistinctCounts(s[..n], x);
    }
  }

  lemma {:induction false} CountsDistinct(s: seq<string>)
    requires forall x | x in s :: multiset(s)[x] == 1
    ensures Distinct(s)
  {
    forall i, j | 0 <= i < j < |s| ensures s[i] != s[j] {
      assert s == s[..j] + s[j..];
      assert multiset(s)[s[i]] == multiset(s[..j])[s[i]] + multiset(s[j..])[s[i]];
      assert s[i] in s[..j] by { assert s[..j][i] == s[i]; }
      assert s[j..][0] == s[j];
    }
  }

  lemma SameMembers(s: seq<string>, t: seq<string>)
    requires Distinct(s) && Distinct(t) && forall x :: x in s <==> x in t
    ensures multiset(s) == multiset(t)
  {
    forall x ensures multiset(s)[x] == multiset(t)[x] {
      DistinctCounts(s, x);
      DistinctCounts(t, x);
    }
  }

  /** Sorting by grid position brings the keys, in whatever order they were enumerated, back into
      panel order. */
  lemma SortRecoversPanelOrder(ps: seq<Panel>, keys: seq<string>)
    requires Distinct(KeyList(ps)) && Enumerates(keys, PanelMap(ps))
    ensures SortKeys(IndexOf(Layout(ps)), keys) == KeyList(ps)
  {
    var ix := IndexOf(Layout(ps));
    var s, k := SortKeys(ix, keys), KeyList(ps);
    assert Layout(ps)[..|ps|] == Layout(ps);
    IndexOfLayout(ps, |ps|);
    SortedIsPermuted(ix, ps, keys);
    SortKeysOrdered(ix, keys);
    forall i | 0 <= i < |s| ensures s[i] == k[i] {
      PositionIsIndex(ix, k, s, i);
    }
  }

  lemma SortedIsPermuted(ix: Index, ps: seq<Panel>, keys: seq<string>)
    requires Distinct(KeyList(ps)) && Enumerates(keys, PanelMap(ps))
    ensures var s := SortKeys(ix, keys);
      |s| == |ps| && Distinct(s) && forall x | x in s :: x in KeyList(ps)
  {
    SortKeysMembers(ix, keys);
    EnumeratedKeys(ps, keys);
    PermutedKeys(KeyList(ps), SortKeys(ix, keys));
  }

  lemma EnumeratedKeys(ps: seq<Panel>, keys: seq<string>)
    requires Distinct(KeyList(ps)) && Enumerates(keys, PanelMap(ps))
    ensures multiset(keys) == multiset(KeyList(ps))
  {
    PanelMapKeys(ps);
    SameMembers(keys, KeyList(ps));
  }

  lemma PermutedKeys(k: seq<string>, s: seq<string>)
    requires Distinct(k) && multiset(s) == multiset(k)
    ensures |s| == |k| && Distinct(s) && forall x | x in s :: x in k
  {
    assert |s| == |multiset(s)| == |multiset(k)| == |k|;
    forall x | x in s ensures multiset(s)[x] == 1 && x in k {
      assert x in multiset(k);
      DistinctCounts(k, x);
    }
    CountsDistinct(s);
  }

  lemma PositionIsIndex(ix: Index, k: seq<string>, s: seq<string>, i: nat)
    requires forall j | 0 <= j < |k| :: k[j] in ix.orders && ix.orders[k[j]] == j
    requires |s| == |k| && Distinct(s) && Ordered(ix, s) && (forall x | x in s :: x in k) && i < |s|
    ensures s[i] == k[i]
  {
    forall j | 0 <= j < |s| ensures 0 <= OrderOf(ix, s[j]) < |k| && k[OrderOf(ix, s[j])] == s[j] {
      assert s[j] in k;
      var q :| 0 <= q < |k| && k[q] == s[j];
    }
    AtLeastIndex(ix, s, i);
    AtMostIndex(ix, s, i);
  }

  lemma {:induction false} AtLeastIndex(ix: Index, s: seq<string>, i: nat)
    requires i < |s| && Distinct(s) && Ordered(ix, s)
    requires forall j, l | 0 <= j < l < |s| :: OrderOf(ix, s[j]) != OrderOf(ix, s[l])
    requires forall j | 0 <= j < |s| :: 0 <= OrderOf(ix, s[j]) < |s|
    ensures OrderOf(ix, s[i]) >= i
  {
    if i > 0 { AtLeastIndex(ix, s, i - 1); }
  }

  lemma {:induction false} AtMostIndex(ix: Index, s: seq<string>, i: nat)
    requires i < |s| && Distinct(s) && Ordered(ix, s)
    requires forall j, l | 0 <= j < l < |s| :: OrderOf(ix, s[j]) != OrderOf(ix, s[l])
    requires forall j | 0 <= j < |s| :: 0 <= OrderOf(ix, s[j]) < |s|
    ensures OrderOf(ix, s[i]) <= i
    decreases |s| - i
  {
    if i + 1 < |s| { AtMostIndex(ix, s, i + 1); }
  }

  lemma ImportPanelsLast(ix: Index, panels: map<string, PanelDoc>, keys: seq<string>, ps: seq<Panel>)
    requires keys != [] && forall k | k in keys :: k in panels
    ensures var n := |keys| - 1;
            ImportPanels(ix, panels, keys) == Success(ps) <==>
              && ps != []
              && ImportPanels(ix, panels, keys[..n]) == Success(ps[..|ps| - 1])
              && ImportPanel(ix, keys[n], panels[keys[n]]) == Success(ps[|ps| - 1])
  {
    if ps != [] { assert ps == ps[..|ps| - 1] + [ps[|ps| - 1]]; }
  }

  /** Each key gives the panel at its place. */
  predicate ImportsAs(ix: Index, panels: map<string, PanelDoc>, keys: seq<string>, ps: seq<Panel>)
    requires forall k | k in keys :: k in panels
  {
    |ps| == |keys| && forall i | 0 <= i < |keys| :: ImportPanel(ix, keys[i], panels[keys[i]]) == Success(ps[i])
  }

  lemma ImportsAsLast(ix: Index, panels: map<string, PanelDoc>, keys: seq<string>, ps: seq<Panel>)
    requires keys != [] && ps != [] && forall k | k in keys :: k in panels
    ensures var n := |keys| - 1;
            ImportsAs(ix, panels, keys, ps) <==>
              && ImportsAs(ix, panels, keys[..n], ps[..|ps| - 1])
              && ImportPanel(ix, keys[n], panels[keys[n]]) == Success(ps[|ps| - 1])
  {
    var n := |keys| - 1;
    if ImportsAs(ix, panels, keys[..n], ps[..|ps| - 1]) && ImportPanel(ix, keys[n], panels[keys[n]]) == Success(ps[|ps| - 1]) {
      forall i | 0 <= i < |keys| ensures ImportPanel(ix, keys[i], panels[keys[i]]) == Success(ps[i]) {
        if i < n { assert keys[..n][i] == keys[i] && ps[..|ps| - 1][i] == ps[i]; }
      }
    }
    if ImportsAs(ix, panels, keys, ps) {
      forall i | 0 <= i < n ensures ImportPanel(ix, keys[..n][i], panels[keys[..n][i]]) == Success(ps[..|ps| - 1][i]) {
        assert keys[..n][i] == keys[i];
      }
    }
  }

  lemma {:induction false} ImportPanelsIff(ix: Index, panels: map<string, PanelDoc>, keys: seq<string>, ps: seq<Panel>)
    requires forall k | k in keys :: k in panels
    ensures ImportPanels(ix, panels, keys) == Success(ps) <==> ImportsAs(ix, panels, keys, ps)
  {
    if keys != [] {
      ImportPanelsLast(ix, panels, keys, ps);
      if ps != [] {
        ImportPanelsIff(ix, panels, keys[..|keys| - 1], ps[..|ps| - 1]);
        ImportsAsLast(ix, panels, keys, ps);
      }
    }
  }

  function SetOf(s: seq<string>): set<string> {
    set x | x in s
  }

  lemma {:induction false} FewerWhenRepeated(s: seq<string>)
    ensures |SetOf(s)| <= |s|
    ensures |SetOf(s)| == |s| <==> Distinct(s)
  {
    if s != [] {
      var n := |s| - 1;
      var front, last := s[..n], s[n];
      FewerWhenRepeated(front);
      assert s == front + [last];
      assert SetOf(s) == SetOf(front) + {last};
      if last in SetOf(front) {
        assert SetOf(s) == SetOf(front);
        var i :| 0 <= i < n && front[i] == last;
        assert s[i] == s[n];
      } else {
        assert forall i | 0 <= i < n :: front[i] in SetOf(front);
        if Distinct(front) {
          assert Distinct(s);
        } else {
          var i, j :| 0 <= i < j < n && front[i] == front[j];
          assert s[i] == s[j];
        }
      }
    }
  }

  predicate AllQueried(ps: seq<Panel>) {
    forall i | 0 <= i < |ps| :: ps[i].query != ""
  }

  /** With one key for each panel, the panels come back in order exactly when all have a query. */
  lemma PanelsComeBack(ps: seq<Panel>, keys: seq<string>)
    requires Distinct(KeyList(ps)) && Enumerates(keys, PanelMap(ps))
    ensures ImportInOrder(IndexOf(Layout(ps)), PanelMap(ps), keys) == Success(NormalisedAll(ps)) <==> AllQueried(ps)
  {
    var ix := IndexOf(Layout(ps));
    var k := KeyList(ps);
    SortedKeysKnown(ix, keys, PanelMap(ps));
    SortRecoversPanelOrder(ps, keys);
    ImportPanelsIff(ix, PanelMap(ps), k, NormalisedAll(ps));
    forall i | 0 <= i < |ps|
      ensures ImportPanel(ix, k[i], PanelMap(ps)[k[i]]) == Success(Normalised(ps[i])) <==> ps[i].query != ""
    {
      PanelComesBack(ps, i);
    }
  }

  lemma PanelComesBack(ps: seq<Panel>, i: nat)
    requires Distinct(KeyList(ps)) && i < |ps|
    ensures KeyAt(ps, i) in PanelMap(ps)
    ensures ImportPanel(IndexOf(Layout(ps)), KeyAt(ps, i), PanelMap(ps)[KeyAt(ps, i)]) == Success(Normalised(ps[i]))
      <==> ps[i].query != ""
  {
    IndexedAt(ps, i);
    PanelMapAt(ps, i);
    ExportedPanelImports(IndexOf(Layout(ps)), KeyAt(ps, i), ps[i]);
  }

  lemma IndexedAt(ps: seq<Panel>, i: nat)
    requires Distinct(KeyList(ps)) && i < |ps|
    ensures var ix := IndexOf(Layout(ps)); KeyAt(ps, i) in ix.widths && ix.widths[KeyAt(ps, i)] == Width(ps[i])
  {
    assert Layout(ps)[..|ps|] == Layout(ps);
    IndexOfLayout(ps, |ps|);
  }

  lemma ExportedPanelImports(ix: Index, key: string, p: Panel)
    requires key in ix.widths && ix.widths[key] == Width(p)
    ensures ImportPanel(ix, key, PanelDocOf(p)) == Success(Normalised(p)) <==> p.query != ""
  {}

  lemma ImportedCount(ix: Index, panels: map<string, PanelDoc>, keys: seq<string>, got: seq<Panel>)
    requires forall k | k in keys :: k in panels
    requires ImportInOrder(ix, panels, keys) == Success(got)
    ensures |got| == |keys|
  {
    SortedKeysKnown(ix, keys, panels);
    ImportPanelsIff(ix, panels, SortKeys(ix, keys), got);
    SortKeysMembers(ix, keys);
    assert |multiset(SortKeys(ix, keys))| == |multiset(keys)|;
  }

  lemma FewerKeys(ps: seq<Panel>, keys: seq<string>)
    requires !Distinct(KeyList(ps)) && Enumerates(keys, PanelMap(ps))
    ensures |keys| < |ps|
  {
    PanelMapKeys(ps);
    FewerWhenRepeated(keys);
    FewerWhenRepeated(KeyList(ps));
    assert SetOf(keys) == SetOf(KeyList(ps));
  }

  /** With a key for two panels, fewer panels come back than went out. */
  lemma FewerComeBack(ps: seq<Panel>, keys: seq<string>, got: seq<Panel>)
    requires !Distinct(KeyList(ps)) && Enumerates(keys, PanelMap(ps))
    ensures ImportInOrder(IndexOf(Layout(ps)), PanelMap(ps), keys) == Success(got) ==> |got| < |ps|
  {
    var ix := IndexOf(Layout(ps));
    FewerKeys(ps, keys);
    if ImportInOrder(ix, PanelMap(ps), keys) == Success(got) {
      ImportedCount(ix, PanelMap(ps), keys, got);
    }
  }

  /** A dashboard written out and read back is the same, spans rounded down to whole columns,
      exactly when it has a name, panels, a query in each, and titles that make distinct keys;
      the order in which the panel map is enumerated does not matter. */
  lemma RoundTrip(d: Dashboard, keys: seq<string>)
    requires Enumerates(keys, PanelMap(d.panels))
    ensures Imported(Exported(d), keys) == Success(Parsed(d.name, Present(d.description), NormalisedAll(d.panels)))
      <==> d.name != "" && d.panels != [] && AllQueried(d.panels) && Distinct(KeyList(d.panels))
  {
    var ps := d.panels;
    if Distinct(KeyList(ps)) {
      PanelsComeBack(ps, keys);
    } else {
      FewerComeBack(ps, keys, NormalisedAll(ps));
    }
  }

  /** Titles that differ only in case or separators make the same key, wherever they stand. */
  lemma TitlesCanCollide(i: nat, j: nat)
    ensures PanelKey("a b", i) == PanelKey("A-B", j) == "AB"
  {
    calc {
      Pascal("a b", true);
      ['A'] + Pascal(" b", false);
      ['A'] + Pascal("b", true);
      ['A'] + (['B'] + Pascal("", false));
    }
    calc {
      Pascal("A-B", true);
      ['A'] + Pascal("-B", false);
      ['A'] + Pascal("B", true);
      ['A'] + (['B'] + Pascal("", false));
    }
  }
}
