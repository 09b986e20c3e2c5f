/** The span tree of a trace: recorded parents, adoption of orphans by the span that contains
    them in time, and the preorder list the waterfall draws. */
module SpanTree {
  import opened Options
  import opened StableSort

  /** Start in nanoseconds, duration in milliseconds. */
  datatype Span = Span(spanId: string, parentSpanId: string, start: real, durationMs: real)

  datatype SpanNode = SpanNode(span: Span, depth: nat, treeParentId: string)

  const EPS_NS := 1500000.0

  function EndNs(s: Span): real {
    s.start + s.durationMs * 1000000.0
  }

  function Ids(spans: seq<Span>): set<string> {
    set s | s in spans :: s.spanId
  }

  /** Span ids are unique and not empty. */
  predicate ValidTrace(spans: seq<Span>) {
    && (forall s | s in spans :: s.spanId != "")
    && forall i, j | 0 <= i < j < |spans| :: spans[i].spanId != spans[j].spanId
  }

  // -------------------------------------------------------------- tree parents

  /** The recorded parent, or none when it is not part of the trace. */
  function Recorded(spans: seq<Span>, s: Span): string {
    if s.parentSpanId in Ids(spans) then s.parentSpanId else ""
  }

  /** `c` is longer than `s` and contains it in time, up to clock jitter. */
  predicate Contains(c: Span, s: Span) {
    && c.durationMs > s.durationMs
    && c.start <= s.start + EPS_NS
    && EndNs(c) >= EndNs(s) - EPS_NS
  }

  /** The first shortest span among `spans` that contains `s`. */
  function Tightest(spans: seq<Span>, s: Span): Option<Span> {
    if spans == [] then None
    else
      var n := |spans| - 1;
      var best, c := Tightest(spans[..n], s), spans[n];
      if Contains(c, s) && (best.None? || c.durationMs < best.value.durationMs) then Some(c) else best
  }

  lemma {:induction false} TightestContainer(spans: seq<Span>, s: Span)
    ensures Tightest(spans, s).Some? <==> exists c | c in spans :: Contains(c, s)
    ensures Tightest(spans, s).Some? ==>
      var best := Tightest(spans, s).value;
      best in spans && Contains(best, s) && forall c | c in spans && Contains(c, s) :: best.durationMs <= c.durationMs
  {
    if spans != [] {
      var n := |spans| - 1;
      TightestContainer(spans[..n], s);
      assert forall c :: c in spans <==> c in spans[..n] || c == spans[n];
    }
  }

  /** The parent in the drawn tree: the recorded one, else the tightest container. */
  function TreeParent(spans: seq<Span>, s: Span): string {
    if Recorded(spans, s) != "" then Recorded(spans, s)
    else
      match Tightest(spans, s)
      case Some(c) => c.spanId
      case None => ""
  }

  method FindRecorded(spans: seq<Span>) returns (parentOf: map<string, string>)
    requires ValidTrace(spans)
    ensures parentOf.Keys == Ids(spans)
    ensures Adopted(spans, 0, parentOf)
  {
    var ids := Ids(spans);
    parentOf := map[];
    for i := 0 to |spans|
      invariant parentOf.Keys == Ids(spans[..i])
      invariant forall j | 0 <= j < i :: spans[j].spanId in parentOf && parentOf[spans[j].spanId] == Recorded(spans, spans[j])
    {
      var s := spans[i];
      parentOf := parentOf[s.spanId := if s.parentSpanId in ids then s.parentSpanId else ""];
      IdsOfPrefix(spans, i);
    }
    assert spans[..|spans|] == spans;
  }

  method FindContainer(spans: seq<Span>, s: Span) returns (best: Option<Span>)
    ensures best == Tightest(spans, s)
  {
    best := None;
    for j := 0 to |spans|
      invariant best == Tightest(spans[..j], s)
    {
      assert spans[..j + 1][..j] == spans[..j];
      var c := spans[j];
      if c.durationMs > s.durationMs {
        if c.start <= s.start + EPS_NS && EndNs(c) >= EndNs(s) - EPS_NS {
          if best.None? || c.durationMs < best.value.durationMs {
            best := Some(c);
          }
        }
      }
    }
    assert spans[..|spans|] == spans;
  }

  /** The first `i` spans have their tree parents, the others their recorded ones. */
  ghost predicate Adopted(spans: seq<Span>, i: nat, parentOf: map<string, string>)
    requires i <= |spans|
  {
    forall j | 0 <= j < |spans| :: spans[j].spanId in parentOf &&
      parentOf[spans[j].spanId] == if j < i then TreeParent(spans, spans[j]) else Recorded(spans, spans[j])
  }

  method FindParents(spans: seq<Span>) returns (parentOf: map<string, string>)
    requires ValidTrace(spans)
    ensures parentOf.Keys == Ids(spans)
    ensures Adopted(spans, |spans|, parentOf)
  {
    parentOf := FindRecorded(spans);
    for i := 0 to |spans|
      invariant parentOf.Keys == Ids(spans)
      invariant Adopted(spans, i, parentOf)
    {
      parentOf := Adopt(spans, i, parentOf);
    }
  }

  /** Gives one span without a recorded parent its tightest container. */
  method Adopt(spans: seq<Span>, i: nat, par: map<string, string>) returns (parentOf: map<string, string>)
    requires ValidTrace(spans) && i < |spans| && par.Keys == Ids(spans) && Adopted(spans, i, par)
    ensures parentOf.Keys == Ids(spans) && Adopted(spans, i + 1, parentOf)
  {
    var s := spans[i];
    parentOf := par;
    if parentOf[s.spanId] == "" {
      var best := FindContainer(spans, s);
      if best.Some? {
        parentOf := parentOf[s.spanId := best.value.spanId];
      }
    }
    assert parentOf == par[s.spanId := TreeParent(spans, s)];
    AdoptNext(spans, i, par);
  }

  lemma AdoptNext(spans: seq<Span>, i: nat, par: map<string, string>)
    requires ValidTrace(spans) && i < |spans| && Adopted(spans, i, par)
    ensures Adopted(spans, i + 1, par[spans[i].spanId := TreeParent(spans, spans[i])])
  {
    forall j | 0 <= j < |spans| && j != i ensures spans[j].spanId != spans[i].spanId {}
  }

  lemma IdsOfPrefix(spans: seq<Span>, i: nat)
    requires i < |spans|
    ensures Ids(spans[..i + 1]) == Ids(spans[..i]) + {spans[i].spanId}
  {
    assert forall s :: s in spans[..i + 1] <==> s in spans[..i] || s == spans[i];
  }

  // ------------------------------------------------------------ paths to the root

  /** The parent of `x`, or none. */
  function Parent(par: map<string, string>, x: string): string {
    if x in par then par[x] else ""
  }

  /** `n` steps up from `x`. */
  function Up(par: map<string, string>, x: string, n: nat): string
    decreases n
  {
    if n == 0 || x == "" then x else Up(par, Parent(par, x), n - 1)
  }

  /** Following parents from `x` ends. */
  ghost predicate Rooted(par: map<string, string>, x: string) {
    exists n: nat :: Up(par, x, n) == ""
  }

  /** The number of ancestors of `x`, itself included. */
  ghost function Level(par: map<string, string>, x: string): nat
    requires Rooted(par, x)
  {
    LeastRoot(par, x);
    var n: nat :| IsLevel(par, x, n);
    n
  }

  ghost predicate IsLevel(par: map<string, string>, x: string, n: nat) {
    Up(par, x, n) == "" && (n == 0 || Up(par, x, n - 1) != "")
  }

  lemma LeastRoot(par: map<string, string>, x: string)
    requires Rooted(par, x)
    ensures exists n: nat :: IsLevel(par, x, n)
  {
    var n: nat :| Up(par, x, n) == "";
    while n > 0 && Up(par, x, n - 1) == ""
      invariant Up(par, x, n) == ""
    {
      n := n - 1;
    }
    assert IsLevel(par, x, n);
  }

  lemma {:induction false} UpStays(par: map<string, string>, x: string, n: nat, m: nat)
    requires Up(par, x, n) == "" && n <= m
    ensures Up(par, x, m) == ""
    decreases n
  {
    if x != "" { UpStays(par, Parent(par, x), n - 1, m - 1); }
  }

  lemma LevelUnique(par: map<string, string>, x: string, n: nat, m: nat)
    requires IsLevel(par, x, n) && IsLevel(par, x, m)
    ensures n == m
  {
    if n < m { UpStays(par, x, n, m - 1); }
    if m < n { UpStays(par, x, m, n - 1); }
  }

  /** One step down adds one level. */
  lemma LevelStep(par: map<string, string>, x: string)
    requires x != ""
    ensures Rooted(par, x) <==> Rooted(par, Parent(par, x))
    ensures Rooted(par, x) ==> Level(par, x) == Level(par, Parent(par, x)) + 1
  {
    var p := Parent(par, x);
    if Rooted(par, x) {
      var n: nat :| Up(par, x, n) == "";
      assert Up(par, p, n - 1) == "";
    }
    if Rooted(par, p) {
      var m := Level(par, p);
      assert IsLevel(par, p, m);
      assert Up(par, x, m + 1) == Up(par, p, m);
      assert m > 0 ==> Up(par, x, m) == Up(par, p, m - 1);
      assert IsLevel(par, x, m + 1);
      LevelUnique(par, x, Level(par, x), m + 1);
    }
  }

  lemma LevelOfRoot(par: map<string, string>)
    ensures Rooted(par, "") && Level(par, "") == 0
  {
    assert Up(par, "", 0) == "";
    assert IsLevel(par, "", 0);
    LevelUnique(par, "", Level(par, ""), 0);
  }

  lemma {:induction false} UpAdds(par: map<string, string>, x: string, n: nat, m: nat)
    ensures Up(par, x, n + m) == Up(par, Up(par, x, n), m)
    decreases n
  {
    if n > 0 && x != "" { UpAdds(par, Parent(par, x), n - 1, m); }
    if x == "" { UpStays(par, "", 0, m); UpStays(par, "", 0, n + m); }
  }

  /** `x` is `c` or a descendant of it. */
  ghost predicate Under(par: map<string, string>, x: string, c: string) {
    exists n: nat :: Up(par, x, n) == c
  }

  /** Levels count the steps up. */
  lemma {:induction false} UpLevel(par: map<string, string>, x: string, n: nat)
    requires Up(par, x, n) != "" && Rooted(par, Up(par, x, n))
    ensures Rooted(par, x) && Level(par, x) == Level(par, Up(par, x, n)) + n
    decreases n
  {
    if n > 0 {
      UpLevel(par, Parent(par, x), n - 1);
      LevelStep(par, x);
    }
  }

  /** The proper descendants of `p`. */
  ghost function Descendants(par: map<string, string>, ids: set<string>, p: string): set<string> {
    set x | x in ids && Under(par, Parent(par, x), p)
  }

  /** Branches of different children of one parent have nothing in common. */
  lemma BranchesApart(par: map<string, string>, x: string, c: string, c': string)
    requires c != "" && c' != "" && Parent(par, c) == Parent(par, c') && Rooted(par, Parent(par, c))
    requires Under(par, x, c) && Under(par, x, c')
    ensures c == c'
  {
    var n: nat :| Up(par, x, n) == c;
    var m: nat :| Up(par, x, m) == c';
    LevelStep(par, c);
    LevelStep(par, c');
    UpLevel(par, x, n);
    UpLevel(par, x, m);
  }

  /** Two nodes of different branches with the same parent are the branches' roots. */
  lemma SiblingsAcrossBranches(par: map<string, string>, x: string, y: string, c: string, c': string)
    requires c != "" && c' != "" && c != c' && x != "" && y != ""
    requires Parent(par, c) == Parent(par, c') && Rooted(par, Parent(par, c))
    requires Under(par, x, c) && Under(par, y, c') && Parent(par, x) == Parent(par, y)
    ensures x == c && y == c'
  {
    LevelStep(par, c);
    LevelStep(par, c');
    NotUnderItself(par, c);
    NotUnderItself(par, c');
    SelfOrUnder(par, x, c);
    SelfOrUnder(par, y, c');
    if x != c && y != c' { BranchesApart(par, Parent(par, x), c, c'); }
  }

  lemma SelfOrUnder(par: map<string, string>, x: string, c: string)
    requires x != "" && Under(par, x, c)
    ensures x == c || Under(par, Parent(par, x), c)
  {
    var n: nat :| Up(par, x, n) == c;
    if n > 0 { assert Up(par, Parent(par, x), n - 1) == c; }
  }

  lemma NotUnderItself(par: map<string, string>, c: string)
    requires c != "" && Rooted(par, c)
    ensures !Under(par, Parent(par, c), c)
  {
    if Under(par, Parent(par, c), c) {
      var n: nat :| Up(par, Parent(par, c), n) == c;
      UpLevel(par, Parent(par, c), n);
      LevelStep(par, c);
      assert false;
    }
  }

  lemma DescendantsOfChild(par: map<string, string>, ids: set<string>, c: string)
    requires c in ids && c != "" && Rooted(par, c)
    ensures Descendants(par, ids, c) < Descendants(par, ids, Parent(par, c))
  {
    var p := Parent(par, c);
    forall x | x in Descendants(par, ids, c)
      ensures Under(par, Parent(par, x), p)
    {
      var n: nat :| Up(par, Parent(par, x), n) == c;
      UpAdds(par, Parent(par, x), n, 1);
      assert Up(par, c, 1) == p;
    }
    NotUnderItself(par, c);
    assert Up(par, p, 0) == p;
    assert c in Descendants(par, ids, p);
  }

  /** A parent map of a trace: every parent is a span of the trace or none. */
  predicate Closed(par: map<string, string>) {
    "" !in par && forall x | x in par :: par[x] == "" || par[x] in par
  }

  /** Every proper descendant of `p` is in the branch of one of its children. */
  lemma {:induction false} BranchOf(par: map<string, string>, x: string, n: nat, p: string) returns (c: string)
    requires Closed(par) && x in par && Up(par, Parent(par, x), n) == p
    ensures c in par && par[c] == p && Under(par, x, c)
    decreases n
  {
    if Parent(par, x) == p {
      c := x;
      assert Up(par, x, 0) == x;
    } else {
      c := BranchOf(par, Parent(par, x), n - 1, p);
      var m: nat :| Up(par, Parent(par, x), m) == c;
      assert Up(par, x, m + 1) == c;
    }
  }

  // ------------------------------------------------------------------- the walk

  function StartTime(s: Span): real {
    s.start
  }

  function SortByStart(list: seq<Span>): seq<Span> {
    Sort(StartTime, list)
  }

  predicate InOrder(list: seq<Span>) {
    forall i, j | 0 <= i < j < |list| :: list[i].start <= list[j].start
  }

  lemma SortByStartSorts(list: seq<Span>)
    ensures InOrder(SortByStart(list)) && multiset(SortByStart(list)) == multiset(list)
  {
    SortSorts(StartTime, list);
    var sorted := SortByStart(list);
    forall i, j | 0 <= i < j < |sorted| ensures sorted[i].start <= sorted[j].start {
      assert StartTime(sorted[i]) <= StartTime(sorted[j]);
    }
  }

  predicate DistinctIds(list: seq<Span>) {
    forall i, j | 0 <= i < j < |list| :: list[i].spanId != list[j].spanId
  }

  lemma DistinctMultiset(a: seq<Span>, b: seq<Span>)
    requires multiset(a) == multiset(b) && DistinctIds(a)
    ensures DistinctIds(b) && forall s :: s in a <==> s in b
  {
    assert forall s :: s in a <==> s in multiset(a);
    assert forall s :: s in b <==> s in multiset(b);
    forall i, j | 0 <= i < j < |b|
      ensures b[i].spanId != b[j].spanId
    {
      assert b[i] in a && b[j] in a;
      DistinctCount(a, b[i]);
      if b[i] == b[j] { CountedTwice(b, i, j); }
    }
  }

  lemma CountedTwice(b: seq<Span>, i: nat, j: nat)
    requires i < j < |b| && b[i] == b[j]
    ensures multiset(b)[b[i]] >= 2
  {
    assert b == b[..i] + [b[i]] + b[i + 1..j] + [b[j]] + b[j + 1..];
  }

  lemma {:induction false} DistinctCount(a: seq<Span>, s: Span)
    requires DistinctIds(a)
    ensures multiset(a)[s] <= 1
  {
    if a != [] {
      assert a == [a[0]] + a[1..];
      DistinctCount(a[1..], s);
      assert s == a[0] ==> s !in a[1..];
    }
  }

  function Kids(byParent: map<string, seq<Span>>, p: string): seq<Span> {
    if p in byParent then byParent[p] else []
  }

  /** `byParent` groups the spans of the trace under their tree parents. */
  ghost predicate Forest(spans: seq<Span>, par: map<string, string>, byParent: map<string, seq<Span>>) {
    && ValidTrace(spans) && par.Keys == Ids(spans) && Closed(par)
    && forall p :: DistinctIds(Kids(byParent, p)) &&
         forall s :: s in Kids(byParent, p) <==> s in spans && par[s.spanId] == p
  }

  function NodeIds(nodes: seq<SpanNode>): set<string> {
    set n | n in nodes :: n.span.spanId
  }

  predicate DistinctNodes(nodes: seq<SpanNode>) {
    forall i, j | 0 <= i < j < |nodes| :: nodes[i].span.spanId != nodes[j].span.spanId
  }

  /** The node hangs under its tree parent, at the depth of its ancestors. */
  ghost predicate Placed(spans: seq<Span>, par: map<string, string>, n: SpanNode) {
    && n.span in spans && Rooted(par, n.span.spanId)
    && n.treeParentId == Parent(par, n.span.spanId)
    && n.depth + 1 == Level(par, n.span.spanId)
  }

  /** Node `j` is the parent of node `i`, one level up, with nothing but deeper nodes between. */
  predicate Follows(nodes: seq<SpanNode>, j: nat, i: nat)
    requires j < i < |nodes|
  {
    && nodes[j].span.spanId == nodes[i].treeParentId
    && nodes[j].depth + 1 == nodes[i].depth
    && forall k | j < k < i :: nodes[k].depth >= nodes[i].depth
  }

  predicate FollowsSome(nodes: seq<SpanNode>, i: nat)
    requires i < |nodes|
  {
    exists j | 0 <= j < i :: Follows(nodes, j, i)
  }

  predicate ChildAt(n: SpanNode, p: string, base: nat) {
    n.depth == base && n.treeParentId == p
  }

  /** Every node is a child of `p` at depth `base` or follows its parent. */
  predicate Preorder(nodes: seq<SpanNode>, p: string, base: nat) {
    forall i | 0 <= i < |nodes| ::
      nodes[i].depth >= base && (ChildAt(nodes[i], p, base) || FollowsSome(nodes, i))
  }

  lemma FollowsInPrefix(a: seq<SpanNode>, b: seq<SpanNode>, i: nat)
    requires i < |a| && FollowsSome(a, i)
    ensures FollowsSome(a + b, i)
  {
    var j :| 0 <= j < i && Follows(a, j, i);
    assert forall k | 0 <= k <= i :: (a + b)[k] == a[k];
    assert Follows(a + b, j, i);
  }

  lemma FollowsInSuffix(a: seq<SpanNode>, b: seq<SpanNode>, i: nat)
    requires i < |b| && FollowsSome(b, i)
    ensures FollowsSome(a + b, |a| + i)
  {
    var j :| 0 <= j < i && Follows(b, j, i);
    var c := a + b;
    assert forall k | |a| <= k < |c| :: c[k] == b[k - |a|];
    assert Follows(c, |a| + j, |a| + i);
  }

  lemma PreorderAppend(a: seq<SpanNode>, b: seq<SpanNode>, p: string, base: nat)
    requires Preorder(a, p, base) && Preorder(b, p, base)
    ensures Preorder(a + b, p, base)
  {
    var c := a + b;
    forall i | 0 <= i < |c|
      ensures c[i].depth >= base && (ChildAt(c[i], p, base) || FollowsSome(c, i))
    {
      if i < |a| {
        assert c[i] == a[i];
        if FollowsSome(a, i) { FollowsInPrefix(a, b, i); }
      } else {
        assert c[i] == b[i - |a|];
        if FollowsSome(b, i - |a|) { FollowsInSuffix(a, b, i - |a|); }
      }
    }
  }

  lemma PreorderBranch(n: SpanNode, w: seq<SpanNode>)
    requires Preorder(w, n.span.spanId, n.depth + 1)
    ensures Preorder([n] + w, n.treeParentId, n.depth)
  {
    var c := [n] + w;
    forall i | 0 < i < |c|
      ensures c[i].depth >= n.depth && FollowsSome(c, i)
    {
      assert c[i] == w[i - 1];
      if FollowsSome(w, i - 1) {
        FollowsInSuffix([n], w, i - 1);
      } else {
        assert forall k | 0 < k < i :: c[k] == w[k - 1];
        assert Follows(c, 0, i);
      }
    }
  }

  /** Siblings appear in order of their start. */
  predicate SiblingsInOrder(nodes: seq<SpanNode>) {
    forall i, j | 0 <= i < j < |nodes| && nodes[i].treeParentId == nodes[j].treeParentId ::
      nodes[i].span.start <= nodes[j].span.start
  }

  /** What a walk below `p` lists: every proper descendant of `p`, once, in preorder. */
  ghost predicate Walked(spans: seq<Span>, par: map<string, string>, nodes: seq<SpanNode>, p: string)
    requires Rooted(par, p)
  {
    && (forall n | n in nodes :: Placed(spans, par, n))
    && DistinctNodes(nodes)
    && NodeIds(nodes) == Descendants(par, Ids(spans), p)
    && Preorder(nodes, p, Level(par, p))
    && SiblingsInOrder(nodes)
  }

  /** The same, when only the branches of some children have been walked. */
  ghost predicate WalkedKids(spans: seq<Span>, par: map<string, string>, nodes: seq<SpanNode>, p: string, kids: seq<Span>)
    requires Rooted(par, p)
  {
    && (forall n | n in nodes :: Placed(spans, par, n))
    && DistinctNodes(nodes)
    && CoversKids(par, Ids(spans), nodes, kids)
    && Preorder(nodes, p, Level(par, p))
    && SiblingsInOrder(nodes)
  }

  lemma SpanOfId(spans: seq<Span>, s: Span, t: Span)
    requires ValidTrace(spans) && s in spans && t in spans && s.spanId == t.spanId
    ensures s == t
  {}

  lemma InNodeIds(nodes: seq<SpanNode>, n: SpanNode)
    requires n in nodes
    ensures n.span.spanId in NodeIds(nodes)
  {}

  lemma NodeIdsAppend(a: seq<SpanNode>, b: seq<SpanNode>)
    ensures NodeIds(a + b) == NodeIds(a) + NodeIds(b)
  {
    assert forall n :: n in a + b <==> n in a || n in b;
  }

  lemma BranchMembers(par: map<string, string>, ids: set<string>, n: SpanNode, w: seq<SpanNode>)
    requires n.span.spanId in ids && n.span.spanId != ""
    requires "" !in ids && NodeIds(w) == Descendants(par, ids, n.span.spanId)
    ensures forall m | m in [n] + w :: Under(par, m.span.spanId, n.span.spanId)
    ensures forall x | x in ids && Under(par, x, n.span.spanId) :: x in NodeIds([n] + w)
  {
    var c := n.span.spanId;
    forall m | m in [n] + w ensures Under(par, m.span.spanId, c) {
      if m == n {
        assert Up(par, c, 0) == c;
      } else {
        InNodeIds(w, m);
        var k: nat :| Up(par, Parent(par, m.span.spanId), k) == c;
        assert Up(par, m.span.spanId, k + 1) == c;
      }
    }
    forall x | x in ids && Under(par, x, c) ensures x in NodeIds([n] + w) {
      SelfOrUnder(par, x, c);
      NodeIdsAppend([n], w);
      InNodeIds([n], n);
      assert x != c ==> x in NodeIds(w);
    }
  }

  /** Nothing below a child of `p` is a child of `p`. */
  lemma BranchBelow(spans: seq<Span>, par: map<string, string>, c: string, w: seq<SpanNode>)
    requires c != "" && Rooted(par, c) && NodeIds(w) == Descendants(par, Ids(spans), c)
    requires forall m | m in w :: Placed(spans, par, m)
    ensures forall m | m in w :: m.treeParentId != Parent(par, c) && m.span.spanId != c
  {
    NotUnderItself(par, c);
    forall m | m in w ensures m.treeParentId != Parent(par, c) && m.span.spanId != c {
      InNodeIds(w, m);
    }
  }

  lemma BranchOrdered(n: SpanNode, w: seq<SpanNode>)
    requires DistinctNodes(w) && SiblingsInOrder(w)
    requires forall m | m in w :: m.treeParentId != n.treeParentId && m.span.spanId != n.span.spanId
    ensures DistinctNodes([n] + w) && SiblingsInOrder([n] + w)
  {}

  /** A node and the walk below it make a branch. */
  lemma BranchWalked(spans: seq<Span>, par: map<string, string>, n: SpanNode, w: seq<SpanNode>, p: string)
    requires ValidTrace(spans) && Rooted(par, p) && Placed(spans, par, n) && n.treeParentId == p
    requires Walked(spans, par, w, n.span.spanId)
    ensures WalkedKids(spans, par, [n] + w, p, [n.span])
  {
    var c := n.span.spanId;
    assert c in Ids(spans) && "" !in Ids(spans);
    LevelStep(par, c);
    PreorderBranch(n, w);
    BranchBelow(spans, par, c, w);
    BranchOrdered(n, w);
    assert CoversKids(par, Ids(spans), [n] + w, [n.span]) by {
      BranchMembers(par, Ids(spans), n, w);
      assert n.span in [n.span];
    }
  }

  /** Every node is in the branch of one of the children, and every such span is a node. */
  ghost predicate CoversKids(par: map<string, string>, ids: set<string>, nodes: seq<SpanNode>, kids: seq<Span>) {
    && (forall n | n in nodes :: InSomeBranch(par, n.span.spanId, kids))
    && (forall x | x in ids && InSomeBranch(par, x, kids) :: x in NodeIds(nodes))
  }

  ghost predicate InSomeBranch(par: map<string, string>, x: string, kids: seq<Span>) {
    exists k | k in kids :: Under(par, x, k.spanId)
  }

  lemma InBranchAppend(par: map<string, string>, x: string, kids: seq<Span>, more: seq<Span>)
    ensures InSomeBranch(par, x, kids + more) <==> InSomeBranch(par, x, kids) || InSomeBranch(par, x, more)
  {
    assert forall s :: s in kids + more <==> s in kids || s in more;
  }

  lemma AppendedKids(par: map<string, string>, ids: set<string>, a: seq<SpanNode>, b: seq<SpanNode>,
                     kids: seq<Span>, more: seq<Span>)
    requires CoversKids(par, ids, a, kids) && CoversKids(par, ids, b, more)
    ensures CoversKids(par, ids, a + b, kids + more)
  {
    NodeIdsAppend(a, b);
    forall x { InBranchAppend(par, x, kids, more); }
  }

  /** Appending the branch of one more child. */
  lemma AppendBranch(spans: seq<Span>, par: map<string, string>, a: seq<SpanNode>, b: seq<SpanNode>, p: string,
                     kids: seq<Span>, k: Span)
    requires ValidTrace(spans) && par.Keys == Ids(spans) && Rooted(par, p)
    requires WalkedKids(spans, par, a, p, kids) && WalkedKids(spans, par, b, p, [k])
    requires DistinctIds(kids + [k]) && InOrder(kids + [k])
    requires forall s | s in kids + [k] :: s in spans && par[s.spanId] == p
    ensures WalkedKids(spans, par, a + b, p, kids + [k])
  {
    PreorderAppend(a, b, p, Level(par, p));
    AppendedKids(par, Ids(spans), a, b, kids, [k]);
    forall m, n | m in a && n in b
      ensures m.span.spanId != n.span.spanId
      ensures m.treeParentId == n.treeParentId ==> m.span.start <= n.span.start
    {
      AcrossBranches(spans, par, m, n, p, kids, k);
    }
    AppendOrdered(a, b);
  }

  lemma AppendOrdered(a: seq<SpanNode>, b: seq<SpanNode>)
    requires DistinctNodes(a) && DistinctNodes(b) && SiblingsInOrder(a) && SiblingsInOrder(b)
    requires forall m, n | m in a && n in b ::
      m.span.spanId != n.span.spanId && (m.treeParentId == n.treeParentId ==> m.span.start <= n.span.start)
    ensures DistinctNodes(a + b) && SiblingsInOrder(a + b)
  {}

  lemma AcrossBranches(spans: seq<Span>, par: map<string, string>, m: SpanNode, n: SpanNode, p: string,
                       kids: seq<Span>, k: Span)
    requires ValidTrace(spans) && par.Keys == Ids(spans) && Rooted(par, p)
    requires Placed(spans, par, m) && Placed(spans, par, n)
    requires InSomeBranch(par, m.span.spanId, kids) && InSomeBranch(par, n.span.spanId, [k])
    requires DistinctIds(kids + [k]) && InOrder(kids + [k])
    requires forall s | s in kids + [k] :: s in spans && par[s.spanId] == p
    ensures m.span.spanId != n.span.spanId
    ensures m.treeParentId == n.treeParentId ==> m.span.start <= n.span.start
  {
    var s :| s in kids && Under(par, m.span.spanId, s.spanId);
    var i :| 0 <= i < |kids| && kids[i] == s;
    var all := kids + [k];
    assert all[i] == s && all[|kids|] == k && s in all && k in all;
    assert s.spanId in Ids(spans) && k.spanId in Ids(spans);
    if m.span.spanId == n.span.spanId {
      BranchesApart(par, m.span.spanId, s.spanId, k.spanId);
    }
    if m.treeParentId == n.treeParentId {
      SiblingsAcrossBranches(par, m.span.spanId, n.span.spanId, s.spanId, k.spanId);
      SpanOfId(spans, m.span, s);
      SpanOfId(spans, n.span, k);
    }
  }

  lemma KidsCoverDescendants(par: map<string, string>, ids: set<string>, nodes: seq<SpanNode>, p: string, kids: seq<Span>)
    requires Closed(par) && par.Keys == ids && NodeIds(nodes) <= ids
    requires forall k | k in kids :: k.spanId in ids && par[k.spanId] == p
    requires forall x | x in ids && par[x] == p :: exists k | k in kids :: k.spanId == x
    requires CoversKids(par, ids, nodes, kids)
    ensures NodeIds(nodes) == Descendants(par, ids, p)
  {
    forall x | x in NodeIds(nodes) ensures Under(par, Parent(par, x), p) {
      var n :| n in nodes && n.span.spanId == x;
      var k :| k in kids && Under(par, x, k.spanId);
      var m: nat :| Up(par, x, m) == k.spanId;
      UpAdds(par, x, m, 1);
      assert Up(par, k.spanId, 1) == p;
      assert Up(par, Parent(par, x), m) == p;
    }
    forall x | x in Descendants(par, ids, p) ensures InSomeBranch(par, x, kids) {
      var m: nat :| Up(par, Parent(par, x), m) == p;
      var c := BranchOf(par, x, m, p);
      var k :| k in kids && k.spanId == c;
    }
  }

  /** All children walked is the whole walk. */
  lemma AllKidsWalked(spans: seq<Span>, par: map<string, string>, nodes: seq<SpanNode>, p: string, kids: seq<Span>)
    requires ValidTrace(spans) && par.Keys == Ids(spans) && Closed(par) && Rooted(par, p)
    requires forall s :: s in kids <==> s in spans && par[s.spanId] == p
    requires WalkedKids(spans, par, nodes, p, kids)
    ensures Walked(spans, par, nodes, p)
  {
    forall x | x in Ids(spans) && par[x] == p ensures exists k | k in kids :: k.spanId == x {
      var s :| s in spans && s.spanId == x;
      assert s in kids;
    }
    WalkedIdsAreIds(spans, nodes);
    KidsCoverDescendants(par, Ids(spans), nodes, p, kids);
  }

  lemma KidsSorted(spans: seq<Span>, par: map<string, string>, byParent: map<string, seq<Span>>, p: string)
    requires Forest(spans, par, byParent)
    ensures var kids := SortByStart(Kids(byParent, p));
            && InOrder(kids) && DistinctIds(kids)
            && forall s :: s in kids <==> s in spans && par[s.spanId] == p
  {
    SortByStartSorts(Kids(byParent, p));
    DistinctMultiset(Kids(byParent, p), SortByStart(Kids(byParent, p)));
  }

  lemma AppendKid(spans: seq<Span>, par: map<string, string>, a: seq<SpanNode>, b: seq<SpanNode>, p: string,
                  kids: seq<Span>, i: nat)
    requires ValidTrace(spans) && par.Keys == Ids(spans) && Rooted(par, p) && i < |kids|
    requires InOrder(kids) && DistinctIds(kids) && forall s | s in kids :: s in spans && par[s.spanId] == p
    requires WalkedKids(spans, par, a, p, kids[..i]) && WalkedKids(spans, par, b, p, [kids[i]])
    ensures WalkedKids(spans, par, a + b, p, kids[..i + 1])
  {
    assert kids[..i] + [kids[i]] == kids[..i + 1];
    assert forall s | s in kids[..i + 1] :: s in kids;
    AppendBranch(spans, par, a, b, p, kids[..i], kids[i]);
  }

  /** The recursive walk below `parent`. */
  method Walk(ghost spans: seq<Span>, ghost par: map<string, string>, byParent: map<string, seq<Span>>,
              parent: string, depth: nat) returns (nodes: seq<SpanNode>)
    requires Forest(spans, par, byParent)
    requires Rooted(par, parent) && depth == Level(par, parent)
    ensures Walked(spans, par, nodes, parent)
    decreases Descendants(par, Ids(spans), parent), 1
  {
    var kids := SortByStart(Kids(byParent, parent));
    KidsSorted(spans, par, byParent, parent);
    nodes := [];
    assert WalkedKids(spans, par, nodes, parent, []);
    for i := 0 to |kids|
      invariant WalkedKids(spans, par, nodes, parent, kids[..i])
    {
      assert kids[i] in kids;
      var branch := WalkChild(spans, par, byParent, parent, kids[i], depth);
      AppendKid(spans, par, nodes, branch, parent, kids, i);
      nodes := nodes + branch;
    }
    assert kids[..|kids|] == kids;
    AllKidsWalked(spans, par, nodes, parent, kids);
  }

  /** One child and the walk below it. */
  method WalkChild(ghost spans: seq<Span>, ghost par: map<string, string>, byParent: map<string, seq<Span>>,
                   parent: string, c: Span, depth: nat) returns (branch: seq<SpanNode>)
    requires Forest(spans, par, byParent) && c in spans && par[c.spanId] == parent
    requires Rooted(par, parent) && depth == Level(par, parent)
    ensures WalkedKids(spans, par, branch, parent, [c])
    decreases Descendants(par, Ids(spans), parent), 0
  {
    assert c.spanId in Ids(spans);
    LevelStep(par, c.spanId);
    DescendantsOfChild(par, Ids(spans), c.spanId);
    var below := Walk(spans, par, byParent, c.spanId, depth + 1);
    var n := SpanNode(c, depth, parent);
    BranchWalked(spans, par, n, below, parent);
    branch := [n] + below;
  }

  /** Groups the spans under their tree parents, in input order. */
  method GroupByParent(spans: seq<Span>, par: map<string, string>) returns (byParent: map<string, seq<Span>>)
    requires ValidTrace(spans) && par.Keys == Ids(spans) && Closed(par)
    ensures Forest(spans, par, byParent)
  {
    byParent := map[];
    for i := 0 to |spans|
      invariant Grouped(spans[..i], par, byParent)
    {
      var s := spans[i];
      assert s in spans && s.spanId in Ids(spans);
      var key := par[s.spanId];
      ghost var before := byParent;
      var list := if key in byParent then byParent[key] else [];
      byParent := byParent[key := list + [s]];
      GroupNext(spans, i, par, before);
    }
    assert spans[..|spans|] == spans;
  }

  ghost predicate Grouped(done: seq<Span>, par: map<string, string>, byParent: map<string, seq<Span>>)
    requires forall s | s in done :: s.spanId in par
  {
    forall p :: DistinctIds(Kids(byParent, p)) &&
      forall s :: s in Kids(byParent, p) <==> s in done && par[s.spanId] == p
  }

  lemma GroupNext(spans: seq<Span>, i: nat, par: map<string, string>, byParent: map<string, seq<Span>>)
    requires ValidTrace(spans) && i < |spans| && par.Keys == Ids(spans)
    requires Grouped(spans[..i], par, byParent)
    ensures var key := par[spans[i].spanId];
            Grouped(spans[..i + 1], par, byParent[key := Kids(byParent, key) + [spans[i]]])
  {
    var s := spans[i];
    var key := par[s.spanId];
    var byParent' := byParent[key := Kids(byParent, key) + [s]];
    assert forall t :: t in spans[..i + 1] <==> t in spans[..i] || t == s;
    assert forall t | t in spans[..i] :: t.spanId != s.spanId;
    forall p
      ensures DistinctIds(Kids(byParent', p))
      ensures forall t :: t in Kids(byParent', p) <==> t in spans[..i + 1] && par[t.spanId] == p
    {
      assert Kids(byParent', p) == if p == key then Kids(byParent, p) + [s] else Kids(byParent, p);
      assert forall t | t in Kids(byParent, p) :: t in spans[..i];
    }
  }

  // ------------------------------------------------------------------ buildTree

  function SpansOf(nodes: seq<SpanNode>): (r: seq<Span>)
    ensures |r| == |nodes| && forall i | 0 <= i < |nodes| :: r[i] == nodes[i].span
  {
    seq(|nodes|, i requires 0 <= i < |nodes| => nodes[i].span)
  }

  /** Distinct ids and the same spans: a permutation. */
  lemma SameSpansPermute(a: seq<Span>, b: seq<Span>)
    requires DistinctIds(a) && DistinctIds(b) && forall s :: s in a <==> s in b
    ensures multiset(a) == multiset(b)
  {
    forall s ensures multiset(a)[s] == multiset(b)[s] {
      DistinctCount(a, s);
      DistinctCount(b, s);
      assert s in multiset(a) <==> s in a;
      assert s in multiset(b) <==> s in b;
    }
  }

  lemma {:induction false} DistinctSize(list: seq<Span>)
    requires DistinctIds(list)
    ensures |Ids(list)| == |list|
  {
    if list != [] {
      var n := |list| - 1;
      DistinctSize(list[..n]);
      assert list[..n + 1] == list;
      IdsOfPrefix(list, n);
      assert list[n].spanId !in Ids(list[..n]);
    }
  }

  lemma FullSubset(a: set<string>, b: set<string>)
    requires a <= b && |a| >= |b|
    ensures a == b
  {
    assert |b - a| == |b| - |a|;
  }

  lemma NodeIdsOfSpans(nodes: seq<SpanNode>)
    ensures NodeIds(nodes) == Ids(SpansOf(nodes))
  {
    forall n | n in nodes ensures n.span in SpansOf(nodes) {
      var i :| 0 <= i < |nodes| && nodes[i] == n;
      assert SpansOf(nodes)[i] == n.span;
    }
  }

  /** A walk that lists as many nodes as there are spans lists them all. */
  lemma FullWalk(spans: seq<Span>, nodes: seq<SpanNode>)
    requires ValidTrace(spans) && DistinctNodes(nodes) && (forall n | n in nodes :: n.span in spans)
    requires |nodes| >= |spans|
    ensures NodeIds(nodes) == Ids(spans)
  {
    NodeIdsOfSpans(nodes);
    DistinctSize(SpansOf(nodes));
    DistinctSize(spans);
    WalkedIdsAreIds(spans, nodes);
    FullSubset(NodeIds(nodes), Ids(spans));
  }

  lemma AllListedPermutes(spans: seq<Span>, nodes: seq<SpanNode>)
    requires ValidTrace(spans) && DistinctNodes(nodes) && (forall n | n in nodes :: n.span in spans)
    requires NodeIds(nodes) == Ids(spans)
    ensures multiset(SpansOf(nodes)) == multiset(spans)
  {
    var list := SpansOf(nodes);
    forall s | s in spans ensures s in list {
      assert s.spanId in NodeIds(nodes);
      var n :| n in nodes && n.span.spanId == s.spanId;
      SpanOfId(spans, n.span, s);
      var i :| 0 <= i < |nodes| && nodes[i] == n;
      assert list[i] == s;
    }
    SameSpansPermute(list, spans);
  }

  /** The walked nodes followed by those of the first `i` spans that were not walked. */
  ghost predicate Appended(spans: seq<Span>, i: nat, walked: seq<SpanNode>, out: seq<SpanNode>)
    requires i <= |spans|
  {
    && walked <= out && DistinctNodes(out)
    && NodeIds(out) == NodeIds(walked) + Ids(spans[..i])
    && (forall n | n in out :: n.span in spans)
    && (forall j | |walked| <= j < |out| :: IsLeftover(out[j], NodeIds(walked)))
  }

  predicate IsLeftover(n: SpanNode, seen: set<string>) {
    n.depth == 0 && n.treeParentId == "" && n.span.spanId !in seen
  }

  lemma AppendedSkip(spans: seq<Span>, i: nat, walked: seq<SpanNode>, out: seq<SpanNode>)
    requires i < |spans| && Appended(spans, i, walked, out) && spans[i].spanId in NodeIds(walked)
    ensures Appended(spans, i + 1, walked, out)
  {
    IdsOfPrefix(spans, i);
  }

  lemma AppendedNext(spans: seq<Span>, i: nat, walked: seq<SpanNode>, out: seq<SpanNode>)
    requires ValidTrace(spans) && i < |spans| && Appended(spans, i, walked, out)
    requires spans[i].spanId !in NodeIds(walked)
    ensures Appended(spans, i + 1, walked, out + [SpanNode(spans[i], 0, "")])
  {
    var n := SpanNode(spans[i], 0, "");
    IdsOfPrefix(spans, i);
    NodeIdsAppend(out, [n]);
    assert NodeIds([n]) == {n.span.spanId};
    assert n.span.spanId !in Ids(spans[..i]);
    forall m | m in out ensures m.span.spanId != n.span.spanId { InNodeIds(out, m); }
  }

  /** The first `i` spans whose ids are not among `seen`, in input order. */
  function Outside(spans: seq<Span>, i: nat, seen: set<string>): seq<Span>
    requires i <= |spans|
  {
    if i == 0 then []
    else Outside(spans, i - 1, seen) + if spans[i - 1].spanId in seen then [] else [spans[i - 1]]
  }

  lemma OutsideNext(spans: seq<Span>, i: nat, seen: set<string>, walked: seq<SpanNode>, out: seq<SpanNode>)
    requires i < |spans| && spans[i].spanId !in seen && |walked| <= |out|
    requires SpansOf(out[|walked|..]) == Outside(spans, i, seen)
    ensures SpansOf((out + [SpanNode(spans[i], 0, "")])[|walked|..]) == Outside(spans, i + 1, seen)
  {
    var n := SpanNode(spans[i], 0, "");
    assert (out + [n])[|walked|..] == out[|walked|..] + [n];
  }

  lemma {:induction false} NothingOutside(spans: seq<Span>, i: nat, seen: set<string>)
    requires i <= |spans| && Ids(spans) <= seen
    ensures Outside(spans, i, seen) == []
  {
    if i > 0 {
      assert spans[i - 1] in spans;
      NothingOutside(spans, i - 1, seen);
    }
  }

  /** The same, in input order. */
  ghost predicate Appending(spans: seq<Span>, i: nat, walked: seq<SpanNode>, out: seq<SpanNode>)
    requires i <= |spans|
  {
    Appended(spans, i, walked, out) && SpansOf(out[|walked|..]) == Outside(spans, i, NodeIds(walked))
  }

  lemma AppendingNext(spans: seq<Span>, i: nat, walked: seq<SpanNode>, out: seq<SpanNode>)
    requires ValidTrace(spans) && i < |spans| && Appending(spans, i, walked, out)
    ensures Appending(spans, i + 1, walked,
                      if spans[i].spanId in NodeIds(walked) then out else out + [SpanNode(spans[i], 0, "")])
  {
    if spans[i].spanId in NodeIds(walked) {
      AppendedSkip(spans, i, walked, out);
    } else {
      AppendedNext(spans, i, walked, out);
      OutsideNext(spans, i, NodeIds(walked), walked, out);
    }
  }

  /** Appends the spans whose ids are not among the nodes yet, at depth 0. */
  method AppendLeftovers(spans: seq<Span>, walked: seq<SpanNode>) returns (out: seq<SpanNode>)
    requires ValidTrace(spans) && DistinctNodes(walked) && (forall n | n in walked :: n.span in spans)
    ensures Appended(spans, |spans|, walked, out) && NodeIds(out) == Ids(spans)
    ensures SpansOf(out[|walked|..]) == Outside(spans, |spans|, NodeIds(walked))
  {
    var seen := NodeIds(walked);
    out := walked;
    for i := 0 to |spans|
      invariant Appending(spans, i, walked, out)
    {
      AppendingNext(spans, i, walked, out);
      if spans[i].spanId !in seen {
        out := out + [SpanNode(spans[i], 0, "")];
      }
    }
    assert spans[..|spans|] == spans;
    WalkedIdsAreIds(spans, walked);
  }

  lemma WalkedIdsAreIds(spans: seq<Span>, nodes: seq<SpanNode>)
    requires forall n | n in nodes :: n.span in spans
    ensures NodeIds(nodes) <= Ids(spans)
  {
    forall x | x in NodeIds(nodes) ensures x in Ids(spans) {
      var n :| n in nodes && n.span.spanId == x;
      assert n.span in spans;
    }
  }

  /** The tree parents of a trace, as a map. */
  ghost predicate TreeParents(spans: seq<Span>, par: map<string, string>) {
    par.Keys == Ids(spans) && Adopted(spans, |spans|, par)
  }

  lemma TreeParentsClosed(spans: seq<Span>, par: map<string, string>)
    requires ValidTrace(spans) && TreeParents(spans, par)
    ensures Closed(par)
  {
    forall x | x in par ensures par[x] == "" || par[x] in par {
      var s :| s in spans && s.spanId == x;
      var j :| 0 <= j < |spans| && spans[j] == s;
      TightestContainer(spans, s);
    }
  }

  /** The whole list: the walk from the roots, then whatever the walk could not reach. */
  method BuildTree(spans: seq<Span>) returns (out: seq<SpanNode>, ghost walked: nat, ghost par: map<string, string>)
    requires ValidTrace(spans)
    ensures TreeParents(spans, par) && walked <= |out|
    ensures multiset(SpansOf(out)) == multiset(spans)
    ensures Rooted(par, "") && Walked(spans, par, out[..walked], "")
    ensures forall i | walked <= i < |out| ::
      out[i].depth == 0 && out[i].treeParentId == "" && !Rooted(par, out[i].span.spanId)
    ensures SpansOf(out[walked..]) == Outside(spans, |spans|, NodeIds(out[..walked]))
  {
    var parentOf := FindParents(spans);
    par := parentOf;
    TreeParentsClosed(spans, par);
    var byParent := GroupByParent(spans, parentOf);
    LevelOfRoot(par);
    var nodes := Walk(spans, par, byParent, "", 0);
    walked := |nodes|;
    WalkReachesRooted(spans, par, nodes);
    out := Complete(spans, nodes);
    assert out[..walked] == nodes;
    LeftoversUnrooted(spans, par, nodes, out);
    AllListedPermutes(spans, out);
  }

  lemma LeftoversUnrooted(spans: seq<Span>, par: map<string, string>, nodes: seq<SpanNode>, out: seq<SpanNode>)
    requires Appended(spans, |spans|, nodes, out) && NodeIds(out) == Ids(spans)
    requires forall x | x in Ids(spans) :: x in NodeIds(nodes) <==> Rooted(par, x)
    ensures forall i | |nodes| <= i < |out| :: !Rooted(par, out[i].span.spanId)
  {
    forall i | |nodes| <= i < |out| ensures !Rooted(par, out[i].span.spanId) {
      InNodeIds(out, out[i]);
      assert IsLeftover(out[i], NodeIds(nodes));
    }
  }

  /** The walked nodes, and, when they are fewer than the spans, the spans they lack. */
  method Complete(spans: seq<Span>, walked: seq<SpanNode>) returns (out: seq<SpanNode>)
    requires ValidTrace(spans) && DistinctNodes(walked) && (forall n | n in walked :: n.span in spans)
    ensures Appended(spans, |spans|, walked, out) && NodeIds(out) == Ids(spans)
    ensures SpansOf(out[|walked|..]) == Outside(spans, |spans|, NodeIds(walked))
  {
    if |walked| < |spans| {
      out := AppendLeftovers(spans, walked);
    } else {
      out := walked;
      FullWalk(spans, walked);
      NothingOutside(spans, |spans|, NodeIds(walked));
      assert spans[..|spans|] == spans;
    }
  }

  /** The walk from the root reaches exactly the rooted spans. */
  lemma WalkReachesRooted(spans: seq<Span>, par: map<string, string>, nodes: seq<SpanNode>)
    requires ValidTrace(spans) && Rooted(par, "") && Walked(spans, par, nodes, "")
    ensures forall x | x in Ids(spans) :: x in NodeIds(nodes) <==> Rooted(par, x)
  {
    forall x | x in Ids(spans) ensures x in NodeIds(nodes) <==> Rooted(par, x) {
      LevelStep(par, x);
      assert x in NodeIds(nodes) <==> Under(par, Parent(par, x), "");
      assert Under(par, Parent(par, x), "") <==> Rooted(par, Parent(par, x));
    }
  }

  // ------------------------------------------------------- when nothing is left over

  function Longer(spans: seq<Span>, s: Span): set<Span> {
    set t | t in spans && t.durationMs > s.durationMs
  }

  /** The recorded parents alone, before adoption. */
  ghost predicate RecordedParents(spans: seq<Span>, rec: map<string, string>) {
    rec.Keys == Ids(spans) && Adopted(spans, 0, rec)
  }

  /** Following recorded parents always ends. */
  ghost predicate AllRooted(rec: map<string, string>) {
    forall x | x in rec :: Rooted(rec, x)
  }

  /** No span is longer than its recorded parent. */
  predicate ParentsNotShorter(spans: seq<Span>) {
    forall s, t | s in spans && t in spans && Recorded(spans, s) == t.spanId :: t.durationMs >= s.durationMs
  }

  lemma ParentOfSpan(spans: seq<Span>, rec: map<string, string>, par: map<string, string>, s: Span)
    requires RecordedParents(spans, rec) && TreeParents(spans, par) && s in spans
    ensures s.spanId in rec && s.spanId in par
    ensures rec[s.spanId] == Recorded(spans, s) && par[s.spanId] == TreeParent(spans, s)
  {
    var j :| 0 <= j < |spans| && spans[j] == s;
  }

  /** A step to the tree parent goes to a longer span, or to the recorded parent. */
  lemma ParentStep(spans: seq<Span>, rec: map<string, string>, par: map<string, string>, s: Span) returns (t: Span)
    requires ValidTrace(spans) && RecordedParents(spans, rec) && TreeParents(spans, par) && ParentsNotShorter(spans)
    requires s in spans && TreeParent(spans, s) != ""
    ensures s.spanId in rec && s.spanId in par && t in spans && t.spanId == par[s.spanId]
    ensures t.durationMs > s.durationMs || (t.durationMs == s.durationMs && t.spanId == rec[s.spanId])
  {
    ParentOfSpan(spans, rec, par, s);
    if Recorded(spans, s) != "" {
      t :| t in spans && t.spanId == Recorded(spans, s);
    } else {
      TightestContainer(spans, s);
      t := Tightest(spans, s).value;
    }
  }

  lemma LongerShrinks(spans: seq<Span>, s: Span, t: Span)
    requires t in spans && t.durationMs >= s.durationMs
    ensures Longer(spans, t) <= Longer(spans, s)
    ensures t.durationMs > s.durationMs ==> Longer(spans, t) < Longer(spans, s)
  {
    assert t !in Longer(spans, t);
    assert t.durationMs > s.durationMs ==> t in Longer(spans, s);
  }

  lemma {:induction false} RootedAfterAdoption(spans: seq<Span>, rec: map<string, string>, par: map<string, string>, s: Span)
    requires ValidTrace(spans) && RecordedParents(spans, rec) && TreeParents(spans, par) && ParentsNotShorter(spans)
    requires s in spans && AllRooted(rec)
    ensures Rooted(par, s.spanId)
    decreases Longer(spans, s), Level(rec, s.spanId)
  {
    ParentOfSpan(spans, rec, par, s);
    LevelStep(par, s.spanId);
    LevelStep(rec, s.spanId);
    if TreeParent(spans, s) == "" {
      LevelOfRoot(par);
    } else {
      var t := ParentStep(spans, rec, par, s);
      LongerShrinks(spans, s, t);
      assert t.spanId in Ids(spans);
      RootedAfterAdoption(spans, rec, par, t);
    }
  }

  /** If recorded parents form no cycle and are never shorter than their children, adoption
      closes none, so the walk reaches every span. */
  lemma NothingLeftOver(spans: seq<Span>, rec: map<string, string>, par: map<string, string>)
    requires ValidTrace(spans) && RecordedParents(spans, rec) && TreeParents(spans, par) && ParentsNotShorter(spans)
    requires AllRooted(rec)
    ensures forall s | s in spans :: Rooted(par, s.spanId)
  {
    forall s | s in spans ensures Rooted(par, s.spanId) {
      assert s.spanId in rec;
      RootedAfterAdoption(spans, rec, par, s);
    }
  }

  // -------------------------------------------------- exactly when nothing is left over

  /** The last of the recorded ancestors of `x`. */
  ghost function Top(rec: map<string, string>, x: string): (top: string)
    requires Closed(rec) && x in rec && Rooted(rec, x)
    ensures top in rec && rec[top] == ""
    decreases Level(rec, x)
  {
    LevelStep(rec, x);
    if rec[x] == "" then x else Top(rec, rec[x])
  }

  ghost function SpanById(spans: seq<Span>, x: string): (s: Span)
    requires x in Ids(spans)
    ensures s in spans && s.spanId == x
  {
    var s :| s in spans && s.spanId == x;
    s
  }

  lemma RecordedClosed(spans: seq<Span>, rec: map<string, string>)
    requires ValidTrace(spans) && RecordedParents(spans, rec)
    ensures Closed(rec)
  {
    forall x | x in rec ensures rec[x] == "" || rec[x] in rec {
      var s := SpanById(spans, x);
      var j :| 0 <= j < |spans| && spans[j] == s;
    }
  }

  /** Where the adoption of a span without recorded parent leads: to the last recorded ancestor
      of its tightest container, or nowhere. */
  ghost function Hop(spans: seq<Span>, rec: map<string, string>, x: string): (y: string)
    requires ValidTrace(spans) && RecordedParents(spans, rec) && AllRooted(rec) && x in rec
    ensures y == "" || (y in rec && rec[y] == "")
  {
    RecordedClosed(spans, rec);
    TightestContainer(spans, SpanById(spans, x));
    match Tightest(spans, SpanById(spans, x))
    case None => ""
    case Some(c) => Top(rec, c.spanId)
  }

  /** The hops of all spans without recorded parent, read off the input. */
  ghost function Hops(spans: seq<Span>, rec: map<string, string>): (hops: map<string, string>)
    requires ValidTrace(spans) && RecordedParents(spans, rec) && AllRooted(rec)
  {
    map x | x in rec && rec[x] == "" :: Hop(spans, rec, x)
  }

  /** The tree parent of a span: its recorded parent, or, without one, a span whose last
      recorded ancestor is the hop, or none when there is no hop. */
  lemma ParentOrHop(spans: seq<Span>, rec: map<string, string>, par: map<string, string>, x: string)
    requires ValidTrace(spans) && RecordedParents(spans, rec) && TreeParents(spans, par) && AllRooted(rec)
    requires x in rec && Closed(rec)
    ensures x in par && x != ""
    ensures rec[x] != "" ==> par[x] == rec[x] && rec[x] in rec
    ensures rec[x] == "" ==> Top(rec, x) == x && x in Hops(spans, rec)
    ensures rec[x] == "" && par[x] == "" ==> Hops(spans, rec)[x] == ""
    ensures rec[x] == "" && par[x] != "" ==> par[x] in rec && Hops(spans, rec)[x] == Top(rec, par[x])
  {
    var s := SpanById(spans, x);
    ParentOfSpan(spans, rec, par, s);
    TightestContainer(spans, s);
  }

  lemma {:induction false} RecordedIfRooted(spans: seq<Span>, rec: map<string, string>, par: map<string, string>, x: string)
    requires ValidTrace(spans) && RecordedParents(spans, rec) && TreeParents(spans, par)
    requires x in rec && Rooted(par, x)
    ensures Rooted(rec, x)
    decreases Level(par, x)
  {
    ParentOfSpan(spans, rec, par, SpanById(spans, x));
    RecordedClosed(spans, rec);
    LevelStep(par, x);
    LevelStep(rec, x);
    if rec[x] == "" {
      LevelOfRoot(rec);
    } else {
      RecordedIfRooted(spans, rec, par, rec[x]);
    }
  }

  lemma {:induction false} RootedIfHops(spans: seq<Span>, rec: map<string, string>, par: map<string, string>, x: string)
    requires ValidTrace(spans) && RecordedParents(spans, rec) && TreeParents(spans, par) && AllRooted(rec)
    requires Closed(rec) && x in rec && Rooted(Hops(spans, rec), Top(rec, x))
    ensures Rooted(par, x)
    decreases Level(Hops(spans, rec), Top(rec, x)), Level(rec, x)
  {
    var hops := Hops(spans, rec);
    ParentOrHop(spans, rec, par, x);
    LevelStep(par, x);
    LevelStep(rec, x);
    LevelStep(hops, Top(rec, x));
    if par[x] == "" {
      LevelOfRoot(par);
    } else {
      RootedIfHops(spans, rec, par, par[x]);
    }
  }

  lemma {:induction false} HopsIfRooted(spans: seq<Span>, rec: map<string, string>, par: map<string, string>, x: string)
    requires ValidTrace(spans) && RecordedParents(spans, rec) && TreeParents(spans, par) && AllRooted(rec)
    requires Closed(rec) && x in rec && Rooted(par, x)
    ensures Rooted(Hops(spans, rec), Top(rec, x))
    decreases Level(par, x)
  {
    var hops := Hops(spans, rec);
    ParentOrHop(spans, rec, par, x);
    LevelStep(par, x);
    if par[x] == "" {
      LevelStep(hops, x);
      LevelOfRoot(hops);
    } else {
      HopsIfRooted(spans, rec, par, par[x]);
      if rec[x] == "" { LevelStep(hops, x); }
    }
  }

  /** Nothing is left over exactly when following recorded parents always ends, and so does
      following, from every span without a recorded parent, its hops. */
  lemma NothingLeftOverIff(spans: seq<Span>, rec: map<string, string>, par: map<string, string>)
    requires ValidTrace(spans) && RecordedParents(spans, rec) && TreeParents(spans, par)
    ensures (forall s | s in spans :: Rooted(par, s.spanId))
      <==> AllRooted(rec) && forall x | x in Hops(spans, rec) :: Rooted(Hops(spans, rec), x)
  {
    RecordedClosed(spans, rec);
    assert forall s | s in spans :: s.spanId in rec;
    if forall s | s in spans :: Rooted(par, s.spanId) {
      forall x | x in rec ensures Rooted(par, x) && Rooted(rec, x) {
        assert Rooted(par, SpanById(spans, x).spanId);
        RecordedIfRooted(spans, rec, par, x);
      }
      forall x | x in Hops(spans, rec) ensures Rooted(Hops(spans, rec), x) {
        HopsIfRooted(spans, rec, par, x);
      }
    } else if AllRooted(rec) && forall x | x in Hops(spans, rec) :: Rooted(Hops(spans, rec), x) {
      forall s | s in spans ensures Rooted(par, s.spanId) {
        assert Top(rec, s.spanId) in Hops(spans, rec);
        RootedIfHops(spans, rec, par, s.spanId);
      }
    }
  }

  /** The only span without a recorded parent. */
  ghost predicate OnlyRoot(spans: seq<Span>, r: Span) {
    r in spans && forall s | s in spans :: Recorded(spans, s) == "" <==> s == r
  }

  lemma OnlyOrphan(spans: seq<Span>, rec: map<string, string>, r: Span)
    requires ValidTrace(spans) && RecordedParents(spans, rec) && OnlyRoot(spans, r)
    ensures r.spanId in rec && Closed(rec) && forall x | x in rec :: rec[x] == "" <==> x == r.spanId
  {
    RecordedClosed(spans, rec);
    assert r.spanId in Ids(spans);
    forall x | x in rec ensures rec[x] == "" <==> x == r.spanId {
      var s := SpanById(spans, x);
      var j :| 0 <= j < |spans| && spans[j] == s;
      if x == r.spanId { SpanOfId(spans, s, r); }
    }
  }

  lemma OneRootOneHop(spans: seq<Span>, rec: map<string, string>, r: Span)
    requires ValidTrace(spans) && RecordedParents(spans, rec) && AllRooted(rec) && OnlyRoot(spans, r)
    ensures forall x | x in rec && rec[x] == "" :: x == r.spanId
    ensures Hops(spans, rec).Keys == {r.spanId}
    ensures Hops(spans, rec)[r.spanId] == if exists c | c in spans :: Contains(c, r) then r.spanId else ""
  {
    OnlyOrphan(spans, rec, r);
    HopOfRoot(spans, rec, r);
  }

  lemma HopOfRoot(spans: seq<Span>, rec: map<string, string>, r: Span)
    requires ValidTrace(spans) && RecordedParents(spans, rec) && AllRooted(rec) && r in spans && r.spanId in rec
    requires forall x | x in rec :: rec[x] == "" <==> x == r.spanId
    ensures Hop(spans, rec, r.spanId) == if exists c | c in spans :: Contains(c, r) then r.spanId else ""
  {
    TightestContainer(spans, r);
    SpanOfId(spans, SpanById(spans, r.spanId), r);
  }

  lemma SelfHopNeverEnds(hops: map<string, string>, x: string)
    requires x != "" && x in hops
    ensures hops[x] == x ==> !Rooted(hops, x)
    ensures hops[x] == "" ==> Rooted(hops, x)
  {
    LevelStep(hops, x);
    LevelOfRoot(hops);
  }

  /** A trace with one root and no recorded cycle: nothing is left over exactly when no span
      contains the root, and otherwise everything is. */
  lemma OneRootIff(spans: seq<Span>, rec: map<string, string>, par: map<string, string>, r: Span)
    requires ValidTrace(spans) && RecordedParents(spans, rec) && TreeParents(spans, par) && AllRooted(rec)
    requires OnlyRoot(spans, r)
    ensures (forall s | s in spans :: Rooted(par, s.spanId)) <==> forall c | c in spans :: !Contains(c, r)
    ensures (exists c | c in spans :: Contains(c, r)) ==> forall s | s in spans :: !Rooted(par, s.spanId)
  {
    RecordedClosed(spans, rec);
    NothingLeftOverIff(spans, rec, par);
    OneRootOneHop(spans, rec, r);
    var hops := Hops(spans, rec);
    SelfHopNeverEnds(hops, r.spanId);
    forall s | s in spans ensures Rooted(par, s.spanId) ==> Rooted(hops, r.spanId) {
      assert s.spanId in rec && Top(rec, s.spanId) == r.spanId;
      if Rooted(par, s.spanId) { HopsIfRooted(spans, rec, par, s.spanId); }
    }
  }

  /** The durations matter: a root shorter than its own recorded child is adopted by it, and
      neither is reached by the walk although the recorded parents form no cycle. */
  lemma AdoptionCanCloseACycle(a: Span, b: Span, par: map<string, string>)
    requires a.spanId == "a" && a.parentSpanId == "" && b.spanId == "b" && b.parentSpanId == "a"
    requires Contains(b, a) && TreeParents([a, b], par)
    ensures ValidTrace([a, b]) && !Rooted(par, "a") && !Rooted(par, "b")
  {
    var spans := [a, b];
    assert spans[0] == a && spans[1] == b;
    assert a in spans && b in spans;
    assert "a" in Ids(spans) && "" !in Ids(spans);
    TightestContainer(spans, a);
    assert par["a"] == "b" && par["b"] == "a";
    if Rooted(par, "a") {
      LevelStep(par, "a");
      LevelStep(par, "b");
    }
    if Rooted(par, "b") {
      LevelStep(par, "a");
      LevelStep(par, "b");
    }
  }
}
