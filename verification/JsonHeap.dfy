/** JSON objects as the agent holds them: maps that are changed in place.  Setting a nested
    value by walking pointers does to the document what `SetNested` does to a value. */
module JsonHeap {
  import opened Options
  import opened MergePatch
  import opened FieldPaths

  class JsonObject {
    var members: map<string, Node>

    constructor ()
      ensures members == map[]
    {
      members := map[];
    }

    method Put(k: string, n: Node, ghost h: Heap) returns (ghost h': Heap)
      requires this in h && Mirrors(h)
      modifies this
      ensures h' == Hung(h, this, k, n) && Mirrors(h')
    {
      members := members[k := n];
      h' := Hung(h, this, k, n);
    }
  }

  /** What a map entry holds: a value that is not an object, or a reference to one. */
  datatype Node = Flat(value: Json) | Ref(o: JsonObject)

  /** Which objects hang where below a node. */
  datatype Shape = Leaf(value: Json) | Branch(o: JsonObject, kids: map<string, Shape>)

  ghost function NodeOf(t: Shape): Node {
    match t
    case Leaf(v) => Flat(v)
    case Branch(o, _) => Ref(o)
  }

  ghost function Objects(t: Shape): set<JsonObject> {
    match t
    case Leaf(_) => {}
    case Branch(o, kids) => {o} + set k, x | k in kids && x in Objects(kids[k]) :: x
  }

  /** No object hangs in two places. */
  ghost predicate Separate(t: Shape) {
    t.Branch? ==>
      && (forall k | k in t.kids :: t.o !in Objects(t.kids[k]) && Separate(t.kids[k]))
      && (forall k, l | k in t.kids && l in t.kids && k != l :: Objects(t.kids[k]) !! Objects(t.kids[l]))
  }

  /** What objects hold. */
  type Heap = map<JsonObject, map<string, Node>>

  /** The objects hold what `h` says. */
  ghost predicate Mirrors(h: Heap)
    reads h.Keys
  {
    forall o | o in h :: o.members == h[o]
  }

  /** In `h`, objects refer to each other as the shape says. */
  ghost predicate Holds(t: Shape, h: Heap) {
    match t
    case Leaf(v) => !v.Obj?
    case Branch(o, kids) =>
      && o in h && h[o].Keys == kids.Keys
      && forall k | k in kids :: h[o][k] == NodeOf(kids[k]) && Holds(kids[k], h)
  }

  /** The document a shape stands for. */
  ghost function Contents(t: Shape): Json {
    match t
    case Leaf(v) => v
    case Branch(_, kids) => Obj(map k | k in kids :: Contents(kids[k]))
  }

  /** Every step of `q` leads to an object. */
  ghost predicate Passes(t: Shape, q: Path)
    decreases |q|
  {
    t.Branch? && (q != [] ==> q[0] in t.kids && Passes(t.kids[q[0]], q[1..]))
  }

  ghost function End(t: Shape, q: Path): (r: Shape)
    requires Passes(t, q)
    ensures r.Branch?
    decreases |q|
  {
    if q == [] then t else End(t.kids[q[0]], q[1..])
  }

  /** The shape after `s` is hung under key `k` of the object at `q`. */
  ghost function Grown(t: Shape, q: Path, k: string, s: Shape): (r: Shape)
    requires Passes(t, q)
    ensures r.Branch? && r.o == t.o
    decreases |q|
  {
    Branch(t.o, if q == [] then t.kids[k := s] else t.kids[q[0] := Grown(t.kids[q[0]], q[1..], k, s)])
  }

  lemma {:induction false} GrownSeparate(t: Shape, q: Path, k: string, s: Shape)
    requires Passes(t, q) && Separate(t) && Separate(s) && Objects(s) !! Objects(t)
    ensures Separate(Grown(t, q, k, s))
    ensures Objects(Grown(t, q, k, s)) <= Objects(t) + Objects(s)
    decreases |q|
  {
    if q != [] { GrownSeparate(t.kids[q[0]], q[1..], k, s); }
  }

  lemma {:induction false} GrownContents(t: Shape, q: Path, k: string, s: Shape)
    requires Passes(t, q)
    ensures Contents(Grown(t, q, k, s)) == SetNested(Contents(t), q + [k], Contents(s))
    decreases |q|
  {
    if q == [] {
      assert q + [k] == [k];
    } else {
      GrownContents(t.kids[q[0]], q[1..], k, s);
      assert (q + [k])[1..] == q[1..] + [k];
    }
  }

  lemma {:induction false} GrownPasses(t: Shape, q: Path, k: string, s: Shape)
    requires Passes(t, q) && s.Branch?
    ensures Passes(Grown(t, q, k, s), q + [k]) && End(Grown(t, q, k, s), q + [k]) == s
    decreases |q|
  {
    if q == [] {
      assert (q + [k])[1..] == [];
    } else {
      GrownPasses(t.kids[q[0]], q[1..], k, s);
      assert (q + [k])[1..] == q[1..] + [k];
    }
  }

  lemma KidIn(t: Shape, k: string)
    requires t.Branch? && k in t.kids
    ensures Objects(t.kids[k]) <= Objects(t)
  {}

  lemma {:induction false} EndIs(t: Shape, q: Path, h: Heap)
    requires Passes(t, q) && Holds(t, h)
    ensures End(t, q).o in Objects(t) && Holds(End(t, q), h)
    decreases |q|
  {
    if q != [] { EndIs(t.kids[q[0]], q[1..], h); }
  }

  /** One more step from where a path of objects ends. */
  lemma {:induction false} OneMoreStep(t: Shape, q: Path, k: string)
    requires Passes(t, q) && k in End(t, q).kids
    ensures Get(Contents(t), q + [k]) == Some(Contents(End(t, q).kids[k]))
    ensures End(t, q).kids[k].Branch? ==> Passes(t, q + [k]) && End(t, q + [k]) == End(t, q).kids[k]
    decreases |q|
  {
    if q == [] {
      assert (q + [k])[1..] == [];
      assert Get(Contents(t.kids[k]), []) == Some(Contents(t.kids[k]));
    } else {
      OneMoreStep(t.kids[q[0]], q[1..], k);
      assert (q + [k])[1..] == q[1..] + [k];
    }
  }

  lemma {:induction false} NoStep(t: Shape, q: Path, k: string)
    requires Passes(t, q) && k !in End(t, q).kids
    ensures Get(Contents(t), q + [k]) == None
    decreases |q|
  {
    if q == [] {
      assert q + [k] == [k];
    } else {
      NoStep(t.kids[q[0]], q[1..], k);
      assert (q + [k])[1..] == q[1..] + [k];
    }
  }

  lemma {:induction false} ObjectsIn(t: Shape, h: Heap)
    requires Holds(t, h)
    ensures Objects(t) <= h.Keys
  {
    if t.Branch? {
      forall k | k in t.kids ensures Objects(t.kids[k]) <= h.Keys { ObjectsIn(t.kids[k], h); }
    }
  }

  lemma {:induction false} HoldsElsewhere(t: Shape, h: Heap, h': Heap)
    requires Holds(t, h) && forall o | o in Objects(t) :: o in h && o in h' && h'[o] == h[o]
    ensures Holds(t, h')
  {
    if t.Branch? {
      forall k | k in t.kids ensures Holds(t.kids[k], h') {
        KidIn(t, k);
        HoldsElsewhere(t.kids[k], h, h');
      }
    }
  }

  function Hung(h: Heap, o: JsonObject, k: string, n: Node): Heap
    requires o in h
  {
    h[o := h[o][k := n]]
  }

  /** A kid that the write does not reach. */
  lemma OtherKid(t: Shape, q: Path, l: string, h: Heap, h': Heap)
    requires t.Branch? && Passes(t, q) && Separate(t) && Holds(t, h) && l in t.kids && (q != [] ==> l != q[0])
    requires forall o | o in h && o != End(t, q).o :: o in h' && h'[o] == h[o]
    ensures Holds(t.kids[l], h')
  {
    ObjectsIn(t.kids[l], h);
    if q != [] { EndIs(t.kids[q[0]], q[1..], h); }
    HoldsElsewhere(t.kids[l], h, h');
  }

  lemma EndBelow(t: Shape, q: Path, h: Heap)
    requires q != [] && Passes(t, q) && Separate(t) && Holds(t, h)
    ensures t.o != End(t, q).o
  {
    EndIs(t.kids[q[0]], q[1..], h);
  }

  lemma KidsHold(t: Shape, q: Path, here: string, s: Shape, h: Heap, h': Heap)
    requires Passes(t, q) && Separate(t) && Holds(t, h) && (q != [] ==> here == q[0])
    requires forall o | o in h && o != End(t, q).o :: o in h' && h'[o] == h[o]
    requires Holds(s, h')
    requires t.o in h' && h'[t.o] == h[t.o][here := NodeOf(s)]
    ensures Holds(Branch(t.o, t.kids[here := s]), h')
  {
    forall l | l in t.kids && l != here ensures Holds(t.kids[l], h') {
      OtherKid(t, q, l, h, h');
    }
  }

  lemma WriteHere(t: Shape, k: string, s: Shape, h: Heap)
    requires t.Branch? && Separate(t) && Holds(t, h) && Holds(s, h) && Objects(s) !! Objects(t)
    ensures Holds(Branch(t.o, t.kids[k := s]), Hung(h, t.o, k, NodeOf(s)))
  {
    var h' := Hung(h, t.o, k, NodeOf(s));
    ObjectsIn(s, h);
    HoldsElsewhere(s, h, h');
    KidsHold(t, [], k, s, h, h');
  }

  lemma WriteBelow(t: Shape, q: Path, g: Shape, h: Heap, h': Heap)
    requires q != [] && Passes(t, q) && Separate(t) && Holds(t, h) && Holds(g, h')
    requires NodeOf(g) == NodeOf(t.kids[q[0]])
    requires forall o | o in h && o != End(t, q).o :: o in h' && h'[o] == h[o]
    ensures Holds(Branch(t.o, t.kids[q[0] := g]), h')
  {
    EndBelow(t, q, h);
    KidsHold(t, q, q[0], g, h, h');
  }

  /** One write to one object makes the shape grow as `Grown` says. */
  lemma {:induction false} WriteHolds(t: Shape, q: Path, k: string, s: Shape, h: Heap)
    requires Passes(t, q) && Separate(t) && Holds(t, h) && Holds(s, h) && Objects(s) !! Objects(t)
    ensures End(t, q).o in h
    ensures Holds(Grown(t, q, k, s), Hung(h, End(t, q).o, k, NodeOf(s)))
    decreases |q|
  {
    if q == [] {
      WriteHere(t, k, s, h);
    } else {
      KidIn(t, q[0]);
      WriteHolds(t.kids[q[0]], q[1..], k, s, h);
      WriteBelow(t, q, Grown(t.kids[q[0]], q[1..], k, s), h, Hung(h, End(t, q).o, k, NodeOf(s)));
    }
  }

  /** Putting an empty object on the way does not change what is set below it. */
  lemma {:induction false} EmptyOnTheWay(x: Json, q: Path, k: string, rest: Path, v: Json)
    requires x.Obj? && rest != []
    requires Get(x, q + [k]).Some? ==> !Get(x, q + [k]).value.Obj?
    ensures SetNested(SetNested(x, q + [k], EMPTY), q + [k] + rest, v) == SetNested(x, q + [k] + rest, v)
    decreases |q|
  {
    if q == [] {
      EmptyHere(x, k, rest, v);
      assert q + [k] == [k] && q + [k] + rest == [k] + rest;
    } else {
      var a, r := q[0], q[1..];
      var next := if At(x, a).Obj? then At(x, a) else EMPTY;
      assert q + [k] == [a] + (r + [k]);
      assert q + [k] + rest == [a] + (r + [k] + rest);
      assert ([a] + (r + [k]))[1..] == r + [k];
      EmptyOnTheWay(next, r, k, rest, v);
      SetNestedStep(x, a, r + [k], EMPTY);
      SetNestedStep(x, a, r + [k] + rest, v);
      SetNestedStep(SetNested(x, q + [k], EMPTY), a, r + [k] + rest, v);
    }
  }

  lemma SetNestedStep(x: Json, a: string, p: Path, v: Json)
    requires x.Obj? && p != []
    ensures SetNested(x, [a] + p, v) == Obj(x.m[a := SetNested(if At(x, a).Obj? then At(x, a) else EMPTY, p, v)])
  {
    assert ([a] + p)[1..] == p;
  }

  lemma EmptyHere(x: Json, k: string, rest: Path, v: Json)
    requires x.Obj? && rest != []
    requires Get(x, [k]).Some? ==> !Get(x, [k]).value.Obj?
    ensures SetNested(SetNested(x, [k], EMPTY), [k] + rest, v) == SetNested(x, [k] + rest, v)
  {
    assert ([k] + rest)[1..] == rest;
    assert SetNested(x, [k], EMPTY) == Obj(x.m[k := EMPTY]);
    assert Has(x, k) ==> Get(x, [k]) == Get(x.m[k], []) == Some(x.m[k]);
    var y := Obj(x.m[k := EMPTY]);
    assert SetNested(y, [k] + rest, v) == Obj(y.m[k := SetNested(EMPTY, rest, v)]);
  }

  /** A tree of objects, held by `h`. */
  ghost predicate Tree(t: Shape, h: Heap) {
    Separate(t) && Holds(t, h)
  }

  /** Hanging a tree at the end of the path. */
  lemma HangLast(t: Shape, q: Path, k: string, v: Shape, h: Heap)
    requires Passes(t, q) && Tree(t, h) && Tree(v, h) && Objects(v) !! Objects(t)
    ensures End(t, q).o in h && End(t, q).o in Objects(t)
    ensures Tree(Grown(t, q, k, v), Hung(h, End(t, q).o, k, NodeOf(v)))
    ensures Contents(Grown(t, q, k, v)) == SetNested(Contents(t), q + [k], Contents(v))
  {
    EndIs(t, q, h);
    GrownSeparate(t, q, k, v);
    GrownContents(t, q, k, v);
    WriteHolds(t, q, k, v, h);
  }

  /** Hanging a new empty object on the way. */
  lemma HangNew(t: Shape, q: Path, k: string, rest: Path, v: Json, h: Heap, next: JsonObject)
    requires rest != [] && next !in h && Passes(t, q) && Tree(t, h)
    requires var o := End(t, q).o; o in h && (k in h[o] ==> h[o][k].Flat?)
    ensures var o, s := End(t, q).o, Branch(next, map[]); var t' := Grown(t, q, k, s);
            && Tree(t', Hung(h[next := map[]], o, k, Ref(next)))
            && Objects(t') <= Objects(t) + {next}
            && Passes(t', q + [k]) && End(t', q + [k]) == s
            && SetNested(Contents(t'), q + [k] + rest, v) == SetNested(Contents(t), q + [k] + rest, v)
  {
    var s, wider := Branch(next, map[]), h[next := map[]];
    NothingThere(t, q, k, h);
    ObjectsIn(t, h);
    HoldsElsewhere(t, h, wider);
    HangLast(t, q, k, s, wider);
    GrownSeparate(t, q, k, s);
    GrownPasses(t, q, k, s);
    EmptyOnTheWay(Contents(t), q, k, rest, v);
  }

  /** Trees held by different parts of the heap, and one hung in the other. */
  lemma TreesApart(t: Shape, h: Heap, s: Shape, hs: Heap)
    requires Tree(t, h) && Tree(s, hs) && h.Keys !! hs.Keys
    ensures Tree(t, h + hs) && Tree(s, h + hs) && Objects(s) !! Objects(t)
    ensures Objects(t) <= h.Keys
  {
    ObjectsIn(t, h);
    ObjectsIn(s, hs);
    HoldsElsewhere(t, h, h + hs);
    HoldsElsewhere(s, hs, h + hs);
  }

  /** Nothing is gone, and only what may change has changed. */
  ghost predicate Spares(h: Heap, h': Heap, may: set<JsonObject>) {
    h.Keys <= h'.Keys && forall o | o in h && o !in may :: h'[o] == h[o]
  }

  ghost predicate Within(t: Shape, h: Heap, t': Shape, h': Heap) {
    Spares(h, h', Objects(t)) && Objects(t') <= Objects(t) + (h'.Keys - h.Keys)
  }

  /** The walk along `path` that began at the root of `t` has come to `cur`; objects made on
      the way do not change what remains to be set. */
  ghost predicate Walk(t: Shape, h: Heap, t': Shape, h': Heap, q: Path, cur: JsonObject, path: Path, v: Json)
    requires t.Branch?
  {
    && t'.Branch? && t'.o == t.o && Tree(t', h')
    && Within(t, h, t', h')
    && Passes(t', q) && End(t', q).o == cur
    && SetNested(Contents(t'), path, v) == SetNested(Contents(t), path, v)
  }

  lemma WalkIsAt(t: Shape, h: Heap, t': Shape, h': Heap, q: Path, cur: JsonObject, path: Path, v: Json)
    requires t.Branch? && Walk(t, h, t', h', q, cur, path, v)
    ensures cur in h' && (cur in Objects(t) || cur in h'.Keys - h.Keys)
  {
    EndIs(t', q, h');
  }

  lemma WalkOn(t: Shape, h: Heap, t': Shape, h': Heap, q: Path, k: string, cur: JsonObject, path: Path, v: Json)
    requires t.Branch? && Walk(t, h, t', h', q, cur, path, v)
    requires cur in h' && k in h'[cur] && h'[cur][k].Ref?
    ensures Walk(t, h, t', h', q + [k], h'[cur][k].o, path, v)
  {
    EndIs(t', q, h');
    OneMoreStep(t', q, k);
  }

  lemma WalkNew(t: Shape, h: Heap, t': Shape, h': Heap, q: Path, k: string, rest: Path, cur: JsonObject,
                v: Json, next: JsonObject)
    requires t.Branch? && rest != [] && Walk(t, h, t', h', q, cur, q + [k] + rest, v)
    requires cur in h' && (k in h'[cur] ==> h'[cur][k].Flat?) && next !in h'
    ensures Walk(t, h, Grown(t', q, k, Branch(next, map[])), Hung(h'[next := map[]], cur, k, Ref(next)),
                 q + [k], next, q + [k] + rest, v)
  {
    EndIs(t', q, h');
    HangNew(t', q, k, rest, v, h', next);
    var g, hg := Grown(t', q, k, Branch(next, map[])), Hung(h'[next := map[]], cur, k, Ref(next));
    assert Within(t, h, g, hg) by {
      WithinNew(t, h, t', h', g, k, cur, next);
    }
  }

  lemma WithinNew(t: Shape, h: Heap, t': Shape, h': Heap, g: Shape, k: string, cur: JsonObject, next: JsonObject)
    requires Within(t, h, t', h') && cur in h' && cur in Objects(t') && next !in h'
    requires Objects(g) <= Objects(t') + {next}
    ensures Within(t, h, g, Hung(h'[next := map[]], cur, k, Ref(next)))
  {}

  lemma WalkEnds(t: Shape, h: Heap, t': Shape, h': Heap, q: Path, k: string, cur: JsonObject, v: Shape)
    requires t.Branch? && Walk(t, h, t', h', q, cur, q + [k], Contents(v))
    requires Tree(v, h) && Objects(v) !! Objects(t) && cur in h'
    ensures Tree(Grown(t', q, k, v), Hung(h', cur, k, NodeOf(v)))
    ensures Contents(Grown(t', q, k, v)) == SetNested(Contents(t), q + [k], Contents(v))
    ensures Spares(h, Hung(h', cur, k, NodeOf(v)), Objects(t))
  {
    ObjectsIn(v, h);
    HoldsElsewhere(v, h, h');
    WalkIsAt(t, h, t', h', q, cur, q + [k], Contents(v));
    HangLast(t', q, k, v, h');
  }

  /** Walks from `root` along the path, making objects where there are none, and sets the
      last key to `val`.  Objects that do not hang below `root` are left alone. */
  method SetNestedInPlace(root: JsonObject, path: Path, val: Node, ghost t: Shape, ghost v: Shape, ghost h: Heap)
    returns (ghost t': Shape, ghost h': Heap)
    requires t.Branch? && t.o == root && Tree(t, h) && Mirrors(h)
    requires NodeOf(v) == val && Tree(v, h) && Objects(v) !! Objects(t)
    modifies Objects(t)
    ensures t'.Branch? && t'.o == root && Tree(t', h') && Mirrors(h')
    ensures Contents(t') == SetNested(Contents(t), path, Contents(v))
    ensures Spares(h, h', Objects(t)) && fresh(h'.Keys - h.Keys)
  {
    t', h' := t, h;
    var cur := root;
    for i := 0 to |path|
      invariant i == |path| ==> path == []
      invariant Walk(t, h, t', h', path[..i], cur, path, Contents(v))
      invariant Mirrors(h') && fresh(h'.Keys - h.Keys)
    {
      ghost var q, k := path[..i], path[i];
      assert path[..i + 1] == q + [k];
      WalkIsAt(t, h, t', h', q, cur, path, Contents(v));
      if i == |path| - 1 {
        t', h' := SetLast(cur, path, val, t, h, v, t', h');
        return;
      }
      if path[i] in cur.members && cur.members[path[i]].Ref? {
        WalkOn(t, h, t', h', q, k, cur, path, Contents(v));
        cur := cur.members[path[i]].o;
      } else {
        t', h', cur := StepIntoNew(cur, path, i, t, h, Contents(v), t', h');
      }
    }
  }

  /** Sets the last key at the end of the walk. */
  method SetLast(cur: JsonObject, path: Path, val: Node, ghost t: Shape, ghost h: Heap, ghost v: Shape,
                 ghost t1: Shape, ghost h1: Heap)
    returns (ghost t': Shape, ghost h': Heap)
    requires t.Branch? && path != [] && Walk(t, h, t1, h1, path[..|path| - 1], cur, path, Contents(v))
    requires NodeOf(v) == val && Tree(v, h) && Objects(v) !! Objects(t) && cur in h1 && Mirrors(h1)
    modifies cur
    ensures t'.Branch? && t'.o == t.o && Tree(t', h') && Mirrors(h')
    ensures Contents(t') == SetNested(Contents(t), path, Contents(v))
    ensures Spares(h, h', Objects(t)) && h'.Keys == h1.Keys
  {
    ghost var q, k := path[..|path| - 1], path[|path| - 1];
    assert path == q + [k];
    WalkEnds(t, h, t1, h1, q, k, cur, v);
    h' := cur.Put(path[|path| - 1], val, h1);
    t' := Grown(t1, q, k, v);
  }

  /** Makes an empty object where the walk finds none, and steps into it. */
  method StepIntoNew(cur: JsonObject, path: Path, i: nat, ghost t: Shape, ghost h: Heap, ghost v: Json,
                     ghost t1: Shape, ghost h1: Heap)
    returns (ghost t': Shape, ghost h': Heap, next: JsonObject)
    requires t.Branch? && i + 1 < |path| && Walk(t, h, t1, h1, path[..i], cur, path, v)
    requires cur in h1 && (path[i] in h1[cur] ==> h1[cur][path[i]].Flat?) && Mirrors(h1)
    modifies cur
    ensures Walk(t, h, t', h', path[..i + 1], next, path, v)
    ensures Mirrors(h') && fresh(h'.Keys - h1.Keys)
  {
    next := new JsonObject();
    assert path[..i + 1] == path[..i] + [path[i]] && path == path[..i] + [path[i]] + path[i + 1..];
    WalkNew(t, h, t1, h1, path[..i], path[i], path[i + 1..], cur, v, next);
    h' := cur.Put(path[i], Ref(next), h1[next := map[]]);
    t' := Grown(t1, path[..i], path[i], Branch(next, map[]));
  }

  lemma NothingThere(t: Shape, q: Path, k: string, h: Heap)
    requires Passes(t, q) && Holds(t, h)
    requires var o := End(t, q).o; o in h && (k in h[o] ==> h[o][k].Flat?)
    ensures Get(Contents(t), q + [k]).Some? ==> !Get(Contents(t), q + [k]).value.Obj?
  {
    EndIs(t, q, h);
    if k in End(t, q).kids {
      OneMoreStep(t, q, k);
      assert Holds(End(t, q).kids[k], h);
    } else {
      NoStep(t, q, k);
    }
  }

  /** The members of `x` outside `keys` have been read into `o`. */
  ghost predicate Loading(x: Json, keys: set<string>, o: JsonObject, t: Shape, h: Heap) {
    && x.Obj? && t.Branch? && t.o == o && Tree(t, h)
    && keys <= x.m.Keys && t.kids.Keys == x.m.Keys - keys
    && forall k | k in t.kids :: Contents(t.kids[k]) == x.m[k]
  }

  lemma LoadKid(x: Json, keys: set<string>, o: JsonObject, t: Shape, h: Heap, k: string, s: Shape, hs: Heap)
    requires Loading(x, keys, o, t, h) && k in keys
    requires Tree(s, hs) && h.Keys !! hs.Keys && Contents(s) == x.m[k]
    ensures o in h && Loading(x, keys - {k}, o, Grown(t, [], k, s), Hung(h + hs, o, k, NodeOf(s)))
  {
    TreesApart(t, h, s, hs);
    HangLast(t, [], k, s, h + hs);
  }

  lemma AllLoaded(x: Json, o: JsonObject, t: Shape, h: Heap)
    requires Loading(x, {}, o, t, h)
    ensures Contents(t) == x && NodeOf(t) == Ref(o)
  {}

  /** A document read into fresh objects. */
  method Load(x: Json) returns (n: Node, ghost t: Shape, ghost h: Heap)
    ensures NodeOf(t) == n && Tree(t, h) && Mirrors(h) && Contents(t) == x
    ensures fresh(h.Keys)
    decreases x, 1
  {
    if x.Obj? {
      n, t, h := LoadObject(x);
    } else {
      n, t, h := Flat(x), Leaf(x), map[];
    }
  }

  method LoadObject(x: Json) returns (n: Node, ghost t: Shape, ghost h: Heap)
    requires x.Obj?
    ensures NodeOf(t) == n && Tree(t, h) && Mirrors(h) && Contents(t) == x
    ensures fresh(h.Keys)
    decreases x, 0
  {
    var o := new JsonObject();
    t, h := Branch(o, map[]), map[o := map[]];
    var keys := x.m.Keys;
    while keys != {}
      invariant Loading(x, keys, o, t, h) && Mirrors(h) && fresh(h.Keys)
      decreases keys
    {
      var k :| k in keys;
      var kid, s, hs := Load(x.m[k]);
      LoadKid(x, keys, o, t, h, k, s, hs);
      h := o.Put(k, kid, h + hs);
      t := Grown(t, [], k, s);
      keys := keys - {k};
    }
    AllLoaded(x, o, t, h);
    n := Ref(o);
  }

  /** The document below a node, written out. */
  method Marshal(n: Node, ghost t: Shape, ghost h: Heap) returns (x: Json)
    requires NodeOf(t) == n && Holds(t, h) && Mirrors(h)
    ensures x == Contents(t)
    decreases t
  {
    match n
    case Flat(v) => x := v;
    case Ref(o) =>
      var m: map<string, Json> := map[];
      var keys := o.members.Keys;
      while keys != {}
        invariant keys <= t.kids.Keys && m.Keys == t.kids.Keys - keys
        invariant forall k | k in m :: m[k] == Contents(t.kids[k])
        decreases keys
      {
        var k :| k in keys;
        assert Holds(t.kids[k], h);
        var kid := Marshal(o.members[k], t.kids[k], h);
        m := m[k := kid];
        keys := keys - {k};
      }
      x := Obj(m);
  }

  /** Reads one value and sets it in the growing document. */
  method AddAssign(root: JsonObject, a: Assign, ghost t: Shape, ghost h: Heap)
    returns (ghost t': Shape, ghost h': Heap)
    requires t.Branch? && t.o == root && Tree(t, h) && Mirrors(h)
    modifies Objects(t)
    ensures t'.Branch? && t'.o == root && Tree(t', h') && Mirrors(h') && fresh(h'.Keys - h.Keys)
    ensures Contents(t') == SetNested(Contents(t), a.path, a.value)
  {
    var val, v, hv := Load(a.value);
    TreesApart(t, h, v, hv);
    t', h' := SetNestedInPlace(root, a.path, val, t, v, h + hv);
  }

  lemma PatchOfNext(sets: seq<Assign>, i: nat)
    requires i < |sets|
    ensures PatchOf(sets[..i + 1]) == SetNested(PatchOf(sets[..i]), sets[i].path, sets[i].value)
  {
    assert sets[..i + 1][..i] == sets[..i];
  }

  /** One merge patch for several assignments: each is set in place in one growing document,
      which is then written out. */
  method BuildPatch(sets: seq<Assign>) returns (patch: Json)
    ensures patch == PatchOf(sets)
  {
    var root := new JsonObject();
    ghost var t, h := Branch(root, map[]), map[root := map[]];
    for i := 0 to |sets|
      invariant t.Branch? && t.o == root && Tree(t, h) && Mirrors(h) && fresh(h.Keys)
      invariant Contents(t) == PatchOf(sets[..i])
    {
      PatchOfNext(sets, i);
      ObjectsIn(t, h);
      t, h := AddAssign(root, sets[i], t, h);
    }
    assert sets[..|sets|] == sets;
    patch := Marshal(Ref(root), t, h);
  }
}
