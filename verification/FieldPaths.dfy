/** Paths into a JSON object: reading one, building the patch that sets several, and
    undoing such a patch by setting the same paths back. */
module FieldPaths {
  import opened Options
  import opened MergePatch

  type Path = seq<string>

  /** One path and the value a patch gives it; null removes the key. */
  datatype Assign = Assign(path: Path, value: Json)

  // ---------------------------------------------------- nestedGet and setNested

  /** What is at `path`, if every segment is there. */
  function Get(x: Json, path: Path): Option<Json>
    decreases |path|
  {
    if path == [] then Some(x)
    else if Has(x, path[0]) then Get(x.m[path[0]], path[1..])
    else None
  }

  /** The value a patch needs at `path` to describe `x` there: null when nothing is there. */
  function Value(x: Json, path: Path): Json {
    match Get(x, path)
    case Some(v) => v
    case None => Null
  }

  /** The object `root` with `v` at `path`; whatever is not an object on the way is
      replaced by an empty one. */
  function SetNested(root: Json, path: Path, v: Json): (r: Json)
    requires root.Obj?
    ensures r.Obj?
    decreases |path|
  {
    if path == [] then root
    else if |path| == 1 then Obj(root.m[path[0] := v])
    else
      var next := if At(root, path[0]).Obj? then At(root, path[0]) else EMPTY;
      Obj(root.m[path[0] := SetNested(next, path[1..], v)])
  }

  /** The merge patch that performs the assignments in order. */
  function PatchOf(sets: seq<Assign>): (r: Json)
    ensures r.Obj?
  {
    if sets == [] then EMPTY
    else var n := |sets| - 1; SetNested(PatchOf(sets[..n]), sets[n].path, sets[n].value)
  }

  function PathsOf(sets: seq<Assign>): set<Path> {
    set a | a in sets :: a.path
  }

  method NestedGet(obj: Json, path: Path) returns (value: Json, ok: bool)
    ensures ok <==> Get(obj, path).Some?
    ensures value == Value(obj, path)
  {
    var cur := obj;
    for i := 0 to |path|
      invariant Get(obj, path) == Get(cur, path[i..])
    {
      if !Has(cur, path[i]) {
        return Null, false;
      }
      assert path[i..][1..] == path[i + 1..];
      cur := cur.m[path[i]];
    }
    return cur, true;
  }

  // ------------------------------------------------------------------ footprints

  /** The rests of the paths in `U` that start with `k`. */
  function Tails(U: set<Path>, k: string): set<Path> {
    set u | u in U && u != [] && u[0] == k :: u[1..]
  }

  lemma InTails(U: set<Path>, k: string, t: Path)
    ensures t in Tails(U, k) <==> [k] + t in U
  {
    assert ([k] + t)[1..] == t;
    if t in Tails(U, k) {
      var u :| u in U && u != [] && u[0] == k && u[1..] == t;
      assert u == [k] + t;
    }
  }

  lemma TailsUnion(U: set<Path>, V: set<Path>, k: string)
    ensures Tails(U + V, k) == Tails(U, k) + Tails(V, k)
  {}

  /** `x` and `y` are the same everywhere except at or below the paths of `U`. */
  predicate Agree(x: Json, y: Json, U: set<Path>)
    decreases x
  {
    || [] in U
    || x == y
    || (x.Obj? && y.Obj? && forall k | k in x.m.Keys + y.m.Keys ::
          [] in Tails(U, k) || (k in x.m && k in y.m && Agree(x.m[k], y.m[k], Tails(U, k))))
  }

  /** Every path of `P` carries something other than an object in the patch `d`. */
  predicate Leafy(d: Json, P: set<Path>) {
    forall p | p in P :: Get(d, p).Some? && !Get(d, p).value.Obj?
  }

  lemma LeafyTails(d: Json, P: set<Path>, k: string)
    requires Leafy(d, P) && d.Obj?
    ensures Tails(P, k) != {} ==> Has(d, k) && Leafy(d.m[k], Tails(P, k))
    ensures [] in Tails(P, k) ==> Has(d, k) && !d.m[k].Obj?
  {
    forall t | t in Tails(P, k)
      ensures Has(d, k) && Get(d.m[k], t).Some? && !Get(d.m[k], t).value.Obj?
    {
      InTails(P, k, t);
      assert ([k] + t)[1..] == t;
    }
  }

  /** Undoing is insensitive to what it undoes: merging a patch that puts leaves (or
      nulls) on the paths `P` makes objects agree on `P`, and keeps every other agreement. */
  lemma {:induction false} AgreeMerge(x: Json, y: Json, d: Json, U: set<Path>, P: set<Path>)
    requires Agree(x, y, U + P) && Leafy(d, P)
    ensures Agree(Merge(x, d), Merge(y, d), U)
    decreases d
  {
    if [] !in U && d.Obj? && x != y {
      assert [] !in P by { assert Get(d, []) == Some(d); }
      var mx, my := Merge(x, d), Merge(y, d);
      forall k | k in mx.m.Keys + my.m.Keys
        ensures [] in Tails(U, k) || (k in mx.m && k in my.m && Agree(mx.m[k], my.m[k], Tails(U, k)))
      {
        MergeMember(x, d, k);
        MergeMember(y, d, k);
        LeafyTails(d, P, k);
        TailsUnion(U, P, k);
        if [] !in Tails(U, k) && [] !in Tails(P, k) {
          if k !in x.m && k !in y.m {
          } else if Has(d, k) {
            AgreeMerge(x.m[k], y.m[k], d.m[k], Tails(U, k), Tails(P, k));
          } else {
            assert Tails(P, k) == {};
            assert Tails(U, k) + Tails(P, k) == Tails(U, k);
          }
        }
      }
    }
  }

  lemma {:induction false} AgreeMono(x: Json, y: Json, U: set<Path>, V: set<Path>)
    requires Agree(x, y, U) && U <= V
    ensures Agree(x, y, V)
    decreases x
  {
    if [] !in U && x != y {
      forall k | k in x.m.Keys + y.m.Keys
        ensures [] in Tails(V, k) || (k in x.m && k in y.m && Agree(x.m[k], y.m[k], Tails(V, k)))
      {
        assert Tails(U, k) <= Tails(V, k);
        if [] !in Tails(U, k) { AgreeMono(x.m[k], y.m[k], Tails(U, k), Tails(V, k)); }
      }
    }
  }

  lemma {:induction false} AgreeSymmetric(x: Json, y: Json, U: set<Path>)
    requires Agree(x, y, U)
    ensures Agree(y, x, U)
    decreases x
  {
    if [] !in U && x != y {
      forall k | k in y.m.Keys + x.m.Keys
        ensures [] in Tails(U, k) || (k in y.m && k in x.m && Agree(y.m[k], x.m[k], Tails(U, k)))
      {
        if [] !in Tails(U, k) { AgreeSymmetric(x.m[k], y.m[k], Tails(U, k)); }
      }
    }
  }

  lemma {:induction false} AgreeTransitive(x: Json, y: Json, z: Json, U: set<Path>)
    requires Agree(x, y, U) && Agree(y, z, U)
    ensures Agree(x, z, U)
    decreases x
  {
    if [] !in U && x != y && y != z {
      forall k | k in x.m.Keys + z.m.Keys
        ensures [] in Tails(U, k) || (k in x.m && k in z.m && Agree(x.m[k], z.m[k], Tails(U, k)))
      {
        if [] !in Tails(U, k) { AgreeTransitive(x.m[k], y.m[k], z.m[k], Tails(U, k)); }
      }
    }
  }

  /** On the way along `p`, `x` has an object at every step until `p` ends or enters `U`. */
  predicate Grounded(x: Json, p: Path, U: set<Path>)
    decreases |p|
  {
    || [] in U
    || (p != [] && x.Obj? &&
        ([] in Tails(U, p[0]) || (Has(x, p[0]) && Grounded(x.m[p[0]], p[1..], Tails(U, p[0])))))
  }

  /** The parent of `p` in `x` is an object. */
  predicate HasParent(x: Json, p: Path)
    decreases |p|
  {
    p != [] && x.Obj? && (|p| > 1 ==> Has(x, p[0]) && HasParent(x.m[p[0]], p[1..]))
  }

  lemma {:induction false} ParentGrounds(x: Json, p: Path, U: set<Path>)
    requires HasParent(x, p) && p in U
    ensures Grounded(x, p, U)
    decreases |p|
  {
    assert [p[0]] + p[1..] == p;
    InTails(U, p[0], p[1..]);
    if |p| > 1 { ParentGrounds(x.m[p[0]], p[1..], Tails(U, p[0])); }
  }

  lemma {:induction false} GroundedMono(x: Json, p: Path, U: set<Path>, V: set<Path>)
    requires Grounded(x, p, U) && U <= V
    ensures Grounded(x, p, V)
    decreases |p|
  {
    if [] !in U {
      assert Tails(U, p[0]) <= Tails(V, p[0]);
      if [] !in Tails(U, p[0]) { GroundedMono(x.m[p[0]], p[1..], Tails(U, p[0]), Tails(V, p[0])); }
    }
  }

  lemma {:induction false} AgreeGrounded(x: Json, y: Json, p: Path, U: set<Path>)
    requires Agree(x, y, U) && Grounded(x, p, U)
    ensures Grounded(y, p, U)
    decreases |p|
  {
    if [] !in U && x != y && [] !in Tails(U, p[0]) {
      AgreeGrounded(x.m[p[0]], y.m[p[0]], p[1..], Tails(U, p[0]));
    }
  }

  /** The patch `d` changes `o` only at or below `U`: elsewhere it finds objects to descend into. */
  predicate Fits(d: Json, o: Json, U: set<Path>)
    decreases d
  {
    || [] in U
    || (d.Obj? && o.Obj? && forall k | k in d.m ::
          [] in Tails(U, k) || (k in o.m && Fits(d.m[k], o.m[k], Tails(U, k))))
  }

  lemma {:induction false} FitsAgrees(d: Json, o: Json, U: set<Path>)
    requires Fits(d, o, U)
    ensures Agree(o, Merge(o, d), U)
    decreases d
  {
    if [] !in U {
      var r := Merge(o, d);
      forall k | k in o.m.Keys + r.m.Keys
        ensures [] in Tails(U, k) || (k in o.m && k in r.m && Agree(o.m[k], r.m[k], Tails(U, k)))
      {
        MergeMember(o, d, k);
        if k in d.m && [] !in Tails(U, k) { FitsAgrees(d.m[k], o.m[k], Tails(U, k)); }
      }
    }
  }

  lemma {:induction false} SetNestedFits(d: Json, p: Path, v: Json, o: Json, U: set<Path>)
    requires d.Obj? && Fits(d, o, U) && p in U && Grounded(o, p, U)
    ensures Fits(SetNested(d, p, v), o, U)
    decreases |p|
  {
    if [] !in U {
      var k := p[0];
      assert [k] + p[1..] == p;
      InTails(U, k, p[1..]);
      var d' := SetNested(d, p, v);
      if [] !in Tails(U, k) {
        var next := if At(d, k).Obj? then At(d, k) else EMPTY;
        SetNestedFits(next, p[1..], v, o.m[k], Tails(U, k));
      }
      assert forall j | j in d'.m && j != k :: j in d.m && d'.m[j] == d.m[j];
    }
  }

  lemma {:induction false} PatchFits(sets: seq<Assign>, o: Json, U: set<Path>)
    requires o.Obj? && PathsOf(sets) <= U
    requires forall p | p in PathsOf(sets) :: Grounded(o, p, U)
    ensures Fits(PatchOf(sets), o, U)
  {
    if sets != [] {
      var n := |sets| - 1;
      assert forall a | a in sets[..n] :: a in sets;
      assert sets[n] in sets;
      PatchFits(sets[..n], o, U);
      SetNestedFits(PatchOf(sets[..n]), sets[n].path, sets[n].value, o, U);
    }
  }

  /** Setting paths back to what they are now changes nothing. */
  lemma {:induction false} SetNestedSelf(o: Json, d: Json, p: Path)
    requires o.Obj? && d.Obj? && NullFree(o) && Merge(o, d) == o && HasParent(o, p)
    ensures Merge(o, SetNested(d, p, Value(o, p))) == o
    decreases |p|
  {
    var k, d' := p[0], SetNested(d, p, Value(o, p));
    MergeMember(o, d, k);
    if |p| == 1 {
      assert p[1..] == [];
      assert Get(o, p) == if Has(o, k) then Some(o.m[k]) else None;
      if Has(o, k) { MergeSelf(o.m[k]); }
    } else {
      var next := if At(d, k).Obj? then At(d, k) else EMPTY;
      MergeSelf(o.m[k]);
      assert Merge(o.m[k], next) == o.m[k];
      SetNestedSelf(o.m[k], next, p[1..]);
      assert d'.m[k] == SetNested(next, p[1..], Value(o.m[k], p[1..]));
    }
    MergeMember(o, d', k);
    forall j
      ensures Has(Merge(o, d'), j) == Has(o, j) && At(Merge(o, d'), j) == At(o, j)
    {
      MergeMember(o, d, j);
      MergeMember(o, d', j);
      assert j != k ==> Has(d', j) == Has(d, j) && At(d', j) == At(d, j);
    }
    SameMembers(Merge(o, d'), o);
  }

  lemma {:induction false} PatchSelf(o: Json, sets: seq<Assign>)
    requires o.Obj? && NullFree(o)
    requires forall a | a in sets :: HasParent(o, a.path) && a.value == Value(o, a.path)
    ensures Merge(o, PatchOf(sets)) == o
  {
    if sets == [] {
      MergeSelf(o);
    } else {
      var n := |sets| - 1;
      assert sets[n] in sets && forall a | a in sets[..n] :: a in sets;
      PatchSelf(o, sets[..n]);
      SetNestedSelf(o, PatchOf(sets[..n]), sets[n].path);
    }
  }

  // ------------------------------------------------------- writers on other paths

  /** The patch `x` touches nothing at, above or below a path of `U`. */
  predicate Avoids(x: Json, U: set<Path>)
    decreases x
  {
    U == {} || ([] !in U && x.Obj? && forall k | k in x.m :: Avoids(x.m[k], Tails(U, k)))
  }

  lemma {:induction false} AvoidsMono(x: Json, U: set<Path>, V: set<Path>)
    requires Avoids(x, U) && V <= U
    ensures Avoids(x, V)
    decreases x
  {
    if V != {} {
      forall k | k in x.m ensures Avoids(x.m[k], Tails(V, k)) {
        assert Tails(V, k) <= Tails(U, k);
        AvoidsMono(x.m[k], Tails(U, k), Tails(V, k));
      }
    }
  }

  lemma {:induction false} AvoidsBelow(x: Json, U: set<Path>, V: set<Path>)
    requires Avoids(x, U) && forall v | v in V :: exists u | u in U :: u <= v
    ensures Avoids(x, V)
    decreases x
  {
    if V != {} {
      assert [] !in V;
      forall k | k in x.m ensures Avoids(x.m[k], Tails(V, k)) {
        forall t | t in Tails(V, k) ensures exists u | u in Tails(U, k) :: u <= t {
          InTails(V, k, t);
          var u :| u in U && u <= [k] + t;
          assert u == [k] + u[1..];
          InTails(U, k, u[1..]);
          assert u[1..] <= t;
        }
        AvoidsBelow(x.m[k], Tails(U, k), Tails(V, k));
      }
    }
  }

  /** The patch `d` says nothing except at, or on the way to, a path of `U`. */
  predicate Confined(d: Json, U: set<Path>)
    decreases d
  {
    || [] in U
    || (d.Obj? && forall k | k in d.m :: Tails(U, k) != {} && Confined(d.m[k], Tails(U, k)))
  }

  lemma {:induction false} SetNestedConfined(d: Json, p: Path, v: Json, U: set<Path>)
    requires d.Obj? && Confined(d, U) && p in U
    ensures Confined(SetNested(d, p, v), U)
    decreases |p|
  {
    if [] !in U {
      var k := p[0];
      assert [k] + p[1..] == p;
      InTails(U, k, p[1..]);
      var d' := SetNested(d, p, v);
      if |p| > 1 {
        SetNestedConfined(if At(d, k).Obj? then At(d, k) else EMPTY, p[1..], v, Tails(U, k));
      } else {
        assert p[1..] == [];
      }
      assert forall j | j in d'.m && j != k :: j in d.m && d'.m[j] == d.m[j];
    }
  }

  lemma {:induction false} PatchConfined(sets: seq<Assign>, U: set<Path>)
    requires PathsOf(sets) <= U
    ensures Confined(PatchOf(sets), U)
  {
    if sets != [] {
      var n := |sets| - 1;
      assert sets[n] in sets && forall a | a in sets[..n] :: a in sets;
      PatchConfined(sets[..n], U);
      SetNestedConfined(PatchOf(sets[..n]), sets[n].path, sets[n].value, U);
    }
  }

  /** Patches on unrelated paths commute, on every target. */
  lemma {:induction false} PatchesCommute(o: Json, d: Json, x: Json, U: set<Path>)
    requires d.Obj? && x.Obj? && Confined(d, U) && Avoids(x, U) && [] !in U
    ensures Merge(Merge(o, x), d) == Merge(Merge(o, d), x)
    decreases d
  {
    var l, r := Merge(Merge(o, x), d), Merge(Merge(o, d), x);
    forall k
      ensures Has(l, k) == Has(r, k) && At(l, k) == At(r, k)
    {
      MergeMember(o, x, k);
      MergeMember(o, d, k);
      MergeMember(Merge(o, x), d, k);
      MergeMember(Merge(o, d), x, k);
      if Has(d, k) && Has(x, k) {
        PatchesCommute(At(o, k), d.m[k], x.m[k], Tails(U, k));
      }
    }
    SameMembers(l, r);
  }

  lemma {:induction false} AvoidingKeepsGround(o: Json, x: Json, p: Path, U: set<Path>)
    requires Avoids(x, U) && p in U && Grounded(o, p, U)
    ensures Grounded(Merge(o, x), p, U)
    decreases |p|
  {
    if [] !in U {
      var k := p[0];
      assert [k] + p[1..] == p;
      InTails(U, k, p[1..]);
      MergeMember(o, x, k);
      if [] !in Tails(U, k) && Has(x, k) {
        AvoidingKeepsGround(o.m[k], x.m[k], p[1..], Tails(U, k));
      }
    }
  }

  // ----------------------------------------------------------- surgical captures

  /** Every path has an object for a parent in `o` and no object as its value. */
  predicate Surgical(o: Json, P: set<Path>) {
    forall p | p in P :: HasParent(o, p) && !Value(o, p).Obj?
  }

  /** The assignments that put the paths of `sets` back to their values in `o`. */
  predicate SetsBack(undo: seq<Assign>, o: Json) {
    forall a | a in undo :: a.value == Value(o, a.path)
  }

  /** Surgical paths never lie on top of one another, so setting one keeps the others. */
  lemma {:induction false} SetNestedKeepsLeaf(d: Json, p: Path, v: Json, q: Path, o: Json)
    requires d.Obj? && !v.Obj? && Surgical(o, {p, q})
    requires p == q || (Get(d, q).Some? && !Get(d, q).value.Obj?)
    ensures Get(SetNested(d, p, v), q).Some? && !Get(SetNested(d, p, v), q).value.Obj?
    decreases |p|
  {
    var k := p[0];
    assert HasParent(o, p) && HasParent(o, q);
    assert |p| == 1 ==> p[1..] == [];
    assert |q| == 1 ==> q[1..] == [];
    assert [p[0]] + p[1..] == p && [q[0]] + q[1..] == q;
    if q[0] == k && |p| > 1 {
      var c := o.m[k];
      assert HasParent(c, p[1..]);
      assert |q| == 1 ==> Get(o, q) == Some(c);
      assert Value(c, p[1..]) == Value(o, p) && Value(c, q[1..]) == Value(o, q);
      SetNestedKeepsLeaf(if At(d, k).Obj? then At(d, k) else EMPTY, p[1..], v, q[1..], c);
    } else if q[0] == k {
      assert |q| > 1 ==> HasParent(o.m[k], q[1..]) && Get(o, p) == Some(o.m[k]);
      assert Get(SetNested(d, p, v), q) == Some(v);
    }
  }

  lemma {:induction false} PatchLeafy(undo: seq<Assign>, o: Json)
    requires Surgical(o, PathsOf(undo)) && SetsBack(undo, o)
    ensures Leafy(PatchOf(undo), PathsOf(undo))
  {
    if undo != [] {
      var n := |undo| - 1;
      assert undo[n] in undo && forall a | a in undo[..n] :: a in undo;
      PatchLeafy(undo[..n], o);
      forall q | q in PathsOf(undo)
        ensures Get(PatchOf(undo), q).Some? && !Get(PatchOf(undo), q).value.Obj?
      {
        assert q == undo[n].path || q in PathsOf(undo[..n]) by {
          var i :| 0 <= i <= n && undo[i].path == q;
          if i < n { assert undo[..n][i] in undo[..n]; }
        }
        SetNestedKeepsLeaf(PatchOf(undo[..n]), undo[n].path, undo[n].value, q, o);
      }
    }
  }

  lemma {:induction false} AgreeEverywhere(x: Json, y: Json)
    requires Agree(x, y, {})
    ensures x == y
    decreases x
  {
    if x.Obj? && y.Obj? {
      forall k | k in x.m.Keys + y.m.Keys
        ensures k in x.m && k in y.m && x.m[k] == y.m[k]
      {
        assert Tails({}, k) == {};
        AgreeEverywhere(x.m[k], y.m[k]);
      }
      assert x.m == y.m;
    }
  }

  /** Field-scoped undo is surgical: after a mutation of the captured paths and edits by
      others on unrelated paths, it leaves the original with exactly those edits. */
  lemma UndoKeepsSiblings(o: Json, sets: seq<Assign>, undo: seq<Assign>, others: Json)
    requires o.Obj? && NullFree(o) && others.Obj?
    requires PathsOf(undo) == PathsOf(sets) && Surgical(o, PathsOf(sets)) && SetsBack(undo, o)
    requires Avoids(others, PathsOf(sets))
    ensures Merge(Merge(Merge(o, PatchOf(sets)), others), PatchOf(undo)) == Merge(o, others)
  {
    var P := PathsOf(sets);
    var m, d := Merge(o, PatchOf(sets)), PatchOf(undo);
    forall p | p in P ensures Grounded(o, p, P) { ParentGrounds(o, p, P); }
    PatchFits(sets, o, P);
    FitsAgrees(PatchOf(sets), o, P);
    PatchLeafy(undo, o);
    assert {} + P == P;
    AgreeMerge(o, m, d, {}, P);
    AgreeEverywhere(Merge(o, d), Merge(m, d));
    forall a | a in undo ensures HasParent(o, a.path) { assert a.path in PathsOf(undo); }
    PatchSelf(o, undo);
    PatchConfined(undo, P);
    PatchesCommute(m, d, others, P);
  }

  // --------------------------------------------- when undoing one field is exact

  /** Setting `v` over the object `b` brings in no key that `b` does not have. */
  predicate AddsNothing(b: Json, v: Json)
    decreases v
  {
    b.Obj? && v.Obj? ==> forall k | k in v.m :: v.m[k].Null? || (Has(b, k) && AddsNothing(b.m[k], v.m[k]))
  }

  lemma {:induction false} MergeBackExactly(b: Json, v: Json)
    requires NullFree(b) && b.Obj?
    ensures Merge(Merge(b, v), b) == b <==> AddsNothing(b, v)
    decreases v
  {
    var r := Merge(Merge(b, v), b);
    if !v.Obj? {
      MergeIntoNothing(v, b);
      DropNullsKeepsNullFree(b);
    } else {
      forall k
        ensures Has(r, k) == Has(b, k) && At(r, k) == At(b, k) <==>
                !Has(v, k) || v.m[k].Null? || (Has(b, k) && AddsNothing(b.m[k], v.m[k]))
      {
        MergeMember(b, v, k);
        MergeMember(Merge(b, v), b, k);
        if Has(b, k) {
          MergeSelf(b.m[k]);
          MergeIntoNothing(Null, b.m[k]);
          DropNullsKeepsNullFree(b.m[k]);
          if Has(v, k) && b.m[k].Obj? { MergeBackExactly(b.m[k], v.m[k]); }
        }
      }
      if AddsNothing(b, v) { SameMembers(r, b); }
    }
  }

  // ------------------------------------------------------ several fields at once

  /** No path is empty, and none is at, above or below another. */
  predicate Apart(sets: seq<Assign>) {
    && (forall a | a in sets :: a.path != [])
    && forall i, j | 0 <= i < j < |sets| :: !(sets[i].path <= sets[j].path) && !(sets[j].path <= sets[i].path)
  }

  lemma {:induction false} SetNestedSets(d: Json, p: Path, v: Json)
    requires d.Obj? && p != []
    ensures Get(SetNested(d, p, v), p) == Some(v)
    decreases |p|
  {
    if |p| == 1 {
      assert p[1..] == [];
    } else {
      SetNestedSets(if At(d, p[0]).Obj? then At(d, p[0]) else EMPTY, p[1..], v);
    }
  }

  lemma {:induction false} SetNestedKeepsApart(d: Json, p: Path, v: Json, q: Path)
    requires d.Obj? && p != [] && q != [] && !(p <= q) && !(q <= p) && Get(d, q).Some?
    ensures Get(SetNested(d, p, v), q) == Get(d, q)
    decreases |p|
  {
    assert [p[0]] + p[1..] == p && [q[0]] + q[1..] == q;
    if p[0] == q[0] {
      assert |p| > 1 && |q| > 1;
      SetNestedKeepsApart(d.m[p[0]], p[1..], v, q[1..]);
    }
  }

  /** The patch of paths that are apart says at each what was assigned to it. */
  lemma {:induction false} PatchSays(sets: seq<Assign>, i: nat)
    requires Apart(sets) && i < |sets|
    ensures Get(PatchOf(sets), sets[i].path) == Some(sets[i].value)
    decreases |sets|
  {
    var n := |sets| - 1;
    assert forall a | a in sets[..n] :: a in sets;
    if i < n {
      PatchSays(sets[..n], i);
      SetNestedKeepsApart(PatchOf(sets[..n]), sets[n].path, sets[n].value, sets[i].path);
    } else {
      SetNestedSets(PatchOf(sets[..n]), sets[n].path, sets[n].value);
    }
  }

  /** A merge merges at every path its patch has a value for, and makes objects on the way. */
  lemma {:induction false} ValueOfMerge(x: Json, d: Json, p: Path)
    requires Get(d, p).Some?
    ensures Value(Merge(x, d), p) == Merge(Value(x, p), Value(d, p))
    ensures p != [] ==> HasParent(Merge(x, d), p)
    decreases |p|
  {
    if p != [] {
      var k := p[0];
      MergeMember(x, d, k);
      ValueOfMerge(At(x, k), d.m[k], p[1..]);
      assert Value(x, p) == Value(At(x, k), p[1..]);
      assert d.m[k].Null? ==> p[1..] == [];
    }
  }

  lemma {:induction false} NullFreeAt(x: Json, p: Path)
    requires NullFree(x)
    ensures NullFree(Value(x, p)) && (Get(x, p).Some? && p != [] ==> !Value(x, p).Null?)
    decreases |p|
  {
    if p != [] && Has(x, p[0]) { NullFreeAt(x.m[p[0]], p[1..]); }
  }

  /** Agreement outside some paths, and equality at each of them, is equality. */
  lemma {:induction false} AgreeEqual(x: Json, y: Json, P: set<Path>)
    requires Agree(x, y, P) && forall p | p in P :: Get(x, p) == Get(y, p)
    ensures x == y
    decreases x
  {
    if [] in P {
      assert Get(x, []) == Get(y, []);
    } else if x != y {
      forall k | k in x.m.Keys + y.m.Keys
        ensures Has(x, k) == Has(y, k) && At(x, k) == At(y, k)
      {
        forall t | t in Tails(P, k)
          ensures (if Has(x, k) then Get(x.m[k], t) else None) == if Has(y, k) then Get(y.m[k], t) else None
        {
          InTails(P, k, t);
          assert ([k] + t)[1..] == t;
          assert Get(x, [k] + t) == Get(y, [k] + t);
        }
        if Has(x, k) && Has(y, k) {
          AgreeEqual(x.m[k], y.m[k], Tails(P, k));
        } else {
          assert [] in Tails(P, k);
        }
      }
      SameMembers(x, y);
    }
  }

  /** What puts the paths of `sets` back to their values in `o`. */
  function UndoFor(o: Json, sets: seq<Assign>): (r: seq<Assign>)
    ensures |r| == |sets| && forall i | 0 <= i < |sets| :: r[i] == Assign(sets[i].path, Value(o, sets[i].path))
  {
    seq(|sets|, i requires 0 <= i < |sets| => Assign(sets[i].path, Value(o, sets[i].path)))
  }

  /** `o` after one mutation of several fields and its undo. */
  function SetAndUndo(o: Json, sets: seq<Assign>): Json {
    Merge(Merge(o, PatchOf(sets)), PatchOf(UndoFor(o, sets)))
  }

  lemma UndoForApart(o: Json, sets: seq<Assign>)
    requires Apart(sets)
    ensures Apart(UndoFor(o, sets)) && PathsOf(UndoFor(o, sets)) == PathsOf(sets)
  {
    var u := UndoFor(o, sets);
    forall a | a in u ensures a.path in PathsOf(sets) && a.path != [] {
      var i :| 0 <= i < |u| && u[i] == a;
      assert sets[i] in sets;
    }
    forall a | a in sets ensures a.path in PathsOf(u) {
      var i :| 0 <= i < |sets| && sets[i] == a;
      assert u[i] in u;
    }
  }

  /** What the undo leaves at each path. */
  lemma UndoneValue(o: Json, sets: seq<Assign>, i: nat)
    requires Apart(sets) && i < |sets|
    ensures var p, b, r := sets[i].path, Value(o, sets[i].path), SetAndUndo(o, sets);
            HasParent(r, p) && Value(r, p) == Merge(Merge(b, sets[i].value), b)
  {
    var p := sets[i].path;
    assert sets[i] in sets;
    UndoForApart(o, sets);
    PatchSays(sets, i);
    PatchSays(UndoFor(o, sets), i);
    ValueOfMerge(o, PatchOf(sets), p);
    ValueOfMerge(Merge(o, PatchOf(sets)), PatchOf(UndoFor(o, sets)), p);
  }

  /** At one path, the undo is exact exactly when nothing was added. */
  lemma UndoneExactly(b: Json, v: Json)
    requires NullFree(b)
    ensures Merge(Merge(b, v), b) == b <==> AddsNothing(b, v)
  {
    if b.Obj? { MergeBackExactly(b, v); }
  }

  /** Elsewhere nothing changes when the parents are there. */
  lemma UndoneElsewhere(o: Json, sets: seq<Assign>)
    requires o.Obj? && Apart(sets) && forall a | a in sets :: HasParent(o, a.path)
    ensures Agree(o, SetAndUndo(o, sets), PathsOf(sets))
  {
    var P, m, u := PathsOf(sets), Merge(o, PatchOf(sets)), UndoFor(o, sets);
    UndoForApart(o, sets);
    forall p | p in P ensures Grounded(o, p, P) { ParentGrounds(o, p, P); }
    PatchFits(sets, o, P);
    FitsAgrees(PatchOf(sets), o, P);
    forall p | p in P ensures Grounded(m, p, P) { AgreeGrounded(o, m, p, P); }
    PatchFits(u, m, P);
    FitsAgrees(PatchOf(u), m, P);
    AgreeTransitive(o, m, SetAndUndo(o, sets), P);
  }

  /** Undoing a mutation of several fields gives the object back exactly when the parent of
      each was an object and no value set over an object-valued field added a key to it. */
  lemma UndoIsExactIff(o: Json, sets: seq<Assign>)
    requires o.Obj? && NullFree(o) && Apart(sets)
    ensures SetAndUndo(o, sets) == o <==>
      forall a | a in sets :: HasParent(o, a.path) && AddsNothing(Value(o, a.path), a.value)
  {
    var r := SetAndUndo(o, sets);
    forall a | a in sets
      ensures HasParent(r, a.path)
      ensures Value(r, a.path) == Value(o, a.path) <==> AddsNothing(Value(o, a.path), a.value)
    {
      var i :| 0 <= i < |sets| && sets[i] == a;
      UndoneValue(o, sets, i);
      NullFreeAt(o, a.path);
      UndoneExactly(Value(o, a.path), a.value);
    }
    if forall a | a in sets :: HasParent(o, a.path) && AddsNothing(Value(o, a.path), a.value) {
      UndoneElsewhere(o, sets);
      MergeKeepsNullFree(o, PatchOf(sets));
      MergeKeepsNullFree(Merge(o, PatchOf(sets)), PatchOf(UndoFor(o, sets)));
      forall p | p in PathsOf(sets) ensures Get(o, p) == Get(r, p) {
        NullFreeAt(o, p);
        NullFreeAt(r, p);
      }
      AgreeEqual(o, r, PathsOf(sets));
    }
  }

  /** An empty object stays where the parent was absent. */
  lemma MissingParentStays(j: string, k: string, v: Json)
    requires !v.Null?
    ensures SetAndUndo(EMPTY, [Assign([j, k], v)]) == Obj(map[j := EMPTY])
  {
    var set1, undo1 := [Assign([j, k], v)], [Assign([j, k], Null)];
    assert [j, k][1..] == [k] && set1[..0] == [] && undo1[..0] == [];
    assert UndoFor(EMPTY, set1) == undo1;
    assert SetNested(EMPTY, [j, k], v) == Obj(map[j := SetNested(EMPTY, [k], v)]);
    assert SetNested(EMPTY, [j, k], Null) == Obj(map[j := SetNested(EMPTY, [k], Null)]);
    assert PatchOf(set1) == Obj(map[j := Obj(map[k := v])]);
    assert PatchOf(undo1) == Obj(map[j := Obj(map[k := Null])]);
    MergeIntoNothing(EMPTY, PatchOf(set1));
    var m := Merge(EMPTY, PatchOf(set1));
    assert m.m.Keys == {j};
    MergeMember(m, PatchOf(undo1), j);
    assert Merge(m.m[j], Obj(map[k := Null])).m == map[];
    assert Merge(m, PatchOf(undo1)).m == map[j := EMPTY];
  }

  /** A key added under an object-valued field stays. */
  lemma AddedKeyStays(j: string, k: string, v: Json)
    requires !v.Null? && !v.Obj?
    ensures SetAndUndo(Obj(map[j := EMPTY]), [Assign([j], Obj(map[k := v]))]) == Obj(map[j := Obj(map[k := v])])
  {
    var o, d, u := Obj(map[j := EMPTY]), Obj(map[j := Obj(map[k := v])]), Obj(map[j := EMPTY]);
    var set1, undo1 := [Assign([j], d.m[j])], [Assign([j], EMPTY)];
    assert [j][1..] == [] && set1[..0] == [] && undo1[..0] == [];
    assert Get(o, [j]) == Get(o.m[j], []) == Some(EMPTY);
    assert UndoFor(o, set1) == undo1;
    assert PatchOf(set1) == d && PatchOf(undo1) == u;
    MergeIntoNothing(EMPTY, d.m[j]);
    assert DropNulls(d.m[j]).m == map[k := v];
    assert Merge(o, d).m == map[j := d.m[j]];
    assert Merge(d.m[j], EMPTY).m == map[k := v];
    assert Merge(d, u).m == map[j := d.m[j]];
  }

  // ------------------------------------------------------------ agreement at a path

  /** The rests below `p` of the paths in `U` that start with it. */
  function Below(U: set<Path>, p: Path): set<Path> {
    set u | u in U && p <= u :: u[|p|..]
  }

  lemma BelowTails(U: set<Path>, k: string, p: Path)
    ensures Below(Tails(U, k), p) == Below(U, [k] + p)
  {
    forall u | u in U && [k] + p <= u ensures u[|p| + 1..] in Below(Tails(U, k), p) {
      assert u == [k] + u[1..] && u[0] == k;
      InTails(U, k, u[1..]);
      assert u[1..][|p|..] == u[|p| + 1..];
    }
    forall t | t in Tails(U, k) && p <= t ensures t[|p|..] in Below(U, [k] + p) {
      InTails(U, k, t);
      assert ([k] + t)[|p| + 1..] == t[|p|..];
    }
  }

  /** Objects that agree outside `U` agree at every path that is not in or below `U`, outside
      what of `U` lies below it. */
  lemma {:induction false} AgreeAt(x: Json, y: Json, U: set<Path>, p: Path)
    requires Agree(x, y, U) && forall u | u in U :: !(u <= p)
    ensures Get(x, p).Some? == Get(y, p).Some?
    ensures Agree(Value(x, p), Value(y, p), Below(U, p))
    decreases |p|
  {
    if p == [] {
      assert Below(U, []) >= U by {
        forall u | u in U ensures u in Below(U, []) { assert [] <= u && u[0..] == u; }
      }
      AgreeMono(x, y, U, Below(U, []));
    } else if x != y && (Has(x, p[0]) || Has(y, p[0])) {
      var k := p[0];
      assert [k] + p[1..] == p;
      forall t | t in Tails(U, k) ensures !(t <= p[1..]) {
        InTails(U, k, t);
        assert t <= p[1..] ==> [k] + t <= p;
      }
      assert [] !in U by { assert [] <= p; }
      assert [] !in Tails(U, k) by { assert [] <= p[1..]; }
      AgreeAt(x.m[k], y.m[k], Tails(U, k), p[1..]);
      BelowTails(U, k, p[1..]);
    }
  }

  lemma {:induction false} ValueBeyond(x: Json, q: Path, r: Path)
    ensures Value(x, q + r) == Value(Value(x, q), r)
    decreases |q|
  {
    if q == [] {
      assert q + r == r;
    } else {
      assert (q + r)[1..] == q[1..] + r;
      if Has(x, q[0]) {
        ValueBeyond(x.m[q[0]], q[1..], r);
      } else {
        assert Value(Null, r) == Null;
      }
    }
  }

  lemma {:induction false} AgreeParent(x: Json, y: Json, U: set<Path>, p: Path)
    requires Agree(x, y, U) && HasParent(x, p) && forall u | u in U :: !(u <= p)
    ensures HasParent(y, p)
    decreases |p|
  {
    assert [] !in U by { assert [] <= p; }
    if x != y && |p| > 1 {
      var k := p[0];
      assert [k] + p[1..] == p;
      forall t | t in Tails(U, k) ensures !(t <= p[1..]) {
        InTails(U, k, t);
        assert t <= p[1..] ==> [k] + t <= p;
      }
      assert [] !in Tails(U, k) by { assert [] <= p[1..]; }
      AgreeParent(x.m[k], y.m[k], Tails(U, k), p[1..]);
    }
  }

  /** Edits on unrelated paths leave the value at a path alone. */
  lemma {:induction false} AvoidingKeepsValue(o: Json, x: Json, p: Path, U: set<Path>)
    requires Avoids(x, U) && p in U
    ensures Value(Merge(o, x), p) == Value(o, p)
    decreases |p|
  {
    var k := p[0];
    assert [k] + p[1..] == p;
    InTails(U, k, p[1..]);
    MergeMember(o, x, k);
    assert Value(o, p) == Value(At(o, k), p[1..]);
    if Has(x, k) { AvoidingKeepsValue(At(o, k), x.m[k], p[1..], Tails(U, k)); }
  }

  /** A path is grounded on its own exactly when it has a parent. */
  lemma {:induction false} ParentIsGround(x: Json, p: Path)
    requires p != []
    ensures HasParent(x, p) <==> Grounded(x, p, {p})
    decreases |p|
  {
    var k := p[0];
    assert [k] + p[1..] == p;
    assert Tails({p}, k) == {p[1..]};
    if |p| > 1 && Has(x, k) { ParentIsGround(x.m[k], p[1..]); }
  }

  lemma OneAssignment(p: Path, v: Json)
    ensures PatchOf([Assign(p, v)]) == SetNested(EMPTY, p, v)
  {
    assert [Assign(p, v)][..0] == [];
  }
}
