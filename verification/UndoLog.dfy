/** What makes a log undoable, and everything that keeps it so. */
module UndoLog {
  import opened Options
  import opened MergePatch
  import opened Stripping
  import opened FieldPaths
  import opened VisiblePaths
  import opened FieldContent
  import opened Captures

  /** Field paths of an object the log holds no whole capture of stand on solid ground:
      following one meets objects until it ends or enters another captured path. */
  ghost predicate GroundedOn(d: Discovery, log: seq<Capture>, cl: Cluster) {
    forall id | id in cl && !ObjectOn(d, log, id) ::
      forall p | p in PathsOn(d, log, id) :: Grounded(Canon(cl[id]), p, PathsOn(d, log, id))
  }

  /** Replaying the log in `cl` gives `base` back. */
  ghost predicate Undoable(d: Discovery, log: seq<Capture>, cl: Cluster, base: Cluster) {
    && IsCluster(cl)
    && AllRecorded(d, log)
    && GroundedOn(d, log, cl)
    && SameContent(Replay(d, log, cl), base)
  }

  lemma CoveredGrounded(d: Discovery, log: seq<Capture>, cl: Cluster, cl': Cluster)
    requires GroundedOn(d, log, cl) && Covered(d, log, cl, cl')
    ensures GroundedOn(d, log, cl')
  {
    forall id, p | id in cl' && !ObjectOn(d, log, id) && p in PathsOn(d, log, id)
      ensures Grounded(Canon(cl'[id]), p, PathsOn(d, log, id))
    {
      assert CoveredAt(d, log, cl, cl', id);
      AgreeGrounded(Canon(cl[id]), Canon(cl'[id]), p, PathsOn(d, log, id));
    }
  }

  /** Any change within what the log covers leaves the replay's outcome alone. */
  lemma CoveredChange(d: Discovery, log: seq<Capture>, cl: Cluster, cl': Cluster, base: Cluster)
    requires Undoable(d, log, cl, base) && IsCluster(cl') && Covered(d, log, cl, cl')
    ensures Undoable(d, log, cl', base)
  {
    CoveredGrounded(d, log, cl, cl');
    ReplayCovers(d, log, cl, cl');
  }

  // ------------------------------------------------------------ taking a capture

  /** The capture records `cl` as it is now, and is one that can be put back. */
  predicate CapturesNow(d: Discovery, c: Capture, cl: Cluster) {
    && c.enc.None?
    && match Target(d, c.ref)
       case None => false
       case Some(id) =>
         match c.scope
         case ObjectScope =>
           if id in cl then c.existed && c.before == Strip(cl[id]) && HasGvk(cl[id]) else !c.existed
         case FieldScope =>
           && id in cl
           && Restorable(cl[id], FieldPathsOf(c.fields))
           && forall f | f in c.fields ::
                f.before == Value(cl[id], f.path) && f.existed == Get(cl[id], f.path).Some?
  }

  lemma FieldsCapturedNow(d: Discovery, c: Capture, cl: Cluster, id: ObjId)
    requires IsCluster(cl) && CapturesNow(d, c, cl) && c.scope.FieldScope? && On(d, c, id)
    ensures PathsOf(Visible(UndosOf(c.fields))) == FieldPathsOf(c.fields)
    ensures Surgical(Canon(cl[id]), FieldPathsOf(c.fields))
    ensures SetsBack(Visible(UndosOf(c.fields)), Canon(cl[id]))
  {
    PathsOfUndos(c.fields);
    var undo := Visible(UndosOf(c.fields));
    forall a | a in undo ensures a.value == Value(Canon(cl[id]), a.path) {
      var i :| 0 <= i < |undo| && undo[i] == a;
      var f := c.fields[i];
      assert f in c.fields && VisiblePath(f.path) in FieldPathsOf(c.fields);
      if ServerOwned(f.path) {
        OwnedIsErased(DropNulls(cl[id]), VisiblePath(f.path));
      } else {
        VisibleIfNotOwned(f.path);
        ValueOfContent(cl[id], f.path);
      }
    }
  }

  lemma NowIsRecorded(d: Discovery, c: Capture, cl: Cluster)
    requires IsCluster(cl) && CapturesNow(d, c, cl)
    ensures Recorded(d, c)
  {
    var id := Target(d, c.ref).value;
    if c.scope.FieldScope? {
      FieldsCapturedNow(d, c, cl, id);
      PatchLeafy(Visible(UndosOf(c.fields)), Canon(cl[id]));
    } else if c.existed {
      StripMember(cl[id], "kind");
      StripMember(cl[id], "apiVersion");
    }
  }

  /** Undoing a capture at the moment it is taken changes no content. */
  lemma UndoneNow(d: Discovery, c: Capture, cl: Cluster)
    requires IsCluster(cl) && CapturesNow(d, c, cl)
    ensures SameContent(Undo(d, c, cl), cl)
  {
    var id := Target(d, c.ref).value;
    if c.scope.FieldScope? {
      var o, undo := cl[id], Visible(UndosOf(c.fields));
      FieldsCapturedNow(d, c, cl, id);
      CanonIsNullFree(o);
      forall a | a in undo ensures HasParent(Canon(o), a.path) && a.value == Value(Canon(o), a.path) {
        assert a.path in PathsOf(undo);
      }
      PatchSelf(Canon(o), undo);
      MergedContent(o, PatchOf(undo));
      ContentOfVisible(o, UndosOf(c.fields));
      CanonTopOfCanon(o);
    } else if c.existed {
      StripMember(cl[id], "kind");
      RestoreContent(cl[id], c.before);
      StripKeepsContent(cl[id]);
    }
  }

  lemma SameContentIsCovered(d: Discovery, log: seq<Capture>, a: Cluster, b: Cluster)
    requires SameContent(a, b)
    ensures Covered(d, log, a, b)
  {}

  lemma CaptureGrounded(d: Discovery, log: seq<Capture>, c: Capture, cl: Cluster)
    requires IsCluster(cl) && GroundedOn(d, log, cl) && CapturesNow(d, c, cl)
    ensures GroundedOn(d, log + [c], cl)
  {
    forall id, p | id in cl && !ObjectOn(d, log + [c], id) && p in PathsOn(d, log + [c], id)
      ensures Grounded(Canon(cl[id]), p, PathsOn(d, log + [c], id))
    {
      CoverOfSnoc(d, log, c, id);
      var U := PathsOn(d, log + [c], id);
      if p in PathsOn(d, log, id) {
        GroundedMono(Canon(cl[id]), p, PathsOn(d, log, id), U);
      } else {
        FieldsCapturedNow(d, c, cl, id);
        ParentGrounds(Canon(cl[id]), p, U);
      }
    }
  }

  /** A log stays undoable when a fresh capture is appended. */
  lemma CaptureKeepsUndoable(d: Discovery, log: seq<Capture>, c: Capture, cl: Cluster, base: Cluster)
    requires Undoable(d, log, cl, base) && CapturesNow(d, c, cl)
    ensures Undoable(d, log + [c], cl, base)
  {
    NowIsRecorded(d, c, cl);
    CaptureGrounded(d, log, c, cl);
    UndoneNow(d, c, cl);
    UndoKeepsCluster(d, c, cl);
    SameContentIsCovered(d, log, Undo(d, c, cl), cl);
    ReplayCovers(d, log, Undo(d, c, cl), cl);
    assert (log + [c])[..|log|] == log;
  }

  // ---------------------------------------------------------- changes by the run

  /** The cluster with `x` at `id`, or nothing there. */
  function Put(cl: Cluster, id: ObjId, x: Option<Json>): Cluster {
    match x
    case Some(o) => cl[id := o]
    case None => cl - {id}
  }

  /** Once an object is captured whole, anything may happen to it. */
  lemma ObjectChangeIsCovered(d: Discovery, log: seq<Capture>, cl: Cluster, id: ObjId, x: Option<Json>)
    requires ObjectOn(d, log, id)
    ensures Covered(d, log, cl, Put(cl, id, x))
  {}

  /** Once its paths are captured, a field mutation may set them to anything, again and again. */
  lemma FieldChangeIsCovered(d: Discovery, log: seq<Capture>, cl: Cluster, id: ObjId, sets: seq<Assign>)
    requires IsCluster(cl) && GroundedOn(d, log, cl) && id in cl
    requires ObjectOn(d, log, id) || VisiblePathsOf(sets) <= PathsOn(d, log, id)
    ensures Covered(d, log, cl, cl[id := Merge(cl[id], PatchOf(sets))])
  {
    if !ObjectOn(d, log, id) {
      ContentPatchAgrees(cl[id], sets, PathsOn(d, log, id));
    }
  }

  /** Undoing any one entry of the log, in any order, stays within what the log covers. */
  lemma UndoStepIsCovered(d: Discovery, log: seq<Capture>, cl: Cluster, c: Capture)
    requires IsCluster(cl) && GroundedOn(d, log, cl) && c in log
    ensures Covered(d, log, cl, Undo(d, c, cl))
  {
    if Target(d, c.ref).Some? {
      var id := Target(d, c.ref).value;
      if c.scope.FieldScope? {
        if id in cl {
          PathsOfUndos(c.fields);
          FieldChangeIsCovered(d, log, cl, id, UndosOf(c.fields));
        }
      } else {
        var x := if id in Undo(d, c, cl) then Some(Undo(d, c, cl)[id]) else None;
        ObjectChangeIsCovered(d, log, cl, id, x);
        assert Undo(d, c, cl) == Put(cl, id, x);
      }
    }
  }

  /** Any partial replay, of any entries in any order, stays within what the log covers, and
      a full replay afterwards still ends in the same place. */
  lemma {:induction false} PartialReplay(d: Discovery, log: seq<Capture>, some: seq<Capture>, cl: Cluster, base: Cluster)
    requires Undoable(d, log, cl, base) && forall c | c in some :: c in log
    ensures Undoable(d, log, Replay(d, some, cl), base)
    ensures Covered(d, log, cl, Replay(d, some, cl))
    decreases |some|
  {
    if some == [] {
      SameContentIsCovered(d, log, cl, cl);
    } else {
      var n := |some| - 1;
      var next := Undo(d, some[n], cl);
      UndoKeepsCluster(d, some[n], cl);
      UndoStepIsCovered(d, log, cl, some[n]);
      CoveredChange(d, log, cl, next, base);
      PartialReplay(d, log, some[..n], next, base);
      CoveredTransitive(d, log, cl, next, Replay(d, some, cl));
    }
  }

  lemma CoveredTransitive(d: Discovery, log: seq<Capture>, a: Cluster, b: Cluster, c: Cluster)
    requires Covered(d, log, a, b) && Covered(d, log, b, c)
    ensures Covered(d, log, a, c)
  {
    forall id ensures CoveredAt(d, log, a, c, id) {
      assert CoveredAt(d, log, a, b, id) && CoveredAt(d, log, b, c, id);
      if !ObjectOn(d, log, id) && id in a {
        AgreeTransitive(Canon(a[id]), Canon(b[id]), Canon(c[id]), PathsOn(d, log, id));
      }
    }
  }

  /** Whatever differs from the base is covered by the log. */
  lemma DifferencesAreCovered(d: Discovery, log: seq<Capture>, cl: Cluster, base: Cluster)
    requires Undoable(d, log, cl, base)
    ensures Covered(d, log, cl, base)
  {
    PartialReplay(d, log, log, cl, base);
    SameContentIsCovered(d, log, Replay(d, log, cl), base);
    CoveredTransitive(d, log, cl, Replay(d, log, cl), base);
  }

  // ------------------------------------------------------ the first capture wins

  /** Some path of `U` is at or above `p`. */
  predicate AtOrAbove(U: set<Path>, p: Path) {
    exists u | u in U :: u <= p
  }

  /** The entry, taken when `earlier` had been, holds what the base has there: a whole-object
      entry outside the paths captured before, a field entry on each path that is not at or
      below one captured before. */
  ghost predicate HoldsBase(d: Discovery, earlier: seq<Capture>, c: Capture, base: Cluster, id: ObjId) {
    match c.scope
    case ObjectScope =>
      && (c.existed <==> id in base)
      && (id in base ==> Agree(Canon(c.before), Canon(base[id]), PathsOn(d, earlier, id)))
    case FieldScope =>
      && id in base
      && forall f | f in c.fields && !AtOrAbove(PathsOn(d, earlier, id), VisiblePath(f.path)) :: FieldHolds(f, base[id])
  }

  /** What undoing the field sets in the content. */
  function SetsInContent(f: FieldDelta): Assign {
    VisibleAssign(UndoOf(f))
  }

  /** The field's undo sets what the content of `o` has there, a leaf or nothing under an
      object. */
  predicate FieldHolds(f: FieldDelta, o: Json) {
    && HasParent(Canon(o), VisiblePath(f.path))
    && SetsInContent(f).value == Value(Canon(o), VisiblePath(f.path))
    && !SetsInContent(f).value.Obj?
  }

  /** Every entry up to the first whole capture of its object holds what the base has there. */
  ghost predicate FirstHolds(d: Discovery, log: seq<Capture>, base: Cluster) {
    forall i, id | 0 <= i < |log| && On(d, log[i], id) && !ObjectOn(d, log[..i], id) ::
      HoldsBase(d, log[..i], log[i], base, id)
  }

  /** What undoing a fresh field capture sets in the content is what is there now. */
  lemma FieldIsNow(d: Discovery, c: Capture, cl: Cluster, id: ObjId, f: FieldDelta)
    requires IsCluster(cl) && CapturesNow(d, c, cl) && c.scope.FieldScope? && On(d, c, id) && f in c.fields
    ensures FieldHolds(f, cl[id])
  {
    var undo := Visible(UndosOf(c.fields));
    FieldsCapturedNow(d, c, cl, id);
    var i :| 0 <= i < |c.fields| && c.fields[i] == f;
    VisibleAssignPath(UndoOf(f));
    assert undo[i] in undo && VisiblePath(f.path) in FieldPathsOf(c.fields);
  }

  lemma FieldHoldsToo(x: Json, y: Json, U: set<Path>, f: FieldDelta)
    requires FieldHolds(f, x) && Agree(Canon(x), Canon(y), U) && !AtOrAbove(U, VisiblePath(f.path))
    ensures FieldHolds(f, y)
  {
    var p := VisiblePath(f.path);
    AgreeAt(Canon(x), Canon(y), U, p);
    AgreeParent(Canon(x), Canon(y), U, p);
    assert [] !in Below(U, p) by {
      assert forall u | u in U && p <= u && u[|p|..] == [] :: u == p;
    }
  }

  /** A capture taken now holds what the base has, outside what was captured before. */
  lemma CaptureHoldsBase(d: Discovery, log: seq<Capture>, c: Capture, cl: Cluster, base: Cluster, id: ObjId)
    requires Undoable(d, log, cl, base) && CapturesNow(d, c, cl) && On(d, c, id) && !ObjectOn(d, log, id)
    ensures HoldsBase(d, log, c, base, id)
  {
    DifferencesAreCovered(d, log, cl, base);
    assert CoveredAt(d, log, cl, base, id);
    if c.scope.ObjectScope? {
      if id in cl { StripKeepsContent(cl[id]); }
    } else {
      forall f | f in c.fields && !AtOrAbove(PathsOn(d, log, id), VisiblePath(f.path))
        ensures FieldHolds(f, base[id]) {
        FieldIsNow(d, c, cl, id, f);
        FieldHoldsToo(cl[id], base[id], PathsOn(d, log, id), f);
      }
    }
  }

  lemma CaptureKeepsFirstHolds(d: Discovery, log: seq<Capture>, c: Capture, cl: Cluster, base: Cluster)
    requires Undoable(d, log, cl, base) && CapturesNow(d, c, cl) && FirstHolds(d, log, base)
    ensures FirstHolds(d, log + [c], base)
  {
    var more := log + [c];
    forall i, id | 0 <= i < |more| && On(d, more[i], id) && !ObjectOn(d, more[..i], id)
      ensures HoldsBase(d, more[..i], more[i], base, id)
    {
      assert more[..i] == log[..i];
      if i == |log| {
        assert log[..i] == log;
        CaptureHoldsBase(d, log, c, cl, base, id);
      }
    }
  }

  /** The entry covers `p` of `id`: it is a whole capture, or has a path at or above `p`. */
  predicate Covers(d: Discovery, c: Capture, id: ObjId, p: Path) {
    On(d, c, id) && (c.scope.ObjectScope? || AtOrAbove(FieldPathsOf(c.fields), p))
  }

  /** Entry `i` is the first of the log that covers `p` of `id`. */
  ghost predicate EarliestCover(d: Discovery, log: seq<Capture>, i: int, id: ObjId, p: Path) {
    0 <= i < |log| && Covers(d, log[i], id, p) && forall j | 0 <= j < i :: !Covers(d, log[j], id, p)
  }

  ghost predicate Uncovered(d: Discovery, log: seq<Capture>, id: ObjId, p: Path) {
    forall c | c in log :: !Covers(d, c, id, p)
  }

  lemma UncoveredPaths(d: Discovery, log: seq<Capture>, id: ObjId, p: Path)
    requires Uncovered(d, log, id, p)
    ensures !ObjectOn(d, log, id) && forall u | u in PathsOn(d, log, id) :: !(u <= p)
  {
    forall u | u in PathsOn(d, log, id) ensures !(u <= p) {
      var c, f :| c in log && c.scope.FieldScope? && On(d, c, id) && f in c.fields && VisiblePath(f.path) == u;
      assert !Covers(d, c, id, p) && u in FieldPathsOf(c.fields);
    }
  }

  /** `x` has at `p` what `o` has there, outside the paths `U` below it; all of it when there
      are none. */
  predicate SameAt(x: Json, o: Json, p: Path, U: set<Path>) {
    Agree(Value(x, p), Value(o, p), Below(U, p)) && (Below(U, p) == {} ==> Value(x, p) == Value(o, p))
  }

  lemma AgreeSameAt(x: Json, o: Json, p: Path, U: set<Path>)
    requires Agree(x, o, U) && forall u | u in U :: !(u <= p)
    ensures SameAt(x, o, p, U)
  {
    AgreeAt(x, o, U, p);
    if Below(U, p) == {} { AgreeEverywhere(Value(x, p), Value(o, p)); }
  }

  /** Entry `i` holds what the base has at `p` of `id`, outside what was captured before it
      below `p`. */
  ghost predicate HoldsAt(d: Discovery, log: seq<Capture>, i: nat, base: Cluster, id: ObjId, p: Path)
    requires i < |log|
  {
    match log[i].scope
    case ObjectScope =>
      && (log[i].existed <==> id in base)
      && (id in base ==> SameAt(Canon(log[i].before), Canon(base[id]), p, PathsOn(d, log[..i], id)))
    case FieldScope =>
      && id in base
      && forall f | f in log[i].fields && VisiblePath(f.path) <= p ::
           Value(SetsInContent(f).value, p[|VisiblePath(f.path)|..]) == Value(Canon(base[id]), p)
  }

  /** First capture wins, for every object and every path: the earliest entry that covers a
      path holds what the base has there. */
  lemma EarliestCaptureHoldsBase(d: Discovery, log: seq<Capture>, i: nat, base: Cluster, id: ObjId, p: Path)
    requires FirstHolds(d, log, base) && EarliestCover(d, log, i, id, p)
    ensures HoldsAt(d, log, i, base, id, p)
  {
    var c, U := log[i], PathsOn(d, log[..i], id);
    assert Uncovered(d, log[..i], id, p);
    UncoveredPaths(d, log[..i], id, p);
    assert HoldsBase(d, log[..i], c, base, id);
    if c.scope.ObjectScope? {
      if id in base { AgreeSameAt(Canon(c.before), Canon(base[id]), p, U); }
    } else {
      forall f | f in c.fields && VisiblePath(f.path) <= p
        ensures Value(SetsInContent(f).value, p[|VisiblePath(f.path)|..]) == Value(Canon(base[id]), p)
      {
        var v := VisiblePath(f.path);
        assert !AtOrAbove(U, v) by { assert forall u | u in U && u <= v :: u <= p; }
        assert FieldHolds(f, base[id]);
        ValueBeyond(Canon(base[id]), v, p[|v|..]);
        assert v + p[|v|..] == p;
      }
    }
  }

  /** What no entry covers is as in the base, outside what was captured below it. */
  lemma UncoveredIsAsInBase(d: Discovery, log: seq<Capture>, cl: Cluster, base: Cluster, id: ObjId, p: Path)
    requires Undoable(d, log, cl, base) && Uncovered(d, log, id, p)
    ensures id in cl <==> id in base
    ensures id in cl ==> SameAt(Canon(cl[id]), Canon(base[id]), p, PathsOn(d, log, id))
  {
    DifferencesAreCovered(d, log, cl, base);
    UncoveredPaths(d, log, id, p);
    assert CoveredAt(d, log, cl, base, id);
    if id in cl { AgreeSameAt(Canon(cl[id]), Canon(base[id]), p, PathsOn(d, log, id)); }
  }

  // ----------------------------------------------------------- changes by others

  /** What another writer does to one object. */
  datatype Edit = Overwrite(o: Json) | Remove | Patch(x: Json)

  function Apply(cl: Cluster, id: ObjId, e: Edit): Cluster {
    match e
    case Overwrite(o) => cl[id := o]
    case Remove => cl - {id}
    case Patch(x) => if id in cl then cl[id := Merge(cl[id], x)] else cl
  }

  /** The edit is to an object the log does not mention, or patches only paths unrelated to
      the captured ones of an object captured by fields. */
  predicate KeepsOff(d: Discovery, log: seq<Capture>, id: ObjId, e: Edit) {
    && (e.Overwrite? ==> e.o.Obj?)
    && (e.Patch? ==> e.x.Obj?)
    && (|| (forall c | c in log :: !On(d, c, id))
        || (e.Patch? && !ObjectOn(d, log, id) && Avoids(e.x, PathsOn(d, log, id))))
  }

  /** An edit and an undo change one object each, by what is there. */
  lemma ApplyElsewhere(cl: Cluster, id: ObjId, e: Edit, i: ObjId)
    requires i != id
    ensures i in Apply(cl, id, e) <==> i in cl
    ensures i in cl ==> Apply(cl, id, e)[i] == cl[i]
  {}

  lemma ApplySameAt(a: Cluster, b: Cluster, id: ObjId, e: Edit)
    requires (id in a <==> id in b) && (id in a ==> a[id] == b[id])
    ensures var l, r := Apply(a, id, e), Apply(b, id, e); (id in l <==> id in r) && (id in l ==> l[id] == r[id])
  {}

  lemma UndoSameAt(d: Discovery, c: Capture, a: Cluster, b: Cluster, i: ObjId)
    requires (i in a <==> i in b) && (i in a ==> a[i] == b[i])
    ensures var l, r := Undo(d, c, a), Undo(d, c, b); (i in l <==> i in r) && (i in l ==> l[i] == r[i])
  {
    if !On(d, c, i) {
      UndoElsewhere(d, c, a, i);
      UndoElsewhere(d, c, b, i);
    }
  }

  lemma SameClusters(l: Cluster, r: Cluster)
    requires forall i :: (i in l <==> i in r) && (i in l ==> l[i] == r[i])
    ensures l == r
  {
    assert l.Keys == r.Keys;
  }

  lemma UndoAfterEditElsewhere(d: Discovery, c: Capture, cl: Cluster, id: ObjId, e: Edit)
    requires !On(d, c, id)
    ensures Undo(d, c, Apply(cl, id, e)) == Apply(Undo(d, c, cl), id, e)
  {
    var l, r := Undo(d, c, Apply(cl, id, e)), Apply(Undo(d, c, cl), id, e);
    forall i ensures (i in l <==> i in r) && (i in l ==> l[i] == r[i]) {
      if i == id {
        UndoElsewhere(d, c, Apply(cl, id, e), id);
        UndoElsewhere(d, c, cl, id);
        ApplySameAt(cl, Undo(d, c, cl), id, e);
      } else {
        ApplyElsewhere(cl, id, e, i);
        ApplyElsewhere(Undo(d, c, cl), id, e, i);
        UndoSameAt(d, c, Apply(cl, id, e), cl, i);
      }
    }
    SameClusters(l, r);
  }

  lemma UndoPathsBelow(fs: seq<FieldDelta>, p: Path)
    requires p in PathsOf(UndosOf(fs))
    ensures VisiblePath(p) in FieldPathsOf(fs)
  {
    var a :| a in UndosOf(fs) && a.path == p;
    var i :| 0 <= i < |fs| && UndosOf(fs)[i] == a;
    assert fs[i] in fs;
  }

  lemma UndoFieldsAfterPatch(d: Discovery, c: Capture, cl: Cluster, id: ObjId, x: Json)
    requires c.scope.FieldScope? && On(d, c, id) && x.Obj? && Avoids(x, FieldPathsOf(c.fields))
    ensures Undo(d, c, Apply(cl, id, Patch(x))) == Apply(Undo(d, c, cl), id, Patch(x))
  {
    if id in cl {
      var P, u := PathsOf(UndosOf(c.fields)), FieldsMergePatch(c.fields);
      forall p | p in P ensures exists v | v in FieldPathsOf(c.fields) :: v <= p {
        UndoPathsBelow(c.fields, p);
        assert VisiblePath(p) <= p;
      }
      AvoidsBelow(x, FieldPathsOf(c.fields), P);
      PatchConfined(UndosOf(c.fields), P);
      if c.fields == [] {
        assert UndosOf(c.fields) == [];
        assert P == {};
      }
      PatchesCommute(cl[id], u, x, P);
    }
  }

  lemma UndoAfterEdit(d: Discovery, log: seq<Capture>, c: Capture, cl: Cluster, id: ObjId, e: Edit)
    requires c in log && KeepsOff(d, log, id, e)
    ensures Undo(d, c, Apply(cl, id, e)) == Apply(Undo(d, c, cl), id, e)
  {
    if On(d, c, id) {
      AvoidsMono(e.x, PathsOn(d, log, id), FieldPathsOf(c.fields));
      UndoFieldsAfterPatch(d, c, cl, id, e.x);
    } else {
      UndoAfterEditElsewhere(d, c, cl, id, e);
    }
  }

  lemma {:induction false} ReplayAfterEdit(d: Discovery, log: seq<Capture>, cl: Cluster, id: ObjId, e: Edit)
    requires IsCluster(cl) && KeepsOff(d, log, id, e)
    ensures Replay(d, log, Apply(cl, id, e)) == Apply(Replay(d, log, cl), id, e)
    decreases |log|
  {
    if log != [] {
      var n := |log| - 1;
      UndoAfterEdit(d, log, log[n], cl, id, e);
      UndoKeepsCluster(d, log[n], cl);
      KeepsOffPrefix(d, log, n, id, e);
      ReplayAfterEdit(d, log[..n], Undo(d, log[n], cl), id, e);
    }
  }

  lemma KeepsOffPrefix(d: Discovery, log: seq<Capture>, n: nat, id: ObjId, e: Edit)
    requires n <= |log| && KeepsOff(d, log, id, e)
    ensures KeepsOff(d, log[..n], id, e)
  {
    assert forall c | c in log[..n] :: c in log;
    if e.Patch? { AvoidsMonoOn(d, log, n, id, e.x); }
  }

  lemma AvoidsMonoOn(d: Discovery, log: seq<Capture>, n: nat, id: ObjId, x: Json)
    requires n <= |log|
    ensures PathsOn(d, log[..n], id) <= PathsOn(d, log, id)
    ensures Avoids(x, PathsOn(d, log, id)) ==> Avoids(x, PathsOn(d, log[..n], id))
    ensures ObjectOn(d, log[..n], id) ==> ObjectOn(d, log, id)
  {
    assert forall c | c in log[..n] :: c in log;
    if Avoids(x, PathsOn(d, log, id)) { AvoidsMono(x, PathsOn(d, log, id), PathsOn(d, log[..n], id)); }
  }

  lemma EditKeepsContent(a: Cluster, b: Cluster, id: ObjId, e: Edit)
    requires SameContent(a, b)
    ensures SameContent(Apply(a, id, e), Apply(b, id, e))
  {
    if e.Patch? && id in a {
      CanonMerge(a[id], e.x);
      CanonMerge(b[id], e.x);
    }
  }

  lemma PathsOnAreVisible(d: Discovery, log: seq<Capture>, id: ObjId, p: Path)
    requires p in PathsOn(d, log, id)
    ensures VisiblePath(p) == p
  {
    var c, f :| c in log && c.scope.FieldScope? && On(d, c, id) && f in c.fields && VisiblePath(f.path) == p;
    VisiblePathIdempotent(f.path);
  }

  lemma EditKeepsGround(d: Discovery, log: seq<Capture>, cl: Cluster, id: ObjId, e: Edit)
    requires AllRecorded(d, log) && GroundedOn(d, log, cl) && KeepsOff(d, log, id, e)
    ensures GroundedOn(d, log, Apply(cl, id, e))
  {
    var cl' := Apply(cl, id, e);
    forall i, p | i in cl' && !ObjectOn(d, log, i) && p in PathsOn(d, log, i)
      ensures Grounded(Canon(cl'[i]), p, PathsOn(d, log, i))
    {
      if i == id && id in cl && e.Patch? {
        PathsOnAreVisible(d, log, id, p);
        ContentAvoidingKeepsGround(cl[id], e.x, p, PathsOn(d, log, id));
      }
    }
  }

  /** Edits by others that keep off what the log covers survive the replay. */
  lemma EditKeepsUndoable(d: Discovery, log: seq<Capture>, cl: Cluster, base: Cluster, id: ObjId, e: Edit)
    requires Undoable(d, log, cl, base) && KeepsOff(d, log, id, e)
    ensures Undoable(d, log, Apply(cl, id, e), Apply(base, id, e))
  {
    ReplayAfterEdit(d, log, cl, id, e);
    EditKeepsContent(Replay(d, log, cl), base, id, e);
    EditKeepsGround(d, log, cl, id, e);
  }

  lemma FieldStillHolds(d: Discovery, log: seq<Capture>, c: Capture, o: Json, x: Json, id: ObjId, f: FieldDelta)
    requires c in log && Recorded(d, c) && c.scope.FieldScope? && On(d, c, id) && f in c.fields
    requires Avoids(x, PathsOn(d, log, id)) && FieldHolds(f, o)
    ensures FieldHolds(f, Merge(o, x))
  {
    assert VisiblePath(f.path) in PathsOn(d, log, id);
    VisiblePathIdempotent(f.path);
    ContentAvoidingKeepsValue(o, x, VisiblePath(f.path), PathsOn(d, log, id));
  }

  /** Edits by others that keep off what the log covers leave what its entries hold true of
      the base. */
  lemma EditKeepsFirstHolds(d: Discovery, log: seq<Capture>, base: Cluster, id: ObjId, e: Edit)
    requires AllRecorded(d, log) && KeepsOff(d, log, id, e) && FirstHolds(d, log, base)
    ensures FirstHolds(d, log, Apply(base, id, e))
  {
    forall i, j | 0 <= i < |log| && On(d, log[i], j) && !ObjectOn(d, log[..i], j)
      ensures HoldsBase(d, log[..i], log[i], Apply(base, id, e), j)
    {
      assert HoldsBase(d, log[..i], log[i], base, j);
      var c := log[i];
      assert c in log && Recorded(d, c);
      if j == id {
        forall f | f in c.fields && !AtOrAbove(PathsOn(d, log[..i], id), VisiblePath(f.path))
          ensures FieldHolds(f, Apply(base, id, e)[id])
        {
          FieldStillHolds(d, log, c, base[id], e.x, id, f);
        }
      }
    }
  }
}
