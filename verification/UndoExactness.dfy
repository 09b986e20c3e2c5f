/** Exactly which changes a replay of the log undoes. */
module UndoExactness {
  import opened Options
  import opened MergePatch
  import opened Stripping
  import opened FieldPaths
  import opened VisiblePaths
  import opened ClearedPaths
  import opened Captures
  import opened UndoLog

  /** At `id`, nothing but what the log covers is different: the object is captured whole, or it
      is in neither cluster, or it has the same content in both when the captured fields are
      cleared. */
  ghost predicate SameRestAt(d: Discovery, log: seq<Capture>, a: Cluster, b: Cluster, id: ObjId) {
    || ObjectOn(d, log, id)
    || (id !in a && id !in b)
    || (id in a && id in b && Rest(a[id], PathsOn(d, log, id)) == Rest(b[id], PathsOn(d, log, id)))
  }

  ghost predicate SameRest(d: Discovery, log: seq<Capture>, a: Cluster, b: Cluster) {
    forall id :: SameRestAt(d, log, a, b, id)
  }

  lemma NoEmptyPath(d: Discovery, log: seq<Capture>, id: ObjId)
    requires AllRecorded(d, log)
    ensures [] !in PathsOn(d, log, id)
  {
    forall c | c in log && c.scope.FieldScope? ensures [] !in FieldPathsOf(c.fields) {
      var patch := PatchOf(Visible(UndosOf(c.fields)));
      assert Recorded(d, c) && Get(patch, []) == Some(patch);
    }
  }

  // --------------------------------------------------- undoing only touches the captured

  lemma UndoKeepsRestAt(d: Discovery, log: seq<Capture>, c: Capture, cl: Cluster, id: ObjId)
    requires IsCluster(cl) && AllRecorded(d, log) && c in log
    ensures SameRestAt(d, log, cl, Undo(d, c, cl), id)
  {
    if On(d, c, id) && c.scope.FieldScope? && id in cl {
      NoEmptyPath(d, log, id);
      PathsOfUndos(c.fields);
      UndoField(d, c, cl, id);
      RestKept(cl[id], UndosOf(c.fields), PathsOn(d, log, id));
    } else if !On(d, c, id) {
      UndoElsewhere(d, c, cl, id);
    }
  }

  lemma {:induction false} ReplayKeepsRest(d: Discovery, log: seq<Capture>, part: seq<Capture>, cl: Cluster)
    requires IsCluster(cl) && AllRecorded(d, log) && forall c | c in part :: c in log
    ensures SameRest(d, log, cl, Replay(d, part, cl))
    decreases |part|
  {
    if part != [] {
      var n := |part| - 1;
      var next := Undo(d, part[n], cl);
      UndoKeepsCluster(d, part[n], cl);
      ReplayKeepsRest(d, log, part[..n], next);
      forall id ensures SameRestAt(d, log, cl, Replay(d, part, cl), id) {
        UndoKeepsRestAt(d, log, part[n], cl, id);
        assert SameRestAt(d, log, next, Replay(d, part, cl), id);
      }
    }
  }

  // ---------------------------------------------------- and reads nothing but the rest

  lemma UndoReadsRestAt(d: Discovery, log: seq<Capture>, c: Capture, a: Cluster, b: Cluster, id: ObjId)
    requires IsCluster(a) && IsCluster(b) && AllRecorded(d, log + [c]) && SameRestAt(d, log + [c], a, b, id)
    ensures SameRestAt(d, log, Undo(d, c, a), Undo(d, c, b), id)
  {
    assert c in log + [c] && forall e | e in log :: e in log + [c];
    CoverOfSnoc(d, log, c, id);
    if ObjectOn(d, log, id) {
    } else if !On(d, c, id) {
      UndoElsewhere(d, c, a, id);
      UndoElsewhere(d, c, b, id);
    } else if c.scope.ObjectScope? {
      UndoCoversObject(d, c, a, b, id);
    } else {
      UndoField(d, c, a, id);
      UndoField(d, c, b, id);
      if id in a && id in b {
        NoEmptyPath(d, log, id);
        RestAfterUndo(a[id], b[id], UndosOf(c.fields), PathsOn(d, log, id), FieldPathsOf(c.fields));
      }
    }
  }

  lemma {:induction false} ReplayReadsRest(d: Discovery, log: seq<Capture>, a: Cluster, b: Cluster)
    requires IsCluster(a) && IsCluster(b) && AllRecorded(d, log) && SameRest(d, log, a, b)
    ensures SameContent(Replay(d, log, a), Replay(d, log, b))
    decreases |log|
  {
    if log == [] {
      forall id ensures (id in a <==> id in b) && (id in a ==> Canon(a[id]) == Canon(b[id])) {
        assert SameRestAt(d, log, a, b, id) && PathsOn(d, log, id) == {};
        if id in a && id in b {
          RestWhole(a[id]);
          RestWhole(b[id]);
        }
      }
    } else {
      var n := |log| - 1;
      var front, c := log[..n], log[n];
      assert front + [c] == log;
      UndoKeepsCluster(d, c, a);
      UndoKeepsCluster(d, c, b);
      forall id ensures SameRestAt(d, front, Undo(d, c, a), Undo(d, c, b), id) {
        UndoReadsRestAt(d, front, c, a, b, id);
      }
      ReplayReadsRest(d, front, Undo(d, c, a), Undo(d, c, b));
    }
  }

  // ------------------------------------------------------------------ exactness

  /** Exactly which changes are undone, whatever they are: a replay from the changed cluster
      ends in the base if and only if the change leaves everything but what the log covers as
      it was. */
  lemma ChangeIsUndoneIff(d: Discovery, log: seq<Capture>, cl: Cluster, cl': Cluster, base: Cluster)
    requires Undoable(d, log, cl, base) && IsCluster(cl')
    ensures SameContent(Replay(d, log, cl'), base) <==> SameRest(d, log, cl, cl')
  {
    if SameContent(Replay(d, log, cl'), base) {
      ReplayKeepsRest(d, log, log, cl);
      ReplayKeepsRest(d, log, log, cl');
      forall id ensures SameRestAt(d, log, cl, cl', id) {
        assert SameRestAt(d, log, cl, Replay(d, log, cl), id);
        assert SameRestAt(d, log, cl', Replay(d, log, cl'), id);
      }
    }
    if SameRest(d, log, cl, cl') { ReplayReadsRest(d, log, cl, cl'); }
  }

  /** When the change leaves the captured fields on their ground, that is to say exactly when it
      is covered. */
  lemma GroundedChangeIsUndoneIff(d: Discovery, log: seq<Capture>, cl: Cluster, cl': Cluster, base: Cluster)
    requires Undoable(d, log, cl, base) && IsCluster(cl') && GroundedOn(d, log, cl')
    ensures SameContent(Replay(d, log, cl'), base) <==> Covered(d, log, cl, cl')
  {
    if Covered(d, log, cl, cl') {
      CoveredChange(d, log, cl, cl', base);
    } else if SameContent(Replay(d, log, cl'), base) {
      DifferencesAreCovered(d, log, cl, base);
      DifferencesAreCovered(d, log, cl', base);
      CoveredSymmetric(d, log, cl', base);
      CoveredTransitive(d, log, cl, base, cl');
    }
  }

  lemma CoveredSymmetric(d: Discovery, log: seq<Capture>, a: Cluster, b: Cluster)
    requires Covered(d, log, a, b)
    ensures Covered(d, log, b, a)
  {
    forall id ensures CoveredAt(d, log, b, a, id) {
      assert CoveredAt(d, log, a, b, id);
      if !ObjectOn(d, log, id) && id in a { AgreeSymmetric(Canon(a[id]), Canon(b[id]), PathsOn(d, log, id)); }
    }
  }

  /** A patch on paths unrelated to everything captured is undone exactly when it changes no
      content. */
  lemma UnrelatedPatchIsUndoneIff(d: Discovery, log: seq<Capture>, cl: Cluster, base: Cluster, id: ObjId, x: Json)
    requires Undoable(d, log, cl, base) && id in base && x.Obj? && KeepsOff(d, log, id, Patch(x))
    ensures SameContent(Replay(d, log, Apply(cl, id, Patch(x))), base) <==> Canon(Merge(base[id], x)) == Canon(base[id])
  {
    ReplayAfterEdit(d, log, cl, id, Patch(x));
    PatchedContentIff(Replay(d, log, cl), base, id, x);
  }

  lemma PatchedContentIff(a: Cluster, base: Cluster, id: ObjId, x: Json)
    requires SameContent(a, base) && id in base
    ensures SameContent(Apply(a, id, Patch(x)), base) <==> Canon(Merge(base[id], x)) == Canon(base[id])
  {
    CanonMerge(a[id], x);
    CanonMerge(base[id], x);
    assert Canon(Apply(a, id, Patch(x))[id]) == Canon(Merge(base[id], x));
  }

  /** Changing one object, in any way. */
  lemma ChangeAtIsUndoneIff(d: Discovery, log: seq<Capture>, cl: Cluster, base: Cluster, id: ObjId, x: Option<Json>)
    requires Undoable(d, log, cl, base) && (x.Some? ==> x.value.Obj?)
    ensures SameContent(Replay(d, log, Put(cl, id, x)), base) <==> SameRestAt(d, log, cl, Put(cl, id, x), id)
  {
    ChangeIsUndoneIff(d, log, cl, Put(cl, id, x), base);
    RestAtOthers(d, log, cl, id, x);
  }

  lemma RestAtOthers(d: Discovery, log: seq<Capture>, cl: Cluster, id: ObjId, x: Option<Json>)
    ensures SameRest(d, log, cl, Put(cl, id, x)) <==> SameRestAt(d, log, cl, Put(cl, id, x), id)
  {
    forall j | j != id ensures SameRestAt(d, log, cl, Put(cl, id, x), j) {}
  }

  /** What a field call makes of the cluster. */
  function SetFieldsOf(cl: Cluster, id: ObjId, sets: seq<Assign>): Cluster
    requires id in cl
  {
    cl[id := Merge(cl[id], PatchOf(sets))]
  }

  /** The call changes no content of the object but what the log covers. */
  ghost predicate ChangesOnlyCaptured(d: Discovery, log: seq<Capture>, o: Json, id: ObjId, sets: seq<Assign>) {
    || ObjectOn(d, log, id)
    || Rest(Merge(o, PatchOf(sets)), PathsOn(d, log, id)) == Rest(o, PathsOn(d, log, id))
  }

  /** A write to fields is undone exactly when it changes only what the log covers. */
  lemma FieldWriteIsUndoneIff(d: Discovery, log: seq<Capture>, cl: Cluster, base: Cluster, id: ObjId, sets: seq<Assign>)
    requires Undoable(d, log, cl, base) && id in cl
    ensures SameContent(Replay(d, log, SetFieldsOf(cl, id, sets)), base) <==>
      ChangesOnlyCaptured(d, log, cl[id], id, sets)
  {
    ChangeAtIsUndoneIff(d, log, cl, base, id, Some(Merge(cl[id], PatchOf(sets))));
  }

  /** That is so when the log covers its fields; and when they are unrelated to every captured
      one it is so exactly when the write would change no content of the base object. */
  lemma OnlyCapturedIff(d: Discovery, log: seq<Capture>, cl: Cluster, base: Cluster, id: ObjId, sets: seq<Assign>)
    requires Undoable(d, log, cl, base) && id in cl
    ensures VisiblePathsOf(sets) <= PathsOn(d, log, id) ==> ChangesOnlyCaptured(d, log, cl[id], id, sets)
    ensures !ObjectOn(d, log, id) ==> id in base
    ensures !ObjectOn(d, log, id) && Avoids(PatchOf(sets), PathsOn(d, log, id)) ==>
      (ChangesOnlyCaptured(d, log, cl[id], id, sets) <==> Canon(Merge(base[id], PatchOf(sets))) == Canon(base[id]))
  {
    NoEmptyPath(d, log, id);
    if VisiblePathsOf(sets) <= PathsOn(d, log, id) { RestKept(cl[id], sets, PathsOn(d, log, id)); }
    if !ObjectOn(d, log, id) {
      DifferencesAreCovered(d, log, cl, base);
      assert CoveredAt(d, log, cl, base, id);
      if Avoids(PatchOf(sets), PathsOn(d, log, id)) {
        FieldWriteIsUndoneIff(d, log, cl, base, id, sets);
        UnrelatedPatchIsUndoneIff(d, log, cl, base, id, PatchOf(sets));
      }
    }
  }
}
