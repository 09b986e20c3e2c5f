/** Field calls of a script that share a first-wins key with an earlier one: they are written but
    not captured, and exactly when they are undone all the same. */
module CollidingCalls {
  import opened Options
  import opened MergePatch
  import opened Stripping
  import opened FieldPaths
  import opened VisiblePaths
  import opened FieldContent
  import opened ClearedPaths
  import opened Captures
  import opened CaptureKeys
  import opened UndoLog
  import opened UndoExactness
  import opened SnapshotRun
  import opened SnapshotScript

  // ---------------------------------------------------------------- in a run

  /** A field call whose key was seen is written without being captured. */
  lemma SeenFieldCallSteps(env: Env, s: Run, call: Call, id: ObjId)
    requires !s.failed && s.phase.Idle? && call.FieldCall? && CallKey(call) in s.seen
    requires Target(env.d, call.ref) == Some(id) && id in s.cluster
    ensures Step(env, s, Begin(call, false)) == s.(phase := Ready(call))
    ensures Step(env, s.(phase := Ready(call)), MutateFields) == s.(cluster := SetFieldsOf(s.cluster, id, call.sets))
  {}

  /** It can be rolled back if and only if it changes nothing of the object but what the log
      covers, which is so when the log covers its fields. */
  lemma SeenFieldCallIsUndoneIff(env: Env, s: Run, call: Call, id: ObjId)
    requires Inv(env, s) && !s.failed && s.phase.Idle? && call.FieldCall? && CallKey(call) in s.seen
    requires Target(env.d, call.ref) == Some(id) && id in s.cluster
    ensures Step(env, Step(env, s, Begin(call, false)), MutateFields)
         == s.(cluster := SetFieldsOf(s.cluster, id, call.sets))
    ensures SameContent(Replay(env.d, s.log, SetFieldsOf(s.cluster, id, call.sets)), s.base) <==>
            ChangesOnlyCaptured(env.d, s.log, s.cluster[id], id, call.sets)
    ensures CoversCall(env, s.log, call) ==> ChangesOnlyCaptured(env.d, s.log, s.cluster[id], id, call.sets)
  {
    SeenFieldCallSteps(env, s, call, id);
    FieldWriteIsUndoneIff(env.d, s.log, s.cluster, s.base, id, call.sets);
    OnlyCapturedIff(env.d, s.log, s.cluster, s.base, id, call.sets);
  }

  lemma SeenObjectCallSteps(env: Env, s: Run, call: Call, id: ObjId, result: Option<Json>)
    requires !s.failed && s.phase.Idle? && call.ObjectCall? && CallKey(call) in s.seen
    requires Target(env.d, call.ref) == Some(id) && (result.Some? ==> result.value.Obj?)
    ensures Step(env, s, Begin(call, false)) == s.(phase := Ready(call))
    ensures Step(env, s.(phase := Ready(call)), MutateObject(result)) == s.(cluster := Put(s.cluster, id, result))
  {}

  /** So is an object call: it can be rolled back if and only if its result differs from what was
      there in nothing but what the log covers. */
  lemma SeenObjectCallIsUndoneIff(env: Env, s: Run, call: Call, id: ObjId, result: Option<Json>)
    requires Inv(env, s) && !s.failed && s.phase.Idle? && call.ObjectCall? && CallKey(call) in s.seen
    requires Target(env.d, call.ref) == Some(id) && (result.Some? ==> result.value.Obj?)
    ensures Step(env, Step(env, s, Begin(call, false)), MutateObject(result))
         == s.(cluster := Put(s.cluster, id, result))
    ensures SameContent(Replay(env.d, s.log, Put(s.cluster, id, result)), s.base) <==>
            SameRestAt(env.d, s.log, s.cluster, Put(s.cluster, id, result), id)
  {
    SeenObjectCallSteps(env, s, call, id, result);
    ChangeAtIsUndoneIff(env.d, s.log, s.cluster, s.base, id, result);
  }

  // ------------------------------------------------------------- in a script

  /** One field call of a script. */
  function SetAll(ref: Ref, sets: seq<Assign>): Line {
    Line(SetFields(ref, sets), NoFault)
  }

  predicate NoEmptyPaths(sets: seq<Assign>) {
    forall a | a in sets :: a.path != []
  }

  /** A first field call: captured, reported and written. */
  lemma FirstSet(env: Env, cl: Cluster, ref: Ref, id: ObjId, sets: seq<Assign>)
    requires Target(env.d, ref) == Some(id) && id in cl && NoEmptyPaths(sets)
    ensures var call := FieldCall(ref, sets);
            var s := LineStep(env, Start(cl), SetAll(ref, sets));
            && !s.failed && s.phase.Idle? && s.seen == {CallKey(call)}
            && s.log == [Record(call, cl, id, 0)] && s.cluster == SetFieldsOf(cl, id, sets)
  {
    LineUnfolds(env, Start(cl), SetAll(ref, sets), FieldCall(ref, sets));
  }

  /** A field call whose key was seen: written, but not captured. */
  lemma SeenSet(env: Env, s: Run, ref: Ref, id: ObjId, sets: seq<Assign>)
    requires !s.failed && s.phase.Idle? && Target(env.d, ref) == Some(id) && id in s.cluster && NoEmptyPaths(sets)
    requires CallKey(FieldCall(ref, sets)) in s.seen
    ensures LineStep(env, s, SetAll(ref, sets)) == s.(cluster := SetFieldsOf(s.cluster, id, sets))
  {
    LineUnfolds(env, s, SetAll(ref, sets), FieldCall(ref, sets));
  }

  lemma ScriptSnoc(env: Env, s: Run, script: seq<Line>, line: Line)
    requires !ScriptRun(env, s, script).failed
    ensures ScriptRun(env, s, script + [line]) == LineStep(env, ScriptRun(env, s, script), line)
  {
    ScriptSplits(env, s, script, [line]);
    OneLine(env, ScriptRun(env, s, script), line);
  }

  /** Exactness at the end of a script.  After any careful script, a field call whose key was
      seen succeeds without being captured, and replaying the log then gives every object back
      its initial snapshot if and only if the call changed nothing of its object but what the
      log covers; which is so whenever the log covers its fields. */
  lemma SeenLineIsUndoneIff(env: Env, cl: Cluster, script: seq<Line>, ref: Ref, id: ObjId, sets: seq<Assign>)
    requires IsCluster(cl) && CarefulScript(env, Start(cl), script) && NoEmptyPaths(sets)
    requires var s := ScriptRun(env, Start(cl), script);
             && !s.failed && CallKey(FieldCall(ref, sets)) in s.seen
             && Target(env.d, ref) == Some(id) && id in s.cluster
    ensures var s := ScriptRun(env, Start(cl), script);
            var s' := ScriptRun(env, Start(cl), script + [SetAll(ref, sets)]);
            && !s'.failed && s'.log == s.log
            && (SameSnapshots(Replay(env.d, s'.log, s'.cluster), cl) <==>
                  ChangesOnlyCaptured(env.d, s.log, s.cluster[id], id, sets))
            && (CoversCall(env, s.log, FieldCall(ref, sets)) ==>
                  ChangesOnlyCaptured(env.d, s.log, s.cluster[id], id, sets))
  {
    var s := ScriptRun(env, Start(cl), script);
    InvHolds(env, cl, []);
    ScriptKeepsGood(env, Start(cl), script);
    ScriptSnoc(env, Start(cl), script, SetAll(ref, sets));
    SeenSet(env, s, ref, id, sets);
    SeenFieldCallIsUndoneIff(env, s, FieldCall(ref, sets), id);
    SameContentSameSnapshots(Replay(env.d, s.log, SetFieldsOf(s.cluster, id, sets)), cl);
  }

  /** Any two field calls that share a key: the second is never captured, and is undone if and
      only if it changes nothing but the fields of the first; when the fields of the two are
      unrelated, exactly when it would change no content of the initial object. */
  lemma CollidingCallsAreUndoneIff(env: Env, cl: Cluster, ref: Ref, id: ObjId, first: seq<Assign>, second: seq<Assign>)
    requires IsCluster(cl) && Target(env.d, ref) == Some(id) && id in cl
    requires NoEmptyPaths(first) && NoEmptyPaths(second) && Restorable(cl[id], VisiblePathsOf(first))
    requires CallKey(FieldCall(ref, first)) == CallKey(FieldCall(ref, second))
    ensures var s := ScriptRun(env, Start(cl), [SetAll(ref, first), SetAll(ref, second)]);
            var P, o := VisiblePathsOf(first), Merge(cl[id], PatchOf(first));
            var undone := SameSnapshots(Replay(env.d, s.log, s.cluster), cl);
            && !s.failed && |s.log| == 1
            && (undone <==> Rest(Merge(o, PatchOf(second)), P) == Rest(o, P))
            && (VisiblePathsOf(second) <= P ==> undone)
            && (Avoids(PatchOf(second), P) ==>
                  (undone <==> Canon(Merge(cl[id], PatchOf(second))) == Canon(cl[id])))
  {
    var script := [SetAll(ref, first)];
    FirstSet(env, cl, ref, id, first);
    assert script + [SetAll(ref, second)] == [SetAll(ref, first), SetAll(ref, second)];
    var s := LineStep(env, Start(cl), script[0]);
    OneLine(env, Start(cl), script[0]);
    FirstCallIsCareful(env, cl, ref, id, first);
    SeenLineIsUndoneIff(env, cl, script, ref, id, second);
    FirstCallCovers(env, cl, ref, id, first);
    InvHolds(env, cl, []);
    ScriptKeepsGood(env, Start(cl), script);
    OnlyCapturedIff(env.d, s.log, s.cluster, s.base, id, second);
  }

  lemma FirstCallIsCareful(env: Env, cl: Cluster, ref: Ref, id: ObjId, first: seq<Assign>)
    requires Target(env.d, ref) == Some(id) && id in cl && NoEmptyPaths(first)
    requires Restorable(cl[id], VisiblePathsOf(first))
    ensures CarefulScript(env, Start(cl), [SetAll(ref, first)])
  {
    var script := [SetAll(ref, first)];
    assert script[1..] == [];
    assert CarefulScript(env, LineStep(env, Start(cl), script[0]), script[1..]);
  }

  /** The log of one field call covers its fields and nothing else. */
  lemma FirstCallCovers(env: Env, cl: Cluster, ref: Ref, id: ObjId, first: seq<Assign>)
    requires Target(env.d, ref) == Some(id) && id in cl && NoEmptyPaths(first)
    ensures var s := LineStep(env, Start(cl), SetAll(ref, first));
            !ObjectOn(env.d, s.log, id) && PathsOn(env.d, s.log, id) == VisiblePathsOf(first) && s.base == cl
  {
    FirstSet(env, cl, ref, id, first);
    var c := Record(FieldCall(ref, first), cl, id, 0);
    RecordMatchesCall(FieldCall(ref, first), cl, id, 0);
    CoverOfSnoc(env.d, [], c, id);
    assert [] + [c] == [c];
    LineLands(env, Start(cl), SetAll(ref, first));
  }

  lemma DottedAvoids(w: Json)
    ensures Avoids(PatchOf([Assign(["a", "b"], w)]), {["a.b"]})
  {
    OneAssignment(["a", "b"], w);
    assert Tails({["a.b"]}, "a") == {};
    assert PatchOf([Assign(["a", "b"], w)]).m.Keys == {"a"};
  }

  /** In particular a script that sets the field `a.b` and then the field `b` of `a`. */
  lemma DottedCallIsUndoneIff(env: Env, cl: Cluster, ref: Ref, id: ObjId, v: Json, w: Json)
    requires IsCluster(cl) && Target(env.d, ref) == Some(id) && id in cl && !Value(Canon(cl[id]), ["a.b"]).Obj?
    ensures var second := [Assign(["a", "b"], w)];
            var s := ScriptRun(env, Start(cl), [SetAll(ref, [Assign(["a.b"], v)]), SetAll(ref, second)]);
            SameSnapshots(Replay(env.d, s.log, s.cluster), cl) <==>
              Canon(Merge(cl[id], PatchOf(second))) == Canon(cl[id])
  {
    var first, second := [Assign(["a.b"], v)], [Assign(["a", "b"], w)];
    FieldsKeyCollides();
    assert PathList(FieldCall(ref, first)) == [["a.b"]] && PathList(FieldCall(ref, second)) == [["a", "b"]];
    assert VisiblePathsOf(first) == {["a.b"]};
    DottedAvoids(w);
    CollidingCallsAreUndoneIff(env, cl, ref, id, first, second);
  }

  /** Setting `a.b` back does not touch `b` of `a`. */
  lemma DottedUndoMisses(o: Json, v: Json, w: Json, u: Json)
    requires o.Obj? && At(o, "a").Obj? && !w.Null? && !w.Obj?
    ensures var m := Merge(Merge(o, PatchOf([Assign(["a.b"], v)])), PatchOf([Assign(["a", "b"], w)]));
            var r := Merge(m, PatchOf([Assign(["a.b"], u)]));
            At(r, "a").Obj? && At(At(r, "a"), "b") == w
  {
    OneAssignment(["a.b"], v);
    OneAssignment(["a", "b"], w);
    OneAssignment(["a.b"], u);
    assert ["a", "b"][1..] == ["b"];
    var first, second, undo := PatchOf([Assign(["a.b"], v)]), PatchOf([Assign(["a", "b"], w)]),
                               PatchOf([Assign(["a.b"], u)]);
    var m := Merge(Merge(o, first), second);
    MergeMember(o, first, "a");
    MergeMember(Merge(o, first), second, "a");
    MergeMember(m, undo, "a");
    MergeMember(At(o, "a"), second.m["a"], "b");
  }

  lemma DifferentLeafDifferentSnapshot(x: Json, y: Json, w: Json)
    requires x.Obj? && y.Obj? && At(x, "a").Obj? && At(y, "a").Obj?
    requires At(At(x, "a"), "b") == w && At(At(y, "a"), "b") != w && !w.Null? && !w.Obj?
    ensures Strip(DropNulls(x)) != Strip(DropNulls(y))
  {
    StripMember(DropNulls(x), "a");
    StripMember(DropNulls(y), "a");
    assert At(DropNulls(x), "a") == DropNulls(At(x, "a")) && At(DropNulls(y), "a") == DropNulls(At(y, "a"));
    assert At(DropNulls(At(x, "a")), "b") == DropNulls(w) == w;
    assert At(DropNulls(At(y, "a")), "b") == DropNulls(At(At(y, "a"), "b")) != w;
  }

  /** Two field calls that share a key. */
  lemma TwoCalls(env: Env, cl: Cluster, ref: Ref, id: ObjId, first: seq<Assign>, second: seq<Assign>)
    requires Target(env.d, ref) == Some(id) && id in cl && NoEmptyPaths(first) && NoEmptyPaths(second)
    requires CallKey(FieldCall(ref, first)) == CallKey(FieldCall(ref, second))
    ensures var s := ScriptRun(env, Start(cl), [SetAll(ref, first), SetAll(ref, second)]);
            && !s.failed && s.log == [Record(FieldCall(ref, first), cl, id, 0)]
            && s.cluster == SetFieldsOf(SetFieldsOf(cl, id, first), id, second)
  {
    OneLine(env, Start(cl), SetAll(ref, first));
    FirstSet(env, cl, ref, id, first);
    SeenSet(env, LineStep(env, Start(cl), SetAll(ref, first)), ref, id, second);
    ScriptSnoc(env, Start(cl), [SetAll(ref, first)], SetAll(ref, second));
    assert [SetAll(ref, first)] + [SetAll(ref, second)] == [SetAll(ref, first), SetAll(ref, second)];
  }

  /** Names with separators in them are a real exception: a script that sets the field `a.b`
      and then the field `b` of `a` runs to its end, captures the first only, and replaying its
      log leaves the second change in place. */
  lemma CollidingCallIsNotUndone(env: Env, cl: Cluster, ref: Ref, id: ObjId, v: Json, w: Json)
    requires IsCluster(cl) && Target(env.d, ref) == Some(id) && id in cl
    requires At(cl[id], "a").Obj? && At(At(cl[id], "a"), "b") != w && !w.Null? && !w.Obj?
    ensures var s := ScriptRun(env, Start(cl), [SetAll(ref, [Assign(["a.b"], v)]), SetAll(ref, [Assign(["a", "b"], w)])]);
            && !s.failed && |s.log| == 1 && id in Replay(env.d, s.log, s.cluster)
            && At(At(Replay(env.d, s.log, s.cluster)[id], "a"), "b") == w
            && !SameSnapshots(Replay(env.d, s.log, s.cluster), cl)
  {
    FieldsKeyCollides();
    var first, second := [Assign(["a.b"], v)], [Assign(["a", "b"], w)];
    assert PathList(FieldCall(ref, first)) == [["a.b"]] && PathList(FieldCall(ref, second)) == [["a", "b"]];
    TwoCalls(env, cl, ref, id, first, second);
    var s := ScriptRun(env, Start(cl), [SetAll(ref, first), SetAll(ref, second)]);
    var c := s.log[0];
    assert s.log[..0] == [];
    assert Replay(env.d, s.log, s.cluster) == Undo(env.d, c, s.cluster);
    var undo := UndoOf(c.fields[0]);
    assert UndosOf(c.fields) == [Assign(["a.b"], undo.value)];
    DottedUndoMisses(cl[id], v, w, undo.value);
    DifferentLeafDifferentSnapshot(Undo(env.d, c, s.cluster)[id], cl[id], w);
  }
}
