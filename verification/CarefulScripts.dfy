/** Scripts that can be rolled back exactly, by what their lines are. */
module CarefulScripts {
  import opened Options
  import opened MergePatch
  import opened Captures
  import opened CaptureKeys
  import opened SnapshotRun
  import opened CallKeys
  import opened SnapshotScript

  /** The builtin works on whole objects, under a reference without bars, and what it leaves
      behind names its kind and API version if what it found did. */
  predicate Whole(op: Op) {
    && (CallOf(op).Some? ==> CallOf(op).value.ObjectCall? && BarFree(CallOf(op).value.ref))
    && match op
       case MergeOp(_, patch) => patch.Obj? && !Has(patch, "kind") && !Has(patch, "apiVersion")
       case StrategicOp(_, outcome) => outcome.Obj? && HasGvk(outcome)
       case ApplyOp(m, _, outcome) => m.Obj? && outcome.Obj? && HasGvk(outcome)
       case CreateOp(m, _) => m.Obj? && HasGvk(m)
       case SetFields(_, _) => false
       case _ => true
  }

  /** Every object is one that names its kind and API version, as every object of a cluster is. */
  predicate Named(cl: Cluster) {
    forall id | id in cl :: cl[id].Obj? && HasGvk(cl[id])
  }

  ghost predicate Tidy(s: Run) {
    && Named(s.cluster)
    && (forall c | c in s.log :: c.scope.ObjectScope? && BarFree(c.ref))
    && (!s.failed ==> s.phase.Idle? && s.seen == KeysOf(s.log))
  }

  lemma MergeKeepsNames(o: Json, patch: Json)
    requires o.Obj? && HasGvk(o) && patch.Obj? && !Has(patch, "kind") && !Has(patch, "apiVersion")
    ensures HasGvk(Merge(o, patch))
  {
    MergeMember(o, patch, "kind");
    MergeMember(o, patch, "apiVersion");
  }

  lemma WriteKeepsNames(env: Env, cl: Cluster, op: Op, call: Call)
    requires Named(cl) && Whole(op) && CallOf(op) == Some(call) && Written(env, cl, op, call).Some?
    ensures Named(Written(env, cl, op, call).value)
  {
    var id := Target(env.d, call.ref).value;
    match op
    case Scale(_, _, _, n) =>
      MergeKeepsNames(cl[id], Obj(map["spec" := Obj(map["replicas" := Num(n as real)])]));
    case MergeOp(_, patch) => MergeKeepsNames(cl[id], patch);
    case _ =>
  }

  lemma CaptureKeepsTidy(env: Env, s: Run, call: Call, getFails: bool)
    requires Tidy(s) && !s.failed && call.ObjectCall? && BarFree(call.ref)
    ensures var s' := ReportStep(env, BeginStep(env, s, call, getFails));
      && s'.cluster == s.cluster
      && (forall c | c in s'.log :: c.scope.ObjectScope? && BarFree(c.ref))
      && (!s'.failed ==> s'.seen == KeysOf(s'.log))
  {
    var id := Target(env.d, call.ref);
    if CallKey(call) !in s.seen && id.Some? {
      RecordMatchesCall(call, s.cluster, id.value, |s.log|);
      KeysOfSnoc(s.log, Record(call, s.cluster, id.value, |s.log|));
    }
  }

  lemma LineKeepsTidy(env: Env, s: Run, line: Line)
    requires Tidy(s) && !s.failed && Whole(line.op)
    ensures Tidy(LineStep(env, s, line))
  {
    var call := CallOf(line.op);
    if call.Some? {
      LineUnfolds(env, s, line, call.value);
      CaptureKeepsTidy(env, s, call.value, line.fault.GetFault?);
      if Written(env, s.cluster, line.op, call.value).Some? { WriteKeepsNames(env, s.cluster, line.op, call.value); }
    }
  }

  lemma {:induction false} WholeFromHere(env: Env, s: Run, script: seq<Line>)
    requires Tidy(s) && forall line | line in script :: Whole(line.op)
    ensures CarefulScript(env, s, script)
    decreases |script|
  {
    if script != [] && !s.failed {
      var line := script[0];
      assert line in script && forall l | l in script[1..] :: l in script;
      if CallOf(line.op).Some? && CallKey(CallOf(line.op).value) in s.seen {
        SeenCleanCallIsCovered(env, s.log, CallOf(line.op).value);
      }
      LineKeepsTidy(env, s, line);
      WholeFromHere(env, LineStep(env, s, line), script[1..]);
    }
  }

  /** Every script of whole-object builtins is careful, on every cluster, whatever goes wrong
      while it runs. */
  lemma WholeObjectScriptsAreCareful(env: Env, cl: Cluster, script: seq<Line>)
    requires Named(cl) && forall line | line in script :: Whole(line.op)
    ensures CarefulScript(env, Start(cl), script)
  {
    assert KeysOf([]) == {};
    WholeFromHere(env, Start(cl), script);
  }
}
