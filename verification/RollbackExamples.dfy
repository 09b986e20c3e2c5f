/** Two runs of scripts on a cluster with one Deployment. */
module RollbackExamples {
  import opened Options
  import opened MergePatch
  import opened FieldPaths
  import opened Captures
  import opened CaptureKeys
  import opened SnapshotRun
  import opened SnapshotScript
  import opened BuiltinEffects
  import opened CarefulScripts
  import opened RestoredFields
  import opened SnapshotEngine

  const DEPLOYMENTS := Gvr("apps", "v1", "deployments")
  const WEB := ObjId(DEPLOYMENTS, "prod", "web")
  const WEB_REF := Ref("", "Deployment", "prod", "web", "")

  /** The Deployment prod/web with a label, server-owned metadata, three replicas and a status. */
  function Web(app: string): Json {
    Obj(map[
      "kind" := Str("Deployment"), "apiVersion" := Str("apps/v1"),
      "metadata" := Obj(map[
        "name" := Str("web"), "namespace" := Str("prod"), "uid" := Str("4f1e"),
        "labels" := Obj(map["app" := Str(app)])]),
      "spec" := Obj(map["replicas" := Num(3.0)]),
      "status" := Obj(map["readyReplicas" := Num(3.0)])])
  }

  function Relabel(app: string): Line {
    Line(MergeOp(WEB_REF, Obj(map["metadata" := Obj(map["labels" := Obj(map["app" := Str(app)])])])), NoFault)
  }

  lemma WebIsThere(d: Discovery)
    requires "Deployment" in d.kinds && d.kinds["Deployment"] == DEPLOYMENTS
    ensures Target(d, WEB_REF) == Some(WEB) && BarFree(WEB_REF)
  {}

  /** A script that relabels the Deployment, scales it to zero and then gives up leaves it with
      the label and the replicas it had. */
  method RelabelScaleAndFail(runner: Runner, app: string, other: string)
    requires "Deployment" in runner.env.d.kinds && runner.env.d.kinds["Deployment"] == DEPLOYMENTS
    requires runner.api.objects == map[WEB := Web(app)]
    modifies runner.api
    ensures WEB in runner.api.objects
    ensures At(At(At(runner.api.objects[WEB], "metadata"), "labels"), "app") == Str(app)
    ensures At(At(runner.api.objects[WEB], "spec"), "replicas") == Num(3.0)
  {
    ghost var initial := runner.api.objects;
    var script := [Relabel(other), Line(Scale("prod", "Deployment", "web", 0), NoFault), Line(Fail, NoFault)];
    WebIsThere(runner.env.d);
    assert Named(initial);
    assert forall line | line in script :: Whole(line.op);
    WholeObjectScriptsAreCareful(runner.env, initial, script);
    FailingScriptFails(runner.env, initial, script, 2);
    var failed, durable := runner.RunSnapshotAction(script, (i: nat) => false);
    assert failed;
    assert SameFields(runner.api.objects[WEB], Web(app));
    LabelAndReplicas(runner.api.objects[WEB], app);
  }

  /** A script with an explicit failure in it fails. */
  lemma FailingScriptFails(env: Env, cl: Cluster, script: seq<Line>, i: nat)
    requires i < |script| && script[i].op.Fail?
    ensures exists j: nat :: StopsAt(env, Start(cl), script, j)
  {
    var before := ScriptRun(env, Start(cl), script[..i]);
    ScriptFailsIff(env, Start(cl), script);
    assert script == script[..i] + script[i..];
    ScriptSplits(env, Start(cl), script[..i], script[i..]);
    assert before.failed ==> ScriptRun(env, before, script[i..]) == before;
    assert !before.failed ==> StopsAt(env, Start(cl), script, i);
  }

  lemma LabelAndReplicas(o: Json, app: string)
    requires SameFields(o, Web(app))
    ensures At(At(At(o, "metadata"), "labels"), "app") == Str(app)
    ensures At(At(o, "spec"), "replicas") == Num(3.0)
  {
    SameLabels(o, Web(app), ["app"]);
    ValueOfThree(o, "metadata", "labels", "app");
    ValueOfThree(Web(app), "metadata", "labels", "app");
    SameMember(o, Web(app), "spec", ["replicas"]);
    ValueOfTwo(o, "spec", "replicas");
    ValueOfTwo(Web(app), "spec", "replicas");
  }

  lemma ValueOfOne(o: Json, a: string)
    ensures Value(o, [a]) == At(o, a)
  {
    assert [a][1..] == [];
    assert Has(o, a) ==> Get(o.m[a], []) == Some(o.m[a]);
  }

  lemma ValueOfTwo(o: Json, a: string, b: string)
    ensures Value(o, [a] + [b]) == At(At(o, a), b)
  {
    ValueOfOne(At(o, a), b);
    assert ([a] + [b])[1..] == [b];
    if !Has(o, a) { assert At(o, a) == Null; }
  }

  lemma ValueOfThree(o: Json, a: string, b: string, c: string)
    ensures Value(o, [a, b] + [c]) == At(At(At(o, a), b), c)
  {
    ValueOfTwo(At(o, a), b, c);
    assert ([a, b] + [c])[1..] == [b] + [c];
    if !Has(o, a) { assert At(o, a) == Null; }
  }
}
