/** What a first-wins key says about the call it belongs to. */
module CallKeys {
  import opened MergePatch
  import opened FieldPaths
  import opened Captures
  import opened CaptureKeys
  import opened SnapshotRun

  /** References to kinds of the static table without a resource override reach one object
      under any API version, so one object may be captured under several keys. */
  lemma OneObjectManyKeys(d: Discovery, ref: Ref, apiVersion: string)
    requires ref.kind in d.kinds && ref.resource == ""
    ensures Target(d, ref) == Target(d, ref.(apiVersion := apiVersion))
    ensures ref.namespace == "" ==> Target(d, ref) == Target(d, ref.(namespace := "-"))
  {}

  /** Names without bars, and paths whose segments the key can tell apart. */
  predicate CleanCall(call: Call) {
    BarFree(call.ref) && (call.FieldCall? ==> forall p | p in PathList(call) :: CleanPath(p))
  }

  predicate CleanCapture(c: Capture) {
    BarFree(c.ref) && (c.scope.FieldScope? ==> forall p | p in CapturePaths(c) :: CleanPath(p))
  }

  /** Clean names are enough for the key condition of a careful run: a call whose key is that
      of a recorded capture is a call for the same object, scope and paths. */
  lemma CleanNamesNeverCollide(call: Call, c: Capture)
    requires CleanCall(call) && CleanCapture(c) && CaptureKey(c) == CallKey(call)
    ensures SameTarget(call, c)
  {
    if call.ObjectCall? && c.scope.ObjectScope? {
      ObjectKeyInjective(call.ref, c.ref);
    } else if call.FieldCall? && c.scope.FieldScope? {
      FieldKeyInjective(call.ref, c.ref, PathList(call), CapturePaths(c));
    } else if call.ObjectCall? {
      ScopesNeverCollide(call.ref, c.ref, CapturePaths(c));
    } else {
      ScopesNeverCollide(c.ref, call.ref, PathList(call));
    }
  }

  /** So a repeated call with clean names, in a run of such calls, is covered: until a run fails,
      the keys seen are those of its log. */
  lemma SeenCleanCallIsCovered(env: Env, log: seq<Capture>, call: Call)
    requires CleanCall(call) && CallKey(call) in KeysOf(log) && forall c | c in log :: CleanCapture(c)
    ensures CoversCall(env, log, call)
  {
    var c :| c in log && CaptureKey(c) == CallKey(call);
    CleanNamesNeverCollide(call, c);
    if Target(env.d, call.ref).Some? { SameTargetIsCovered(env, log, call, c); }
  }

  /** Calls of `patch_configmap` never collide, whatever their keys are: dots, commas and bars
      in a key do no harm. */
  lemma ConfigMapCallsNeverCollide(call: Call, c: Capture, ref: Ref, ref': Ref, key: string, key': string, v: Json)
    requires BarFree(ref) && BarFree(ref')
    requires call == FieldCall(ref, [Assign(["data", key], v)])
    requires c.scope.FieldScope? && c.ref == ref' && CapturePaths(c) == [["data", key']]
    requires CaptureKey(c) == CallKey(call)
    ensures SameTarget(call, c) && key == key'
  {
    assert PathList(call) == [["data", key]];
    FieldKeyParts(ref, ref', [["data", key]], [["data", key']]);
    ConfigMapKeyInjective(key, key');
  }
}
