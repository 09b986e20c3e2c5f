/** What each builtin of a script does: when it fails, what it captures, and what it makes of the
    cluster when it succeeds; and when a script fails. */
module BuiltinEffects {
  import opened Options
  import opened MergePatch
  import opened FieldPaths
  import opened Captures
  import opened CaptureKeys
  import opened SnapshotCrypto
  import opened SnapshotRun
  import opened SnapshotScript

  // ------------------------------------------------------------------ when a line fails

  /** A text member, empty when it is missing or no text. */
  predicate IsText(x: Json, t: string) {
    if x.Str? then t == x.s else t == ""
  }

  /** The reference a manifest is applied or created under. */
  predicate Names(m: Json, resource: string, ref: Ref) {
    && IsText(At(m, "apiVersion"), ref.apiVersion)
    && IsText(At(m, "kind"), ref.kind)
    && IsText(At(At(m, "metadata"), "namespace"), ref.namespace)
    && IsText(At(At(m, "metadata"), "name"), ref.name)
    && ref.resource == resource
  }

  /** The manifest has no kind or no name. */
  predicate Nameless(m: Json) {
    IsText(At(m, "kind"), "") || IsText(At(At(m, "metadata"), "name"), "")
  }

  predicate Unresolved(env: Env, ref: Ref) {
    Target(env.d, ref).None?
  }

  predicate Exists(env: Env, s: Run, ref: Ref) {
    Target(env.d, ref).Some? && Target(env.d, ref).value in s.cluster
  }

  /** The target cannot be captured: it was not captured before, and its reference does not
      resolve or reading it fails. */
  predicate CaptureFails(env: Env, s: Run, key: string, ref: Ref, fault: Fault) {
    key !in s.seen && (Unresolved(env, ref) || fault.GetFault?)
  }

  /** The target cannot be written. */
  predicate WriteFails(env: Env, ref: Ref, fault: Fault) {
    Unresolved(env, ref) || fault.WriteFault?
  }

  /** A whole-object builtin that writes fails before it looks at what is there. */
  predicate ObjectFails(env: Env, s: Run, ref: Ref, fault: Fault) {
    CaptureFails(env, s, ObjectKey(ref), ref, fault) || WriteFails(env, ref, fault)
  }

  /** A field builtin fails when its object cannot be captured or written, or is not there. */
  predicate FieldsFail(env: Env, s: Run, ref: Ref, paths: seq<Path>, fault: Fault) {
    || CaptureFails(env, s, FieldKey(ref, paths), ref, fault)
    || WriteFails(env, ref, fault)
    || !Exists(env, s, ref)
  }

  /** Exactly when a line fails, builtin by builtin. */
  ghost predicate LineFails(env: Env, s: Run, line: Line) {
    match line.op
    case Fail => true
    case Snapshot(ref) => CaptureFails(env, s, ObjectKey(ref), ref, line.fault)
    case Scale(ns, kind, name, _) =>
      var ref := Ref("", kind, ns, name, "");
      ObjectFails(env, s, ref, line.fault) || !Exists(env, s, ref)
    case MergeOp(ref, _) => ObjectFails(env, s, ref, line.fault) || !Exists(env, s, ref)
    case StrategicOp(ref, _) => ObjectFails(env, s, ref, line.fault) || !Exists(env, s, ref)
    case ApplyOp(m, resource, _) =>
      Nameless(m) || exists ref | Names(m, resource, ref) :: ObjectFails(env, s, ref, line.fault)
    case CreateOp(m, resource) =>
      Nameless(m) || exists ref | Names(m, resource, ref) :: ObjectFails(env, s, ref, line.fault) || Exists(env, s, ref)
    case DeleteOp(ref) =>
      if ObjectKey(ref) !in s.seen && !Unresolved(env, ref) && !Exists(env, s, ref) then line.fault.GetFault?
      else ObjectFails(env, s, ref, line.fault)
    case SetFields(ref, sets) =>
      || (exists a | a in sets :: a.path == [])
      || FieldsFail(env, s, ref, seq(|sets|, i requires 0 <= i < |sets| => sets[i].path), line.fault)
    case PatchConfigMap(ns, name, key, _) =>
      FieldsFail(env, s, Ref("", "ConfigMap", ns, name, ""), [["data", key]], line.fault)
  }

  lemma NamesRefOf(m: Json, resource: string, ref: Ref)
    ensures Names(m, resource, ref) <==> ref == RefOf(m, resource)
    ensures Nameless(m) <==> CallOf(CreateOp(m, resource)).None?
    ensures forall outcome :: CallOf(ApplyOp(m, resource, outcome)) == CallOf(CreateOp(m, resource))
  {}

  lemma ObjectCallFails(env: Env, s: Run, ref: Ref, fault: Fault)
    requires !s.failed && s.phase.Idle?
    ensures ReportStep(env, BeginStep(env, s, ObjectCall(ref), fault.GetFault?)).failed
      <==> CaptureFails(env, s, ObjectKey(ref), ref, fault)
    ensures ReportStep(env, BeginStep(env, s, ObjectCall(ref), fault.GetFault?)).cluster == s.cluster
  {}

  lemma FieldCallFails(env: Env, s: Run, ref: Ref, sets: seq<Assign>, fault: Fault)
    requires !s.failed && s.phase.Idle?
    ensures ReportStep(env, BeginStep(env, s, FieldCall(ref, sets), fault.GetFault?)).failed <==>
      || CaptureFails(env, s, FieldKey(ref, PathList(FieldCall(ref, sets))), ref, fault)
      || (FieldKey(ref, PathList(FieldCall(ref, sets))) !in s.seen && !Exists(env, s, ref))
    ensures ReportStep(env, BeginStep(env, s, FieldCall(ref, sets), fault.GetFault?)).cluster == s.cluster
  {}

  /** Whole-object builtins. */
  lemma ObjectLineFails(env: Env, s: Run, line: Line, ref: Ref)
    requires !s.failed && s.phase.Idle? && CallOf(line.op) == Some(ObjectCall(ref))
    ensures LineStep(env, s, line).failed <==>
      || CaptureFails(env, s, ObjectKey(ref), ref, line.fault)
      || (!SkipsWrite(env, s, line.op, ObjectCall(ref)) &&
           (WriteFails(env, ref, line.fault) || Written(env, s.cluster, line.op, ObjectCall(ref)).None?))
  {
    LineUnfolds(env, s, line, ObjectCall(ref));
    ObjectCallFails(env, s, ref, line.fault);
  }

  lemma FieldLineFails(env: Env, s: Run, line: Line, ref: Ref, sets: seq<Assign>)
    requires !s.failed && s.phase.Idle? && CallOf(line.op) == Some(FieldCall(ref, sets))
    ensures LineStep(env, s, line).failed <==>
      FieldsFail(env, s, ref, PathList(FieldCall(ref, sets)), line.fault)
  {
    LineUnfolds(env, s, line, FieldCall(ref, sets));
    FieldCallFails(env, s, ref, sets, line.fault);
  }

  lemma ManifestLineFails(env: Env, s: Run, line: Line, m: Json, resource: string)
    requires !s.failed && s.phase.Idle?
    requires line.op == CreateOp(m, resource) || (line.op.ApplyOp? && line.op.manifest == m && line.op.resource == resource)
    ensures LineStep(env, s, line).failed <==> LineFails(env, s, line)
  {
    var ref := RefOf(m, resource);
    forall r ensures Names(m, resource, r) <==> r == ref { NamesRefOf(m, resource, r); }
    NamesRefOf(m, resource, ref);
    if !Nameless(m) { ObjectLineFails(env, s, line, ref); }
  }

  /** A line fails exactly when it should. */
  lemma LineFailsIff(env: Env, s: Run, line: Line)
    requires !s.failed && s.phase.Idle?
    ensures LineStep(env, s, line).failed <==> LineFails(env, s, line)
  {
    match line.op
    case Fail =>
    case Snapshot(ref) => ObjectLineFails(env, s, line, ref);
    case Scale(ns, kind, name, _) => ObjectLineFails(env, s, line, Ref("", kind, ns, name, ""));
    case MergeOp(ref, _) => ObjectLineFails(env, s, line, ref);
    case StrategicOp(ref, _) => ObjectLineFails(env, s, line, ref);
    case ApplyOp(m, resource, _) => ManifestLineFails(env, s, line, m, resource);
    case CreateOp(m, resource) => ManifestLineFails(env, s, line, m, resource);
    case DeleteOp(ref) => ObjectLineFails(env, s, line, ref);
    case SetFields(ref, sets) =>
      if !(exists a | a in sets :: a.path == []) { FieldLineFails(env, s, line, ref, sets); }
    case PatchConfigMap(ns, name, key, value) =>
      var sets := [Assign(["data", key], Str(value))];
      assert PathList(FieldCall(Ref("", "ConfigMap", ns, name, ""), sets)) == [["data", key]];
      FieldLineFails(env, s, line, Ref("", "ConfigMap", ns, name, ""), sets);
  }

  /** A line that fails changes nothing in the cluster. */
  lemma FailedLineChangesNothing(env: Env, s: Run, line: Line)
    requires !s.failed && s.phase.Idle? && LineStep(env, s, line).failed
    ensures LineStep(env, s, line).cluster == s.cluster
  {
    var call := CallOf(line.op);
    if call.Some? {
      LineUnfolds(env, s, line, call.value);
      match call.value
      case ObjectCall(ref) => ObjectCallFails(env, s, ref, line.fault);
      case FieldCall(ref, sets) => FieldCallFails(env, s, ref, sets, line.fault);
    }
  }

  // ----------------------------------------------------------------- when a script fails

  /** The script stops at line `i`: the lines before it succeed, and it fails. */
  ghost predicate StopsAt(env: Env, s: Run, script: seq<Line>, i: nat) {
    && i < |script|
    && !ScriptRun(env, s, script[..i]).failed
    && LineFails(env, ScriptRun(env, s, script[..i]), script[i])
  }

  lemma IdleAfterSuccess(env: Env, s: Run, line: Line)
    requires !s.failed && s.phase.Idle? && !LineStep(env, s, line).failed
    ensures LineStep(env, s, line).phase.Idle?
  {
    LineUnfolds(env, s, line, CallOf(line.op).value);
  }

  lemma {:induction false} IdleAfterScript(env: Env, s: Run, script: seq<Line>)
    requires !s.failed ==> s.phase.Idle?
    requires !ScriptRun(env, s, script).failed
    ensures !s.failed && ScriptRun(env, s, script).phase.Idle?
    decreases |script|
  {
    if script != [] && !s.failed {
      var s' := LineStep(env, s, script[0]);
      if !s'.failed { IdleAfterSuccess(env, s, script[0]); }
      IdleAfterScript(env, s', script[1..]);
    }
  }

  /** No line after the one a script stops at has any effect, and neither has that one on the
      cluster. */
  lemma NothingAfterStop(env: Env, s: Run, script: seq<Line>, i: nat)
    requires s.phase.Idle? && StopsAt(env, s, script, i)
    ensures ScriptRun(env, s, script).failed
    ensures ScriptRun(env, s, script) == ScriptRun(env, s, script[..i + 1])
    ensures ScriptRun(env, s, script).cluster == ScriptRun(env, s, script[..i]).cluster
  {
    var before, line := ScriptRun(env, s, script[..i]), script[i];
    IdleAfterScript(env, s, script[..i]);
    LineFailsIff(env, before, line);
    FailedLineChangesNothing(env, before, line);
    assert script[..i + 1] == script[..i] + [line];
    ScriptSplits(env, s, script[..i], [line]);
    OneLine(env, before, line);
    assert script == script[..i + 1] + script[i + 1..];
    ScriptSplits(env, s, script[..i + 1], script[i + 1..]);
  }

  lemma {:induction false} FailedScriptStops(env: Env, s: Run, script: seq<Line>) returns (i: nat)
    requires !s.failed && s.phase.Idle? && ScriptRun(env, s, script).failed
    ensures StopsAt(env, s, script, i)
    decreases |script|
  {
    var n := |script| - 1;
    var before := ScriptRun(env, s, script[..n]);
    assert script == script[..n] + [script[n]];
    ScriptSplits(env, s, script[..n], [script[n]]);
    if before.failed {
      i := FailedScriptStops(env, s, script[..n]);
      assert script[..n][..i] == script[..i];
    } else {
      i := n;
      IdleAfterScript(env, s, script[..n]);
      LineFailsIff(env, before, script[n]);
      OneLine(env, before, script[n]);
    }
  }

  /** A script fails exactly when one of its lines does. */
  lemma ScriptFailsIff(env: Env, s: Run, script: seq<Line>)
    requires !s.failed && s.phase.Idle?
    ensures ScriptRun(env, s, script).failed <==> exists i: nat :: StopsAt(env, s, script, i)
  {
    if ScriptRun(env, s, script).failed {
      var i := FailedScriptStops(env, s, script);
    }
    if i: nat :| StopsAt(env, s, script, i) {
      NothingAfterStop(env, s, script, i);
    }
  }

  // ------------------------------------------------------- what a line captures first

  /** The first-wins key a builtin captures under, and the reference it names. */
  predicate CapturesUnder(op: Op, key: string, ref: Ref) {
    match op
    case Fail => false
    case Snapshot(r) => ref == r && key == ObjectKey(r)
    case Scale(ns, kind, name, _) => ref == Ref("", kind, ns, name, "") && key == ObjectKey(ref)
    case MergeOp(r, _) => ref == r && key == ObjectKey(r)
    case StrategicOp(r, _) => ref == r && key == ObjectKey(r)
    case ApplyOp(m, resource, _) => Names(m, resource, ref) && key == ObjectKey(ref)
    case CreateOp(m, resource) => Names(m, resource, ref) && key == ObjectKey(ref)
    case DeleteOp(r) => ref == r && key == ObjectKey(r)
    case SetFields(r, sets) => ref == r && key == FieldKey(r, seq(|sets|, i requires 0 <= i < |sets| => sets[i].path))
    case PatchConfigMap(ns, name, k, _) => ref == Ref("", "ConfigMap", ns, name, "") && key == FieldKey(ref, [["data", k]])
  }

  /** The entry records the object, or the fields, as they are in the cluster. */
  ghost predicate Records(env: Env, c: Capture, cl: Cluster, ref: Ref) {
    && c.ref == ref && Target(env.d, ref).Some? && c.enc.None?
    && var id := Target(env.d, ref).value;
       match c.scope
       case ObjectScope => (c.existed <==> id in cl) && (id in cl ==> c.before == Stripping.Strip(cl[id])) && c.fields == []
       case FieldScope => c.existed && id in cl && c.before.Null? && forall f | f in c.fields ::
         f.before == Value(cl[id], f.path) && (f.existed <==> Get(cl[id], f.path).Some?)
  }

  lemma RecordRecords(env: Env, call: Call, cl: Cluster, id: ObjId, seqNo: nat)
    requires Target(env.d, call.ref) == Some(id) && (call.FieldCall? ==> id in cl)
    ensures Records(env, Record(call, cl, id, seqNo), cl, call.ref)
    ensures Record(call, cl, id, seqNo).scope.FieldScope? <==> call.FieldCall?
  {}

  lemma CallCaptures(env: Env, s: Run, call: Call, getFails: bool)
    requires !s.failed && s.phase.Idle?
    requires !ReportStep(env, BeginStep(env, s, call, getFails)).failed
    ensures var s' := ReportStep(env, BeginStep(env, s, call, getFails));
      if CallKey(call) in s.seen then s'.log == s.log && s'.durable == s.durable
      else
        && |s'.log| == |s.log| + 1 && s'.log[..|s.log|] == s.log
        && Records(env, s'.log[|s.log|], s.cluster, call.ref)
        && s'.durable == s.durable + [EncryptForDurable(env.v, |s.log|, s'.log[|s.log|])]
  {
    if CallKey(call) !in s.seen { RecordRecords(env, call, s.cluster, Target(env.d, call.ref).value, |s.log|); }
  }

  lemma CapturesUnderCall(op: Op, key: string, ref: Ref)
    requires CallOf(op).Some? && CapturesUnder(op, key, ref)
    ensures CallOf(op).value.ref == ref && CallKey(CallOf(op).value) == key
  {
    match op
    case ApplyOp(m, resource, _) => NamesRefOf(m, resource, ref);
    case CreateOp(m, resource) => NamesRefOf(m, resource, ref);
    case PatchConfigMap(ns, name, k, v) =>
      assert PathList(CallOf(op).value) == [["data", k]];
    case _ =>
  }

  /** A line that succeeds has captured what it changed, as it was before, and reported it,
      unless its key was seen. */
  lemma LineCaptures(env: Env, s: Run, line: Line, key: string, ref: Ref)
    requires !s.failed && s.phase.Idle? && !LineStep(env, s, line).failed && CapturesUnder(line.op, key, ref)
    ensures var s' := LineStep(env, s, line);
      if key in s.seen then s'.log == s.log && s'.durable == s.durable
      else
        && |s'.log| == |s.log| + 1 && s'.log[..|s.log|] == s.log
        && Records(env, s'.log[|s.log|], s.cluster, ref)
        && s'.durable == s.durable + [EncryptForDurable(env.v, |s.log|, s'.log[|s.log|])]
  {
    var call := CallOf(line.op).value;
    CapturesUnderCall(line.op, key, ref);
    LineKeepsCapture(env, s, line, call);
    CallCaptures(env, s, call, line.fault.GetFault?);
  }

  lemma LineKeepsCapture(env: Env, s: Run, line: Line, call: Call)
    requires !s.failed && s.phase.Idle? && CallOf(line.op) == Some(call) && !LineStep(env, s, line).failed
    ensures var s' := ReportStep(env, BeginStep(env, s, call, line.fault.GetFault?));
            !s'.failed && LineStep(env, s, line).log == s'.log && LineStep(env, s, line).durable == s'.durable
  {
    LineUnfolds(env, s, line, call);
  }

  // ------------------------------------------------------------ what a line does then

  /** Nothing but the object `id` differs. */
  predicate OnlyAt(before: Cluster, after: Cluster, id: ObjId) {
    forall j | j in before.Keys + after.Keys && j != id :: j in before && j in after && before[j] == after[j]
  }

  /** `y` is `x` with member `k` of member `m` set to `v`, and nothing else different. */
  ghost predicate MemberSet(x: Json, y: Json, m: string, k: string, v: Json) {
    && At(At(y, m), k) == v
    && (forall j | j != m :: Has(y, j) == Has(x, j) && At(y, j) == At(x, j))
    && (forall j | j != k :: Has(At(y, m), j) == Has(At(x, m), j) && At(At(y, m), j) == At(At(x, m), j))
  }

  /** What a builtin makes of its object `id`. */
  ghost predicate Effect(op: Op, before: Cluster, after: Cluster, id: ObjId) {
    match op
    case Fail => false
    case Snapshot(_) => after == before
    case Scale(_, _, _, n) =>
      id in before && id in after && MemberSet(before[id], after[id], "spec", "replicas", Num(n as real))
    case MergeOp(_, patch) => id in before && id in after && after[id] == Merge(before[id], patch)
    case StrategicOp(_, outcome) => id in before && id in after && after[id] == outcome
    case ApplyOp(_, _, outcome) => id in after && after[id] == outcome
    case CreateOp(manifest, _) => id !in before && id in after && after[id] == manifest
    case DeleteOp(_) => id !in after
    case SetFields(_, sets) => id in before && id in after && FieldsSet(before[id], after[id], sets)
    case PatchConfigMap(_, _, key, value) =>
      id in before && id in after && MemberSet(before[id], after[id], "data", key, Str(value))
  }

  /** `y` is `x` with the given values merged in at the given paths, when none of these is inside
      another, and nothing else different. */
  ghost predicate FieldsSet(x: Json, y: Json, sets: seq<Assign>) {
    && y == Merge(x, PatchOf(sets))
    && (Apart(sets) ==> forall a | a in sets :: Value(y, a.path) == Merge(Value(x, a.path), a.value))
    && (forall q | forall a | a in sets :: !(q <= a.path) && !(a.path <= q) :: Value(y, q) == Value(x, q))
  }

  lemma SetMember(x: Json, m: string, k: string, v: Json)
    requires x.Obj? && !v.Null? && !v.Obj?
    ensures MemberSet(x, Merge(x, Obj(map[m := Obj(map[k := v])])), m, k, v)
  {
    var d := Obj(map[m := Obj(map[k := v])]);
    var y := Merge(x, d);
    forall j ensures j != m ==> Has(y, j) == Has(x, j) && At(y, j) == At(x, j) { MergeMember(x, d, j); }
    MergeMember(x, d, m);
    forall j
      ensures j != k ==> Has(At(y, m), j) == Has(At(x, m), j) && At(At(y, m), j) == At(At(x, m), j)
    {
      MergeMember(At(x, m), d.m[m], j);
    }
    MergeMember(At(x, m), d.m[m], k);
  }

  lemma NotAboveAll(P: set<Path>)
    ensures (forall p | p in P :: !([] <= p)) ==> P == {}
  {
    if P != {} {
      var p :| p in P;
      assert [] <= p;
    }
  }

  lemma {:induction false} ValueElsewhere(x: Json, d: Json, P: set<Path>, q: Path)
    requires d.Obj? && (x.Obj? || P != {}) && Confined(d, P) && forall p | p in P :: !(q <= p) && !(p <= q)
    ensures Value(Merge(x, d), q) == Value(x, q)
    decreases |q|
  {
    if q == [] {
      NotAboveAll(P);
      assert d.m == map[];
      assert Merge(x, d).m == x.m;
    } else {
      var k := q[0];
      assert [k] + q[1..] == q;
      MergeMember(x, d, k);
      assert Value(x, q) == Value(At(x, k), q[1..]);
      if Has(d, k) { ValueElsewhereBelow(x, d, P, q); }
    }
  }

  lemma {:induction false} ValueElsewhereBelow(x: Json, d: Json, P: set<Path>, q: Path)
    requires q != [] && d.Obj? && Has(d, q[0]) && Confined(d, P) && forall p | p in P :: !(q <= p) && !(p <= q)
    ensures Value(Merge(At(x, q[0]), d.m[q[0]]), q[1..]) == Value(At(x, q[0]), q[1..])
    decreases |q|, 0
  {
    var k := q[0];
    assert [k] + q[1..] == q;
    forall t | t in Tails(P, k) ensures !(q[1..] <= t) && !(t <= q[1..]) {
      InTails(P, k, t);
      assert t <= q[1..] ==> [k] + t <= q;
      assert q[1..] <= t ==> q <= [k] + t;
    }
    assert [] !in P by { assert [] <= q; }
    assert [] !in Tails(P, k) by { assert [] <= q[1..]; }
    ValueElsewhere(At(x, k), d.m[k], Tails(P, k), q[1..]);
  }

  lemma SetFieldsSets(x: Json, sets: seq<Assign>)
    requires x.Obj?
    ensures FieldsSet(x, Merge(x, PatchOf(sets)), sets)
  {
    var d := PatchOf(sets);
    if Apart(sets) {
      forall a | a in sets ensures Value(Merge(x, d), a.path) == Merge(Value(x, a.path), a.value) {
        var i :| 0 <= i < |sets| && sets[i] == a;
        PatchSays(sets, i);
        ValueOfMerge(x, d, a.path);
      }
    }
    PatchConfined(sets, PathsOf(sets));
    forall q | forall a | a in sets :: !(q <= a.path) && !(a.path <= q) ensures Value(Merge(x, d), q) == Value(x, q) {
      ValueElsewhere(x, d, PathsOf(sets), q);
    }
  }

  lemma WriteEffect(env: Env, cl: Cluster, op: Op, call: Call, id: ObjId)
    requires IsCluster(cl) && CallOf(op) == Some(call) && Target(env.d, call.ref) == Some(id)
    requires Written(env, cl, op, call).Some?
    ensures var after := Written(env, cl, op, call).value; Effect(op, cl, after, id) && OnlyAt(cl, after, id)
  {
    match op
    case Scale(_, _, _, n) => SetMember(cl[id], "spec", "replicas", Num(n as real));
    case SetFields(_, sets) => SetFieldsSets(cl[id], sets);
    case PatchConfigMap(_, _, key, value) =>
      OneAssignment(["data", key], Str(value));
      assert ["data", key][1..] == [key];
      assert SetNested(EMPTY, ["data", key], Str(value)) == Obj(map["data" := SetNested(EMPTY, [key], Str(value))]);
      SetMember(cl[id], "data", key, Str(value));
    case _ =>
  }

  /** A line that succeeds has the effect of its builtin on the object it names, and no other
      object is different. */
  lemma LineEffect(env: Env, s: Run, line: Line, key: string, ref: Ref)
    requires IsCluster(s.cluster) && !s.failed && s.phase.Idle? && !LineStep(env, s, line).failed
    requires CapturesUnder(line.op, key, ref)
    ensures line.op.Snapshot? ==> LineStep(env, s, line).cluster == s.cluster
    ensures !line.op.Snapshot? ==>
      && Target(env.d, ref).Some?
      && Effect(line.op, s.cluster, LineStep(env, s, line).cluster, Target(env.d, ref).value)
      && OnlyAt(s.cluster, LineStep(env, s, line).cluster, Target(env.d, ref).value)
  {
    var call := CallOf(line.op).value;
    LineUnfolds(env, s, line, call);
    CapturesUnderCall(line.op, key, ref);
    CallKeepsCluster(env, s, call, line.fault.GetFault?);
    if !SkipsWrite(env, s, line.op, call) {
      WriteEffect(env, s.cluster, line.op, call, Target(env.d, ref).value);
    }
  }

  lemma CallKeepsCluster(env: Env, s: Run, call: Call, getFails: bool)
    ensures ReportStep(env, BeginStep(env, s, call, getFails)).cluster == s.cluster
  {}
}
