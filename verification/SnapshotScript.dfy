/** What a script of capturing builtins does, as a function of the cluster it starts from. */
module SnapshotScript {
  import opened Options
  import opened MergePatch
  import opened Stripping
  import opened FieldPaths
  import opened Captures
  import opened UndoLog
  import opened SnapshotCrypto
  import opened SnapshotRun

  /** One call of the snapshot-aware surface.  A strategic-merge patch and a server-side apply
      carry the object the server makes of them, which the agent does not compute. */
  datatype Op =
    | Snapshot(ref: Ref)
    | Scale(namespace: string, kind: string, name: string, replicas: int)
    | MergeOp(ref: Ref, patch: Json)
    | StrategicOp(ref: Ref, outcome: Json)
    | ApplyOp(manifest: Json, resource: string, outcome: Json)
    | CreateOp(manifest: Json, resource: string)
    | DeleteOp(ref: Ref)
    | SetFields(ref: Ref, sets: seq<Assign>)
    | PatchConfigMap(namespace: string, name: string, key: string, value: string)
    | Fail

  /** What goes wrong at the server while an operation runs. */
  datatype Fault = NoFault | GetFault | WriteFault

  datatype Line = Line(op: Op, fault: Fault)

  predicate WellTyped(op: Op) {
    match op
    case MergeOp(_, patch) => patch.Obj?
    case StrategicOp(_, outcome) => outcome.Obj?
    case ApplyOp(manifest, _, outcome) => manifest.Obj? && outcome.Obj?
    case CreateOp(manifest, _) => manifest.Obj?
    case _ => true
  }

  function RefOf(manifest: Json, resource: string): Ref {
    var md := At(manifest, METADATA);
    Ref(Text(At(manifest, "apiVersion")), Text(At(manifest, "kind")), Text(At(md, "namespace")),
        Text(At(md, "name")), resource)
  }

  /** The capture an operation takes first; none when its arguments are rejected. */
  function CallOf(op: Op): Option<Call> {
    match op
    case Snapshot(ref) => Some(ObjectCall(ref))
    case Scale(ns, kind, name, _) => Some(ObjectCall(Ref("", kind, ns, name, "")))
    case MergeOp(ref, _) => Some(ObjectCall(ref))
    case StrategicOp(ref, _) => Some(ObjectCall(ref))
    case ApplyOp(m, resource, _) =>
      var ref := RefOf(m, resource);
      if ref.kind == "" || ref.name == "" then None else Some(ObjectCall(ref))
    case CreateOp(m, resource) =>
      var ref := RefOf(m, resource);
      if ref.kind == "" || ref.name == "" then None else Some(ObjectCall(ref))
    case DeleteOp(ref) => Some(ObjectCall(ref))
    case SetFields(ref, sets) => if exists a | a in sets :: a.path == [] then None else Some(FieldCall(ref, sets))
    case PatchConfigMap(ns, name, key, value) =>
      Some(FieldCall(Ref("", "ConfigMap", ns, name, ""), [Assign(["data", key], Str(value))]))
    case Fail => None
  }

  /** What a whole-object operation makes of its target; none when the server refuses. */
  function WriteOf(op: Op, o: Option<Json>): Option<Option<Json>> {
    match op
    case Snapshot(_) => Some(o)
    case Scale(_, _, _, n) =>
      var patch := Obj(map["spec" := Obj(map["replicas" := Num(n as real)])]);
      if o.Some? then Some(Some(Merge(o.value, patch))) else None
    case MergeOp(_, patch) => if o.Some? then Some(Some(Merge(o.value, patch))) else None
    case StrategicOp(_, outcome) => if o.Some? then Some(Some(outcome)) else None
    case ApplyOp(_, _, outcome) => Some(Some(outcome))
    case CreateOp(m, _) => if o.Some? then None else Some(Some(m))
    case DeleteOp(_) => Some(None)
    case _ => None
  }

  function Lookup(cl: Cluster, id: ObjId): Option<Json> {
    if id in cl then Some(cl[id]) else None
  }

  /** The cluster after an operation's write; none when the server refuses it. */
  function Written(env: Env, cl: Cluster, op: Op, call: Call): Option<Cluster> {
    match Target(env.d, call.ref)
    case None => None
    case Some(id) =>
      if call.FieldCall? then
        if id in cl then Some(cl[id := Merge(cl[id], PatchOf(call.sets))]) else None
      else
        match WriteOf(op, Lookup(cl, id))
        case None => None
        case Some(x) => Some(Put(cl, id, x))
  }

  function WriteStep(env: Env, s: Run, op: Op, call: Call): Run {
    match Written(env, s.cluster, op, call)
    case None => s.(failed := true)
    case Some(cl) => s.(cluster := cl, phase := Idle)
  }

  /** The durable report of the entry just captured, if there is one. */
  function ReportStep(env: Env, s: Run): Run {
    if s.phase.Captured? && s.log != [] then
      var n := |s.log| - 1;
      s.(durable := s.durable + [EncryptForDurable(env.v, n, s.log[n])], phase := Ready(s.phase.call))
    else s
  }

  /** Nothing is written by an explicit snapshot, and by a deletion that has just found its
      target absent. */
  predicate SkipsWrite(env: Env, s: Run, op: Op, call: Call) {
    || op.Snapshot?
    || (op.DeleteOp? && CallKey(call) !in s.seen
        && Target(env.d, call.ref).Some? && Target(env.d, call.ref).value !in s.cluster)
  }

  /** One line of the script: capture, report, write. */
  function LineStep(env: Env, s: Run, line: Line): Run {
    match CallOf(line.op)
    case None => s.(failed := true)
    case Some(call) =>
      var s' := ReportStep(env, BeginStep(env, s, call, line.fault.GetFault?));
      if s'.failed then s'
      else if SkipsWrite(env, s, line.op, call) then s'.(phase := Idle)
      else if line.fault.WriteFault? then s'.(failed := true)
      else WriteStep(env, s', line.op, call)
  }

  /** The run after the script, which stops at its first failure. */
  function ScriptRun(env: Env, s: Run, script: seq<Line>): Run
    decreases |script|
  {
    if script == [] || s.failed then s else ScriptRun(env, LineStep(env, s, script[0]), script[1..])
  }

  /** Every capture the script takes is one that can be put back exactly. */
  predicate CarefulScript(env: Env, s: Run, script: seq<Line>)
    decreases |script|
  {
    script != [] && !s.failed ==>
      && WellTyped(script[0].op)
      && (CallOf(script[0].op).Some? ==>
            Careful(env, Begin(CallOf(script[0].op).value, script[0].fault.GetFault?), s))
      && CarefulScript(env, LineStep(env, s, script[0]), script[1..])
  }

  /** Between two lines: the last capture has been reported. */
  predicate Between(s: Run) {
    !s.phase.Captured? && (s.failed || s.phase.Idle?)
  }

  /** The invariant of runs, and the worth of the durable list under a sound cipher. */
  ghost predicate Good(env: Env, s: Run) {
    Inv(env, s) && (Sound(env.v) ==> Stored(env, s))
  }

  lemma StepKeepsGood(env: Env, s: Run, ev: Event)
    requires Good(env, s) && Enabled(ev, s) && Careful(env, ev, s) && !ev.UndoStored?
    ensures Good(env, Step(env, s, ev))
  {
    StepKeepsInv(env, s, ev);
    if Sound(env.v) { StepKeepsStored(env, s, ev); }
  }

  lemma WriteKeepsGood(env: Env, s: Run, op: Op, call: Call)
    requires Good(env, s) && !s.failed && s.phase == Ready(call) && WellTyped(op)
    ensures Good(env, WriteStep(env, s, op, call)) && Between(WriteStep(env, s, op, call))
    ensures WriteStep(env, s, op, call).base == s.base
  {
    var s' := WriteStep(env, s, op, call);
    if Target(env.d, call.ref).None? {
      StepKeepsGood(env, s, Abort);
    } else if call.FieldCall? {
      StepKeepsGood(env, s, MutateFields);
      assert s' == Step(env, s, MutateFields);
    } else {
      var x := WriteOf(op, Lookup(s.cluster, Target(env.d, call.ref).value));
      if x.Some? {
        assert Enabled(MutateObject(x.value), s);
        StepKeepsGood(env, s, MutateObject(x.value));
        assert s' == Step(env, s, MutateObject(x.value));
      } else {
        StepKeepsGood(env, s, Abort);
      }
    }
  }

  lemma ReportStepKeepsGood(env: Env, s: Run)
    requires Good(env, s) && !s.failed && !s.phase.Idle?
    ensures var s' := ReportStep(env, s);
            Good(env, s') && !s'.failed && s'.phase == Ready(s.phase.call) && s'.base == s.base
  {
    if s.phase.Captured? {
      var n := |s.log| - 1;
      StepKeepsGood(env, s, Report(n));
      assert ReportStep(env, s) == Step(env, s, Report(n));
    }
  }

  /** A run that has captured may stop there. */
  lemma RestKeepsGood(env: Env, s: Run)
    requires Good(env, s) && !s.phase.Captured?
    ensures Good(env, s.(phase := Idle))
  {
    assert Reported(s.(phase := Idle)) == Reported(s);
  }

  lemma BeginLeads(env: Env, s: Run, call: Call, getFails: bool)
    requires s.phase.Idle? && !s.failed
    ensures var s' := BeginStep(env, s, call, getFails);
            s'.base == s.base && (s'.failed || (!s'.phase.Idle? && s'.phase.call == call))
  {}

  lemma LineKeepsGood(env: Env, s: Run, line: Line)
    requires Good(env, s) && !s.failed && s.phase.Idle? && WellTyped(line.op)
    requires CallOf(line.op).Some? ==> Careful(env, Begin(CallOf(line.op).value, line.fault.GetFault?), s)
    ensures Good(env, LineStep(env, s, line)) && Between(LineStep(env, s, line))
    ensures LineStep(env, s, line).base == s.base
  {
    match CallOf(line.op)
    case None => StepKeepsGood(env, s, Abort);
    case Some(call) =>
      var begin := Begin(call, line.fault.GetFault?);
      var s1 := Step(env, s, begin);
      StepKeepsGood(env, s, begin);
      BeginLeads(env, s, call, line.fault.GetFault?);
      if !s1.failed { ReportedLineKeepsGood(env, s, s1, line, call); }
  }

  lemma ReportedLineKeepsGood(env: Env, s: Run, s1: Run, line: Line, call: Call)
    requires WellTyped(line.op) && CallOf(line.op) == Some(call)
    requires s1 == BeginStep(env, s, call, line.fault.GetFault?)
    requires Good(env, s1) && !s1.failed && !s1.phase.Idle? && s1.phase.call == call
    ensures Good(env, LineStep(env, s, line)) && Between(LineStep(env, s, line))
    ensures LineStep(env, s, line).base == s1.base
  {
    var s2 := ReportStep(env, s1);
    ReportStepKeepsGood(env, s1);
    if SkipsWrite(env, s, line.op, call) {
      RestKeepsGood(env, s2);
    } else if line.fault.WriteFault? {
      StepKeepsGood(env, s2, Abort);
      assert LineStep(env, s, line) == s2.(failed := true);
    } else {
      WriteKeepsGood(env, s2, line.op, call);
      assert LineStep(env, s, line) == WriteStep(env, s2, line.op, call);
    }
  }

  lemma {:induction false} ScriptKeepsGood(env: Env, s: Run, script: seq<Line>)
    requires Good(env, s) && Between(s) && CarefulScript(env, s, script)
    ensures Good(env, ScriptRun(env, s, script)) && ScriptRun(env, s, script).base == s.base
    ensures Between(ScriptRun(env, s, script))
    decreases |script|
  {
    if script != [] && !s.failed {
      LineKeepsGood(env, s, script[0]);
      ScriptKeepsGood(env, LineStep(env, s, script[0]), script[1..]);
    }
  }

  /** Whatever a careful script did, and wherever it stopped, replaying its log gives every
      object back its initial snapshot, also after any part of the log has been replayed; and
      under a sound cipher so does replaying the opened durable list. */
  lemma ScriptCanBeRolledBack(env: Env, cl: Cluster, script: seq<Line>, part: seq<Capture>)
    requires IsCluster(cl) && CarefulScript(env, Start(cl), script)
    requires forall c | c in part :: c in ScriptRun(env, Start(cl), script).log
    ensures var s := ScriptRun(env, Start(cl), script);
            && SameSnapshots(Replay(env.d, s.log, s.cluster), cl)
            && SameSnapshots(Replay(env.d, s.log, Replay(env.d, part, s.cluster)), cl)
            && (Sound(env.v) ==> OpenAll(env.v, s.durable) == s.log)
  {
    InvHolds(env, cl, []);
    ScriptKeepsGood(env, Start(cl), script);
    var s := ScriptRun(env, Start(cl), script);
    if Sound(env.v) { OpensToReported(env, s); }
    PartialReplay(env.d, s.log, part, s.cluster, s.base);
    SameContentSameSnapshots(Replay(env.d, s.log, s.cluster), cl);
    SameContentSameSnapshots(Replay(env.d, s.log, Replay(env.d, part, s.cluster)), cl);
  }

  // ------------------------------------------------ facts about every script

  lemma {:induction false} ScriptSplits(env: Env, s: Run, a: seq<Line>, b: seq<Line>)
    ensures ScriptRun(env, s, a + b) == ScriptRun(env, ScriptRun(env, s, a), b)
    decreases |a|
  {
    if a == [] {
      assert a + b == b;
    } else if !s.failed {
      assert (a + b)[0] == a[0] && (a + b)[1..] == a[1..] + b;
      ScriptSplits(env, LineStep(env, s, a[0]), a[1..], b);
    }
  }

  lemma OneLine(env: Env, s: Run, line: Line)
    requires !s.failed
    ensures ScriptRun(env, s, [line]) == LineStep(env, s, line)
  {
    assert [line][1..] == [];
  }

  predicate Plain(log: seq<Capture>) {
    forall c | c in log :: c.enc.None?
  }

  /** A line, once its target is captured and reported. */
  lemma LineUnfolds(env: Env, s: Run, line: Line, call: Call)
    requires CallOf(line.op) == Some(call) && !s.failed && s.phase.Idle?
    ensures var s' := ReportStep(env, BeginStep(env, s, call, line.fault.GetFault?));
            LineStep(env, s, line) ==
              if s'.failed then s'
              else if SkipsWrite(env, s, line.op, call) then s'.(phase := Idle)
              else if line.fault.WriteFault? then s'.(failed := true)
              else WriteStep(env, s', line.op, call)
  {}

  lemma BeginKeepsPlain(env: Env, s: Run, call: Call, getFails: bool)
    requires !s.failed && s.phase.Idle? && Plain(s.log)
    ensures var s' := BeginStep(env, s, call, getFails);
            && Plain(s'.log) && s'.base == s.base && s'.undoing == s.undoing && s'.cluster == s.cluster
            && (if s'.failed then s'.phase.Idle?
                else s'.phase == Ready(call) || (s'.phase == Captured(call) && s'.log != []))
  {}

  lemma CapturingKeepsPlain(env: Env, s: Run, call: Call, getFails: bool)
    requires !s.failed && s.phase.Idle? && Plain(s.log)
    ensures var s' := ReportStep(env, BeginStep(env, s, call, getFails));
            && Plain(s'.log) && s'.base == s.base && s'.undoing == s.undoing && s'.cluster == s.cluster
            && (if s'.failed then s'.phase.Idle? else s'.phase == Ready(call))
  {
    BeginKeepsPlain(env, s, call, getFails);
  }

  lemma LineLands(env: Env, s: Run, line: Line)
    requires !s.failed && s.phase.Idle? && Plain(s.log)
    ensures var s' := LineStep(env, s, line);
            && Plain(s'.log) && Between(s') && s'.base == s.base && s'.undoing == s.undoing
  {
    var call := CallOf(line.op);
    if call.Some? {
      LineUnfolds(env, s, line, call.value);
      CapturingKeepsPlain(env, s, call.value, line.fault.GetFault?);
    }
  }

  lemma {:induction false} ScriptKeepsPlain(env: Env, s: Run, script: seq<Line>)
    requires Plain(s.log) && Between(s)
    ensures Plain(ScriptRun(env, s, script).log)
    decreases |script|
  {
    if script != [] && !s.failed {
      LineLands(env, s, script[0]);
      ScriptKeepsPlain(env, LineStep(env, s, script[0]), script[1..]);
    }
  }

  /** The log in memory is replayed as it is. */
  lemma PlainOpensToItself(v: Vault, log: seq<Capture>)
    requires Plain(log)
    ensures OpenAll(v, log) == log
  {}
}
