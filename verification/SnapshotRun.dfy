/** One reversible run as a state machine: capture, durable report, mutation, and everything
    that may happen in between, with the guarantee that the run can be undone from either
    list at every point. */
module SnapshotRun {
  import opened Options
  import opened MergePatch
  import opened Stripping
  import opened FieldPaths
  import opened VisiblePaths
  import opened FieldContent
  import opened Captures
  import opened CaptureKeys
  import opened UndoLog
  import opened SnapshotCrypto

  datatype Env = Env(d: Discovery, v: Vault)

  /** A mutating builtin, as far as its capture goes: whole-object mutators (scale, patch,
      apply, create, delete, snapshot) and field mutators (set_field, set_fields,
      patch_configmap). */
  datatype Call =
    | ObjectCall(ref: Ref)
    | FieldCall(ref: Ref, sets: seq<Assign>)

  datatype Phase =
    | Idle
    | Captured(call: Call)   // captured, not yet reported
    | Ready(call: Call)      // reported (or captured before); the mutation comes next

  /** `base` is what a rollback must give back: the initial cluster with the edits of other
      writers. */
  datatype Run = Run(
    cluster: Cluster, base: Cluster, seen: set<string>, log: seq<Capture>,
    durable: seq<Capture>, phase: Phase, failed: bool, undoing: bool)

  datatype Event =
    | Begin(call: Call, getFails: bool)
    | Report(nonce: nat)
    | MutateObject(result: Option<Json>)
    | MutateFields
    | Abort
    | Churn(next: Cluster)
    | Outside(id: ObjId, edit: Edit)
    | UndoUnreported
    | UndoEntry(i: nat)    // from the log in memory
    | UndoStored(i: nat)   // from the durable list, opened

  function PathList(call: Call): seq<Path>
    requires call.FieldCall?
  {
    seq(|call.sets|, i requires 0 <= i < |call.sets| => call.sets[i].path)
  }

  function CallKey(call: Call): string {
    match call
    case ObjectCall(ref) => ObjectKey(ref)
    case FieldCall(ref, _) => FieldKey(ref, PathList(call))
  }

  function CapturePaths(c: Capture): seq<Path> {
    seq(|c.fields|, i requires 0 <= i < |c.fields| => c.fields[i].path)
  }

  function CaptureKey(c: Capture): string {
    if c.scope.ObjectScope? then ObjectKey(c.ref) else FieldKey(c.ref, CapturePaths(c))
  }

  function Delta(o: Json, path: Path): FieldDelta {
    FieldDelta(path, Value(o, path), Get(o, path).Some?)
  }

  /** The capture of a call's target as the cluster is now. */
  function Record(call: Call, cl: Cluster, id: ObjId, seqNo: nat): Capture
    requires call.FieldCall? ==> id in cl
  {
    match call
    case ObjectCall(ref) =>
      Capture(seqNo, ref, id in cl, ObjectScope, if id in cl then Strip(cl[id]) else Null, [], None)
    case FieldCall(ref, sets) =>
      Capture(seqNo, ref, true, FieldScope, Null,
              seq(|sets|, i requires 0 <= i < |sets| => Delta(cl[id], sets[i].path)), None)
  }

  // ------------------------------------------------------------------------ steps

  predicate Enabled(ev: Event, s: Run) {
    match ev
    case Begin(_, _) => !s.failed && s.phase.Idle?
    case Report(_) => !s.failed && s.phase.Captured? && s.log != []
    case MutateObject(result) => !s.failed && s.phase.Ready? && s.phase.call.ObjectCall?
                                 && (result.Some? ==> result.value.Obj?)
    case MutateFields => !s.failed && s.phase.Ready? && s.phase.call.FieldCall?
    case Abort => !s.failed
    case Churn(next) => IsCluster(next) && SameContent(s.cluster, next)
    case Outside(_, _) => true
    case UndoUnreported => s.failed && s.phase.Captured? && !s.undoing && s.log != []
    case UndoEntry(i) => s.failed && i < |s.durable| && i < |s.log|
    case UndoStored(i) => s.failed && i < |s.durable|
  }

  function BeginStep(env: Env, s: Run, call: Call, getFails: bool): Run {
    var key := CallKey(call);
    var id := Target(env.d, call.ref);
    if key in s.seen then s.(phase := Ready(call))
    else if id.None? || getFails || (call.FieldCall? && id.value !in s.cluster)
    then s.(seen := s.seen + {key}, failed := true)
    else s.(seen := s.seen + {key},
            log := s.log + [Record(call, s.cluster, id.value, |s.log|)],
            phase := Captured(call))
  }

  function MutateFieldsStep(env: Env, s: Run): Run
    requires s.phase.Ready? && s.phase.call.FieldCall?
  {
    var id := Target(env.d, s.phase.call.ref);
    if id.Some? && id.value in s.cluster
    then s.(cluster := s.cluster[id.value := Merge(s.cluster[id.value], PatchOf(s.phase.call.sets))], phase := Idle)
    else s.(failed := true)
  }

  /** The run after one event. */
  function Step(env: Env, s: Run, ev: Event): Run
    requires Enabled(ev, s)
  {
    match ev
    case Begin(call, getFails) => BeginStep(env, s, call, getFails)
    case Report(nonce) =>
      s.(durable := s.durable + [EncryptForDurable(env.v, nonce, s.log[|s.log| - 1])], phase := Ready(s.phase.call))
    case MutateObject(result) =>
      var id := Target(env.d, s.phase.call.ref);
      if id.Some? then s.(cluster := Put(s.cluster, id.value, result), phase := Idle) else s.(failed := true)
    case MutateFields => MutateFieldsStep(env, s)
    case Abort => s.(failed := true)
    case Churn(next) => s.(cluster := next)
    case Outside(id, edit) => s.(cluster := Apply(s.cluster, id, edit), base := Apply(s.base, id, edit))
    case UndoUnreported => s.(cluster := Undo(env.d, s.log[|s.log| - 1], s.cluster))
    case UndoEntry(i) => s.(cluster := Undo(env.d, s.log[i], s.cluster), undoing := true)
    case UndoStored(i) =>
      s.(cluster := Undo(env.d, DecryptCapture(env.v, s.durable[i]), s.cluster), undoing := true)
  }

  /** What a run must not do for its rollback to be exact.  A fresh whole-object capture finds
      an object that names its kind; a fresh field capture finds restorable fields; what a call
      whose key was seen before changes is covered by the log; and other writers keep off what
      the run has captured. */
  predicate Careful(env: Env, ev: Event, s: Run) {
    match ev
    case Begin(call, _) =>
      var id := Target(env.d, call.ref);
      if CallKey(call) in s.seen then CoversCall(env, s.log, call)
      else
        id.Some? && id.value in s.cluster ==>
          (if call.ObjectCall? then HasGvk(s.cluster[id.value])
           else Restorable(s.cluster[id.value], VisiblePathsOf(call.sets)))
    case Outside(id, edit) => KeepsOff(env.d, s.log, id, edit)
    case _ => true
  }

  /** The log covers what the call is about to change; a call whose reference does not resolve
      changes nothing. */
  predicate CoversCall(env: Env, log: seq<Capture>, call: Call) {
    match Target(env.d, call.ref)
    case None => true
    case Some(id) =>
      ObjectOn(env.d, log, id) || (call.FieldCall? && VisiblePathsOf(call.sets) <= PathsOn(env.d, log, id))
  }

  predicate SameTarget(call: Call, c: Capture) {
    && call.ref == c.ref
    && (call.ObjectCall? <==> c.scope.ObjectScope?)
    && (call.FieldCall? ==> PathList(call) == CapturePaths(c))
  }

  function After(env: Env, s: Run, evs: seq<Event>): Run
    requires CarefulRun(env, s, evs)
    decreases |evs|
  {
    if evs == [] then s else After(env, Step(env, s, evs[0]), evs[1..])
  }

  predicate CarefulRun(env: Env, s: Run, evs: seq<Event>)
    decreases |evs|
  {
    evs != [] ==>
      Enabled(evs[0], s) && Careful(env, evs[0], s) && CarefulRun(env, Step(env, s, evs[0]), evs[1..])
  }

  function Start(cl: Cluster): Run {
    Run(cl, cl, {}, [], [], Idle, false, false)
  }

  // -------------------------------------------------------------------- invariant

  function KeysOf(log: seq<Capture>): set<string> {
    set c | c in log :: CaptureKey(c)
  }

  /** How much of the log is durable: everything, or all but the entry just taken. */
  function Reported(s: Run): seq<Capture> {
    if s.phase.Captured? && s.log != [] then s.log[..|s.log| - 1] else s.log
  }

  /** Opened, the stored list is the log. */
  predicate Opens(v: Vault, stored: seq<Capture>, log: seq<Capture>) {
    |stored| == |log| && forall i | 0 <= i < |stored| :: DecryptCapture(v, stored[i]) == log[i]
  }

  /** Undoing the capture changes no content. */
  predicate Inert(d: Discovery, c: Capture, cl: Cluster) {
    SameContent(Undo(d, c, cl), cl)
  }

  /** What the durable list is worth: opened, it is the reported part of the log. */
  predicate Stored(env: Env, s: Run) {
    Opens(env.v, s.durable, Reported(s))
  }

  /** What holds of every run, whatever the cipher is. */
  ghost predicate Inv(env: Env, s: Run) {
    && Undoable(env.d, s.log, s.cluster, s.base)
    && Undoable(env.d, Reported(s), s.cluster, s.base)
    && FirstHolds(env.d, s.log, s.base)
    && |s.durable| == |Reported(s)|
    && (s.phase.Captured? ==> s.log != [])
    && (s.phase.Captured? && !s.undoing ==> Inert(env.d, s.log[|s.log| - 1], s.cluster))
    && (!s.phase.Idle? ==> CoversCall(env, s.log, s.phase.call))
    && (!s.failed ==> s.seen == KeysOf(s.log) && !s.undoing)
  }

  lemma RecordMatchesCall(call: Call, cl: Cluster, id: ObjId, seqNo: nat)
    requires call.FieldCall? ==> id in cl
    ensures var c := Record(call, cl, id, seqNo);
            SameTarget(call, c) && CaptureKey(c) == CallKey(call)
    ensures call.FieldCall? ==> FieldPathsOf(Record(call, cl, id, seqNo).fields) == VisiblePathsOf(call.sets)
  {
    if call.FieldCall? {
      var c := Record(call, cl, id, seqNo);
      assert CapturePaths(c) == PathList(call);
      forall a | a in call.sets ensures VisiblePath(a.path) in FieldPathsOf(c.fields) {
        var i :| 0 <= i < |call.sets| && call.sets[i] == a;
        assert c.fields[i] in c.fields;
      }
      forall f | f in c.fields ensures VisiblePath(f.path) in VisiblePathsOf(call.sets) {
        var i :| 0 <= i < |c.fields| && c.fields[i] == f;
        assert call.sets[i] in call.sets;
      }
    }
  }

  lemma RecordCapturesNow(env: Env, call: Call, cl: Cluster, id: ObjId, seqNo: nat)
    requires Target(env.d, call.ref) == Some(id) && (call.FieldCall? ==> id in cl)
    requires id in cl ==>
      (if call.ObjectCall? then HasGvk(cl[id]) else Restorable(cl[id], VisiblePathsOf(call.sets)))
    ensures CapturesNow(env.d, Record(call, cl, id, seqNo), cl)
  {
    RecordMatchesCall(call, cl, id, seqNo);
  }

  lemma SameTargetIsCovered(env: Env, log: seq<Capture>, call: Call, c: Capture)
    requires c in log && SameTarget(call, c) && Target(env.d, call.ref).Some?
    ensures CoversCall(env, log, call)
  {
    if call.FieldCall? {
      forall a | a in call.sets ensures VisiblePath(a.path) in PathsOn(env.d, log, Target(env.d, call.ref).value) {
        var i :| 0 <= i < |call.sets| && call.sets[i] == a;
        assert PathList(call)[i] == CapturePaths(c)[i] == c.fields[i].path;
        assert c.fields[i] in c.fields;
      }
    }
  }

  lemma KeysOfSnoc(log: seq<Capture>, c: Capture)
    ensures KeysOf(log + [c]) == KeysOf(log) + {CaptureKey(c)}
  {
    assert forall e :: e in log + [c] <==> e in log || e == c;
  }

  lemma BeginSeenKeepsInv(env: Env, s: Run, call: Call)
    requires Inv(env, s) && !s.failed && s.phase.Idle? && CallKey(call) in s.seen
    requires CoversCall(env, s.log, call)
    ensures Inv(env, s.(phase := Ready(call)))
  {
    assert Reported(s.(phase := Ready(call))) == Reported(s);
  }

  lemma BeginFreshKeepsInv(env: Env, s: Run, call: Call, c: Capture, s': Run)
    requires Inv(env, s) && !s.failed && s.phase.Idle?
    requires CapturesNow(env.d, c, s.cluster)
    requires SameTarget(call, c) && CaptureKey(c) == CallKey(call)
    requires s' == s.(seen := s.seen + {CallKey(call)}, log := s.log + [c], phase := Captured(call))
    ensures Inv(env, s')
  {
    assert Reported(s') == s.log == Reported(s);
    assert Undoable(env.d, s'.log, s'.cluster, s'.base) by {
      CaptureKeepsUndoable(env.d, s.log, c, s.cluster, s.base);
    }
    assert FirstHolds(env.d, s'.log, s'.base) by {
      CaptureKeepsFirstHolds(env.d, s.log, c, s.cluster, s.base);
    }
    assert Inert(env.d, c, s'.cluster) by { UndoneNow(env.d, c, s.cluster); }
    assert CoversCall(env, s'.log, call) by {
      assert c in s'.log;
      SameTargetIsCovered(env, s'.log, call, c);
    }
    assert s'.seen == KeysOf(s'.log) by { KeysOfSnoc(s.log, c); }
    assert s'.log[|s'.log| - 1] == c;
  }

  lemma BeginKeepsInv(env: Env, s: Run, call: Call, getFails: bool)
    requires Inv(env, s) && Enabled(Begin(call, getFails), s) && Careful(env, Begin(call, getFails), s)
    ensures Inv(env, BeginStep(env, s, call, getFails))
  {
    var id, s' := Target(env.d, call.ref), BeginStep(env, s, call, getFails);
    if CallKey(call) in s.seen {
      BeginSeenKeepsInv(env, s, call);
    } else if id.None? || getFails || (call.FieldCall? && id.value !in s.cluster) {
      assert Reported(s') == Reported(s);
    } else {
      var c := Record(call, s.cluster, id.value, |s.log|);
      RecordMatchesCall(call, s.cluster, id.value, |s.log|);
      RecordCapturesNow(env, call, s.cluster, id.value, |s.log|);
      BeginFreshKeepsInv(env, s, call, c, s');
    }
  }

  lemma ReportKeepsInv(env: Env, s: Run, nonce: nat)
    requires Inv(env, s) && Enabled(Report(nonce), s)
    ensures Inv(env, Step(env, s, Report(nonce)))
  {}

  /** A change that both lists cover keeps both undoable. */
  lemma CoveredStep(env: Env, s: Run, cl: Cluster)
    requires Inv(env, s) && IsCluster(cl)
    requires Covered(env.d, s.log, s.cluster, cl) && Covered(env.d, Reported(s), s.cluster, cl)
    ensures Undoable(env.d, s.log, cl, s.base) && Undoable(env.d, Reported(s), cl, s.base)
  {
    CoveredChange(env.d, s.log, s.cluster, cl, s.base);
    CoveredChange(env.d, Reported(s), s.cluster, cl, s.base);
  }

  lemma MutateFieldsIsCovered(env: Env, s: Run)
    requires Inv(env, s) && Enabled(MutateFields, s)
    ensures var cl := Step(env, s, MutateFields).cluster;
            IsCluster(cl) && Covered(env.d, s.log, s.cluster, cl) && Covered(env.d, Reported(s), s.cluster, cl)
  {
    var target := Target(env.d, s.phase.call.ref);
    if target.Some? && target.value in s.cluster {
      FieldChangeIsCovered(env.d, s.log, s.cluster, target.value, s.phase.call.sets);
    } else {
      SameContentIsCovered(env.d, s.log, s.cluster, s.cluster);
    }
  }

  lemma MutateKeepsInv(env: Env, s: Run, ev: Event)
    requires Inv(env, s) && Enabled(ev, s) && (ev.MutateObject? || ev.MutateFields?)
    ensures Inv(env, Step(env, s, ev))
  {
    assert Reported(s) == s.log;
    if ev.MutateFields? {
      MutateFieldsIsCovered(env, s);
    } else if Target(env.d, s.phase.call.ref).Some? {
      ObjectChangeIsCovered(env.d, s.log, s.cluster, Target(env.d, s.phase.call.ref).value, ev.result);
    } else {
      SameContentIsCovered(env.d, s.log, s.cluster, s.cluster);
    }
    CoveredStep(env, s, Step(env, s, ev).cluster);
  }

  lemma InertUnderChurn(d: Discovery, c: Capture, cl: Cluster, cl': Cluster)
    requires Recorded(d, c) && IsCluster(cl) && IsCluster(cl') && SameContent(cl, cl')
    requires Inert(d, c, cl)
    ensures Inert(d, c, cl')
  {
    SameContentIsCovered(d, [c], cl, cl');
    ReplayCovers(d, [c], cl, cl');
    assert [c][..0] == [];
    assert Replay(d, [c], cl) == Undo(d, c, cl) && Replay(d, [c], cl') == Undo(d, c, cl');
  }

  lemma ChurnKeepsInv(env: Env, s: Run, next: Cluster)
    requires Inv(env, s) && IsCluster(next) && SameContent(s.cluster, next)
    ensures Inv(env, s.(cluster := next))
  {
    SameContentIsCovered(env.d, s.log, s.cluster, next);
    SameContentIsCovered(env.d, Reported(s), s.cluster, next);
    CoveredStep(env, s, next);
    assert Reported(s.(cluster := next)) == Reported(s);
    if s.phase.Captured? && !s.undoing {
      var c := s.log[|s.log| - 1];
      assert Recorded(env.d, c);
      InertUnderChurn(env.d, c, s.cluster, next);
    }
  }

  lemma InertUnderEdit(d: Discovery, log: seq<Capture>, c: Capture, cl: Cluster, id: ObjId, e: Edit)
    requires c in log && KeepsOff(d, log, id, e) && Inert(d, c, cl)
    ensures Inert(d, c, Apply(cl, id, e))
  {
    UndoAfterEdit(d, log, c, cl, id, e);
    EditKeepsContent(Undo(d, c, cl), cl, id, e);
  }

  lemma OutsideKeepsReported(env: Env, s: Run, id: ObjId, e: Edit)
    requires Inv(env, s) && KeepsOff(env.d, s.log, id, e)
    ensures Undoable(env.d, Reported(s), Apply(s.cluster, id, e), Apply(s.base, id, e))
  {
    assert Reported(s) == s.log[..|Reported(s)|];
    KeepsOffPrefix(env.d, s.log, |Reported(s)|, id, e);
    EditKeepsUndoable(env.d, Reported(s), s.cluster, s.base, id, e);
  }

  lemma OutsideKeepsInv(env: Env, s: Run, id: ObjId, e: Edit)
    requires Inv(env, s) && KeepsOff(env.d, s.log, id, e)
    ensures Inv(env, s.(cluster := Apply(s.cluster, id, e), base := Apply(s.base, id, e)))
  {
    var s' := s.(cluster := Apply(s.cluster, id, e), base := Apply(s.base, id, e));
    assert Reported(s) == Reported(s');
    OutsideKeepsReported(env, s, id, e);
    EditKeepsUndoable(env.d, s.log, s.cluster, s.base, id, e);
    EditKeepsFirstHolds(env.d, s.log, s.base, id, e);
    if s.phase.Captured? && !s.undoing {
      InertUnderEdit(env.d, s.log, s.log[|s.log| - 1], s.cluster, id, e);
    }
  }

  lemma UndoKeepsInv(env: Env, s: Run, ev: Event)
    requires Inv(env, s) && Enabled(ev, s) && (ev.UndoEntry? || ev.UndoUnreported?)
    ensures Inv(env, Step(env, s, ev))
  {
    if ev.UndoUnreported? {
      var c := s.log[|s.log| - 1];
      UndoKeepsCluster(env.d, c, s.cluster);
      ChurnKeepsInv(env, s, Undo(env.d, c, s.cluster));
    } else {
      var c := s.log[ev.i];
      assert c == Reported(s)[ev.i];
      UndoKeepsCluster(env.d, c, s.cluster);
      UndoStepIsCovered(env.d, s.log, s.cluster, c);
      UndoStepIsCovered(env.d, Reported(s), s.cluster, c);
      CoveredStep(env, s, Undo(env.d, c, s.cluster));
    }
  }

  /** Undoing a stored entry that opens is undoing the entry. */
  lemma StoredStep(env: Env, s: Run, i: nat)
    requires Stored(env, s) && Enabled(UndoStored(i), s)
    ensures Enabled(UndoEntry(i), s) && Step(env, s, UndoStored(i)) == Step(env, s, UndoEntry(i))
  {
    assert s.log[i] == Reported(s)[i];
  }

  /** Every step keeps the invariant.  Only undoing from the durable list needs that it opens. */
  lemma StepKeepsInv(env: Env, s: Run, ev: Event)
    requires Inv(env, s) && Enabled(ev, s) && Careful(env, ev, s)
    requires ev.UndoStored? ==> Stored(env, s)
    ensures Inv(env, Step(env, s, ev))
  {
    match ev
    case Begin(call, getFails) => BeginKeepsInv(env, s, call, getFails);
    case Report(nonce) => ReportKeepsInv(env, s, nonce);
    case MutateObject(_) => MutateKeepsInv(env, s, ev);
    case MutateFields => MutateKeepsInv(env, s, ev);
    case Abort =>
    case Churn(next) => ChurnKeepsInv(env, s, next);
    case Outside(id, e) => OutsideKeepsInv(env, s, id, e);
    case UndoUnreported => UndoKeepsInv(env, s, ev);
    case UndoEntry(_) => UndoKeepsInv(env, s, ev);
    case UndoStored(i) =>
      StoredStep(env, s, i);
      UndoKeepsInv(env, s, UndoEntry(i));
  }

  lemma ReportKeepsStored(env: Env, s: Run, nonce: nat)
    requires Sound(env.v) && Inv(env, s) && Stored(env, s) && Enabled(Report(nonce), s)
    ensures Stored(env, Step(env, s, Report(nonce)))
  {
    var c := s.log[|s.log| - 1];
    assert c in s.log && Recorded(env.d, c);
    DecryptsToItself(env.v, nonce, c);
    assert Reported(s) + [c] == s.log == Reported(Step(env, s, Report(nonce)));
  }

  lemma BeginKeepsReported(env: Env, s: Run, call: Call, getFails: bool)
    requires s.phase.Idle?
    ensures var s' := BeginStep(env, s, call, getFails); Reported(s') == Reported(s) && s'.durable == s.durable
  {
    var s' := BeginStep(env, s, call, getFails);
    assert |s'.log| > |s.log| ==> s'.log[..|s'.log| - 1] == s.log;
  }

  lemma OthersKeepReported(env: Env, s: Run, ev: Event)
    requires Inv(env, s) && Enabled(ev, s) && !ev.Report?
    ensures var s' := Step(env, s, ev); Reported(s') == Reported(s) && s'.durable == s.durable
  {
    if ev.Begin? { BeginKeepsReported(env, s, ev.call, ev.getFails); }
  }

  /** Under a sound cipher the durable list always opens to the reported part of the log. */
  lemma StepKeepsStored(env: Env, s: Run, ev: Event)
    requires Sound(env.v) && Inv(env, s) && Stored(env, s) && Enabled(ev, s)
    ensures Stored(env, Step(env, s, ev))
  {
    if ev.Report? {
      ReportKeepsStored(env, s, ev.nonce);
    } else {
      OthersKeepReported(env, s, ev);
    }
  }

  /** Nothing is undone from the durable list. */
  predicate InMemory(evs: seq<Event>) {
    forall ev | ev in evs :: !ev.UndoStored?
  }

  lemma {:induction false} RunKeepsInv(env: Env, s: Run, evs: seq<Event>)
    requires Inv(env, s) && Stored(env, s) && CarefulRun(env, s, evs)
    requires Sound(env.v) || InMemory(evs)
    ensures Inv(env, After(env, s, evs))
    ensures Sound(env.v) ==> Stored(env, After(env, s, evs))
    decreases |evs|
  {
    if evs != [] && Sound(env.v) {
      StepKeepsInv(env, s, evs[0]);
      StepKeepsStored(env, s, evs[0]);
      RunKeepsInv(env, Step(env, s, evs[0]), evs[1..]);
    } else {
      MemoryRunKeepsInv(env, s, evs);
    }
  }

  lemma {:induction false} MemoryRunKeepsInv(env: Env, s: Run, evs: seq<Event>)
    requires Inv(env, s) && CarefulRun(env, s, evs) && InMemory(evs)
    ensures Inv(env, After(env, s, evs))
    decreases |evs|
  {
    if evs != [] {
      assert evs[0] in evs && forall ev | ev in evs[1..] :: ev in evs;
      StepKeepsInv(env, s, evs[0]);
      MemoryRunKeepsInv(env, Step(env, s, evs[0]), evs[1..]);
    }
  }

  // --------------------------------------------------------------------- theorems

  /** The captures of a stored list, opened. */
  function OpenAll(v: Vault, stored: seq<Capture>): seq<Capture> {
    seq(|stored|, i requires 0 <= i < |stored| => DecryptCapture(v, stored[i]))
  }

  lemma InvHolds(env: Env, cl: Cluster, evs: seq<Event>)
    requires IsCluster(cl) && CarefulRun(env, Start(cl), evs) && (Sound(env.v) || InMemory(evs))
    ensures Inv(env, After(env, Start(cl), evs))
    ensures Sound(env.v) ==> Stored(env, After(env, Start(cl), evs))
  {
    var s := Start(cl);
    assert Inv(env, s) by {
      assert forall id :: PathsOn(env.d, s.log, id) == {};
      assert KeysOf(s.log) == {};
    }
    RunKeepsInv(env, s, evs);
  }

  /** Crash safety.  At every point of every careful run, replaying the log in memory ends in
      the base cluster, whatever the cipher is; and under a sound cipher so does replaying the
      opened durable list. */
  lemma CrashSafety(env: Env, cl: Cluster, evs: seq<Event>)
    requires IsCluster(cl) && CarefulRun(env, Start(cl), evs) && (Sound(env.v) || InMemory(evs))
    ensures var s := After(env, Start(cl), evs);
            && SameContent(Replay(env.d, s.log, s.cluster), s.base)
            && (Sound(env.v) ==> SameContent(Replay(env.d, OpenAll(env.v, s.durable), s.cluster), s.base))
  {
    InvHolds(env, cl, evs);
    var s := After(env, Start(cl), evs);
    if Sound(env.v) { OpensToReported(env, s); }
  }

  lemma OpensToReported(env: Env, s: Run)
    requires Stored(env, s)
    ensures OpenAll(env.v, s.durable) == Reported(s)
  {}

  lemma StepKeepsBase(env: Env, s: Run, ev: Event)
    requires Enabled(ev, s) && !ev.Outside?
    ensures Step(env, s, ev).base == s.base
  {}

  lemma {:induction false} BaseWithoutOthers(env: Env, s: Run, evs: seq<Event>)
    requires CarefulRun(env, s, evs) && forall ev | ev in evs :: !ev.Outside?
    ensures After(env, s, evs).base == s.base
    decreases |evs|
  {
    if evs != [] {
      assert evs[0] in evs && forall ev | ev in evs[1..] :: ev in evs;
      StepKeepsBase(env, s, evs[0]);
      BaseWithoutOthers(env, Step(env, s, evs[0]), evs[1..]);
    }
  }

  /** The same objects with the same snapshots. */
  predicate SameSnapshots(a: Cluster, b: Cluster) {
    a.Keys == b.Keys && forall id | id in a :: Strip(DropNulls(a[id])) == Strip(DropNulls(b[id]))
  }

  lemma SameContentSameSnapshots(a: Cluster, b: Cluster)
    ensures SameContent(a, b) <==> SameSnapshots(a, b)
  {
    forall id | id in a && id in b { SameContentSameSnapshot(a[id], b[id]); }
  }

  /** Rollback.  When nobody else wrote, replaying the log gives every object back its initial
      snapshot, and no object more or less; and so does the opened durable list. */
  lemma RollbackRestoresInitialCluster(env: Env, cl: Cluster, evs: seq<Event>)
    requires IsCluster(cl) && CarefulRun(env, Start(cl), evs) && (Sound(env.v) || InMemory(evs))
    requires forall ev | ev in evs :: !ev.Outside?
    ensures var s := After(env, Start(cl), evs);
            && SameSnapshots(Replay(env.d, s.log, s.cluster), cl)
            && (Sound(env.v) ==> SameSnapshots(Replay(env.d, OpenAll(env.v, s.durable), s.cluster), cl))
  {
    CrashSafety(env, cl, evs);
    BaseWithoutOthers(env, Start(cl), evs);
    var s := After(env, Start(cl), evs);
    SameContentSameSnapshots(Replay(env.d, s.log, s.cluster), cl);
    SameContentSameSnapshots(Replay(env.d, OpenAll(env.v, s.durable), s.cluster), cl);
  }

  /** Rerunning.  After any part of the log has been replayed, in any order and any number of
      times, a full replay still ends in the base cluster; in particular twice is once. */
  lemma RestoreIsRerunnable(env: Env, cl: Cluster, evs: seq<Event>, part: seq<Capture>)
    requires IsCluster(cl) && CarefulRun(env, Start(cl), evs) && (Sound(env.v) || InMemory(evs))
    ensures var s := After(env, Start(cl), evs);
            && ((forall c | c in part :: c in s.log) ==>
                  SameContent(Replay(env.d, s.log, Replay(env.d, part, s.cluster)), s.base))
            && SameContent(Replay(env.d, s.log, Replay(env.d, s.log, s.cluster)), Replay(env.d, s.log, s.cluster))
  {
    InvHolds(env, cl, evs);
    var s := After(env, Start(cl), evs);
    if forall c | c in part :: c in s.log { PartialReplay(env.d, s.log, part, s.cluster, s.base); }
    PartialReplay(env.d, s.log, s.log, s.cluster, s.base);
  }

  /** Every object and path the log does not cover is as in the base, and the earliest entry
      that covers one holds what the base has there. */
  ghost predicate Strict(d: Discovery, s: Run) {
    && (forall id, p | Uncovered(d, s.log, id, p) ::
          && (id in s.cluster <==> id in s.base)
          && (id in s.cluster ==> SameAt(Canon(s.cluster[id]), Canon(s.base[id]), p, PathsOn(d, s.log, id))))
    && (forall i, id, p | EarliestCover(d, s.log, i, id, p) :: HoldsAt(d, s.log, i, s.base, id, p))
  }

  /** Strict mode.  In every state of a careful run, every object or path that differs from the
      base is covered by the log, and the earliest entry that covers it holds the base value;
      until the run fails, the keys seen are exactly the keys of the entries recorded. */
  lemma StrictMode(env: Env, cl: Cluster, evs: seq<Event>)
    requires IsCluster(cl) && CarefulRun(env, Start(cl), evs) && (Sound(env.v) || InMemory(evs))
    ensures var s := After(env, Start(cl), evs);
            Strict(env.d, s) && (!s.failed ==> s.seen == KeysOf(s.log))
  {
    InvHolds(env, cl, evs);
    InvIsStrict(env, After(env, Start(cl), evs));
  }

  lemma InvIsStrict(env: Env, s: Run)
    requires Inv(env, s)
    ensures Strict(env.d, s)
  {
    forall id, p | Uncovered(env.d, s.log, id, p)
      ensures id in s.cluster <==> id in s.base
      ensures id in s.cluster ==> SameAt(Canon(s.cluster[id]), Canon(s.base[id]), p, PathsOn(env.d, s.log, id))
    {
      UncoveredIsAsInBase(env.d, s.log, s.cluster, s.base, id, p);
    }
    forall i, id, p | EarliestCover(env.d, s.log, i, id, p) ensures HoldsAt(env.d, s.log, i, s.base, id, p) {
      EarliestCaptureHoldsBase(env.d, s.log, i, s.base, id, p);
    }
  }
}
