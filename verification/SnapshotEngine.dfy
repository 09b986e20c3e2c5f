/** The agent's side of a run: the capture log, the builtins that capture before they write,
    the generic restore, and the run that rolls itself back when its script fails. */
module SnapshotEngine {
  import opened Options
  import opened MergePatch
  import opened Stripping
  import opened FieldPaths
  import opened Captures
  import opened CaptureKeys
  import UndoLog
  import opened SnapshotCrypto
  import opened SnapshotRun
  import opened SnapshotScript
  import opened JsonHeap
  import opened RestoreReport
  import opened BuiltinEffects
  import opened RestoredFields

  // ----------------------------------------------------------------- capture log

  /** The ordered undo state of one run.  `reported` is what the durable hook has appended to
      the control plane's list. */
  class CaptureLog {
    const vault: Vault
    var nextSeq: nat
    var entries: seq<Capture>
    var seen: set<string>
    var reported: seq<Capture>

    ghost predicate Valid()
      reads this
    {
      nextSeq == |entries| && forall i | 0 <= i < |entries| :: entries[i].seqNo == i
    }

    constructor (vault: Vault)
      ensures Valid() && this.vault == vault
      ensures entries == [] && seen == {} && reported == []
    {
      this.vault := vault;
      nextSeq, entries, seen, reported := 0, [], {}, [];
    }

    /** Appends a capture under the next number and reports it before returning. */
    method Add(c: Capture) returns (numbered: Capture)
      requires Valid()
      modifies this
      ensures Valid() && seen == old(seen)
      ensures numbered == c.(seqNo := |old(entries)|)
      ensures entries == old(entries) + [numbered]
      ensures reported == old(reported) + [EncryptForDurable(vault, |old(entries)|, numbered)]
    {
      numbered := c.(seqNo := nextSeq);
      nextSeq := nextSeq + 1;
      entries := entries + [numbered];
      reported := reported + [EncryptForDurable(vault, numbered.seqNo, numbered)];
    }

    /** True the first time a key is seen. */
    method MarkSeen(key: string) returns (first: bool)
      requires Valid()
      modifies this`seen
      ensures first <==> key !in old(seen)
      ensures seen == old(seen) + {key}
    {
      first := key !in seen;
      seen := seen + {key};
    }

    method List() returns (copy: seq<Capture>)
      ensures copy == entries
    {
      copy := entries;
    }
  }

  // ------------------------------------------------------------------- API server

  /** The objects behind the dynamic client. */
  class ApiServer {
    var objects: Cluster

    constructor (objects: Cluster)
      ensures this.objects == objects
    {
      this.objects := objects;
    }

    function Get(id: ObjId): Option<Json>
      reads this
    {
      if id in objects then Some(objects[id]) else None
    }

    /** A merge patch; an absent object is an error. */
    method MergePatchObject(id: ObjId, patch: Json) returns (ok: bool)
      modifies this
      ensures ok <==> id in old(objects)
      ensures objects == if ok then old(objects)[id := Merge(old(objects)[id], patch)] else old(objects)
    {
      ok := id in objects;
      if ok { objects := objects[id := Merge(objects[id], patch)]; }
    }

    method Put(id: ObjId, x: Option<Json>)
      modifies this
      ensures objects == UndoLog.Put(old(objects), id, x)
    {
      objects := UndoLog.Put(objects, id, x);
    }
  }

  // ---------------------------------------------------------------------- restore

  lemma NextOutcome(d: Discovery, log: seq<Capture>, end: nat, refuses: Refusals, cl: Cluster, done: seq<bool>)
    requires 0 < end <= |log|
    ensures var c, refused := log[end - 1], refuses(end - 1);
            done + ReplayOutcomes(d, log, end, refuses, cl)
              == done + [!refused && RestoreOk(d, c, cl)]
                 + ReplayOutcomes(d, log, end - 1, refuses, UndoUnless(d, refused, c, cl))
  {}

  /** The state of a run, read off the server and the log. */
  ghost function StateOf(api: ApiServer, log: CaptureLog, base: Cluster): Run
    reads api, log
  {
    Run(api.objects, base, log.seen, log.entries, log.reported, Idle, false, false)
  }

  ghost predicate LogIs(log: CaptureLog, s: Run)
    reads log
  {
    log.entries == s.log && log.seen == s.seen && log.reported == s.durable
  }

  class Runner {
    const env: Env
    const api: ApiServer

    constructor (env: Env, api: ApiServer)
      ensures this.env == env && this.api == api
    {
      this.env, this.api := env, api;
    }

    /** Records the whole stripped object, or that there is none, unless its key was seen. */
    method CaptureObject(log: CaptureLog, ref: Ref, getFails: bool, ghost base: Cluster)
        returns (ok: bool, captured: Option<Capture>)
      requires log.Valid() && log.vault == env.v
      modifies log
      ensures log.Valid()
      ensures var s := ReportStep(env, BeginStep(env, old(StateOf(api, log, base)), ObjectCall(ref), getFails));
              LogIs(log, s) && ok == !s.failed
      ensures captured.Some? <==> ok && ObjectKey(ref) !in old(log.seen)
      ensures captured.Some? ==> Target(env.d, ref).Some?
      ensures captured.Some? ==> (captured.value.existed <==> Target(env.d, ref).value in api.objects)
    {
      var first := log.MarkSeen(ObjectKey(ref));
      if !first {
        return true, None;
      }
      var id := Target(env.d, ref);
      if id.None? || getFails {
        return false, None;
      }
      var c: Capture;
      match api.Get(id.value) {
        case None =>
          c := log.Add(Capture(0, ref, false, ObjectScope, Null, [], None));
        case Some(u) =>
          var obj := StripForSnapshot(u);
          c := log.Add(Capture(0, ref, true, ObjectScope, obj, [], None));
      }
      return true, Some(c);
    }

    /** Records the values at exactly the paths about to be set, unless their key was seen. */
    method CaptureFields(log: CaptureLog, ref: Ref, sets: seq<Assign>, getFails: bool, ghost base: Cluster) returns (ok: bool)
      requires log.Valid() && log.vault == env.v
      modifies log
      ensures log.Valid()
      ensures var s := ReportStep(env, BeginStep(env, old(StateOf(api, log, base)), FieldCall(ref, sets), getFails));
              LogIs(log, s) && ok == !s.failed
    {
      var first := log.MarkSeen(FieldKey(ref, PathList(FieldCall(ref, sets))));
      if !first {
        return true;
      }
      var id := Target(env.d, ref);
      if id.None? || getFails || api.Get(id.value).None? {
        return false;
      }
      var u := api.Get(id.value).value;
      var deltas := ReadDeltas(u, sets);
      assert deltas == Record(FieldCall(ref, sets), api.objects, id.value, |log.entries|).fields;
      var _ := log.Add(Capture(0, ref, true, FieldScope, Null, deltas, None));
      return true;
    }

    /** Captures what the call is about to change; `absent` when an object call has just
        recorded that its target is not there. */
    method CaptureTarget(log: CaptureLog, call: Call, getFails: bool, ghost base: Cluster)
        returns (ok: bool, absent: bool)
      requires log.Valid() && log.vault == env.v
      modifies log
      ensures log.Valid()
      ensures var s := ReportStep(env, BeginStep(env, old(StateOf(api, log, base)), call, getFails));
              LogIs(log, s) && ok == !s.failed
      ensures ok && call.ObjectCall? ==>
        (absent <==> CallKey(call) !in old(log.seen) && Target(env.d, call.ref).Some?
                     && Target(env.d, call.ref).value !in api.objects)
    {
      match call {
        case ObjectCall(ref) =>
          var captured;
          ok, captured := CaptureObject(log, ref, getFails, base);
          absent := captured.Some? && !captured.value.existed;
        case FieldCall(ref, sets) =>
          ok := CaptureFields(log, ref, sets, getFails, base);
          absent := false;
      }
    }

    method Write(op: Op, call: Call) returns (ok: bool)
      modifies api
      ensures ok == Written(env, old(api.objects), op, call).Some?
      ensures api.objects == if ok then Written(env, old(api.objects), op, call).value else old(api.objects)
    {
      var id := Target(env.d, call.ref);
      if id.None? {
        return false;
      }
      match call {
        case FieldCall(_, sets) =>
          var patch := BuildPatch(sets);
          ok := api.MergePatchObject(id.value, patch);
        case ObjectCall(_) =>
          var x := WriteOf(op, api.Get(id.value));
          ok := x.Some?;
          if ok { api.Put(id.value, x.value); }
      }
    }

    /** One builtin of the script: arguments are checked, the target is captured and reported,
        and only then is it written. */
    method RunLine(log: CaptureLog, line: Line, ghost base: Cluster) returns (ok: bool)
      requires log.Valid() && log.vault == env.v
      modifies log, api
      ensures log.Valid()
      ensures var s := LineStep(env, old(StateOf(api, log, base)), line);
              LogIs(log, s) && api.objects == s.cluster && ok == !s.failed
    {
      var call := CallOf(line.op);
      if call.None? {
        return false;
      }
      LineUnfolds(env, StateOf(api, log, base), line, call.value);
      var absent;
      ok, absent := CaptureTarget(log, call.value, line.fault.GetFault?, base);
      if ok {
        if line.op.Snapshot? || (line.op.DeleteOp? && absent) {
          return true;
        }
        if line.fault.WriteFault? {
          return false;
        }
        ok := Write(line.op, call.value);
      }
    }

    /** Runs a script on a fresh log and, if it fails, which is exactly when one of its lines
        does, rolls the cluster back from that log.  The durable list stays for a later revert.
        A rollback nothing of which is refused leaves every object with the fields it had; when
        the server refuses some of it, running it again finishes it. */
    method RunSnapshotAction(script: seq<Line>, refuses: Refusals) returns (failed: bool, durable: seq<Capture>)
      modifies api
      ensures var s := ScriptRun(env, Start(old(api.objects)), script);
              && failed == s.failed && durable == s.durable
              && api.objects == if failed then Replay(env.d, Kept(s.log, 0, |s.log|, refuses), s.cluster) else s.cluster
      ensures failed <==> exists i: nat :: StopsAt(env, Start(old(api.objects)), script, i)
      ensures IsCluster(old(api.objects)) && CarefulScript(env, Start(old(api.objects)), script) ==>
                var s := ScriptRun(env, Start(old(api.objects)), script);
                && SameSnapshots(Replay(env.d, s.log, api.objects), old(api.objects))
                && SameObjects(Replay(env.d, s.log, api.objects), old(api.objects))
                && (Sound(env.v) ==> OpenAll(env.v, durable) == s.log)
                && (failed && (forall i: nat | i < |s.log| :: !refuses(i)) ==>
                      && SameSnapshots(api.objects, old(api.objects))
                      && SameObjects(api.objects, old(api.objects)))
    {
      ghost var initial := api.objects;
      var log := new CaptureLog(env.v);
      failed := false;
      var i := 0;
      ghost var s := Start(initial);
      assert script[0..] == script;
      while i < |script| && !failed
        invariant 0 <= i <= |script|
        invariant fresh(log) && log.Valid() && log.vault == env.v
        invariant failed == s.failed && LogIs(log, s) && api.objects == s.cluster && Plain(s.log)
        invariant !failed ==> s == StateOf(api, log, initial)
        invariant ScriptRun(env, s, script[i..]) == ScriptRun(env, Start(initial), script)
      {
        LineLands(env, s, script[i]);
        assert script[i..][0] == script[i] && script[i..][1..] == script[i + 1..];
        s := LineStep(env, s, script[i]);
        var ok := RunLine(log, script[i], initial);
        failed := !ok;
        i := i + 1;
      }
      durable := log.reported;
      if failed {
        var captures := log.List();
        PlainOpensToItself(env.v, captures);
        var _ := Restore(captures, refuses);
      }
      ScriptFailsIff(env, Start(initial), script);
      if IsCluster(initial) && CarefulScript(env, Start(initial), script) {
        RolledBack(env, initial, script, s, refuses);
      }
    }

    /** Replays the captures last to first.  An entry that cannot be undone is reported and
        passed over. */
    method Restore(captures: seq<Capture>, refuses: Refusals) returns (oks: seq<bool>)
      modifies api
      ensures var plain := OpenAll(env.v, captures);
              && api.objects == Replay(env.d, Kept(plain, 0, |plain|, refuses), old(api.objects))
              && oks == ReplayOutcomes(env.d, plain, |plain|, refuses, old(api.objects))
    {
      ghost var plain := OpenAll(env.v, captures);
      var i := |captures|;
      oks := [];
      while i > 0
        invariant 0 <= i <= |captures|
        invariant Replay(env.d, Kept(plain, 0, i, refuses), api.objects)
               == Replay(env.d, Kept(plain, 0, |plain|, refuses), old(api.objects))
        invariant oks + ReplayOutcomes(env.d, plain, i, refuses, api.objects)
               == ReplayOutcomes(env.d, plain, |plain|, refuses, old(api.objects))
      {
        ReplayKept(env.d, plain, 0, i, refuses, api.objects);
        NextOutcome(env.d, plain, i, refuses, api.objects, oks);
        i := i - 1;
        var ok := RestoreEntry(DecryptCapture(env.v, captures[i]), refuses(i));
        oks := oks + [ok];
      }
    }

    /** Undoes one entry, unless the server refuses the request it takes. */
    method RestoreEntry(c: Capture, refused: bool) returns (ok: bool)
      modifies api
      ensures api.objects == UndoUnless(env.d, refused, c, old(api.objects))
      ensures ok == (!refused && RestoreOk(env.d, c, old(api.objects)))
    {
      var target := Target(env.d, c.ref);
      if target.None? || refused {
        return false;
      }
      var id := target.value;
      if !c.existed && c.scope.ObjectScope? {
        api.Put(id, None);
        ok := true;
      } else if c.scope.FieldScope? {
        var patch := BuildPatch(UndosOf(c.fields));
        ok := api.MergePatchObject(id, patch);
      } else {
        match api.Get(id) {
          case None =>
            api.Put(id, Some(EnsureGvk(env.d, c.before, c.ref)));
            ok := true;
          case Some(got) =>
            var cur := StripForSnapshot(got);
            var patch := BuildRestorePatch(c.before, cur);
            ok := api.MergePatchObject(id, patch);
        }
      }
    }
  }

  /** What a careful script and its rollback leave behind. */
  lemma RolledBack(env: Env, initial: Cluster, script: seq<Line>, s: Run, refuses: Refusals)
    requires IsCluster(initial) && CarefulScript(env, Start(initial), script)
    requires s == ScriptRun(env, Start(initial), script)
    ensures GivesBack(env, s, s.cluster, initial)
    ensures GivesBack(env, s, Replay(env.d, Kept(s.log, 0, |s.log|, refuses), s.cluster), initial)
    ensures Sound(env.v) ==> OpenAll(env.v, s.durable) == s.log
    ensures (forall i: nat | i < |s.log| :: !refuses(i)) ==> Kept(s.log, 0, |s.log|, refuses) == s.log
  {
    var kept := Kept(s.log, 0, |s.log|, refuses);
    KeptIsSome(s.log, 0, |s.log|, refuses);
    ScriptCanBeRolledBack(env, initial, script, kept);
    ScriptKeepsCluster(env, initial, script);
    ReplayKeepsCluster(env.d, kept, s.cluster);
    GivesBackFields(env, s, s.cluster, initial);
    GivesBackFields(env, s, Replay(env.d, kept, s.cluster), initial);
    if forall i: nat | i < |s.log| :: !refuses(i) { NoneRefused(s.log, |s.log|, refuses); }
  }

  /** Replaying the log from `cl` gives every object back. */
  ghost predicate GivesBack(env: Env, s: Run, cl: Cluster, initial: Cluster) {
    var r := Replay(env.d, s.log, cl);
    SameSnapshots(r, initial) && SameObjects(r, initial)
  }

  lemma GivesBackFields(env: Env, s: Run, cl: Cluster, initial: Cluster)
    requires IsCluster(cl) && IsCluster(initial) && SameSnapshots(Replay(env.d, s.log, cl), initial)
    ensures GivesBack(env, s, cl, initial)
  {
    ReplayKeepsCluster(env.d, s.log, cl);
    SameSnapshotsSameObjects(Replay(env.d, s.log, cl), initial);
  }

  lemma ScriptKeepsCluster(env: Env, initial: Cluster, script: seq<Line>)
    requires IsCluster(initial) && CarefulScript(env, Start(initial), script)
    ensures IsCluster(ScriptRun(env, Start(initial), script).cluster)
  {
    InvHolds(env, initial, []);
    ScriptKeepsGood(env, Start(initial), script);
  }

  /** The before-values of the paths, in order. */
  method ReadDeltas(u: Json, sets: seq<Assign>) returns (deltas: seq<FieldDelta>)
    ensures |deltas| == |sets| && forall j | 0 <= j < |sets| :: deltas[j] == Delta(u, sets[j].path)
  {
    deltas := [];
    for i := 0 to |sets|
      invariant |deltas| == i
      invariant forall j | 0 <= j < i :: deltas[j] == Delta(u, sets[j].path)
    {
      var before, existed := NestedGet(u, sets[i].path);
      deltas := deltas + [FieldDelta(sets[i].path, before, existed)];
    }
  }

  /** The restore patch, built in two passes over the members. */
  method BuildRestorePatch(before: Json, current: Json) returns (out: Json)
    ensures out == RestorePatch(before, current)
    decreases before
  {
    var b, c := Members(before), Members(current);
    ghost var spec := RestorePatch(before, current).m;
    var r: map<string, Json> := map[];
    var keys := b.Keys;
    while keys != {}
      invariant keys <= b.Keys && r.Keys == b.Keys - keys
      invariant forall k | k in r :: r[k] == spec[k]
      decreases keys
    {
      var k :| k in keys;
      if b[k].Obj? && k in c && c[k].Obj? {
        var nested := BuildRestorePatch(b[k], c[k]);
        r := r[k := nested];
      } else {
        r := r[k := b[k]];
      }
      keys := keys - {k};
    }
    keys := c.Keys;
    while keys != {}
      invariant keys <= c.Keys && r.Keys == b.Keys + (c.Keys - keys)
      invariant forall k | k in r :: r[k] == spec[k]
      decreases keys
    {
      var k :| k in keys;
      if k !in b {
        r := r[k := Null];
      }
      keys := keys - {k};
    }
    assert r == spec;
    out := Obj(r);
  }
}
