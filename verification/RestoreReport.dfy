/** What a restore reports, entry by entry, and which objects it leaves behind, also when the
    server refuses some of its requests. */
module RestoreReport {
  import opened Captures

  /** Whether restoring the entry reports success when the server refuses nothing. */
  predicate RestoreOk(d: Discovery, c: Capture, cl: Cluster) {
    match Target(d, c.ref)
    case None => false
    case Some(id) => c.scope.FieldScope? ==> id in cl
  }

  /** Which entries' requests the server refuses, by their place in the log. */
  type Refusals = nat -> bool

  /** The entries from `from` up to `end` that the server does not refuse, in order. */
  function Kept(log: seq<Capture>, from: nat, end: nat, refuses: Refusals): seq<Capture>
    requires end <= |log|
  {
    if end <= from then []
    else Kept(log, from, end - 1, refuses) + if refuses(end - 1) then [] else [log[end - 1]]
  }

  /** Entry by entry: one that is not refused is kept, in its place. */
  lemma {:induction false} KeptIs(log: seq<Capture>, from: nat, i: nat, end: nat, refuses: Refusals)
    requires from <= i < end <= |log|
    ensures refuses(i) ==>
      Kept(log, from, end, refuses) == Kept(log, from, i, refuses) + Kept(log, i + 1, end, refuses)
    ensures !refuses(i) ==>
      Kept(log, from, end, refuses) == Kept(log, from, i, refuses) + [log[i]] + Kept(log, i + 1, end, refuses)
    ensures Kept(log, from, from, refuses) == []
    decreases end
  {
    if i < end - 1 { KeptIs(log, from, i, end - 1, refuses); }
  }

  /** One entry of a replay: refused, it changes nothing. */
  function UndoUnless(d: Discovery, refused: bool, c: Capture, cl: Cluster): Cluster {
    if refused then cl else Undo(d, c, cl)
  }

  /** The outcomes of replaying the first `end` entries, last entry first. */
  function ReplayOutcomes(d: Discovery, log: seq<Capture>, end: nat, refuses: Refusals, cl: Cluster): seq<bool>
    requires end <= |log|
  {
    if end == 0 then []
    else
      var c, refused := log[end - 1], refuses(end - 1);
      [!refused && RestoreOk(d, c, cl)] + ReplayOutcomes(d, log, end - 1, refuses, UndoUnless(d, refused, c, cl))
  }

  lemma {:induction false} KeptIsSome(log: seq<Capture>, from: nat, end: nat, refuses: Refusals)
    requires end <= |log|
    ensures forall c | c in Kept(log, from, end, refuses) :: c in log
  {
    if end > from { KeptIsSome(log, from, end - 1, refuses); }
  }

  lemma {:induction false} NoneRefused(log: seq<Capture>, end: nat, refuses: Refusals)
    requires end <= |log| && forall i: nat | i < end :: !refuses(i)
    ensures Kept(log, 0, end, refuses) == log[..end]
  {
    if end > 0 { NoneRefused(log, end - 1, refuses); }
  }

  lemma ReplaySnoc(d: Discovery, front: seq<Capture>, c: Capture, cl: Cluster)
    ensures Replay(d, front + [c], cl) == Replay(d, front, Undo(d, c, cl))
  {
    assert (front + [c])[..|front|] == front;
  }

  /** Replaying what is kept, one entry less. */
  lemma ReplayKept(d: Discovery, log: seq<Capture>, from: nat, end: nat, refuses: Refusals, cl: Cluster)
    requires from < end <= |log|
    ensures Replay(d, Kept(log, from, end, refuses), cl)
         == Replay(d, Kept(log, from, end - 1, refuses), UndoUnless(d, refuses(end - 1), log[end - 1], cl))
  {
    var front := Kept(log, from, end - 1, refuses);
    ReplaySnoc(d, front, log[end - 1], cl);
    assert front + [] == front;
  }

  // ------------------------------------------------ which objects there are afterwards

  /** Entry `i` is the first of the log that captures `id` whole. */
  ghost predicate FirstObjectEntry(d: Discovery, log: seq<Capture>, i: nat, id: ObjId) {
    && i < |log| && log[i].scope.ObjectScope? && On(d, log[i], id)
    && forall j | 0 <= j < i :: !(log[j].scope.ObjectScope? && On(d, log[j], id))
  }

  /** The earliest whole capture of `id` decides; without one it is there if it was. */
  ghost predicate PresentAfter(d: Discovery, log: seq<Capture>, cl: Cluster, id: ObjId) {
    if ObjectOn(d, log, id) then exists i: nat :: FirstObjectEntry(d, log, i, id) && log[i].existed
    else id in cl
  }

  lemma FirstInFront(d: Discovery, front: seq<Capture>, c: Capture, id: ObjId, i: nat)
    requires ObjectOn(d, front, id)
    ensures FirstObjectEntry(d, front + [c], i, id) <==> FirstObjectEntry(d, front, i, id)
  {
    var e :| e in front && e.scope.ObjectScope? && On(d, e, id);
    var j :| 0 <= j < |front| && front[j] == e;
    assert forall k | 0 <= k < |front| :: (front + [c])[k] == front[k];
  }

  lemma FirstAtEnd(d: Discovery, front: seq<Capture>, c: Capture, id: ObjId, i: nat)
    requires !ObjectOn(d, front, id) && c.scope.ObjectScope? && On(d, c, id)
    ensures FirstObjectEntry(d, front + [c], i, id) <==> i == |front|
  {
    assert forall j | 0 <= j < |front| :: (front + [c])[j] in front;
  }

  lemma PresentNext(d: Discovery, front: seq<Capture>, c: Capture, cl: Cluster, id: ObjId)
    ensures PresentAfter(d, front + [c], cl, id) <==> PresentAfter(d, front, Undo(d, c, cl), id)
  {
    CoverOfSnoc(d, front, c, id);
    if ObjectOn(d, front, id) {
      forall i: nat
        ensures FirstObjectEntry(d, front + [c], i, id) <==> FirstObjectEntry(d, front, i, id)
      {
        FirstInFront(d, front, c, id, i);
      }
    } else if c.scope.ObjectScope? && On(d, c, id) {
      FirstAtEnd(d, front, c, id, |front|);
      forall i: nat ensures FirstObjectEntry(d, front + [c], i, id) <==> i == |front| {
        FirstAtEnd(d, front, c, id, i);
      }
    }
  }

  /** Which objects exist after a replay. */
  lemma {:induction false} PresentAfterReplay(d: Discovery, log: seq<Capture>, cl: Cluster, id: ObjId)
    ensures id in Replay(d, log, cl) <==> PresentAfter(d, log, cl, id)
    decreases |log|
  {
    if log != [] {
      var n := |log| - 1;
      assert log == log[..n] + [log[n]];
      PresentNext(d, log[..n], log[n], cl, id);
      PresentAfterReplay(d, log[..n], Undo(d, log[n], cl), id);
    }
  }

  // ------------------------------------------------------------- what is reported

  lemma {:induction false} OutcomesCount(d: Discovery, log: seq<Capture>, end: nat, refuses: Refusals, cl: Cluster)
    requires end <= |log|
    ensures |ReplayOutcomes(d, log, end, refuses, cl)| == end
    decreases end
  {
    if end > 0 {
      OutcomesCount(d, log, end - 1, refuses, UndoUnless(d, refuses(end - 1), log[end - 1], cl));
    }
  }

  lemma OutcomesNext(d: Discovery, log: seq<Capture>, end: nat, refuses: Refusals, cl: Cluster, oks: seq<bool>, rest: seq<bool>)
    requires 0 < end <= |log| && oks == ReplayOutcomes(d, log, end, refuses, cl)
    requires rest == ReplayOutcomes(d, log, end - 1, refuses, UndoUnless(d, refuses(end - 1), log[end - 1], cl))
    ensures |oks| == end && |rest| == end - 1
    ensures oks[0] == (!refuses(end - 1) && RestoreOk(d, log[end - 1], cl)) && oks[1..] == rest
  {
    OutcomesCount(d, log, end - 1, refuses, UndoUnless(d, refuses(end - 1), log[end - 1], cl));
  }

  /** The cluster at the turn of entry `i`. */
  function AtTurn(d: Discovery, log: seq<Capture>, end: nat, refuses: Refusals, i: nat, cl: Cluster): Cluster
    requires i < end <= |log|
  {
    if i == end - 1 then cl
    else AtTurn(d, log, end - 1, refuses, i, UndoUnless(d, refuses(end - 1), log[end - 1], cl))
  }

  lemma {:induction false} TurnIs(d: Discovery, log: seq<Capture>, end: nat, refuses: Refusals, i: nat, cl: Cluster)
    requires i < end <= |log|
    ensures AtTurn(d, log, end, refuses, i, cl) == Replay(d, Kept(log, i + 1, end, refuses), cl)
    decreases end
  {
    if i < end - 1 {
      ReplayKept(d, log, i + 1, end, refuses, cl);
      TurnIs(d, log, end - 1, refuses, i, UndoUnless(d, refuses(end - 1), log[end - 1], cl));
    }
  }

  /** The outcomes come last entry first, each judged in the cluster in which the later entries
      are undone. */
  lemma {:induction false} OutcomeAt(d: Discovery, log: seq<Capture>, end: nat, refuses: Refusals, i: nat, cl: Cluster)
    requires i < end <= |log|
    ensures |ReplayOutcomes(d, log, end, refuses, cl)| == end
    ensures ReplayOutcomes(d, log, end, refuses, cl)[end - 1 - i] ==
      (!refuses(i) && RestoreOk(d, log[i], AtTurn(d, log, end, refuses, i, cl)))
    decreases end
  {
    var next := UndoUnless(d, refuses(end - 1), log[end - 1], cl);
    var oks, rest := ReplayOutcomes(d, log, end, refuses, cl), ReplayOutcomes(d, log, end - 1, refuses, next);
    OutcomesNext(d, log, end, refuses, cl, oks, rest);
    if i < end - 1 {
      OutcomeAt(d, log, end - 1, refuses, i, next);
      assert oks[end - 1 - i] == rest[end - 2 - i];
    }
  }

  lemma RestoreOkAfter(d: Discovery, c: Capture, later: seq<Capture>, cl: Cluster)
    ensures RestoreOk(d, c, Replay(d, later, cl)) <==>
      && Target(d, c.ref).Some?
      && (c.scope.FieldScope? ==> PresentAfter(d, later, cl, Target(d, c.ref).value))
  {
    if Target(d, c.ref).Some? { PresentAfterReplay(d, later, cl, Target(d, c.ref).value); }
  }

  /** What a replay reports, by the log, the refusals and the cluster it starts from: an entry
      succeeds exactly when it is not refused, its reference resolves, and, if it is a field
      entry, the object is there at its turn. */
  lemma EntrySucceedsIff(d: Discovery, log: seq<Capture>, refuses: Refusals, i: nat, cl: Cluster, oks: seq<bool>)
    requires i < |log| && oks == ReplayOutcomes(d, log, |log|, refuses, cl)
    ensures |oks| == |log|
    ensures oks[|log| - 1 - i] <==>
      && !refuses(i)
      && Target(d, log[i].ref).Some?
      && (log[i].scope.FieldScope? ==>
            PresentAfter(d, Kept(log, i + 1, |log|, refuses), cl, Target(d, log[i].ref).value))
  {
    var later := Kept(log, i + 1, |log|, refuses);
    OutcomeAt(d, log, |log|, refuses, i, cl);
    TurnIs(d, log, |log|, refuses, i, cl);
    RestoreOkAfter(d, log[i], later, cl);
  }

  /** A field entry of an object that the run deleted later fails, although an earlier entry
      brings the object back. */
  lemma FailedEntryComesBack(d: Discovery, log: seq<Capture>, refuses: Refusals, i: nat, j: nat, cl: Cluster,
                             id: ObjId, oks: seq<bool>)
    requires i < |log| && log[i].scope.FieldScope? && On(d, log[i], id)
    requires oks == ReplayOutcomes(d, log, |log|, refuses, cl)
    requires !ObjectOn(d, Kept(log, i + 1, |log|, refuses), id) && id !in cl
    requires var kept := Kept(log, 0, |log|, refuses); FirstObjectEntry(d, kept, j, id) && kept[j].existed
    ensures |oks| == |log| && !oks[|log| - 1 - i]
    ensures id in Replay(d, Kept(log, 0, |log|, refuses), cl)
  {
    EntrySucceedsIff(d, log, refuses, i, cl, oks);
    var kept := Kept(log, 0, |log|, refuses);
    assert kept[j] in kept;
    PresentAfterReplay(d, kept, cl, id);
  }
}
