/** What a rollback gives back, field by field. */
module RestoredFields {
  import opened MergePatch
  import opened Stripping
  import opened FieldPaths
  import opened FieldContent
  import opened Captures
  import opened SnapshotCrypto
  import opened SnapshotRun

  /** The path is the status, one of the seven server-owned members of metadata, one of the two
      annotations of controllers, or inside one of them. */
  predicate NotSnapshotted(p: Path) {
    || (|p| >= 1 && p[0] == "status")
    || (|p| >= 2 && p[0] == "metadata" && OwnedByServer(p[1]))
    || (|p| >= 3 && p[0] == "metadata" && p[1] == "annotations" && OwnedByControllers(p[2]))
  }

  /** The path is on the way to such a field. */
  predicate OnTheWay(p: Path) {
    p == [] || p == ["metadata"] || p == ["metadata", "annotations"]
  }

  /** The two objects have the same, null members aside, at every path that is neither inside
      nor on the way to a field that is not part of a snapshot; and metadata, when it is no
      object, and annotations, when they are neither an object nor absent, are the same too. */
  ghost predicate SameFields(x: Json, y: Json) {
    && (forall p | !NotSnapshotted(p) && !OnTheWay(p) :: DropNulls(Value(x, p)) == DropNulls(Value(y, p)))
    && SameUnlessObject(At(x, "metadata"), At(y, "metadata"))
    && SameUnlessObject(At(At(x, "metadata"), "annotations"), At(At(y, "metadata"), "annotations"))
  }

  predicate SameUnlessObject(x: Json, y: Json) {
    x == y || ((x.Obj? || x.Null?) && (y.Obj? || y.Null?))
  }

  /** The same objects with the same fields. */
  ghost predicate SameObjects(a: Cluster, b: Cluster) {
    a.Keys == b.Keys && forall id | id in a :: SameFields(a[id], b[id])
  }

  // --------------------------------------------------------------- content and fields

  lemma AnnotationValue(ann: Json, p: Path)
    requires p != [] && !OwnedByControllers(p[0])
    ensures Value(CanonAnnotations(ann), p) == Value(ann, p)
  {
    NoiseIs();
  }

  lemma MetadataValue(md: Json, p: Path)
    requires p != [] && p != ["annotations"] && !NotSnapshotted(["metadata"] + p)
    ensures Value(CanonMetadata(md), p) == Value(md, p)
  {
    NoiseIs();
    if md.Obj? {
      CanonMetadataMember(md, p[0]);
      assert [p[0]] + p[1..] == p;
      if p[0] == "annotations" {
        assert p[1..] != [];
        AnnotationValue(At(md, ANNOTATIONS), p[1..]);
        if !Has(md, ANNOTATIONS) { assert Value(md, p) == Null; }
      }
    }
  }

  /** The content has every snapshotted field as the object has it. */
  lemma ContentValue(o: Json, p: Path)
    requires o.Obj? && !NotSnapshotted(p) && !OnTheWay(p)
    ensures Value(Canon(o), p) == DropNulls(Value(o, p))
  {
    var x := DropNulls(o);
    ValueOfDropNulls(o, p);
    CanonTopMember(x, p[0]);
    assert [p[0]] + p[1..] == p;
    if p[0] == "metadata" {
      assert p[1..] != [] && ["metadata"] + p[1..] == p;
      MetadataValue(At(x, METADATA), p[1..]);
      if !Has(x, METADATA) { assert Value(x, p) == Null; }
    }
  }

  lemma ContentOnTheWay(x: Json, y: Json)
    requires x.Obj? && y.Obj? && Canon(x) == Canon(y)
    ensures SameUnlessObject(At(x, "metadata"), At(y, "metadata"))
    ensures SameUnlessObject(At(At(x, "metadata"), "annotations"), At(At(y, "metadata"), "annotations"))
  {
    MetadataOnTheWay(x);
    MetadataOnTheWay(y);
  }

  /** Metadata and annotations in the content, when they are no objects. */
  lemma MetadataOnTheWay(x: Json)
    requires x.Obj?
    ensures var md, c := At(x, "metadata"), At(Canon(x), "metadata");
      && (if md.Obj? then c.Obj? else c == md)
      && (md.Obj? ==>
            var ann, kept := At(md, "annotations"), At(c, "annotations");
            if ann.Obj? || ann.Null? then kept.Obj? else kept == ann)
  {
    var d := DropNulls(x);
    CanonTopMember(d, METADATA);
    assert At(d, METADATA) == DropNulls(At(x, METADATA));
    var md := At(x, METADATA);
    if md.Obj? {
      CanonMetadataMember(DropNulls(md), ANNOTATIONS);
      assert At(DropNulls(md), ANNOTATIONS) == DropNulls(At(md, ANNOTATIONS));
    }
  }

  /** Equal snapshots are equal fields. */
  lemma SameSnapshotsSameObjects(a: Cluster, b: Cluster)
    requires IsCluster(a) && IsCluster(b) && SameSnapshots(a, b)
    ensures SameObjects(a, b)
  {
    SameContentSameSnapshots(a, b);
    forall id | id in a ensures SameFields(a[id], b[id]) {
      forall p | !NotSnapshotted(p) && !OnTheWay(p) ensures DropNulls(Value(a[id], p)) == DropNulls(Value(b[id], p)) {
        ContentValue(a[id], p);
        ContentValue(b[id], p);
      }
      ContentOnTheWay(a[id], b[id]);
    }
  }

  // ------------------------------------------------------------------------- theorems

  /** Rollback, field by field: when nobody else wrote, replaying the log of a careful run gives
      back the objects there were, and each of them every field it had, but for those that no
      snapshot has. */
  lemma RollbackRestoresEveryField(env: Env, cl: Cluster, evs: seq<Event>)
    requires IsCluster(cl) && CarefulRun(env, Start(cl), evs) && (Sound(env.v) || InMemory(evs))
    requires forall ev | ev in evs :: !ev.Outside?
    ensures var s := After(env, Start(cl), evs);
            && SameObjects(Replay(env.d, s.log, s.cluster), cl)
            && (Sound(env.v) ==> SameObjects(Replay(env.d, OpenAll(env.v, s.durable), s.cluster), cl))
  {
    RollbackRestoresInitialCluster(env, cl, evs);
    InvHolds(env, cl, evs);
    var s := After(env, Start(cl), evs);
    ReplayKeepsCluster(env.d, s.log, s.cluster);
    SameSnapshotsSameObjects(Replay(env.d, s.log, s.cluster), cl);
    if Sound(env.v) {
      ReplayKeepsCluster(env.d, OpenAll(env.v, s.durable), s.cluster);
      SameSnapshotsSameObjects(Replay(env.d, OpenAll(env.v, s.durable), s.cluster), cl);
    }
  }

  lemma {:induction false} ReplayKeepsCluster(d: Discovery, log: seq<Capture>, cl: Cluster)
    requires IsCluster(cl)
    ensures IsCluster(Replay(d, log, cl))
    decreases |log|
  {
    if log != [] {
      UndoKeepsCluster(d, log[|log| - 1], cl);
      ReplayKeepsCluster(d, log[..|log| - 1], Undo(d, log[|log| - 1], cl));
    }
  }

  lemma SnapshottedField(x: Json, y: Json, p: Path)
    requires SameFields(x, y) && !NotSnapshotted(p) && !OnTheWay(p)
    ensures DropNulls(Value(x, p)) == DropNulls(Value(y, p))
  {}

  /** In particular every member but status and metadata, the specification and the data among
      them, and everything in it. */
  lemma SameMember(x: Json, y: Json, member: string, rest: Path)
    requires SameFields(x, y) && member != "status" && member != "metadata"
    ensures DropNulls(Value(x, [member] + rest)) == DropNulls(Value(y, [member] + rest))
  {
    SnapshottedField(x, y, [member] + rest);
  }

  /** And the labels. */
  lemma SameLabels(x: Json, y: Json, rest: Path)
    requires SameFields(x, y)
    ensures DropNulls(Value(x, ["metadata", "labels"] + rest)) == DropNulls(Value(y, ["metadata", "labels"] + rest))
  {
    var p := ["metadata", "labels"] + rest;
    assert p[0] == "metadata" && p[1] == "labels";
    assert !OwnedByServer("labels") && "labels" != "annotations";
    SnapshottedField(x, y, p);
  }
}
