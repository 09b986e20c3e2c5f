/** Captures, the objects they name, and the one generic undo that replays them. */
module Captures {
  import opened Options
  import opened MergePatch
  import opened Stripping
  import opened FieldPaths
  import opened VisiblePaths
  import opened FieldContent

  // ------------------------------------------------------------ naming an object

  datatype Gvr = Gvr(group: string, version: string, resource: string)

  /** One object of the cluster: cluster-scoped objects have no namespace. */
  datatype ObjId = ObjId(gvr: Gvr, namespace: string, name: string)

  /** How a script, or a persisted capture, names an object. */
  datatype Ref = Ref(apiVersion: string, kind: string, namespace: string, name: string, resource: string)

  /** The static kind table, and the two library routines resolution calls: the parser of
      `group/version` (none for a malformed one) and lower-casing. */
  datatype Discovery = Discovery(
    kinds: map<string, Gvr>,
    parse: string -> Option<(string, string)>,
    lower: string -> string)

  function RawGvr(d: Discovery, ref: Ref): Option<Gvr> {
    if ref.kind in d.kinds && ref.resource == "" then Some(d.kinds[ref.kind])
    else
      match d.parse(ref.apiVersion)
      case None => None
      case Some((group, version)) =>
        Some(Gvr(group,
                 if version == "" then "v1" else version,
                 if ref.resource == "" then d.lower(ref.kind) + "s" else ref.resource))
  }

  function ResolveGvr(d: Discovery, ref: Ref): Option<Gvr> {
    if ref.kind in d.kinds && ref.apiVersion == "" && ref.resource == ""
    then Some(d.kinds[ref.kind])
    else RawGvr(d, ref)
  }

  predicate ClusterScopedKind(kind: string) {
    kind in ["Node", "Namespace", "PersistentVolume"]
  }

  /** The object a reference reaches, or none when its API version does not parse. */
  function Target(d: Discovery, ref: Ref): Option<ObjId> {
    match ResolveGvr(d, ref)
    case None => None
    case Some(gvr) =>
      var unscoped := ClusterScopedKind(ref.kind) || ref.namespace == "-" || ref.namespace == "";
      Some(ObjId(gvr, if unscoped then "" else ref.namespace, ref.name))
  }

  // ------------------------------------------------------------------- captures

  datatype FieldDelta = FieldDelta(path: Path, before: Json, existed: bool)

  datatype Scope = ObjectScope | FieldScope

  datatype Payload = Payload(before: Json, fields: seq<FieldDelta>)

  /** A stored ciphertext, as what is in it: a payload sealed under a key and a nonce, or a
      text that was never sealed. */
  datatype Cipher = Sealed(key: nat, nonce: nat, payload: Payload) | Garbled(text: string)

  /** One entry of the log.  `before` is null when the capture carries none, and `enc` is
      there when the payload is sealed. */
  datatype Capture = Capture(
    seqNo: nat, ref: Ref, existed: bool, scope: Scope,
    before: Json, fields: seq<FieldDelta>, enc: Option<Cipher>)

  type Cluster = map<ObjId, Json>

  predicate IsCluster(cl: Cluster) {
    forall id | id in cl :: cl[id].Obj?
  }

  function UndoOf(f: FieldDelta): Assign {
    Assign(f.path, if f.existed then f.before else Null)
  }

  function UndosOf(fs: seq<FieldDelta>): (r: seq<Assign>)
    ensures |r| == |fs| && forall i | 0 <= i < |fs| :: r[i] == UndoOf(fs[i])
  {
    seq(|fs|, i requires 0 <= i < |fs| => UndoOf(fs[i]))
  }

  /** The merge patch of a field capture. */
  function FieldsMergePatch(fs: seq<FieldDelta>): (r: Json)
    ensures r.Obj?
  {
    PatchOf(UndosOf(fs))
  }

  /** The paths of a field capture, as far as they are visible. */
  function FieldPathsOf(fs: seq<FieldDelta>): set<Path> {
    set f | f in fs :: VisiblePath(f.path)
  }

  lemma PathsOfUndos(fs: seq<FieldDelta>)
    ensures VisiblePathsOf(UndosOf(fs)) == FieldPathsOf(fs) == PathsOf(Visible(UndosOf(fs)))
  {
    PathsOfVisible(UndosOf(fs));
    forall f | f in fs ensures VisiblePath(f.path) in VisiblePathsOf(UndosOf(fs)) {
      var i :| 0 <= i < |fs| && fs[i] == f;
      assert UndosOf(fs)[i] in UndosOf(fs);
    }
    forall a | a in UndosOf(fs) ensures VisiblePath(a.path) in FieldPathsOf(fs) {
      var i :| 0 <= i < |fs| && UndosOf(fs)[i] == a;
      assert fs[i] in fs;
    }
  }

  /** A non-empty string, or absent. */
  function Text(x: Json): string {
    if x.Str? then x.s else ""
  }

  predicate HasGvk(o: Json) {
    Text(At(o, "kind")) != "" && Text(At(o, "apiVersion")) != ""
  }

  /** A captured object made re-creatable: kind and API version filled in if missing. */
  function EnsureGvk(d: Discovery, o: Json, ref: Ref): (r: Json)
    ensures r.Obj?
    ensures o.Obj? && HasGvk(o) ==> r == o
  {
    var m := Members(o);
    var m := if Text(At(o, "kind")) == "" then m["kind" := Str(ref.kind)] else m;
    Obj(if Text(At(o, "apiVersion")) != "" then m
        else if ref.kind in d.kinds then
          var gvr := d.kinds[ref.kind];
          m["apiVersion" := Str(if gvr.group == "" then gvr.version else gvr.group + "/" + gvr.version)]
        else if ref.apiVersion != "" then m["apiVersion" := Str(ref.apiVersion)]
        else m)
  }

  /** What is created again names its kind and version whenever the capture or the kind table
      does, is reached by the same kind, and has every other member of the capture. */
  lemma EnsuredGvk(d: Discovery, o: Json, ref: Ref)
    requires ref.kind != "" && (ref.kind in d.kinds ==> d.kinds[ref.kind].version != "")
    ensures var r := EnsureGvk(d, o, ref);
      && (HasGvk(r) <==> Text(At(o, "apiVersion")) != "" || ref.kind in d.kinds || ref.apiVersion != "")
      && (Text(At(o, "kind")) == "" ==> At(r, "kind") == Str(ref.kind))
      && (Text(At(o, "kind")) != "" ==> At(r, "kind") == At(o, "kind"))
      && forall k | k != "kind" && k != "apiVersion" :: Has(r, k) == Has(o, k) && At(r, k) == At(o, k)
  {
  }

  // --------------------------------------------------------------- undo and replay

  /** The cluster after one (decrypted) capture is undone: what the run created is deleted,
      captured fields are patched back, a captured object is patched back, or created again
      if it is gone.  An entry that cannot be undone is skipped. */
  function Undo(d: Discovery, c: Capture, cl: Cluster): Cluster {
    match Target(d, c.ref)
    case None => cl
    case Some(id) =>
      if !c.existed && c.scope.ObjectScope? then cl - {id}
      else if c.scope.FieldScope? then
        if id in cl then cl[id := Merge(cl[id], FieldsMergePatch(c.fields))] else cl
      else if id in cl then cl[id := Merge(cl[id], RestorePatch(c.before, Strip(cl[id])))]
      else cl[id := EnsureGvk(d, c.before, c.ref)]
  }

  /** The log replayed last entry first. */
  function Replay(d: Discovery, log: seq<Capture>, cl: Cluster): Cluster
  {
    if log == [] then cl
    else var n := |log| - 1; Replay(d, log[..n], Undo(d, log[n], cl))
  }

  /** The same objects, each with the same restorable content. */
  predicate SameContent(a: Cluster, b: Cluster) {
    a.Keys == b.Keys && forall id | id in a :: Canon(a[id]) == Canon(b[id])
  }

  // ------------------------------------------------------------- what a log covers

  predicate On(d: Discovery, c: Capture, id: ObjId) {
    Target(d, c.ref) == Some(id)
  }

  /** The log holds a whole-object capture of `id`. */
  predicate ObjectOn(d: Discovery, log: seq<Capture>, id: ObjId) {
    exists c | c in log :: c.scope.ObjectScope? && On(d, c, id)
  }

  /** The paths of `id` the log holds field captures of. */
  function PathsOn(d: Discovery, log: seq<Capture>, id: ObjId): set<Path> {
    set c, f | c in log && c.scope.FieldScope? && On(d, c, id) && f in c.fields :: VisiblePath(f.path)
  }

  /** At `id`, the two clusters differ at most in what the log covers. */
  predicate CoveredAt(d: Discovery, log: seq<Capture>, a: Cluster, b: Cluster, id: ObjId) {
    || ObjectOn(d, log, id)
    || (id !in a && id !in b)
    || (id in a && id in b && Agree(Canon(a[id]), Canon(b[id]), PathsOn(d, log, id)))
  }

  /** The two clusters differ at most in what the log covers. */
  ghost predicate Covered(d: Discovery, log: seq<Capture>, a: Cluster, b: Cluster) {
    forall id :: CoveredAt(d, log, a, b, id)
  }

  /** The capture is one that `captureObject` or `captureFields` records, unsealed. */
  predicate Recorded(d: Discovery, c: Capture) {
    && Target(d, c.ref).Some?
    && c.enc.None?
    && (c.scope.ObjectScope? && c.existed ==> c.before.Obj? && HasGvk(c.before))
    && (c.scope.FieldScope? ==> Leafy(PatchOf(Visible(UndosOf(c.fields))), FieldPathsOf(c.fields)))
  }

  predicate AllRecorded(d: Discovery, log: seq<Capture>) {
    forall c | c in log :: Recorded(d, c)
  }

  lemma CoverOfSnoc(d: Discovery, log: seq<Capture>, c: Capture, id: ObjId)
    ensures ObjectOn(d, log + [c], id) <==> ObjectOn(d, log, id) || (c.scope.ObjectScope? && On(d, c, id))
    ensures PathsOn(d, log + [c], id) ==
      if c.scope.FieldScope? && On(d, c, id) then PathsOn(d, log, id) + FieldPathsOf(c.fields)
      else PathsOn(d, log, id)
  {
    assert c in log + [c];
    assert forall e :: e in log + [c] <==> e in log || e == c;
  }

  lemma UndoCoversObject(d: Discovery, c: Capture, a: Cluster, b: Cluster, id: ObjId)
    requires Recorded(d, c) && c.scope.ObjectScope? && On(d, c, id)
    ensures id in Undo(d, c, a) <==> c.existed
    ensures id in Undo(d, c, b) <==> c.existed
    ensures c.existed ==> Canon(Undo(d, c, a)[id]) == Canon(Undo(d, c, b)[id])
  {
    if c.existed {
      if id in a { RestoreContent(a[id], c.before); }
      if id in b { RestoreContent(b[id], c.before); }
    }
  }

  lemma UndoElsewhere(d: Discovery, c: Capture, cl: Cluster, id: ObjId)
    requires !On(d, c, id)
    ensures id in Undo(d, c, cl) <==> id in cl
    ensures id in cl ==> Undo(d, c, cl)[id] == cl[id]
  {}

  lemma UndoField(d: Discovery, c: Capture, cl: Cluster, id: ObjId)
    requires c.scope.FieldScope? && On(d, c, id)
    ensures id in Undo(d, c, cl) <==> id in cl
    ensures id in cl ==> Undo(d, c, cl)[id] == Merge(cl[id], FieldsMergePatch(c.fields))
  {}

  lemma UndoCoversField(d: Discovery, c: Capture, a: Cluster, b: Cluster, id: ObjId, U: set<Path>)
    requires Recorded(d, c) && c.scope.FieldScope? && On(d, c, id) && id in a && id in b
    requires Agree(Canon(a[id]), Canon(b[id]), U + FieldPathsOf(c.fields))
    ensures id in Undo(d, c, a) && id in Undo(d, c, b)
    ensures Agree(Canon(Undo(d, c, a)[id]), Canon(Undo(d, c, b)[id]), U)
  {
    UndoField(d, c, a, id);
    UndoField(d, c, b, id);
    ContentOfVisible(a[id], UndosOf(c.fields));
    ContentOfVisible(b[id], UndosOf(c.fields));
    ContentAgreeMerge(a[id], b[id], PatchOf(Visible(UndosOf(c.fields))), U, FieldPathsOf(c.fields));
  }

  lemma UndoCoversAt(d: Discovery, log: seq<Capture>, c: Capture, a: Cluster, b: Cluster, id: ObjId)
    requires Recorded(d, c) && CoveredAt(d, log + [c], a, b, id)
    ensures CoveredAt(d, log, Undo(d, c, a), Undo(d, c, b), id)
  {
    CoverOfSnoc(d, log, c, id);
    if ObjectOn(d, log, id) {
    } else if !On(d, c, id) {
      UndoElsewhere(d, c, a, id);
      UndoElsewhere(d, c, b, id);
    } else if c.scope.ObjectScope? {
      UndoCoversObject(d, c, a, b, id);
    } else if id in a {
      UndoCoversField(d, c, a, b, id, PathsOn(d, log, id));
    } else {
      UndoField(d, c, a, id);
      UndoField(d, c, b, id);
    }
  }

  /** Undoing an entry equalises what it covers and keeps every other agreement. */
  lemma UndoCovers(d: Discovery, log: seq<Capture>, c: Capture, a: Cluster, b: Cluster)
    requires Recorded(d, c) && Covered(d, log + [c], a, b)
    ensures Covered(d, log, Undo(d, c, a), Undo(d, c, b))
  {
    forall id ensures CoveredAt(d, log, Undo(d, c, a), Undo(d, c, b), id) {
      UndoCoversAt(d, log, c, a, b, id);
    }
  }

  lemma UndoKeepsCluster(d: Discovery, c: Capture, cl: Cluster)
    requires IsCluster(cl)
    ensures IsCluster(Undo(d, c, cl))
  {}

  /** The replay does not depend on anything the log covers. */
  lemma {:induction false} ReplayCovers(d: Discovery, log: seq<Capture>, a: Cluster, b: Cluster)
    requires AllRecorded(d, log) && IsCluster(a) && IsCluster(b)
    requires Covered(d, log, a, b)
    ensures SameContent(Replay(d, log, a), Replay(d, log, b))
    decreases |log|
  {
    if log == [] {
      forall id
        ensures id in a <==> id in b
        ensures id in a ==> Canon(a[id]) == Canon(b[id])
      {
        assert CoveredAt(d, log, a, b, id) && PathsOn(d, log, id) == {};
        if id in a && id in b { AgreeEverywhere(Canon(a[id]), Canon(b[id])); }
      }
    } else {
      var n := |log| - 1;
      assert log[..n] + [log[n]] == log;
      UndoCovers(d, log[..n], log[n], a, b);
      UndoKeepsCluster(d, log[n], a);
      UndoKeepsCluster(d, log[n], b);
      ReplayCovers(d, log[..n], Undo(d, log[n], a), Undo(d, log[n], b));
    }
  }
}
