/** What a before-state is: the live object without the fields the API server and its
    controllers own, and the exactness of restoring it. */
module Stripping {
  import opened MergePatch

  const METADATA := "metadata"
  const ANNOTATIONS := "annotations"

  const METADATA_NOISE: seq<string> :=
    ["managedFields", "resourceVersion", "uid", "generation", "creationTimestamp", "selfLink", "ownerReferences"]
  const ANNOTATION_NOISE: seq<string> :=
    ["kubectl.kubernetes.io/last-applied-configuration", "deployment.kubernetes.io/revision"]

  // ------------------------------------------------ the snapshot of an object

  function Without(m: map<string, Json>, ks: seq<string>): map<string, Json> {
    map k | k in m && k !in ks :: m[k]
  }

  function EraseAnnotations(ann: Json): Json {
    if ann.Obj? then Obj(Without(ann.m, ANNOTATION_NOISE)) else ann
  }

  function EraseMetadata(md: Json): Json {
    if md.Obj? then
      var kept := Without(md.m, METADATA_NOISE);
      Obj(if ANNOTATIONS in kept then kept[ANNOTATIONS := EraseAnnotations(kept[ANNOTATIONS])] else kept)
    else md
  }

  /** The object without the server-owned fields. */
  function Erase(x: Json): Json {
    if x.Obj? then
      var kept := Without(x.m, ["status"]);
      Obj(if METADATA in kept then kept[METADATA := EraseMetadata(kept[METADATA])] else kept)
    else x
  }

  /** An annotations object left empty is removed. */
  function Prune(x: Json): Json {
    if At(At(x, METADATA), ANNOTATIONS) == EMPTY
    then Obj(x.m[METADATA := Obj(x.m[METADATA].m - {ANNOTATIONS})])
    else x
  }

  /** What `stripForSnapshot` returns. */
  function Strip(x: Json): Json {
    Prune(Erase(x))
  }

  // ------------------------------------------------------------ a normal form

  function CanonAnnotations(ann: Json): Json {
    if ann.Null? then EMPTY else EraseAnnotations(ann)
  }

  function CanonMetadata(md: Json): Json {
    if md.Obj?
    then Obj(Without(md.m, METADATA_NOISE)[ANNOTATIONS := CanonAnnotations(At(md, ANNOTATIONS))])
    else md
  }

  function CanonTop(x: Json): (r: Json)
    ensures r.Obj? <==> x.Obj?
  {
    if x.Obj? then
      var kept := Without(x.m, ["status"]);
      Obj(if METADATA in kept then kept[METADATA := CanonMetadata(kept[METADATA])] else kept)
    else x
  }

  /** The content of an object that a snapshot can restore, in a form that field patches
      respect: like `Strip`, but with empty annotations kept (and supplied) rather than
      pruned, and without null members. */
  function Canon(x: Json): Json {
    CanonTop(DropNulls(x))
  }

  lemma AnnotationsIdempotent(ann: Json)
    ensures CanonAnnotations(CanonAnnotations(ann)) == CanonAnnotations(ann)
  {
    if ann.Obj? { assert CanonAnnotations(CanonAnnotations(ann)).m == CanonAnnotations(ann).m; }
  }

  lemma AnnotationsMerge(ann: Json, p: Json)
    requires !p.Null?
    ensures CanonAnnotations(Merge(ann, p)) == CanonAnnotations(Merge(CanonAnnotations(ann), p))
  {
    if p.Obj? {
      MergeIntoNothing(Null, p);
      MergeIntoNothing(EMPTY, p);
      var l, r := CanonAnnotations(Merge(ann, p)), CanonAnnotations(Merge(CanonAnnotations(ann), p));
      forall k
        ensures Has(l, k) == Has(r, k) && At(l, k) == At(r, k)
      {
        MergeMember(ann, p, k);
        MergeMember(CanonAnnotations(ann), p, k);
      }
      SameMembers(l, r);
    }
  }

  lemma CanonMetadataMember(md: Json, k: string)
    requires md.Obj?
    ensures Has(CanonMetadata(md), k) <==> k == ANNOTATIONS || (k !in METADATA_NOISE && Has(md, k))
    ensures At(CanonMetadata(md), k) ==
      if k == ANNOTATIONS then CanonAnnotations(At(md, k)) else if k in METADATA_NOISE then Null else At(md, k)
  {}

  lemma MetadataIdempotent(md: Json)
    ensures CanonMetadata(CanonMetadata(md)) == CanonMetadata(md)
  {
    if md.Obj? {
      AnnotationsIdempotent(At(md, ANNOTATIONS));
      assert CanonMetadata(CanonMetadata(md)).m == CanonMetadata(md).m;
    }
  }

  lemma MetadataMerge(md: Json, p: Json)
    requires !p.Null?
    ensures CanonMetadata(Merge(md, p)) == CanonMetadata(Merge(CanonMetadata(md), p))
  {
    if p.Obj? && md.Obj? {
      var w, w' := Merge(md, p), Merge(CanonMetadata(md), p);
      forall k
        ensures Has(CanonMetadata(w), k) == Has(CanonMetadata(w'), k)
        ensures At(CanonMetadata(w), k) == At(CanonMetadata(w'), k)
      {
        MergeMember(md, p, k);
        MergeMember(CanonMetadata(md), p, k);
        CanonMetadataMember(md, k);
        CanonMetadataMember(w, k);
        CanonMetadataMember(w', k);
        AnnotationsIdempotent(At(md, k));
        if Has(p, k) && !p.m[k].Null? { AnnotationsMerge(At(md, k), p.m[k]); }
      }
      SameMembers(CanonMetadata(w), CanonMetadata(w'));
    }
  }

  /** Server-owned fields and empty annotations in the target make no difference to the
      content of a merge. */
  lemma TopMerge(o: Json, p: Json)
    ensures CanonTop(Merge(o, p)) == CanonTop(Merge(CanonTop(o), p))
  {
    if p.Obj? {
      var l, r := CanonTop(Merge(o, p)), CanonTop(Merge(CanonTop(o), p));
      forall k
        ensures Has(l, k) == Has(r, k) && At(l, k) == At(r, k)
      {
        MergeMember(o, p, k);
        MergeMember(CanonTop(o), p, k);
        MetadataIdempotent(At(o, k));
        if k == METADATA && Has(p, k) && !p.m[k].Null? { MetadataMerge(At(o, k), p.m[k]); }
      }
      SameMembers(l, r);
    }
  }

  /** The content of a merge depends only on the content of the target. */
  lemma CanonMerge(o: Json, p: Json)
    ensures Canon(Merge(o, p)) == Canon(Merge(Canon(o), p))
  {
    var d := DropNulls(o);
    DropNullsMerge(o, p);
    DropNullsIsNullFree(o);
    CanonTopKeepsNullFree(d);
    MergeKeepsNullFree(CanonTop(d), p);
    DropNullsKeepsNullFree(Merge(CanonTop(d), p));
    TopMerge(d, p);
  }

  lemma WithoutKeepsNullFree(x: Json, ks: seq<string>)
    requires x.Obj? && NullFree(x)
    ensures NullFree(Obj(Without(x.m, ks)))
  {}

  lemma CanonTopKeepsNullFree(x: Json)
    requires NullFree(x)
    ensures NullFree(CanonTop(x))
  {
    if x.Obj? {
      WithoutKeepsNullFree(x, ["status"]);
      var md := At(x, METADATA);
      if md.Obj? {
        WithoutKeepsNullFree(md, METADATA_NOISE);
        var ann := At(md, ANNOTATIONS);
        if ann.Obj? { WithoutKeepsNullFree(ann, ANNOTATION_NOISE); }
        assert NullFree(CanonAnnotations(ann));
        assert NullFree(CanonMetadata(md));
      }
    }
  }

  lemma CanonIsNullFree(x: Json)
    ensures NullFree(Canon(x))
  {
    DropNullsIsNullFree(x);
    CanonTopKeepsNullFree(DropNulls(x));
  }

  lemma CanonIdempotent(x: Json)
    ensures Canon(Canon(x)) == Canon(x)
  {
    CanonIsNullFree(x);
    DropNullsKeepsNullFree(Canon(x));
    if x.Obj? {
      DropNullsIsNullFree(x);
      MergeSelf(DropNulls(x));
      MergeSelf(Canon(x));
      TopMerge(DropNulls(x), EMPTY);
    }
  }

  // ------------------------------------------------- snapshots and their restore

  lemma EraseAnnotationsDropsNulls(ann: Json)
    ensures DropNulls(EraseAnnotations(ann)) == EraseAnnotations(DropNulls(ann))
  {
    if ann.Obj? { assert DropNulls(EraseAnnotations(ann)).m == EraseAnnotations(DropNulls(ann)).m; }
  }

  lemma StripMetadataContent(x: Json)
    ensures CanonMetadata(At(Strip(x), METADATA)) == CanonMetadata(At(x, METADATA))
  {
    var md, md' := At(x, METADATA), At(Strip(x), METADATA);
    if md.Obj? {
      var ann, ann' := At(md, ANNOTATIONS), At(md', ANNOTATIONS);
      assert ann' == EraseAnnotations(ann) || (ann'.Null? && EraseAnnotations(ann) == EMPTY);
      AnnotationsIdempotent(ann);
      forall k
        ensures Has(CanonMetadata(md'), k) == Has(CanonMetadata(md), k)
        ensures At(CanonMetadata(md'), k) == At(CanonMetadata(md), k)
      {
        CanonMetadataMember(md, k);
        CanonMetadataMember(md', k);
      }
      SameMembers(CanonMetadata(md'), CanonMetadata(md));
    }
  }

  lemma StripMetadataContentWithoutNulls(x: Json)
    ensures CanonMetadata(DropNulls(At(Strip(x), METADATA))) == CanonMetadata(DropNulls(At(x, METADATA)))
  {
    var md, md' := At(x, METADATA), At(Strip(x), METADATA);
    if md.Obj? {
      var ann, ann', d, d' := At(md, ANNOTATIONS), At(md', ANNOTATIONS), DropNulls(md), DropNulls(md');
      EraseAnnotationsDropsNulls(ann);
      assert ann' == EraseAnnotations(ann) || (ann'.Null? && EraseAnnotations(ann) == EMPTY);
      AnnotationsIdempotent(DropNulls(ann));
      assert DropNulls(EMPTY).m == map[];
      forall k
        ensures Has(CanonMetadata(d'), k) == Has(CanonMetadata(d), k)
        ensures At(CanonMetadata(d'), k) == At(CanonMetadata(d), k)
      {
        CanonMetadataMember(d, k);
        CanonMetadataMember(d', k);
        assert At(d, k) == DropNulls(At(md, k)) && At(d', k) == DropNulls(At(md', k));
      }
      SameMembers(CanonMetadata(d'), CanonMetadata(d));
    }
  }

  lemma CanonTopMember(x: Json, k: string)
    requires x.Obj?
    ensures Has(CanonTop(x), k) <==> k != "status" && Has(x, k)
    ensures At(CanonTop(x), k) ==
      if k == "status" then Null else if k == METADATA then CanonMetadata(At(x, k)) else At(x, k)
  {}

  lemma StripMember(x: Json, k: string)
    requires x.Obj?
    ensures Strip(x).Obj?
    ensures Has(Strip(x), k) <==> k != "status" && Has(x, k)
    ensures k != METADATA && k != "status" ==> At(Strip(x), k) == At(x, k)
  {}

  /** The members of metadata that the server owns. */
  predicate OwnedByServer(f: string) {
    f in {"managedFields", "resourceVersion", "uid", "generation", "creationTimestamp", "selfLink", "ownerReferences"}
  }

  /** The annotations that controllers own. */
  predicate OwnedByControllers(a: string) {
    a in {"kubectl.kubernetes.io/last-applied-configuration", "deployment.kubernetes.io/revision"}
  }

  /** A snapshot is the object without its status, seven metadata fields, two annotations, and
      annotations when none remain; every other member is as it was. */
  lemma StripDropsExactlyNoise(x: Json)
    requires x.Obj?
    ensures var s, md, smd := Strip(x), At(x, "metadata"), At(Strip(x), "metadata");
      && (forall k :: Has(s, k) <==> Has(x, k) && k != "status")
      && (forall k | k != "metadata" && Has(s, k) :: s.m[k] == x.m[k])
      && (!md.Obj? ==> smd == md)
      && (md.Obj? ==>
            && smd.Obj?
            && (forall k | k != "annotations" :: Has(smd, k) <==> Has(md, k) && !OwnedByServer(k))
            && (forall k | k != "annotations" && Has(smd, k) :: smd.m[k] == md.m[k])
            && StripsAnnotations(md, smd))
  {
    var md, smd := At(x, METADATA), At(Strip(x), METADATA);
    assert forall k :: Has(Strip(x), k) <==> Has(x, k) && k != "status";
    NoiseIs();
    if md.Obj? {
      assert smd.Obj?;
      if At(md, ANNOTATIONS).Obj? {
        var ann, kept := At(md, ANNOTATIONS), EraseAnnotations(At(md, ANNOTATIONS));
        assert forall k :: Has(kept, k) <==> Has(ann, k) && k !in ANNOTATION_NOISE;
        assert kept.m == map[] <==> forall k | Has(ann, k) :: k in ANNOTATION_NOISE;
      }
    }
  }

  lemma NoiseIs()
    ensures forall f :: f in METADATA_NOISE <==> OwnedByServer(f)
    ensures forall a :: a in ANNOTATION_NOISE <==> OwnedByControllers(a)
  {}

  ghost predicate StripsAnnotations(md: Json, smd: Json) {
    var ann, kept := At(md, "annotations"), At(smd, "annotations");
    if !ann.Obj? then Has(smd, "annotations") == Has(md, "annotations") && kept == ann
    else
      && (Has(smd, "annotations") <==> exists k :: Has(ann, k) && !OwnedByControllers(k))
      && (forall k :: Has(kept, k) <==> Has(ann, k) && !OwnedByControllers(k))
      && (forall k | Has(kept, k) :: kept.m[k] == ann.m[k])
  }

  /** Stripping loses no content. */
  lemma StripKeepsContent(x: Json)
    ensures CanonTop(Strip(x)) == CanonTop(x)
    ensures Canon(Strip(x)) == Canon(x)
  {
    if x.Obj? {
      var s, ds, dx := Strip(x), DropNulls(Strip(x)), DropNulls(x);
      StripMetadataContent(x);
      StripMetadataContentWithoutNulls(x);
      forall k
        ensures Has(CanonTop(s), k) == Has(CanonTop(x), k) && At(CanonTop(s), k) == At(CanonTop(x), k)
        ensures Has(CanonTop(ds), k) == Has(CanonTop(dx), k) && At(CanonTop(ds), k) == At(CanonTop(dx), k)
      {
        StripMember(x, k);
        CanonTopMember(x, k);
        CanonTopMember(s, k);
        CanonTopMember(dx, k);
        CanonTopMember(ds, k);
        assert At(ds, k) == DropNulls(At(s, k)) && At(dx, k) == DropNulls(At(x, k));
      }
      SameMembers(CanonTop(s), CanonTop(x));
      SameMembers(CanonTop(ds), CanonTop(dx));
    }
  }

  /** Whole-object restore gives the live object exactly the content of the captured one,
      whatever happened to it in between. */
  lemma RestoreContent(got: Json, before: Json)
    requires before.Obj?
    ensures Canon(Merge(got, RestorePatch(before, Strip(got)))) == Canon(before)
  {
    var p := RestorePatch(before, Strip(got));
    CanonMerge(got, p);
    StripKeepsContent(got);
    CanonMerge(Strip(got), p);
    RestorePatchRestores(before, Strip(got));
    DropNullsIsNullFree(before);
    DropNullsKeepsNullFree(DropNulls(before));
  }

  /** When metadata carries no null annotations, the snapshot is the content with empty
      annotations pruned. */
  lemma StripIsPrunedContent(x: Json)
    requires !(Has(At(x, METADATA), ANNOTATIONS) && At(At(x, METADATA), ANNOTATIONS).Null?)
    ensures Strip(x) == Prune(CanonTop(x))
  {
    if x.Obj? {
      var l, r := Strip(x), Prune(CanonTop(x));
      var ml, mr := At(l, METADATA), At(r, METADATA);
      if ml.Obj? { assert ml.m == mr.m; }
      assert l.m == r.m;
    }
  }

  lemma StripKeepsNullAnnotations(x: Json)
    requires At(x, METADATA).Obj?
    ensures At(Strip(x), METADATA).Obj?
    ensures Has(At(x, METADATA), ANNOTATIONS) && At(At(x, METADATA), ANNOTATIONS).Null?
      ==> Has(At(Strip(x), METADATA), ANNOTATIONS)
  {}

  lemma RestoredAnnotationsNotNull(got: Json, before: Json)
    requires before.Obj?
    ensures var md := At(Merge(got, RestorePatch(before, Strip(got))), METADATA);
            !(Has(md, ANNOTATIONS) && At(md, ANNOTATIONS).Null?)
  {
    var cur := Strip(got);
    var p := RestorePatch(before, cur);
    var md, pm := At(got, METADATA), At(p, METADATA);
    MergeMember(got, p, METADATA);
    RestorePatchMember(before, cur, METADATA);
    if got.Obj? { StripMember(got, METADATA); }
    if md.Obj? { StripKeepsNullAnnotations(got); }
    if pm.Obj? {
      MergeMember(md, pm, ANNOTATIONS);
      RestorePatchMember(At(before, METADATA), At(cur, METADATA), ANNOTATIONS);
    }
  }

  /** Exactness on the live object, for every pair of objects: after a whole-object restore
      the snapshot of the live object is the snapshot of the captured one. */
  lemma RestoreIsExact(got: Json, before: Json)
    requires before.Obj?
    ensures Strip(Merge(got, RestorePatch(before, Strip(got)))) == Strip(DropNulls(before))
  {
    var p := RestorePatch(before, Strip(got));
    TopMerge(got, p);
    StripKeepsContent(got);
    TopMerge(Strip(got), p);
    RestorePatchRestores(before, Strip(got));
    RestoredAnnotationsNotNull(got, before);
    StripIsPrunedContent(Merge(got, p));
    DropNullsIsNullFree(before);
    StripIsPrunedContent(DropNulls(before));
  }

  /** In particular a null-free capture comes back verbatim. */
  lemma RestoreIsVerbatim(got: Json, before: Json)
    requires before.Obj? && NullFree(before) && Strip(before) == before
    ensures Strip(Merge(got, RestorePatch(before, Strip(got)))) == before
  {
    RestoreIsExact(got, before);
    DropNullsKeepsNullFree(before);
  }

  /** Two objects have the same content exactly when their null-free snapshots are equal. */
  lemma SameContentSameSnapshot(x: Json, y: Json)
    ensures Canon(x) == Canon(y) <==> Strip(DropNulls(x)) == Strip(DropNulls(y))
  {
    DropNullsIsNullFree(x);
    DropNullsIsNullFree(y);
    StripIsPrunedContent(DropNulls(x));
    StripIsPrunedContent(DropNulls(y));
    StripKeepsContent(DropNulls(x));
    StripKeepsContent(DropNulls(y));
  }

  // -------------------------------------------------- stripForSnapshot in place

  /** Deletes each key in turn. */
  method DeleteKeys(m: map<string, Json>, ks: seq<string>) returns (r: map<string, Json>)
    ensures r == Without(m, ks)
  {
    r := m;
    for i := 0 to |ks|
      invariant r == Without(m, ks[..i])
    {
      r := r - {ks[i]};
    }
    assert ks[..|ks|] == ks;
  }

  method StripForSnapshot(u: Json) returns (obj: Json)
    ensures obj == Strip(u)
  {
    obj := u;
    if !obj.Obj? { return; }
    var top := DeleteKeys(obj.m, ["status"]);
    if METADATA in top && top[METADATA].Obj? {
      var md := DeleteKeys(top[METADATA].m, METADATA_NOISE);
      if ANNOTATIONS in md && md[ANNOTATIONS].Obj? {
        var ann := DeleteKeys(md[ANNOTATIONS].m, ANNOTATION_NOISE);
        md := md[ANNOTATIONS := Obj(ann)];
        if |ann| == 0 {
          md := md - {ANNOTATIONS};
        }
      }
      ghost var erased := EraseMetadata(top[METADATA]).m;
      assert md == if At(Obj(erased), ANNOTATIONS) == EMPTY then erased - {ANNOTATIONS} else erased;
      top := top[METADATA := Obj(md)];
    }
    assert top == Strip(u).m;
    obj := Obj(top);
  }
}
