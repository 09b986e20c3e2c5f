/** Field captures against the restorable content of live objects. */
module FieldContent {
  import opened Options
  import opened MergePatch
  import opened Stripping
  import opened FieldPaths
  import opened VisiblePaths

  // ------------------------------------------------- agreement is about content

  lemma AgreeAnnotations(x: Json, y: Json, U: set<Path>)
    requires Agree(x, y, U)
    ensures Agree(CanonAnnotations(x), CanonAnnotations(y), U)
  {}

  lemma AgreeMetadata(x: Json, y: Json, U: set<Path>)
    requires Agree(x, y, U)
    ensures Agree(CanonMetadata(x), CanonMetadata(y), U)
  {
    if [] !in U && x != y {
      var l, r := CanonMetadata(x), CanonMetadata(y);
      forall k | k in l.m.Keys + r.m.Keys
        ensures [] in Tails(U, k) || (k in l.m && k in r.m && Agree(l.m[k], r.m[k], Tails(U, k)))
      {
        CanonMetadataMember(x, k);
        CanonMetadataMember(y, k);
        if k == ANNOTATIONS && [] !in Tails(U, k) {
          if Has(x, k) || Has(y, k) { AgreeAnnotations(x.m[k], y.m[k], Tails(U, k)); }
        }
      }
    }
  }

  lemma AgreeTop(x: Json, y: Json, U: set<Path>)
    requires Agree(x, y, U)
    ensures Agree(CanonTop(x), CanonTop(y), U)
  {
    if [] !in U && x != y {
      var l, r := CanonTop(x), CanonTop(y);
      forall k | k in l.m.Keys + r.m.Keys
        ensures [] in Tails(U, k) || (k in l.m && k in r.m && Agree(l.m[k], r.m[k], Tails(U, k)))
      {
        CanonTopMember(x, k);
        CanonTopMember(y, k);
        if k == METADATA && [] !in Tails(U, k) { AgreeMetadata(x.m[k], y.m[k], Tails(U, k)); }
      }
    }
  }

  /** Merging the same patch into objects whose contents agree outside `U` and `P`, when the
      patch puts leaves on `P`, leaves contents that agree outside `U`. */
  lemma ContentAgreeMerge(x: Json, y: Json, d: Json, U: set<Path>, P: set<Path>)
    requires Agree(Canon(x), Canon(y), U + P) && Leafy(d, P)
    ensures Agree(Canon(Merge(x, d)), Canon(Merge(y, d)), U)
  {
    AgreeMerge(Canon(x), Canon(y), d, U, P);
    MergedContent(x, d);
    MergedContent(y, d);
    AgreeTop(Merge(Canon(x), d), Merge(Canon(y), d), U);
  }

  lemma MergedContent(x: Json, d: Json)
    ensures Canon(Merge(x, d)) == CanonTop(Merge(Canon(x), d))
    ensures NullFree(Merge(Canon(x), d))
  {
    CanonMerge(x, d);
    CanonIsNullFree(x);
    MergeKeepsNullFree(Canon(x), d);
    DropNullsKeepsNullFree(Merge(Canon(x), d));
  }

  lemma CanonTopOfCanon(x: Json)
    ensures CanonTop(Canon(x)) == Canon(x)
  {
    CanonIdempotent(x);
    CanonIsNullFree(x);
    DropNullsKeepsNullFree(Canon(x));
  }

  /** To the content, a patch is its visible part. */
  lemma ContentOfVisible(x: Json, sets: seq<Assign>)
    ensures Canon(Merge(x, PatchOf(sets))) == Canon(Merge(x, PatchOf(Visible(sets))))
  {
    MergedContent(x, PatchOf(sets));
    MergedContent(x, PatchOf(Visible(sets)));
    TopOfVisible(Canon(x), sets);
  }

  /** A patch changes the content only at or below its visible paths, when they are grounded. */
  lemma ContentPatchAgrees(o: Json, sets: seq<Assign>, U: set<Path>)
    requires o.Obj? && VisiblePathsOf(sets) <= U
    requires forall p | p in VisiblePathsOf(sets) :: Grounded(Canon(o), p, U)
    ensures Agree(Canon(o), Canon(Merge(o, PatchOf(sets))), U)
  {
    var d := PatchOf(Visible(sets));
    PathsOfVisible(sets);
    PatchFits(Visible(sets), Canon(o), U);
    FitsAgrees(d, Canon(o), U);
    AgreeTop(Canon(o), Merge(Canon(o), d), U);
    CanonTopOfCanon(o);
    MergedContent(o, d);
    ContentOfVisible(o, sets);
  }

  // ------------------------------------------------ what a field capture records

  /** The fields a capture of `o` can restore: each, as far as it is visible, with an object for
      a parent and a leaf or nothing for a value in the content of `o`. */
  predicate Restorable(o: Json, P: set<Path>) {
    Surgical(Canon(o), P)
  }

  lemma {:induction false} ValueOfDropNulls(o: Json, p: Path)
    ensures Value(DropNulls(o), p) == DropNulls(Value(o, p))
    decreases |p|
  {
    if p != [] && Has(o, p[0]) {
      var c := o.m[p[0]];
      ValueOfDropNulls(c, p[1..]);
      assert Value(o, p) == Value(c, p[1..]);
      if c.Null? {
        assert Get(DropNulls(o), p) == None;
        assert Value(c, p[1..]).Null?;
      } else {
        assert DropNulls(o).m[p[0]] == DropNulls(c);
      }
    }
  }

  lemma ValueOfAnnotations(ann: Json, p: Path)
    requires p != [] ==> p[0] !in ANNOTATION_NOISE
    requires !Value(CanonAnnotations(ann), p).Obj?
    ensures Value(ann, p) == Value(CanonAnnotations(ann), p)
  {}

  lemma ValueOfMetadata(md: Json, p: Path)
    requires !ServerOwned([METADATA] + p)
    requires !Value(CanonMetadata(md), p).Obj?
    ensures Value(md, p) == Value(CanonMetadata(md), p)
  {
    if md.Obj? && p != [] {
      CanonMetadataMember(md, p[0]);
      if p[0] == ANNOTATIONS {
        var ann := At(md, ANNOTATIONS);
        assert Value(CanonMetadata(md), p) == Value(CanonAnnotations(ann), p[1..]);
        ValueOfAnnotations(ann, p[1..]);
        if !Has(md, ANNOTATIONS) { assert Value(md, p).Null?; }
      }
    }
  }

  /** The live value at a restorable path is the value in the content. */
  lemma ValueOfContent(o: Json, p: Path)
    requires o.Obj? && p != [] && !ServerOwned(p) && !Value(Canon(o), p).Obj?
    ensures Value(o, p) == Value(Canon(o), p)
  {
    var d := DropNulls(o);
    ValueOfDropNulls(o, p);
    CanonTopMember(d, p[0]);
    if p[0] == METADATA {
      assert [METADATA] + p[1..] == p;
      ValueOfMetadata(At(d, METADATA), p[1..]);
    }
  }

  lemma GroundedAnnotations(ann: Json, p: Path, U: set<Path>)
    requires Grounded(ann, p, U) && p in U && (p != [] && p[0] in ANNOTATION_NOISE ==> |p| == 1)
    ensures Grounded(CanonAnnotations(ann), p, U)
  {
    if p != [] {
      assert [p[0]] + p[1..] == p;
      InTails(U, p[0], p[1..]);
      assert |p| == 1 ==> p[1..] == [];
    }
  }

  lemma VisibleMetadata(p: Path)
    requires p != [] && VisiblePath([METADATA] + p) == [METADATA] + p
    ensures p[0] in METADATA_NOISE ==> p[1..] == []
    ensures p[0] == ANNOTATIONS && |p| > 1 && p[1] in ANNOTATION_NOISE ==> |p[1..]| == 1
  {
    var v := [METADATA] + p;
    assert v[..2] == [METADATA, p[0]];
    assert |p| > 1 && p[0] == ANNOTATIONS ==> v[..3] == [METADATA, ANNOTATIONS, p[1]];
  }

  lemma GroundedMetadata(md: Json, p: Path, U: set<Path>)
    requires Grounded(md, p, U) && p in U && VisiblePath([METADATA] + p) == [METADATA] + p
    ensures Grounded(CanonMetadata(md), p, U)
  {
    if [] !in U {
      assert [p[0]] + p[1..] == p;
      InTails(U, p[0], p[1..]);
      VisibleMetadata(p);
      CanonMetadataMember(md, p[0]);
      if p[0] == ANNOTATIONS && [] !in Tails(U, p[0]) { GroundedAnnotations(md.m[p[0]], p[1..], Tails(U, p[0])); }
    }
  }

  lemma GroundedTop(x: Json, p: Path, U: set<Path>)
    requires Grounded(x, p, U) && p in U && VisiblePath(p) == p
    ensures Grounded(CanonTop(x), p, U)
  {
    if [] !in U {
      assert [p[0]] + p[1..] == p && p[..1] == [p[0]];
      InTails(U, p[0], p[1..]);
      assert |p| == 1 ==> p[1..] == [];
      CanonTopMember(x, p[0]);
      if p[0] == METADATA && [] !in Tails(U, p[0]) { GroundedMetadata(x.m[p[0]], p[1..], Tails(U, p[0])); }
    }
  }

  /** Edits on unrelated paths take no captured path off its ground. */
  lemma ContentAvoidingKeepsGround(o: Json, x: Json, p: Path, U: set<Path>)
    requires Avoids(x, U) && p in U && VisiblePath(p) == p && Grounded(Canon(o), p, U)
    ensures Grounded(Canon(Merge(o, x)), p, U)
  {
    AvoidingKeepsGround(Canon(o), x, p, U);
    GroundedTop(Merge(Canon(o), x), p, U);
    MergedContent(o, x);
  }

  // ------------------------------------------ values of captured paths in the content

  lemma AnnotationsKeepValue(ann: Json, p: Path)
    requires if p == [] then !ann.Null? && !ann.Obj? else p[0] !in ANNOTATION_NOISE
    ensures Value(CanonAnnotations(ann), p) == Value(ann, p)
  {}

  lemma MetadataKeepsValue(md: Json, p: Path)
    requires !ServerOwned([METADATA] + p) && !Value(md, p).Obj?
    requires p == [ANNOTATIONS] ==> !Value(md, p).Null?
    ensures Value(CanonMetadata(md), p) == Value(md, p)
  {
    if md.Obj? && p != [] {
      CanonMetadataMember(md, p[0]);
      if p[0] == ANNOTATIONS {
        var ann := At(md, ANNOTATIONS);
        assert [ANNOTATIONS] + p[1..] == p;
        assert Value(md, p) == Value(ann, p[1..]);
        AnnotationsKeepValue(ann, p[1..]);
      }
    }
  }

  lemma TopKeepsValue(x: Json, p: Path)
    requires p != [] && !ServerOwned(p) && !Value(x, p).Obj?
    requires p == [METADATA, ANNOTATIONS] ==> !Value(x, p).Null?
    ensures Value(CanonTop(x), p) == Value(x, p)
  {
    if x.Obj? {
      CanonTopMember(x, p[0]);
      assert [p[0]] + p[1..] == p;
      if p[0] == METADATA {
        assert Value(x, p) == Value(At(x, METADATA), p[1..]);
        MetadataKeepsValue(At(x, METADATA), p[1..]);
      }
    }
  }

  /** The content always has annotations where it has metadata. */
  lemma AnnotationsSupplied(x: Json)
    requires HasParent(Canon(x), [METADATA, ANNOTATIONS])
    ensures !Value(Canon(x), [METADATA, ANNOTATIONS]).Null?
  {
    var p, md := [METADATA, ANNOTATIONS], At(DropNulls(x), METADATA);
    assert p[1..] == [ANNOTATIONS] && [ANNOTATIONS][1..] == [];
    CanonTopMember(DropNulls(x), METADATA);
    assert Canon(x).m[METADATA] == CanonMetadata(md);
    CanonMetadataMember(md, ANNOTATIONS);
    assert Get(Canon(x), p) == Get(CanonMetadata(md), [ANNOTATIONS]) == Some(CanonMetadata(md).m[ANNOTATIONS]);
    CanonIsNullFree(x);
    NullFreeAt(Canon(x), p);
  }

  /** Edits on unrelated paths leave the leaf at a captured path alone, and its parent there. */
  lemma ContentAvoidingKeepsValue(o: Json, x: Json, p: Path, U: set<Path>)
    requires Avoids(x, U) && p in U && p != [] && VisiblePath(p) == p
    requires HasParent(Canon(o), p) && !Value(Canon(o), p).Obj?
    ensures HasParent(Canon(Merge(o, x)), p)
    ensures Value(Canon(Merge(o, x)), p) == Value(Canon(o), p)
  {
    ParentIsGround(Canon(o), p);
    ParentIsGround(Canon(Merge(o, x)), p);
    AvoidsMono(x, U, {p});
    ContentAvoidingKeepsGround(o, x, p, {p});
    MergedContent(o, x);
    if ServerOwned(p) {
      OwnedIsErased(DropNulls(o), p);
      OwnedIsErased(Merge(Canon(o), x), p);
    } else {
      AvoidingKeepsValue(Canon(o), x, p, U);
      if p == [METADATA, ANNOTATIONS] { AnnotationsSupplied(o); }
      TopKeepsValue(Merge(Canon(o), x), p);
    }
  }
}
