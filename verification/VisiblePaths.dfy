/** Which part of a path a snapshot can see: server-owned fields are not part of the content of
    an object, so a patch below one is, to the content, as good as a patch that removes it. */
module VisiblePaths {
  import opened MergePatch
  import opened Stripping
  import opened FieldPaths

  /** The path is a server-owned field. */
  predicate OwnedField(p: Path) {
    || p == ["status"]
    || (|p| == 2 && p[0] == METADATA && p[1] in METADATA_NOISE)
    || (|p| == 3 && p[0] == METADATA && p[1] == ANNOTATIONS && p[2] in ANNOTATION_NOISE)
  }

  const OWNED: set<Path> :=
    {["status"]} + (set n | n in METADATA_NOISE :: [METADATA, n]) +
    (set a | a in ANNOTATION_NOISE :: [METADATA, ANNOTATIONS, a])

  lemma OwnedIff(p: Path)
    ensures p in OWNED <==> OwnedField(p)
  {
    if |p| == 2 { assert p == [p[0], p[1]]; }
    if |p| == 3 { assert p == [p[0], p[1], p[2]]; }
  }

  /** The server-owned field a path is in, or the path itself. */
  function VisiblePath(p: Path): (v: Path)
    ensures v <= p && (p != [] ==> v != [])
  {
    if |p| >= 1 && OwnedField(p[..1]) then p[..1]
    else if |p| >= 2 && OwnedField(p[..2]) then p[..2]
    else if |p| >= 3 && OwnedField(p[..3]) then p[..3]
    else p
  }

  /** The path is a server-owned field, or inside one. */
  predicate ServerOwned(p: Path) {
    OwnedField(VisiblePath(p))
  }

  lemma VisiblePathIdempotent(p: Path)
    ensures VisiblePath(VisiblePath(p)) == VisiblePath(p)
  {
    var v := VisiblePath(p);
    assert |p| >= 1 ==> p[..1][..1] == p[..1];
    assert |p| >= 2 ==> p[..2][..1] == p[..1] && p[..2][..2] == p[..2];
    assert |p| >= 3 ==> p[..3][..1] == p[..1] && p[..3][..2] == p[..2] && p[..3][..3] == p[..3];
  }

  lemma VisibleIfNotOwned(p: Path)
    ensures !ServerOwned(p) ==> VisiblePath(p) == p
  {}

  /** What an assignment does to the content. */
  function VisibleAssign(a: Assign): Assign {
    if ServerOwned(a.path) then Assign(VisiblePath(a.path), Null) else a
  }

  function Visible(sets: seq<Assign>): (r: seq<Assign>)
    ensures |r| == |sets| && forall i | 0 <= i < |sets| :: r[i] == VisibleAssign(sets[i])
  {
    seq(|sets|, i requires 0 <= i < |sets| => VisibleAssign(sets[i]))
  }

  /** The visible part of the paths assigned to. */
  function VisiblePathsOf(sets: seq<Assign>): set<Path> {
    set a | a in sets :: VisiblePath(a.path)
  }

  lemma VisibleAssignPath(a: Assign)
    ensures VisibleAssign(a).path == VisiblePath(a.path)
  {}

  lemma PathsOfVisible(sets: seq<Assign>)
    ensures PathsOf(Visible(sets)) == VisiblePathsOf(sets)
  {
    var v := Visible(sets);
    forall a | a in sets ensures VisiblePath(a.path) in PathsOf(v) {
      var i :| 0 <= i < |sets| && sets[i] == a;
      VisibleAssignPath(sets[i]);
      assert v[i] in v;
    }
    forall a | a in v ensures a.path in VisiblePathsOf(sets) {
      var i :| 0 <= i < |sets| && v[i] == a;
      VisibleAssignPath(sets[i]);
      assert sets[i] in sets;
    }
  }

  // ---------------------------------------------------------- patches that agree

  /** Patches that agree outside `H` make objects that do. */
  lemma {:induction false} AgreePatch(z: Json, d: Json, d': Json, H: set<Path>)
    requires Agree(d, d', H)
    ensures Agree(Merge(z, d), Merge(z, d'), H)
    decreases d
  {
    if [] !in H && d != d' {
      var l, r := Merge(z, d), Merge(z, d');
      forall k | k in l.m.Keys + r.m.Keys
        ensures [] in Tails(H, k) || (k in l.m && k in r.m && Agree(l.m[k], r.m[k], Tails(H, k)))
      {
        MergeMember(z, d, k);
        MergeMember(z, d', k);
        if [] !in Tails(H, k) && Has(d, k) { AgreePatch(At(z, k), d.m[k], d'.m[k], Tails(H, k)); }
      }
    }
  }

  lemma {:induction false} SetNestedAgree(d: Json, d': Json, p: Path, v: Json, H: set<Path>)
    requires d.Obj? && d'.Obj? && Agree(d, d', H)
    ensures Agree(SetNested(d, p, v), SetNested(d', p, v), H)
    decreases |p|
  {
    if [] !in H && p != [] {
      var k := p[0];
      var l, r := SetNested(d, p, v), SetNested(d', p, v);
      if |p| > 1 && [] !in Tails(H, k) {
        SetNestedAgree(if At(d, k).Obj? then At(d, k) else EMPTY, if At(d', k).Obj? then At(d', k) else EMPTY,
                       p[1..], v, Tails(H, k));
      }
      forall j | j in l.m.Keys + r.m.Keys
        ensures [] in Tails(H, j) || (j in l.m && j in r.m && Agree(l.m[j], r.m[j], Tails(H, j)))
      {
        assert j != k ==> (j in l.m <==> j in d.m) && (j in r.m <==> j in d'.m);
      }
    }
  }

  /** Setting a path in `H`, or one below it, is the same outside `H`. */
  lemma {:induction false} SetNestedUnder(d: Json, d': Json, p: Path, v: Json, h: Path, v': Json, H: set<Path>)
    requires d.Obj? && d'.Obj? && Agree(d, d', H) && h != [] && h <= p && h in H
    ensures Agree(SetNested(d, p, v), SetNested(d', h, v'), H)
    decreases |h|
  {
    if [] !in H {
      var k := p[0];
      assert [k] + h[1..] == h;
      InTails(H, k, h[1..]);
      var l, r := SetNested(d, p, v), SetNested(d', h, v');
      if |h| > 1 && [] !in Tails(H, k) {
        SetNestedUnder(if At(d, k).Obj? then At(d, k) else EMPTY, if At(d', k).Obj? then At(d', k) else EMPTY,
                       p[1..], v, h[1..], v', Tails(H, k));
      } else if |h| == 1 {
        assert h[1..] == [];
      }
      forall j | j in l.m.Keys + r.m.Keys
        ensures [] in Tails(H, j) || (j in l.m && j in r.m && Agree(l.m[j], r.m[j], Tails(H, j)))
      {
        assert j != k ==> (j in l.m <==> j in d.m) && (j in r.m <==> j in d'.m);
      }
    }
  }

  lemma {:induction false} VisiblePatch(sets: seq<Assign>)
    ensures Agree(PatchOf(sets), PatchOf(Visible(sets)), OWNED)
    decreases |sets|
  {
    if sets != [] {
      var n := |sets| - 1;
      var a := sets[n];
      VisiblePatch(sets[..n]);
      assert Visible(sets)[..n] == Visible(sets[..n]);
      var d, d' := PatchOf(sets[..n]), PatchOf(Visible(sets[..n]));
      if ServerOwned(a.path) {
        OwnedIff(VisiblePath(a.path));
        SetNestedUnder(d, d', a.path, a.value, VisiblePath(a.path), Null, OWNED);
      } else {
        SetNestedAgree(d, d', a.path, a.value, OWNED);
      }
    }
  }

  // ---------------------------------------------------------------- content

  /** What of the owned fields lies below a member. */
  lemma OwnedBelow(k: string, t: Path)
    ensures t in Tails(OWNED, k) <==> OwnedField([k] + t)
  {
    InTails(OWNED, k, t);
    OwnedIff([k] + t);
  }

  lemma OwnedBelowMetadata(f: string, t: Path)
    ensures t in Tails(Tails(OWNED, METADATA), f) <==> OwnedField([METADATA, f] + t)
  {
    InTails(Tails(OWNED, METADATA), f, t);
    OwnedBelow(METADATA, [f] + t);
    assert [METADATA] + ([f] + t) == [METADATA, f] + t;
  }

  lemma OwnedBelowAnnotations(a: string, t: Path)
    ensures t in Tails(Tails(Tails(OWNED, METADATA), ANNOTATIONS), a) <==> t == [] && a in ANNOTATION_NOISE
  {
    InTails(Tails(Tails(OWNED, METADATA), ANNOTATIONS), a, t);
    OwnedBelowMetadata(ANNOTATIONS, [a] + t);
    assert [METADATA, ANNOTATIONS] + ([a] + t) == [METADATA, ANNOTATIONS, a] + t;
  }

  lemma NothingBelow(T: set<Path>)
    requires forall t :: t !in T
    ensures T == {}
  {}

  lemma SameAnnotations(x: Json, y: Json)
    requires Agree(x, y, Tails(Tails(OWNED, METADATA), ANNOTATIONS))
    ensures CanonAnnotations(x) == CanonAnnotations(y)
  {
    OwnedBelowMetadata(ANNOTATIONS, []);
    if x != y {
      forall k | k !in ANNOTATION_NOISE ensures Has(x, k) == Has(y, k) && At(x, k) == At(y, k) {
        forall t ensures t !in Tails(Tails(Tails(OWNED, METADATA), ANNOTATIONS), k) { OwnedBelowAnnotations(k, t); }
        NothingBelow(Tails(Tails(Tails(OWNED, METADATA), ANNOTATIONS), k));
        if Has(x, k) || Has(y, k) { AgreeEverywhere(x.m[k], y.m[k]); }
      }
      SameMembers(CanonAnnotations(x), CanonAnnotations(y));
    }
  }

  lemma NothingBelowMetadata(f: string)
    requires f !in METADATA_NOISE && f != ANNOTATIONS
    ensures Tails(Tails(OWNED, METADATA), f) == {}
  {
    forall t ensures t !in Tails(Tails(OWNED, METADATA), f) { OwnedBelowMetadata(f, t); }
    NothingBelow(Tails(Tails(OWNED, METADATA), f));
  }

  lemma SameMetadata(x: Json, y: Json)
    requires Agree(x, y, Tails(OWNED, METADATA))
    ensures CanonMetadata(x) == CanonMetadata(y)
  {
    OwnedBelow(METADATA, []);
    if x != y {
      var l, r := CanonMetadata(x), CanonMetadata(y);
      forall k ensures Has(l, k) == Has(r, k) && At(l, k) == At(r, k) {
        CanonMetadataMember(x, k);
        CanonMetadataMember(y, k);
        if k !in METADATA_NOISE { SameMetadataMember(x, y, k); }
      }
      SameMembers(l, r);
    }
  }

  lemma SameMetadataMember(x: Json, y: Json, k: string)
    requires x.Obj? && y.Obj? && x != y && Agree(x, y, Tails(OWNED, METADATA)) && k !in METADATA_NOISE
    ensures Has(x, k) == Has(y, k)
    ensures if k == ANNOTATIONS then CanonAnnotations(At(x, k)) == CanonAnnotations(At(y, k)) else At(x, k) == At(y, k)
  {
    OwnedBelow(METADATA, []);
    OwnedBelowMetadata(k, []);
    if Has(x, k) || Has(y, k) {
      if k == ANNOTATIONS {
        SameAnnotations(x.m[k], y.m[k]);
      } else {
        NothingBelowMetadata(k);
        AgreeEverywhere(x.m[k], y.m[k]);
      }
    }
  }

  /** Objects that agree outside the server-owned fields have the same content. */
  lemma SameTop(x: Json, y: Json)
    requires x.Obj? && y.Obj? && Agree(x, y, OWNED)
    ensures CanonTop(x) == CanonTop(y)
  {
    OwnedIff([]);
    if x != y {
      var l, r := CanonTop(x), CanonTop(y);
      forall k ensures Has(l, k) == Has(r, k) && At(l, k) == At(r, k) {
        CanonTopMember(x, k);
        CanonTopMember(y, k);
        if k != "status" { SameTopMember(x, y, k); }
      }
      SameMembers(l, r);
    }
  }

  lemma SameTopMember(x: Json, y: Json, k: string)
    requires x.Obj? && y.Obj? && x != y && Agree(x, y, OWNED) && k != "status"
    ensures Has(x, k) == Has(y, k)
    ensures if k == METADATA then CanonMetadata(At(x, k)) == CanonMetadata(At(y, k)) else At(x, k) == At(y, k)
  {
    OwnedIff([]);
    OwnedBelow(k, []);
    if Has(x, k) || Has(y, k) {
      if k == METADATA {
        SameMetadata(x.m[k], y.m[k]);
      } else {
        forall t ensures t !in Tails(OWNED, k) { OwnedBelow(k, t); }
        NothingBelow(Tails(OWNED, k));
        AgreeEverywhere(x.m[k], y.m[k]);
      }
    }
  }

  /** To the content, a patch is its visible part. */
  lemma TopOfVisible(z: Json, sets: seq<Assign>)
    ensures CanonTop(Merge(z, PatchOf(sets))) == CanonTop(Merge(z, PatchOf(Visible(sets))))
  {
    VisiblePatch(sets);
    AgreePatch(z, PatchOf(sets), PatchOf(Visible(sets)), OWNED);
    SameTop(Merge(z, PatchOf(sets)), Merge(z, PatchOf(Visible(sets))));
  }

  /** Server-owned fields are not in the content. */
  lemma OwnedIsErased(x: Json, p: Path)
    requires OwnedField(p)
    ensures Value(CanonTop(x), p) == Null
  {
    if x.Obj? {
      CanonTopMember(x, p[0]);
      if |p| > 1 {
        var md := At(x, METADATA);
        assert Value(CanonTop(x), p) == Value(CanonMetadata(md), p[1..]);
        if md.Obj? {
          CanonMetadataMember(md, p[1]);
          assert p[1..][0] == p[1] && |p| == 3 ==> p[1..][1..] == [p[2]];
          if |p| == 3 {
            assert Value(CanonMetadata(md), p[1..]) == Value(CanonAnnotations(At(md, ANNOTATIONS)), [p[2]]);
          }
        }
      }
    }
  }
}
