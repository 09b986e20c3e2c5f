/** What is left of an object when some of its fields are cleared: the part that undoing those
    fields neither reads nor writes. */
module ClearedPaths {
  import opened Options
  import opened MergePatch
  import opened Stripping
  import opened FieldPaths
  import opened VisiblePaths
  import opened FieldContent

  // --------------------------------------------------------------------- clearing

  /** The length of the longest path. */
  ghost function Depth(U: set<Path>): (n: nat)
    ensures forall u | u in U :: |u| <= n
    ensures U != {} ==> exists u | u in U :: |u| == n
    decreases |U|
  {
    if U == {} then 0
    else
      var u :| u in U;
      var rest := Depth(U - {u});
      assert forall v | v in U :: v == u || v in U - {u};
      if |u| >= rest then |u| else rest
  }

  lemma DepthTails(U: set<Path>, k: string)
    requires U != {} && [] !in U
    ensures Depth(Tails(U, k)) < Depth(U)
  {
    if Tails(U, k) == {} {
      var u :| u in U;
      assert |u| <= Depth(U);
    } else {
      var t :| t in Tails(U, k) && |t| == Depth(Tails(U, k));
      InTails(U, k, t);
      assert |[k] + t| <= Depth(U);
    }
  }

  function Heads(U: set<Path>): set<string> {
    set u | u in U && u != [] :: u[0]
  }

  lemma HeadsAreTails(U: set<Path>, k: string)
    ensures k in Heads(U) <==> Tails(U, k) != {}
  {
    if k in Heads(U) {
      var u :| u in U && u != [] && u[0] == k;
      assert u[1..] in Tails(U, k);
    }
    if Tails(U, k) != {} {
      var t :| t in Tails(U, k);
      InTails(U, k, t);
    }
  }

  /** The object with objects on the way to the paths `U` and nothing at their ends. */
  ghost function Clear(x: Json, U: set<Path>): Json
    decreases Depth(U)
  {
    if U == {} then x
    else if [] in U then EMPTY
    else
      Obj(map k | k in Members(x).Keys + Heads(U) && [] !in Tails(U, k)
            :: DepthTails(U, k); Clear(At(x, k), Tails(U, k)))
  }

  lemma ClearMember(x: Json, U: set<Path>, k: string)
    requires U != {} && [] !in U
    ensures Has(Clear(x, U), k) <==> [] !in Tails(U, k) && (Has(x, k) || Tails(U, k) != {})
    ensures At(Clear(x, U), k) == if [] in Tails(U, k) then Null else Clear(At(x, k), Tails(U, k))
  {
    HeadsAreTails(U, k);
  }

  lemma {:induction false} ClearIdempotent(x: Json, U: set<Path>)
    ensures Clear(Clear(x, U), U) == Clear(x, U)
    decreases Depth(U)
  {
    if U != {} && [] !in U {
      var c := Clear(x, U);
      forall k ensures Has(Clear(c, U), k) == Has(c, k) && At(Clear(c, U), k) == At(c, k) {
        ClearMember(x, U, k);
        ClearMember(c, U, k);
        DepthTails(U, k);
        if [] !in Tails(U, k) { ClearIdempotent(At(x, k), Tails(U, k)); }
      }
      SameMembers(Clear(c, U), c);
    }
  }

  /** Objects that agree outside `U` are the same when `U` is cleared. */
  lemma {:induction false} AgreeClear(x: Json, y: Json, U: set<Path>)
    requires Agree(x, y, U)
    ensures Clear(x, U) == Clear(y, U)
    decreases Depth(U)
  {
    if [] !in U && x != y {
      if U == {} {
        AgreeEverywhere(x, y);
      } else {
        forall k ensures Has(Clear(x, U), k) == Has(Clear(y, U), k) && At(Clear(x, U), k) == At(Clear(y, U), k) {
          ClearMember(x, U, k);
          ClearMember(y, U, k);
          DepthTails(U, k);
          if [] !in Tails(U, k) && (Has(x, k) || Has(y, k)) { AgreeClear(x.m[k], y.m[k], Tails(U, k)); }
        }
        SameMembers(Clear(x, U), Clear(y, U));
      }
    }
  }

  /** A patch confined to `U` changes nothing else, whatever it is merged into. */
  lemma {:induction false} ClearConfined(x: Json, d: Json, P: set<Path>, U: set<Path>)
    requires Confined(d, P) && P <= U && U != {} && (d.Obj? || [] in U)
    ensures Clear(Merge(x, d), U) == Clear(x, U)
    decreases Depth(U)
  {
    if [] !in U {
      var r := Merge(x, d);
      forall k ensures Has(Clear(r, U), k) == Has(Clear(x, U), k) && At(Clear(r, U), k) == At(Clear(x, U), k) {
        ClearMember(r, U, k);
        ClearMember(x, U, k);
        MergeMember(x, d, k);
        DepthTails(U, k);
        if [] !in Tails(U, k) && Has(d, k) {
          assert Tails(P, k) <= Tails(U, k);
          ClearConfined(At(x, k), d.m[k], Tails(P, k), Tails(U, k));
        }
      }
      SameMembers(Clear(r, U), Clear(x, U));
    }
  }

  lemma LeafyBelow(d: Json, P: set<Path>, k: string)
    requires Leafy(d, P) && d.Obj?
    ensures [] !in P && (Tails(P, k) != {} ==> Has(d, k)) && (Has(d, k) ==> Leafy(d.m[k], Tails(P, k)))
  {
    LeafyTails(d, P, k);
    assert [] in P ==> Get(d, []) == Some(d);
  }

  /** Undoing does not read what it clears: a patch with leaves on `P` makes the same, outside
      `U`, of what is the same when `U` and `P` are cleared. */
  lemma {:induction false} ClearMerge(x: Json, y: Json, d: Json, U: set<Path>, P: set<Path>)
    requires Clear(x, U + P) == Clear(y, U + P) && Leafy(d, P)
    ensures Clear(Merge(x, d), U) == Clear(Merge(y, d), U)
    decreases d, 1
  {
    if d.Obj? && [] !in U {
      var l, r := Merge(x, d), Merge(y, d);
      LeafyBelow(d, P, "");
      if U + P == {} {
        assert x == y;
      } else {
        forall k
          ensures Has(Clear(l, U), k) == Has(Clear(r, U), k) && At(Clear(l, U), k) == At(Clear(r, U), k)
        {
          ClearMergeMember(x, y, d, U, P, k);
        }
        SameMembers(Clear(l, U), Clear(r, U));
      }
    }
  }

  lemma {:induction false} ClearMergeMember(x: Json, y: Json, d: Json, U: set<Path>, P: set<Path>, k: string)
    requires Clear(x, U + P) == Clear(y, U + P) && Leafy(d, P) && d.Obj? && [] !in U && U + P != {}
    ensures var l, r := Merge(x, d), Merge(y, d);
      Has(Clear(l, U), k) == Has(Clear(r, U), k) && At(Clear(l, U), k) == At(Clear(r, U), k)
    decreases d, 0
  {
    var l, r := Merge(x, d), Merge(y, d);
    LeafyBelow(d, P, k);
    TailsUnion(U, P, k);
    ClearMember(x, U + P, k);
    ClearMember(y, U + P, k);
    MergeMember(x, d, k);
    MergeMember(y, d, k);
    if U != {} {
      ClearMember(l, U, k);
      ClearMember(r, U, k);
    } else {
      assert Tails(U, k) == {};
    }
    if [] !in Tails(U, k) {
      if Has(d, k) {
        ClearMerge(At(x, k), At(y, k), d.m[k], Tails(U, k), Tails(P, k));
      } else {
        assert Tails(U, k) + Tails(P, k) == Tails(U, k);
      }
    }
  }

  // ------------------------------------------------------------ the content that is left

  lemma ClearAnnotations(a: Json, b: Json, U: set<Path>)
    requires [] !in U && (a == b || (a.Null? && b == EMPTY) || a == CanonAnnotations(b))
    ensures CanonAnnotations(Clear(a, U)) == CanonAnnotations(Clear(b, U))
  {
    if U == {} {
      AnnotationsIdempotent(b);
    } else {
      var l, r := Clear(a, U), Clear(b, U);
      forall k | k !in ANNOTATION_NOISE ensures Has(l, k) == Has(r, k) && At(l, k) == At(r, k) {
        ClearMember(a, U, k);
        ClearMember(b, U, k);
      }
      SameMembers(CanonAnnotations(l), CanonAnnotations(r));
    }
  }

  /** Server-owned fields make no difference to what is left. */
  lemma ClearMetadata(md: Json, U: set<Path>)
    requires [] !in U
    ensures CanonMetadata(Clear(CanonMetadata(md), U)) == CanonMetadata(Clear(md, U))
  {
    if U == {} {
      MetadataIdempotent(md);
    } else if md.Obj? {
      var l, r := Clear(CanonMetadata(md), U), Clear(md, U);
      forall k
        ensures Has(CanonMetadata(l), k) == Has(CanonMetadata(r), k) && At(CanonMetadata(l), k) == At(CanonMetadata(r), k)
      {
        ClearMember(CanonMetadata(md), U, k);
        ClearMember(md, U, k);
        CanonMetadataMember(md, k);
        CanonMetadataMember(l, k);
        CanonMetadataMember(r, k);
        if k == ANNOTATIONS && [] !in Tails(U, k) {
          ClearAnnotations(CanonAnnotations(At(md, k)), At(md, k), Tails(U, k));
        }
      }
      SameMembers(CanonMetadata(l), CanonMetadata(r));
    }
  }

  lemma ClearTop(x: Json, U: set<Path>)
    requires x.Obj? && [] !in U
    ensures CanonTop(Clear(CanonTop(x), U)) == CanonTop(Clear(x, U))
  {
    var l, r := Clear(CanonTop(x), U), Clear(x, U);
    forall k ensures Has(CanonTop(l), k) == Has(CanonTop(r), k) && At(CanonTop(l), k) == At(CanonTop(r), k) {
      ClearTopMember(x, U, k);
    }
    SameMembers(CanonTop(l), CanonTop(r));
  }

  lemma ClearTopMember(x: Json, U: set<Path>, k: string)
    requires x.Obj? && [] !in U
    ensures var l, r := CanonTop(Clear(CanonTop(x), U)), CanonTop(Clear(x, U));
      l.Obj? && r.Obj? && Has(l, k) == Has(r, k) && At(l, k) == At(r, k)
  {
    CanonTopMember(x, k);
    CanonTopMember(Clear(CanonTop(x), U), k);
    CanonTopMember(Clear(x, U), k);
    if U == {} {
      if k == METADATA { MetadataIdempotent(At(x, k)); }
    } else {
      ClearMember(CanonTop(x), U, k);
      ClearMember(x, U, k);
      if k == METADATA && [] !in Tails(U, k) { ClearMetadata(At(x, k), Tails(U, k)); }
    }
  }

  /** The content of an object when the fields `U` are cleared. */
  ghost function Rest(o: Json, U: set<Path>): Json {
    CanonTop(Clear(Canon(o), U))
  }

  lemma RestWhole(o: Json)
    ensures Rest(o, {}) == Canon(o)
  {
    CanonTopOfCanon(o);
  }

  /** What a merge leaves is a function of what was left before. */
  lemma RestOfMerge(o: Json, d: Json, U: set<Path>, P: set<Path>)
    requires o.Obj? && d.Obj? && Leafy(d, P) && [] !in U
    ensures Rest(Merge(o, d), U) == CanonTop(Clear(Merge(Rest(o, U + P), d), U))
  {
    var c := Canon(o);
    var w := Clear(c, U + P);
    LeafyBelow(d, P, "");
    MergedContent(o, d);
    ClearTop(Merge(c, d), U);
    ClearIdempotent(c, U + P);
    ClearMerge(c, w, d, U, P);
    ClearTop(Merge(w, d), U);
    TopMerge(w, d);
    ClearTop(Merge(CanonTop(w), d), U);
  }

  /** Undoing fields makes the same of objects that are the same without them. */
  lemma RestAfterUndo(x: Json, y: Json, sets: seq<Assign>, U: set<Path>, P: set<Path>)
    requires x.Obj? && y.Obj? && [] !in U && Leafy(PatchOf(Visible(sets)), P)
    requires Rest(x, U + P) == Rest(y, U + P)
    ensures Rest(Merge(x, PatchOf(sets)), U) == Rest(Merge(y, PatchOf(sets)), U)
  {
    ContentOfVisible(x, sets);
    ContentOfVisible(y, sets);
    RestOfMerge(x, PatchOf(Visible(sets)), U, P);
    RestOfMerge(y, PatchOf(Visible(sets)), U, P);
  }

  lemma NoPathsNoSets(sets: seq<Assign>)
    ensures sets != [] ==> VisiblePathsOf(sets) != {}
  {
    if sets != [] {
      assert sets[0] in sets;
      assert VisiblePath(sets[0].path) in VisiblePathsOf(sets);
    }
  }

  /** Assigning to cleared fields changes nothing of what is left. */
  lemma RestKept(o: Json, sets: seq<Assign>, U: set<Path>)
    requires o.Obj? && [] !in U && VisiblePathsOf(sets) <= U
    ensures Rest(Merge(o, PatchOf(sets)), U) == Rest(o, U)
  {
    var d, c := PatchOf(Visible(sets)), Canon(o);
    ContentOfVisible(o, sets);
    PathsOfVisible(sets);
    PatchConfined(Visible(sets), U);
    MergedContent(o, d);
    ClearTop(Merge(c, d), U);
    if U == {} {
      NoPathsNoSets(sets);
      assert Visible(sets) == [];
      CanonIsNullFree(o);
      MergeSelf(c);
    } else {
      ClearConfined(c, d, U, U);
    }
  }

  /** Contents that agree outside `U` leave the same. */
  lemma AgreeRest(x: Json, y: Json, U: set<Path>)
    requires Agree(Canon(x), Canon(y), U)
    ensures Rest(x, U) == Rest(y, U)
  {
    AgreeClear(Canon(x), Canon(y), U);
  }
}
