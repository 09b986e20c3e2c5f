/** JSON documents and JSON merge patch (RFC 7396), with the patch the agent
    builds to turn a live object back into its captured before-state. */
module MergePatch {

  /** A JSON document.  Object members are unordered; numbers are exact. */
  datatype Json =
    | Null
    | Bool(b: bool)
    | Num(n: real)
    | Str(s: string)
    | Arr(elems: seq<Json>)
    | Obj(m: map<string, Json>)

  const EMPTY: Json := Obj(map[])

  /** The value under key `k`; an absent member reads as null, and so does any
      member of a value that is not an object. */
  function At(x: Json, k: string): Json {
    if x.Obj? && k in x.m then x.m[k] else Null
  }

  predicate Has(x: Json, k: string) {
    x.Obj? && k in x.m
  }

  // ---------------------------------------------------------------- RFC 7396

  /** MergePatch(Target, Patch) of RFC 7396, section 2.  An absent target member is
      passed down as null: the RFC starts from an empty object for both. */
  function Merge(target: Json, patch: Json): (r: Json)
    ensures patch.Obj? <==> r.Obj?
    decreases patch
  {
    if patch.Obj? then
      var t := if target.Obj? then target.m else map[];
      Obj(map k | k in t.Keys + patch.m.Keys && !(k in patch.m && patch.m[k].Null?)
            :: if k in patch.m then Merge(At(target, k), patch.m[k]) else t[k])
    else
      patch
  }

  /** Merge, member by member. */
  lemma MergeMember(t: Json, p: Json, k: string)
    requires p.Obj?
    ensures Has(Merge(t, p), k) <==> if Has(p, k) then !p.m[k].Null? else Has(t, k)
    ensures At(Merge(t, p), k) == if Has(p, k) then Merge(At(t, k), p.m[k]) else At(t, k)
  {}

  /** Two objects with the same members are equal. */
  lemma SameMembers(x: Json, y: Json)
    requires x.Obj? && y.Obj?
    requires forall k :: Has(x, k) == Has(y, k) && At(x, k) == At(y, k)
    ensures x == y
  {
    assert forall k :: k in x.m <==> Has(x, k);
    assert forall k :: k in y.m <==> Has(y, k);
    assert forall k | k in x.m :: x.m[k] == At(x, k) == At(y, k) == y.m[k];
    assert x.m == y.m;
  }

  /** `x` with the null members of its objects dropped at every depth; arrays are
      opaque to merge patch and stay as they are. */
  function DropNulls(x: Json): (r: Json)
    ensures r.Obj? <==> x.Obj?
    ensures r.Null? <==> x.Null?
  {
    if x.Obj? then Obj(map k | k in x.m && !x.m[k].Null? :: DropNulls(x.m[k])) else x
  }

  ghost predicate NullFree(x: Json) {
    x.Obj? ==> forall k | k in x.m :: !x.m[k].Null? && NullFree(x.m[k])
  }

  // ------------------------------------------------------- restoreMergePatch

  /** The members of an object; a missing (nil) object has none. */
  function Members(x: Json): map<string, Json> {
    if x.Obj? then x.m else map[]
  }

  /** The merge patch that carries `before` and nulls what only `current` has.
      Members that are objects on both sides recurse; everything else is replaced. */
  function RestorePatch(before: Json, current: Json): (out: Json)
    ensures out.Obj?
    decreases before
  {
    var b, c := Members(before), Members(current);
    Obj(map k | k in b.Keys + c.Keys
          :: if k !in b then Null
             else if b[k].Obj? && k in c && c[k].Obj? then RestorePatch(b[k], c[k])
             else b[k])
  }

  lemma RestorePatchMember(b: Json, c: Json, k: string)
    ensures Has(RestorePatch(b, c), k) <==> Has(b, k) || Has(c, k)
    ensures At(RestorePatch(b, c), k) ==
      if !Has(b, k) then Null
      else if b.m[k].Obj? && At(c, k).Obj? then RestorePatch(b.m[k], At(c, k))
      else b.m[k]
  {}

  lemma {:induction false} DropNullsIsNullFree(x: Json)
    ensures NullFree(DropNulls(x))
  {
    if x.Obj? {
      forall k | k in x.m { DropNullsIsNullFree(x.m[k]); }
    }
  }

  lemma {:induction false} DropNullsKeepsNullFree(x: Json)
    requires NullFree(x)
    ensures DropNulls(x) == x
  {
    if x.Obj? {
      forall k | k in x.m { DropNullsKeepsNullFree(x.m[k]); }
    }
  }

  /** Merging into anything but a non-empty object yields the patch itself, minus nulls. */
  lemma {:induction false} MergeIntoNothing(t: Json, p: Json)
    requires !t.Obj? || t == EMPTY
    ensures Merge(t, p) == DropNulls(p)
    decreases p
  {
    if p.Obj? {
      forall k | k in p.m { MergeIntoNothing(At(t, k), p.m[k]); }
      assert Merge(t, p).m == DropNulls(p).m;
    }
  }

  /** The central law of whole-object restore, for every pair of documents: applying the
      restore patch to the current object gives back exactly the before-object, its
      null members dropped; a missing before-object counts as empty. */
  lemma {:induction false} RestorePatchRestores(before: Json, current: Json)
    ensures Merge(current, RestorePatch(before, current)) == DropNulls(Obj(Members(before)))
    decreases before
  {
    var p := RestorePatch(before, current);
    var r, d := Merge(current, p), DropNulls(Obj(Members(before)));
    forall k
      ensures Has(r, k) == Has(d, k) && At(r, k) == At(d, k)
    {
      MergeMember(current, p, k);
      if Has(before, k) {
        var b, c := before.m[k], At(current, k);
        assert At(d, k) == DropNulls(b);
        if b.Obj? && c.Obj? {
          RestorePatchRestores(b, c);
        } else if b.Obj? {
          MergeIntoNothing(c, b);
        }
      }
    }
    SameMembers(r, d);
  }

  // ------------------------------------------------------------- further laws

  /** Merging is blind to null members of the target: nulls may be dropped before or after. */
  lemma {:induction false} DropNullsMerge(o: Json, p: Json)
    ensures DropNulls(Merge(o, p)) == Merge(DropNulls(o), p)
    decreases p
  {
    if p.Obj? {
      var l, r := DropNulls(Merge(o, p)), Merge(DropNulls(o), p);
      forall k
        ensures Has(l, k) == Has(r, k) && At(l, k) == At(r, k)
      {
        MergeMember(o, p, k);
        MergeMember(DropNulls(o), p, k);
        assert At(DropNulls(o), k) == DropNulls(At(o, k));
        if Has(p, k) { DropNullsMerge(At(o, k), p.m[k]); }
      }
      SameMembers(l, r);
    }
  }

  lemma MergeKeepsNullFree(o: Json, p: Json)
    requires NullFree(o)
    ensures NullFree(Merge(o, p))
  {
    DropNullsKeepsNullFree(o);
    DropNullsMerge(o, p);
    DropNullsIsNullFree(Merge(o, p));
  }

  /** A null-free object merged into itself, and an empty patch, change nothing. */
  lemma {:induction false} MergeSelf(x: Json)
    requires NullFree(x)
    ensures Merge(x, x) == x
    ensures x.Obj? ==> Merge(x, EMPTY) == x
  {
    if x.Obj? {
      forall k | k in x.m { MergeSelf(x.m[k]); }
      assert Merge(x, x).m == x.m;
      assert Merge(x, EMPTY).m == x.m;
    }
  }
}
