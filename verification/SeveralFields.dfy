/** Undoing one mutation of several fields, when paths repeat or lie inside one another. */
module SeveralFields {
  import opened MergePatch
  import opened FieldPaths
  import opened ClearedPaths

  /** The assignments that are not at or below `p`. */
  function NotUnder(sets: seq<Assign>, p: Path): seq<Assign> {
    if sets == [] then []
    else
      var n := |sets| - 1;
      NotUnder(sets[..n], p) + if p <= sets[n].path then [] else [sets[n]]
  }

  /** The assignments that no later one overrides by a path at or above theirs. */
  function Live(sets: seq<Assign>): seq<Assign> {
    if sets == [] then []
    else NotUnder(Live(sets[..|sets| - 1]), sets[|sets| - 1].path) + [sets[|sets| - 1]]
  }

  // ------------------------------------------------- overridden assignments do not matter

  /** Setting `p` reads nothing at or below it. */
  lemma {:induction false} SetNestedReadsCleared(d: Json, d': Json, p: Path, v: Json)
    requires d.Obj? && d'.Obj? && p != [] && Clear(d, {p}) == Clear(d', {p})
    ensures SetNested(d, p, v) == SetNested(d', p, v)
    decreases |p|
  {
    var k, l, r := p[0], SetNested(d, p, v), SetNested(d', p, v);
    assert [k] + p[1..] == p;
    forall j ensures Has(l, j) == Has(r, j) && At(l, j) == At(r, j) {
      ClearMember(d, {p}, j);
      ClearMember(d', {p}, j);
      if j != k {
        assert Tails({p}, j) == {};
      } else if |p| > 1 {
        assert Tails({p}, k) == {p[1..]};
        ClearObject(At(d, k), p[1..]);
        ClearObject(At(d', k), p[1..]);
        SetNestedReadsCleared(if At(d, k).Obj? then At(d, k) else EMPTY, if At(d', k).Obj? then At(d', k) else EMPTY, p[1..], v);
      }
    }
    SameMembers(l, r);
  }

  /** What is not an object counts as an empty one. */
  lemma ClearObject(x: Json, p: Path)
    requires p != []
    ensures Clear(if x.Obj? then x else EMPTY, {p}) == Clear(x, {p})
  {
    if !x.Obj? { assert Members(x) == Members(EMPTY); }
  }

  /** Setting a path at or below `p` is nothing when `p` is cleared. */
  lemma {:induction false} ClearForgets(d: Json, q: Path, w: Json, p: Path)
    requires d.Obj? && p != [] && p <= q
    ensures Clear(SetNested(d, q, w), {p}) == Clear(d, {p})
    decreases |p|
  {
    var k, s := q[0], SetNested(d, q, w);
    assert [k] + p[1..] == p;
    forall j ensures Has(Clear(s, {p}), j) == Has(Clear(d, {p}), j) && At(Clear(s, {p}), j) == At(Clear(d, {p}), j) {
      ClearMember(s, {p}, j);
      ClearMember(d, {p}, j);
      if j != k {
        assert Tails({p}, j) == {};
      } else {
        assert Tails({p}, k) == {p[1..]};
        if |p| > 1 {
          var next := if At(d, k).Obj? then At(d, k) else EMPTY;
          ClearForgets(next, q[1..], w, p[1..]);
          ClearObject(At(d, k), p[1..]);
        } else {
          assert p[1..] == [];
        }
      }
    }
    SameMembers(Clear(s, {p}), Clear(d, {p}));
  }

  /** And any other assignment keeps what is the same when `p` is cleared. */
  lemma {:induction false} ClearKeeps(d: Json, d': Json, q: Path, w: Json, p: Path)
    requires d.Obj? && d'.Obj? && p != [] && Clear(d, {p}) == Clear(d', {p})
    ensures Clear(SetNested(d, q, w), {p}) == Clear(SetNested(d', q, w), {p})
    decreases |q|, 2
  {
    if q != [] {
      var l, r := SetNested(d, q, w), SetNested(d', q, w);
      forall j ensures Has(Clear(l, {p}), j) == Has(Clear(r, {p}), j) && At(Clear(l, {p}), j) == At(Clear(r, {p}), j) {
        ClearKeepsMember(d, d', q, w, p, j);
      }
      SameMembers(Clear(l, {p}), Clear(r, {p}));
    }
  }

  lemma {:induction false} ClearKeepsMember(d: Json, d': Json, q: Path, w: Json, p: Path, j: string)
    requires d.Obj? && d'.Obj? && p != [] && q != [] && Clear(d, {p}) == Clear(d', {p})
    ensures var l, r := Clear(SetNested(d, q, w), {p}), Clear(SetNested(d', q, w), {p});
      l.Obj? && r.Obj? && Has(l, j) == Has(r, j) && At(l, j) == At(r, j)
    decreases |q|, 1
  {
    var s, s' := SetNested(d, q, w), SetNested(d', q, w);
    ClearMember(s, {p}, j);
    ClearMember(s', {p}, j);
    SetNestedMember(d, q, w, j);
    SetNestedMember(d', q, w, j);
    ClearedMembers(d, d', p, j);
    if j == q[0] && |q| > 1 { ClearKeepsBelow(At(d, j), At(d', j), q, w, p); }
  }

  lemma SetNestedMember(d: Json, q: Path, w: Json, j: string)
    requires d.Obj? && q != []
    ensures Has(SetNested(d, q, w), j) <==> j == q[0] || Has(d, j)
    ensures At(SetNested(d, q, w), j) ==
      if j != q[0] then At(d, j)
      else if |q| == 1 then w
      else SetNested(if At(d, j).Obj? then At(d, j) else EMPTY, q[1..], w)
  {}

  /** What clearing one path says of the members. */
  lemma ClearedMembers(d: Json, d': Json, p: Path, j: string)
    requires d.Obj? && d'.Obj? && p != [] && Clear(d, {p}) == Clear(d', {p})
    ensures Tails({p}, j) == if j == p[0] then {p[1..]} else {}
    ensures j != p[0] ==> Has(d, j) == Has(d', j)
    ensures Clear(At(d, j), Tails({p}, j)) == Clear(At(d', j), Tails({p}, j))
  {
    ClearMember(d, {p}, j);
    ClearMember(d', {p}, j);
    assert [p[0]] + p[1..] == p;
  }

  lemma {:induction false} ClearKeepsBelow(x: Json, y: Json, q: Path, w: Json, p: Path)
    requires |q| > 1 && p != []
    requires Clear(x, if q[0] == p[0] then {p[1..]} else {}) == Clear(y, if q[0] == p[0] then {p[1..]} else {})
    ensures var T := if q[0] == p[0] then {p[1..]} else {};
      Clear(SetNested(if x.Obj? then x else EMPTY, q[1..], w), T) == Clear(SetNested(if y.Obj? then y else EMPTY, q[1..], w), T)
    decreases |q|, 0
  {
    if q[0] == p[0] && |p| > 1 {
      ClearObject(x, p[1..]);
      ClearObject(y, p[1..]);
      ClearKeeps(if x.Obj? then x else EMPTY, if y.Obj? then y else EMPTY, q[1..], w, p[1..]);
    } else if q[0] == p[0] {
      assert p[1..] == [];
    }
  }

  lemma {:induction false} NotUnderForgets(sets: seq<Assign>, p: Path)
    requires p != []
    ensures Clear(PatchOf(NotUnder(sets, p)), {p}) == Clear(PatchOf(sets), {p})
    decreases |sets|
  {
    if sets != [] {
      var n := |sets| - 1;
      var front, a := NotUnder(sets[..n], p), sets[n];
      NotUnderForgets(sets[..n], p);
      if p <= a.path {
        ClearForgets(PatchOf(sets[..n]), a.path, a.value, p);
        assert front + [] == front;
      } else {
        ClearKeeps(PatchOf(front), PatchOf(sets[..n]), a.path, a.value, p);
        assert (front + [a])[..|front|] == front;
      }
    }
  }

  /** The patch of several assignments is the patch of those that are live. */
  lemma {:induction false} PatchOfLive(sets: seq<Assign>)
    requires forall a | a in sets :: a.path != []
    ensures PatchOf(Live(sets)) == PatchOf(sets)
    decreases |sets|
  {
    if sets != [] {
      var n := |sets| - 1;
      var a, front := sets[n], Live(sets[..n]);
      assert a in sets && forall b | b in sets[..n] :: b in sets;
      PatchOfLive(sets[..n]);
      NotUnderForgets(front, a.path);
      SetNestedReadsCleared(PatchOf(NotUnder(front, a.path)), PatchOf(front), a.path, a.value);
      assert (NotUnder(front, a.path) + [a])[..|NotUnder(front, a.path)|] == NotUnder(front, a.path);
    }
  }

  // ------------------------------------------------------------------- the exact condition

  lemma UndoForFront(o: Json, sets: seq<Assign>)
    requires sets != []
    ensures var n, u := |sets| - 1, UndoFor(o, sets);
            u[..n] == UndoFor(o, sets[..n]) && u[n] == Assign(sets[n].path, Value(o, sets[n].path))
  {}

  lemma UndoForSnoc(o: Json, front: seq<Assign>, a: Assign)
    ensures UndoFor(o, front + [a]) == UndoFor(o, front) + [Assign(a.path, Value(o, a.path))]
  {}

  lemma {:induction false} UndoForNotUnder(o: Json, sets: seq<Assign>, p: Path)
    ensures UndoFor(o, NotUnder(sets, p)) == NotUnder(UndoFor(o, sets), p)
    decreases |sets|
  {
    if sets != [] {
      var n := |sets| - 1;
      UndoForNotUnder(o, sets[..n], p);
      UndoForFront(o, sets);
      UndoForSnoc(o, NotUnder(sets[..n], p), sets[n]);
    }
  }

  lemma {:induction false} UndoForLive(o: Json, sets: seq<Assign>)
    ensures UndoFor(o, Live(sets)) == Live(UndoFor(o, sets))
    decreases |sets|
  {
    if sets != [] {
      var n := |sets| - 1;
      UndoForLive(o, sets[..n]);
      UndoForNotUnder(o, Live(sets[..n]), sets[n].path);
      UndoForFront(o, sets);
      UndoForSnoc(o, NotUnder(Live(sets[..n]), sets[n].path), sets[n]);
    }
  }

  lemma UndoOfLive(o: Json, sets: seq<Assign>)
    requires forall a | a in sets :: a.path != []
    ensures SetAndUndo(o, Live(sets)) == SetAndUndo(o, sets)
  {
    PatchOfLive(sets);
    UndoForLive(o, sets);
    var u := UndoFor(o, sets);
    forall a | a in u ensures a.path != [] {
      var i :| 0 <= i < |u| && u[i] == a;
      assert sets[i] in sets;
    }
    PatchOfLive(u);
  }

  lemma {:induction false} NotUnderKeeps(sets: seq<Assign>, p: Path)
    ensures forall a | a in NotUnder(sets, p) :: a in sets && !(p <= a.path)
    decreases |sets|
  {
    if sets != [] { NotUnderKeeps(sets[..|sets| - 1], p); }
  }

  lemma {:induction false} LiveKeeps(sets: seq<Assign>)
    ensures forall a | a in Live(sets) :: a in sets
    decreases |sets|
  {
    if sets != [] {
      var n := |sets| - 1;
      LiveKeeps(sets[..n]);
      NotUnderKeeps(Live(sets[..n]), sets[n].path);
    }
  }

  /** Paths may repeat, and lie below one that is set later: the mutation and its undo give the
      object back exactly when, for every live assignment, the parent was an object and nothing
      was added under an object-valued field. */
  lemma LiveUndoIsExactIff(o: Json, sets: seq<Assign>)
    requires o.Obj? && NullFree(o) && (forall a | a in sets :: a.path != []) && Apart(Live(sets))
    ensures SetAndUndo(o, sets) == o <==>
      forall a | a in Live(sets) :: HasParent(o, a.path) && AddsNothing(Value(o, a.path), a.value)
  {
    UndoOfLive(o, sets);
    UndoIsExactIff(o, Live(sets));
  }

  // ------------------------------------------------------------ a path inside an earlier one

  lemma {:induction false} BecomesObject(d: Json, q: Path, w: Json, p: Path)
    requires d.Obj? && p <= q && p != q
    ensures Get(SetNested(d, q, w), p).Some? && Get(SetNested(d, q, w), p).value.Obj?
    decreases |p|
  {
    if p != [] {
      BecomesObject(if At(d, q[0]).Obj? then At(d, q[0]) else EMPTY, q[1..], w, p[1..]);
    }
  }

  lemma {:induction false} StaysObject(d: Json, q: Path, w: Json, p: Path)
    requires d.Obj? && Get(d, p).Some? && Get(d, p).value.Obj? && !(q <= p)
    ensures Get(SetNested(d, q, w), p).Some? && Get(SetNested(d, q, w), p).value.Obj?
    decreases |p|
  {
    if p != [] && q != [] && q[0] == p[0] {
      assert [p[0]] + p[1..] == p && [q[0]] + q[1..] == q;
      assert |q| > 1;
      StaysObject(d.m[p[0]], q[1..], w, p[1..]);
    }
  }

  lemma {:induction false} ObjectAtUpper(sets: seq<Assign>, p: Path, j: nat)
    requires j < |sets| && p <= sets[j].path && p != sets[j].path
    requires forall k | j < k < |sets| :: !(sets[k].path <= p)
    ensures Get(PatchOf(sets), p).Some? && Get(PatchOf(sets), p).value.Obj?
    decreases |sets|
  {
    var n := |sets| - 1;
    if j == n {
      BecomesObject(PatchOf(sets[..n]), sets[n].path, sets[n].value, p);
    } else {
      ObjectAtUpper(sets[..n], p, j);
      StaysObject(PatchOf(sets[..n]), sets[n].path, sets[n].value, p);
    }
  }

  /** A path set after one it lies inside loses the upper one: when that was not an object, an
      object stays in its place. */
  lemma NestedLosesLeaf(o: Json, sets: seq<Assign>, p: Path, j: nat)
    requires p != [] && j < |sets| && p <= sets[j].path && p != sets[j].path
    requires forall k | j < k < |sets| :: !(sets[k].path <= p)
    requires !Value(o, p).Obj?
    ensures Value(SetAndUndo(o, sets), p).Obj? && SetAndUndo(o, sets) != o
  {
    var u := UndoFor(o, sets);
    ObjectAtUpper(u, p, j);
    ValueOfMerge(Merge(o, PatchOf(sets)), PatchOf(u), p);
  }
}
