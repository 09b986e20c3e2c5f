/** The examples of RFC 7396, appendix A. */
module MergeExamples {
  import opened MergePatch

  function One(k: string, v: Json): Json {
    Obj(map[k := v])
  }

  function Two(k: string, v: Json, l: string, w: Json): Json {
    Obj(map[k := v, l := w])
  }

  /** Members are replaced, added and removed. */
  lemma MembersChange()
    ensures Merge(One("a", Str("b")), One("a", Str("c"))) == One("a", Str("c"))
    ensures Merge(One("a", Str("b")), One("b", Str("c"))) == Two("a", Str("b"), "b", Str("c"))
    ensures Merge(One("a", Str("b")), One("a", Null)) == EMPTY
    ensures Merge(Two("a", Str("b"), "b", Str("c")), One("a", Null)) == One("b", Str("c"))
    ensures Merge(One("e", Null), One("a", Num(1.0))) == Two("e", Null, "a", Num(1.0))
  {}

  /** Arrays are replaced as a whole, with whatever is in them. */
  lemma ArraysAreReplaced()
    ensures Merge(One("a", Arr([Str("b")])), One("a", Str("c"))) == One("a", Str("c"))
    ensures Merge(One("a", Str("c")), One("a", Arr([Str("b")]))) == One("a", Arr([Str("b")]))
    ensures Merge(One("a", Arr([One("b", Str("c"))])), One("a", Arr([Num(1.0)]))) == One("a", Arr([Num(1.0)]))
    ensures Merge(Arr([Str("a"), Str("b")]), Arr([Str("c"), Null])) == Arr([Str("c"), Null])
  {}

  /** Members of members are merged. */
  lemma MembersOfMembers()
    ensures Merge(One("a", One("b", Str("c"))), One("a", Two("b", Str("d"), "c", Null))) == One("a", One("b", Str("d")))
  {
    assert Merge(One("b", Str("c")), Two("b", Str("d"), "c", Null)) == One("b", Str("d"));
  }

  /** Nulls in what is added leave nothing. */
  lemma NullsLeaveNothing()
    ensures Merge(EMPTY, One("a", One("bb", One("ccc", Null)))) == One("a", One("bb", EMPTY))
  {
    assert Merge(Null, One("ccc", Null)) == EMPTY;
    assert Merge(Null, One("bb", One("ccc", Null))) == One("bb", EMPTY);
  }

  /** A document that is no object replaces everything, and a target that is none counts as
      empty. */
  lemma OtherDocuments()
    ensures Merge(One("a", Str("foo")), Null) == Null
    ensures Merge(One("a", Str("foo")), Str("bar")) == Str("bar")
    ensures Merge(One("a", Str("b")), Arr([Str("c")])) == Arr([Str("c")])
    ensures Merge(Arr([Num(1.0), Num(2.0)]), Two("a", Str("b"), "c", Null)) == One("a", Str("b"))
  {}
}
