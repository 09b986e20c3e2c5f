/** Adoption by the numbers of the spans: nanoseconds, milliseconds and the tolerance. */
module SpanAdoption {
  import opened SpanTree

  /** `c` is longer than `s`, starts at most 1.5 ms after it, and ends at most 1.5 ms before it. */
  predicate Around(c: Span, s: Span) {
    && c.durationMs > s.durationMs
    && c.start <= s.start + 1500000.0
    && c.start + 1000000.0 * c.durationMs >= s.start + 1000000.0 * s.durationMs - 1500000.0
  }

  /** The span's recorded parent is in the trace. */
  predicate HasParentIn(spans: seq<Span>, s: Span) {
    exists t | t in spans :: t.spanId == s.parentSpanId
  }

  lemma AroundIsContains(c: Span, s: Span)
    ensures Around(c, s) <==> Contains(c, s)
  {}

  /** A recorded parent that is in the trace stays the parent. */
  lemma RecordedParentStays(spans: seq<Span>, s: Span)
    requires ValidTrace(spans) && HasParentIn(spans, s)
    ensures TreeParent(spans, s) == s.parentSpanId
  {
    var t :| t in spans && t.spanId == s.parentSpanId;
    assert s.parentSpanId in Ids(spans);
  }

  /** A span without one is adopted exactly when some span is around it, and then by a shortest
      such span. */
  lemma AdoptedIff(spans: seq<Span>, s: Span)
    requires ValidTrace(spans) && !HasParentIn(spans, s)
    ensures TreeParent(spans, s) != "" <==> exists c | c in spans :: Around(c, s)
    ensures TreeParent(spans, s) != "" ==>
      exists c | c in spans :: c.spanId == TreeParent(spans, s) && Around(c, s)
        && forall e | e in spans && Around(e, s) :: c.durationMs <= e.durationMs
  {
    assert s.parentSpanId !in Ids(spans);
    forall c ensures Around(c, s) <==> Contains(c, s) { AroundIsContains(c, s); }
    TightestContainer(spans, s);
  }

  /** What the walked part of a drawn tree says of a span: it hangs under its recorded parent,
      or, without one, under a shortest span around it, or nowhere. */
  lemma DrawnUnder(spans: seq<Span>, par: map<string, string>, n: SpanNode)
    requires ValidTrace(spans) && TreeParents(spans, par) && Placed(spans, par, n)
    ensures HasParentIn(spans, n.span) ==> n.treeParentId == n.span.parentSpanId
    ensures !HasParentIn(spans, n.span) ==>
      (n.treeParentId != "" <==> exists c | c in spans :: Around(c, n.span))
    ensures !HasParentIn(spans, n.span) && n.treeParentId != "" ==>
      exists c | c in spans :: c.spanId == n.treeParentId && Around(c, n.span)
        && forall e | e in spans && Around(e, n.span) :: c.durationMs <= e.durationMs
  {
    var j :| 0 <= j < |spans| && spans[j] == n.span;
    assert Parent(par, n.span.spanId) == TreeParent(spans, n.span);
    if HasParentIn(spans, n.span) {
      RecordedParentStays(spans, n.span);
    } else {
      AdoptedIff(spans, n.span);
    }
  }

  const ROOT := Span("r", "", 0.0, 1000.0)
  const ORPHAN := Span("o", "gone", 500000000.0, 10.0)

  lemma OrphanIsAdopted(par: map<string, string>)
    requires TreeParents([ORPHAN, ROOT], par)
    ensures ValidTrace([ORPHAN, ROOT]) && par == map["r" := "", "o" := "r"]
    ensures Rooted(par, "r") && Rooted(par, "o") && Level(par, "r") == 1 && Level(par, "o") == 2
  {
    var spans := [ORPHAN, ROOT];
    assert spans[0] == ORPHAN && spans[1] == ROOT;
    assert ORPHAN in spans && ROOT in spans;
    assert Around(ROOT, ORPHAN) && !Around(ORPHAN, ROOT) && !Around(ROOT, ROOT) && !Around(ORPHAN, ORPHAN);
    AdoptedIff(spans, ROOT);
    AdoptedIff(spans, ORPHAN);
    assert Ids(spans) == {"o", "r"};
    assert par["r"] == "" && par["o"] == "r";
    LevelOfRoot(par);
    LevelStep(par, "r");
    LevelStep(par, "o");
  }

  /** A request of one second and, half a second into it, a call of ten milliseconds whose
      recorded parent is not in the trace: the call is drawn below the request. */
  method DrawAdopted() returns (out: seq<SpanNode>)
    ensures out == [SpanNode(ROOT, 0, ""), SpanNode(ORPHAN, 1, "r")]
  {
    var spans := [ORPHAN, ROOT];
    assert spans[0] == ORPHAN && spans[1] == ROOT;
    ghost var walked, par;
    out, walked, par := BuildTree(spans);
    OrphanIsAdopted(par);
    BothWalked(spans, par, out, walked);
  }

  lemma BothWalked(spans: seq<Span>, par: map<string, string>, out: seq<SpanNode>, walked: nat)
    requires spans == [ORPHAN, ROOT] && TreeParents(spans, par) && walked <= |out|
    requires multiset(SpansOf(out)) == multiset(spans)
    requires Rooted(par, "") && Walked(spans, par, out[..walked], "")
    requires forall i | walked <= i < |out| :: !Rooted(par, out[i].span.spanId)
    ensures out == [SpanNode(ROOT, 0, ""), SpanNode(ORPHAN, 1, "r")]
  {
    OrphanIsAdopted(par);
    LevelOfRoot(par);
    assert |out| == |multiset(SpansOf(out))| == |multiset(spans)| == 2;
    forall i | 0 <= i < |out| ensures out[i].span == ORPHAN || out[i].span == ROOT {
      assert SpansOf(out)[i] in multiset(SpansOf(out));
      assert out[i].span in multiset(spans);
    }
    assert walked == 2;
    assert out[..walked] == out;
    assert out[0] in out && out[1] in out;
    assert Placed(spans, par, out[0]) && Placed(spans, par, out[1]);
    assert out[0].depth == 0;
    assert out[0].span == ROOT;
    assert out[1].span.spanId != out[0].span.spanId;
  }
}
