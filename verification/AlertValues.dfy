/** Alert rules by the numbers: what a history's values and times alone say about the state of a
    rule and what it sends. */
module AlertValues {
  import opened AlertRules

  /** The value is on the wrong side of the threshold; a value equal to it never is. */
  predicate Bad(r: Rule, value: real) {
    if r.op == "lt" then value < r.threshold else value > r.threshold
  }

  /** Evaluation `i` got a value, and a bad one. */
  predicate BadAt(r: Rule, h: seq<Eval>, i: int)
    requires 0 <= i < |h|
  {
    h[i].value.Some? && Bad(r, h[i].value.value)
  }

  /** Evaluation `i` is the last that got a value. */
  ghost predicate LastSuccess(h: seq<Eval>, i: int) {
    0 <= i < |h| && h[i].value.Some? && forall j | i < j < |h| :: h[j].value.None?
  }

  /** The current streak of bad values began at evaluation `i`: every value since is bad, and the
      one before, if any, was not. */
  ghost predicate StreakBegins(r: Rule, h: seq<Eval>, i: int) {
    && 0 <= i < |h| && h[i].value.Some?
    && (forall j | i <= j < |h| && h[j].value.Some? :: BadAt(r, h, j))
    && (forall j | LastSuccess(h[..i], j) :: !BadAt(r, h, j))
  }

  /** Some evaluation of the current streak came `forSeconds` seconds after its first. */
  ghost predicate FiresByValues(r: Rule, h: seq<Eval>) {
    exists i, j :: StreakBegins(r, h, i) && InStreak(h, i, j) && h[j].now - h[i].now >= r.forSeconds * 1000000000
  }

  predicate InStreak(h: seq<Eval>, i: int, j: int) {
    0 <= i <= j < |h| && h[j].value.Some?
  }

  lemma BadIsBreach(r: Rule, e: Eval)
    ensures Breaches(r, e) <==> e.value.Some? && Bad(r, e.value.value)
  {}

  // ------------------------------------------------------------------ streaks by index

  /** What the streak of a history is made of. */
  ghost predicate StreakFrom(r: Rule, h: seq<Eval>, i: int) {
    && StreakBegins(r, h, i)
    && Streak(r, h) != [] && Streak(r, h)[0] == h[i].now
    && (forall j | InStreak(h, i, j) :: h[j].now in Streak(r, h))
    && (forall t | t in Streak(r, h) :: exists j :: InStreak(h, i, j) && h[j].now == t)
  }

  lemma LastSuccessSnoc(h: seq<Eval>, e: Eval, j: int)
    ensures LastSuccess(h + [e], j) <==> if e.value.Some? then j == |h| else LastSuccess(h, j)
  {
    var more := h + [e];
    assert more[|h|] == e && forall k | 0 <= k < |h| :: more[k] == h[k];
  }

  lemma BeginsSnoc(r: Rule, h: seq<Eval>, e: Eval, i: int)
    requires 0 <= i < |h|
    ensures StreakBegins(r, h + [e], i) <==> StreakBegins(r, h, i) && (e.value.Some? ==> Bad(r, e.value.value))
  {
    var more := h + [e];
    assert more[..i] == h[..i];
    assert forall k | 0 <= k < |h| :: more[k] == h[k] && (BadAt(r, more, k) <==> BadAt(r, h, k));
    assert more[|h|] == e;
    if StreakBegins(r, more, i) {
      forall j | i <= j < |h| && h[j].value.Some? ensures BadAt(r, h, j) { assert BadAt(r, more, j); }
      if e.value.Some? { assert BadAt(r, more, |h|); }
    }
  }

  /** A failed evaluation extends no streak, a bad value does. */
  lemma StreakGoesOn(r: Rule, h: seq<Eval>, e: Eval, i: int)
    requires StreakFrom(r, h, i) && (e.value.Some? ==> Bad(r, e.value.value))
    ensures StreakFrom(r, h + [e], i)
  {
    var more := h + [e];
    BadIsBreach(r, e);
    BeginsSnoc(r, h, e, i);
    assert more[..|h|] == h && more[|h|] == e;
    assert Streak(r, more) == if e.value.None? then Streak(r, h) else Streak(r, h) + [e.now];
    forall j | InStreak(more, i, j) ensures more[j].now in Streak(r, more) {
      if j < |h| { assert InStreak(h, i, j) && more[j] == h[j]; }
    }
    forall t | t in Streak(r, more) ensures exists j :: InStreak(more, i, j) && more[j].now == t {
      if t in Streak(r, h) {
        var j :| InStreak(h, i, j) && h[j].now == t;
        assert InStreak(more, i, j) && more[j].now == t;
      } else {
        assert InStreak(more, i, |h|) && more[|h|].now == t;
      }
    }
  }

  /** A first bad value begins one. */
  lemma StreakStarts(r: Rule, h: seq<Eval>, e: Eval)
    requires Streak(r, h) == [] && e.value.Some? && Bad(r, e.value.value)
    requires forall j | LastSuccess(h, j) :: !BadAt(r, h, j)
    ensures StreakFrom(r, h + [e], |h|)
  {
    var more := h + [e];
    BadIsBreach(r, e);
    assert more[..|h|] == h && more[|h|] == e;
    assert Streak(r, more) == [e.now];
    assert BadAt(r, more, |h|);
    forall j | LastSuccess(h, j) ensures !BadAt(r, more, j) { assert more[j] == h[j] && !BadAt(r, h, j); }
    assert InStreak(more, |h|, |h|);
  }

  /** Either there is a streak, or the last value was not bad. */
  lemma {:induction false} StreakIs(r: Rule, h: seq<Eval>) returns (i: int)
    ensures Streak(r, h) != [] ==> StreakFrom(r, h, i)
    ensures Streak(r, h) == [] ==> forall j | LastSuccess(h, j) :: !BadAt(r, h, j)
    decreases |h|
  {
    i := 0;
    if h != [] {
      var n := |h| - 1;
      var front, e := h[..n], h[n];
      assert h == front + [e];
      i := StreakIs(r, front);
      BadIsBreach(r, e);
      if e.value.Some? && !Bad(r, e.value.value) {
        assert Streak(r, h) == [];
        forall j | LastSuccess(h, j) ensures !BadAt(r, h, j) { LastSuccessSnoc(front, e, j); }
      } else if Streak(r, front) != [] {
        StreakGoesOn(r, front, e, i);
      } else if e.value.Some? {
        StreakStarts(r, front, e);
        i := n;
      } else {
        forall j | LastSuccess(h, j) ensures !BadAt(r, h, j) {
          LastSuccessSnoc(front, e, j);
          assert !BadAt(r, front, j);
        }
      }
    }
  }

  /** A streak begins once. */
  lemma OneBeginning(r: Rule, h: seq<Eval>, i: int, j: int)
    requires StreakBegins(r, h, i) && i < j
    ensures !StreakBegins(r, h, j)
  {
    if j < |h| {
      var k := LastBefore(h, i, j);
      assert LastSuccess(h[..j], k) && BadAt(r, h, k);
    }
  }

  lemma BeginningHasLast(r: Rule, h: seq<Eval>, i: int)
    requires StreakBegins(r, h, i)
    ensures exists j :: LastSuccess(h, j) && BadAt(r, h, j)
  {
    var j := LastBefore(h, i, |h|);
    assert h[..|h|] == h;
    assert LastSuccess(h, j) && BadAt(r, h, j);
  }

  lemma {:induction false} LastBefore(h: seq<Eval>, i: int, j: int) returns (k: int)
    requires 0 <= i < j <= |h| && h[i].value.Some?
    ensures i <= k < j && LastSuccess(h[..j], k)
    decreases j
  {
    if h[j - 1].value.Some? {
      k := j - 1;
    } else {
      k := LastBefore(h, i, j - 1);
      assert forall m | k < m < j - 1 :: h[..j - 1][m] == h[m];
    }
  }

  // -------------------------------------------------------------------------- theorems

  /** A rule is ok exactly when no evaluation got a value, or the last that did got one that is
      not strictly below the threshold for "lt", not strictly above it for any other operator. */
  lemma OkByLastValue(r: Rule, start: int, h: seq<Eval>)
    ensures After(r, Standing(Ok, start), h).state == Ok <==>
      forall j | LastSuccess(h, j) ::
        if r.op == "lt" then h[j].value.value >= r.threshold else h[j].value.value <= r.threshold
  {
    StateIsStreak(r, start, h);
    var i := StreakIs(r, h);
    if Streak(r, h) == [] {
      forall j | LastSuccess(h, j)
        ensures if r.op == "lt" then h[j].value.value >= r.threshold else h[j].value.value <= r.threshold
      {
        assert !BadAt(r, h, j);
      }
    } else {
      BeginningHasLast(r, h, i);
    }
  }

  /** A rule fires exactly when the current streak of bad values has lasted `forSeconds`. */
  lemma FiringByValues(r: Rule, start: int, h: seq<Eval>)
    ensures After(r, Standing(Ok, start), h).state == Firing <==> FiresByValues(r, h)
  {
    StateIsStreak(r, start, h);
    FiresIsFiresByValues(r, h);
  }

  lemma FiresIsFiresByValues(r: Rule, h: seq<Eval>)
    ensures Streak(r, h) == [] ==> !FiresByValues(r, h)
    ensures Streak(r, h) != [] ==> (Fires(r, h) <==> FiresByValues(r, h))
  {
    var i := StreakIs(r, h);
    var times := Streak(r, h);
    if times == [] {
      if a, b :| StreakBegins(r, h, a) && InStreak(h, a, b) && h[b].now - h[a].now >= r.forSeconds * 1000000000 {
        BeginningHasLast(r, h, a);
      }
    } else {
      if Fires(r, h) {
        var k :| 0 <= k < |times| && times[k] - times[0] >= r.forSeconds * NANOS;
        assert times[k] in times;
        var j :| InStreak(h, i, j) && h[j].now == times[k];
        assert StreakBegins(r, h, i) && InStreak(h, i, j) && h[j].now - h[i].now >= r.forSeconds * 1000000000;
      }
      if a, b :| StreakBegins(r, h, a) && InStreak(h, a, b) && h[b].now - h[a].now >= r.forSeconds * 1000000000 {
        SameBeginning(r, h, a, i);
        assert h[b].now in times;
        var k :| 0 <= k < |times| && times[k] == h[b].now;
        assert times[k] - times[0] >= r.forSeconds * NANOS;
      }
    }
  }

  lemma SameBeginning(r: Rule, h: seq<Eval>, i: int, j: int)
    requires StreakBegins(r, h, i) && StreakBegins(r, h, j)
    ensures i == j
  {
    if i < j { OneBeginning(r, h, i, j); }
    if j < i { OneBeginning(r, h, j, i); }
  }

  /** A fresh rule that need not wait fires on exactly the bad values, and never on one equal to
      the threshold. */
  lemma FreshRuleFiresOn(r: Rule, start: int, e: Eval)
    requires r.forSeconds <= 0 && e.value.Some?
    ensures var st := After(r, Standing(Ok, start), [e]).state;
      && (st == Firing <==> if r.op == "lt" then e.value.value < r.threshold else e.value.value > r.threshold)
      && (st == Ok <==> if r.op == "lt" then e.value.value >= r.threshold else e.value.value <= r.threshold)
      && (e.value.value == r.threshold ==> st == Ok)
  {
    assert [e][..0] == [];
    assert After(r, Standing(Ok, start), []) == Standing(Ok, start);
  }

  /** What an evaluation sends, by the values alone. */
  lemma PagesByValues(r: Rule, start: int, h: seq<Eval>, e: Eval)
    ensures var st := Standing(Ok, start);
            var fired, fires := FiresByValues(r, h), FiresByValues(r, h + [e]);
            var sent := Effects(r, After(r, st, h).state, After(r, st, h + [e]).state, e);
            && Sent(r, st, h + [e]) == Sent(r, st, h) + sent
            && (NotifyFiring in sent <==> !fired && fires && !e.muted && !e.maintenance)
            && (DeclareIncident in sent <==> !fired && fires && !e.maintenance)
            && (Dispatch in sent <==> !fired && fires && r.hasAction && !e.maintenance)
            && (NotifyResolved in sent <==> fired && !fires && !e.muted && !e.maintenance)
            && (ResolveIncident in sent <==> fired && !fires)
  {
    var st := Standing(Ok, start);
    assert (h + [e])[..|h|] == h;
    StateIsStreak(r, start, h);
    FiringByValues(r, start, h);
    FiringByValues(r, start, h + [e]);
    SentBy(r, After(r, st, h).state, After(r, st, h + [e]).state, e);
  }

  /** Every change of state, and nothing else, is recorded as one event that names both states
      and whether maintenance suppressed its pages, and sets the clock. */
  lemma ChangesAreRecorded(r: Rule, start: Standing, h: seq<Eval>, e: Eval)
    ensures var before, after := After(r, start, h), After(r, start, h + [e]);
            var sent := Effects(r, before.state, after.state, e);
            && (sent == [] <==> before.state == after.state)
            && (sent != [] ==> sent[0] == Event(before.state, after.state, e.maintenance)
                               && forall i | 0 < i < |sent| :: !sent[i].Event?)
            && after.since == (if before.state == after.state then before.since else e.now)
  {
    assert (h + [e])[..|h|] == h;
  }
}
