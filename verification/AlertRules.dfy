/** The alert state machine: what one evaluation does to a rule, and what a rule's state and
    the pages it sent say about its whole history.  Times are integers. */
module AlertRules {
  import opened Options

  datatype State = Ok | Pending | Firing

  /** `threshold` and the values are exact; any operator but "lt" compares upwards. */
  datatype Rule = Rule(op: string, threshold: real, forSeconds: int, hasAction: bool)

  predicate Breach(op: string, value: real, threshold: real) {
    if op == "lt" then value < threshold else value > threshold
  }

  /** One evaluation: when, the value it got (none when it failed), and whether the scope was
      in maintenance and the rule muted at that moment. */
  datatype Eval = Eval(now: int, value: Option<real>, maintenance: bool, muted: bool)

  datatype Effect =
    | Event(from: State, to: State, suppressed: bool)
    | NotifyFiring
    | NotifyResolved
    | DeclareIncident
    | ResolveIncident
    | Dispatch

  /** The persisted part of a rule. */
  datatype Standing = Standing(state: State, since: int)

  const NANOS: int := 1000000000

  predicate Breaches(r: Rule, e: Eval) {
    e.value.Some? && Breach(r.op, e.value.value, r.threshold)
  }

  /** The state after a successful evaluation. */
  function NextState(r: Rule, st: Standing, e: Eval): State {
    match st.state
    case Ok => if !Breaches(r, e) then Ok else if r.forSeconds <= 0 then Firing else Pending
    case Pending =>
      if !Breaches(r, e) then Ok
      else if e.now - st.since >= r.forSeconds * NANOS then Firing
      else Pending
    case Firing => if Breaches(r, e) then Firing else Ok
  }

  function NextStanding(r: Rule, st: Standing, e: Eval): Standing {
    if e.value.None? then st
    else
      var next := NextState(r, st, e);
      if next == st.state then st else Standing(next, e.now)
  }

  /** What a transition sends, in order. */
  function Effects(r: Rule, from: State, to: State, e: Eval): seq<Effect> {
    if from == to then []
    else
      [Event(from, to, e.maintenance)] +
      (if to == Firing then
         (if !e.muted && !e.maintenance then [NotifyFiring] else []) +
         (if !e.maintenance then [DeclareIncident] else []) +
         (if r.hasAction && !e.maintenance then [Dispatch] else [])
       else if from == Firing && to == Ok then
         (if !e.muted && !e.maintenance then [NotifyResolved] else []) + [ResolveIncident]
       else [])
  }

  /** A rule being evaluated; every evaluation writes its standing back. */
  class AlertRule {
    const rule: Rule
    var state: State
    var since: int
    var sent: seq<Effect>

    constructor (rule: Rule, since: int)
      ensures this.rule == rule && state == Ok && this.since == since && sent == []
    {
      this.rule, state, this.since, sent := rule, Ok, since, [];
    }

    method Evaluate(e: Eval)
      modifies this
      ensures Standing(state, since) == NextStanding(rule, old(Standing(state, since)), e)
      ensures sent == old(sent) + Effects(rule, old(state), state, e)
    {
      if e.value.None? {
        return;
      }
      var newState := state;
      var isBreach := Breach(rule.op, e.value.value, rule.threshold);
      match state {
        case Ok =>
          if isBreach {
            newState := Pending;
            if rule.forSeconds <= 0 {
              newState := Firing;
            }
          }
        case Pending =>
          if !isBreach {
            newState := Ok;
          } else if e.now - since >= rule.forSeconds * NANOS {
            newState := Firing;
          }
        case Firing =>
          if !isBreach {
            newState := Ok;
          }
      }
      if newState != state {
        since := e.now;
        sent := sent + [Event(state, newState, e.maintenance)];
        if newState == Firing {
          if !e.muted && !e.maintenance {
            sent := sent + [NotifyFiring];
          }
          if !e.maintenance {
            sent := sent + [DeclareIncident];
          }
          if rule.hasAction && !e.maintenance {
            sent := sent + [Dispatch];
          }
        } else if state == Firing && newState == Ok {
          if !e.muted && !e.maintenance {
            sent := sent + [NotifyResolved];
          }
          sent := sent + [ResolveIncident];
        }
      }
      state := newState;
    }
  }

  // ------------------------------------------------------------------- histories

  /** The standing after a history, most recent evaluation last. */
  function After(r: Rule, start: Standing, h: seq<Eval>): Standing {
    if h == [] then start
    else NextStanding(r, After(r, start, h[..|h| - 1]), h[|h| - 1])
  }

  /** Everything sent during a history. */
  function Sent(r: Rule, start: Standing, h: seq<Eval>): seq<Effect> {
    if h == [] then []
    else
      var n := |h| - 1;
      Sent(r, start, h[..n]) + Effects(r, After(r, start, h[..n]).state, After(r, start, h).state, h[n])
  }

  /** The times of the current unbroken streak: the successful evaluations since the last one
      that did not breach.  Failed evaluations neither break nor extend it. */
  function Streak(r: Rule, h: seq<Eval>): seq<int> {
    if h == [] then []
    else
      var n := |h| - 1;
      if h[n].value.None? then Streak(r, h[..n])
      else if !Breaches(r, h[n]) then []
      else Streak(r, h[..n]) + [h[n].now]
  }

  /** Some evaluation of the streak came at least `forSeconds` after its first. */
  predicate Lasted(r: Rule, times: seq<int>) {
    exists i | 0 <= i < |times| :: times[i] - times[0] >= r.forSeconds * NANOS
  }

  /** The closed form: a rule is ok exactly when it has no breaching streak, firing exactly when
      the streak has lasted `forSeconds`, and a pending rule's clock is the streak's start. */
  lemma {:induction false} StateIsStreak(r: Rule, start: int, h: seq<Eval>)
    ensures var st, times := After(r, Standing(Ok, start), h), Streak(r, h);
            && (st.state == Ok <==> times == [])
            && (st.state == Firing <==> times != [] && Lasted(r, times))
            && (st.state == Pending ==> st.since == times[0])
    decreases |h|
  {
    if h != [] {
      var n := |h| - 1;
      StateIsStreak(r, start, h[..n]);
      var before, times, e := Streak(r, h[..n]), Streak(r, h), h[n];
      if Breaches(r, e) {
        assert times == before + [e.now];
        LastedNext(r, before, e.now);
        assert before == [] ==> (Lasted(r, times) <==> 0 >= r.forSeconds * NANOS);
      }
    }
  }

  lemma LastedNext(r: Rule, times: seq<int>, now: int)
    ensures Lasted(r, times + [now]) <==>
      Lasted(r, times) || now - (times + [now])[0] >= r.forSeconds * NANOS
  {
    var more := times + [now];
    forall i | 0 <= i < |times| ensures more[i] == times[i] && more[0] == times[0] {}
    assert more[|times|] == now;
  }

  predicate Nondecreasing(times: seq<int>) {
    forall i, j | 0 <= i < j < |times| :: times[i] <= times[j]
  }

  /** With a clock that does not run backwards: firing exactly when the last breach came at
      least `forSeconds` after the first of its streak. */
  lemma FiringIsDuration(r: Rule, start: int, h: seq<Eval>)
    requires Nondecreasing(Streak(r, h))
    ensures var times := Streak(r, h);
            After(r, Standing(Ok, start), h).state == Firing <==>
              times != [] && times[|times| - 1] - times[0] >= r.forSeconds * NANOS
  {
    StateIsStreak(r, start, h);
    var times := Streak(r, h);
    if Lasted(r, times) {
      var i :| 0 <= i < |times| && times[i] - times[0] >= r.forSeconds * NANOS;
      assert times[i] <= times[|times| - 1];
    }
  }

  /** The history's streak has lasted. */
  predicate Fires(r: Rule, h: seq<Eval>) {
    Lasted(r, Streak(r, h))
  }

  /** What the last evaluation of a history sends, by the history alone: pages, incidents and
      the remediation when a streak has just lasted long enough, resolutions when a lasting
      streak has just been broken, and nothing else. */
  lemma PagesByHistory(r: Rule, start: int, h: seq<Eval>)
    requires h != []
    ensures var n, st := |h| - 1, Standing(Ok, start);
            var e, fired, fires := h[n], Fires(r, h[..n]), Fires(r, h);
            var sent := Effects(r, After(r, st, h[..n]).state, After(r, st, h).state, e);
            && (NotifyFiring in sent <==> !fired && fires && !e.muted && !e.maintenance)
            && (DeclareIncident in sent <==> !fired && fires && !e.maintenance)
            && (Dispatch in sent <==> !fired && fires && r.hasAction && !e.maintenance)
            && (NotifyResolved in sent <==> fired && !fires && !e.muted && !e.maintenance)
            && (ResolveIncident in sent <==> fired && !fires)
  {
    var n, st := |h| - 1, Standing(Ok, start);
    StateIsStreak(r, start, h[..n]);
    StateIsStreak(r, start, h);
    SentBy(r, After(r, st, h[..n]).state, After(r, st, h).state, h[n]);
  }

  lemma SentBy(r: Rule, from: State, to: State, e: Eval)
    requires from == Firing ==> to != Pending
    ensures var s := Effects(r, from, to, e);
            var began, ended := from != Firing && to == Firing, from == Firing && to != Firing;
            && (NotifyFiring in s <==> began && !e.muted && !e.maintenance)
            && (DeclareIncident in s <==> began && !e.maintenance)
            && (Dispatch in s <==> began && r.hasAction && !e.maintenance)
            && (NotifyResolved in s <==> ended && !e.muted && !e.maintenance)
            && (ResolveIncident in s <==> ended)
  {
    var head := [Event(from, to, e.maintenance)];
    if from != to && to == Firing {
      var a := if !e.muted && !e.maintenance then [NotifyFiring] else [];
      var b := if !e.maintenance then [DeclareIncident] else [];
      var c := if r.hasAction && !e.maintenance then [Dispatch] else [];
      assert Effects(r, from, to, e) == head + (a + b + c);
    } else if from == Firing && to == Ok {
      var a := if !e.muted && !e.maintenance then [NotifyResolved] else [];
      assert Effects(r, from, to, e) == head + (a + [ResolveIncident]);
    } else if from != to {
      assert Effects(r, from, to, e) == head;
    }
  }

  /** A failed evaluation changes and sends nothing. */
  lemma FailuresChangeNothing(r: Rule, start: Standing, h: seq<Eval>, e: Eval)
    requires e.value.None?
    ensures After(r, start, h + [e]) == After(r, start, h)
    ensures Sent(r, start, h + [e]) == Sent(r, start, h)
  {
    assert (h + [e])[..|h|] == h;
  }

  // ----------------------------------------------------------------- pages and incidents

  /** The transitions among the effects: +1 into firing, -1 from firing to ok. */
  function Balance(s: seq<Effect>): int {
    if s == [] then 0
    else
      var n := |s| - 1;
      Balance(s[..n]) +
        (if s[n].Event? && s[n].to == Firing then 1
         else if s[n].Event? && s[n].from == Firing && s[n].to == Ok then -1 else 0)
  }

  lemma {:induction false} BalanceAppend(a: seq<Effect>, b: seq<Effect>)
    ensures Balance(a + b) == Balance(a) + Balance(b)
    decreases |b|
  {
    if b == [] {
      assert a + b == a;
    } else {
      assert (a + b)[..|a + b| - 1] == a + b[..|b| - 1];
      BalanceAppend(a, b[..|b| - 1]);
    }
  }

  /** Over every run, transitions into firing minus transitions from firing to ok is 1 when the
      rule is firing and 0 otherwise. */
  lemma {:induction false} FiringsBalance(r: Rule, start: int, h: seq<Eval>)
    ensures Balance(Sent(r, Standing(Ok, start), h)) == if After(r, Standing(Ok, start), h).state == Firing then 1 else 0
    decreases |h|
  {
    if h != [] {
      var n, st := |h| - 1, Standing(Ok, start);
      FiringsBalance(r, start, h[..n]);
      var from, to := After(r, st, h[..n]).state, After(r, st, h).state;
      BalanceAppend(Sent(r, st, h[..n]), Effects(r, from, to, h[n]));
      EffectsBalance(r, from, to, h[n]);
    }
  }

  lemma EffectsBalance(r: Rule, from: State, to: State, e: Eval)
    requires from == Firing ==> to != Pending
    ensures Balance(Effects(r, from, to, e)) == (if to == Firing then 1 else 0) - (if from == Firing then 1 else 0)
  {
    if from != to {
      var first, rest := [Event(from, to, e.maintenance)], Effects(r, from, to, e)[1..];
      assert Effects(r, from, to, e) == first + rest;
      BalanceAppend(first, rest);
      assert first[..0] == [];
      NoTransitions(rest);
    }
  }

  lemma {:induction false} NoTransitions(s: seq<Effect>)
    requires forall x | x in s :: !x.Event?
    ensures Balance(s) == 0
    decreases |s|
  {
    if s != [] { NoTransitions(s[..|s| - 1]); }
  }

  /** What has been sent in the current episode.  `open` between a transition into firing and
      the one back to ok, `closing` right after the latter. */
  datatype Ledger = Ledger(open: bool, closing: bool, quiet: bool, paged: bool, declared: bool, dispatched: bool,
                           resolvedPaged: bool, resolved: bool)

  const CLOSED: Ledger := Ledger(false, false, false, false, false, false, false, false)

  /** The ledger after one more effect; none when the effect is out of order: a page,
      declaration or dispatch outside an episode, twice in one, or in maintenance, a
      resolution that does not follow the end of an episode or comes twice, an episode opened
      twice or closed unopened. */
  function Enter(l: Ledger, x: Effect): Option<Ledger> {
    match x
    case Event(from, to, suppressed) =>
      if to == Firing then
        if l.open then None else Some(CLOSED.(open := true, quiet := suppressed))
      else if from == Firing then
        if l.open then Some(CLOSED.(closing := true, quiet := suppressed)) else None
      else if l.open then None
      else Some(CLOSED)
    case NotifyFiring => if l.open && !l.paged && !l.quiet then Some(l.(paged := true)) else None
    case DeclareIncident => if l.open && !l.declared && !l.quiet then Some(l.(declared := true)) else None
    case Dispatch => if l.open && !l.dispatched && !l.quiet then Some(l.(dispatched := true)) else None
    case NotifyResolved => if l.closing && !l.resolvedPaged && !l.quiet then Some(l.(resolvedPaged := true)) else None
    case ResolveIncident => if l.closing && !l.resolved then Some(l.(resolved := true)) else None
  }

  function LedgerOf(l: Ledger, s: seq<Effect>): Option<Ledger>
    decreases |s|
  {
    if s == [] then Some(l)
    else
      match Enter(l, s[0])
      case None => None
      case Some(l') => LedgerOf(l', s[1..])
  }

  lemma {:induction false} LedgerAppend(l: Ledger, a: seq<Effect>, b: seq<Effect>)
    requires LedgerOf(l, a).Some?
    ensures LedgerOf(l, a + b) == LedgerOf(LedgerOf(l, a).value, b)
    decreases |a|
  {
    if a == [] {
      assert a + b == b;
    } else {
      assert (a + b)[1..] == a[1..] + b;
      LedgerAppend(Enter(l, a[0]).value, a[1..], b);
    }
  }

  lemma LedgerOne(l: Ledger, x: Effect, wanted: bool)
    ensures LedgerOf(l, if wanted then [x] else []) == if wanted then Enter(l, x) else Some(l)
  {}

  lemma EffectsInOrder(r: Rule, from: State, to: State, e: Eval, l: Ledger)
    requires l.open <==> from == Firing
    requires from == Firing ==> to != Pending
    ensures var l' := LedgerOf(l, Effects(r, from, to, e));
            l'.Some? && (l'.value.open <==> to == Firing)
  {
    if from != to {
      var l1 := Enter(l, Event(from, to, e.maintenance)).value;
      var head := [Event(from, to, e.maintenance)];
      LedgerOne(l, head[0], true);
      if to == Firing {
        var a := if !e.muted && !e.maintenance then [NotifyFiring] else [];
        var b := if !e.maintenance then [DeclareIncident] else [];
        var c := if r.hasAction && !e.maintenance then [Dispatch] else [];
        LedgerOne(l1, NotifyFiring, a != []);
        var l2 := LedgerOf(l1, a).value;
        LedgerOne(l2, DeclareIncident, b != []);
        var l3 := LedgerOf(l2, b).value;
        LedgerOne(l3, Dispatch, c != []);
        LedgerAppend(l1, a, b);
        LedgerAppend(l1, a + b, c);
        LedgerAppend(l, head, a + b + c);
        assert head + (a + b + c) == Effects(r, from, to, e);
      } else if from == Firing {
        var a := if !e.muted && !e.maintenance then [NotifyResolved] else [];
        LedgerOne(l1, NotifyResolved, a != []);
        LedgerOne(LedgerOf(l1, a).value, ResolveIncident, true);
        LedgerAppend(l1, a, [ResolveIncident]);
        LedgerAppend(l, head, a + [ResolveIncident]);
        assert head + (a + [ResolveIncident]) == Effects(r, from, to, e);
      } else {
        assert Effects(r, from, to, e) == head;
      }
    }
  }

  /** Pages and incidents follow their own episode: in everything a rule ever sends, each page,
      declaration and dispatch belongs to one open episode, at most once and never in
      maintenance, and each resolution directly follows the end of an episode. */
  lemma {:induction false} EffectsFollowEpisodes(r: Rule, start: int, h: seq<Eval>)
    ensures var l := LedgerOf(CLOSED, Sent(r, Standing(Ok, start), h));
            l.Some? && (l.value.open <==> After(r, Standing(Ok, start), h).state == Firing)
    decreases |h|
  {
    if h != [] {
      var n, st := |h| - 1, Standing(Ok, start);
      EffectsFollowEpisodes(r, start, h[..n]);
      var before := Sent(r, st, h[..n]);
      var from, to := After(r, st, h[..n]).state, After(r, st, h).state;
      EffectsInOrder(r, from, to, h[n], LedgerOf(CLOSED, before).value);
      LedgerAppend(CLOSED, before, Effects(r, from, to, h[n]));
    }
  }
}
