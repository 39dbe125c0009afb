/** The rules of a journey, spelled out: which events lead where, from where, and in which order they
    are taken. */
module JourneyRules {
  import opened Journey
  import opened JourneyProjection
  import opened Sorting
  import opened TextOrder
  import opened Wrappers

  // ---------------------------------------------------------------------------------------
  // One event

  /** The funnel: the states that a journey goes through in this order, if it does. */
  const FUNNEL := [Anonymous, Lead, Engaged, Mql, Sql, Appointment, SiteVisit, Negotiation, Won, Customer]

  /** State `b` lies further down the funnel than `a`. */
  ghost predicate Further(a: State, b: State)
  {
    exists i, j :: 0 <= i < j < |FUNNEL| && FUNNEL[i] == a && FUNNEL[j] == b
  }

  /** Declarations that are trusted: of six states, on a stage change or a closed sale, by EspoCRM or,
      except for a lost or won customer, by the Sales Hub. */
  predicate TrustedFor(e: Event, s: State)
  {
    && e.declaration == Declares(s)
    && (e.kind == OpportunityStageChanged || e.kind == SaleClosed)
    && s in {Mql, Appointment, SiteVisit, Lost, Customer, Reengagement}
    && (e.source == EspoCrm || (e.source == SalesHub && s in {Mql, Appointment, SiteVisit, Reengagement}))
  }

  /** Where an event leads: to the state it is trusted to declare, or, if it declares nothing, to what
      its kind stands for; an advertisement or page view counts once there is a lead. */
  ghost predicate LeadsTo(e: Event, current: State, s: State)
  {
    || TrustedFor(e, s)
    || (e.declaration == NotDeclared && s == Lead && (e.kind == FormSubmit || e.kind == LeadCreated))
    || (e.declaration == NotDeclared && s == Sql && e.kind == OpportunityCreated)
    || (e.declaration == NotDeclared && s == Negotiation && e.kind == OpportunityStageChanged)
    || (e.declaration == NotDeclared && s == Won && e.kind == SaleClosed)
    || (e.declaration == NotDeclared && s == Engaged && (e.kind == AdClick || e.kind == LandingView)
        && current !in {Anonymous, Lost, Reengagement})
  }

  /** Down the funnel, from anywhere before a sale to LOST, and from LOST or CUSTOMER to REENGAGEMENT. */
  ghost predicate Permits(current: State, s: State)
  {
    || Further(current, s)
    || (s == Lost && current !in {Lost, Won, Customer, Reengagement})
    || (s == Reengagement && current in {Lost, Customer})
  }

  lemma FunnelRank(i: nat)
    requires i < 10
    ensures Linear(FUNNEL[i]) && Rank(FUNNEL[i]) == i
  {
  }

  lemma FunnelOfRank(s: State)
    requires Linear(s)
    ensures FUNNEL[Rank(s)] == s
  {
  }

  lemma FurtherIff(a: State, b: State)
    ensures Further(a, b) <==> Linear(a) && Linear(b) && Rank(a) < Rank(b)
  {
    if Further(a, b) {
      var i, j :| 0 <= i < j < |FUNNEL| && FUNNEL[i] == a && FUNNEL[j] == b;
      FunnelRank(i);
      FunnelRank(j);
    }
    if Linear(a) && Linear(b) {
      FunnelOfRank(a);
      FunnelOfRank(b);
    }
  }

  lemma PermitsIff(current: State, s: State)
    ensures Permits(current, s) <==> Allowed(current, s)
  {
    FurtherIff(current, s);
  }

  lemma LeadsIff(e: Event, current: State, s: State)
    ensures LeadsTo(e, current, s) <==> TargetOf(e, current) == Some(s)
  {
  }

  /** Evidence that is not trusted: a declaration that is malformed, of another state, on another kind
      of event or from another source. */
  ghost predicate Distrusted(e: Event) { e.declaration != NotDeclared && forall s :: !TrustedFor(e, s) }

  lemma DistrustedIff(e: Event)
    ensures Distrusted(e) <==> Untrusted(e)
  {
    if e.declaration.Declares? { assert TrustedFor(e, e.declaration.state) <==> !Untrusted(e); }
  }

  /** `x` is jumped over on the way from `current` to `s`; the way to LOST leads down to NEGOTIATION. */
  ghost predicate Between(current: State, x: State, s: State)
  {
    && Further(current, x)
    && (Further(x, s) || (s == Lost && (x == Negotiation || Further(x, Negotiation))))
  }

  /** The transition from `current` to `s`, with the states it jumps over, in order. */
  ghost predicate Moves(t: Transition, current: State, s: State, e: Event)
  {
    && t.previous == current && t.target == s && t.evidence == e
    && (forall x :: x in t.skipped <==> Between(current, x, s))
    && forall i, j :: 0 <= i < j < |t.skipped| ==> Further(t.skipped[i], t.skipped[j])
  }

  lemma SliceInOrder(lo: nat, hi: nat, i: nat, j: nat)
    requires lo <= hi <= 10 && i < j < hi - lo
    ensures Further(STATE_SEQUENCE[lo..hi][i], STATE_SEQUENCE[lo..hi][j])
  {
    RankOfSequence(lo + i);
    RankOfSequence(lo + j);
    FurtherIff(STATE_SEQUENCE[lo + i], STATE_SEQUENCE[lo + j]);
  }

  lemma SkippedInOrder(previous: State, target: State, i: nat, j: nat)
    requires Allowed(previous, target) && i < j < |SkippedStates(previous, target)|
    ensures Further(SkippedStates(previous, target)[i], SkippedStates(previous, target)[j])
  {
    SliceInOrder(Rank(previous) + 1, if target == Lost then NEGOTIATION_RANK + 1 else Rank(target), i, j);
  }

  lemma BetweenIff(current: State, x: State, s: State)
    requires Allowed(current, s)
    ensures x in SkippedStates(current, s) <==> Between(current, x, s)
  {
    SkippedMembers(current, s, x);
    FurtherIff(current, x);
    FurtherIff(x, Negotiation);
    FurtherIff(x, s);
  }

  lemma SkipMoves(current: State, s: State, e: Event)
    requires Allowed(current, s)
    ensures Moves(Transition(current, s, e, SkippedStates(current, s)), current, s, e)
  {
    var skipped := SkippedStates(current, s);
    forall i, j | 0 <= i < j < |skipped| ensures Further(skipped[i], skipped[j]) { SkippedInOrder(current, s, i, j); }
    forall x ensures x in SkippedStates(current, s) <==> Between(current, x, s) { BetweenIff(current, x, s); }
  }

  /** One more event: if it leads somewhere from the current state and may, the journey moves there, by
      one transition that cites it; otherwise it stays, and the event counts as suppressed if it
      is not trusted or led where it may not. */
  lemma EventRule(events: seq<Event>, e: Event, s: State)
    ensures var before, after := ReplayOf(events), ReplayOf(events + [e]);
      && (LeadsTo(e, before.current, s) && Permits(before.current, s) ==>
            && after.current == s && after.suppressed == before.suppressed && |after.transitions| == |before.transitions| + 1
            && after.transitions[..|before.transitions|] == before.transitions
            && Moves(after.transitions[|before.transitions|], before.current, s, e))
      && (LeadsTo(e, before.current, s) && !Permits(before.current, s) ==>
            after == before.(suppressed := before.suppressed + 1))
      && ((forall x :: !LeadsTo(e, before.current, x)) ==>
            after == before.(suppressed := before.suppressed + if Distrusted(e) then 1 else 0))
  {
    var before := ReplayOf(events);
    assert (events + [e])[..|events|] == events;
    forall x ensures LeadsTo(e, before.current, x) <==> TargetOf(e, before.current) == Some(x) { LeadsIff(e, before.current, x); }
    PermitsIff(before.current, s);
    DistrustedIff(e);
    if LeadsTo(e, before.current, s) && Permits(before.current, s) { SkipMoves(before.current, s, e); }
  }

  /** No event leads to two states. */
  lemma OneTarget(e: Event, current: State, a: State, b: State)
    requires LeadsTo(e, current, a) && LeadsTo(e, current, b)
    ensures a == b
  {
  }

  // ---------------------------------------------------------------------------------------
  // The order of events

  /** Earlier, or at the same time with the lesser id. */
  predicate Precedes(a: Event, b: Event) { a.at < b.at || (a.at == b.at && Before(a.id, b.id)) }

  /** `taken` are the events of `rows`, each as often as listed, in order of time and id. */
  ghost predicate InOrder(rows: seq<Event>, taken: seq<Event>)
  {
    |taken| == |rows| && (forall e :: e in taken <==> e in rows)
    && forall i, j :: 0 <= i < j < |taken| ==> Precedes(taken[i], taken[j])
  }

  /** A projection is the replay of the stored events in order of time and id, from ANONYMOUS; it
      counts the events that are not trusted. */
  lemma ProjectionTakesInOrder(rows: seq<Event>)
    requires DistinctIds(rows)
    ensures var taken := SortList(EventBefore, rows); var p := ProjectionOf(taken);
      && InOrder(rows, taken)
      && p.current == ReplayOf(taken).current && p.transitions == ReplayOf(taken).transitions
      && p.suppressed == ReplayOf(taken).suppressed
      && p.untrusted == |set i | 0 <= i < |taken| && Distrusted(taken[i])|
      && ReplayOf([]) == Replay(Anonymous, [], 0)
  {
    var taken := SortList(EventBefore, rows);
    EventBeforeIsOrder();
    DistinctAreComparable(rows);
    SortListIsAscending(EventBefore, rows);
    forall i, j | 0 <= i < j < |taken| ensures Precedes(taken[i], taken[j]) { assert EventBefore(taken[i], taken[j]); }
    UntrustedCount(taken);
  }

  lemma {:induction false} UntrustedCount(events: seq<Event>)
    ensures CountUntrusted(events) == |set i | 0 <= i < |events| && Distrusted(events[i])|
    decreases |events|
  {
    if events != [] {
      var n := |events| - 1;
      var before, now := set i | 0 <= i < n && Distrusted(events[..n][i]), set i | 0 <= i < |events| && Distrusted(events[i]);
      UntrustedCount(events[..n]);
      DistrustedIff(events[n]);
      assert now == if Distrusted(events[n]) then before + {n} else before;
    }
  }
}
