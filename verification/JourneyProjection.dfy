/** What every journey projection guarantees, for every ledger. */
module JourneyProjection {
  import opened Journey
  import opened Sorting
  import opened TextOrder
  import opened Wrappers

  // ---------------------------------------------------------------------------------------
  // Shape of a run

  /** Transitions link up from ANONYMOUS to `current`, each allowed and with the states it skips. */
  ghost predicate Linked(transitions: seq<Transition>, current: State)
  {
    && current == (if transitions == [] then Anonymous else transitions[|transitions| - 1].target)
    && forall i :: 0 <= i < |transitions| ==> LinkedAt(transitions, i)
  }

  ghost predicate LinkedAt(transitions: seq<Transition>, i: nat)
    requires i < |transitions|
  {
    var t := transitions[i];
    && t.previous == (if i == 0 then Anonymous else transitions[i - 1].target)
    && TargetOf(t.evidence, t.previous) == Some(t.target)
    && Allowed(t.previous, t.target) && t.skipped == SkippedStates(t.previous, t.target)
  }

  lemma {:induction false} ReplayIsLinked(events: seq<Event>)
    ensures var r := ReplayOf(events); Linked(r.transitions, r.current)
    decreases |events|
  {
    if events != [] {
      ReplayIsLinked(events[..|events| - 1]);
      var before, after := ReplayOf(events[..|events| - 1]), ReplayOf(events);
      forall i | 0 <= i < |after.transitions| ensures LinkedAt(after.transitions, i) {
        if i < |before.transitions| { assert LinkedAt(before.transitions, i); }
      }
    }
  }

  /** How far a state lies on every path: allowed transitions only go up. */
  function Position(s: State): nat
  {
    if s == Lost then NEGOTIATION_RANK + 1 else if s == Reengagement then 10 else Rank(s)
  }

  lemma {:induction false} PathRises(transitions: seq<Transition>, current: State)
    requires Linked(transitions, current)
    ensures |transitions| <= Position(current) <= 10
    decreases |transitions|
  {
    if transitions != [] {
      var n := |transitions| - 1;
      assert LinkedAt(transitions, n);
      PathRises(transitions[..n], LinkedPrefix(transitions, current, n));
    }
  }

  /** The state before transition `n`. */
  function LinkedPrefix(transitions: seq<Transition>, current: State, n: nat): (s: State)
    requires Linked(transitions, current) && n < |transitions|
    ensures Linked(transitions[..n], s) && s == transitions[n].previous
  {
    assert LinkedAt(transitions, n);
    assert Linked(transitions[..n], transitions[n].previous) by {
      forall i | 0 <= i < n ensures LinkedAt(transitions[..n], i) {
        assert LinkedAt(transitions, i) && transitions[..n][i] == transitions[i];
        assert i > 0 ==> transitions[..n][i - 1] == transitions[i - 1];
      }
    }
    transitions[n].previous
  }

  /** No run has more than ten transitions, however long the ledger. */
  lemma AtMostTenTransitions(events: seq<Event>)
    ensures |ReplayOf(events).transitions| <= 10
  {
    ReplayIsLinked(events);
    PathRises(ReplayOf(events).transitions, ReplayOf(events).current);
  }

  /** REENGAGEMENT absorbs, LOST leads only there, and the sales states are entered only on an
      accepted declaration from an authoritative source. */
  lemma TransitionsObeyPolicy(events: seq<Event>, i: nat)
    requires i < |ReplayOf(events).transitions|
    ensures var t := ReplayOf(events).transitions[i];
      && t.previous != Reengagement
      && (t.previous == Lost ==> t.target == Reengagement)
      && (SalesState(t.target) ==> Assess(t.evidence) == Accepted(t.target) && Authoritative(t.evidence.source, t.target))
  {
    ReplayIsLinked(events);
    assert LinkedAt(ReplayOf(events).transitions, i);
    TransitionObeysPolicy(ReplayOf(events).transitions[i]);
  }

  lemma TransitionObeysPolicy(t: Transition)
    requires TargetOf(t.evidence, t.previous) == Some(t.target) && Allowed(t.previous, t.target)
    ensures t.previous != Reengagement && (t.previous == Lost ==> t.target == Reengagement)
    ensures SalesState(t.target) ==> Assess(t.evidence) == Accepted(t.target) && Authoritative(t.evidence.source, t.target)
  {
  }

  // ---------------------------------------------------------------------------------------
  // Observed and skipped states

  /** The highest rank that a run to `current` accounts for; REENGAGEMENT adds nothing to the
      state before it. */
  function Reach(transitions: seq<Transition>): nat
  {
    if transitions == [] then 0
    else
      var target := transitions[|transitions| - 1].target;
      if target == Lost then NEGOTIATION_RANK
      else if target == Reengagement then Reach(transitions[..|transitions| - 1])
      else Rank(target)
  }

  lemma SnocStates(before: seq<Transition>, t: Transition)
    ensures Observed(before + [t]) == Observed(before) + {t.target}
    ensures Skipped(before + [t]) == Skipped(before) + set s | s in t.skipped
  {
  }

  lemma RankOfSequence(i: nat)
    requires i < 10
    ensures Linear(STATE_SEQUENCE[i]) && Rank(STATE_SEQUENCE[i]) == i
  {
  }

  lemma SequenceSlice(lo: nat, hi: nat, s: State)
    requires lo <= hi <= 10
    ensures s in STATE_SEQUENCE[lo..hi] <==> Linear(s) && lo <= Rank(s) < hi
  {
    var slice := STATE_SEQUENCE[lo..hi];
    forall i | 0 <= i < |slice| ensures Linear(slice[i]) && lo <= Rank(slice[i]) < hi { RankOfSequence(lo + i); }
    if Linear(s) && lo <= Rank(s) < hi { assert slice[Rank(s) - lo] == s; }
  }

  lemma SkippedMembers(previous: State, target: State, s: State)
    requires Allowed(previous, target)
    ensures s in SkippedStates(previous, target) <==>
      Linear(s) && target != Reengagement && Rank(previous) < Rank(s) < (if target == Lost then NEGOTIATION_RANK + 1 else Rank(target))
  {
    if target != Reengagement {
      var end := if target == Lost then NEGOTIATION_RANK + 1 else Rank(target);
      if Rank(previous) + 1 <= end { SequenceSlice(Rank(previous) + 1, end, s); }
    }
  }

  /** State `s` is accounted for exactly once if it lies between LEAD and the reach of the run. */
  ghost predicate Accounted(transitions: seq<Transition>, s: State)
  {
    AccountedIn(s in Observed(transitions), s in Skipped(transitions), Reach(transitions), s)
  }

  predicate AccountedIn(observed: bool, skipped: bool, reach: nat, s: State)
  {
    && !(observed && skipped)
    && (skipped ==> Linear(s))
    && (Linear(s) ==> (observed || skipped <==> 1 <= Rank(s) <= reach))
  }

  lemma AccountedStep(observed: bool, skipped: bool, reach: nat, t: Transition, s: State)
    requires AccountedIn(observed, skipped, reach, s) && Allowed(t.previous, t.target)
    requires (Linear(t.previous) ==> reach == Rank(t.previous)) && t.skipped == SkippedStates(t.previous, t.target)
    ensures AccountedIn(observed || s == t.target, skipped || s in t.skipped, ReachAfter(reach, t), s)
  {
    SkippedMembers(t.previous, t.target, s);
  }

  function ReachAfter(reach: nat, t: Transition): nat
  {
    if t.target == Lost then NEGOTIATION_RANK else if t.target == Reengagement then reach else Rank(t.target)
  }

  lemma ReachSnoc(before: seq<Transition>, t: Transition)
    ensures Reach(before + [t]) == ReachAfter(Reach(before), t)
  {
    assert (before + [t])[..|before|] == before;
  }

  /** The reach of a run is where its current state lies. */
  ghost predicate ReachFits(transitions: seq<Transition>, current: State)
  {
    && (Linear(current) ==> Reach(transitions) == Rank(current))
    && (current == Lost ==> Reach(transitions) == NEGOTIATION_RANK)
  }

  lemma AccountSnoc(before: seq<Transition>, t: Transition, s: State)
    requires Accounted(before, s) && ReachFits(before, t.previous)
    requires Allowed(t.previous, t.target) && t.skipped == SkippedStates(t.previous, t.target)
    ensures Accounted(before + [t], s) && ReachFits(before + [t], t.target)
  {
    SnocStates(before, t);
    ReachSnoc(before, t);
    AccountedStep(s in Observed(before), s in Skipped(before), Reach(before), t, s);
  }

  /** The last transition of a run, and the run before it. */
  lemma LastTransition(front: seq<Transition>, t: Transition, current: State)
    requires Linked(front + [t], current)
    ensures Linked(front, t.previous) && t.target == current
    ensures Allowed(t.previous, t.target) && t.skipped == SkippedStates(t.previous, t.target)
  {
    var all := front + [t];
    var _ := LinkedPrefix(all, current, |front|);
    assert all[..|front|] == front && all[|front|] == t;
    assert LinkedAt(all, |front|);
  }

  lemma {:induction false} RunAccounts(transitions: seq<Transition>, current: State, s: State)
    requires Linked(transitions, current)
    ensures Accounted(transitions, s) && ReachFits(transitions, current)
    decreases |transitions|
  {
    if transitions != [] {
      var front, t := transitions[..|transitions| - 1], transitions[|transitions| - 1];
      assert transitions == front + [t];
      LastTransition(front, t, current);
      RunAccounts(front, t.previous, s);
      AccountSnoc(front, t, s);
    }
  }

  lemma MissingMembers(transitions: seq<Transition>, s: State)
    ensures s in Missing(transitions) <==>
      Linear(s) && Rank(s) >= 1 && s in Skipped(transitions) && s !in Observed(transitions)
  {
    SequenceSlice(1, 10, s);
    assert STATE_SEQUENCE[1..] == STATE_SEQUENCE[1..10];
  }

  lemma MissingIsSkipped(transitions: seq<Transition>, current: State, s: State)
    requires Linked(transitions, current)
    ensures s in Missing(transitions) <==> s in Skipped(transitions)
    ensures s in Missing(transitions) ==> s !in Observed(transitions)
    ensures Linear(s) ==> (s in Observed(transitions) || s in Missing(transitions) <==> 1 <= Rank(s) <= Reach(transitions))
  {
    RunAccounts(transitions, current, s);
    MissingMembers(transitions, s);
  }

  lemma SequenceIsOrdered()
    ensures Ascending(ByRank, STATE_SEQUENCE[1..])
  {
    forall i, j | 0 <= i < j < |STATE_SEQUENCE[1..]| ensures ByRank(STATE_SEQUENCE[1..][i], STATE_SEQUENCE[1..][j]) {
      RankOfSequence(i + 1);
      RankOfSequence(j + 1);
    }
  }

  lemma MissingIsOrdered(transitions: seq<Transition>)
    ensures Ascending(ByRank, Missing(transitions))
  {
    SequenceIsOrdered();
    FilterKeepsAscending(ByRank, IsMissing(transitions), STATE_SEQUENCE[1..]);
  }

  /** `missing` lists the skipped states and no observed one, and with the observed states it
      covers exactly the linear states from LEAD up to the reach of the run. */
  ghost predicate Partition(transitions: seq<Transition>, missing: seq<State>)
  {
    && Ascending(ByRank, missing)
    && (forall s :: s in missing <==> s in Skipped(transitions))
    && (forall s :: s in missing ==> s !in Observed(transitions))
    && (forall s :: Linear(s) ==> (s in Observed(transitions) || s in missing <==> 1 <= Rank(s) <= Reach(transitions)))
  }

  /** Observed and missing states partition the linear states from LEAD to the furthest state
      reached (to NEGOTIATION for a lost journey); `missing_signals` lists exactly the skipped
      ones, in order of rank. */
  lemma ObservedAndMissingPartition(events: seq<Event>)
    ensures Partition(ReplayOf(events).transitions, ProjectionOf(events).missing)
  {
    ReplayIsLinked(events);
    var r := ReplayOf(events);
    MissingIsOrdered(r.transitions);
    forall s
      ensures s in Missing(r.transitions) <==> s in Skipped(r.transitions)
      ensures s in Missing(r.transitions) ==> s !in Observed(r.transitions)
      ensures Linear(s) ==>
        (s in Observed(r.transitions) || s in Missing(r.transitions) <==> 1 <= Rank(s) <= Reach(r.transitions))
    {
      MissingIsSkipped(r.transitions, r.current, s);
    }
  }

  predicate ByRank(a: State, b: State) { Linear(a) && Linear(b) && Rank(a) < Rank(b) }

  /** What the reach of a run is: the highest rank observed, or NEGOTIATION's once the journey was lost. */
  lemma {:induction false} ReachIsHighest(transitions: seq<Transition>, current: State)
    requires Linked(transitions, current)
    ensures Lost in Observed(transitions) ==> Reach(transitions) == NEGOTIATION_RANK && !Linear(current)
    ensures forall s :: s in Observed(transitions) && Linear(s) ==> Rank(s) <= Reach(transitions)
    ensures transitions != [] && Lost !in Observed(transitions) ==>
      exists s :: s in Observed(transitions) && Linear(s) && Rank(s) == Reach(transitions)
    decreases |transitions|
  {
    if transitions != [] {
      var front, t := transitions[..|transitions| - 1], transitions[|transitions| - 1];
      assert transitions == front + [t];
      LastTransition(front, t, current);
      ReachIsHighest(front, t.previous);
      RunAccounts(front, t.previous, t.previous);
      SnocStates(front, t);
      ReachSnoc(front, t);
      if Linear(t.target) { assert t.target in Observed(transitions); }
    }
  }

  // ---------------------------------------------------------------------------------------
  // Non-interference

  ghost predicate Cited(transitions: seq<Transition>, e: Event)
  {
    exists i :: 0 <= i < |transitions| && transitions[i].evidence == e
  }

  predicate SameJourney(a: Replay, b: Replay) { a.current == b.current && a.transitions == b.transitions }

  lemma StepKeepsSame(a: Replay, b: Replay, e: Event)
    requires SameJourney(a, b)
    ensures SameJourney(Step(a, e), Step(b, e))
  {
  }

  lemma StepCites(r: Replay, e: Event)
    ensures forall x :: Cited(r.transitions, x) ==> Cited(Step(r, e).transitions, x)
    ensures Cited(Step(r, e).transitions, e) || SameJourney(Step(r, e), r)
  {
    var after := Step(r, e);
    forall x | Cited(r.transitions, x) ensures Cited(after.transitions, x) {
      var i :| 0 <= i < |r.transitions| && r.transitions[i].evidence == x;
      assert after.transitions[i].evidence == x;
    }
    if after.transitions != r.transitions { assert after.transitions[|r.transitions|].evidence == e; }
  }

  ghost predicate CitedKept(r: Replay, keep: Event -> bool)
  {
    forall e :: Cited(r.transitions, e) ==> keep(e)
  }

  lemma StepOfKept(a: Replay, b: Replay, e: Event, keep: Event -> bool)
    requires SameJourney(a, b) && CitedKept(Step(b, e), keep)
    ensures CitedKept(b, keep) && SameJourney(if keep(e) then Step(a, e) else a, Step(b, e))
  {
    StepCites(b, e);
    StepKeepsSame(a, b, e);
  }

  /** Events that no transition cites can be removed, any of them: the transitions stay the same. */
  lemma {:induction false} UncitedEventsDoNotMatter(events: seq<Event>, keep: Event -> bool)
    requires CitedKept(ReplayOf(events), keep)
    ensures SameJourney(ReplayOf(Filter(keep, events)), ReplayOf(events))
    decreases |events|
  {
    if events != [] {
      var front, e := events[..|events| - 1], events[|events| - 1];
      assert events == front + [e];
      StepCites(ReplayOf(front), e);
      UncitedEventsDoNotMatter(front, keep);
      KeepSnoc(front, e, keep);
      StepOfKept(ReplayOf(Filter(keep, front)), ReplayOf(front), e, keep);
    }
  }

  lemma KeepSnoc(front: seq<Event>, e: Event, keep: Event -> bool)
    ensures ReplayOf(Filter(keep, front + [e]))
      == if keep(e) then Step(ReplayOf(Filter(keep, front)), e) else ReplayOf(Filter(keep, front))
  {
    FilterSnoc(keep, front, e);
    var kept := Filter(keep, front);
    assert (kept + [e])[..|kept|] == kept;
  }

  lemma CitedIsTrusted(events: seq<Event>, e: Event)
    requires Cited(ReplayOf(events).transitions, e)
    ensures !Untrusted(e)
  {
    ReplayIsLinked(events);
    var t := ReplayOf(events).transitions;
    var i :| 0 <= i < |t| && t[i].evidence == e;
    assert LinkedAt(t, i);
  }

  function CitedBy(transitions: seq<Transition>): Event -> bool
  {
    var citations := set t | t in transitions :: t.evidence;
    (e: Event) => e in citations
  }

  function IsTrusted(): Event -> bool { (e: Event) => !Untrusted(e) }

  /** Removing all untrusted evidence yields the same transitions and final state. */
  lemma UntrustedEvidenceIsInert(events: seq<Event>)
    ensures SameJourney(ReplayOf(Filter(IsTrusted(), events)), ReplayOf(events))
  {
    forall e | Cited(ReplayOf(events).transitions, e) ensures IsTrusted()(e) { CitedIsTrusted(events, e); }
    UncitedEventsDoNotMatter(events, IsTrusted());
  }

  /** The cited events alone reproduce the journey. */
  lemma CitedEvidenceSuffices(events: seq<Event>)
    ensures SameJourney(ReplayOf(Filter(CitedBy(ReplayOf(events).transitions), events)), ReplayOf(events))
  {
    var t := ReplayOf(events).transitions;
    forall e | Cited(t, e) ensures CitedBy(t)(e) {
      var i :| 0 <= i < |t| && t[i].evidence == e;
      assert t[i] in t;
    }
    UncitedEventsDoNotMatter(events, CitedBy(t));
  }

  lemma DistinctAreComparable(rows: seq<Event>)
    requires DistinctIds(rows)
    ensures Comparable(EventBefore, rows)
  {
    BeforeIsTotal();
  }

  /** The projection depends only on which events are stored, not on the order they are listed in. */
  lemma OrderDoesNotMatter(rows: seq<Event>, others: seq<Event>)
    requires DistinctIds(rows) && DistinctIds(others) && forall e :: e in rows <==> e in others
    ensures SortList(EventBefore, rows) == SortList(EventBefore, others)
    ensures ProjectionOf(SortList(EventBefore, rows)) == ProjectionOf(SortList(EventBefore, others))
  {
    EventBeforeIsOrder();
    DistinctAreComparable(rows);
    DistinctAreComparable(others);
    SortListIsAscending(EventBefore, rows);
    SortListIsAscending(EventBefore, others);
    AscendingIsUnique(EventBefore, SortList(EventBefore, rows), SortList(EventBefore, others));
  }

  lemma {:induction false} ReplayExtends(a: seq<Event>, b: seq<Event>)
    ensures ReplayOf(a).transitions <= ReplayOf(a + b).transitions
    decreases |b|
  {
    if b == [] {
      assert a + b == a;
    } else {
      ReplayExtends(a, b[..|b| - 1]);
      assert (a + b)[..|a + b| - 1] == a + b[..|b| - 1];
    }
  }

  lemma LaterRowsSortLast(rows: seq<Event>, later: seq<Event>)
    requires DistinctIds(rows + later)
    requires forall x, y :: x in rows && y in later ==> EventBefore(x, y)
    ensures SortList(EventBefore, rows + later) == SortList(EventBefore, rows) + SortList(EventBefore, later)
  {
    EventBeforeIsOrder();
    DistinctAreComparable(rows + later);
    PartsAreComparable(rows, later);
    SortListIsAscending(EventBefore, rows);
    SortListIsAscending(EventBefore, later);
    SortListIsAscending(EventBefore, rows + later);
    var joined := SortList(EventBefore, rows) + SortList(EventBefore, later);
    forall i, j | 0 <= i < j < |joined| ensures EventBefore(joined[i], joined[j]) {
      if i < |rows| && j >= |rows| {
        assert joined[i] in SortList(EventBefore, rows) && joined[j] in SortList(EventBefore, later);
      }
    }
    AscendingIsUnique(EventBefore, SortList(EventBefore, rows + later), joined);
  }

  lemma PartsAreComparable(rows: seq<Event>, later: seq<Event>)
    requires Comparable(EventBefore, rows + later)
    ensures Comparable(EventBefore, rows) && Comparable(EventBefore, later)
  {
    assert forall i :: 0 <= i < |rows| ==> (rows + later)[i] == rows[i];
    assert forall i :: 0 <= i < |later| ==> (rows + later)[|rows| + i] == later[i];
  }

  /** Events later than all others only extend the list of transitions. */
  lemma LaterEventsExtend(rows: seq<Event>, later: seq<Event>)
    requires DistinctIds(rows + later)
    requires forall x, y :: x in rows && y in later ==> EventBefore(x, y)
    ensures ReplayOf(SortList(EventBefore, rows)).transitions <= ReplayOf(SortList(EventBefore, rows + later)).transitions
  {
    LaterRowsSortLast(rows, later);
    ReplayExtends(SortList(EventBefore, rows), SortList(EventBefore, later));
  }
}
