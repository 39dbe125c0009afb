/** A producer's log meets the summarizer: which windows of a complete log it passes, and which
    losses the summaries and the chaining together accept. */
module ProducerWindows {
  import opened Telemetry
  import opened TelemetryWindows
  import opened LegacyTelemetryLog
  import opened ProcessLosses
  import opened Sorting

  lemma CompleteLogIsContinuous(r: Recorder, calls: seq<Call>, cuts: seq<int>)
    requires ClockNeverFalls(calls)
    ensures var ws := Windows(Log(r, calls), cuts); EveryWindowContinuous(ws) && EveryWindowAdvances(ws)
  {
    var log := Log(r, calls);
    var ts := Timed(Windows(log, cuts));
    LogIsSorted(r, calls);
    ByTimeOfSorted(log);
    ByTimeOfWindows(log, cuts);
    LogIsNumbered(r, calls);
    LogAdvances(r, calls);
    forall k ensures EachConsecutive(ts, k) {
      NumberedCounts(log, k);
      RouteSplits(ts, k);
    }
    EachIsEveryWindow(Windows(log, cuts));
    forall p ensures EachAdvances(ts, p) {
      if p != ProcessKey(API, r.process) { OtherProcessesAreAbsent(r, calls, p); }
      DeprecatedSplits(ts, p);
    }
    EachIsEveryAdvance(Windows(log, cuts));
  }

  lemma {:induction false} LogEventIsValidIff(r: Recorder, calls: seq<Call>, e: Event)
    requires e in Log(r, calls)
    ensures Acceptable(e) <==> r.salted && ValidVerb(e.verb) && 100 <= e.status <= 599
    decreases |calls|
  {
    var front, last := calls[..|calls| - 1], calls[|calls| - 1];
    if e in Log(r, front) {
      LogEventIsValidIff(r, front, e);
    } else {
      EventIsValidIff(r, calls);
    }
  }

  /** Every request had a verb of three to ten capitals and an HTTP status, and the recorder a salt. */
  ghost predicate AllPlain(r: Recorder, w: seq<Event>)
  {
    forall e :: e in w ==> r.salted && ValidVerb(e.verb) && 100 <= e.status <= 599
  }

  ghost predicate AllWithin(w: seq<Event>, start: int, end: int) { forall e :: e in w ==> start <= e.at < end }

  lemma AdmissibleParts(w: seq<Event>, start: int, end: int)
    ensures Admissible(w, start, end) <==> start < end && w != [] && AllWithin(w, start, end) && AllValid(w)
  {
  }

  lemma AdmissibleIffPlain(r: Recorder, calls: seq<Call>, cuts: seq<int>, i: nat, start: int, end: int)
    requires i <= |cuts|
    ensures var w := Windows(Log(r, calls), cuts)[i];
      Admissible(w, start, end) <==> start < end && w != [] && AllWithin(w, start, end) && AllPlain(r, w)
  {
    var w := Windows(Log(r, calls), cuts)[i];
    WindowEvents(Log(r, calls), cuts, i);
    AdmissibleParts(w, start, end);
    AllValidHere(r, calls, w);
  }

  lemma AllValidHere(r: Recorder, calls: seq<Call>, w: seq<Event>)
    requires forall e :: e in w ==> e in Log(r, calls)
    ensures AllValid(w) <==> AllPlain(r, w)
  {
    if AllValid(w) {
      forall e | e in w ensures r.salted && ValidVerb(e.verb) && 100 <= e.status <= 599 { LogEventIsValidIff(r, calls, e); }
    }
    if AllPlain(r, w) {
      forall e | e in w ensures Acceptable(e) { LogEventIsValidIff(r, calls, e); }
    }
  }

  lemma CompleteWindow(r: Recorder, calls: seq<Call>, cuts: seq<int>, i: nat)
    requires ClockNeverFalls(calls) && i <= |cuts|
    ensures var w := ByTime(Windows(Log(r, calls), cuts)[i]); RoutesContinuous(w) && DeprecatedContinuous(w)
  {
    CompleteLogIsContinuous(r, calls, cuts);
    assert Windows(Log(r, calls), cuts)[i] in Windows(Log(r, calls), cuts);
  }

  /** A window cut from a complete log is summarised exactly when it is not empty, its bounds hold
      its events, the recorder is salted and every request in it had a plain verb and an HTTP
      status: with an undisturbed clock the counters never stand in the way. */
  lemma WindowPassesIff(r: Recorder, calls: seq<Call>, cuts: seq<int>, i: nat, start: int, end: int)
    requires ClockNeverFalls(calls) && i <= |cuts|
    ensures var w := Windows(Log(r, calls), cuts)[i];
      Passes(w, start, end) <==> start < end && w != [] && AllWithin(w, start, end) && AllPlain(r, w)
  {
    CompleteWindow(r, calls, cuts, i);
    AdmissibleIffPlain(r, calls, cuts, i, start, end);
  }

  // ---------------------------------------------------------------------------------------
  // Logs with losses

  /** Window `i` runs from bound `i` to bound `i + 1`. */
  function Schedule(start: int, cuts: seq<int>, end: int): seq<int> { [start] + cuts + [end] }

  /** Windows of positive length that cover the log. */
  ghost predicate Covers(start: int, cuts: seq<int>, end: int, log: seq<Event>)
  {
    var b := Schedule(start, cuts, end);
    && (forall i :: 0 <= i <= |cuts| ==> b[i] < b[i + 1])
    && forall e :: e in log ==> start <= e.at < end
  }

  ghost predicate EverySummaryPasses(lines: seq<Event>, start: int, cuts: seq<int>, end: int)
  {
    var b := Schedule(start, cuts, end);
    forall i :: 0 <= i <= |cuts| ==> Passes(Windows(lines, cuts)[i], b[i], b[i + 1])
  }

  lemma {:induction false} WindowOfBounds(cuts: seq<int>, at: int)
    ensures WindowOf(cuts, at) <= |cuts|
    ensures WindowOf(cuts, at) > 0 ==> cuts[WindowOf(cuts, at) - 1] <= at
    ensures WindowOf(cuts, at) < |cuts| ==> at < cuts[WindowOf(cuts, at)]
    decreases |cuts|
  {
    if cuts != [] && at >= cuts[0] { WindowOfBounds(cuts[1..], at); }
  }

  lemma {:induction false} InItsWindow(lines: seq<Event>, cuts: seq<int>, e: Event)
    requires e in lines
    ensures WindowOf(cuts, e.at) <= |cuts| && e in Windows(lines, cuts)[WindowOf(cuts, e.at)]
    decreases |cuts|
  {
    if cuts != [] && e.at >= cuts[0] { InItsWindow(Filter(FromTime(cuts[0]), lines), cuts[1..], e); }
  }

  lemma InBounds(lines: seq<Event>, start: int, cuts: seq<int>, end: int, i: nat, e: Event)
    requires Covers(start, cuts, end, lines) && i <= |cuts| && e in Windows(lines, cuts)[i]
    ensures e in lines && var b := Schedule(start, cuts, end); b[i] <= e.at < b[i + 1]
  {
    WindowEvents(lines, cuts, i);
    WindowsArePlaced(lines, cuts, i, e);
    WindowOfBounds(cuts, e.at);
  }

  /** Every window still holds a line. */
  ghost predicate NoneEmptied(lines: seq<Event>, cuts: seq<int>)
  {
    forall i :: 0 <= i <= |cuts| ==> Windows(lines, cuts)[i] != []
  }

  ghost predicate AllValid(lines: seq<Event>) { forall e :: e in lines ==> Acceptable(e) }

  lemma AdmissibleIff(lines: seq<Event>, start: int, cuts: seq<int>, end: int, i: nat)
    requires Covers(start, cuts, end, lines) && i <= |cuts|
    ensures var w, b := Windows(lines, cuts)[i], Schedule(start, cuts, end);
      Admissible(w, b[i], b[i + 1]) <==> w != [] && AllValid(w)
  {
    forall e | e in Windows(lines, cuts)[i]
      ensures var b := Schedule(start, cuts, end); b[i] <= e.at < b[i + 1]
    {
      InBounds(lines, start, cuts, end, i, e);
    }
  }

  ghost predicate EachValid(ws: seq<seq<Event>>)
  {
    forall i :: 0 <= i < |ws| ==> AllValid(ws[i])
  }

  lemma AllValidIff(lines: seq<Event>, cuts: seq<int>)
    ensures AllValid(lines) <==> EachValid(Windows(lines, cuts))
  {
    var ws := Windows(lines, cuts);
    if AllValid(lines) {
      forall i | 0 <= i < |ws| ensures AllValid(ws[i]) { WindowEvents(lines, cuts, i); }
    }
    if EachValid(ws) {
      forall e | e in lines ensures Acceptable(e) {
        InItsWindow(lines, cuts, e);
        assert AllValid(ws[WindowOf(cuts, e.at)]);
      }
    }
  }

  /** For any lines that the schedule covers: every window is summarised exactly when none is empty,
      every line is valid and both counters are continuous in every window. */
  lemma SummariesPassIff(lines: seq<Event>, start: int, cuts: seq<int>, end: int)
    requires Covers(start, cuts, end, lines)
    ensures EverySummaryPasses(lines, start, cuts, end) <==>
      NoneEmptied(lines, cuts) && AllValid(lines)
      && EveryWindowContinuous(Windows(lines, cuts)) && EveryWindowAdvances(Windows(lines, cuts))
  {
    var ws, b := Windows(lines, cuts), Schedule(start, cuts, end);
    AllValidIff(lines, cuts);
    forall i: nat | i <= |cuts| ensures Admissible(ws[i], b[i], b[i + 1]) <==> ws[i] != [] && AllValid(ws[i]) {
      AdmissibleIff(lines, start, cuts, end, i);
    }
    if EverySummaryPasses(lines, start, cuts, end) {
      forall w | w in ws ensures RoutesContinuous(ByTime(w)) && DeprecatedContinuous(ByTime(w)) {
        var i :| 0 <= i < |ws| && ws[i] == w;
        assert Passes(ws[i], b[i], b[i + 1]);
      }
      forall i: nat | i <= |cuts| ensures ws[i] != [] && AllValid(ws[i]) { assert Passes(ws[i], b[i], b[i + 1]); }
    } else {
      var i :| 0 <= i <= |cuts| && !Passes(ws[i], b[i], b[i + 1]);
      assert ws[i] in ws;
    }
  }

  /** Some survivor lies in each window. */
  ghost predicate EachWindowKeepsOne(log: seq<Event>, keep: seq<bool>, cuts: seq<int>)
    requires |keep| == |log|
  {
    forall i :: 0 <= i <= |cuts| ==> KeepsOne(log, keep, cuts, i)
  }

  ghost predicate KeepsOne(log: seq<Event>, keep: seq<bool>, cuts: seq<int>, i: int)
    requires |keep| == |log|
  {
    exists j :: 0 <= j < |log| && keep[j] && WindowOf(cuts, log[j].at) == i
  }

  lemma {:induction false} SurvivorIsKept(log: seq<Event>, keep: seq<bool>, j: nat)
    requires |keep| == |log| && j < |log| && keep[j]
    ensures log[j] in Kept(log, keep)
    decreases |log|
  {
    var n := |log| - 1;
    if j < n { SurvivorIsKept(log[..n], keep[..n], j); }
  }

  lemma {:induction false} KeptSurvives(log: seq<Event>, keep: seq<bool>, e: Event) returns (j: nat)
    requires |keep| == |log| && e in Kept(log, keep)
    ensures j < |log| && keep[j] && log[j] == e
    decreases |log|
  {
    var n := |log| - 1;
    if keep[n] && log[n] == e { j := n; } else { j := KeptSurvives(log[..n], keep[..n], e); }
  }

  lemma EmptiedIff(log: seq<Event>, keep: seq<bool>, cuts: seq<int>, i: nat)
    requires |keep| == |log| && i <= |cuts|
    ensures Windows(Kept(log, keep), cuts)[i] != [] <==> KeepsOne(log, keep, cuts, i)
  {
    var w := Windows(Kept(log, keep), cuts)[i];
    if w != [] {
      assert w[0] in w;
      WindowsArePlaced(Kept(log, keep), cuts, i, w[0]);
      WindowEvents(Kept(log, keep), cuts, i);
      var j := KeptSurvives(log, keep, w[0]);
    }
    if j :| 0 <= j < |log| && keep[j] && WindowOf(cuts, log[j].at) == i {
      SurvivorIsKept(log, keep, j);
      InItsWindow(Kept(log, keep), cuts, log[j]);
    }
  }

  /** The requests of the survivors had plain verbs and HTTP statuses, and the recorder a salt. */
  ghost predicate SurvivorsPlain(r: Recorder, log: seq<Event>, keep: seq<bool>)
    requires |keep| == |log|
  {
    forall j :: 0 <= j < |log| && keep[j] ==> r.salted && ValidVerb(log[j].verb) && 100 <= log[j].status <= 599
  }

  lemma KeptIsValidIff(r: Recorder, calls: seq<Call>, keep: seq<bool>)
    requires |keep| == |Log(r, calls)|
    ensures AllValid(Kept(Log(r, calls), keep)) <==> SurvivorsPlain(r, Log(r, calls), keep)
  {
    var log := Log(r, calls);
    forall e | e in log ensures Acceptable(e) <==> r.salted && ValidVerb(e.verb) && 100 <= e.status <= 599 {
      LogEventIsValidIff(r, calls, e);
    }
    if AllValid(Kept(log, keep)) {
      forall j: nat | j < |log| && keep[j] ensures Acceptable(log[j]) { SurvivorIsKept(log, keep, j); }
    }
    if SurvivorsPlain(r, log, keep) {
      forall e | e in Kept(log, keep) ensures Acceptable(e) { var j := KeptSurvives(log, keep, e); }
    }
  }

  lemma KeptIsCovered(log: seq<Event>, keep: seq<bool>, start: int, cuts: seq<int>, end: int)
    requires |keep| == |log| && Covers(start, cuts, end, log)
    ensures Covers(start, cuts, end, Kept(log, keep))
  {
    KeptMembers(log, keep);
  }

  /** What is accepted of a producer's log with losses: every window is summarised and the chaining
      reports nothing exactly when no window is emptied, every survivor was a plain request of a
      salted recorder, no lost event lies between two survivors of its route, and between
      neighbouring survivors no attempt is lost that a cut and a probe do not hide. */
  lemma LossIsAcceptedIff(r: Recorder, calls: seq<Call>, keep: seq<bool>, start: int, cuts: seq<int>, end: int, days: seq<Day>)
    requires ClockNeverFalls(calls) && |keep| == |Log(r, calls)| && Covers(start, cuts, end, Log(r, calls))
    requires ListAll(days, Timed(Windows(Kept(Log(r, calls), keep), cuts)))
    ensures EverySummaryPasses(Kept(Log(r, calls), keep), start, cuts, end) && NoRouteGap(days) && NoDeprecatedGap(days) <==>
      EachWindowKeepsOne(Log(r, calls), keep, cuts) && SurvivorsPlain(r, Log(r, calls), keep)
      && !HasHole(Log(r, calls), keep)
      && forall i: nat, l: nat :: Neighbours(keep, i, l) ==> Unseen(Log(r, calls), cuts, i, l)
  {
    var log := Log(r, calls);
    KeptIsCovered(log, keep, start, cuts, end);
    SummariesPassIff(Kept(log, keep), start, cuts, end);
    KeptIsValidIff(r, calls, keep);
    forall i: nat | i <= |cuts| ensures Windows(Kept(log, keep), cuts)[i] != [] <==> KeepsOne(log, keep, cuts, i) {
      EmptiedIff(log, keep, cuts, i);
    }
    LossIsUnseenIff(r, calls, keep, cuts, days);
  }

  /** And then the evaluation does not raise: whenever every window of such a log is summarised, its
      day is consistent. */
  lemma AcceptedDaysAreConsistent(r: Recorder, calls: seq<Call>, keep: seq<bool>, start: int, cuts: seq<int>, end: int, days: seq<Day>)
    requires |keep| == |Log(r, calls)| && EverySummaryPasses(Kept(Log(r, calls), keep), start, cuts, end)
    requires ListAll(days, Timed(Windows(Kept(Log(r, calls), keep), cuts)))
    ensures forall d :: d in days ==> !Inconsistent(d)
  {
    var ws, b := Windows(Kept(Log(r, calls), keep), cuts), Schedule(start, cuts, end);
    CountsArePositive(r, calls);
    KeptMembers(Log(r, calls), keep);
    forall d | d in days ensures !Inconsistent(d) {
      var i :| 0 <= i < |days| && days[i] == d;
      WindowEvents(Kept(Log(r, calls), keep), cuts, i);
      ByTimeMembers(ws[i]);
      assert Lists(d, Timed(ws)[i]) && Passes(ws[i], b[i], b[i + 1]);
      PassedWindowRaisesIff(ByTime(ws[i]), d);
    }
  }
}
