/** What the producer's clock has to do with the counter checks: the checker sorts the lines by
    their time stamps, so a log without any loss fails as soon as a stamp falls behind the
    counting order. Here is exactly when. */
module ProducerClock {
  import opened Wrappers
  import opened Telemetry
  import opened TelemetryWindows
  import opened LegacyTelemetryLog

  // ---------------------------------------------------------------------------------------
  // Numbers carried by some of the events, and the order they get by time

  function Marks(s: seq<Event>, mark: Event -> Option<int>): seq<int>
    decreases |s|
  {
    if s == [] then []
    else
      var before, m := Marks(s[..|s| - 1], mark), mark(s[|s| - 1]);
      if m.Some? then before + [m.value] else before
  }

  ghost predicate Falls(counts: seq<int>)
  {
    exists x, y :: 0 <= x < y < |counts| && counts[x] > counts[y]
  }

  /** Two marked events that the clock orders otherwise than the log does. */
  predicate Inverted(log: seq<Event>, mark: Event -> Option<int>, i: int, j: int)
  {
    && 0 <= i < j < |log| && log[i].at > log[j].at
    && mark(log[i]).Some? && mark(log[j]).Some?
  }

  lemma MarksSnoc(s: seq<Event>, e: Event, mark: Event -> Option<int>)
    ensures Marks(s + [e], mark) == if mark(e).Some? then Marks(s, mark) + [mark(e).value] else Marks(s, mark)
  {
    assert (s + [e])[..|s|] == s;
  }

  lemma {:induction false} MarksMember(s: seq<Event>, e: Event, mark: Event -> Option<int>)
    requires e in s && mark(e).Some?
    ensures mark(e).value in Marks(s, mark)
    decreases |s|
  {
    if s[|s| - 1] != e {
      MarksMember(s[..|s| - 1], e, mark);
    }
  }

  lemma {:induction false} MarkedBy(s: seq<Event>, v: int, mark: Event -> Option<int>) returns (e: Event)
    requires v in Marks(s, mark)
    ensures e in s && mark(e) == Some(v)
    decreases |s|
  {
    var last := s[|s| - 1];
    if mark(last) == Some(v) {
      e := last;
    } else {
      e := MarkedBy(s[..|s| - 1], v, mark);
    }
  }

  lemma FallsInPrefix(counts: seq<int>, more: seq<int>)
    requires Falls(counts)
    ensures Falls(counts + more)
  {
    var x, y :| 0 <= x < y < |counts| && counts[x] > counts[y];
    assert (counts + more)[x] > (counts + more)[y];
  }

  lemma FallsAtEnd(counts: seq<int>, v: int, n: int)
    requires v in counts && v > n
    ensures Falls(counts + [n])
  {
    var x :| 0 <= x < |counts| && counts[x] == v;
    assert (counts + [n])[x] > (counts + [n])[|counts|];
  }

  /** A fall ends in the front or at the last number. */
  lemma FallSnoc(counts: seq<int>, n: int)
    requires Falls(counts + [n])
    ensures Falls(counts) || exists v :: v in counts && v > n
  {
    var x, y :| 0 <= x < y < |counts + [n]| && (counts + [n])[x] > (counts + [n])[y];
    if y < |counts| {
      assert counts[x] > counts[y];
    } else {
      assert counts[x] in counts && counts[x] > n;
    }
  }

  lemma {:induction false} InsertKeepsFall(s: seq<Event>, e: Event, mark: Event -> Option<int>)
    requires Falls(Marks(s, mark))
    ensures Falls(Marks(InsertByTime(s, e), mark))
    decreases |s|
  {
    if s == [] || s[|s| - 1].at <= e.at {
      MarksSnoc(s, e, mark);
      if mark(e).Some? { FallsInPrefix(Marks(s, mark), [mark(e).value]); }
    } else {
      var front, last := s[..|s| - 1], s[|s| - 1];
      var longer := InsertByTime(front, e);
      MarksSnoc(longer, last, mark);
      if Falls(Marks(front, mark)) {
        InsertKeepsFall(front, e, mark);
        if mark(last).Some? { FallsInPrefix(Marks(longer, mark), [mark(last).value]); }
      } else {
        FallSnoc(Marks(front, mark), mark(last).value);
        var v :| v in Marks(front, mark) && v > mark(last).value;
        var d := MarkedBy(front, v, mark);
        InsertMembers(front, e);
        MarksMember(longer, d, mark);
        FallsAtEnd(Marks(longer, mark), v, mark(last).value);
      }
    }
  }

  lemma {:induction false} InsertMakesFall(s: seq<Event>, e: Event, x: Event, mark: Event -> Option<int>)
    requires SortedByTime(s) && x in s && x.at > e.at
    requires mark(x).Some? && mark(e).Some? && mark(x).value < mark(e).value
    ensures Falls(Marks(InsertByTime(s, e), mark))
    decreases |s|
  {
    var front, last := s[..|s| - 1], s[|s| - 1];
    var i :| 0 <= i < |s| && s[i] == x;
    assert last.at >= x.at;
    var longer := InsertByTime(front, e);
    MarksSnoc(longer, last, mark);
    if last == x {
      InsertMembers(front, e);
      MarksMember(longer, e, mark);
      FallsAtEnd(Marks(longer, mark), mark(e).value, mark(last).value);
    } else {
      assert front[i] == x;
      InsertMakesFall(front, e, x, mark);
      if mark(last).Some? { FallsInPrefix(Marks(longer, mark), [mark(last).value]); }
    }
  }

  lemma {:induction false} InsertKeepsSorted(s: seq<Event>, e: Event)
    requires SortedByTime(s)
    ensures SortedByTime(InsertByTime(s, e))
    decreases |s|
  {
    if s != [] && s[|s| - 1].at > e.at {
      var front, last := s[..|s| - 1], s[|s| - 1];
      InsertKeepsSorted(front, e);
      InsertMembers(front, e);
      var longer := InsertByTime(front, e);
      forall i | 0 <= i < |longer| ensures longer[i].at <= last.at {
        assert longer[i] in longer;
        if longer[i] != e {
          var j :| 0 <= j < |front| && front[j] == longer[i];
          assert s[j].at <= s[|s| - 1].at;
        }
      }
    }
  }

  /** The checker's sort does sort. */
  lemma {:induction false} ByTimeIsSorted(lines: seq<Event>)
    ensures SortedByTime(ByTime(lines))
    decreases |lines|
  {
    if lines != [] {
      ByTimeIsSorted(lines[..|lines| - 1]);
      InsertKeepsSorted(ByTime(lines[..|lines| - 1]), lines[|lines| - 1]);
    }
  }

  /** An inversion of rising marks shows after the sort. */
  lemma {:induction false} InversionFalls(log: seq<Event>, mark: Event -> Option<int>, i: nat, j: nat)
    requires Inverted(log, mark, i, j) && mark(log[i]).value < mark(log[j]).value
    ensures Falls(Marks(ByTime(log), mark))
    decreases |log|
  {
    var front, last := log[..|log| - 1], log[|log| - 1];
    if j < |log| - 1 {
      InversionFalls(front, mark, i, j);
      InsertKeepsFall(ByTime(front), last, mark);
    } else {
      assert front[i] in front;
      ByTimeMembers(front);
      ByTimeIsSorted(front);
      InsertMakesFall(ByTime(front), last, log[i], mark);
    }
  }

  /** Inserting past events of the same mark is appending, as far as the marks go. */
  lemma {:induction false} InsertPastEquals(s: seq<Event>, e: Event, mark: Event -> Option<int>)
    requires forall x :: x in s && x.at > e.at && mark(x).Some? && mark(e).Some? ==> mark(x) == mark(e)
    ensures Marks(InsertByTime(s, e), mark) == Marks(s + [e], mark)
    decreases |s|
  {
    if s != [] && s[|s| - 1].at > e.at {
      var front, last := s[..|s| - 1], s[|s| - 1];
      InsertPastEquals(front, e, mark);
      MarksSnoc(InsertByTime(front, e), last, mark);
      MarksSnoc(front, e, mark);
      MarksSnoc(s, e, mark);
    }
  }

  ghost predicate InversionsAreTies(log: seq<Event>, mark: Event -> Option<int>)
  {
    forall i, j :: Inverted(log, mark, i, j) ==> mark(log[i]) == mark(log[j])
  }

  lemma {:induction false} TiesKeepMarks(log: seq<Event>, mark: Event -> Option<int>)
    requires InversionsAreTies(log, mark)
    ensures Marks(ByTime(log), mark) == Marks(log, mark)
    decreases |log|
  {
    if log != [] {
      var front, last := log[..|log| - 1], log[|log| - 1];
      assert log == front + [last];
      forall i, j | Inverted(front, mark, i, j) ensures mark(front[i]) == mark(front[j]) {
        assert Inverted(log, mark, i, j);
      }
      TiesKeepMarks(front, mark);
      ByTimeMembers(front);
      forall x | x in ByTime(front) && x.at > last.at && mark(x).Some? && mark(last).Some?
        ensures mark(x) == mark(last)
      {
        var i :| 0 <= i < |front| && front[i] == x;
        assert Inverted(log, mark, i, |log| - 1);
      }
      InsertPastEquals(ByTime(front), last, mark);
      MarksSnoc(ByTime(front), last, mark);
      MarksSnoc(front, last, mark);
    }
  }

  // ---------------------------------------------------------------------------------------
  // Routes

  function RouteMark(k: RouteKey): Event -> Option<int>
  {
    (e: Event) => if RouteKeyOf(e) == k then Some(e.routeCount) else None
  }

  lemma {:induction false} RouteCountsAreMarks(log: seq<Event>, k: RouteKey)
    ensures RouteCounts(log, k) == Marks(log, RouteMark(k))
    decreases |log|
  {
    if log != [] { RouteCountsAreMarks(log[..|log| - 1], k); }
  }

  lemma RankRises(log: seq<Event>, i: nat, j: nat)
    requires Numbered(log) && i < j < |log| && RouteKeyOf(log[i]) == RouteKeyOf(log[j])
    ensures log[i].routeCount < log[j].routeCount
  {
    CountsBetween(log, i, j, RouteKeyOf(log[j]));
  }

  lemma {:induction false} RunRises(counts: seq<int>, x: nat, y: nat)
    requires Consecutive(counts) && x < y < |counts|
    ensures counts[x] < counts[y]
    decreases y
  {
    assert counts[y] == counts[y - 1] + 1;
    if x < y - 1 { RunRises(counts, x, y - 1); }
  }

  ghost predicate RoutesInTime(log: seq<Event>)
  {
    forall i, j :: 0 <= i < j < |log| && RouteKeyOf(log[i]) == RouteKeyOf(log[j]) ==> log[i].at <= log[j].at
  }

  lemma InTimeIsConsecutive(log: seq<Event>, k: RouteKey)
    requires Numbered(log) && RoutesInTime(log)
    ensures Consecutive(RouteCounts(ByTime(log), k))
  {
    RouteCountsAreMarks(ByTime(log), k);
    RouteCountsAreMarks(log, k);
    assert InversionsAreTies(log, RouteMark(k));
    TiesKeepMarks(log, RouteMark(k));
    NumberedCounts(log, k);
  }

  lemma FallIsNotConsecutive(counts: seq<int>)
    requires Falls(counts)
    ensures !Consecutive(counts)
  {
    var x, y :| 0 <= x < y < |counts| && counts[x] > counts[y];
    if Consecutive(counts) { RunRises(counts, x, y); assert false; }
  }

  lemma InversionBreaks(log: seq<Event>, i: nat, j: nat)
    requires Numbered(log) && i < j < |log| && RouteKeyOf(log[i]) == RouteKeyOf(log[j]) && log[i].at > log[j].at
    ensures !Consecutive(RouteCounts(ByTime(log), RouteKeyOf(log[i])))
  {
    var k := RouteKeyOf(log[i]);
    RankRises(log, i, j);
    InversionFalls(log, RouteMark(k), i, j);
    RouteCountsAreMarks(ByTime(log), k);
    FallIsNotConsecutive(RouteCounts(ByTime(log), k));
  }

  lemma NumberedOrderIff(log: seq<Event>)
    requires Numbered(log)
    ensures RoutesContinuous(ByTime(log)) <==> RoutesInTime(log)
  {
    if RoutesInTime(log) {
      forall k ensures Consecutive(RouteCounts(ByTime(log), k)) { InTimeIsConsecutive(log, k); }
    } else {
      var i, j :| 0 <= i < j < |log| && RouteKeyOf(log[i]) == RouteKeyOf(log[j]) && log[i].at > log[j].at;
      InversionBreaks(log, i, j);
    }
  }

  /** Whatever the clock does: the route counters of a complete log pass exactly when the stamps
      of each route never fall. */
  lemma RoutesPassIff(r: Recorder, calls: seq<Call>)
    ensures var log := Log(r, calls);
      RoutesContinuous(ByTime(log)) <==>
      forall i, j :: 0 <= i < j < |log| && log[i].route == log[j].route ==> log[i].at <= log[j].at
  {
    var log := Log(r, calls);
    LogIsNumbered(r, calls);
    NumberedOrderIff(log);
    OneProducer(r, calls);
    assert RoutesInTime(log) <==>
      forall i, j :: 0 <= i < j < |log| && log[i].route == log[j].route ==> log[i].at <= log[j].at by {
      forall i, j | 0 <= i < j < |log|
        ensures log[i].route == log[j].route <==> RouteKeyOf(log[i]) == RouteKeyOf(log[j])
      {
        assert log[i] in log && log[j] in log;
      }
    }
  }

  // ---------------------------------------------------------------------------------------
  // The process counter

  lemma {:induction false} OneProducer(r: Recorder, calls: seq<Call>)
    ensures forall e :: e in Log(r, calls) ==> ProcessKeyOf(e) == ProcessKey(API, r.process)
    decreases |calls|
  {
    if calls != [] { OneProducer(r, calls[..|calls| - 1]); }
  }

  lemma {:induction false} TrailOfOne(log: seq<Event>, p: ProcessKey)
    requires forall e :: e in log ==> ProcessKeyOf(e) == p
    ensures Trail(log, p) == log
    ensures forall q :: q != p ==> Trail(log, q) == []
    decreases |log|
  {
    if log != [] {
      TrailOfOne(log[..|log| - 1], p);
      assert log[|log| - 1] in log;
      assert log == log[..|log| - 1] + [log[|log| - 1]];
    }
  }

  /** Attempts and probes in one order: an attempt opens a stage, the probes after it share one. */
  function Stage(e: Event): int { 2 * e.deprecatedCount + if e.deprecatedAttempt then 0 else 1 }

  function StageMark(): Event -> Option<int> { (e: Event) => Some(Stage(e)) }

  lemma {:induction false} MarksOfStages(s: seq<Event>)
    ensures |Marks(s, StageMark())| == |s|
    ensures forall i :: 0 <= i < |s| ==> Marks(s, StageMark())[i] == Stage(s[i])
    decreases |s|
  {
    if s != [] { MarksOfStages(s[..|s| - 1]); }
  }

  lemma {:induction false} StagesRise(trail: seq<Event>, i: nat, j: nat)
    requires Advances(trail) && i < j < |trail|
    ensures Stage(trail[i]) <= Stage(trail[j])
    ensures Stage(trail[i]) == Stage(trail[j]) <==> NoAttempt(trail, i, j)
    decreases j
  {
    assert trail[j].deprecatedCount == trail[j - 1].deprecatedCount + Step(trail[j]);
    if i < j - 1 { StagesRise(trail, i, j - 1); }
  }

  /** No deprecated attempt from event `i` to event `j`, both included. */
  predicate NoAttempt(trail: seq<Event>, i: int, j: int)
    requires 0 <= i <= j < |trail|
  {
    forall m :: i <= m <= j ==> !trail[m].deprecatedAttempt
  }

  /** Continuity of the process counter is a matter of the stages alone. */
  lemma SameStages(a: seq<Event>, b: seq<Event>)
    requires Advances(a) && |a| == |b| && forall i :: 0 <= i < |a| ==> Stage(a[i]) == Stage(b[i])
    ensures Advances(b)
  {
    forall i | 0 < i < |b| ensures b[i].deprecatedCount == b[i - 1].deprecatedCount + Step(b[i]) {
      assert a[i].deprecatedCount == a[i - 1].deprecatedCount + Step(a[i]);
      assert Stage(a[i]) == Stage(b[i]) && Stage(a[i - 1]) == Stage(b[i - 1]);
    }
  }

  /** Wherever the clock orders two events otherwise than the log, only probes lie between. */
  ghost predicate AttemptsInTime(log: seq<Event>)
  {
    forall i, j :: 0 <= i < j < |log| && log[i].at > log[j].at ==> NoAttempt(log, i, j)
  }

  lemma TurnedProbesPass(log: seq<Event>)
    requires Advances(log) && AttemptsInTime(log)
    ensures Advances(ByTime(log))
  {
    MarksOfStages(ByTime(log));
    MarksOfStages(log);
    forall i, j | Inverted(log, StageMark(), i, j) ensures StageMark()(log[i]) == StageMark()(log[j]) {
      StagesRise(log, i, j);
    }
    TiesKeepMarks(log, StageMark());
    SameStages(log, ByTime(log));
  }

  lemma TurnedAttemptFails(log: seq<Event>, i: nat, j: nat)
    requires Advances(log) && i < j < |log| && log[i].at > log[j].at && !NoAttempt(log, i, j)
    ensures !Advances(ByTime(log))
  {
    var timed := ByTime(log);
    MarksOfStages(timed);
    StagesRise(log, i, j);
    InversionFalls(log, StageMark(), i, j);
    var counts := Marks(timed, StageMark());
    var x, y :| 0 <= x < y < |counts| && counts[x] > counts[y];
    if Advances(timed) { StagesRise(timed, x, y); assert false; }
  }

  lemma AdvancingOrderIff(log: seq<Event>)
    requires Advances(log)
    ensures Advances(ByTime(log)) <==> AttemptsInTime(log)
  {
    if AttemptsInTime(log) {
      TurnedProbesPass(log);
    } else {
      var i, j :| 0 <= i < j < |log| && log[i].at > log[j].at && !NoAttempt(log, i, j);
      TurnedAttemptFails(log, i, j);
    }
  }

  /** Whatever the clock does: the process counter of a complete log passes exactly when every
      stretch that the clock turns around holds health probes only. */
  lemma AttemptsPassIff(r: Recorder, calls: seq<Call>)
    ensures var log := Log(r, calls);
      DeprecatedContinuous(ByTime(log)) <==>
      forall i, j :: 0 <= i < j < |log| && log[i].at > log[j].at ==> NoAttempt(log, i, j)
  {
    var log, p := Log(r, calls), ProcessKey(API, r.process);
    OneProducer(r, calls);
    ByTimeMembers(log);
    TrailOfOne(log, p);
    TrailOfOne(ByTime(log), p);
    LogAdvances(r, calls);
    AdvancingOrderIff(log);
    OneTrailDecides(ByTime(log), p);
  }

  lemma OneTrailDecides(events: seq<Event>, p: ProcessKey)
    requires Trail(events, p) == events && forall q :: q != p ==> Trail(events, q) == []
    ensures DeprecatedContinuous(events) <==> Advances(events)
  {
    assert DeprecatedContinuous(events) ==> Advances(Trail(events, p));
    assert forall q :: q != p ==> Advances(Trail(events, q));
  }

  lemma LogSnoc(r: Recorder, calls: seq<Call>, call: Call)
    requires Recorded(call)
    ensures After(calls + [call]) == Counted(After(calls), call)
    ensures Log(r, calls + [call]) == Log(r, calls) + [EventOf(r, Counted(After(calls), call), call)]
  {
    assert (calls + [call])[..|calls|] == calls;
  }

  lemma PairLog(r: Recorder, first: Call, second: Call)
    requires Recorded(first) && Recorded(second)
    ensures var log := Log(r, [first, second]);
      && |log| == 2
      && log[0] == EventOf(r, Counted(Counters(map[], 0), first), first)
      && log[1] == EventOf(r, Counted(Counted(Counters(map[], 0), first), second), second)
  {
    LogSnoc(r, [], first);
    LogSnoc(r, [first], second);
    assert [] + [first] == [first] && [first] + [second] == [first, second];
  }

  function Probe(at: int): Call { Call(Some("/healthz"), "GET", 200, None, at) }

  /** A clock that steps back between two health probes: nothing is lost and nothing deprecated
      was attempted, yet the route check fails while the process check passes. */
  lemma SteppedClockFails(r: Recorder)
    ensures !RoutesContinuous(ByTime(Log(r, [Probe(1), Probe(0)])))
    ensures DeprecatedContinuous(ByTime(Log(r, [Probe(1), Probe(0)])))
  {
    PairLog(r, Probe(1), Probe(0));
    LogIsNumbered(r, [Probe(1), Probe(0)]);
    TurnedProbes(Log(r, [Probe(1), Probe(0)]));
    AttemptsPassIff(r, [Probe(1), Probe(0)]);
  }

  lemma TurnedProbes(log: seq<Event>)
    requires Numbered(log) && |log| == 2 && RouteKeyOf(log[0]) == RouteKeyOf(log[1]) && log[0].at > log[1].at
    ensures !RoutesContinuous(ByTime(log))
  {
    NumberedOrderIff(log);
  }
}
