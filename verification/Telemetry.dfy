/** The observation checker of scripts/ops/ah_t01/telemetry_observation.py: one window of
    telemetry lines is summarised, and daily summaries are chained by their counter boundaries. */
module Telemetry {
  import opened Sorting
  import opened Wrappers

  const API := "video-factory-v1-api"
  const RENDERER := "video-factory-v1-renderer"

  /** The action each service fixes for each of its route labels. */
  function RouteAction(service: string, route: string): Option<string>
  {
    if service == API then
      if route == "/healthz" || route == "/readyz" then Some("health_probe")
      else if route == "/api/v1/video-jobs" then Some("legacy_write")
      else if route == "/api/v1/video-jobs/{job_id}" then Some("legacy_read")
      else if route == "/api/v1/video-jobs/{job_id}/artifacts/{artifact_name}" then Some("legacy_artifact_read")
      else None
    else if service == RENDERER then
      if route == "/healthz" then Some("health_probe")
      else if route == "/render" then Some("legacy_render")
      else if route == "/media/{path}" then Some("legacy_media_read")
      else None
    else None
  }

  /** `wellFormed` stands for the regular expressions on fingerprints and process ids and for the
      absence of forbidden fields. */
  datatype Event = Event(
    at: int, service: string, process: nat, route: string, action: string, verb: string, status: int,
    caller: Option<string>, deprecatedAttempt: bool, identityReady: bool, payloadLogged: bool,
    identityLogged: bool, routeCount: int, deprecatedCount: int, wellFormed: bool)

  datatype RouteKey = RouteKey(service: string, process: nat, route: string)
  datatype ProcessKey = ProcessKey(service: string, process: nat)

  function RouteKeyOf(e: Event): RouteKey { RouteKey(e.service, e.process, e.route) }
  function ProcessKeyOf(e: Event): ProcessKey { ProcessKey(e.service, e.process) }

  predicate ValidVerb(verb: string)
  {
    3 <= |verb| <= 10 && forall i :: 0 <= i < |verb| ==> 'A' <= verb[i] <= 'Z'
  }

  predicate Alphanumeric(c: char) { 'A' <= c <= 'Z' || 'a' <= c <= 'z' || '0' <= c <= '9' }

  predicate ValidCaller(caller: string)
  {
    && 1 <= |caller| <= 64 && Alphanumeric(caller[0])
    && forall i :: 0 < i < |caller| ==> Alphanumeric(caller[i]) || caller[i] in "._:-"
  }

  predicate ValidEvent(e: Event)
  {
    && e.wellFormed
    && RouteAction(e.service, e.route) == Some(e.action)
    && ValidVerb(e.verb)
    && 100 <= e.status <= 599
    && (e.caller.Some? ==> ValidCaller(e.caller.value))
    && e.deprecatedAttempt == (e.action != "health_probe")
    && e.identityReady && !e.payloadLogged && !e.identityLogged
    && e.routeCount >= 0 && e.deprecatedCount >= 0
  }

  /** Every label that may occur: service, route and action. */
  const LABELS := {
    ("video-factory-v1-api", "/healthz", "health_probe"),
    ("video-factory-v1-api", "/readyz", "health_probe"),
    ("video-factory-v1-api", "/api/v1/video-jobs", "legacy_write"),
    ("video-factory-v1-api", "/api/v1/video-jobs/{job_id}", "legacy_read"),
    ("video-factory-v1-api", "/api/v1/video-jobs/{job_id}/artifacts/{artifact_name}", "legacy_artifact_read"),
    ("video-factory-v1-renderer", "/healthz", "health_probe"),
    ("video-factory-v1-renderer", "/render", "legacy_render"),
    ("video-factory-v1-renderer", "/media/{path}", "legacy_media_read")
  }

  /** What a window asks of each of its events. */
  predicate Acceptable(e: Event)
  {
    && e.wellFormed && (e.service, e.route, e.action) in LABELS
    && 3 <= |e.verb| <= 10 && (forall i :: 0 <= i < |e.verb| ==> 'A' <= e.verb[i] <= 'Z')
    && 100 <= e.status < 600
    && (e.caller.Some? ==> CallerId(e.caller.value))
    && (e.deprecatedAttempt <==> e.action != "health_probe")
    && e.identityReady && !e.payloadLogged && !e.identityLogged
    && e.routeCount >= 0 && e.deprecatedCount >= 0
  }

  /** At most 64 letters, digits and marks, and no mark in front. */
  predicate CallerId(s: string)
  {
    && 0 < |s| < 65 && s[0] !in "._:-"
    && forall i :: 0 <= i < |s| ==> 'a' <= s[i] <= 'z' || 'A' <= s[i] <= 'Z' || '0' <= s[i] <= '9' || s[i] in "._:-"
  }

  lemma LabelIff(service: string, route: string, action: string)
    ensures RouteAction(service, route) == Some(action) <==> (service, route, action) in LABELS
  {
  }

  lemma CallerIff(s: string)
    ensures ValidCaller(s) <==> CallerId(s)
  {
  }

  lemma ValidIffAcceptable(e: Event)
    ensures ValidEvent(e) <==> Acceptable(e)
  {
    LabelIff(e.service, e.route, e.action);
    if e.caller.Some? { CallerIff(e.caller.value); }
  }

  /** Which acceptance path a label covers: none for a probe, one for the whole API, and one each for
      what the renderer renders and what it serves. */
  lemma CoverageIff(service: string, route: string, path: string)
    ensures PathCoverageLabel(service, route) == Some(path) <==>
      exists action :: (service, route, action) in LABELS && action != "health_probe" &&
        path == if action == "legacy_render" then "renderer_render"
                 else if action == "legacy_media_read" then "renderer_media" else "api_legacy_routes"
  {
    var found := RouteAction(service, route);
    forall action ensures found == Some(action) <==> (service, route, action) in LABELS { LabelIff(service, route, action); }
    if found.Some? { assert (service, route, found.value) in LABELS; }
  }

  predicate Attributed(caller: Option<string>) { caller.Some? && caller.value != "invalid" }

  function PathCoverageLabel(service: string, route: string): Option<string>
  {
    if service == API && RouteAction(API, route).Some? then
      if route == "/healthz" || route == "/readyz" then None else Some("api_legacy_routes")
    else if service == RENDERER && route == "/render" then Some("renderer_render")
    else if service == RENDERER && route == "/media/{path}" then Some("renderer_media")
    else None
  }

  // ---------------------------------------------------------------------------------------
  // Stable order by time

  function InsertByTime(sorted: seq<Event>, e: Event): seq<Event>
    decreases |sorted|
  {
    if sorted == [] || sorted[|sorted| - 1].at <= e.at then sorted + [e]
    else InsertByTime(sorted[..|sorted| - 1], e) + [sorted[|sorted| - 1]]
  }

  /** Python's stable sort on the observation time. */
  function ByTime(lines: seq<Event>): seq<Event>
    decreases |lines|
  {
    if lines == [] then [] else InsertByTime(ByTime(lines[..|lines| - 1]), lines[|lines| - 1])
  }

  // ---------------------------------------------------------------------------------------
  // What continuity means, key by key

  /** The counter values of one route of one process, in log order. */
  function RouteCounts(log: seq<Event>, k: RouteKey): seq<int>
    decreases |log|
  {
    if log == [] then []
    else
      var e, before := log[|log| - 1], RouteCounts(log[..|log| - 1], k);
      if RouteKeyOf(e) == k then before + [e.routeCount] else before
  }

  predicate Consecutive(counts: seq<int>)
  {
    forall i :: 0 < i < |counts| ==> counts[i] == counts[i - 1] + 1
  }

  ghost predicate RoutesContinuous(log: seq<Event>) { forall k :: Consecutive(RouteCounts(log, k)) }

  /** The events of one process, in log order. */
  function Trail(log: seq<Event>, p: ProcessKey): seq<Event>
    decreases |log|
  {
    if log == [] then []
    else
      var e, before := log[|log| - 1], Trail(log[..|log| - 1], p);
      if ProcessKeyOf(e) == p then before + [e] else before
  }

  function Step(e: Event): int { if e.deprecatedAttempt then 1 else 0 }

  /** The process-wide counter advances by one exactly on deprecated attempts. */
  predicate Advances(trail: seq<Event>)
  {
    forall i :: 0 < i < |trail| ==> trail[i].deprecatedCount == trail[i - 1].deprecatedCount + Step(trail[i])
  }

  ghost predicate DeprecatedContinuous(log: seq<Event>) { forall p :: Advances(Trail(log, p)) }

  datatype Bounds = Bounds(first: int, last: int, count: int)

  function BoundsOf(counts: seq<int>): Bounds
    requires counts != []
  {
    Bounds(counts[0], counts[|counts| - 1], |counts|)
  }

  function DeprecatedBoundsOf(trail: seq<Event>): Bounds
    requires trail != []
  {
    Bounds(trail[0].deprecatedCount, trail[|trail| - 1].deprecatedCount, |trail|)
  }

  type RouteTable = map<RouteKey, Bounds>
  type ProcessTable = map<ProcessKey, Bounds>

  ghost predicate RouteEntry(t: RouteTable, k: RouteKey, counts: seq<int>)
  {
    (k in t <==> counts != []) && (k in t ==> t[k] == BoundsOf(counts))
  }

  ghost predicate ProcessEntry(t: ProcessTable, p: ProcessKey, trail: seq<Event>)
  {
    (p in t <==> trail != []) && (p in t ==> t[p] == DeprecatedBoundsOf(trail))
  }

  /** The table lists exactly the routes seen, each with its first and last count and its size. */
  ghost predicate RouteTableOf(t: RouteTable, log: seq<Event>)
  {
    forall k :: RouteEntry(t, k, RouteCounts(log, k))
  }

  ghost predicate ProcessTableOf(t: ProcessTable, log: seq<Event>)
  {
    forall p :: ProcessEntry(t, p, Trail(log, p))
  }

  ghost predicate FirstSeenOf(t: map<ProcessKey, int>, log: seq<Event>)
  {
    forall p :: (p in t <==> Trail(log, p) != []) && (p in t ==> t[p] == Trail(log, p)[0].at)
  }

  // ---------------------------------------------------------------------------------------
  // Summarising one window

  datatype Fault = EmptyWindow | NoEvents | InvalidEvent | OutsideWindow | RouteCounterGap | DeprecatedCounterGap

  datatype Report =
    | Failed(fault: Fault)
    | Passed(eventCount: nat, routes: RouteTable, deprecated: ProcessTable, firstSeen: map<ProcessKey, int>)

  ghost predicate Admissible(lines: seq<Event>, start: int, end: int)
  {
    && start < end && lines != []
    && forall e :: e in lines ==> Acceptable(e) && start <= e.at < end
  }

  /** The loop state after the events `log`, all of them continuous. */
  ghost predicate Tallied(log: seq<Event>, routeLast: map<RouteKey, int>, routes: RouteTable,
                          deprecatedLast: map<ProcessKey, int>, deprecated: ProcessTable,
                          firstSeen: map<ProcessKey, int>)
  {
    && RoutesContinuous(log) && DeprecatedContinuous(log)
    && RouteTableOf(routes, log) && ProcessTableOf(deprecated, log) && FirstSeenOf(firstSeen, log)
    && routeLast.Keys == routes.Keys && (forall k :: k in routeLast ==> routeLast[k] == routes[k].last)
    && deprecatedLast.Keys == deprecated.Keys
    && (forall p :: p in deprecatedLast ==> deprecatedLast[p] == deprecated[p].last)
  }

  lemma Snoc(log: seq<Event>, e: Event)
    ensures forall k ::
      RouteCounts(log + [e], k)
        == if RouteKeyOf(e) == k then RouteCounts(log, k) + [e.routeCount] else RouteCounts(log, k)
    ensures forall p ::
      Trail(log + [e], p) == if ProcessKeyOf(e) == p then Trail(log, p) + [e] else Trail(log, p)
  {
    assert (log + [e])[..|log|] == log;
  }

  lemma ConsecutiveSnoc(counts: seq<int>, n: int)
    requires Consecutive(counts)
    ensures Consecutive(counts + [n]) <==> (counts == [] || n == counts[|counts| - 1] + 1)
  {
    var longer := counts + [n];
    if counts != [] {
      assert longer[|counts|] == n && longer[|counts| - 1] == counts[|counts| - 1];
    }
  }

  lemma AdvancesSnoc(trail: seq<Event>, e: Event)
    requires Advances(trail)
    ensures Advances(trail + [e])
       <==> (trail == [] || e.deprecatedCount == trail[|trail| - 1].deprecatedCount + Step(e))
  {
    var longer := trail + [e];
    if trail != [] {
      assert longer[|trail|] == e && longer[|trail| - 1] == trail[|trail| - 1];
    }
  }

  /** `setdefault` followed by the two updates of the boundary. */
  function Widened<K>(t: map<K, Bounds>, k: K, n: int): map<K, Bounds>
  {
    t[k := if k in t then Bounds(t[k].first, n, t[k].count + 1) else Bounds(n, n, 1)]
  }

  lemma RouteStep(log: seq<Event>, e: Event, routes: RouteTable)
    requires RoutesContinuous(log) && RouteTableOf(routes, log)
    ensures RoutesContinuous(log + [e])
       <==> (RouteKeyOf(e) in routes ==> e.routeCount == routes[RouteKeyOf(e)].last + 1)
    ensures RouteTableOf(Widened(routes, RouteKeyOf(e), e.routeCount), log + [e])
  {
    Snoc(log, e);
    var key, t := RouteKeyOf(e), Widened(routes, RouteKeyOf(e), e.routeCount);
    forall k ensures RouteEntry(t, k, RouteCounts(log + [e], k)) {
      assert RouteEntry(routes, k, RouteCounts(log, k));
    }
    assert RouteEntry(routes, key, RouteCounts(log, key)) && Consecutive(RouteCounts(log, key));
    ConsecutiveSnoc(RouteCounts(log, key), e.routeCount);
    if Consecutive(RouteCounts(log + [e], key)) {
      forall k ensures Consecutive(RouteCounts(log + [e], k)) {
        assert Consecutive(RouteCounts(log, k));
      }
    }
  }

  lemma DeprecatedStep(log: seq<Event>, e: Event, deprecated: ProcessTable)
    requires DeprecatedContinuous(log) && ProcessTableOf(deprecated, log)
    ensures DeprecatedContinuous(log + [e])
       <==> (ProcessKeyOf(e) in deprecated ==> e.deprecatedCount == deprecated[ProcessKeyOf(e)].last + Step(e))
    ensures ProcessTableOf(Widened(deprecated, ProcessKeyOf(e), e.deprecatedCount), log + [e])
  {
    Snoc(log, e);
    var key, t := ProcessKeyOf(e), Widened(deprecated, ProcessKeyOf(e), e.deprecatedCount);
    forall p ensures ProcessEntry(t, p, Trail(log + [e], p)) {
      assert ProcessEntry(deprecated, p, Trail(log, p));
    }
    assert ProcessEntry(deprecated, key, Trail(log, key)) && Advances(Trail(log, key));
    AdvancesSnoc(Trail(log, key), e);
    if Advances(Trail(log + [e], key)) {
      forall p ensures Advances(Trail(log + [e], p)) {
        assert Advances(Trail(log, p));
      }
    }
  }

  lemma FirstSeenStep(log: seq<Event>, e: Event, firstSeen: map<ProcessKey, int>)
    requires FirstSeenOf(firstSeen, log)
    ensures var p := ProcessKeyOf(e);
      FirstSeenOf(if p in firstSeen then firstSeen else firstSeen[p := e.at], log + [e])
  {
    Snoc(log, e);
  }

  lemma {:induction false} PrefixBreaks(log: seq<Event>, n: nat)
    requires n <= |log|
    ensures !RoutesContinuous(log[..n]) ==> !RoutesContinuous(log)
    ensures !DeprecatedContinuous(log[..n]) ==> !DeprecatedContinuous(log)
    decreases |log|
  {
    if n < |log| {
      var front, e := log[..|log| - 1], log[|log| - 1];
      PrefixBreaks(front, n);
      assert front[..n] == log[..n] && front + [e] == log;
      Snoc(front, e);
      if !RoutesContinuous(front) {
        var k :| !Consecutive(RouteCounts(front, k));
        assert forall i :: 0 <= i < |RouteCounts(front, k)| ==> RouteCounts(log, k)[i] == RouteCounts(front, k)[i];
        assert !Consecutive(RouteCounts(log, k));
      }
      if !DeprecatedContinuous(front) {
        var p :| !Advances(Trail(front, p));
        assert forall i :: 0 <= i < |Trail(front, p)| ==> Trail(log, p)[i] == Trail(front, p)[i];
        assert !Advances(Trail(log, p));
      }
    } else {
      assert log[..n] == log;
    }
  }

  /** The windows that pass. */
  ghost predicate Passes(lines: seq<Event>, start: int, end: int)
  {
    Admissible(lines, start, end) && RoutesContinuous(ByTime(lines)) && DeprecatedContinuous(ByTime(lines))
  }

  method Summarize(lines: seq<Event>, start: int, end: int) returns (r: Report)
    ensures r.Passed? <==> Passes(lines, start, end)
    ensures r == Failed(EmptyWindow) <==> end <= start
    ensures r == Failed(NoEvents) <==> start < end && lines == []
    ensures r == Failed(InvalidEvent) ==> exists e :: e in lines && !Acceptable(e)
    ensures r == Failed(OutsideWindow) ==> exists e :: e in lines && !(start <= e.at < end)
    ensures r == Failed(RouteCounterGap) ==> !RoutesContinuous(ByTime(lines))
    ensures r == Failed(DeprecatedCounterGap) ==> !DeprecatedContinuous(ByTime(lines))
    ensures r.Passed? ==> r.eventCount == |ByTime(lines)| && RouteTableOf(r.routes, ByTime(lines))
    ensures r.Passed? ==> ProcessTableOf(r.deprecated, ByTime(lines)) && FirstSeenOf(r.firstSeen, ByTime(lines))
  {
    if end <= start { return Failed(EmptyWindow); }
    if lines == [] { return Failed(NoEvents); }
    for i := 0 to |lines|
      invariant forall j :: 0 <= j < i ==> Acceptable(lines[j]) && start <= lines[j].at < end
    {
      ValidIffAcceptable(lines[i]);
      if !ValidEvent(lines[i]) { return Failed(InvalidEvent); }
      if !(start <= lines[i].at < end) { return Failed(OutsideWindow); }
    }
    r := Tally(ByTime(lines));
  }

  method Tally(timed: seq<Event>) returns (r: Report)
    ensures r.Passed? <==> RoutesContinuous(timed) && DeprecatedContinuous(timed)
    ensures r.Failed? ==> r.fault == RouteCounterGap || r.fault == DeprecatedCounterGap
    ensures r.Failed? && r.fault == RouteCounterGap ==> !RoutesContinuous(timed)
    ensures r.Failed? && r.fault == DeprecatedCounterGap ==> !DeprecatedContinuous(timed)
    ensures r.Passed? ==> r.eventCount == |timed| && RouteTableOf(r.routes, timed)
    ensures r.Passed? ==> ProcessTableOf(r.deprecated, timed) && FirstSeenOf(r.firstSeen, timed)
  {
    var routeLast: map<RouteKey, int> := map[];
    var routes: RouteTable := map[];
    var deprecatedLast: map<ProcessKey, int> := map[];
    var deprecated: ProcessTable := map[];
    var firstSeen: map<ProcessKey, int> := map[];
    for i := 0 to |timed|
      invariant Tallied(timed[..i], routeLast, routes, deprecatedLast, deprecated, firstSeen)
    {
      var e := timed[i];
      ghost var log := timed[..i];
      assert timed[..i + 1] == log + [e];
      RouteStep(log, e, routes);
      DeprecatedStep(log, e, deprecated);
      FirstSeenStep(log, e, firstSeen);

      var k := RouteKeyOf(e);
      if k in routeLast && e.routeCount != routeLast[k] + 1 {
        PrefixBreaks(timed, i + 1);
        return Failed(RouteCounterGap);
      }
      routeLast := routeLast[k := e.routeCount];
      routes := Widened(routes, k, e.routeCount);

      var p := ProcessKeyOf(e);
      if p in deprecatedLast && e.deprecatedCount != deprecatedLast[p] + Step(e) {
        PrefixBreaks(timed, i + 1);
        return Failed(DeprecatedCounterGap);
      }
      deprecatedLast := deprecatedLast[p := e.deprecatedCount];
      deprecated := Widened(deprecated, p, e.deprecatedCount);
      if p !in firstSeen {
        firstSeen := firstSeen[p := e.at];
      }
    }
    assert timed[..|timed|] == timed;
    r := Passed(|timed|, routes, deprecated, firstSeen);
  }

  // ---------------------------------------------------------------------------------------
  // Chaining daily summaries

  datatype RouteBoundary = RouteBoundary(key: RouteKey, bounds: Bounds)
  datatype ProcessBoundary = ProcessBoundary(key: ProcessKey, bounds: Bounds)
  datatype ProcessStart = ProcessStart(key: ProcessKey, at: int)

  /** The lists a daily summary carries; nothing here says that a key is listed once. */
  datatype Day = Day(routes: seq<RouteBoundary>, deprecated: seq<ProcessBoundary>, processes: seq<ProcessStart>)

  predicate SoundRoute(b: Bounds) { 1 <= b.first <= b.last && b.count == b.last - b.first + 1 }

  predicate SoundDeprecated(b: Bounds) { 0 <= b.first <= b.last }

  /** Counters of an undisturbed route start at one or more, do not fall, and skip nothing. */
  predicate BadRoute(b: Bounds) { b.first < 1 || b.last < b.first || b.count + b.first != b.last + 1 }

  predicate BadDeprecated(b: Bounds) { b.first < 0 || b.last < b.first }

  predicate Linked(bs: seq<Bounds>)
  {
    forall i :: 0 < i < |bs| ==> bs[i].first == bs[i - 1].last + 1
  }

  predicate LooselyLinked(bs: seq<Bounds>)
  {
    forall i :: 0 < i < |bs| ==> bs[i].first == bs[i - 1].last || bs[i].first == bs[i - 1].last + 1
  }

  function RouteList(days: seq<Day>): seq<RouteBoundary>
    decreases |days|
  {
    if days == [] then [] else RouteList(days[..|days| - 1]) + days[|days| - 1].routes
  }

  function DeprecatedList(days: seq<Day>): seq<ProcessBoundary>
    decreases |days|
  {
    if days == [] then [] else DeprecatedList(days[..|days| - 1]) + days[|days| - 1].deprecated
  }

  /** The boundaries of one route, in the order they are visited. */
  function RouteBoundsAt(list: seq<RouteBoundary>, k: RouteKey): seq<Bounds>
    decreases |list|
  {
    if list == [] then []
    else
      var b, before := list[|list| - 1], RouteBoundsAt(list[..|list| - 1], k);
      if b.key == k then before + [b.bounds] else before
  }

  function DeprecatedBoundsAt(list: seq<ProcessBoundary>, p: ProcessKey): seq<Bounds>
    decreases |list|
  {
    if list == [] then []
    else
      var b, before := list[|list| - 1], DeprecatedBoundsAt(list[..|list| - 1], p);
      if b.key == p then before + [b.bounds] else before
  }

  /** The dictionary entry of one key is the last count of the key's latest boundary. */
  ghost predicate LastIs<K>(last: map<K, int>, k: K, bs: seq<Bounds>)
  {
    (k in last <==> bs != []) && (k in last ==> last[k] == bs[|bs| - 1].last)
  }

  ghost predicate LastRoutes(last: map<RouteKey, int>, done: seq<RouteBoundary>)
  {
    forall k :: LastIs(last, k, RouteBoundsAt(done, k))
  }

  ghost predicate LastDeprecated(last: map<ProcessKey, int>, done: seq<ProcessBoundary>)
  {
    forall p :: LastIs(last, p, DeprecatedBoundsAt(done, p))
  }

  lemma RouteBoundsSnoc(list: seq<RouteBoundary>, b: RouteBoundary)
    ensures forall k ::
      RouteBoundsAt(list + [b], k)
        == if b.key == k then RouteBoundsAt(list, k) + [b.bounds] else RouteBoundsAt(list, k)
  {
    assert (list + [b])[..|list|] == list;
  }

  lemma DeprecatedBoundsSnoc(list: seq<ProcessBoundary>, b: ProcessBoundary)
    ensures forall p ::
      DeprecatedBoundsAt(list + [b], p)
        == if b.key == p then DeprecatedBoundsAt(list, p) + [b.bounds] else DeprecatedBoundsAt(list, p)
  {
    assert (list + [b])[..|list|] == list;
  }

  lemma LinkedSnoc(bs: seq<Bounds>, b: Bounds)
    ensures Linked(bs + [b]) <==> Linked(bs) && (bs == [] || b.first == bs[|bs| - 1].last + 1)
    ensures LooselyLinked(bs + [b])
       <==> LooselyLinked(bs) && (bs == [] || b.first == bs[|bs| - 1].last || b.first == bs[|bs| - 1].last + 1)
  {
    var longer := bs + [b];
    assert forall i :: 0 <= i < |bs| ==> longer[i] == bs[i];
    assert longer[|bs|] == b;
  }

  /** Beyond the breaks already in `done`, exactly the routes in `gaps` break by `all`. */
  ghost predicate RouteGapsAre(gaps: set<RouteKey>, done: seq<RouteBoundary>, all: seq<RouteBoundary>)
  {
    forall k :: Linked(RouteBoundsAt(all, k)) <==> Linked(RouteBoundsAt(done, k)) && k !in gaps
  }

  ghost predicate DeprecatedGapsAre(gaps: set<ProcessKey>, done: seq<ProcessBoundary>, all: seq<ProcessBoundary>)
  {
    forall p :: LooselyLinked(DeprecatedBoundsAt(all, p)) <==> LooselyLinked(DeprecatedBoundsAt(done, p)) && p !in gaps
  }

  predicate BreaksRoute(last: map<RouteKey, int>, b: RouteBoundary)
  {
    b.key in last && b.bounds.first != last[b.key] + 1
  }

  predicate BreaksDeprecated(last: map<ProcessKey, int>, b: ProcessBoundary)
  {
    b.key in last && b.bounds.first != last[b.key] && b.bounds.first != last[b.key] + 1
  }

  lemma ChainRouteStep(done: seq<RouteBoundary>, all: seq<RouteBoundary>, b: RouteBoundary,
                       last: map<RouteKey, int>, gaps: set<RouteKey>)
    requires LastRoutes(last, all) && RouteGapsAre(gaps, done, all)
    ensures LastRoutes(last[b.key := b.bounds.last], all + [b])
    ensures RouteGapsAre(if BreaksRoute(last, b) then gaps + {b.key} else gaps, done, all + [b])
  {
    RouteBoundsSnoc(all, b);
    forall k ensures LastIs(last[b.key := b.bounds.last], k, RouteBoundsAt(all + [b], k)) {
      assert LastIs(last, k, RouteBoundsAt(all, k));
    }
    var now := if BreaksRoute(last, b) then gaps + {b.key} else gaps;
    forall k ensures Linked(RouteBoundsAt(all + [b], k)) <==> Linked(RouteBoundsAt(done, k)) && k !in now {
      assert Linked(RouteBoundsAt(all, k)) <==> Linked(RouteBoundsAt(done, k)) && k !in gaps;
      if k == b.key {
        assert LastIs(last, k, RouteBoundsAt(all, k));
        LinkedSnoc(RouteBoundsAt(all, k), b.bounds);
      }
    }
  }

  lemma ChainDeprecatedStep(done: seq<ProcessBoundary>, all: seq<ProcessBoundary>, b: ProcessBoundary,
                            last: map<ProcessKey, int>, gaps: set<ProcessKey>)
    requires LastDeprecated(last, all) && DeprecatedGapsAre(gaps, done, all)
    ensures LastDeprecated(last[b.key := b.bounds.last], all + [b])
    ensures DeprecatedGapsAre(if BreaksDeprecated(last, b) then gaps + {b.key} else gaps, done, all + [b])
  {
    DeprecatedBoundsSnoc(all, b);
    forall p ensures LastIs(last[b.key := b.bounds.last], p, DeprecatedBoundsAt(all + [b], p)) {
      assert LastIs(last, p, DeprecatedBoundsAt(all, p));
    }
    var now := if BreaksDeprecated(last, b) then gaps + {b.key} else gaps;
    forall p ensures LooselyLinked(DeprecatedBoundsAt(all + [b], p))
                <==> LooselyLinked(DeprecatedBoundsAt(done, p)) && p !in now
    {
      assert LooselyLinked(DeprecatedBoundsAt(all, p)) <==> LooselyLinked(DeprecatedBoundsAt(done, p)) && p !in gaps;
      if p == b.key {
        assert LastIs(last, p, DeprecatedBoundsAt(all, p));
        LinkedSnoc(DeprecatedBoundsAt(all, p), b.bounds);
      }
    }
  }

  /** One day's route boundaries; `done` are all boundaries of the days before. */
  method ChainRoutes(list: seq<RouteBoundary>, last: map<RouteKey, int>, ghost done: seq<RouteBoundary>)
      returns (raised: bool, next: map<RouteKey, int>, gaps: set<RouteKey>)
    requires LastRoutes(last, done)
    ensures raised <==> exists b :: b in list && BadRoute(b.bounds)
    ensures !raised ==> LastRoutes(next, done + list) && RouteGapsAre(gaps, done, done + list)
  {
    raised, next, gaps := false, last, {};
    assert done + list[..0] == done;
    for i := 0 to |list|
      invariant forall j :: 0 <= j < i ==> !BadRoute(list[j].bounds)
      invariant LastRoutes(next, done + list[..i]) && RouteGapsAre(gaps, done, done + list[..i])
    {
      var b := list[i];
      assert done + list[..i + 1] == (done + list[..i]) + [b];
      ChainRouteStep(done, done + list[..i], b, next, gaps);
      if !SoundRoute(b.bounds) { return true, next, gaps; }
      if BreaksRoute(next, b) {
        gaps := gaps + {b.key};
      }
      next := next[b.key := b.bounds.last];
    }
    assert list[..|list|] == list;
  }

  method ChainDeprecated(list: seq<ProcessBoundary>, last: map<ProcessKey, int>, ghost done: seq<ProcessBoundary>)
      returns (raised: bool, next: map<ProcessKey, int>, gaps: set<ProcessKey>)
    requires LastDeprecated(last, done)
    ensures raised <==> exists b :: b in list && BadDeprecated(b.bounds)
    ensures !raised ==> LastDeprecated(next, done + list) && DeprecatedGapsAre(gaps, done, done + list)
  {
    raised, next, gaps := false, last, {};
    assert done + list[..0] == done;
    for i := 0 to |list|
      invariant forall j :: 0 <= j < i ==> !BadDeprecated(list[j].bounds)
      invariant LastDeprecated(next, done + list[..i]) && DeprecatedGapsAre(gaps, done, done + list[..i])
    {
      var b := list[i];
      assert done + list[..i + 1] == (done + list[..i]) + [b];
      ChainDeprecatedStep(done, done + list[..i], b, next, gaps);
      if !SoundDeprecated(b.bounds) { return true, next, gaps; }
      if BreaksDeprecated(next, b) {
        gaps := gaps + {b.key};
      }
      next := next[b.key := b.bounds.last];
    }
    assert list[..|list|] == list;
  }

  ghost predicate Inconsistent(day: Day)
  {
    || (exists b :: b in day.routes && BadRoute(b.bounds))
    || (exists b :: b in day.deprecated && BadDeprecated(b.bounds))
  }

  /** The counter part of `evaluate`, on days already known to be consecutive: a raised error, or
      the routes and processes whose boundaries do not follow one another. */
  method EvaluateCounters(days: seq<Day>)
      returns (raised: bool, routeGaps: set<RouteKey>, deprecatedGaps: set<ProcessKey>)
    ensures raised <==> exists d :: d in days && Inconsistent(d)
    ensures !raised ==> forall k :: k in routeGaps <==> !Linked(RouteBoundsAt(RouteList(days), k))
    ensures !raised ==> forall p ::
      p in deprecatedGaps <==> !LooselyLinked(DeprecatedBoundsAt(DeprecatedList(days), p))
  {
    raised, routeGaps, deprecatedGaps := false, {}, {};
    var lastRoute: map<RouteKey, int> := map[];
    var lastDeprecated: map<ProcessKey, int> := map[];
    for i := 0 to |days|
      invariant forall j :: 0 <= j < i ==> !Inconsistent(days[j])
      invariant LastRoutes(lastRoute, RouteList(days[..i]))
      invariant LastDeprecated(lastDeprecated, DeprecatedList(days[..i]))
      invariant RouteGapsAre(routeGaps, [], RouteList(days[..i]))
      invariant DeprecatedGapsAre(deprecatedGaps, [], DeprecatedList(days[..i]))
    {
      var day := days[i];
      assert days[..i + 1][..i] == days[..i];
      var raisedHere, newRouteGaps, newDeprecatedGaps;
      raisedHere, lastRoute, newRouteGaps := ChainRoutes(day.routes, lastRoute, RouteList(days[..i]));
      if raisedHere { assert Inconsistent(day); return true, routeGaps, deprecatedGaps; }
      raisedHere, lastDeprecated, newDeprecatedGaps :=
        ChainDeprecated(day.deprecated, lastDeprecated, DeprecatedList(days[..i]));
      if raisedHere { assert Inconsistent(day); return true, routeGaps, deprecatedGaps; }
      routeGaps, deprecatedGaps := routeGaps + newRouteGaps, deprecatedGaps + newDeprecatedGaps;
    }
    assert days[..|days|] == days;
  }

  /** First sightings: the time at which each process first appears in a daily list. */
  function Sightings(starts: seq<ProcessStart>): map<ProcessKey, int>
    decreases |starts|
  {
    if starts == [] then map[]
    else
      var seen := Sightings(starts[..|starts| - 1]);
      var s := starts[|starts| - 1];
      if s.key in seen then seen else seen[s.key := s.at]
  }

  /** The tuples `(first_observed_at, process_id)` of one service, in Python's order. */
  datatype Sighting = Sighting(at: int, process: nat)

  predicate Sooner(a: Sighting, b: Sighting) { a.at < b.at || (a.at == b.at && a.process < b.process) }

  function OfService(seen: map<ProcessKey, int>, service: string): set<Sighting>
  {
    set p | p in seen && p.service == service :: Sighting(seen[p], p.process)
  }

  /** Entry `i` is the first of its process. */
  predicate FirstEntry(starts: seq<ProcessStart>, i: nat)
    requires i < |starts|
  {
    forall j :: 0 <= j < i ==> starts[j].key != starts[i].key
  }

  /** `a` was sighted before `b`, of the same service; at the same time, the lesser process comes first. */
  predicate SightedBefore(a: ProcessStart, b: ProcessStart)
  {
    a.key.service == b.key.service && (a.at < b.at || (a.at == b.at && a.key.process < b.key.process))
  }

  /** Entry `i` is the first of its process, and that of an earlier one of its service exists. */
  ghost predicate Restarted(starts: seq<ProcessStart>, i: nat)
    requires i < |starts|
  {
    FirstEntry(starts, i) && exists j :: 0 <= j < |starts| && FirstEntry(starts, j) && SightedBefore(starts[j], starts[i])
  }

  lemma FirstEntrySnoc(starts: seq<ProcessStart>, n: nat, i: nat)
    requires i < n <= |starts|
    ensures FirstEntry(starts[..n], i) <==> FirstEntry(starts, i)
  {
    assert forall j :: 0 <= j <= i ==> starts[..n][j] == starts[j];
  }

  /** The first entry with a key gives its sighting. */
  lemma {:induction false} FirstEntryIsSighting(starts: seq<ProcessStart>, i: nat)
    requires i < |starts|
    ensures starts[i].key in Sightings(starts)
    ensures FirstEntry(starts, i) ==> Sightings(starts)[starts[i].key] == starts[i].at
    decreases |starts|
  {
    var n := |starts| - 1;
    if i < n {
      FirstEntryIsSighting(starts[..n], i);
      FirstEntrySnoc(starts, n, i);
    } else if starts[i].key in Sightings(starts[..n]) {
      var j := SightedByFirstEntry(starts[..n], starts[i].key);
      assert starts[j].key == starts[i].key;
    }
  }

  lemma {:induction false} SightedByFirstEntry(starts: seq<ProcessStart>, p: ProcessKey) returns (i: nat)
    requires p in Sightings(starts)
    ensures i < |starts| && starts[i].key == p && FirstEntry(starts, i) && Sightings(starts)[p] == starts[i].at
    decreases |starts|
  {
    var n := |starts| - 1;
    if p in Sightings(starts[..n]) {
      i := SightedByFirstEntry(starts[..n], p);
      FirstEntrySnoc(starts, n, i);
    } else {
      i := n;
      forall j | 0 <= j < n ensures starts[j].key != p {
        if starts[j].key == p { FirstEntryIsSighting(starts[..n], j); }
      }
    }
  }

  lemma LateIffRestarted(starts: seq<ProcessStart>, p: ProcessKey)
    ensures p in Sightings(starts) && Late(Sightings(starts), p) <==>
      exists i :: 0 <= i < |starts| && starts[i].key == p && Restarted(starts, i)
  {
    var seen := Sightings(starts);
    if p in seen && Late(seen, p) {
      var q :| q in seen && q.service == p.service && Sooner(Sighting(seen[q], q.process), Sighting(seen[p], p.process));
      var i := SightedByFirstEntry(starts, p);
      var j := SightedByFirstEntry(starts, q);
      assert SightedBefore(starts[j], starts[i]);
    }
    if i :| 0 <= i < |starts| && starts[i].key == p && Restarted(starts, i) {
      var j :| 0 <= j < |starts| && FirstEntry(starts, j) && SightedBefore(starts[j], starts[i]);
      FirstEntryIsSighting(starts, i);
      FirstEntryIsSighting(starts, j);
      assert Sooner(Sighting(seen[starts[j].key], starts[j].key.process), Sighting(seen[p], p.process));
    }
  }

  /** Reported are exactly the processes without an accepted restart entry whose first sighting
      comes after the first sighting of another process of their service. */
  method UnacceptedRestarts(starts: seq<ProcessStart>, accepted: set<ProcessKey>) returns (bad: set<ProcessKey>)
    ensures forall p :: p in bad <==>
      p !in accepted && exists i :: 0 <= i < |starts| && starts[i].key == p && Restarted(starts, i)
  {
    var seen: map<ProcessKey, int> := map[];
    for i := 0 to |starts|
      invariant seen == Sightings(starts[..i])
    {
      assert starts[..i + 1][..i] == starts[..i];
      if starts[i].key !in seen {
        seen := seen[starts[i].key := starts[i].at];
      }
    }
    assert starts[..|starts|] == starts;
    bad := {};
    var services := set p | p in seen :: p.service;
    while services != {}
      invariant forall p :: p in seen ==> (p in bad ==> p.service !in services)
      invariant forall p :: p in bad ==> p in seen
      invariant forall p :: p in seen && p.service !in services ==>
        (p in bad <==> p !in accepted && Late(seen, p))
      decreases |services|
    {
      var service :| service in services;
      var late := LateOfService(seen, service);
      bad := bad + (set x | x in late && ProcessKey(service, x.process) !in accepted :: ProcessKey(service, x.process));
      services := services - {service};
    }
    forall p
      ensures p in bad <==> p !in accepted && exists i :: 0 <= i < |starts| && starts[i].key == p && Restarted(starts, i)
    {
      LateIffRestarted(starts, p);
    }
  }

  ghost predicate Late(seen: map<ProcessKey, int>, p: ProcessKey)
    requires p in seen
  {
    exists q :: q in seen && q.service == p.service
      && Sooner(Sighting(seen[q], q.process), Sighting(seen[p], p.process))
  }

  lemma SoonerIsTotal()
    ensures StrictTotal(Sooner)
  {
  }

  function SortedSightings(seen: map<ProcessKey, int>, service: string): (sorted: seq<Sighting>)
    ensures forall x :: x in sorted <==> x in OfService(seen, service)
  {
    SoonerIsTotal();
    Sort(Sooner, OfService(seen, service))
  }

  lemma LateIff(seen: map<ProcessKey, int>, service: string, p: ProcessKey)
    requires p in seen && p.service == service
    ensures var sorted := SortedSightings(seen, service);
      sorted != [] && (Sighting(seen[p], p.process) in sorted[1..] <==> Late(seen, p))
  {
    var x := Sighting(seen[p], p.process);
    assert x in OfService(seen, service);
    SoonerIsTotal();
    TailIff(Sooner, OfService(seen, service), x);
    if Late(seen, p) {
      var q :| q in seen && q.service == p.service && Sooner(Sighting(seen[q], q.process), x);
      assert Sighting(seen[q], q.process) in OfService(seen, service);
    }
    if y :| y in OfService(seen, service) && Sooner(y, x) {
      assert ProcessKey(service, y.process) in seen;
    }
  }

  function LateOfService(seen: map<ProcessKey, int>, service: string): (late: seq<Sighting>)
    ensures forall x :: x in late ==>
      ProcessKey(service, x.process) in seen && x.at == seen[ProcessKey(service, x.process)]
    ensures forall p :: p in seen && p.service == service ==>
      (Sighting(seen[p], p.process) in late <==> Late(seen, p))
  {
    var sorted := SortedSightings(seen, service);
    var late := if sorted == [] then [] else sorted[1..];
    assert forall p :: p in seen && p.service == service ==> (Sighting(seen[p], p.process) in late <==> Late(seen, p)) by {
      forall p | p in seen && p.service == service ensures Sighting(seen[p], p.process) in late <==> Late(seen, p) {
        LateIff(seen, service, p);
      }
    }
    late
  }
}
