/** Provider alerts over every run of synchronisations and acknowledgements. */
module ProviderHealthRuns {
  import opened Decimals
  import opened ProviderHealth
  import opened Wrappers

  // ---------------------------------------------------------------------------------------
  // Conditions

  /** Which alert, how severe, each state of a provider raises; the other states raise none. */
  const RAISED := {(FailedProbe, ProbeFailed, Critical), (Stale, FreshnessStale, Critical),
                   (NoData, NoDataSeen, Warning), (Degraded, ConfigurationIncomplete, Warning)}

  predicate RaisedAt(observations: seq<Observation>, i: int, k: Key, severity: Severity)
  {
    0 <= i < |observations| && observations[i].provider == k.provider && (observations[i].state, k.alert, severity) in RAISED
  }

  /** Observation `i` is the last that raises the alert. */
  ghost predicate LastRaisedAt(observations: seq<Observation>, i: int, k: Key, c: Condition)
  {
    && RaisedAt(observations, i, k, c.severity) && observations[i].detail == c.detail
    && forall j, severity :: i < j < |observations| ==> !RaisedAt(observations, j, k, severity)
  }

  predicate RetryText(retries: nat, digits: string, text: string)
  {
    && Numeral(digits) && Value(digits) == retries
    && text == digits + " bounded delivery retry attempt(s) remain pending at the producer."
  }

  /** The three conditions of the deliveries themselves. */
  ghost predicate OfDeliveries(configured: bool, retries: nat, letters: nat, alert: AlertType, c: Condition)
  {
    || (alert == SigningNotConfigured && !configured && c == Condition(Critical, "Attribution receipt signing is not configured."))
    || (alert == RetryIsPending && retries > 0 && c.severity == Warning && exists digits :: RetryText(retries, digits, c.detail))
    || (alert == DeadLetterExists && letters > 0
        && c == Condition(Critical, "One or more delivery attempts require internal dead-letter review."))
  }

  lemma RaisesIff(observations: seq<Observation>, i: nat, k: Key)
    requires i < |observations|
    ensures Raises(observations, i, k) <==> exists severity :: RaisedAt(observations, i, k, severity)
    ensures Raises(observations, i, k) ==> RaisedAt(observations, i, k, AlertFor(observations[i].state).value.1)
    ensures forall severity :: RaisedAt(observations, i, k, severity) ==> AlertFor(observations[i].state).value.1 == severity
  {
    var o := observations[i];
    if Raises(observations, i, k) { assert RaisedAt(observations, i, k, AlertFor(o.state).value.1); }
  }

  lemma {:induction false} RaisedByLast(observations: seq<Observation>, k: Key) returns (i: int)
    ensures RaisedBy(observations, k).Some? ==> LastRaisedAt(observations, i, k, RaisedBy(observations, k).value)
    ensures RaisedBy(observations, k).None? ==> forall j, severity :: !RaisedAt(observations, j, k, severity)
    decreases |observations|
  {
    if observations == [] {
      i := 0;
    } else {
      var n := |observations| - 1;
      RaisesIff(observations, n, k);
      if Raises(observations, n, k) {
        i := n;
      } else {
        i := RaisedByLast(observations[..n], k);
        RaisedInFront(observations, n, k);
      }
    }
  }

  lemma RaisedInFront(observations: seq<Observation>, n: nat, k: Key)
    requires n <= |observations|
    ensures forall j, severity :: j < n ==> (RaisedAt(observations[..n], j, k, severity) <==> RaisedAt(observations, j, k, severity))
  {
  }

  lemma LastIsUnique(observations: seq<Observation>, i: int, c: Condition, j: int, d: Condition, k: Key)
    requires LastRaisedAt(observations, i, k, c) && LastRaisedAt(observations, j, k, d)
    ensures c == d
  {
    assert i == j;
    RaisesIff(observations, i, k);
  }

  lemma RaisedIsLast(observations: seq<Observation>, k: Key, c: Condition)
    ensures RaisedBy(observations, k) == Some(c) <==> exists i :: LastRaisedAt(observations, i, k, c)
  {
    var last := RaisedByLast(observations, k);
    if i :| LastRaisedAt(observations, i, k, c) {
      if RaisedBy(observations, k).Some? { LastIsUnique(observations, i, c, last, RaisedBy(observations, k).value, k); }
    }
  }

  lemma RetryTextIff(retries: nat, detail: string)
    ensures detail == RetryDetail(retries) <==> exists digits :: RetryText(retries, digits, detail)
  {
    DecimalIsNumeral(retries);
    if detail == RetryDetail(retries) { assert RetryText(retries, Decimal(retries), detail); }
    if digits :| RetryText(retries, digits, detail) { NumeralIsDecimal(digits); }
  }

  /** No observation raises an alert of the deliveries themselves. */
  lemma DeliveriesApart(observations: seq<Observation>, k: Key)
    requires k.alert == SigningNotConfigured || k.alert == RetryIsPending || k.alert == DeadLetterExists
    ensures RaisedBy(observations, k).None?
  {
    var last := RaisedByLast(observations, k);
  }

  lemma SigningCondition(observations: seq<Observation>, configured: bool, retries: nat, letters: nat, k: Key, c: Condition)
    requires k.alert == SigningNotConfigured && RaisedBy(observations, k).None?
    ensures ConditionAt(observations, configured, retries, letters, k) == Some(c) <==>
      k.provider == "attribution_delivery" && OfDeliveries(configured, retries, letters, k.alert, c)
  {
  }

  lemma RetryForm(observations: seq<Observation>, configured: bool, retries: nat, letters: nat, k: Key)
    requires k.alert == RetryIsPending
    ensures ConditionAt(observations, configured, retries, letters, k)
      == if retries > 0 && k == Key(DELIVERY_PROVIDER, RetryIsPending) then Some(Condition(Warning, RetryDetail(retries)))
         else RaisedBy(observations, k)
  {
    assert k != Key(DELIVERY_PROVIDER, SigningNotConfigured) && k != Key(DELIVERY_PROVIDER, DeadLetterExists);
  }

  lemma RetryOfDeliveries(configured: bool, retries: nat, letters: nat, c: Condition)
    requires retries > 0
    ensures c == Condition(Warning, RetryDetail(retries)) <==> OfDeliveries(configured, retries, letters, RetryIsPending, c)
  {
    RetryTextIff(retries, c.detail);
  }

  lemma RetryCondition(observations: seq<Observation>, configured: bool, retries: nat, letters: nat, k: Key, c: Condition)
    requires k.alert == RetryIsPending && RaisedBy(observations, k).None?
    ensures ConditionAt(observations, configured, retries, letters, k) == Some(c) <==>
      k.provider == "attribution_delivery" && OfDeliveries(configured, retries, letters, k.alert, c)
  {
    RetryForm(observations, configured, retries, letters, k);
    if retries > 0 { RetryOfDeliveries(configured, retries, letters, c); }
  }

  lemma LetterCondition(observations: seq<Observation>, configured: bool, retries: nat, letters: nat, k: Key, c: Condition)
    requires k.alert == DeadLetterExists && RaisedBy(observations, k).None?
    ensures ConditionAt(observations, configured, retries, letters, k) == Some(c) <==>
      k.provider == "attribution_delivery" && OfDeliveries(configured, retries, letters, k.alert, c)
  {
  }

  /** A condition holds exactly if an observation raises it, the last one deciding, or the deliveries
      do; no alert is raised by both. */
  lemma ConditionIff(observations: seq<Observation>, configured: bool, retries: nat, letters: nat, k: Key, c: Condition)
    ensures ConditionAt(observations, configured, retries, letters, k) == Some(c) <==>
      || (exists i :: LastRaisedAt(observations, i, k, c))
      || (k.provider == "attribution_delivery" && OfDeliveries(configured, retries, letters, k.alert, c))
  {
    RaisedIsLast(observations, k, c);
    match k.alert {
      case SigningNotConfigured =>
        DeliveriesApart(observations, k);
        SigningCondition(observations, configured, retries, letters, k, c);
      case RetryIsPending =>
        DeliveriesApart(observations, k);
        RetryCondition(observations, configured, retries, letters, k, c);
      case DeadLetterExists =>
        DeliveriesApart(observations, k);
        LetterCondition(observations, configured, retries, letters, k, c);
      case _ =>
    }
  }

  // ---------------------------------------------------------------------------------------
  // One synchronisation

  /** After a synchronisation the alerts not resolved are exactly those whose condition holds, and
      each of them shows the condition as it is now. */
  lemma SyncIsExact(alerts: Alerts, conditions: Conditions, now: int, k: Key)
    ensures var after := Synced(alerts, conditions, now);
      && (k in after && after[k].status != Resolved <==> k in conditions)
      && (k in conditions ==> Condition(after[k].severity, after[k].detail) == conditions[k] && after[k].lastDetectedAt == now)
      && (k in alerts ==> k in after)
  {
  }

  /** Synchronising again with the same conditions opens, reopens and resolves nothing. */
  lemma SecondSyncChangesNothing(alerts: Alerts, conditions: Conditions, now: int, later: int)
    ensures var once := Synced(alerts, conditions, now);
      && (forall c :: !IsChange(once, conditions, c))
      && Synced(once, conditions, later)
         == map k | k in once :: if k in conditions then once[k].(lastDetectedAt := later) else once[k]
  {
  }

  // ---------------------------------------------------------------------------------------
  // Runs

  datatype Operation = Sync(conditions: Conditions, now: int) | Acknowledge(key: Key, actor: string, at: int)

  function Apply(alerts: Alerts, op: Operation): Alerts
  {
    match op
    case Sync(conditions, now) => Synced(alerts, conditions, now)
    case Acknowledge(k, actor, at) => AcknowledgedIn(alerts, k, actor, at)
  }

  function After(ops: seq<Operation>): Alerts
    decreases |ops|
  {
    if ops == [] then map[] else Apply(After(ops[..|ops| - 1]), ops[|ops| - 1])
  }

  /** Whether the condition held at the last synchronisation of the run. */
  predicate Holds(ops: seq<Operation>, k: Key)
    decreases |ops|
  {
    if ops == [] then false
    else
      match ops[|ops| - 1]
      case Sync(conditions, _) => k in conditions
      case Acknowledge(_, _, _) => Holds(ops[..|ops| - 1], k)
  }

  /** A stretch of synchronisations with the condition begins with the last operation. */
  predicate Begins(ops: seq<Operation>, k: Key)
  {
    ops != [] && ops[|ops| - 1].Sync? && k in ops[|ops| - 1].conditions && !Holds(ops[..|ops| - 1], k)
  }

  /** The number of maximal stretches of synchronisations in which the condition held. */
  function Stretches(ops: seq<Operation>, k: Key): nat
    decreases |ops|
  {
    if ops == [] then 0 else Stretches(ops[..|ops| - 1], k) + if Begins(ops, k) then 1 else 0
  }

  /** When the latest stretch began. */
  function Since(ops: seq<Operation>, k: Key): int
    decreases |ops|
  {
    if ops == [] then 0 else if Begins(ops, k) then ops[|ops| - 1].now else Since(ops[..|ops| - 1], k)
  }

  /** The first acknowledgement of the alert in its latest stretch, if there was one while it lasted. */
  function FirstAcknowledgement(ops: seq<Operation>, k: Key): (op: Option<Operation>)
    ensures op.Some? ==> op.value.Acknowledge?
    decreases |ops|
  {
    if ops == [] then None
    else
      var before, op := ops[..|ops| - 1], ops[|ops| - 1];
      if Begins(ops, k) then None
      else if op.Acknowledge? && op.key == k && Holds(before, k) && FirstAcknowledgement(before, k).None? then Some(op)
      else FirstAcknowledgement(before, k)
  }

  /** The condition as it was last seen. */
  function LastShown(ops: seq<Operation>, k: Key): Option<Condition>
    decreases |ops|
  {
    if ops == [] then None
    else
      match ops[|ops| - 1]
      case Sync(conditions, _) => if k in conditions then Some(conditions[k]) else LastShown(ops[..|ops| - 1], k)
      case Acknowledge(_, _, _) => LastShown(ops[..|ops| - 1], k)
  }

  /** When a synchronisation last found the condition or found it gone. */
  function LastDetected(ops: seq<Operation>, k: Key): int
    decreases |ops|
  {
    if ops == [] then 0
    else
      var before := ops[..|ops| - 1];
      match ops[|ops| - 1]
      case Sync(conditions, now) => if k in conditions || Holds(before, k) then now else LastDetected(before, k)
      case Acknowledge(_, _, _) => LastDetected(before, k)
  }

  /** What the alert under `k` has to be after a run: everything about it is a function of when the
      condition held and who acknowledged it. */
  ghost predicate Explained(alerts: Alerts, ops: seq<Operation>, k: Key)
  {
    && (k in alerts <==> Stretches(ops, k) > 0)
    && (Holds(ops, k) ==> k in alerts)
    && (k in alerts ==> ExplainedAlert(alerts[k], ops, k))
  }

  ghost predicate ExplainedAlert(a: Alert, ops: seq<Operation>, k: Key)
  {
    var ack := FirstAcknowledgement(ops, k);
    && a.occurrences == Stretches(ops, k) && a.firstDetectedAt == Since(ops, k) && a.lastDetectedAt == LastDetected(ops, k)
    && LastShown(ops, k) == Some(Condition(a.severity, a.detail))
    && a.acknowledgedBy == (if ack.Some? then Some(ack.value.actor) else None)
    && a.acknowledgedAt == (if ack.Some? then Some(ack.value.at) else None)
    && a.status == (if !Holds(ops, k) then Resolved else if ack.Some? then Acknowledged else Open)
    && a.resolvedAt == (if Holds(ops, k) then None else Some(LastDetected(ops, k)))
  }

  /** In every run, `occurrence_count` is the number of maximal stretches, an alert is open or
      acknowledged exactly while its condition persists, and an acknowledgement lasts exactly as
      long as the stretch it was made in. */
  lemma {:induction false} RunExplainsAlerts(ops: seq<Operation>, k: Key)
    ensures Explained(After(ops), ops, k)
    decreases |ops|
  {
    if ops != [] { RunExplainsAlerts(ops[..|ops| - 1], k); }
  }

  /** An acknowledgement survives any number of synchronisations in which the condition persists. */
  lemma {:induction false} AcknowledgementSurvives(ops: seq<Operation>, n: nat, k: Key)
    requires n <= |ops| && k in After(ops[..n]) && After(ops[..n])[k].status == Acknowledged
    requires forall i :: n <= i < |ops| && ops[i].Sync? ==> k in ops[i].conditions
    ensures k in After(ops)
    ensures After(ops)[k].status == Acknowledged && After(ops)[k].acknowledgedBy == After(ops[..n])[k].acknowledgedBy
      && After(ops)[k].acknowledgedAt == After(ops[..n])[k].acknowledgedAt
    decreases |ops|
  {
    if n == |ops| {
      assert ops[..n] == ops;
    } else {
      var front := ops[..|ops| - 1];
      assert front[..n] == ops[..n];
      AcknowledgementSurvives(front, n, k);
    }
  }
}
