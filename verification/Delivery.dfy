/** Signed, at-most-once deliveries on top of attribution intake:
    services/agent_hub/npd_agent_hub/delivery_observability.py. */
module Delivery {
  import opened Attribution
  import opened Wrappers

  datatype FailureCode =
    | NetworkTimeout | RateLimited | Provider5xx | ProviderAuth | InvalidPayload | IntegrityConflict | UnknownFailure

  /** Receipts are stored under a digest of delivery id and attempt number, dead letters under one
      of these and the reason; both digests are taken to be injective. */
  datatype Attempt = Attempt(delivery: string, number: nat)

  datatype LetterId = LetterId(attempt: Attempt, reason: FailureCode)

  /** A payload that passed its own validation. */
  datatype Submission =
    | Envelope(attempt: Attempt, producer: string, source: Source, maxAttempts: nat, metadata: string, events: seq<SourceEvent>)
    | Failure(attempt: Attempt, producer: string, source: Source, maxAttempts: nat, metadata: string, error: FailureCode)

  predicate ValidSubmission(p: Submission)
  {
    && 1 <= p.attempt.number <= p.maxAttempts <= 10
    && (p.Envelope? ==> 1 <= |p.events| <= 500 && forall e :: e in p.events ==> e.source == p.source)
  }

  datatype Delivered = Accepted | Partial | RetryPending | DeadLettered

  /** What a receipt says; the payload digest determines the payload. */
  datatype Body = Body(digest: Submission, outcome: Delivered, counts: Snapshot, nextRetryAt: Option<int>,
                       receivedAt: int, keyId: string)

  /** An ideal keyed digest: no two of its values are equal unless key and message are. */
  datatype Signature = Hmac(key: string, body: Body) | Text(text: string)

  datatype Receipt = Receipt(body: Body, signature: Signature)

  datatype DeadLetter = DeadLetter(digest: Submission, reason: FailureCode, createdAt: int)

  datatype AuditEvent = Conflicted(attempt: Attempt) | Received(attempt: Attempt) | FailureRecorded(attempt: Attempt)

  datatype Config = Config(signingKey: string, keyId: string, maxAttempts: int)

  datatype Deliveries = Deliveries(book: State, receipts: map<Attempt, Receipt>, letters: map<LetterId, DeadLetter>,
                                   audits: seq<AuditEvent>)

  datatype Refusal = NotConfigured | OverBudget | ChangedPayload | UnusableKeyId | IncomparableTimes

  datatype Reply = Answer(receipt: Receipt) | Refused(why: Refusal)

  predicate Configured(c: Config) { |c.signingKey| >= 32 && c.keyId != "" }

  /** The bounds that a receipt puts on its key id when it is built. */
  predicate UsableKeyId(c: Config) { 3 <= |c.keyId| <= 80 }

  function BudgetRefusal(c: Config, p: Submission): Option<Refusal>
  {
    if c.maxAttempts < 1 || c.maxAttempts > 10 then Some(NotConfigured)
    else if p.maxAttempts > c.maxAttempts || p.attempt.number > c.maxAttempts then Some(OverBudget)
    else None
  }

  function Signed(c: Config, body: Body): Receipt { Receipt(body, Hmac(c.signingKey, body)) }

  function Power2(n: nat): nat { if n == 0 then 1 else 2 * Power2(n - 1) }

  function RetryDelay(attempt: nat): nat
    requires attempt >= 1
  {
    if 30 * Power2(attempt - 1) < 900 then 30 * Power2(attempt - 1) else 900
  }

  function EnvelopeBody(c: Config, r: Snapshot, p: Submission, now: int): Body
    requires p.Envelope?
  {
    Body(p, if r.unknown > 0 || r.conflicts > 0 then Partial else Accepted, r, None, now, c.keyId)
  }

  predicate Exhausted(p: Submission) { p.attempt.number >= p.maxAttempts }

  function FailureBody(c: Config, p: Submission, now: int): Body
    requires p.Failure? && ValidSubmission(p)
  {
    Body(p, if Exhausted(p) then DeadLettered else RetryPending, EMPTY_SNAPSHOT,
         if Exhausted(p) then None else Some(now + RetryDelay(p.attempt.number)), now, c.keyId)
  }

  function WithLetter(s: Deliveries, p: Submission, reason: FailureCode, now: int): Deliveries
  {
    var id := LetterId(p.attempt, reason);
    if id in s.letters then s else s.(letters := s.letters[id := DeadLetter(p, reason, now)])
  }

  function WithAudit(s: Deliveries, e: AuditEvent): Deliveries { s.(audits := s.audits + [e]) }

  function WithReceipt(s: Deliveries, r: Receipt): Deliveries
  {
    s.(receipts := s.receipts[r.body.digest.attempt := r])
  }

  /** What follows the intake `x` of an envelope: its rows are stored before the receipt is built. */
  function Booked(c: Config, s: Deliveries, p: Submission, x: Intake, now: int): (Reply, Deliveries)
    requires p.Envelope?
  {
    var receipt := Signed(c, EnvelopeBody(c, x.counts, p, now));
    var ingested := s.(book := x.state);
    if Mixed(x) then (Refused(IncomparableTimes), ingested)
    else if !UsableKeyId(c) then (Refused(UnusableKeyId), ingested)
    else (Answer(receipt), WithAudit(WithReceipt(ingested, receipt), Received(p.attempt)))
  }

  function Failed(c: Config, s: Deliveries, p: Submission, now: int): (Reply, Deliveries)
    requires p.Failure? && ValidSubmission(p)
  {
    var receipt := Signed(c, FailureBody(c, p, now));
    if !UsableKeyId(c) then (Refused(UnusableKeyId), s)
    else
      var saved := WithReceipt(s, receipt);
      (Answer(receipt), WithAudit(if Exhausted(p) then WithLetter(saved, p, p.error, now) else saved, FailureRecorded(p.attempt)))
  }

  /** The first submission of an attempt. */
  function HandleNew(c: Config, s: Deliveries, p: Submission, now: int): (Reply, Deliveries)
    requires ValidSubmission(p)
  {
    if p.Envelope? then Booked(c, s, p, IngestBatch(s.book, p.events, now), now) else Failed(c, s, p, now)
  }

  function Handle(c: Config, s: Deliveries, p: Submission, now: int): (Reply, Deliveries)
    requires ValidSubmission(p)
  {
    if !Configured(c) then (Refused(NotConfigured), s)
    else if BudgetRefusal(c, p).Some? then (Refused(BudgetRefusal(c, p).value), s)
    else if p.attempt !in s.receipts then HandleNew(c, s, p, now)
    else if s.receipts[p.attempt].body.digest == p then (Answer(s.receipts[p.attempt]), s)
    else (Refused(ChangedPayload), WithAudit(WithLetter(s, p, IntegrityConflict, now), Conflicted(p.attempt)))
  }

  // ---------------------------------------------------------------------------------------
  // Verification

  /** None if the active key id is among the historical ones. */
  function Keyring(historical: map<string, string>, c: Config): Option<map<string, string>>
  {
    if c.keyId in historical then None
    else Some(if c.keyId != "" && |c.signingKey| >= 32 then historical[c.keyId := c.signingKey] else historical)
  }

  predicate Verifies(keyring: map<string, string>, r: Receipt)
  {
    r.body.keyId in keyring && r.signature == Hmac(keyring[r.body.keyId], r.body)
  }

  class DeliveryService {
    const config: Config
    const attribution: AttributionService
    var receipts: map<Attempt, Receipt>
    var letters: map<LetterId, DeadLetter>
    var audits: seq<AuditEvent>

    constructor (config: Config, attribution: AttributionService)
      ensures this.config == config && this.attribution == attribution
      ensures receipts == map[] && letters == map[] && audits == []
    {
      this.config, this.attribution := config, attribution;
      receipts, letters, audits := map[], map[], [];
    }

    function Stored(): Deliveries
      reads this, attribution
    {
      Deliveries(attribution.Stored(), receipts, letters, audits)
    }

    /** `_save_dead_letter`: an existing letter of the same id is kept. */
    method SaveDeadLetter(p: Submission, reason: FailureCode, now: int)
      modifies this`letters
      ensures Stored() == WithLetter(old(Stored()), p, reason, now)
    {
      if LetterId(p.attempt, reason) in letters { return; }
      letters := letters[LetterId(p.attempt, reason) := DeadLetter(p, reason, now)];
    }

    /** `_existing_or_conflict`. */
    method ExistingOrConflict(p: Submission, now: int) returns (r: Option<Reply>)
      modifies this`letters, this`audits
      ensures r.None? <==> p.attempt !in old(receipts)
      ensures r.None? ==> Stored() == old(Stored())
      ensures r.Some? && old(receipts)[p.attempt].body.digest == p ==>
        r.value == Answer(old(receipts)[p.attempt]) && Stored() == old(Stored())
      ensures r.Some? && old(receipts)[p.attempt].body.digest != p ==>
        r.value == Refused(ChangedPayload)
        && Stored() == WithAudit(WithLetter(old(Stored()), p, IntegrityConflict, now), Conflicted(p.attempt))
    {
      if p.attempt !in receipts { return None; }
      var existing := receipts[p.attempt];
      if existing.body.digest == p { return Some(Answer(existing)); }
      SaveDeadLetter(p, IntegrityConflict, now);
      audits := audits + [Conflicted(p.attempt)];
      r := Some(Refused(ChangedPayload));
    }

    method Ingest(p: Submission, now: int) returns (r: Reply)
      requires p.Envelope? && ValidSubmission(p)
      modifies this, attribution
      ensures r == Handle(config, old(Stored()), p, now).0 && Stored() == Handle(config, old(Stored()), p, now).1
    {
      if !Configured(config) { return Refused(NotConfigured); }
      var refusal := BudgetRefusal(config, p);
      if refusal.Some? { return Refused(refusal.value); }
      var known := ExistingOrConflict(p, now);
      if known.Some? { return known.value; }
      ghost var before := attribution.Stored();
      var snapshot := attribution.IngestSourceTouchpoints(p.events, now);
      if snapshot.None? { return Refused(IncomparableTimes); }
      var counts := snapshot.value;
      var outcome := if counts.unknown > 0 || counts.conflicts > 0 then Partial else Accepted;
      if !UsableKeyId(config) { return Refused(UnusableKeyId); }
      var receipt := Signed(config, Body(p, outcome, counts, None, now, config.keyId));
      assert receipt == Signed(config, EnvelopeBody(config, SnapshotOf(before, p.events, now), p, now));
      receipts := receipts[p.attempt := receipt];
      audits := audits + [Received(p.attempt)];
      r := Answer(receipt);
    }

    method RecordFailure(p: Submission, now: int) returns (r: Reply)
      requires p.Failure? && ValidSubmission(p)
      modifies this
      ensures r == Handle(config, old(Stored()), p, now).0 && Stored() == Handle(config, old(Stored()), p, now).1
    {
      if !Configured(config) { return Refused(NotConfigured); }
      var refusal := BudgetRefusal(config, p);
      if refusal.Some? { return Refused(refusal.value); }
      var known := ExistingOrConflict(p, now);
      if known.Some? { return known.value; }
      var exhausted := p.attempt.number >= p.maxAttempts;
      var delay := RetryDelay(p.attempt.number);
      if !UsableKeyId(config) { return Refused(UnusableKeyId); }
      var receipt := Signed(config,
        Body(p, if exhausted then DeadLettered else RetryPending, EMPTY_SNAPSHOT,
             if exhausted then None else Some(now + delay), now, config.keyId));
      receipts := receipts[p.attempt := receipt];
      if exhausted { SaveDeadLetter(p, p.error, now); }
      audits := audits + [FailureRecorded(p.attempt)];
      r := Answer(receipt);
    }
  }
}
