/** The optimistic job store of apps/api/app/state.py, run by any number of clients. */
module JobStore {
  import opened Wrappers

  datatype Status = Queued | Running | AwaitingReview | Failed

  datatype Stage =
    | QueuedStage | Scripting | Storyboarding | GeneratingVoice | GeneratingSubtitles | ResolvingAssets
    | BuildingManifest | Rendering | QualityCheck | AwaitingReviewStage | FailedStage

  /** STAGE_ORDER. */
  function Order(stage: Stage): nat
  {
    match stage
    case QueuedStage => 0
    case Scripting => 10
    case Storyboarding => 20
    case GeneratingVoice => 30
    case GeneratingSubtitles => 40
    case ResolvingAssets => 50
    case BuildingManifest => 60
    case Rendering => 70
    case QualityCheck => 90
    case AwaitingReviewStage => 100
    case FailedStage => 1000
  }

  datatype Artifact = Artifact(kind: string, name: string, url: string)

  datatype JobError = JobError(code: string, failedStage: Stage, retryable: bool)

  datatype JobRecord = JobRecord(status: Status, stage: Stage, progress: int, request: string,
                                 artifacts: seq<Artifact>, error: Option<JobError>, createdAt: int, updatedAt: int)

  function NewJob(request: string, now: int): JobRecord
  {
    JobRecord(Queued, QueuedStage, 0, request, [], None, now, now)
  }

  /** Stored text is validated whenever it is read back, and not when it is written. */
  predicate Readable(r: JobRecord) { 0 <= r.progress <= 100 }

  datatype Mutation =
    | UpdateStage(status: Status, stage: Stage, progress: int)
    | AddArtifact(artifact: Artifact)
    | Fail(error: JobError)

  datatype Refusal = NoSuchJob | Unreadable | ProgressDecreases | StageMovesBackwards

  datatype Outcome = Updated(record: JobRecord) | Refused(reason: Refusal)

  function ValidateTransition(current: JobRecord, stage: Stage, progress: int): Option<Refusal>
  {
    if progress < current.progress then Some(ProgressDecreases)
    else if stage != FailedStage && Order(stage) < Order(current.stage) then Some(StageMovesBackwards)
    else None
  }

  function Without(artifacts: seq<Artifact>, name: string): seq<Artifact>
    decreases |artifacts|
  {
    if artifacts == [] then []
    else
      var before, last := Without(artifacts[..|artifacts| - 1], name), artifacts[|artifacts| - 1];
      if last.name == name then before else before + [last]
  }

  function Mutate(m: Mutation, current: JobRecord, now: int): Outcome
  {
    match m
    case UpdateStage(status, stage, progress) =>
      var refusal := ValidateTransition(current, stage, progress);
      if refusal.Some? then Refused(refusal.value)
      else Updated(current.(status := status, stage := stage, progress := progress, updatedAt := now))
    case AddArtifact(artifact) =>
      Updated(current.(artifacts := Without(current.artifacts, artifact.name) + [artifact], updatedAt := now))
    case Fail(error) =>
      Updated(current.(status := Failed, stage := FailedStage, error := Some(error), updatedAt := now))
  }

  // ---------------------------------------------------------------------------------------
  // The stored key: every write it ever received. Its version, what WATCH compares, is their number.

  type ClientId = nat

  datatype Write = Created(record: JobRecord) | Committed(client: ClientId, mutation: Mutation, now: int, record: JobRecord)

  type History = seq<Write>

  /** GET, parse and mutate, on the state of the key after `history`. */
  function MutateLast(history: History, m: Mutation, now: int): Outcome
  {
    if history == [] then Refused(NoSuchJob)
    else
      var current := history[|history| - 1].record;
      if !Readable(current) then Refused(Unreadable) else Mutate(m, current, now)
  }

  /** Each write but the creation is the mutation applied to the immediately preceding record. */
  ghost predicate Serial(history: History)
  {
    && (history != [] ==> history[0].Created? && history[0].record == NewJob(history[0].record.request, history[0].record.createdAt))
    && forall i :: 0 < i < |history| ==> SerialAt(history, i)
  }

  ghost predicate SerialAt(history: History, i: nat)
    requires i < |history|
  {
    && history[i].Committed?
    && MutateLast(history[..i], history[i].mutation, history[i].now) == Updated(history[i].record)
  }

  lemma SerialSnoc(history: History, w: Write)
    requires Serial(history) && history != [] && w.Committed?
    requires MutateLast(history, w.mutation, w.now) == Updated(w.record)
    ensures Serial(history + [w])
  {
    forall i | 0 < i < |history| + 1 ensures SerialAt(history + [w], i) {
      assert (history + [w])[..i] == history[..i];
      if i < |history| {
        assert SerialAt(history, i);
      } else {
        assert history[..i] == history;
      }
    }
  }

  // ---------------------------------------------------------------------------------------
  // The retry loop

  datatype Request = Request(client: ClientId, mutation: Mutation, now: int)

  /** A whole operation of another client, run without interruption. */
  function Served(history: History, q: Request): History
  {
    var r := MutateLast(history, q.mutation, q.now);
    if r.Updated? then history + [Committed(q.client, q.mutation, q.now, r.record)] else history
  }

  function ServedAll(history: History, qs: seq<Request>): (h: History)
    ensures history <= h
    decreases |qs|
  {
    if qs == [] then history else Served(ServedAll(history, qs[..|qs| - 1]), qs[|qs| - 1])
  }

  class RedisJobStore {
    var history: History

    constructor ()
      ensures history == []
    {
      history := [];
    }

    /** SET NX. */
    method Create(request: string, now: int) returns (created: bool)
      modifies this
      ensures created <==> old(history) == []
      ensures history == if created then [Created(NewJob(request, now))] else old(history)
    {
      created := history == [];
      if created { history := [Created(NewJob(request, now))]; }
    }

    /** `rivals[k]` are the operations that other clients complete between WATCH and EXEC of this
        call's attempt `k`; they leave the call alone after the last listed attempt. */
    method MutateJob(client: ClientId, m: Mutation, now: int, rivals: seq<seq<Request>>) returns (r: Outcome, retries: nat)
      requires forall k, j :: 0 <= k < |rivals| && 0 <= j < |rivals[k]| ==> rivals[k][j].client != client
      modifies this
      ensures old(history) <= history
      ensures r.Updated? ==> history != [] && history[|history| - 1] == Committed(client, m, now, r.record)
      ensures r.Updated? ==> MutateLast(history[..|history| - 1], m, now) == r
      ensures r.Refused? ==> MutateLast(history, m, now) == r
      ensures forall i :: |old(history)| <= i < |history| - (if r.Updated? then 1 else 0) ==>
        history[i].Committed? && history[i].client != client
      ensures retries + (if r.Updated? then 1 else 0) <= |history| - |old(history)|
    {
      retries := 0;
      while true
        invariant old(history) <= history
        invariant retries <= |rivals|
        invariant retries <= |history| - |old(history)|
        invariant forall i :: |old(history)| <= i < |history| ==> history[i].Committed? && history[i].client != client
        decreases |rivals| - retries
      {
        var watched := |history|;
        r := MutateLast(history, m, now);
        if r.Refused? { return; }
        if retries < |rivals| {
          ServedByOthers(history, rivals[retries], client);
          history := ServedAll(history, rivals[retries]);
        }
        if |history| == watched {
          history := history + [Committed(client, m, now, r.record)];
          return;
        }
        retries := retries + 1;
      }
    }
  }

  lemma {:induction false} ServedByOthers(history: History, qs: seq<Request>, client: ClientId)
    requires forall j :: 0 <= j < |qs| ==> qs[j].client != client
    ensures forall i :: |history| <= i < |ServedAll(history, qs)| ==>
      ServedAll(history, qs)[i].Committed? && ServedAll(history, qs)[i].client != client
    decreases |qs|
  {
    if qs != [] { ServedByOthers(history, qs[..|qs| - 1], client); }
  }

  // ---------------------------------------------------------------------------------------
  // Interleaved clients

  /** Where a client stands in its current call. `began` is the version when the call began and
      `retries` the attempts it has lost so far. */
  datatype Client =
    | Idle(last: Option<Outcome>)
    | Calling(mutation: Mutation, now: int, began: nat, retries: nat, phase: Phase)

  datatype Phase = Starting | Watching(watched: nat) | Holding(watched: nat, outcome: Outcome)

  datatype System = System(history: History, clients: map<ClientId, Client>)

  datatype Event =
    | CreateJob(request: string, now: int)
    | Call(client: ClientId, mutation: Mutation, now: int)
    | Watch(client: ClientId)
    | Get(client: ClientId)
    | Exec(client: ClientId)

  function StateOf(s: System, client: ClientId): Client
  {
    if client in s.clients then s.clients[client] else Idle(None)
  }

  /** One step of one client; a step that its client cannot take changes nothing. */
  function Next(s: System, e: Event): System
  {
    match e
    case CreateJob(request, now) => if s.history == [] then s.(history := [Created(NewJob(request, now))]) else s
    case Call(c, m, now) =>
      if StateOf(s, c).Idle? then s.(clients := s.clients[c := Calling(m, now, |s.history|, 0, Starting)]) else s
    case Watch(c) =>
      var k := StateOf(s, c);
      if k.Calling? && k.phase.Starting? then s.(clients := s.clients[c := k.(phase := Watching(|s.history|))]) else s
    case Get(c) =>
      var k := StateOf(s, c);
      if !(k.Calling? && k.phase.Watching?) then s
      else
        var r := MutateLast(s.history, k.mutation, k.now);
        s.(clients := s.clients[c := if r.Refused? then Idle(Some(r)) else k.(phase := Holding(k.phase.watched, r))])
    case Exec(c) =>
      var k := StateOf(s, c);
      if !(k.Calling? && k.phase.Holding? && k.phase.outcome.Updated?) then s
      else if k.phase.watched == |s.history| then
        System(s.history + [Committed(c, k.mutation, k.now, k.phase.outcome.record)],
               s.clients[c := Idle(Some(k.phase.outcome))])
      else s.(clients := s.clients[c := k.(retries := k.retries + 1, phase := Starting)])
  }

  function After(events: seq<Event>): System
    decreases |events|
  {
    if events == [] then System([], map[]) else Next(After(events[..|events| - 1]), events[|events| - 1])
  }

  /** What a client that is in a call knows. */
  ghost predicate CallSound(history: History, c: ClientId, k: Client)
  {
    k.Calling? ==>
      && k.began <= |history|
      && (forall i :: k.began <= i < |history| ==> history[i].Created? || history[i].client != c)
      && match k.phase
         case Starting => k.retries <= |history| - k.began
         case Watching(w) => w <= |history| && k.retries <= w - k.began
         case Holding(w, r) => r.Updated? && w <= |history| && k.retries <= w - k.began
                               && exists n :: w <= n <= |history| && MutateLast(history[..n], k.mutation, k.now) == r
  }

  ghost predicate SystemSound(s: System)
  {
    Serial(s.history) && forall c :: c in s.clients ==> CallSound(s.history, c, s.clients[c])
  }

  lemma CallStaysSound(history: History, w: Write, c: ClientId, k: Client)
    requires CallSound(history, c, k) && (w.Created? || w.client != c)
    ensures CallSound(history + [w], c, k)
  {
    var longer := history + [w];
    if k.Calling? && k.phase.Holding? {
      var n :| k.phase.watched <= n <= |history| && MutateLast(history[..n], k.mutation, k.now) == k.phase.outcome;
      assert longer[..n] == history[..n];
    }
  }

  lemma NextIsSound(s: System, e: Event)
    requires SystemSound(s)
    ensures SystemSound(Next(s, e))
  {
    match e
    case CreateJob(request, now) =>
      if s.history == [] {
        var w := Created(NewJob(request, now));
        assert s.history + [w] == [w];
        forall c | c in s.clients ensures CallSound([w], c, s.clients[c]) { CallStaysSound([], w, c, s.clients[c]); }
      }
    case Call(c, m, now) =>
    case Watch(c) =>
    case Get(c) => GetIsSound(s, c);
    case Exec(c) => ExecIsSound(s, c);
  }

  lemma GetIsSound(s: System, c: ClientId)
    requires SystemSound(s)
    ensures SystemSound(Next(s, Get(c)))
  {
    var k := StateOf(s, c);
    if k.Calling? && k.phase.Watching? {
      assert CallSound(s.history, c, k);
      assert s.history[..|s.history|] == s.history;
      assert CallSound(s.history, c, StateOf(Next(s, Get(c)), c));
    }
  }

  lemma ExecIsSound(s: System, c: ClientId)
    requires SystemSound(s)
    ensures SystemSound(Next(s, Exec(c)))
  {
    var k := StateOf(s, c);
    if k.Calling? && k.phase.Holding? {
      assert CallSound(s.history, c, k);
      if k.phase.watched == |s.history| {
        assert s.history[..|s.history|] == s.history;
        var w := Committed(c, k.mutation, k.now, k.phase.outcome.record);
        SerialSnoc(s.history, w);
        forall d | d in s.clients && d != c ensures CallSound(s.history + [w], d, s.clients[d]) {
          CallStaysSound(s.history, w, d, s.clients[d]);
        }
      }
    }
  }

  lemma {:induction false} RunIsSound(events: seq<Event>)
    ensures SystemSound(After(events))
    decreases |events|
  {
    if events != [] {
      RunIsSound(events[..|events| - 1]);
      NextIsSound(After(events[..|events| - 1]), events[|events| - 1]);
    }
  }
}
