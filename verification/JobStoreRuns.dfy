/** What every interleaving of job-store clients guarantees. */
module JobStoreRuns {
  import opened Wrappers
  import opened JobStore

  function Last(history: History): JobRecord
    requires history != []
  {
    history[|history| - 1].record
  }

  /** In every interleaving the committed records are those of the committed mutations applied one
      after the other, each to the record that the write before it left. */
  lemma RunsAreSerial(events: seq<Event>)
    ensures Serial(After(events).history)
  {
    RunIsSound(events);
  }

  /** A call loses at most as many attempts as there were writes by others since it began. */
  lemma RetriesAreBounded(events: seq<Event>, c: ClientId)
    ensures var s := After(events); var k := StateOf(s, c);
      k.Calling? ==>
        k.began + k.retries <= |s.history|
        && forall i :: k.began <= i < |s.history| ==> s.history[i].Created? || s.history[i].client != c
  {
    RunIsSound(events);
    var s := After(events);
    if c in s.clients { assert CallSound(s.history, c, s.clients[c]); }
  }

  /** A call that nobody disturbs is the whole read, mutation and write at once. */
  lemma UndisturbedCall(s: System, c: ClientId, m: Mutation, now: int)
    requires StateOf(s, c).Idle?
    ensures var t := Next(Next(Next(Next(s, Call(c, m, now)), Watch(c)), Get(c)), Exec(c));
      t.history == Served(s.history, Request(c, m, now)) && StateOf(t, c) == Idle(Some(MutateLast(s.history, m, now)))
  {
    var r := MutateLast(s.history, m, now);
    var called := Next(s, Call(c, m, now));
    var watching := Next(called, Watch(c));
    assert StateOf(watching, c) == Calling(m, now, |s.history|, 0, Watching(|s.history|));
    var got := Next(watching, Get(c));
    assert StateOf(got, c)
        == if r.Refused? then Idle(Some(r)) else Calling(m, now, |s.history|, 0, Holding(|s.history|, r));
  }

  /** The events of a call that nobody disturbs. */
  function Calls(c: ClientId, m: Mutation, now: int): seq<Event> { [Call(c, m, now), Watch(c), Get(c), Exec(c)] }

  lemma AfterSnoc(events: seq<Event>, e: Event)
    ensures After(events + [e]) == Next(After(events), e)
  {
    assert (events + [e])[..|events|] == events;
  }

  lemma AfterCall(events: seq<Event>, c: ClientId, m: Mutation, now: int)
    requires StateOf(After(events), c).Idle?
    ensures After(events + Calls(c, m, now)).history == Served(After(events).history, Request(c, m, now))
    ensures StateOf(After(events + Calls(c, m, now)), c).Idle?
  {
    AfterSnoc(events, Call(c, m, now));
    AfterSnoc(events + [Call(c, m, now)], Watch(c));
    AfterSnoc(events + [Call(c, m, now)] + [Watch(c)], Get(c));
    AfterSnoc(events + [Call(c, m, now)] + [Watch(c)] + [Get(c)], Exec(c));
    assert events + [Call(c, m, now)] + [Watch(c)] + [Get(c)] + [Exec(c)]
        == events + Calls(c, m, now);
    UndisturbedCall(After(events), c, m, now);
  }

  // ---------------------------------------------------------------------------------------
  // What a write does

  /** The stages in the order in which a job may pass them. */
  const STAGES := [QueuedStage, Scripting, Storyboarding, GeneratingVoice, GeneratingSubtitles, ResolvingAssets,
                   BuildingManifest, Rendering, QualityCheck, AwaitingReviewStage, FailedStage]

  /** Stage `b` is `a` or a later one. */
  ghost predicate Onward(a: Stage, b: Stage)
  {
    InOrder(STAGES, a, b)
  }

  ghost predicate InOrder(stages: seq<Stage>, a: Stage, b: Stage)
  {
    exists i, j :: 0 <= i <= j < |stages| && stages[i] == a && stages[j] == b
  }

  lemma StageIndex(s: Stage) returns (i: nat)
    ensures i < |STAGES| && STAGES[i] == s
  {
    i := match s
      case QueuedStage => 0
      case Scripting => 1
      case Storyboarding => 2
      case GeneratingVoice => 3
      case GeneratingSubtitles => 4
      case ResolvingAssets => 5
      case BuildingManifest => 6
      case Rendering => 7
      case QualityCheck => 8
      case AwaitingReviewStage => 9
      case FailedStage => 10;
  }

  lemma StagesRise(i: nat, j: nat)
    requires i < j < |STAGES|
    ensures Order(STAGES[i]) < Order(STAGES[j])
  {
  }

  lemma OnwardRises(a: Stage, b: Stage)
    requires Onward(a, b)
    ensures Order(a) <= Order(b)
  {
    forall i: nat, j: nat | i < j < |STAGES| ensures Order(STAGES[i]) < Order(STAGES[j]) { StagesRise(i, j); }
    InOrderRises(STAGES, a, b);
  }

  lemma InOrderRises(stages: seq<Stage>, a: Stage, b: Stage)
    requires InOrder(stages, a, b)
    requires forall i: nat, j: nat :: i < j < |stages| ==> Order(stages[i]) < Order(stages[j])
    ensures Order(a) <= Order(b)
  {
  }

  lemma OnwardOrBack(a: Stage, b: Stage)
    ensures Onward(a, b) || (Onward(b, a) && Order(b) < Order(a))
  {
    var i := StageIndex(a);
    var j := StageIndex(b);
    if j < i { StagesRise(j, i); }
  }

  lemma OnwardIff(a: Stage, b: Stage)
    ensures Onward(a, b) <==> Order(a) <= Order(b)
  {
    OnwardOrBack(a, b);
    if Onward(a, b) { OnwardRises(a, b); }
  }

  /** Why a mutation of the record is refused: it lowers the progress or, that apart, goes back to
      an earlier stage; nothing else is. */
  lemma RefusedIff(current: JobRecord, m: Mutation, now: int)
    ensures Mutate(m, current, now).Refused? <==>
      m.UpdateStage? && (m.progress < current.progress || !Onward(current.stage, m.stage))
    ensures Mutate(m, current, now) == Refused(ProgressDecreases) <==> m.UpdateStage? && m.progress < current.progress
    ensures Mutate(m, current, now) == Refused(StageMovesBackwards) <==>
      m.UpdateStage? && m.progress >= current.progress && !Onward(current.stage, m.stage)
  {
    if m.UpdateStage? { OnwardIff(current.stage, m.stage); }
  }

  /** The record that a mutation leaves: what it sets, the time, and all else as it was. */
  ghost predicate Follows(before: JobRecord, m: Mutation, now: int, after: JobRecord)
  {
    && after.request == before.request && after.createdAt == before.createdAt && after.updatedAt == now
    && match m
       case UpdateStage(status, stage, progress) =>
         && after.status == status && after.stage == stage && after.progress == progress
         && after.artifacts == before.artifacts && after.error == before.error
         && progress >= before.progress && Onward(before.stage, stage)
       case AddArtifact(artifact) =>
         && after.artifacts != [] && after.artifacts[|after.artifacts| - 1] == artifact
         && after.artifacts[..|after.artifacts| - 1] == Without(before.artifacts, artifact.name)
         && after.status == before.status && after.stage == before.stage && after.progress == before.progress
         && after.error == before.error
       case Fail(error) =>
         && after.status == Failed && after.stage == FailedStage && after.error == Some(error)
         && after.progress == before.progress && after.artifacts == before.artifacts
  }

  /** Every write but the first leaves its mutation of the record before it. */
  lemma WriteFollows(history: History, i: nat)
    requires Serial(history) && 0 < i < |history|
    ensures history[i].Committed? && Follows(history[i - 1].record, history[i].mutation, history[i].now, history[i].record)
    ensures Readable(history[i - 1].record)
  {
    assert SerialAt(history, i);
    assert history[..i][|history[..i]| - 1] == history[i - 1];
    var m := history[i].mutation;
    RefusedIff(history[i - 1].record, m, history[i].now);
    if m.AddArtifact? {
      var rest := Without(history[i - 1].record.artifacts, m.artifact.name);
      assert (rest + [m.artifact])[..|rest|] == rest;
    }
  }

  /** The first write of every run is the queued job of the first request to create one. */
  lemma {:induction false} FirstWrite(events: seq<Event>) returns (n: nat)
    requires After(events).history != []
    ensures n < |events| && events[n].CreateJob? && forall m :: 0 <= m < n ==> !events[m].CreateJob?
    ensures var r := After(events).history[0].record;
      && After(events).history[0].Created? && r.request == events[n].request
      && r.createdAt == events[n].now && r.updatedAt == events[n].now
      && r.status == Queued && r.stage == QueuedStage && r.progress == 0 && r.artifacts == [] && r.error == None
    decreases |events|
  {
    var front, e := events[..|events| - 1], events[|events| - 1];
    if After(front).history != [] {
      n := FirstWrite(front);
      KeepsFirstWrite(After(front), e);
    } else {
      n := |front|;
      forall m | 0 <= m < n ensures !events[m].CreateJob? {
        if events[m].CreateJob? { CreatedSince(front, m); }
      }
      RunIsSound(front);
      NothingToExecute(After(front), e);
    }
  }

  lemma KeepsFirstWrite(s: System, e: Event)
    requires s.history != []
    ensures Next(s, e).history != [] && Next(s, e).history[0] == s.history[0]
  {
  }

  lemma NothingToExecute(s: System, e: Event)
    requires SystemSound(s) && s.history == [] && Next(s, e).history != []
    ensures e.CreateJob? && Next(s, e).history == [Created(NewJob(e.request, e.now))]
  {
    if e.Exec? && e.client in s.clients { NothingHeld(s.history, e.client, s.clients[e.client]); }
  }

  lemma NothingHeld(history: History, c: ClientId, k: Client)
    requires CallSound(history, c, k)
    ensures k.Calling? && k.phase.Holding? ==> history != []
  {
    assert history[..0] == [];
  }

  lemma {:induction false} CreatedSince(events: seq<Event>, m: nat)
    requires m < |events| && events[m].CreateJob?
    ensures After(events).history != []
    decreases |events|
  {
    var front := events[..|events| - 1];
    if m < |front| {
      CreatedSince(front, m);
      KeepsFirstWrite(After(front), events[|events| - 1]);
    }
  }

  // ---------------------------------------------------------------------------------------
  // Progress and stage

  lemma StepAdvances(history: History, i: nat)
    requires Serial(history) && 0 < i < |history|
    ensures history[i - 1].record.progress <= history[i].record.progress
    ensures Order(history[i - 1].record.stage) <= Order(history[i].record.stage)
  {
    assert SerialAt(history, i);
    assert history[..i][|history[..i]| - 1] == history[i - 1];
  }

  lemma {:induction false} OrderAdvances(history: History, i: nat, j: nat)
    requires Serial(history) && i <= j < |history|
    ensures history[i].record.progress <= history[j].record.progress
    ensures Order(history[i].record.stage) <= Order(history[j].record.stage)
    decreases j
  {
    if i < j {
      OrderAdvances(history, i, j - 1);
      StepAdvances(history, j);
    }
  }

  /** From any committed record to any later one the progress never falls and the stage never goes
      back. */
  lemma HistoryAdvances(history: History, i: nat, j: nat)
    requires Serial(history) && i <= j < |history|
    ensures history[i].record.progress <= history[j].record.progress
    ensures Onward(history[i].record.stage, history[j].record.stage)
  {
    OrderAdvances(history, i, j);
    OnwardIff(history[i].record.stage, history[j].record.stage);
  }

  /** Once the stage is FAILED it stays FAILED. */
  lemma FailedStageIsFinal(history: History, i: nat, j: nat)
    requires Serial(history) && i <= j < |history| && history[i].record.stage == FailedStage
    ensures history[j].record.stage == FailedStage
  {
    OrderAdvances(history, i, j);
  }

  /** The status is not protected by that: a write takes a failed job out of status FAILED exactly
      if it is an update to stage FAILED with another status. */
  lemma FailedStatusIsLeftIff(history: History, i: nat)
    requires Serial(history) && 0 < i < |history|
    requires history[i - 1].record.stage == FailedStage && history[i - 1].record.status == Failed
    ensures history[i].Committed?
    ensures var m := history[i].mutation;
      history[i].record.status != Failed <==> m.UpdateStage? && m.stage == FailedStage && m.status != Failed
  {
    assert SerialAt(history, i);
    assert history[..i][|history[..i]| - 1] == history[i - 1];
  }

  /** And any client can make that write. */
  lemma FailedStatusCanBeLeft(s: System, c: ClientId, now: int)
    requires s.history != [] && Readable(Last(s.history)) && Last(s.history).stage == FailedStage && StateOf(s, c).Idle?
    ensures var m := UpdateStage(Running, FailedStage, Last(s.history).progress);
      var t := Next(Next(Next(Next(s, Call(c, m, now)), Watch(c)), Get(c)), Exec(c));
      t.history != [] && Last(t.history).status == Running && Last(t.history).stage == FailedStage
  {
    UndisturbedCall(s, c, UpdateStage(Running, FailedStage, Last(s.history).progress), now);
  }

  /** A run that does it: a new job is failed, and one update takes it out of status FAILED, its
      stage and its recorded error standing. */
  lemma RunLeavesFailedStatus(c: ClientId, request: string, error: JobError, now: int)
    ensures var failed := [CreateJob(request, now)] + Calls(c, Fail(error), now);
      && After(failed).history != [] && Last(After(failed).history).status == Failed
      && Last(After(failed).history).stage == FailedStage
      && var left := After(failed + Calls(c, UpdateStage(Running, FailedStage, 0), now)).history;
         left != [] && Last(left).status == Running && Last(left).stage == FailedStage && Last(left).error == Some(error)
  {
    var created, failed := [CreateJob(request, now)], [CreateJob(request, now)] + Calls(c, Fail(error), now);
    AfterSnoc([], CreateJob(request, now));
    assert [] + created == created;
    AfterCall(created, c, Fail(error), now);
    AfterCall(failed, c, UpdateStage(Running, FailedStage, 0), now);
  }

  // ---------------------------------------------------------------------------------------
  // Readability

  /** A stored job can be read back unless its last write raised the progress above 100. */
  lemma UnreadableIff(history: History)
    requires Serial(history) && history != []
    ensures var w := history[|history| - 1];
      !Readable(w.record) <==> w.Committed? && w.mutation.UpdateStage? && w.mutation.progress > 100
  {
    var n := |history| - 1;
    if n > 0 {
      assert SerialAt(history, n);
      assert history[..n][|history[..n]| - 1] == history[n - 1];
    }
  }

  /** One client is enough: a new job, and one update to a progress of 101, which nothing refuses. */
  lemma RunBecomesUnreadable(c: ClientId, request: string, now: int)
    ensures var h := After([CreateJob(request, now)] + Calls(c, UpdateStage(Running, Scripting, 101), now)).history;
      |h| == 2 && !Readable(Last(h))
  {
    var created := [CreateJob(request, now)];
    AfterSnoc([], CreateJob(request, now));
    assert [] + created == created;
    AfterCall(created, c, UpdateStage(Running, Scripting, 101), now);
  }

  /** Such a job accepts no further write in any continuation: every later call is refused. */
  lemma {:induction false} UnreadableIsFinal(events: seq<Event>, n: nat)
    requires n <= |events| && After(events[..n]).history != [] && !Readable(Last(After(events[..n]).history))
    ensures After(events).history == After(events[..n]).history
    decreases |events|
  {
    if n == |events| {
      assert events[..n] == events;
    } else {
      var front := events[..|events| - 1];
      assert front[..n] == events[..n];
      UnreadableIsFinal(front, n);
      RunIsSound(front);
      UnreadableStep(After(front), events[|events| - 1]);
    }
  }

  lemma HeldIsReadable(history: History, c: ClientId, k: Client)
    requires CallSound(history, c, k) && k.Calling? && k.phase.Holding? && k.phase.watched == |history|
    ensures history != [] && Readable(Last(history))
  {
    assert history[..|history|] == history;
  }

  lemma UnreadableStep(s: System, e: Event)
    requires SystemSound(s) && s.history != [] && !Readable(Last(s.history))
    ensures Next(s, e).history == s.history
  {
    if e.Exec? && e.client in s.clients {
      var k := s.clients[e.client];
      if k.Calling? && k.phase.Holding? && k.phase.watched == |s.history| {
        HeldIsReadable(s.history, e.client, k);
      }
    }
  }

  // ---------------------------------------------------------------------------------------
  // Artifacts

  /** The artifacts added by the writes of a history, in commit order. */
  function Added(history: History): seq<Artifact>
    decreases |history|
  {
    if history == [] then []
    else
      var before, w := Added(history[..|history| - 1]), history[|history| - 1];
      if w.Committed? && w.mutation.AddArtifact? then before + [w.mutation.artifact] else before
  }

  predicate Named(artifacts: seq<Artifact>, name: string) { exists j :: 0 <= j < |artifacts| && artifacts[j].name == name }

  /** The additions that no later addition of the same name replaces. */
  function Latest(added: seq<Artifact>): seq<Artifact>
  {
    if added == [] then []
    else if Named(added[1..], added[0].name) then Latest(added[1..])
    else [added[0]] + Latest(added[1..])
  }

  lemma {:induction false} WithoutFront(x: Artifact, artifacts: seq<Artifact>, name: string)
    ensures Without([x] + artifacts, name)
      == (if x.name == name then [] else [x]) + Without(artifacts, name)
    decreases |artifacts|
  {
    var whole := [x] + artifacts;
    if artifacts == [] {
      assert whole[..0] == [];
    } else {
      assert whole[..|whole| - 1] == [x] + artifacts[..|artifacts| - 1];
      WithoutFront(x, artifacts[..|artifacts| - 1], name);
    }
  }

  lemma NamedSnoc(added: seq<Artifact>, x: Artifact, name: string)
    ensures Named(added + [x], name) <==> Named(added, name) || x.name == name
  {
    var whole := added + [x];
    if j :| 0 <= j < |added| && added[j].name == name { assert whole[j].name == name; }
    if x.name == name { assert whole[|added|].name == name; }
    if j :| 0 <= j < |whole| && whole[j].name == name {
      if j < |added| { assert added[j].name == name; }
    }
  }

  lemma {:induction false} LatestSnoc(added: seq<Artifact>, x: Artifact)
    ensures Latest(added + [x]) == Without(Latest(added), x.name) + [x]
    decreases |added|
  {
    var whole := added + [x];
    if added == [] {
      assert whole[1..] == [];
    } else {
      assert whole[0] == added[0] && whole[1..] == added[1..] + [x];
      LatestSnoc(added[1..], x);
      NamedSnoc(added[1..], x, added[0].name);
      WithoutFront(added[0], Latest(added[1..]), x.name);
    }
  }

  /** The artifacts of the job are exactly the additions not replaced since, in commit order. */
  lemma {:induction false} ArtifactsAreLatest(history: History)
    requires Serial(history) && history != []
    ensures Last(history).artifacts == Latest(Added(history))
    decreases |history|
  {
    var n := |history| - 1;
    if n > 0 {
      SerialPrefix(history, n);
      ArtifactsAreLatest(history[..n]);
      assert SerialAt(history, n);
      if history[n].mutation.AddArtifact? { LatestSnoc(Added(history[..n]), history[n].mutation.artifact); }
    } else {
      assert history[..0] == [];
    }
  }

  lemma SerialPrefix(history: History, n: nat)
    requires Serial(history) && n <= |history|
    ensures Serial(history[..n])
  {
    forall i | 0 < i < n ensures SerialAt(history[..n], i) {
      assert SerialAt(history, i);
      assert history[..n][..i] == history[..i];
    }
  }

  /** No later addition has the name of addition `i`. */
  predicate Stands(added: seq<Artifact>, i: nat)
    requires i < |added|
  {
    !Named(added[i + 1..], added[i].name)
  }

  lemma {:induction false} LatestMembers(added: seq<Artifact>, x: Artifact)
    ensures x in Latest(added) <==> exists i :: 0 <= i < |added| && added[i] == x && Stands(added, i)
  {
    if added != [] {
      var rest := added[1..];
      LatestMembers(rest, x);
      forall i | 0 <= i < |rest| ensures Stands(rest, i) == Stands(added, i + 1) {
        assert rest[i + 1..] == added[i + 2..];
      }
      if i :| 0 <= i < |added| && added[i] == x && Stands(added, i) {
        if i > 0 { assert rest[i - 1] == x && Stands(rest, i - 1); }
      }
      if i :| 0 <= i < |rest| && rest[i] == x && Stands(rest, i) {
        assert added[i + 1] == x && Stands(added, i + 1);
      }
    }
  }

  lemma {:induction false} LatestNames(added: seq<Artifact>, name: string)
    ensures Named(Latest(added), name) <==> Named(added, name)
  {
    if added != [] {
      LatestNames(added[1..], name);
      var whole := Latest(added);
      if j :| 0 <= j < |added| && added[j].name == name {
        if j > 0 { assert added[1..][j - 1].name == name; }
      }
      if j :| 0 <= j < |added[1..]| && added[1..][j].name == name { assert added[j + 1].name == name; }
      if !Named(added[1..], added[0].name) {
        if j :| 0 <= j < |Latest(added[1..])| && Latest(added[1..])[j].name == name { assert whole[j + 1].name == name; }
        if j :| 0 <= j < |whole| && whole[j].name == name {
          if j > 0 { assert Latest(added[1..])[j - 1].name == name; }
        }
        assert whole[0].name == added[0].name;
      }
    }
  }

  ghost predicate UniqueNames(artifacts: seq<Artifact>)
  {
    forall i, j :: 0 <= i < j < |artifacts| ==> artifacts[i].name != artifacts[j].name
  }

  lemma {:induction false} LatestIsUnique(added: seq<Artifact>)
    ensures UniqueNames(Latest(added))
  {
    if added != [] {
      LatestIsUnique(added[1..]);
      LatestNames(added[1..], added[0].name);
      var rest := Latest(added[1..]);
      if !Named(added[1..], added[0].name) {
        forall i, j | 0 <= i < j < |rest| + 1 ensures ([added[0]] + rest)[i].name != ([added[0]] + rest)[j].name {
          assert ([added[0]] + rest)[j] == rest[j - 1];
        }
      }
    }
  }

  lemma {:induction false} AddedGrows(history: History, n: nat, name: string)
    requires n <= |history| && Named(Added(history[..n]), name)
    ensures Named(Added(history), name)
    decreases |history|
  {
    if n == |history| {
      assert history[..n] == history;
    } else {
      var front := history[..|history| - 1];
      assert front[..n] == history[..n];
      AddedGrows(front, n, name);
      var j :| 0 <= j < |Added(front)| && Added(front)[j].name == name;
      assert Added(history)[j].name == name;
    }
  }

  /** In every interleaving: artifact names are unique, each artifact is the latest commit of its
      name, and a name that some committed record had is in every later one. */
  lemma ArtifactsInEveryRun(events: seq<Event>, n: nat, name: string)
    requires var h := After(events).history; 0 < n <= |h|
    ensures var h := After(events).history;
      && UniqueNames(Last(h).artifacts)
      && (Named(Last(h[..n]).artifacts, name) ==> Named(Last(h).artifacts, name))
      && forall x :: x in Last(h).artifacts <==> exists i :: 0 <= i < |Added(h)| && Added(h)[i] == x && Stands(Added(h), i)
  {
    var h := After(events).history;
    RunIsSound(events);
    ArtifactsAreLatest(h);
    LatestIsUnique(Added(h));
    SerialPrefix(h, n);
    ArtifactsAreLatest(h[..n]);
    LatestNames(Added(h[..n]), name);
    LatestNames(Added(h), name);
    if Named(Last(h[..n]).artifacts, name) { AddedGrows(h, n, name); }
    forall x
      ensures x in Last(h).artifacts <==> exists i :: 0 <= i < |Added(h)| && Added(h)[i] == x && Stands(Added(h), i)
    {
      LatestMembers(Added(h), x);
    }
  }
}
