/** What every run of the workspace store keeps: approvals, the audit log that records them, and the workflow. */
module MotionSafety {
  import opened Options
  import opened StableHash
  import opened MotionGate
  import opened MotionStore

  // ----- Reading the audit log

  datatype Seal = Seal(version: nat, mockHash: string)

  function SealOf(record: Case): Option<Seal> {
    match record.approval
    case None => None
    case Some(a) => Some(Seal(a.version, a.mockHash))
  }

  /** The approval the newest approval.created or approval.invalidated event of a case leaves in force. */
  function Replay(events: seq<Event>, caseId: string): Option<Seal> {
    if events == [] then None
    else if events[0].caseId == caseId && events[0].kind == ApprovalInvalidated then None
    else if events[0].caseId == caseId && events[0].kind == ApprovalCreated && events[0].entity.Version? then
      Some(Seal(events[0].entity.version, events[0].metadata))
    else Replay(events[1..], caseId)
  }

  /** Every export names the version whose approval was in force when it was recorded. */
  predicate ExportsApproved(events: seq<Event>) {
    events != [] ==>
      && ExportsApproved(events[1..])
      && (events[0].kind == ExportGenerated ==>
            && Replay(events[1..], events[0].caseId).Some?
            && events[0].entity == Version(Replay(events[1..], events[0].caseId).value.version))
  }

  /** The agents completed since the newest workflow.started event of a case, oldest first. */
  function CompletedSince(events: seq<Event>, caseId: string): seq<string> {
    if events == [] then []
    else if events[0].caseId == caseId && events[0].kind == WorkflowStarted then []
    else if events[0].caseId == caseId && events[0].kind == AgentCompleted && events[0].entity.Named? then
      CompletedSince(events[1..], caseId) + [events[0].entity.name]
    else CompletedSince(events[1..], caseId)
  }

  // ----- The invariant

  /** Versions are numbered 1, 2, ..., carry their own hashes, and the last one is the current motion. */
  predicate VersionsOk(record: Case) {
    && (forall i :: 0 <= i < |record.motionVersions| ==>
          && record.motionVersions[i].version == i + 1
          && record.motionVersions[i].mockHash == MotionHash(record.motionVersions[i].body, i + 1))
    && record.currentMotion == (match CurrentVersion(record) case None => [] case Some(v) => v.body)
  }

  predicate ApprovalOk(record: Case) {
    record.approval.Some? <==> ExportUnlocked(record)
  }

  /** Nodes before `split` are completed, the one at `split` runs, later ones are locked. */
  predicate SplitAt(nodes: seq<Node>, split: nat) {
    forall i :: 0 <= i < |nodes| ==>
      nodes[i].status == (if i < split then NodeCompleted else if i == split then NodeRunning else NodeLocked)
  }

  predicate WorkflowOk(w: Workflow) {
    && |w.nodes| == |AGENTS|
    && (forall i :: 0 <= i < |AGENTS| ==> w.nodes[i].id == AGENTS[i])
    && w.currentIndex < |AGENTS|
    && match w.status
       case Idle => w == FreshWorkflow()
       case Completed => w.currentIndex == |AGENTS| - 1 && SplitAt(w.nodes, |AGENTS|)
       case _ => SplitAt(w.nodes, w.currentIndex)
  }

  predicate CaseOk(record: Case) {
    VersionsOk(record) && ApprovalOk(record) && WorkflowOk(record.workflow)
  }

  predicate LogOk(events: seq<Event>, record: Case) {
    && Replay(events, record.id) == SealOf(record)
    && match record.workflow.status
       case Idle => true
       case Completed => CompletedSince(events, record.id) == AGENTS
       case _ => record.workflow.currentIndex <= |AGENTS|
                 && CompletedSince(events, record.id) == AGENTS[..record.workflow.currentIndex]
  }

  predicate DistinctIds(cases: seq<Case>) {
    forall i, j :: 0 <= i < j < |cases| ==> cases[i].id != cases[j].id
  }

  predicate Inv(s: State) {
    && DistinctIds(s.cases)
    && (forall i :: 0 <= i < |s.cases| ==> CaseOk(s.cases[i]) && LogOk(s.events, s.cases[i]))
    && ExportsApproved(s.events)
  }

  // ----- Events that leave the readings alone

  predicate IsNeutral(e: Event) {
    && e.kind != ApprovalInvalidated && e.kind != ApprovalCreated && e.kind != ExportGenerated
    && e.kind != WorkflowStarted && e.kind != AgentCompleted
  }

  predicate AllNeutral(news: seq<Event>) {
    forall e :: e in news ==> IsNeutral(e)
  }

  predicate AllAbout(news: seq<Event>, caseId: string) {
    forall e :: e in news ==> e.caseId == caseId
  }

  lemma ConsTail(e: Event, events: seq<Event>)
    ensures ([e] + events)[1..] == events
  {
  }

  lemma {:induction false} NeutralNews(news: seq<Event>, events: seq<Event>, caseId: string)
    requires AllNeutral(news)
    ensures Replay(news + events, caseId) == Replay(events, caseId)
    ensures CompletedSince(news + events, caseId) == CompletedSince(events, caseId)
    ensures ExportsApproved(events) ==> ExportsApproved(news + events)
  {
    if news == [] {
      assert news + events == events;
    } else {
      assert (news + events)[1..] == news[1..] + events;
      assert IsNeutral(news[0]);
      NeutralNews(news[1..], events, caseId);
    }
  }

  lemma {:induction false} OtherNews(news: seq<Event>, events: seq<Event>, about: string, caseId: string)
    requires AllAbout(news, about) && about != caseId
    ensures Replay(news + events, caseId) == Replay(events, caseId)
    ensures CompletedSince(news + events, caseId) == CompletedSince(events, caseId)
  {
    if news == [] {
      assert news + events == events;
    } else {
      assert (news + events)[1..] == news[1..] + events;
      assert news[0].caseId == about;
      OtherNews(news[1..], events, about, caseId);
    }
  }

  lemma {:induction false} NothingAbout(events: seq<Event>, caseId: string)
    requires forall e :: e in events ==> e.caseId != caseId
    ensures Replay(events, caseId) == None
  {
    if events != [] {
      assert events[0] in events;
      NothingAbout(events[1..], caseId);
    }
  }

  // ----- One case changes, the others do not notice

  lemma {:induction false} FindIndex(cases: seq<Case>, caseId: string) returns (k: nat)
    requires Find(cases, caseId).Some?
    ensures k < |cases| && cases[k] == Find(cases, caseId).value
  {
    if cases[0].id == caseId {
      k := 0;
    } else {
      k := FindIndex(cases[1..], caseId);
      k := k + 1;
    }
  }

  lemma PutInv(s: State, caseId: string, updater: Case -> Case, news: seq<Event>)
    requires Inv(s) && AllAbout(news, caseId) && ExportsApproved(news + s.events)
    requires var found := Find(s.cases, caseId);
             found.Some? ==>
               && updater(found.value).id == caseId
               && CaseOk(updater(found.value))
               && LogOk(news + s.events, updater(found.value))
    ensures Inv(Put(s, caseId, updater, news))
  {
    hide CaseOk, ExportsApproved, CompletedSince, Replay;
    var found, after := Find(s.cases, caseId), Put(s, caseId, updater, news);
    forall i | 0 <= i < |s.cases|
      ensures after.cases[i].id == s.cases[i].id
      ensures CaseOk(after.cases[i]) && LogOk(after.events, after.cases[i])
    {
      if s.cases[i].id == caseId {
        assert s.cases[i] in s.cases;
        var k := FindIndex(s.cases, caseId);
        assert i == k;
      } else {
        OtherNews(news, s.events, caseId, s.cases[i].id);
      }
    }
  }

  /** Changes that touch neither approval nor workflow, with events to match. */
  lemma NeutralPut(s: State, caseId: string, updater: Case -> Case, news: seq<Event>)
    requires Inv(s) && AllAbout(news, caseId) && AllNeutral(news)
    requires var found := Find(s.cases, caseId);
             found.Some? ==>
               && var r := updater(found.value);
               && r.id == caseId && r.workflow == found.value.workflow
               && r.approval == found.value.approval && CaseOk(r)
    ensures Inv(Put(s, caseId, updater, news))
  {
    hide CaseOk, ExportsApproved, CompletedSince, Replay;
    NeutralNews(news, s.events, caseId);
    var found := Find(s.cases, caseId);
    if found.Some? {
      var k := FindIndex(s.cases, caseId);
      assert LogOk(s.events, s.cases[k]);
    }
    PutInv(s, caseId, updater, news);
  }

  /** The gate looks at six fields only. */
  lemma GateFrame(a: Case, b: Case)
    requires a.strategies == b.strategies && a.ethicsArguments == b.ethicsArguments && a.citations == b.citations
    requires a.motionVersions == b.motionVersions && a.currentMotion == b.currentMotion
    ensures Approvable(a) <==> Approvable(b)
    ensures VersionsOk(a) <==> VersionsOk(b)
    ensures a.approval == b.approval ==> (ExportUnlocked(a) <==> ExportUnlocked(b))
  {
    hide RejectedButPresent, Trim, RejectionApplied, MotionHash;
    GateExact(a);
    GateExact(b);
  }

  lemma FoundOk(s: State, caseId: string)
    requires Inv(s)
    ensures Find(s.cases, caseId).Some? ==>
              && CaseOk(Find(s.cases, caseId).value) && LogOk(s.events, Find(s.cases, caseId).value)
              && WorkflowOk(Find(s.cases, caseId).value.workflow)
    ensures ExportsApproved(s.events)
  {
    hide ExportsApproved, LogOk, WorkflowOk;
    if Find(s.cases, caseId).Some? {
      var k := FindIndex(s.cases, caseId);
    }
  }

  // ----- Actions on documents and strategies

  lemma DocumentStep(s: State, caseId: string, updater: Case -> Case, news: seq<Event>)
    requires Inv(s) && AllAbout(news, caseId) && AllNeutral(news)
    requires forall c :: updater(c) == c.(documents := updater(c).documents)
    ensures Inv(Put(s, caseId, updater, news))
  {
    hide ExportsApproved, CompletedSince, Replay, ExportUnlocked, VersionsOk, WorkflowOk;
    FoundOk(s, caseId);
    var found := Find(s.cases, caseId);
    if found.Some? {
      GateFrame(found.value, updater(found.value));
    }
    NeutralPut(s, caseId, updater, news);
  }

  /** Including a strategy is only possible when it is safe, so it never reopens the gate's question. */
  lemma IncludingKeeps(record: Case, strategyId: string, included: bool)
    requires CaseOk(record)
    ensures CaseOk(Including(strategyId, included)(record))
  {
    hide RejectedButPresent, Trim, RejectionApplied, MotionHash, WorkflowOk, ExportUnlocked;
    var after := Including(strategyId, included)(record);
    GateExact(record);
    GateExact(after);
    if record.approval.Some? {
      forall x | x in after.strategies
        ensures !IsUnsafe(x)
      {
        var i :| 0 <= i < |after.strategies| && after.strategies[i] == x;
        assert record.strategies[i] in record.strategies;
      }
    }
  }

  lemma AnnotatingKeeps(record: Case, strategyId: string, notes: Text)
    requires CaseOk(record)
    ensures CaseOk(Annotating(strategyId, notes)(record))
  {
    hide RejectedButPresent, Trim, RejectionApplied, MotionHash, WorkflowOk, ExportUnlocked;
    var after := Annotating(strategyId, notes)(record);
    GateExact(record);
    GateExact(after);
    if record.approval.Some? {
      forall x | x in after.strategies
        ensures !IsUnsafe(x)
      {
        var i :| 0 <= i < |after.strategies| && after.strategies[i] == x;
        assert record.strategies[i] in record.strategies;
      }
    }
  }

  lemma StrategyStep(s: State, caseId: string, updater: Case -> Case)
    requires Inv(s)
    requires forall c :: updater(c) == c.(strategies := updater(c).strategies)
    requires Find(s.cases, caseId).Some? ==> CaseOk(updater(Find(s.cases, caseId).value))
    ensures Inv(Put(s, caseId, updater, []))
  {
    hide CaseOk, Inv;
    NeutralPut(s, caseId, updater, []);
  }

  // ----- Actions on ethics and motions

  lemma InvalidationRead(hadApproval: bool, caseId: string, entity: Entity, later: seq<Event>, events: seq<Event>)
    requires AllNeutral(later) && ExportsApproved(events)
    requires !hadApproval ==> Replay(events, caseId) == None
    ensures var news := Invalidation(hadApproval, caseId, entity) + later;
            && Replay(news + events, caseId) == None
            && CompletedSince(news + events, caseId) == CompletedSince(events, caseId)
            && ExportsApproved(news + events)
  {
    NeutralNews(later, events, caseId);
    var news := Invalidation(hadApproval, caseId, entity) + later;
    if hadApproval {
      var e := Event(caseId, ApprovalInvalidated, entity, "Export locked immediately");
      assert news + events == [e] + (later + events);
      ConsTail(e, later + events);
    } else {
      assert news + events == later + events;
    }
  }

  lemma ReviewingKeeps(record: Case, argumentId: string, status: ReviewStatus)
    requires CaseOk(record)
    ensures CaseOk(Reviewing(argumentId, status, record.approval.Some?)(record))
    ensures Reviewing(argumentId, status, record.approval.Some?)(record).approval == None
  {
    hide WorkflowOk, MotionHash, Approvable, ExportUnlocked;
    GateExact(Reviewing(argumentId, status, record.approval.Some?)(record));
  }

  lemma ReviewStep(s: State, a: Action, record: Case)
    requires Inv(s) && a.ReviewEthicsArgument? && Find(s.cases, a.caseId) == Some(record)
    ensures Inv(ApplyTo(s, a, record))
  {
    hide ExportsApproved, CompletedSince, Replay, CaseOk, Put, MapArguments, MapStrategies;
    FoundOk(s, a.caseId);
    var current := FindArgument(record.ethicsArguments, a.argumentId);
    if current.Some? && current.value.status != a.status {
      var hadApproval := record.approval.Some?;
      var later := Simple(a.caseId, EthicsReviewed(a.status), a.argumentId);
      InvalidationRead(hadApproval, a.caseId, Named(a.argumentId), later, s.events);
      ReviewingKeeps(record, a.argumentId, a.status);
      PutInv(s, a.caseId, Reviewing(a.argumentId, a.status, hadApproval),
             Invalidation(hadApproval, a.caseId, Named(a.argumentId)) + later);
    }
  }

  lemma SavingVersions(record: Case, body: Text, hadApproval: bool)
    requires VersionsOk(record)
    ensures VersionsOk(Saving(NextSaved(record, body), hadApproval)(record))
  {
    hide MotionHash;
    var versions, saved := record.motionVersions, NextSaved(record, body);
    assert saved.version == |versions| + 1;
    assert (versions + [saved])[|versions|] == saved;
  }

  lemma SavingKeeps(record: Case, body: Text)
    requires CaseOk(record)
    ensures CaseOk(Saving(NextSaved(record, body), record.approval.Some?)(record))
  {
    hide WorkflowOk, VersionsOk, NextSaved, Approvable, ApprovalBlockers, ExportUnlocked;
    SavingVersions(record, body, record.approval.Some?);
    GateExact(Saving(NextSaved(record, body), record.approval.Some?)(record));
  }

  lemma SaveStep(s: State, a: Action, record: Case)
    requires Inv(s) && a.SaveMotion? && Find(s.cases, a.caseId) == Some(record)
    ensures Inv(ApplyTo(s, a, record))
  {
    hide ExportsApproved, CompletedSince, Replay, CaseOk, MotionHash, NextSaved;
    FoundOk(s, a.caseId);
    if Trim(a.body) != Trim(record.currentMotion) {
      var saved, hadApproval := NextSaved(record, a.body), record.approval.Some?;
      var later := [Event(a.caseId, MotionEdited, Version(saved.version), saved.mockHash)];
      InvalidationRead(hadApproval, a.caseId, Version(saved.version), later, s.events);
      SavingKeeps(record, a.body);
      PutInv(s, a.caseId, Saving(saved, hadApproval),
             Invalidation(hadApproval, a.caseId, Version(saved.version)) + later);
    }
  }

  lemma ApprovingKeeps(record: Case, reviewerName: Text)
    requires CaseOk(record) && Approvable(record) && record.motionVersions != []
    ensures var saved := CurrentVersion(record).value;
            CaseOk(Approving(Approval(reviewerName, saved.version, saved.mockHash))(record))
  {
    hide WorkflowOk, MotionHash, Approvable, ExportUnlocked;
    var saved := CurrentVersion(record).value;
    var after := Approving(Approval(reviewerName, saved.version, saved.mockHash))(record);
    GateFrame(record, after);
    GateExact(after);
  }

  lemma ApproveStep(s: State, a: Action, record: Case)
    requires Inv(s) && a.ApproveMotion? && Find(s.cases, a.caseId) == Some(record)
    ensures Inv(ApplyTo(s, a, record))
  {
    hide ExportsApproved, CompletedSince, Replay, CaseOk, Approvable, Trim, ApprovalBlockers, ExportUnlocked;
    FoundOk(s, a.caseId);
    GateExact(record);
    if ApproveResult(Some(record), a.reviewerName, a.pin, a.confirmed) == Recorded {
      var saved := CurrentVersion(record).value;
      ApprovingKeeps(record, Trim(a.reviewerName));
      var e := Event(a.caseId, ApprovalCreated, Version(saved.version), saved.mockHash);
      ApprovalRead(e, s.events);
      PutInv(s, a.caseId, Approving(Approval(Trim(a.reviewerName), saved.version, saved.mockHash)), [e]);
    }
  }

  lemma ApprovalRead(e: Event, events: seq<Event>)
    requires e.kind == ApprovalCreated && e.entity.Version? && ExportsApproved(events)
    ensures Replay([e] + events, e.caseId) == Some(Seal(e.entity.version, e.metadata))
    ensures CompletedSince([e] + events, e.caseId) == CompletedSince(events, e.caseId)
    ensures ExportsApproved([e] + events)
  {
    ConsTail(e, events);
  }

  lemma ExportRead(e: Event, events: seq<Event>, caseId: string)
    requires e.kind == ExportGenerated && ExportsApproved(events)
    requires Replay(events, e.caseId).Some? && e.entity == Version(Replay(events, e.caseId).value.version)
    ensures Replay([e] + events, caseId) == Replay(events, caseId)
    ensures CompletedSince([e] + events, caseId) == CompletedSince(events, caseId)
    ensures ExportsApproved([e] + events)
  {
    ConsTail(e, events);
  }

  /** A case that may be exported is approved, and its approval names the version exported. */
  lemma ExportsTheApproved(record: Case)
    requires CaseOk(record)
    ensures ExportAllowed(Some(record)) <==> record.approval.Some?
    ensures record.approval.Some? ==>
              && CurrentVersion(record).Some? && SealOf(record).Some?
              && CurrentVersion(record).value.version == SealOf(record).value.version
              && CurrentVersion(record).value.version == record.approval.value.version
  {
    hide WorkflowOk, VersionsOk, Approvable, ExportUnlocked;
    GateExact(record);
  }

  lemma ExportStep(s: State, a: Action, record: Case)
    requires Inv(s) && a.RecordExport? && Find(s.cases, a.caseId) == Some(record)
    ensures Inv(ApplyTo(s, a, record))
  {
    hide ExportsApproved, CompletedSince, Replay, WorkflowOk, CaseOk, ExportAllowed, SealOf, CurrentVersion;
    hide Put, Trim, MotionHash, ApproveResult, Added, HasUnprocessed, AdvanceEvents;
    FoundOk(s, a.caseId);
    ExportsTheApproved(record);
    if ExportAllowed(Some(record)) {
      var e := Event(a.caseId, ExportGenerated, Version(CurrentVersion(record).value.version),
                     "Not automatically filed");
      forall i | 0 <= i < |s.cases|
        ensures LogOk([e] + s.events, s.cases[i])
      {
        ExportRead(e, s.events, s.cases[i].id);
      }
      ExportRead(e, s.events, a.caseId);
    }
  }

  // ----- Workflow actions

  lemma WorkflowPut(s: State, caseId: string, updater: Case -> Case, news: seq<Event>)
    requires Inv(s) && AllAbout(news, caseId)
    requires ExportsApproved(news + s.events) && Replay(news + s.events, caseId) == Replay(s.events, caseId)
    requires forall c :: updater(c) == c.(workflow := updater(c).workflow)
    requires var found := Find(s.cases, caseId);
             found.Some? ==>
               WorkflowOk(updater(found.value).workflow) && LogOk(news + s.events, updater(found.value))
    ensures Inv(Put(s, caseId, updater, news))
  {
    hide ExportsApproved, CompletedSince, Replay, ExportUnlocked, VersionsOk, WorkflowOk, LogOk;
    FoundOk(s, caseId);
    var found := Find(s.cases, caseId);
    if found.Some? {
      GateFrame(found.value, updater(found.value));
    }
    PutInv(s, caseId, updater, news);
  }

  lemma StartedRead(e: Event, events: seq<Event>)
    requires e.kind == WorkflowStarted && ExportsApproved(events)
    ensures Replay([e] + events, e.caseId) == Replay(events, e.caseId)
    ensures CompletedSince([e] + events, e.caseId) == []
    ensures ExportsApproved([e] + events)
  {
    ConsTail(e, events);
  }

  lemma StartShape(record: Case)
    requires WorkflowOk(record.workflow) && record.workflow.status == Idle
    ensures WorkflowOk(Starting()(record).workflow)
    ensures record.workflow.currentIndex == 0 && AGENTS[..0] == []
  {
  }

  lemma StartPut(s: State, record: Case)
    requires Inv(s) && Find(s.cases, record.id) == Some(record) && record.workflow.status == Idle
    ensures Inv(Put(s, record.id, Starting(), Simple(record.id, WorkflowStarted, "workflow-run")))
  {
    hide ExportsApproved, CompletedSince, Replay, ExportUnlocked, VersionsOk, Put, WorkflowOk, StartedNodes, AGENTS, Inv;
    FoundOk(s, record.id);
    StartedRead(Event(record.id, WorkflowStarted, Named("workflow-run"), ""), s.events);
    StartShape(record);
    WorkflowPut(s, record.id, Starting(), Simple(record.id, WorkflowStarted, "workflow-run"));
  }

  lemma StartStep(s: State, a: Action, record: Case)
    requires Inv(s) && a.StartWorkflow? && Find(s.cases, a.caseId) == Some(record)
    ensures Inv(ApplyTo(s, a, record))
  {
    hide Inv, Put, Starting;
    if record.workflow.status == Idle {
      StartPut(s, record);
    }
  }

  lemma PauseResumeStep(s: State, a: Action, record: Case)
    requires Inv(s) && (a.PauseWorkflow? || a.ResumeWorkflow?) && Find(s.cases, a.caseId) == Some(record)
    ensures Inv(ApplyTo(s, a, record))
  {
    hide ExportsApproved, CompletedSince, Replay, ExportUnlocked, VersionsOk, AGENTS;
    FoundOk(s, a.caseId);
    var pausing := a.PauseWorkflow?;
    if record.workflow.status == (if pausing then Running else Paused) {
      var news := Simple(a.caseId, if pausing then WorkflowPaused else WorkflowResumed, "workflow-run");
      NeutralNews(news, s.events, a.caseId);
      WorkflowPut(s, a.caseId, WithStatus(if pausing then Paused else Running), news);
    }
  }

  lemma CompletedRead(e: Event, events: seq<Event>)
    requires e.kind == AgentCompleted && e.entity.Named? && ExportsApproved(events)
    ensures Replay([e] + events, e.caseId) == Replay(events, e.caseId)
    ensures CompletedSince([e] + events, e.caseId) == CompletedSince(events, e.caseId) + [e.entity.name]
    ensures ExportsApproved([e] + events)
  {
    ConsTail(e, events);
  }

  /** Reading the events of one advance: one more agent completed, in order. */
  lemma AdvanceRead(record: Case, index: nat, isFinal: bool, events: seq<Event>)
    requires index < |record.workflow.nodes| && ExportsApproved(events)
    ensures var news := AdvanceEvents(record, index, isFinal);
            && AllAbout(news, record.id)
            && Replay(news + events, record.id) == Replay(events, record.id)
            && CompletedSince(news + events, record.id)
            == CompletedSince(events, record.id) + [record.workflow.nodes[index].id]
            && ExportsApproved(news + events)
  {
    hide ExportsApproved, CompletedSince, Replay;
    var e := Event(record.id, AgentCompleted, Named(record.workflow.nodes[index].id), "");
    var first := (if isFinal then Simple(record.id, WorkflowCompleted, "workflow-run") else [])
                 + AnalysisEvents(record.workflow.nodes[index].id, record);
    assert AdvanceEvents(record, index, isFinal) + events == first + ([e] + events);
    CompletedRead(e, events);
    NeutralNews(first, [e] + events, record.id);
  }

  lemma AdvanceShape(record: Case, index: nat, isFinal: bool)
    requires WorkflowOk(record.workflow) && record.workflow.status == Running
    requires index == record.workflow.currentIndex && isFinal == (index == |record.workflow.nodes| - 1)
    ensures WorkflowOk(Advancing(index, isFinal)(record).workflow)
    ensures index < |AGENTS| == |record.workflow.nodes| && record.workflow.nodes[index].id == AGENTS[index]
  {
  }

  lemma NodesExist(record: Case)
    requires WorkflowOk(record.workflow)
    ensures record.workflow.currentIndex < |record.workflow.nodes| == |AGENTS|
  {
  }

  /** One advance of a running case: its nodes keep their split, and the log lists one more agent. */
  lemma AdvanceKeeps(record: Case, index: nat, isFinal: bool, events: seq<Event>)
    requires WorkflowOk(record.workflow) && LogOk(events, record) && ExportsApproved(events)
    requires record.workflow.status == Running
    requires index == record.workflow.currentIndex && isFinal == (index == |record.workflow.nodes| - 1)
    ensures index < |record.workflow.nodes|
    ensures var news, after := AdvanceEvents(record, index, isFinal), Advancing(index, isFinal)(record);
            && WorkflowOk(after.workflow) && LogOk(news + events, after)
            && AllAbout(news, record.id) && ExportsApproved(news + events)
            && Replay(news + events, record.id) == Replay(events, record.id)
  {
    hide ExportsApproved, CompletedSince, Replay, WorkflowOk, AdvanceEvents, AdvancedNodes, AllAbout, AGENTS;
    NodesExist(record);
    AdvanceShape(record, index, isFinal);
    AdvanceRead(record, index, isFinal, events);
    AgentsUpTo(index);
  }

  lemma AdvancePut(s: State, record: Case, index: nat, isFinal: bool)
    requires Inv(s) && Find(s.cases, record.id) == Some(record) && record.workflow.status == Running
    requires index == record.workflow.currentIndex && isFinal == (index == |record.workflow.nodes| - 1)
    ensures index < |record.workflow.nodes|
    ensures Inv(Put(s, record.id, Advancing(index, isFinal), AdvanceEvents(record, index, isFinal)))
  {
    hide ExportsApproved, CompletedSince, Replay, ExportUnlocked, VersionsOk, AdvanceEvents, WorkflowOk, AdvancedNodes,
      LogOk, Put, AGENTS, Inv, CaseOk;
    FoundOk(s, record.id);
    AdvanceKeeps(record, index, isFinal, s.events);
    WorkflowPut(s, record.id, Advancing(index, isFinal), AdvanceEvents(record, index, isFinal));
  }

  lemma AdvanceStep(s: State, a: Action, record: Case)
    requires Inv(s) && a.AdvanceWorkflow? && Find(s.cases, a.caseId) == Some(record)
    ensures Inv(ApplyTo(s, a, record))
  {
    hide Inv, Put, Advancing, AdvanceEvents;
    var index := record.workflow.currentIndex;
    if record.workflow.status == Running {
      AdvancePut(s, record, index, index == |record.workflow.nodes| - 1);
    }
  }

  lemma AgentsUpTo(index: nat)
    requires index < |AGENTS|
    ensures AGENTS[..index + 1] == AGENTS[..index] + [AGENTS[index]]
    ensures AGENTS[..|AGENTS|] == AGENTS
  {
  }

  lemma ResetStep(s: State, caseId: string)
    requires Inv(s)
    ensures Inv(Put(s, caseId, Resetting(), Simple(caseId, WorkflowReset, "workflow-run")))
  {
    hide ExportsApproved, CompletedSince, Replay, ExportUnlocked, VersionsOk;
    FoundOk(s, caseId);
    var news := Simple(caseId, WorkflowReset, "workflow-run");
    NeutralNews(news, s.events, caseId);
    WorkflowPut(s, caseId, Resetting(), news);
  }

  // ----- Creating and resetting

  lemma FreshWorkflowOk()
    ensures WorkflowOk(FreshWorkflow())
  {
  }

  lemma NewCaseOk(caseId: string)
    ensures CaseOk(NewCase(caseId))
  {
    hide Approvable, WorkflowOk, FreshWorkflow, ExportUnlocked;
    FreshWorkflowOk();
    GateExact(NewCase(caseId));
  }

  lemma CreateStep(s: State, caseId: string, seed: Case)
    requires Inv(s) && IsFresh(s, caseId)
    ensures Inv(Apply(s, CreateCase(caseId), seed))
  {
    hide ExportsApproved, CompletedSince, Replay, CaseOk;
    var news := Simple(caseId, CaseCreated, caseId);
    NewCaseOk(caseId);
    NothingAbout(s.events, caseId);
    NeutralNews(news, s.events, caseId);
    forall i | 0 <= i < |s.cases|
      ensures LogOk(news + s.events, s.cases[i]) && s.cases[i].id != caseId
    {
      assert s.cases[i] in s.cases;
      OtherNews(news, s.events, caseId, s.cases[i].id);
    }
  }

  lemma SeedCaseOk(seed: Case)
    requires IsSeed(seed)
    ensures CaseOk(seed)
  {
    hide Approvable, ApprovalBlockers, MotionHash, WorkflowOk, FreshWorkflow, ExportUnlocked, AGENTS;
    FreshWorkflowOk();
    GateExact(seed);
    assert CurrentVersion(seed) == Some(seed.motionVersions[0]);
  }

  lemma SeedOk(seed: Case, news: seq<Event>)
    requires IsSeed(seed) && AllNeutral(news)
    ensures Inv(State([seed], news + SEED_EVENTS))
  {
    hide CaseOk, ExportsApproved, MotionHash;
    SeedCaseOk(seed);
    NeutralNews(news + SEED_EVENTS, [], seed.id);
    assert ExportsApproved([]) by {
      NoExports();
    }
    assert news + SEED_EVENTS + [] == news + SEED_EVENTS;
  }

  lemma NoExports()
    ensures ExportsApproved([])
  {
  }

  // ----- Main results

  lemma DocumentsStep(s: State, a: Action, record: Case)
    requires Inv(s) && (a.AddDocuments? || a.ProcessDocuments?) && Find(s.cases, a.caseId) == Some(record)
    ensures Inv(ApplyTo(s, a, record))
  {
    hide Inv, Put, Added;
    match a {
      case AddDocuments(id, incoming) =>
        if Added(record, incoming) != [] {
          DocumentStep(s, id, Adding(Added(record, incoming)), Simple(id, DocumentsSelected, ""));
        }
      case ProcessDocuments(id) =>
        DocumentStep(s, id, Processing(), Simple(id, DocumentsProcessed, "document-set"));
    }
  }

  lemma LookedUpStep(s: State, a: Action, record: Case)
    requires Inv(s) && LooksUp(a) && Find(s.cases, a.caseId) == Some(record)
    ensures Inv(ApplyTo(s, a, record))
  {
    hide Inv, ApplyTo;
    match a {
      case AddDocuments(_, _) => DocumentsStep(s, a, record);
      case ProcessDocuments(_) => DocumentsStep(s, a, record);
      case StartWorkflow(_) => StartStep(s, a, record);
      case PauseWorkflow(_) => PauseResumeStep(s, a, record);
      case ResumeWorkflow(_) => PauseResumeStep(s, a, record);
      case AdvanceWorkflow(_) => AdvanceStep(s, a, record);
      case ReviewEthicsArgument(_, _, _) => ReviewStep(s, a, record);
      case SaveMotion(_, _) => SaveStep(s, a, record);
      case ApproveMotion(_, _, _, _) => ApproveStep(s, a, record);
      case RecordExport(_) => ExportStep(s, a, record);
    }
  }

  lemma IncludeStep(s: State, caseId: string, strategyId: string, included: bool)
    requires Inv(s)
    ensures Inv(Put(s, caseId, Including(strategyId, included), []))
  {
    hide CaseOk, LogOk, Put;
    FoundOk(s, caseId);
    if Find(s.cases, caseId).Some? {
      IncludingKeeps(Find(s.cases, caseId).value, strategyId, included);
    }
    StrategyStep(s, caseId, Including(strategyId, included));
  }

  lemma AnnotateStep(s: State, caseId: string, strategyId: string, notes: Text)
    requires Inv(s)
    ensures Inv(Put(s, caseId, Annotating(strategyId, notes), []))
  {
    hide CaseOk, LogOk, Put;
    FoundOk(s, caseId);
    if Find(s.cases, caseId).Some? {
      AnnotatingKeeps(Find(s.cases, caseId).value, strategyId, notes);
    }
    StrategyStep(s, caseId, Annotating(strategyId, notes));
  }

  /** Every action keeps the invariant. */
  lemma StepInv(s: State, a: Action, seed: Case)
    requires IsSeed(seed) && Inv(s) && Enabled(s, a)
    ensures Inv(Apply(s, a, seed))
  {
    hide Inv, IsSeed, Put, ApplyTo;
    match a {
      case CreateCase(id) => CreateStep(s, id, seed);
      case RegisterDocument(id, document) => DocumentStep(s, id, Adding([document]), []);
      case DeleteDocument(id, documentId) => DocumentStep(s, id, Deleting(documentId), []);
      case SetStrategyIncluded(id, strategyId, included) => IncludeStep(s, id, strategyId, included);
      case SetStrategyNotes(id, strategyId, notes) => AnnotateStep(s, id, strategyId, notes);
      case ResetWorkflow(id) => ResetStep(s, id);
      case ResetDemo => SeedOk(seed, Simple(DEMO_CASE_ID, WorkspaceReset, "demo-workspace"));
      case _ =>
        if Find(s.cases, a.caseId).Some? {
          LookedUpStep(s, a, Find(s.cases, a.caseId).value);
        }
    }
  }

  lemma {:induction false} RunInv(actions: seq<Action>, seed: Case)
    requires IsSeed(seed) && IsRun(actions, seed)
    ensures Inv(Run(actions, seed))
  {
    hide Inv, IsSeed, Apply;
    if actions == [] {
      SeedOk(seed, []);
      assert [] + SEED_EVENTS == SEED_EVENTS;
    } else {
      var before := actions[..|actions| - 1];
      RunInv(before, seed);
      StepInv(Run(before, seed), actions[|actions| - 1], seed);
    }
  }

  /** No approval of this exact version, no export: after any run, for every case. */
  lemma ApprovedExactlyWhenUnlocked(actions: seq<Action>, seed: Case, i: nat)
    requires IsSeed(seed) && IsRun(actions, seed) && i < |Run(actions, seed).cases|
    ensures var record := Run(actions, seed).cases[i];
            && (record.approval.Some? <==> ExportUnlocked(record))
            && (record.approval.Some? ==>
                  && CurrentVersion(record).Some?
                  && record.approval.value.version == |record.motionVersions|
                  && record.approval.value.mockHash == MotionHash(record.currentMotion, |record.motionVersions|)
                  && Approvable(record))
  {
    hide Run, IsRun, IsSeed, MotionHash, LogOk, WorkflowOk, Approvable;
    RunInv(actions, seed);
    var record := Run(actions, seed).cases[i];
    assert CaseOk(record);
    GateExact(record);
  }

  lemma {:induction false} FindUpdated(cases: seq<Case>, caseId: string, updater: Case -> Case)
    requires Find(cases, caseId).Some? && updater(Find(cases, caseId).value).id == caseId
    ensures Find(UpdateCase(cases, caseId, updater), caseId) == Some(updater(Find(cases, caseId).value))
  {
    var after := UpdateCase(cases, caseId, updater);
    if cases[0].id != caseId {
      FindUpdated(cases[1..], caseId, updater);
      assert after[1..] == UpdateCase(cases[1..], caseId, updater);
    }
  }

  /** An approval request opens the gate exactly when the case is approvable and the request is in order. */
  lemma ApprovalOpensGate(s: State, a: Action, record: Case)
    requires Inv(s) && a.ApproveMotion? && Find(s.cases, a.caseId) == Some(record)
    ensures Find(ApplyTo(s, a, record).cases, a.caseId).Some?
    ensures ExportUnlocked(Find(ApplyTo(s, a, record).cases, a.caseId).value)
       <==> ExportUnlocked(record)
            || (Approvable(record) && |Trim(a.reviewerName)| >= 2 && a.pin == "2026" && a.confirmed)
  {
    hide Inv, RejectedButPresent, CitationsPass, RejectionApplied, EthicsResolved, UnsafeExcluded, MotionHash,
      ExportUnlocked, UpdateCase;
    GateExact(record);
    assert Approvable(record) ==> record.motionVersions != [] && record.currentMotion != [];
    if ApproveResult(Some(record), a.reviewerName, a.pin, a.confirmed) == Recorded {
      var saved := CurrentVersion(record).value;
      var updater := Approving(Approval(Trim(a.reviewerName), saved.version, saved.mockHash));
      FindUpdated(s.cases, a.caseId, updater);
      GateFrame(record, updater(record));
      GateExact(updater(record));
    }
  }

  /** The audit log alone tells which version and hash of every case is approved, after any run. */
  lemma AuditLogRebuildsApproval(actions: seq<Action>, seed: Case, i: nat)
    requires IsSeed(seed) && IsRun(actions, seed) && i < |Run(actions, seed).cases|
    ensures Replay(Run(actions, seed).events, Run(actions, seed).cases[i].id) == SealOf(Run(actions, seed).cases[i])
  {
    hide Run, IsRun, IsSeed, CaseOk;
    RunInv(actions, seed);
    assert LogOk(Run(actions, seed).events, Run(actions, seed).cases[i]);
  }

  lemma {:induction false} ExportAt(events: seq<Event>, j: nat)
    requires ExportsApproved(events) && j < |events| && events[j].kind == ExportGenerated
    ensures var seal := Replay(events[j + 1..], events[j].caseId);
            seal.Some? && events[j].entity == Version(seal.value.version)
  {
    if j > 0 {
      ExportAt(events[1..], j - 1);
      assert events[1..][j..] == events[j + 1..];
    }
  }

  /** Each export in the log names the version approved last before it and not invalidated since. */
  lemma EveryExportWasApproved(actions: seq<Action>, seed: Case, j: nat)
    requires IsSeed(seed) && IsRun(actions, seed) && j < |Run(actions, seed).events|
    requires Run(actions, seed).events[j].kind == ExportGenerated
    ensures var events := Run(actions, seed).events;
            var seal := Replay(events[j + 1..], events[j].caseId);
            seal.Some? && events[j].entity == Version(seal.value.version)
  {
    hide Run, IsRun, IsSeed;
    RunInv(actions, seed);
    ExportAt(Run(actions, seed).events, j);
  }

  /**
    A started workflow is completed nodes, one running node, locked nodes; the log lists exactly the completed
    agents since the start, each once and in order; and it is complete exactly when all of them are listed.
   */
  lemma WorkflowFollowsLog(actions: seq<Action>, seed: Case, i: nat)
    requires IsSeed(seed) && IsRun(actions, seed) && i < |Run(actions, seed).cases|
    requires Run(actions, seed).cases[i].workflow.status != Idle
    ensures var s := Run(actions, seed);
            var w := s.cases[i].workflow;
            var done := CompletedSince(s.events, s.cases[i].id);
            && |w.nodes| == |AGENTS| && SplitAt(w.nodes, |done|)
            && done <= AGENTS
            && (w.status == Completed <==> |done| == |AGENTS|)
            && (w.status != Completed ==> w.currentIndex == |done|)
  {
    hide Run, IsRun, IsSeed, VersionsOk, ApprovalOk, CompletedSince, Replay;
    RunInv(actions, seed);
    var s := Run(actions, seed);
    assert CaseOk(s.cases[i]) && LogOk(s.events, s.cases[i]);
  }
}
