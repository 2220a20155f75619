/** What each action of the workspace store does for its caller, in states that satisfy the invariant. */
module MotionOutcomes {
  import opened Options
  import opened StableHash
  import opened MotionGate
  import opened MotionStore
  import opened MotionSafety

  // ----- What stays

  /** No case but the one named is changed, and none comes or goes. */
  predicate Touches(s: State, t: State, caseId: string) {
    && |t.cases| == |s.cases|
    && forall i :: 0 <= i < |s.cases| ==>
         t.cases[i].id == s.cases[i].id && (s.cases[i].id != caseId ==> t.cases[i] == s.cases[i])
  }

  /** Every case is approved as before, so in a consistent state every gate is as before. */
  predicate SameApprovals(s: State, t: State) {
    |t.cases| == |s.cases| && forall i :: 0 <= i < |s.cases| ==> t.cases[i].approval == s.cases[i].approval
  }

  /** The actions that neither approve nor revise a motion. */
  predicate IsNeutral(a: Action) {
    || a.AddDocuments? || a.RegisterDocument? || a.DeleteDocument? || a.ProcessDocuments? || a.StartWorkflow?
    || a.PauseWorkflow? || a.ResumeWorkflow? || a.AdvanceWorkflow? || a.ResetWorkflow?
    || a.SetStrategyIncluded? || a.SetStrategyNotes?
  }

  lemma PutTouches(s: State, caseId: string, updater: Case -> Case, news: seq<Event>)
    requires forall c :: updater(c).id == c.id
    ensures Touches(s, Put(s, caseId, updater, news), caseId)
  {
  }

  lemma PutNeutral(s: State, caseId: string, updater: Case -> Case, news: seq<Event>)
    requires forall c :: updater(c).id == c.id && updater(c).approval == c.approval
    ensures Touches(s, Put(s, caseId, updater, news), caseId) && SameApprovals(s, Put(s, caseId, updater, news))
  {
  }

  lemma NeutralOutcome(s: State, a: Action, seed: Case)
    requires IsNeutral(a)
    ensures Touches(s, Apply(s, a, seed), a.caseId) && SameApprovals(s, Apply(s, a, seed))
  {
    hide Put, Touches, SameApprovals, UpdateCase;
    assert Touches(s, s, a.caseId) && SameApprovals(s, s) by {
      Unchanged(s, a.caseId);
    }
    if LooksUp(a) {
      var found := Find(s.cases, a.caseId);
      if found.Some? {
        LookedUpOutcome(s, a, found.value);
      }
    } else {
      match a {
        case RegisterDocument(id, document) => PutNeutral(s, id, Adding([document]), []);
        case DeleteDocument(id, documentId) => PutNeutral(s, id, Deleting(documentId), []);
        case SetStrategyIncluded(id, strategyId, included) => PutNeutral(s, id, Including(strategyId, included), []);
        case SetStrategyNotes(id, strategyId, notes) => PutNeutral(s, id, Annotating(strategyId, notes), []);
        case ResetWorkflow(id) => PutNeutral(s, id, Resetting(), Simple(id, WorkflowReset, "workflow-run"));
        case _ =>
      }
    }
  }

  lemma Unchanged(s: State, caseId: string)
    ensures Touches(s, s, caseId) && SameApprovals(s, s)
  {
  }

  lemma LookedUpOutcome(s: State, a: Action, record: Case)
    requires IsNeutral(a) && LooksUp(a)
    ensures Touches(s, ApplyTo(s, a, record), a.caseId) && SameApprovals(s, ApplyTo(s, a, record))
  {
    hide Put, Touches, SameApprovals, UpdateCase, AdvanceEvents, AdvancedNodes, StartedNodes;
    Unchanged(s, a.caseId);
    match a {
      case AddDocuments(id, incoming) =>
        PutNeutral(s, id, Adding(Added(record, incoming)), Simple(id, DocumentsSelected, ""));
      case ProcessDocuments(id) => PutNeutral(s, id, Processing(), Simple(id, DocumentsProcessed, "document-set"));
      case StartWorkflow(id) => PutNeutral(s, id, Starting(), Simple(id, WorkflowStarted, "workflow-run"));
      case PauseWorkflow(id) => PutNeutral(s, id, WithStatus(Paused), Simple(id, WorkflowPaused, "workflow-run"));
      case ResumeWorkflow(id) => PutNeutral(s, id, WithStatus(Running), Simple(id, WorkflowResumed, "workflow-run"));
      case AdvanceWorkflow(id) =>
        var index := record.workflow.currentIndex;
        if index < |record.workflow.nodes| {
          var isFinal := index == |record.workflow.nodes| - 1;
          PutNeutral(s, id, Advancing(index, isFinal), AdvanceEvents(record, index, isFinal));
        }
    }
  }

  lemma ApplyFound(s: State, a: Action, seed: Case)
    requires LooksUp(a)
    ensures Apply(s, a, seed) == match Find(s.cases, a.caseId) case None => s case Some(record) => ApplyTo(s, a, record)
  {
    hide Put, ApplyTo;
  }

  lemma FoundAfter(s: State, caseId: string, updater: Case -> Case, news: seq<Event>)
    requires Find(s.cases, caseId).Some? && updater(Find(s.cases, caseId).value).id == caseId
    ensures Find(Put(s, caseId, updater, news).cases, caseId) == Some(updater(Find(s.cases, caseId).value))
  {
    FindUpdated(s.cases, caseId, updater);
  }

  // ----- An ethics decision

  predicate Decides(record: Case, argumentId: string, status: ReviewStatus) {
    var current := FindArgument(record.ethicsArguments, argumentId);
    current.Some? && current.value.status != status
  }

  /** The decision stands, and the approval is gone from the case and from the log. */
  predicate Decided(t: State, caseId: string, argumentId: string, status: ReviewStatus) {
    && Find(t.cases, caseId).Some?
    && var after := Find(t.cases, caseId).value;
       after.approval == None && Replay(t.events, caseId) == None
       && FindArgument(after.ethicsArguments, argumentId).Some?
       && FindArgument(after.ethicsArguments, argumentId).value.status == status
  }

  lemma {:induction false} FindArgumentMapped(
      arguments: seq<EthicsArgument>, argumentId: string, f: EthicsArgument -> EthicsArgument)
    requires forall a :: f(a).id == a.id
    ensures FindArgument(MapArguments(arguments, f), argumentId)
         == match FindArgument(arguments, argumentId) case None => None case Some(a) => Some(f(a))
  {
    if arguments != [] {
      assert MapArguments(arguments, f)[1..] == MapArguments(arguments[1..], f);
      FindArgumentMapped(arguments[1..], argumentId, f);
    }
  }

  lemma {:induction false} FoundArgument(arguments: seq<EthicsArgument>, argumentId: string)
    ensures FindArgument(arguments, argumentId).Some? ==> FindArgument(arguments, argumentId).value.id == argumentId
  {
    if arguments != [] {
      FoundArgument(arguments[1..], argumentId);
    }
  }

  lemma ReviewingDecides(record: Case, argumentId: string, status: ReviewStatus)
    requires Decides(record, argumentId, status)
    ensures var after := Reviewing(argumentId, status, record.approval.Some?)(record);
            && after.id == record.id && after.approval == None
            && FindArgument(after.ethicsArguments, argumentId).Some?
            && FindArgument(after.ethicsArguments, argumentId).value.status == status
  {
    hide MapStrategies, MapArguments;
    FoundArgument(record.ethicsArguments, argumentId);
    FindArgumentMapped(record.ethicsArguments, argumentId,
      (a: EthicsArgument) => if a.id == argumentId then a.(status := status) else a);
  }

  /** A changed decision withdraws the approval, in the case and in the log; any other changes nothing. */
  lemma ReviewOutcome(s: State, a: Action, record: Case)
    requires Inv(s) && a.ReviewEthicsArgument? && Find(s.cases, a.caseId) == Some(record)
    ensures if Decides(record, a.argumentId, a.status) then
              Decided(ApplyTo(s, a, record), a.caseId, a.argumentId, a.status)
            else ApplyTo(s, a, record) == s
    ensures Decides(record, a.argumentId, a.status) ==>
              ApplyTo(s, a, record)
              == Put(s, a.caseId, Reviewing(a.argumentId, a.status, record.approval.Some?),
                     Invalidation(record.approval.Some?, a.caseId, Named(a.argumentId))
                     + Simple(a.caseId, EthicsReviewed(a.status), a.argumentId))
    ensures Touches(s, ApplyTo(s, a, record), a.caseId)
  {
    hide ExportsApproved, CompletedSince, Replay, CaseOk, Put, UpdateCase, Touches;
    Unchanged(s, a.caseId);
    if Decides(record, a.argumentId, a.status) {
      FoundOk(s, a.caseId);
      var hadApproval := record.approval.Some?;
      var later := Simple(a.caseId, EthicsReviewed(a.status), a.argumentId);
      var updater := Reviewing(a.argumentId, a.status, hadApproval);
      var news := Invalidation(hadApproval, a.caseId, Named(a.argumentId)) + later;
      InvalidationRead(hadApproval, a.caseId, Named(a.argumentId), later, s.events);
      ReviewingDecides(record, a.argumentId, a.status);
      hide Reviewing;
      FoundAfter(s, a.caseId, updater, news);
      PutEvents(s, a.caseId, updater, news);
      ReviewingId(a.argumentId, a.status, hadApproval);
      PutTouches(s, a.caseId, updater, news);
    }
  }

  lemma ReviewingId(argumentId: string, status: ReviewStatus, hadApproval: bool)
    ensures forall c :: Reviewing(argumentId, status, hadApproval)(c).id == c.id
  {
  }

  lemma PutEvents(s: State, caseId: string, updater: Case -> Case, news: seq<Event>)
    ensures Put(s, caseId, updater, news).events == news + s.events
  {
  }

  // ----- A saved motion

  /** One more version holds the body under the next number and its hash, and the approval is gone. */
  predicate Saved(record: Case, t: State, body: Text) {
    && Find(t.cases, record.id).Some?
    && var after := Find(t.cases, record.id).value;
       var n := |record.motionVersions| + 1;
       after.approval == None && Replay(t.events, record.id) == None && after.currentMotion == body
       && after == record.(currentMotion := after.currentMotion, motionVersions := after.motionVersions,
                           approval := None, reviewStatus := after.reviewStatus)
       && after.motionVersions == record.motionVersions + [MotionVersion(n, body, MotionHash(body, n))]
  }

  lemma SavingSaves(record: Case, body: Text)
    requires VersionsOk(record)
    ensures var n := |record.motionVersions| + 1;
            && NextSaved(record, body) == MotionVersion(n, body, MotionHash(body, n))
            && var after := Saving(NextSaved(record, body), record.approval.Some?)(record);
               after.id == record.id && after.approval == None && after.currentMotion == body
               && after == record.(currentMotion := after.currentMotion, motionVersions := after.motionVersions,
                                   approval := None, reviewStatus := after.reviewStatus)
               && after.motionVersions == record.motionVersions + [NextSaved(record, body)]
  {
    hide MotionHash;
  }

  /** A changed motion becomes the next version and loses its approval; an unchanged one changes nothing. */
  lemma SaveOutcome(s: State, a: Action, record: Case)
    requires Inv(s) && a.SaveMotion? && Find(s.cases, a.caseId) == Some(record)
    ensures if Trim(a.body) == Trim(record.currentMotion) then ApplyTo(s, a, record) == s
            else Saved(record, ApplyTo(s, a, record), a.body)
    ensures Trim(a.body) != Trim(record.currentMotion) ==>
              var saved := NextSaved(record, a.body);
              ApplyTo(s, a, record)
              == Put(s, a.caseId, Saving(saved, record.approval.Some?),
                     Invalidation(record.approval.Some?, a.caseId, Version(saved.version))
                     + [Event(a.caseId, MotionEdited, Version(saved.version), saved.mockHash)])
    ensures Touches(s, ApplyTo(s, a, record), a.caseId)
  {
    hide ExportsApproved, CompletedSince, Replay, WorkflowOk, ApprovalOk, Put, UpdateCase, Touches, MotionHash, Trim;
    Unchanged(s, a.caseId);
    FoundOk(s, a.caseId);
    if Trim(a.body) != Trim(record.currentMotion) {
      var saved, hadApproval := NextSaved(record, a.body), record.approval.Some?;
      var later := [Event(a.caseId, MotionEdited, Version(saved.version), saved.mockHash)];
      var updater := Saving(saved, hadApproval);
      var news := Invalidation(hadApproval, a.caseId, Version(saved.version)) + later;
      InvalidationRead(hadApproval, a.caseId, Version(saved.version), later, s.events);
      SavingSaves(record, a.body);
      FoundAfter(s, a.caseId, updater, news);
      PutEvents(s, a.caseId, updater, news);
      PutTouches(s, a.caseId, updater, news);
    }
  }

  // ----- An approval request

  /** The request is in order and finds an approvable case without an approval. */
  predicate CanApprove(record: Case, reviewerName: Text, pin: string, confirmed: bool) {
    Approvable(record) && record.approval.None? && |Trim(reviewerName)| >= 2 && pin == "2026" && confirmed
  }

  /** The approval names the last version and the hash of the current motion, in the case and in the log. */
  predicate ApprovedNow(record: Case, t: State, reviewerName: Text) {
    var n := |record.motionVersions|;
    && Find(t.cases, record.id)
    == Some(record.(approval := Some(Approval(Trim(reviewerName), n, MotionHash(record.currentMotion, n))),
                    reviewStatus := Approved))
    && Replay(t.events, record.id) == Some(Seal(n, MotionHash(record.currentMotion, n)))
  }

  lemma LastVersion(record: Case)
    requires VersionsOk(record) && record.motionVersions != []
    ensures CurrentVersion(record)
         == Some(MotionVersion(|record.motionVersions|, record.currentMotion,
                               MotionHash(record.currentMotion, |record.motionVersions|)))
  {
    hide MotionHash;
  }

  lemma ApprovalDecision(record: Case, reviewerName: Text, pin: string, confirmed: bool)
    requires CaseOk(record)
    ensures ApproveResult(Some(record), reviewerName, pin, confirmed) == Recorded
       <==> CanApprove(record, reviewerName, pin, confirmed)
    ensures CanApprove(record, reviewerName, pin, confirmed) ==> record.motionVersions != []
  {
    hide WorkflowOk, VersionsOk, MotionHash, RejectedButPresent, CitationsPass, RejectionApplied, EthicsResolved,
      UnsafeExcluded, ExportUnlocked, ApprovalBlockers;
    GateExact(record);
    assert Approvable(record) ==> record.motionVersions != [] && record.currentMotion != [];
  }

  /** An approval is recorded exactly when it can be, and then for the current motion; any other request changes nothing. */
  lemma ApprovalOutcome(s: State, a: Action, record: Case)
    requires Inv(s) && a.ApproveMotion? && Find(s.cases, a.caseId) == Some(record)
    ensures if CanApprove(record, a.reviewerName, a.pin, a.confirmed) then
              ApprovedNow(record, ApplyTo(s, a, record), a.reviewerName)
            else ApplyTo(s, a, record) == s
    ensures CanApprove(record, a.reviewerName, a.pin, a.confirmed) ==>
              && CurrentVersion(record).Some?
              && var saved := CurrentVersion(record).value;
                 ApplyTo(s, a, record)
                 == Put(s, a.caseId, Approving(Approval(Trim(a.reviewerName), saved.version, saved.mockHash)),
                        [Event(a.caseId, ApprovalCreated, Version(saved.version), saved.mockHash)])
    ensures Touches(s, ApplyTo(s, a, record), a.caseId)
  {
    hide ExportsApproved, CompletedSince, Replay, WorkflowOk, ApprovalOk, Put, UpdateCase, Touches, MotionHash, Trim,
      CanApprove, ApproveResult, VersionsOk;
    Unchanged(s, a.caseId);
    FoundOk(s, a.caseId);
    ApprovalDecision(record, a.reviewerName, a.pin, a.confirmed);
    if CanApprove(record, a.reviewerName, a.pin, a.confirmed) {
      LastVersion(record);
      var saved := CurrentVersion(record).value;
      var e := Event(a.caseId, ApprovalCreated, Version(saved.version), saved.mockHash);
      var updater := Approving(Approval(Trim(a.reviewerName), saved.version, saved.mockHash));
      ApprovalRead(e, s.events);
      FoundAfter(s, a.caseId, updater, [e]);
      PutEvents(s, a.caseId, updater, [e]);
      PutTouches(s, a.caseId, updater, [e]);
    }
  }

  // ----- An export

  /** An approved case is exported under its approved version, in the log only; any other is not. */
  lemma ExportOutcome(s: State, a: Action, record: Case)
    requires Inv(s) && a.RecordExport? && Find(s.cases, a.caseId) == Some(record)
    ensures ExportAllowed(Some(record)) <==> record.approval.Some?
    ensures ApplyTo(s, a, record)
         == match record.approval
            case None => s
            case Some(approval) =>
              State(s.cases, [Event(a.caseId, ExportGenerated, Version(approval.version), "Not automatically filed")] + s.events)
  {
    hide ExportsApproved, LogOk, WorkflowOk, CaseOk, ExportAllowed, CurrentVersion, Find;
    hide Put, Trim, MotionHash, ApproveResult, Added, HasUnprocessed, AdvanceEvents;
    FoundOk(s, a.caseId);
    ExportsTheApproved(record);
  }

  // ----- One step of the workflow

  /** The node that ran is completed, the next one runs or all are completed, and that agent is logged once. */
  predicate AdvancedBy(record: Case, s: State, t: State) {
    && record.workflow.currentIndex < |AGENTS|
    && Find(t.cases, record.id).Some?
    && var index, after := record.workflow.currentIndex, Find(t.cases, record.id).value;
       SplitAt(after.workflow.nodes, index + 1) && after == record.(workflow := after.workflow)
       && (after.workflow.status == if index == |AGENTS| - 1 then Completed else Running)
       && CompletedSince(t.events, record.id) == CompletedSince(s.events, record.id) + [AGENTS[index]]
  }

  lemma AdvancingSplits(record: Case, index: nat, isFinal: bool)
    requires WorkflowOk(record.workflow) && record.workflow.status == Running
    requires index == record.workflow.currentIndex && isFinal == (index == |record.workflow.nodes| - 1)
    ensures var after := Advancing(index, isFinal)(record);
            && after == record.(workflow := after.workflow) && SplitAt(after.workflow.nodes, index + 1)
            && after.workflow.status == if index == |AGENTS| - 1 then Completed else Running
    ensures index < |record.workflow.nodes| == |AGENTS| && record.workflow.nodes[index].id == AGENTS[index]
  {
    AdvanceShape(record, index, isFinal);
  }

  /** A running workflow advances by one agent; any other stays. */
  lemma AdvanceOutcome(s: State, a: Action, record: Case)
    requires Inv(s) && a.AdvanceWorkflow? && Find(s.cases, a.caseId) == Some(record)
    ensures if record.workflow.status == Running then AdvancedBy(record, s, ApplyTo(s, a, record))
            else ApplyTo(s, a, record) == s
  {
    hide ExportsApproved, CompletedSince, Replay, WorkflowOk, Inv, CaseOk, LogOk, Put, UpdateCase, AGENTS, SplitAt,
      Advancing, AdvanceEvents;
    FoundOk(s, a.caseId);
    var index := record.workflow.currentIndex;
    if record.workflow.status == Running {
      var isFinal := index == |record.workflow.nodes| - 1;
      AdvancingSplits(record, index, isFinal);
      AdvanceRead(record, index, isFinal, s.events);
      FoundAfter(s, a.caseId, Advancing(index, isFinal), AdvanceEvents(record, index, isFinal));
      PutEvents(s, a.caseId, Advancing(index, isFinal), AdvanceEvents(record, index, isFinal));
    }
  }

  // ----- Documents, strategies and the workflow of one case

  lemma {:induction false} WithoutExactly(documents: seq<Document>, documentId: string)
    ensures forall d :: d in WithoutDocument(documents, documentId) <==> d in documents && d.id != documentId
  {
    if documents != [] {
      WithoutExactly(documents[1..], documentId);
      assert forall d :: d in documents <==> d == documents[0] || d in documents[1..];
    }
  }

  /** Of the strategy named, the notes are replaced; nothing else about any strategy changes. */
  predicate Annotates(before: Case, after: Case, strategyId: string, notes: Text) {
    && |after.strategies| == |before.strategies|
    && forall i :: 0 <= i < |before.strategies| ==>
         && after.strategies[i] == before.strategies[i].(notes := after.strategies[i].notes)
         && after.strategies[i].notes == if before.strategies[i].id == strategyId then notes else before.strategies[i].notes
  }

  // ----- New cases and the seed

  /** A new case comes last, empty, unapproved and locked; the others stay. */
  lemma CreateOutcome(s: State, caseId: string, seed: Case)
    ensures var t := Apply(s, CreateCase(caseId), seed);
            && |t.cases| == |s.cases| + 1 && t.cases[..|s.cases|] == s.cases
            && var record := t.cases[|s.cases|];
               record.id == caseId && record.motionVersions == [] && record.documents == []
               && record.approval == None && !ExportUnlocked(record)
  {
    hide Approvable, ApprovalBlockers, ExportUnlocked, FreshWorkflow;
    GateExact(NewCase(caseId));
  }

  predicate NothingApproved(events: seq<Event>) {
    forall e :: e in events ==> e.kind != ApprovalCreated && e.kind != ExportGenerated
  }

  /** The seed is unapproved and locked, and neither at the start nor after a reset is an approval or export logged. */
  lemma SeedOutcome(s: State, seed: Case)
    requires IsSeed(seed)
    ensures seed.approval == None && !ExportUnlocked(seed)
    ensures NothingApproved(Initial(seed).events)
    ensures Apply(s, ResetDemo, seed).cases == [seed] && NothingApproved(Apply(s, ResetDemo, seed).events)
  {
    hide Approvable, ApprovalBlockers, ExportUnlocked, FreshWorkflow, MotionHash, NothingApproved;
    GateExact(seed);
    NothingApprovedYet();
  }

  lemma NothingApprovedYet()
    ensures NothingApproved(SEED_EVENTS)
    ensures NothingApproved(Simple(DEMO_CASE_ID, WorkspaceReset, "demo-workspace") + SEED_EVENTS)
  {
    var news := Simple(DEMO_CASE_ID, WorkspaceReset, "demo-workspace");
    assert forall e :: e in news + SEED_EVENTS <==> e in news || e in SEED_EVENTS;
  }
}
