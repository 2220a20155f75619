/** The store object itself: every mock-mode action as a method on the two fields it replaces, and what it promises. */
module AppStoreObject {
  import opened Options
  import opened StableHash
  import opened MotionGate
  import opened MotionStore
  import opened MotionSafety
  import opened MotionOutcomes
  import opened GateInWords
  import opened MotionEffects

  class AppStore {
    var cases: seq<Case>
    var auditEvents: seq<Event>
    const seed: Case

    function View(): State
      reads this
    {
      State(cases, auditEvents)
    }

    /** Gates, versions, workflows and the audit log agree with one another. */
    ghost predicate Valid()
      reads this
    {
      IsSeed(seed) && Inv(View())
    }

    constructor (seed: Case)
      requires IsSeed(seed)
      ensures Valid() && this.seed == seed && View() == Initial(seed)
      ensures seed.approval == None && !ExportUnlocked(seed) && NothingApproved(auditEvents)
    {
      this.seed := seed;
      cases := [seed];
      auditEvents := SEED_EVENTS;
      new;
      hide Inv, IsSeed;
      SeedOk(seed, []);
      SeedOutcome(View(), seed);
      assert [] + SEED_EVENTS == SEED_EVENTS;
    }

    /** `set` with `updateCase` and events put in front of the log. */
    method Set(caseId: string, updater: Case -> Case, news: seq<Event>)
      modifies this
      ensures View() == Put(old(View()), caseId, updater, news)
    {
      cases := UpdateCase(cases, caseId, updater);
      auditEvents := news + auditEvents;
    }

    method CreateCase(caseId: string)
      requires Valid() && IsFresh(View(), caseId)
      modifies this
      ensures Valid()
      ensures View() == Apply(old(View()), Action.CreateCase(caseId), seed)
      ensures |cases| == |old(cases)| + 1 && cases[..|old(cases)|] == old(cases)
      ensures var record := cases[|old(cases)|];
              record.id == caseId && record.motionVersions == [] && record.documents == []
              && record.approval == None && !ExportUnlocked(record)
    {
      hide Inv, IsSeed, IsFresh, NewCase;
      StepInv(View(), Action.CreateCase(caseId), seed);
      CreateOutcome(View(), caseId, seed);
      cases := cases + [NewCase(caseId)];
      auditEvents := Simple(caseId, CaseCreated, caseId) + auditEvents;
    }

    method AddDocuments(caseId: string, incoming: seq<Document>) returns (count: nat)
      requires Valid()
      modifies this
      ensures Valid()
      ensures View() == Apply(old(View()), Action.AddDocuments(caseId, incoming), seed)
      ensures count == match old(Find(cases, caseId)) case None => 0 case Some(r) => |Added(r, incoming)|
      ensures Touches(old(View()), View(), caseId) && SameApprovals(old(View()), View())
      ensures match old(Find(cases, caseId))
              case None => View() == old(View())
              case Some(record) =>
                && Find(cases, caseId).Some? && AddsNewNames(record, Find(cases, caseId).value, incoming, count)
                && (count == 0 ==> View() == old(View()))
    {
      hide Inv, IsSeed, Touches, SameApprovals;
      ApplyFound(View(), Action.AddDocuments(caseId, incoming), seed);
      StepInv(View(), Action.AddDocuments(caseId, incoming), seed);
      NeutralOutcome(View(), Action.AddDocuments(caseId, incoming), seed);
      var record := Find(cases, caseId);
      if record.Some? {
        AddEffect(View(), Action.AddDocuments(caseId, incoming), record.value);
      }
      hide AddsNewNames, Added, Put;
      if record.None? {
        return 0;
      }
      var added := Added(record.value, incoming);
      if added != [] {
        Set(caseId, Adding(added), Simple(caseId, DocumentsSelected, ""));
      }
      return |added|;
    }

    method RegisterDocument(caseId: string, document: Document)
      requires Valid()
      modifies this
      ensures Valid()
      ensures View() == Apply(old(View()), Action.RegisterDocument(caseId, document), seed)
      ensures Touches(old(View()), View(), caseId) && SameApprovals(old(View()), View())
      ensures forall i :: 0 <= i < |cases| && cases[i].id == caseId ==>
                cases[i] == old(cases)[i].(documents := old(cases)[i].documents + [document])
    {
      hide Inv, IsSeed, Touches, SameApprovals;
      StepInv(View(), Action.RegisterDocument(caseId, document), seed);
      NeutralOutcome(View(), Action.RegisterDocument(caseId, document), seed);
      Set(caseId, Adding([document]), []);
    }

    method DeleteDocument(caseId: string, documentId: string)
      requires Valid()
      modifies this
      ensures Valid()
      ensures View() == Apply(old(View()), Action.DeleteDocument(caseId, documentId), seed)
      ensures Touches(old(View()), View(), caseId) && SameApprovals(old(View()), View())
      ensures forall i, d :: 0 <= i < |cases| && cases[i].id == caseId ==>
                (d in cases[i].documents <==> d in old(cases)[i].documents && d.id != documentId)
    {
      hide Inv, IsSeed, Touches, SameApprovals;
      StepInv(View(), Action.DeleteDocument(caseId, documentId), seed);
      NeutralOutcome(View(), Action.DeleteDocument(caseId, documentId), seed);
      Set(caseId, Deleting(documentId), []);
      forall i | 0 <= i < |cases| && cases[i].id == caseId
        ensures forall d :: d in cases[i].documents <==> d in old(cases)[i].documents && d.id != documentId
      {
        WithoutExactly(old(cases)[i].documents, documentId);
      }
    }

    method ProcessDocuments(caseId: string)
      requires Valid()
      modifies this
      ensures Valid()
      ensures View() == Apply(old(View()), Action.ProcessDocuments(caseId), seed)
      ensures Touches(old(View()), View(), caseId) && SameApprovals(old(View()), View())
      ensures match old(Find(cases, caseId))
              case None => View() == old(View())
              case Some(record) =>
                && Find(cases, caseId).Some? && AllDone(Find(cases, caseId).value.documents)
                && |Find(cases, caseId).value.documents| == |record.documents|
                && (AllDone(record.documents) ==> View() == old(View()))
    {
      hide Inv, IsSeed, Touches, SameApprovals;
      ApplyFound(View(), Action.ProcessDocuments(caseId), seed);
      StepInv(View(), Action.ProcessDocuments(caseId), seed);
      NeutralOutcome(View(), Action.ProcessDocuments(caseId), seed);
      var record := Find(cases, caseId);
      if record.Some? {
        ProcessEffect(View(), Action.ProcessDocuments(caseId), record.value);
      }
      hide AllDone, Put;
      if record.None? || !HasUnprocessed(record.value.documents) {
        return;
      }
      Set(caseId, Processing(), Simple(caseId, DocumentsProcessed, "document-set"));
    }

    method StartWorkflow(caseId: string)
      requires Valid()
      modifies this
      ensures Valid()
      ensures View() == Apply(old(View()), Action.StartWorkflow(caseId), seed)
      ensures Touches(old(View()), View(), caseId) && SameApprovals(old(View()), View())
      ensures match old(Find(cases, caseId))
              case None => View() == old(View())
              case Some(record) =>
                if Startable(record) then StartedFresh(record, View()) else View() == old(View())
    {
      hide Inv, IsSeed, Touches, SameApprovals;
      ApplyFound(View(), Action.StartWorkflow(caseId), seed);
      StepInv(View(), Action.StartWorkflow(caseId), seed);
      NeutralOutcome(View(), Action.StartWorkflow(caseId), seed);
      var record := Find(cases, caseId);
      if record.Some? {
        StartEffect(View(), Action.StartWorkflow(caseId), record.value);
      }
      hide StartedFresh, Put;
      if record.None?
         || record.value.workflow.status != Idle
         || record.value.documents == []
         || HasUnprocessed(record.value.documents)
      {
        return;
      }
      Set(caseId, Starting(), Simple(caseId, WorkflowStarted, "workflow-run"));
    }

    method PauseWorkflow(caseId: string)
      requires Valid()
      modifies this
      ensures Valid()
      ensures View() == Apply(old(View()), Action.PauseWorkflow(caseId), seed)
      ensures Touches(old(View()), View(), caseId) && SameApprovals(old(View()), View())
      ensures match old(Find(cases, caseId))
              case None => View() == old(View())
              case Some(record) =>
                if record.workflow.status == Running then
                  Find(cases, caseId) == Some(record.(workflow := record.workflow.(status := Paused)))
                else View() == old(View())
    {
      hide Inv, IsSeed, Touches, SameApprovals;
      ApplyFound(View(), Action.PauseWorkflow(caseId), seed);
      StepInv(View(), Action.PauseWorkflow(caseId), seed);
      NeutralOutcome(View(), Action.PauseWorkflow(caseId), seed);
      var record := Find(cases, caseId);
      if record.Some? {
        PauseResumeEffect(View(), Action.PauseWorkflow(caseId), record.value);
      }
      hide Put;
      if record.None? || record.value.workflow.status != Running {
        return;
      }
      Set(caseId, WithStatus(Paused), Simple(caseId, WorkflowPaused, "workflow-run"));
    }

    method ResumeWorkflow(caseId: string)
      requires Valid()
      modifies this
      ensures Valid()
      ensures View() == Apply(old(View()), Action.ResumeWorkflow(caseId), seed)
      ensures Touches(old(View()), View(), caseId) && SameApprovals(old(View()), View())
      ensures match old(Find(cases, caseId))
              case None => View() == old(View())
              case Some(record) =>
                if record.workflow.status == Paused then
                  Find(cases, caseId) == Some(record.(workflow := record.workflow.(status := Running)))
                else View() == old(View())
    {
      hide Inv, IsSeed, Touches, SameApprovals;
      ApplyFound(View(), Action.ResumeWorkflow(caseId), seed);
      StepInv(View(), Action.ResumeWorkflow(caseId), seed);
      NeutralOutcome(View(), Action.ResumeWorkflow(caseId), seed);
      var record := Find(cases, caseId);
      if record.Some? {
        PauseResumeEffect(View(), Action.ResumeWorkflow(caseId), record.value);
      }
      hide Put;
      if record.None? || record.value.workflow.status != Paused {
        return;
      }
      Set(caseId, WithStatus(Running), Simple(caseId, WorkflowResumed, "workflow-run"));
    }

    method AdvanceWorkflow(caseId: string)
      requires Valid()
      modifies this
      ensures Valid()
      ensures View() == Apply(old(View()), Action.AdvanceWorkflow(caseId), seed)
      ensures Touches(old(View()), View(), caseId) && SameApprovals(old(View()), View())
      ensures match old(Find(cases, caseId))
              case None => View() == old(View())
              case Some(record) =>
                if record.workflow.status == Running then AdvancedBy(record, old(View()), View()) else View() == old(View())
    {
      hide Inv, IsSeed, Touches, SameApprovals, Apply;
      StepInv(View(), Action.AdvanceWorkflow(caseId), seed);
      ApplyFound(View(), Action.AdvanceWorkflow(caseId), seed);
      NeutralOutcome(View(), Action.AdvanceWorkflow(caseId), seed);
      hide Put, AdvanceEvents, AdvancedBy, Advancing;
      var record := Find(cases, caseId);
      if record.Some? {
        AdvanceOutcome(View(), Action.AdvanceWorkflow(caseId), record.value);
      }
      if record.None? || record.value.workflow.status != Running {
        return;
      }
      var workflow := record.value.workflow;
      var currentIndex := workflow.currentIndex;
      if currentIndex >= |workflow.nodes| {
        return;
      }
      var isFinal := currentIndex == |workflow.nodes| - 1;
      var events := EventsOfAdvance(record.value, currentIndex, isFinal);
      Set(caseId, Advancing(currentIndex, isFinal), events);
    }

    /** The events of one step, put in front one by one. */
    method EventsOfAdvance(record: Case, index: nat, isFinal: bool) returns (events: seq<Event>)
      requires index < |record.workflow.nodes|
      ensures events == AdvanceEvents(record, index, isFinal)
    {
      hide AnalysisEvents;
      events := Simple(record.id, AgentCompleted, record.workflow.nodes[index].id);
      events := AnalysisEvents(record.workflow.nodes[index].id, record) + events;
      if isFinal {
        events := Simple(record.id, WorkflowCompleted, "workflow-run") + events;
      }
    }

    method ResetWorkflow(caseId: string)
      requires Valid()
      modifies this
      ensures Valid()
      ensures View() == Apply(old(View()), Action.ResetWorkflow(caseId), seed)
      ensures Touches(old(View()), View(), caseId) && SameApprovals(old(View()), View())
      ensures forall i :: 0 <= i < |cases| && cases[i].id == caseId ==>
                cases[i].workflow.status == Idle && cases[i].workflow.currentIndex == 0
    {
      hide Inv, IsSeed, Touches, SameApprovals;
      StepInv(View(), Action.ResetWorkflow(caseId), seed);
      NeutralOutcome(View(), Action.ResetWorkflow(caseId), seed);
      Set(caseId, Resetting(), Simple(caseId, WorkflowReset, "workflow-run"));
    }

    method SetStrategyIncluded(caseId: string, strategyId: string, included: bool)
      requires Valid()
      modifies this
      ensures Valid()
      ensures View() == Apply(old(View()), Action.SetStrategyIncluded(caseId, strategyId, included), seed)
      ensures Touches(old(View()), View(), caseId) && SameApprovals(old(View()), View())
      ensures forall i :: 0 <= i < |cases| && cases[i].id == caseId ==>
                IncludedAsAsked(old(cases)[i], cases[i], strategyId, included)
    {
      hide Inv, IsSeed, Touches, SameApprovals;
      StepInv(View(), Action.SetStrategyIncluded(caseId, strategyId, included), seed);
      NeutralOutcome(View(), Action.SetStrategyIncluded(caseId, strategyId, included), seed);
      Set(caseId, Including(strategyId, included), []);
    }

    method SetStrategyNotes(caseId: string, strategyId: string, notes: Text)
      requires Valid()
      modifies this
      ensures Valid()
      ensures View() == Apply(old(View()), Action.SetStrategyNotes(caseId, strategyId, notes), seed)
      ensures Touches(old(View()), View(), caseId) && SameApprovals(old(View()), View())
      ensures forall i :: 0 <= i < |cases| && cases[i].id == caseId ==>
                Annotates(old(cases)[i], cases[i], strategyId, notes)
    {
      hide Inv, IsSeed, Touches, SameApprovals;
      StepInv(View(), Action.SetStrategyNotes(caseId, strategyId, notes), seed);
      NeutralOutcome(View(), Action.SetStrategyNotes(caseId, strategyId, notes), seed);
      Set(caseId, Annotating(strategyId, notes), []);
    }

    method ReviewEthicsArgument(caseId: string, argumentId: string, status: ReviewStatus)
      requires Valid() && status != Pending
      modifies this
      ensures Valid()
      ensures View() == Apply(old(View()), Action.ReviewEthicsArgument(caseId, argumentId, status), seed)
      ensures Touches(old(View()), View(), caseId)
      ensures match old(Find(cases, caseId))
              case None => View() == old(View())
              case Some(record) =>
                if Decides(record, argumentId, status) then
                  && Decided(View(), caseId, argumentId, status)
                  && DecisionOnly(record, Find(cases, caseId).value, argumentId, status)
                else View() == old(View())
    {
      hide Inv, IsSeed, Touches, Apply, ApplyTo;
      StepInv(View(), Action.ReviewEthicsArgument(caseId, argumentId, status), seed);
      ApplyFound(View(), Action.ReviewEthicsArgument(caseId, argumentId, status), seed);
      hide Put, UpdateCase, Reviewing, DecisionOnly;
      var record := Find(cases, caseId);
      Unchanged(View(), caseId);
      if record.Some? {
        ReviewOutcome(View(), Action.ReviewEthicsArgument(caseId, argumentId, status), record.value);
        if Decides(record.value, argumentId, status) {
          ReviewEffect(View(), Action.ReviewEthicsArgument(caseId, argumentId, status), record.value);
        }
      }
      if record.None? {
        return;
      }
      var currentArgument := FindArgument(record.value.ethicsArguments, argumentId);
      if currentArgument.None? || currentArgument.value.status == status {
        return;
      }
      var hadApproval := record.value.approval.Some?;
      Set(caseId, Reviewing(argumentId, status, hadApproval),
          Invalidation(hadApproval, caseId, Named(argumentId))
          + Simple(caseId, EthicsReviewed(status), argumentId));
    }

    method SaveMotion(caseId: string, body: Text)
      requires Valid()
      modifies this
      ensures Valid()
      ensures View() == Apply(old(View()), Action.SaveMotion(caseId, body), seed)
      ensures Touches(old(View()), View(), caseId)
      ensures match old(Find(cases, caseId))
              case None => View() == old(View())
              case Some(record) =>
                if Trim(body) == Trim(record.currentMotion) then View() == old(View()) else Saved(record, View(), body)
    {
      hide Inv, IsSeed, Touches, Apply, ApplyTo;
      StepInv(View(), Action.SaveMotion(caseId, body), seed);
      ApplyFound(View(), Action.SaveMotion(caseId, body), seed);
      hide Put, UpdateCase, MotionHash, Saved, Trim;
      var record := Find(cases, caseId);
      Unchanged(View(), caseId);
      if record.Some? {
        SaveOutcome(View(), Action.SaveMotion(caseId, body), record.value);
      }
      if record.None? || Trim(body) == Trim(record.value.currentMotion) {
        return;
      }
      var last := CurrentVersion(record.value);
      var version := if last.None? then 1 else last.value.version + 1;
      var mockHash := MotionHash(body, version);
      var hadApproval := record.value.approval.Some?;
      Set(caseId, Saving(MotionVersion(version, body, mockHash), hadApproval),
          Invalidation(hadApproval, caseId, Version(version))
          + [Event(caseId, MotionEdited, Version(version), mockHash)]);
    }

    /** The guards of an approval request, in their order. */
    method CheckApproval(found: Option<Case>, reviewerName: Text, pin: string, confirmed: bool)
      returns (outcome: ApproveOutcome)
      ensures outcome == ApproveResult(found, reviewerName, pin, confirmed)
    {
      hide ApprovalBlockers, ExportUnlocked, Trim;
      if found.None? || found.value.currentMotion == [] {
        return NoDraft;
      }
      if |Trim(reviewerName)| < 2 {
        return NameTooShort;
      }
      if pin != "2026" {
        return WrongPin;
      }
      if !confirmed {
        return Unconfirmed;
      }
      if ExportUnlocked(found.value) {
        return AlreadyApproved;
      }
      var blockers := ApprovalBlockers(found.value);
      if |blockers| > 0 {
        return BlockedBy(blockers[0]);
      }
      return if CurrentVersion(found.value).None? then Unsaved else Recorded;
    }

    method ApproveMotion(caseId: string, reviewerName: Text, pin: string, confirmed: bool)
      returns (outcome: ApproveOutcome)
      requires Valid()
      modifies this
      ensures Valid()
      ensures View() == Apply(old(View()), Action.ApproveMotion(caseId, reviewerName, pin, confirmed), seed)
      ensures outcome == ApproveResult(old(Find(cases, caseId)), reviewerName, pin, confirmed)
      ensures Touches(old(View()), View(), caseId)
      ensures match old(Find(cases, caseId))
              case None => outcome != Recorded && View() == old(View())
              case Some(record) =>
                && (outcome == Recorded <==> MayApprove(record, reviewerName, pin, confirmed))
                && if outcome == Recorded then ApprovedNow(record, View(), reviewerName) else View() == old(View())
    {
      hide Inv, IsSeed, Touches, Put, Trim, CanApprove, ApprovedNow, Apply, ApplyTo;
      StepInv(View(), Action.ApproveMotion(caseId, reviewerName, pin, confirmed), seed);
      ApplyFound(View(), Action.ApproveMotion(caseId, reviewerName, pin, confirmed), seed);
      Unchanged(View(), caseId);
      var found := Find(cases, caseId);
      outcome := CheckApproval(found, reviewerName, pin, confirmed);
      if found.Some? {
        FoundOk(View(), caseId);
        RequestInWords(found.value, reviewerName, pin, confirmed);
        ApprovalDecision(found.value, reviewerName, pin, confirmed);
        ApprovalOutcome(View(), Action.ApproveMotion(caseId, reviewerName, pin, confirmed), found.value);
        if outcome == Recorded {
          var motionVersion := CurrentVersion(found.value).value;
          var approval := Approval(Trim(reviewerName), motionVersion.version, motionVersion.mockHash);
          hide ApproveResult;
          Set(caseId, Approving(approval),
              [Event(caseId, ApprovalCreated, Version(approval.version), approval.mockHash)]);
        }
      }
    }

    method RecordExport(caseId: string) returns (recorded: bool)
      requires Valid()
      modifies this
      ensures Valid()
      ensures View() == Apply(old(View()), Action.RecordExport(caseId), seed)
      ensures recorded <==> ExportAllowed(old(Find(cases, caseId)))
      ensures cases == old(cases)
      ensures match old(Find(cases, caseId))
              case None => !recorded && View() == old(View())
              case Some(record) =>
                && (recorded <==> record.approval.Some?)
                && (recorded ==>
                      && Ready(record)
                      && auditEvents[1..] == old(auditEvents)
                      && auditEvents[0].kind == ExportGenerated && auditEvents[0].caseId == caseId
                      && auditEvents[0].entity == Version(record.approval.value.version))
    {
      hide Inv, IsSeed, Touches, Ready, Apply, ApplyTo;
      StepInv(View(), Action.RecordExport(caseId), seed);
      ApplyFound(View(), Action.RecordExport(caseId), seed);
      hide ExportUnlocked;
      var record := Find(cases, caseId);
      if record.Some? {
        ExportOutcome(View(), Action.RecordExport(caseId), record.value);
        if record.value.approval.Some? {
          ApprovedIsReady(View(), caseId);
        }
      }
      if record.None? {
        return false;
      }
      var latest := CurrentVersion(record.value);
      if !ExportUnlocked(record.value) || latest.None? {
        return false;
      }
      auditEvents := [Event(caseId, ExportGenerated, Version(latest.value.version), "Not automatically filed")]
                     + auditEvents;
      return true;
    }

    method ResetDemo()
      requires Valid()
      modifies this
      ensures Valid()
      ensures View() == Apply(old(View()), Action.ResetDemo, seed)
      ensures cases == [seed] && seed.approval == None && !ExportUnlocked(seed) && NothingApproved(auditEvents)
    {
      hide Inv, IsSeed, ExportUnlocked, NothingApproved;
      StepInv(View(), Action.ResetDemo, seed);
      SeedOutcome(View(), seed);
      cases := [seed];
      auditEvents := Simple(DEMO_CASE_ID, WorkspaceReset, "demo-workspace") + SEED_EVENTS;
      assert View() == Apply(old(View()), Action.ResetDemo, seed);
    }
  }
}
