/** What the actions on documents, strategies and the workflow change, and the safety of included strategies. */
module MotionEffects {
  import opened Options
  import opened StableHash
  import opened MotionGate
  import opened MotionStore
  import opened MotionSafety
  import opened MotionOutcomes
  import opened RejectedClaims
  import opened GateInWords

  // ----- Approval and export in plain conditions

  /** The seven things a motion must have before it is approved. */
  ghost predicate Ready(record: Case) {
    && LongEnough(record) && SavedAsIs(record) && NineGoodCitations(record) && FirstRequiredRejected(record)
    && AllDecided(record) && IncludedAreSafe(record) && NoRejectedClaim(record)
  }

  ghost predicate MayApprove(record: Case, reviewerName: Text, pin: string, confirmed: bool) {
    && Ready(record) && record.approval.None?
    && (exists name :: IsTrimmed(reviewerName, name) && |name| >= 2) && pin == "2026" && confirmed
  }

  /** A request can be recorded exactly when the case and the request meet the plain conditions. */
  lemma RequestInWords(record: Case, reviewerName: Text, pin: string, confirmed: bool)
    ensures CanApprove(record, reviewerName, pin, confirmed) <==> MayApprove(record, reviewerName, pin, confirmed)
  {
    hide Approvable, LongEnough, SavedAsIs, NineGoodCitations, FirstRequiredRejected, AllDecided, IncludedAreSafe,
      NoRejectedClaim, IsTrimmed, Trim, ApprovalBlockers;
    ApprovableInWords(record);
    TrimExactly(reviewerName, Trim(reviewerName));
    if name :| IsTrimmed(reviewerName, name) && |name| >= 2 {
      TrimExactly(reviewerName, name);
    }
  }

  /** In every reachable state an approved motion is free of rejected claims, and only safe strategies are included. */
  lemma ApprovedMotionsAreClean(actions: seq<Action>, seed: Case, i: nat)
    requires IsSeed(seed) && IsRun(actions, seed) && i < |Run(actions, seed).cases|
    requires Run(actions, seed).cases[i].approval.Some?
    ensures Ready(Run(actions, seed).cases[i])
  {
    hide Run, IsRun, IsSeed, Approvable, LongEnough, SavedAsIs, NineGoodCitations, FirstRequiredRejected, AllDecided,
      IncludedAreSafe, NoRejectedClaim, ApprovalBlockers, ExportUnlocked, MotionHash;
    ApprovedExactlyWhenUnlocked(actions, seed, i);
    ApprovableInWords(Run(actions, seed).cases[i]);
  }

  lemma ApprovedIsReady(s: State, caseId: string)
    requires Inv(s) && Find(s.cases, caseId).Some? && Find(s.cases, caseId).value.approval.Some?
    ensures Ready(Find(s.cases, caseId).value)
  {
    hide LogOk, ExportsApproved, VersionsOk, WorkflowOk, Approvable, LongEnough, SavedAsIs, NineGoodCitations,
      FirstRequiredRejected, AllDecided, IncludedAreSafe, NoRejectedClaim, ApprovalBlockers, ExportUnlocked;
    FoundOk(s, caseId);
    GateExact(Find(s.cases, caseId).value);
    ApprovableInWords(Find(s.cases, caseId).value);
  }

  // ----- An ethics decision and the strategy it is about

  /** Which strategy an argument decides on. */
  predicate Ties(argumentId: string, strategyId: string) {
    || (argumentId == "ETH-ARG-01" && strategyId == "STRAT-01")
    || (argumentId == "ETH-ARG-02" && strategyId == "STRAT-02")
    || (argumentId == "ETH-ARG-04" && strategyId == "STRAT-04")
  }

  /** The tied strategy takes over the decision and stays included only if it is an approval; nothing else changes. */
  predicate DecisionOnly(before: Case, after: Case, argumentId: string, status: ReviewStatus) {
    && |after.strategies| == |before.strategies| && |after.ethicsArguments| == |before.ethicsArguments|
    && (forall i :: 0 <= i < |before.strategies| ==>
          after.strategies[i]
          == if Ties(argumentId, before.strategies[i].id) then
               before.strategies[i].(ethicsStatus := status,
                                     included := before.strategies[i].included && status == ReviewStatus.Approved)
             else before.strategies[i])
    && (forall i :: 0 <= i < |before.ethicsArguments| ==>
          after.ethicsArguments[i] == if before.ethicsArguments[i].id == argumentId
                                      then before.ethicsArguments[i].(status := status) else before.ethicsArguments[i])
    && after == before.(strategies := after.strategies, ethicsArguments := after.ethicsArguments, approval := None,
                        reviewStatus := if before.approval.Some? then Revision else before.reviewStatus)
  }

  lemma ReviewingOnly(record: Case, argumentId: string, status: ReviewStatus)
    ensures DecisionOnly(record, Reviewing(argumentId, status, record.approval.Some?)(record), argumentId, status)
  {
  }

  /** A changed decision changes exactly the argument, the strategy tied to it and the approval. */
  lemma ReviewEffect(s: State, a: Action, record: Case)
    requires Inv(s) && a.ReviewEthicsArgument? && Find(s.cases, a.caseId) == Some(record)
    requires Decides(record, a.argumentId, a.status)
    ensures Find(ApplyTo(s, a, record).cases, a.caseId).Some?
    ensures DecisionOnly(record, Find(ApplyTo(s, a, record).cases, a.caseId).value, a.argumentId, a.status)
  {
    hide Inv, Put, Reviewing, DecisionOnly, Touches, Decided, ApplyTo;
    ReviewOutcome(s, a, record);
    ReviewingOnly(record, a.argumentId, a.status);
    ReviewingId(a.argumentId, a.status, record.approval.Some?);
    FoundAfter(s, a.caseId, Reviewing(a.argumentId, a.status, record.approval.Some?),
               Invalidation(record.approval.Some?, a.caseId, Named(a.argumentId))
               + Simple(a.caseId, EthicsReviewed(a.status), a.argumentId));
  }

  // ----- Adding documents

  predicate NameTaken(documents: seq<Document>, key: string) {
    exists i :: 0 <= i < |documents| && documents[i].nameKey == key
  }

  predicate DistinctNames(documents: seq<Document>) {
    forall i, j :: 0 <= i < j < |documents| ==> documents[i].nameKey != documents[j].nameKey
  }

  /** The document is the first of its name among the incoming ones. */
  predicate FirstOfName(incoming: seq<Document>, d: Document) {
    exists i :: 0 <= i < |incoming| && incoming[i] == d && forall k :: 0 <= k < i ==> incoming[k].nameKey != d.nameKey
  }

  function Taking(taken: set<string>, first: Document): set<string> {
    if first.nameKey in taken then taken else taken + {first.nameKey}
  }

  lemma UniqueStep(incoming: seq<Document>, taken: set<string>)
    requires incoming != []
    ensures Unique(incoming, taken)
         == (if incoming[0].nameKey in taken then [] else [incoming[0]])
            + Unique(incoming[1..], Taking(taken, incoming[0]))
  {
  }

  lemma {:induction false} UniqueMembers(incoming: seq<Document>, taken: set<string>)
    ensures forall d :: d in Unique(incoming, taken) ==> d.nameKey !in taken && FirstOfName(incoming, d)
  {
    if incoming != [] {
      var first, rest := incoming[0], incoming[1..];
      UniqueStep(incoming, taken);
      UniqueMembers(rest, Taking(taken, first));
      hide Unique;
      forall d | d in Unique(incoming, taken)
        ensures d.nameKey !in taken && FirstOfName(incoming, d)
      {
        if d in Unique(rest, Taking(taken, first)) {
          FirstOfTail(incoming, d);
        } else {
          assert incoming[0] == d;
        }
      }
    }
  }

  lemma FirstOfTail(incoming: seq<Document>, d: Document)
    requires incoming != [] && FirstOfName(incoming[1..], d) && incoming[0].nameKey != d.nameKey
    ensures FirstOfName(incoming, d)
  {
    var rest := incoming[1..];
    var i :| 0 <= i < |rest| && rest[i] == d && forall k :: 0 <= k < i ==> rest[k].nameKey != d.nameKey;
    assert incoming[i + 1] == d;
    assert forall k :: 0 < k < i + 1 ==> incoming[k] == rest[k - 1];
  }

  lemma {:induction false} UniqueDistinct(incoming: seq<Document>, taken: set<string>)
    ensures DistinctNames(Unique(incoming, taken))
  {
    if incoming != [] {
      var first, rest := incoming[0], incoming[1..];
      var later := Unique(rest, Taking(taken, first));
      UniqueStep(incoming, taken);
      UniqueDistinct(rest, Taking(taken, first));
      UniqueMembers(rest, Taking(taken, first));
      hide Unique, FirstOfName;
      assert forall j :: 0 <= j < |later| ==> later[j] in later;
    }
  }

  lemma {:induction false} UniqueComplete(incoming: seq<Document>, taken: set<string>, d: Document)
    requires d in incoming && d.nameKey !in taken
    ensures NameTaken(Unique(incoming, taken), d.nameKey)
  {
    var first, rest := incoming[0], incoming[1..];
    var later, all := Unique(rest, Taking(taken, first)), Unique(incoming, taken);
    UniqueStep(incoming, taken);
    if d.nameKey == first.nameKey {
      assert all[0].nameKey == d.nameKey;
    } else {
      UniqueComplete(rest, Taking(taken, first), d);
      var i :| 0 <= i < |later| && later[i].nameKey == d.nameKey;
      assert later[i] == all[if first.nameKey in taken then i else i + 1];
    }
  }

  lemma UniqueExactly(incoming: seq<Document>, taken: set<string>)
    ensures DistinctNames(Unique(incoming, taken))
    ensures forall d :: d in Unique(incoming, taken) ==> d.nameKey !in taken && FirstOfName(incoming, d)
    ensures forall d :: d in incoming && d.nameKey !in taken ==> NameTaken(Unique(incoming, taken), d.nameKey)
  {
    UniqueDistinct(incoming, taken);
    UniqueMembers(incoming, taken);
    forall d | d in incoming && d.nameKey !in taken
      ensures NameTaken(Unique(incoming, taken), d.nameKey)
    {
      UniqueComplete(incoming, taken, d);
    }
  }

  /**
    What is added: the first incoming documents of new names, no two of one name, at most twelve in all with those
    there are; and a new name is left out only when twelve are reached.
   */
  lemma AddedExactly(record: Case, incoming: seq<Document>)
    ensures var added := Added(record, incoming);
            && DistinctNames(added)
            && (forall d :: d in added ==> !NameTaken(record.documents, d.nameKey) && FirstOfName(incoming, d))
            && (added != [] ==> |record.documents| + |added| <= 12)
            && ((forall d :: d in incoming ==> NameTaken(record.documents, d.nameKey) || NameTaken(added, d.nameKey))
                || |record.documents| + |added| >= 12)
  {
    hide Unique, FirstOfName;
    var taken := NameKeys(record.documents);
    UniqueExactly(incoming, taken);
    var unique, added := Unique(incoming, taken), Added(record, incoming);
    assert added <= unique;
    assert forall d :: d in added ==> d in unique;
    forall d: Document
      ensures d.nameKey in taken <==> NameTaken(record.documents, d.nameKey)
    {
      if d.nameKey in taken {
        var e :| e in record.documents && e.nameKey == d.nameKey;
        var i :| 0 <= i < |record.documents| && record.documents[i] == e;
      }
    }
  }

  /** The named case gains these documents at its end, and nothing else. */
  predicate AddsNewNames(before: Case, after: Case, incoming: seq<Document>, count: nat) {
    && |after.documents| == |before.documents| + count
    && after == before.(documents := after.documents) && after.documents[..|before.documents|] == before.documents
    && var added := after.documents[|before.documents|..];
       DistinctNames(added)
       && (forall d :: d in added ==> !NameTaken(before.documents, d.nameKey) && FirstOfName(incoming, d))
       && (count > 0 ==> |after.documents| <= 12)
       && ((forall d :: d in incoming ==> NameTaken(before.documents, d.nameKey) || NameTaken(added, d.nameKey))
           || |after.documents| >= 12)
  }

  lemma AddEffect(s: State, a: Action, record: Case)
    requires a.AddDocuments? && Find(s.cases, a.caseId) == Some(record)
    ensures var t := ApplyTo(s, a, record);
            && Find(t.cases, a.caseId).Some?
            && AddsNewNames(record, Find(t.cases, a.caseId).value, a.incoming, |Added(record, a.incoming)|)
            && (Added(record, a.incoming) == [] ==> t == s)
  {
    hide Put, DistinctNames, NameTaken, FirstOfName;
    var added := Added(record, a.incoming);
    FoundId(s, a.caseId);
    AddedExactly(record, a.incoming);
    hide Added;
    FoundAfter(s, a.caseId, Adding(added), Simple(a.caseId, DocumentsSelected, ""));
    var after := record.(documents := record.documents + added);
    assert after.documents[|record.documents|..] == added;
    if added == [] {
      assert record.documents + [] == record.documents;
    }
  }

  // ----- Starting, pausing, resuming and processing

  predicate Startable(record: Case) {
    record.workflow.status == Idle && |record.documents| > 0 && AllDone(record.documents)
  }

  /** The workflow runs from its first node on, with no agent logged as completed since. */
  predicate StartedFresh(record: Case, t: State) {
    && Find(t.cases, record.id).Some?
    && var after := Find(t.cases, record.id).value;
       after == record.(workflow := after.workflow) && after.workflow.status == Running
       && after.workflow.currentIndex == 0 && SplitAt(after.workflow.nodes, 0)
       && CompletedSince(t.events, record.id) == []
  }

  predicate AllDone(documents: seq<Document>) {
    forall i :: 0 <= i < |documents| ==> documents[i].processed
  }

  /** A workflow starts exactly when it is idle and its documents, of which there are some, are all processed. */
  lemma StartEffect(s: State, a: Action, record: Case)
    requires Inv(s) && a.StartWorkflow? && Find(s.cases, a.caseId) == Some(record)
    ensures if Startable(record) then StartedFresh(record, ApplyTo(s, a, record)) else ApplyTo(s, a, record) == s
  {
    hide ExportsApproved, Replay, Put, Touches, AGENTS;
    FoundOk(s, a.caseId);
    if !HasUnprocessed(record.documents) {
      assert forall i :: 0 <= i < |record.documents| ==> record.documents[i] in record.documents;
    }
    if Startable(record) {
      var news := Simple(a.caseId, WorkflowStarted, "workflow-run");
      StartedRead(news[0], s.events);
      StartingSplits(record);
      FoundAfter(s, a.caseId, Starting(), news);
      PutEvents(s, a.caseId, Starting(), news);
    }
  }

  lemma StartingSplits(record: Case)
    requires WorkflowOk(record.workflow) && record.workflow.status == Idle
    ensures var after := Starting()(record);
            && after.id == record.id && after.workflow.status == Running
            && after.workflow.currentIndex == 0 && SplitAt(after.workflow.nodes, 0)
  {
  }

  /** Only a running workflow is paused and only a paused one resumed; its nodes and its place stay. */
  lemma PauseResumeEffect(s: State, a: Action, record: Case)
    requires (a.PauseWorkflow? || a.ResumeWorkflow?) && Find(s.cases, a.caseId) == Some(record)
    ensures var t := ApplyTo(s, a, record);
            if a.PauseWorkflow? && record.workflow.status == Running then
              Find(t.cases, a.caseId) == Some(record.(workflow := record.workflow.(status := Paused)))
            else if a.ResumeWorkflow? && record.workflow.status == Paused then
              Find(t.cases, a.caseId) == Some(record.(workflow := record.workflow.(status := Running)))
            else t == s
  {
    hide Put;
    FoundId(s, a.caseId);
    if a.PauseWorkflow? {
      FoundAfter(s, a.caseId, WithStatus(Paused), Simple(a.caseId, WorkflowPaused, "workflow-run"));
    } else {
      FoundAfter(s, a.caseId, WithStatus(Running), Simple(a.caseId, WorkflowResumed, "workflow-run"));
    }
  }

  lemma FoundId(s: State, caseId: string)
    ensures Find(s.cases, caseId).Some? ==> Find(s.cases, caseId).value.id == caseId
  {
  }

  /** Afterwards every document is processed; if all were, nothing happens, and no document is added or lost. */
  lemma ProcessEffect(s: State, a: Action, record: Case)
    requires a.ProcessDocuments? && Find(s.cases, a.caseId) == Some(record)
    ensures var t := ApplyTo(s, a, record);
            && Find(t.cases, a.caseId).Some?
            && var after := Find(t.cases, a.caseId).value;
               AllDone(after.documents) && |after.documents| == |record.documents|
               && (forall i :: 0 <= i < |record.documents| ==>
                     after.documents[i] == record.documents[i].(processed := true))
               && (AllDone(record.documents) <==> t == s)
  {
    hide Put;
    FoundId(s, a.caseId);
    var news := Simple(a.caseId, DocumentsProcessed, "document-set");
    FoundAfter(s, a.caseId, Processing(), news);
    PutEvents(s, a.caseId, Processing(), news);
    if !HasUnprocessed(record.documents) {
      assert forall i :: 0 <= i < |record.documents| ==> record.documents[i] in record.documents;
    } else {
      var d :| d in record.documents && !d.processed;
      var i :| 0 <= i < |record.documents| && record.documents[i] == d;
      assert |news + s.events| > |s.events|;
    }
  }

  // ----- Including strategies

  /** A safe strategy of that name takes the setting; an unsafe one, or any other, stays as it is. */
  predicate IncludedAsAsked(before: Case, after: Case, strategyId: string, included: bool) {
    && |after.strategies| == |before.strategies|
    && forall i :: 0 <= i < |before.strategies| ==>
         var x := before.strategies[i];
         after.strategies[i]
         == if x.id == strategyId && x.citationStatus == Verified && x.ethicsStatus == ReviewStatus.Approved
            then x.(included := included) else x
  }

  predicate AllSafe(cases: seq<Case>) {
    forall i :: 0 <= i < |cases| ==> IncludedAreSafe(cases[i])
  }

  lemma SafeUpdate(s: State, caseId: string, updater: Case -> Case, news: seq<Event>)
    requires AllSafe(s.cases) && forall c :: IncludedAreSafe(c) ==> IncludedAreSafe(updater(c))
    ensures AllSafe(Put(s, caseId, updater, news).cases)
  {
    hide IncludedAreSafe;
  }

  lemma SameStrategiesSafe(s: State, caseId: string, updater: Case -> Case, news: seq<Event>)
    requires AllSafe(s.cases) && forall c :: updater(c).strategies == c.strategies
    ensures AllSafe(Put(s, caseId, updater, news).cases)
  {
  }

  lemma IncludingSafe(strategyId: string, included: bool, c: Case)
    ensures IncludedAsAsked(c, Including(strategyId, included)(c), strategyId, included)
    ensures IncludedAreSafe(c) ==> IncludedAreSafe(Including(strategyId, included)(c))
  {
  }

  lemma AnnotatingSafe(strategyId: string, notes: Text, c: Case)
    requires IncludedAreSafe(c)
    ensures IncludedAreSafe(Annotating(strategyId, notes)(c))
  {
  }

  lemma ReviewingSafe(argumentId: string, status: ReviewStatus, hadApproval: bool, c: Case)
    requires IncludedAreSafe(c)
    ensures IncludedAreSafe(Reviewing(argumentId, status, hadApproval)(c))
  {
  }

  lemma StepSafe(s: State, a: Action, seed: Case)
    requires AllSafe(s.cases) && IncludedAreSafe(seed)
    ensures AllSafe(Apply(s, a, seed).cases)
  {
    hide IncludedAreSafe, Put, AllSafe, AdvancedNodes, StartedNodes, AdvanceEvents, Including, Annotating;
    match a {
      case CreateCase(id) => CreatedSafe(s, id, seed);
      case RegisterDocument(id, document) => SameStrategiesSafe(s, id, Adding([document]), []);
      case DeleteDocument(id, documentId) => SameStrategiesSafe(s, id, Deleting(documentId), []);
      case SetStrategyIncluded(id, strategyId, included) =>
        forall c | IncludedAreSafe(c) ensures IncludedAreSafe(Including(strategyId, included)(c)) {
          IncludingSafe(strategyId, included, c);
        }
        SafeUpdate(s, id, Including(strategyId, included), []);
      case SetStrategyNotes(id, strategyId, notes) =>
        forall c | IncludedAreSafe(c) ensures IncludedAreSafe(Annotating(strategyId, notes)(c)) {
          AnnotatingSafe(strategyId, notes, c);
        }
        SafeUpdate(s, id, Annotating(strategyId, notes), []);
      case ResetWorkflow(id) => SameStrategiesSafe(s, id, Resetting(), Simple(id, WorkflowReset, "workflow-run"));
      case ResetDemo => SeedSafe(seed);
      case _ =>
        if Find(s.cases, a.caseId).Some? {
          LookedUpSafe(s, a, Find(s.cases, a.caseId).value);
        }
    }
  }

  lemma SeedSafe(seed: Case)
    requires IncludedAreSafe(seed)
    ensures AllSafe([seed])
  {
  }

  lemma CreatedSafe(s: State, id: string, seed: Case)
    requires AllSafe(s.cases)
    ensures AllSafe(Apply(s, CreateCase(id), seed).cases)
  {
  }

  lemma LookedUpSafe(s: State, a: Action, record: Case)
    requires AllSafe(s.cases) && LooksUp(a)
    ensures AllSafe(ApplyTo(s, a, record).cases)
  {
    hide IncludedAreSafe, Put, AllSafe, AdvancedNodes, StartedNodes, AdvanceEvents, ExportUnlocked, ApprovalBlockers, Trim,
      Reviewing;
    match a {
      case AddDocuments(id, incoming) =>
        SameStrategiesSafe(s, id, Adding(Added(record, incoming)), Simple(id, DocumentsSelected, ""));
      case ProcessDocuments(id) => SameStrategiesSafe(s, id, Processing(), Simple(id, DocumentsProcessed, "document-set"));
      case StartWorkflow(id) => SameStrategiesSafe(s, id, Starting(), Simple(id, WorkflowStarted, "workflow-run"));
      case PauseWorkflow(id) => SameStrategiesSafe(s, id, WithStatus(Paused), Simple(id, WorkflowPaused, "workflow-run"));
      case ResumeWorkflow(id) => SameStrategiesSafe(s, id, WithStatus(Running), Simple(id, WorkflowResumed, "workflow-run"));
      case AdvanceWorkflow(id) =>
        var index := record.workflow.currentIndex;
        if index < |record.workflow.nodes| {
          var isFinal := index == |record.workflow.nodes| - 1;
          SameStrategiesSafe(s, id, Advancing(index, isFinal), AdvanceEvents(record, index, isFinal));
        }
      case ReviewEthicsArgument(id, argumentId, status) =>
        forall c | IncludedAreSafe(c) ensures IncludedAreSafe(Reviewing(argumentId, status, record.approval.Some?)(c)) {
          ReviewingSafe(argumentId, status, record.approval.Some?, c);
        }
        SafeUpdate(s, id, Reviewing(argumentId, status, record.approval.Some?),
                   Invalidation(record.approval.Some?, id, Named(argumentId))
                   + Simple(id, EthicsReviewed(status), argumentId));
      case SaveMotion(id, body) =>
        var saved := NextSaved(record, body);
        SameStrategiesSafe(s, id, Saving(saved, record.approval.Some?),
                           Invalidation(record.approval.Some?, id, Version(saved.version))
                           + [Event(id, MotionEdited, Version(saved.version), saved.mockHash)]);
      case ApproveMotion(id, reviewerName, _, _) =>
        if CurrentVersion(record).Some? {
          var saved := CurrentVersion(record).value;
          SameStrategiesSafe(s, id, Approving(Approval(Trim(reviewerName), saved.version, saved.mockHash)),
                             [Event(id, ApprovalCreated, Version(saved.version), saved.mockHash)]);
        }
      case RecordExport(_) =>
    }
  }

  /** From a seed without unsafe inclusions, no reachable case ever includes an unsafe strategy. */
  lemma {:induction false} NeverUnsafe(actions: seq<Action>, seed: Case)
    requires IsSeed(seed) && IsRun(actions, seed) && IncludedAreSafe(seed)
    ensures AllSafe(Run(actions, seed).cases)
  {
    hide IsSeed, Apply, AllSafe, IncludedAreSafe;
    if actions == [] {
      SeedSafe(seed);
    } else {
      var before := actions[..|actions| - 1];
      NeverUnsafe(before, seed);
      StepSafe(Run(before, seed), actions[|actions| - 1], seed);
    }
  }

  // ----- What a step of the workflow logs

  /** The analysis an agent leaves behind, if the case has anything for it. */
  predicate Produces(agent: string, record: Case, product: string) {
    || (agent == "agent-facts" && product == "fact-set" && record.timelineCount > 0)
    || (agent == "agent-timeline" && product == "timeline-set" && record.timelineCount > 0)
    || (agent == "agent-contradictions" && product == "contradiction-set" && record.contradictionCount > 0)
    || (agent == "agent-procedure" && product == "finding-set" && record.findingCount > 0)
  }

  /** One step logs the agent, what it produced, and the completion if it was the last one, and nothing else. */
  lemma AdvanceLogs(record: Case, index: nat, isFinal: bool, e: Event)
    requires index < |record.workflow.nodes|
    ensures e in AdvanceEvents(record, index, isFinal)
       <==> var agent := record.workflow.nodes[index].id;
            || e == Event(record.id, AgentCompleted, Named(agent), "")
            || (isFinal && e == Event(record.id, WorkflowCompleted, Named("workflow-run"), ""))
            || (e.entity.Named? && Produces(agent, record, e.entity.name)
                && e == Event(record.id, AnalysisCreated, Named(e.entity.name), ""))
  {
    var agent := record.workflow.nodes[index].id;
    AnalysisLogs(agent, record, e);
    hide AnalysisEvents;
  }

  lemma AnalysisLogs(agent: string, record: Case, e: Event)
    ensures e in AnalysisEvents(agent, record)
       <==> e.entity.Named? && Produces(agent, record, e.entity.name)
            && e == Event(record.id, AnalysisCreated, Named(e.entity.name), "")
  {
  }
}
