/** The browser workspace store in mock mode: its actions on cases and the audit log, newest event first. */
module MotionStore {
  import opened Options
  import opened StableHash
  import opened MotionGate

  const DEMO_CASE_ID := "case-synthetic-property-001"

  const AGENTS: seq<string> := [
    "agent-intake", "agent-classify", "agent-transcript", "agent-facts", "agent-timeline",
    "agent-contradictions", "agent-procedure", "agent-statutes", "agent-precedents", "agent-applicability",
    "agent-strategy", "agent-ethics", "agent-motion", "agent-citations", "agent-review"]

  datatype EventKind =
    | CaseSeeded | CaseCreated | DocumentsSelected | DocumentsProcessed
    | WorkflowStarted | WorkflowPaused | WorkflowResumed | WorkflowCompleted | WorkflowReset
    | AgentCompleted | AnalysisCreated
    | EthicsReviewed(status: ReviewStatus) | MotionEdited
    | ApprovalInvalidated | ApprovalCreated | ExportGenerated | WorkspaceReset

  /** What an event is about: a motion version, or something with a name. */
  datatype Entity = Version(version: nat) | Named(name: string)

  datatype Event = Event(caseId: string, kind: EventKind, entity: Entity, metadata: string)

  datatype State = State(cases: seq<Case>, events: seq<Event>)

  datatype Action =
    | CreateCase(caseId: string)
    | AddDocuments(caseId: string, incoming: seq<Document>)
    | RegisterDocument(caseId: string, document: Document)
    | DeleteDocument(caseId: string, documentId: string)
    | ProcessDocuments(caseId: string)
    | StartWorkflow(caseId: string)
    | PauseWorkflow(caseId: string)
    | ResumeWorkflow(caseId: string)
    | AdvanceWorkflow(caseId: string)
    | ResetWorkflow(caseId: string)
    | SetStrategyIncluded(caseId: string, strategyId: string, included: bool)
    | SetStrategyNotes(caseId: string, strategyId: string, notes: Text)
    | ReviewEthicsArgument(caseId: string, argumentId: string, status: ReviewStatus)
    | SaveMotion(caseId: string, body: Text)
    | ApproveMotion(caseId: string, reviewerName: Text, pin: string, confirmed: bool)
    | RecordExport(caseId: string)
    | ResetDemo

  // ----- Looking up and replacing cases

  function Find(cases: seq<Case>, caseId: string): (r: Option<Case>)
    ensures r.Some? ==> r.value in cases && r.value.id == caseId
    ensures r.None? ==> forall c :: c in cases ==> c.id != caseId
  {
    if cases == [] then None
    else if cases[0].id == caseId then Some(cases[0])
    else Find(cases[1..], caseId)
  }

  function UpdateCase(cases: seq<Case>, caseId: string, updater: Case -> Case): (r: seq<Case>)
    ensures |r| == |cases|
    ensures forall i :: 0 <= i < |r| ==> r[i] == if cases[i].id == caseId then updater(cases[i]) else cases[i]
  {
    seq(|cases|, i requires 0 <= i < |cases| => if cases[i].id == caseId then updater(cases[i]) else cases[i])
  }

  /** Replace a case by `updater` and put `news` events in front of the log. */
  function Put(s: State, caseId: string, updater: Case -> Case, news: seq<Event>): State {
    State(UpdateCase(s.cases, caseId, updater), news + s.events)
  }

  // ----- Cases and documents

  function FreshWorkflow(): Workflow {
    Workflow(Idle, 0, seq(|AGENTS|, i requires 0 <= i < |AGENTS| =>
      Node(AGENTS[i], if i == 0 then NodeQueued else NodeLocked)))
  }

  function NewCase(caseId: string): Case {
    Case(caseId, [], FreshWorkflow(), 0, 0, 0, [], [], [], [], [], None, Pending)
  }

  /** The incoming documents whose lower-cased names are neither taken nor repeated. */
  function Unique(incoming: seq<Document>, taken: set<string>): seq<Document> {
    if incoming == [] then []
    else if incoming[0].nameKey in taken then Unique(incoming[1..], taken)
    else [incoming[0]] + Unique(incoming[1..], taken + {incoming[0].nameKey})
  }

  function NameKeys(documents: seq<Document>): set<string> {
    set d | d in documents :: d.nameKey
  }

  function Added(record: Case, incoming: seq<Document>): (r: seq<Document>)
    ensures |record.documents| + |r| <= 12 || r == []
  {
    var unique := Unique(incoming, NameKeys(record.documents));
    var capacity := if |record.documents| < 12 then 12 - |record.documents| else 0;
    if |unique| <= capacity then unique else unique[..capacity]
  }

  function AllProcessed(documents: seq<Document>): (r: seq<Document>)
    ensures |r| == |documents|
    ensures forall i :: 0 <= i < |r| ==> r[i] == documents[i].(processed := true)
  {
    seq(|documents|, i requires 0 <= i < |documents| => documents[i].(processed := true))
  }

  function WithoutDocument(documents: seq<Document>, documentId: string): seq<Document> {
    if documents == [] then []
    else (if documents[0].id == documentId then [] else [documents[0]]) + WithoutDocument(documents[1..], documentId)
  }

  function Adding(added: seq<Document>): Case -> Case {
    (item: Case) => item.(documents := item.documents + added)
  }

  function Deleting(documentId: string): Case -> Case {
    (item: Case) => item.(documents := WithoutDocument(item.documents, documentId))
  }

  function Processing(): Case -> Case {
    (item: Case) => item.(documents := AllProcessed(item.documents))
  }

  predicate HasUnprocessed(documents: seq<Document>) {
    exists d :: d in documents && !d.processed
  }

  // ----- Workflow

  function StartedNodes(w: Workflow): (r: seq<Node>)
    ensures |r| == |w.nodes|
    ensures forall i :: 0 <= i < |r| ==>
                          r[i] == w.nodes[i].(status := if i == w.currentIndex then NodeRunning else w.nodes[i].status)
  {
    seq(|w.nodes|, i requires 0 <= i < |w.nodes| =>
      w.nodes[i].(status := if i == w.currentIndex then NodeRunning else w.nodes[i].status))
  }

  function AdvancedNodes(nodes: seq<Node>, index: nat): (r: seq<Node>)
    ensures |r| == |nodes|
    ensures forall i :: 0 <= i < |r| ==>
                          r[i] == nodes[i].(status := if i <= index then NodeCompleted
                                                      else if i == index + 1 then NodeRunning else NodeLocked)
  {
    seq(|nodes|, i requires 0 <= i < |nodes| =>
      nodes[i].(status := if i <= index then NodeCompleted
                          else if i == index + 1 then NodeRunning else NodeLocked))
  }

  function Advancing(index: nat, isFinal: bool): Case -> Case {
    (item: Case) => item.(workflow := Workflow(
      if isFinal then Completed else Running,
      if isFinal then index else index + 1,
      AdvancedNodes(item.workflow.nodes, index)))
  }

  function Starting(): Case -> Case {
    (item: Case) => item.(workflow := item.workflow.(status := Running, nodes := StartedNodes(item.workflow)))
  }

  function WithStatus(status: WorkflowStatus): Case -> Case {
    (item: Case) => item.(workflow := item.workflow.(status := status))
  }

  function Resetting(): Case -> Case {
    (item: Case) => item.(workflow := FreshWorkflow())
  }

  /** `getAnalysisCompletionEvent` */
  function AnalysisEvents(nodeId: string, record: Case): seq<Event> {
    if nodeId == "agent-facts" && record.timelineCount > 0 then
      [Event(record.id, AnalysisCreated, Named("fact-set"), "")]
    else if nodeId == "agent-timeline" && record.timelineCount > 0 then
      [Event(record.id, AnalysisCreated, Named("timeline-set"), "")]
    else if nodeId == "agent-contradictions" && record.contradictionCount > 0 then
      [Event(record.id, AnalysisCreated, Named("contradiction-set"), "")]
    else if nodeId == "agent-procedure" && record.findingCount > 0 then
      [Event(record.id, AnalysisCreated, Named("finding-set"), "")]
    else []
  }

  function AdvanceEvents(record: Case, index: nat, isFinal: bool): seq<Event>
    requires index < |record.workflow.nodes|
  {
    (if isFinal then Simple(record.id, WorkflowCompleted, "workflow-run") else [])
    + AnalysisEvents(record.workflow.nodes[index].id, record)
    + Simple(record.id, AgentCompleted, record.workflow.nodes[index].id)
  }

  function Simple(caseId: string, kind: EventKind, name: string): seq<Event> {
    [Event(caseId, kind, Named(name), "")]
  }

  // ----- Ethics, strategies, motion

  function StrategyFor(argumentId: string): Option<string> {
    if argumentId == "ETH-ARG-01" then Some("STRAT-01")
    else if argumentId == "ETH-ARG-02" then Some("STRAT-02")
    else if argumentId == "ETH-ARG-04" then Some("STRAT-04")
    else None
  }

  function MapStrategies(strategies: seq<Strategy>, f: Strategy -> Strategy): (r: seq<Strategy>)
    ensures |r| == |strategies|
    ensures forall i :: 0 <= i < |r| ==> r[i] == f(strategies[i])
  {
    seq(|strategies|, i requires 0 <= i < |strategies| => f(strategies[i]))
  }

  function MapArguments(arguments: seq<EthicsArgument>, f: EthicsArgument -> EthicsArgument): (r: seq<EthicsArgument>)
    ensures |r| == |arguments|
    ensures forall i :: 0 <= i < |r| ==> r[i] == f(arguments[i])
  {
    seq(|arguments|, i requires 0 <= i < |arguments| => f(arguments[i]))
  }

  function Including(strategyId: string, included: bool): Case -> Case {
    (item: Case) => item.(strategies := MapStrategies(item.strategies, (x: Strategy) =>
      if x.id == strategyId && x.ethicsStatus == Approved && x.citationStatus == Verified
      then x.(included := included) else x))
  }

  function Annotating(strategyId: string, notes: Text): Case -> Case {
    (item: Case) => item.(strategies := MapStrategies(item.strategies, (x: Strategy) =>
      if x.id == strategyId then x.(notes := notes) else x))
  }

  function FindArgument(arguments: seq<EthicsArgument>, argumentId: string): Option<EthicsArgument> {
    if arguments == [] then None
    else if arguments[0].id == argumentId then Some(arguments[0])
    else FindArgument(arguments[1..], argumentId)
  }

  function Reviewing(argumentId: string, status: ReviewStatus, hadApproval: bool): Case -> Case {
    (item: Case) => item.(
      ethicsArguments := MapArguments(item.ethicsArguments, (a: EthicsArgument) =>
        if a.id == argumentId then a.(status := status) else a),
      strategies := MapStrategies(item.strategies, (x: Strategy) =>
        if Some(x.id) == StrategyFor(argumentId)
        then x.(ethicsStatus := status, included := if status == Approved then x.included else false) else x),
      approval := if hadApproval then None else item.approval,
      reviewStatus := if hadApproval then Revision else item.reviewStatus)
  }

  function NextSaved(record: Case, body: Text): MotionVersion {
    var version := match CurrentVersion(record) case None => 1 case Some(v) => v.version + 1;
    MotionVersion(version, body, MotionHash(body, version))
  }

  function Saving(saved: MotionVersion, hadApproval: bool): Case -> Case {
    (item: Case) => item.(
      currentMotion := saved.body,
      motionVersions := item.motionVersions + [saved],
      approval := None,
      reviewStatus := if hadApproval then Revision else item.reviewStatus)
  }

  function Invalidation(hadApproval: bool, caseId: string, entity: Entity): seq<Event> {
    if hadApproval then [Event(caseId, ApprovalInvalidated, entity, "Export locked immediately")] else []
  }

  // ----- Approval and export

  datatype ApproveOutcome =
    | NoDraft | NameTooShort | WrongPin | Unconfirmed
    | AlreadyApproved | BlockedBy(blocker: Blocker) | Unsaved | Recorded

  function ApproveResult(found: Option<Case>, reviewerName: Text, pin: string, confirmed: bool): ApproveOutcome {
    match found
    case None => NoDraft
    case Some(record) =>
      if record.currentMotion == [] then NoDraft
      else if |Trim(reviewerName)| < 2 then NameTooShort
      else if pin != "2026" then WrongPin
      else if !confirmed then Unconfirmed
      else if ExportUnlocked(record) then AlreadyApproved
      else if |ApprovalBlockers(record)| > 0 then BlockedBy(ApprovalBlockers(record)[0])
      else if record.motionVersions == [] then Unsaved
      else Recorded
  }

  function Approving(approval: Approval): Case -> Case {
    (item: Case) => item.(approval := Some(approval), reviewStatus := Approved)
  }

  predicate ExportAllowed(found: Option<Case>) {
    match found
    case None => false
    case Some(record) => ExportUnlocked(record) && CurrentVersion(record).Some?
  }

  // ----- The transition function

  function Apply(s: State, a: Action, seed: Case): State {
    match a
    case CreateCase(id) =>
      State(s.cases + [NewCase(id)], Simple(id, CaseCreated, id) + s.events)
    case RegisterDocument(id, document) => Put(s, id, Adding([document]), [])
    case DeleteDocument(id, documentId) => Put(s, id, Deleting(documentId), [])
    case SetStrategyIncluded(id, strategyId, included) => Put(s, id, Including(strategyId, included), [])
    case SetStrategyNotes(id, strategyId, notes) => Put(s, id, Annotating(strategyId, notes), [])
    case ResetWorkflow(id) => Put(s, id, Resetting(), Simple(id, WorkflowReset, "workflow-run"))
    case ResetDemo =>
      State([seed], Simple(DEMO_CASE_ID, WorkspaceReset, "demo-workspace") + SEED_EVENTS)
    case _ =>
      match Find(s.cases, a.caseId)
      case None => s
      case Some(record) => ApplyTo(s, a, record)
  }

  /** The actions that first look their case up and do nothing when it is absent. */
  predicate LooksUp(a: Action) {
    || a.AddDocuments? || a.ProcessDocuments? || a.StartWorkflow? || a.PauseWorkflow? || a.ResumeWorkflow?
    || a.AdvanceWorkflow? || a.ReviewEthicsArgument? || a.SaveMotion? || a.ApproveMotion? || a.RecordExport?
  }

  function ApplyTo(s: State, a: Action, record: Case): State
    requires LooksUp(a)
  {
    match a
    case AddDocuments(id, incoming) =>
      var added := Added(record, incoming);
      if added == [] then s else Put(s, id, Adding(added), Simple(id, DocumentsSelected, ""))
    case ProcessDocuments(id) =>
      if !HasUnprocessed(record.documents) then s
      else Put(s, id, Processing(), Simple(id, DocumentsProcessed, "document-set"))
    case StartWorkflow(id) =>
      if record.workflow.status != Idle || record.documents == [] || HasUnprocessed(record.documents) then s
      else Put(s, id, Starting(), Simple(id, WorkflowStarted, "workflow-run"))
    case PauseWorkflow(id) =>
      if record.workflow.status != Running then s
      else Put(s, id, WithStatus(Paused), Simple(id, WorkflowPaused, "workflow-run"))
    case ResumeWorkflow(id) =>
      if record.workflow.status != Paused then s
      else Put(s, id, WithStatus(Running), Simple(id, WorkflowResumed, "workflow-run"))
    case AdvanceWorkflow(id) =>
      var index := record.workflow.currentIndex;
      if record.workflow.status != Running || index >= |record.workflow.nodes| then s
      else
        var isFinal := index == |record.workflow.nodes| - 1;
        Put(s, id, Advancing(index, isFinal), AdvanceEvents(record, index, isFinal))
    case ReviewEthicsArgument(id, argumentId, status) =>
      var current := FindArgument(record.ethicsArguments, argumentId);
      if current.None? || current.value.status == status then s
      else
        Put(s, id, Reviewing(argumentId, status, record.approval.Some?),
            Invalidation(record.approval.Some?, id, Named(argumentId))
            + Simple(id, EthicsReviewed(status), argumentId))
    case SaveMotion(id, body) =>
      if Trim(body) == Trim(record.currentMotion) then s
      else
        var saved := NextSaved(record, body);
        Put(s, id, Saving(saved, record.approval.Some?),
            Invalidation(record.approval.Some?, id, Version(saved.version))
            + [Event(id, MotionEdited, Version(saved.version), saved.mockHash)])
    case ApproveMotion(id, reviewerName, pin, confirmed) =>
      if ApproveResult(Some(record), reviewerName, pin, confirmed) != Recorded then s
      else
        var saved := CurrentVersion(record).value;
        Put(s, id, Approving(Approval(Trim(reviewerName), saved.version, saved.mockHash)),
            [Event(id, ApprovalCreated, Version(saved.version), saved.mockHash)])
    case RecordExport(id) =>
      if !ExportAllowed(Some(record)) then s
      else
        State(s.cases,
              [Event(id, ExportGenerated, Version(CurrentVersion(record).value.version), "Not automatically filed")]
              + s.events)
  }

  const SEED_EVENTS: seq<Event> := [
    Event(DEMO_CASE_ID, CaseSeeded, Named(DEMO_CASE_ID), "Frontend-only synthetic fixture"),
    Event(DEMO_CASE_ID, DocumentsProcessed, Named("document-set-01"), "No files uploaded; metadata only")]

  function Initial(seed: Case): State {
    State([seed], SEED_EVENTS)
  }

  /** What the seed fixture guarantees: one saved version of its motion, no approval, a fresh workflow. */
  predicate IsSeed(seed: Case) {
    && seed.id == DEMO_CASE_ID
    && seed.approval == None
    && seed.motionVersions == [MotionVersion(1, seed.currentMotion, MotionHash(seed.currentMotion, 1))]
    && seed.workflow == FreshWorkflow()
  }

  /** Identifiers made for a new case are new. */
  predicate IsFresh(s: State, caseId: string) {
    && (forall c :: c in s.cases ==> c.id != caseId)
    && forall e :: e in s.events ==> e.caseId != caseId
  }

  predicate Enabled(s: State, a: Action) {
    && (a.CreateCase? ==> IsFresh(s, a.caseId))
    && (a.ReviewEthicsArgument? ==> a.status != Pending)
  }

  /** The state after a run of actions from the seed. */
  function Run(actions: seq<Action>, seed: Case): State {
    if actions == [] then Initial(seed)
    else Apply(Run(actions[..|actions| - 1], seed), actions[|actions| - 1], seed)
  }

  predicate IsRun(actions: seq<Action>, seed: Case) {
    actions != [] ==>
      && IsRun(actions[..|actions| - 1], seed)
      && Enabled(Run(actions[..|actions| - 1], seed), actions[|actions| - 1])
  }
}
