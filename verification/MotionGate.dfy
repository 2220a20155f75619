/** Case records of the browser workspace and the approval and export gate over them. */
module MotionGate {
  import opened Options
  import opened StableHash

  datatype ReviewStatus = Pending | Approved | Revision | Rejected

  datatype VerificationStatus = Verified | Review | Blocked

  datatype Strategy = Strategy(
    id: string, citationStatus: VerificationStatus, ethicsStatus: ReviewStatus, included: bool, notes: Text)

  datatype EthicsArgument = EthicsArgument(
    id: string, title: Text, status: ReviewStatus, requiredRejection: bool)

  datatype Citation = Citation(
    status: VerificationStatus, sourceExists: bool, metadataVerified: bool, quotationVerified: bool,
    locationVerified: bool, propositionSupported: bool, applicable: bool)

  datatype MotionVersion = MotionVersion(version: nat, body: Text, mockHash: string)

  datatype Approval = Approval(reviewerName: Text, version: nat, mockHash: string)

  datatype Document = Document(id: string, nameKey: string, processed: bool)

  datatype WorkflowStatus = Idle | Running | Paused | Completed

  datatype NodeStatus = NodeLocked | NodeQueued | NodeRunning | NodeCompleted

  datatype Node = Node(id: string, status: NodeStatus)

  datatype Workflow = Workflow(status: WorkflowStatus, currentIndex: nat, nodes: seq<Node>)

  /** A case, without the descriptive texts no action decides on. */
  datatype Case = Case(
    id: string,
    documents: seq<Document>,
    workflow: Workflow,
    timelineCount: nat,
    contradictionCount: nat,
    findingCount: nat,
    strategies: seq<Strategy>,
    ethicsArguments: seq<EthicsArgument>,
    citations: seq<Citation>,
    motionVersions: seq<MotionVersion>,
    currentMotion: Text,
    approval: Option<Approval>,
    reviewStatus: ReviewStatus)

  // ----- JavaScript text

  predicate IsJsSpace(u: bv16) {
    || 9 <= u <= 13 || u == 32 || u == 0xA0 || u == 0x1680 || 0x2000 <= u <= 0x200A
    || u == 0x2028 || u == 0x2029 || u == 0x202F || u == 0x205F || u == 0x3000 || u == 0xFEFF
  }

  /** `String.prototype.trim` */
  function Trim(s: Text): (r: Text)
    ensures |r| <= |s|
    decreases |s|
  {
    if s == [] then []
    else if IsJsSpace(s[0]) then Trim(s[1..])
    else if IsJsSpace(s[|s| - 1]) then Trim(s[..|s| - 1])
    else s
  }

  /** The code units of an ASCII literal. */
  function Ascii(s: string): (r: Text)
    ensures |r| == |s|
  {
    seq(|s|, i requires 0 <= i < |s| => (s[i] as int % 128) as bv16)
  }

  /** The lower-cased unit if it is an ASCII letter or digit, else a separator. */
  function ClaimUnit(u: bv16): bv16 {
    if 65 <= u <= 90 then u + 32
    else if 97 <= u <= 122 || 48 <= u <= 57 then u
    else if u == 0x212A then 107
    else if u == 0x130 then 105
    else 32
  }

  /** The words of a claim; U+0130 lower-cases to an `i` and a combining dot, which separates. */
  function ClaimWords(value: Text, word: Text): seq<Text>
    decreases |value|
  {
    if value == [] then
      if word == [] then [] else [word]
    else
      var u := ClaimUnit(value[0]);
      if u == 32 then (if word == [] then [] else [word]) + ClaimWords(value[1..], [])
      else if value[0] == 0x130 then [word + [u]] + ClaimWords(value[1..], [])
      else ClaimWords(value[1..], word + [u])
  }

  function Unwords(words: seq<Text>): Text {
    if words == [] then []
    else if |words| == 1 then words[0]
    else words[0] + [32] + Unwords(words[1..])
  }

  function NormalizeClaim(value: Text): Text {
    Unwords(ClaimWords(value, []))
  }

  /** The title's words without a trailing "allegation". */
  function CoreWords(words: seq<Text>): seq<Text> {
    if |words| >= 2 && words[|words| - 1] == Ascii("allegation") then words[..|words| - 1] else words
  }

  function WithoutWord(words: seq<Text>, word: Text): seq<Text> {
    if words == [] then []
    else (if words[0] == word then [] else [words[0]]) + WithoutWord(words[1..], word)
  }

  function DeterministicPhrases(argumentId: string): seq<Text> {
    if argumentId == "ETH-ARG-01" then [Ascii("custody chronology")]
    else if argumentId == "ETH-ARG-02" then [Ascii("seizure sequence")]
    else if argumentId == "ETH-ARG-04" then [Ascii("intentional police fabrication"), Ascii("intentional fabrication")]
    else []
  }

  function Phrases(argument: EthicsArgument): seq<Text> {
    var title := ClaimWords(argument.title, []);
    var core := CoreWords(title);
    [Unwords(title), Unwords(core), Unwords(WithoutWord(core, Ascii("police")))] + DeterministicPhrases(argument.id)
  }

  predicate OccursAt(text: Text, phrase: Text, i: nat) {
    i + |phrase| <= |text| && text[i..i + |phrase|] == phrase
  }

  predicate Includes(text: Text, phrase: Text) {
    exists i :: 0 <= i <= |text| && OccursAt(text, phrase, i)
  }

  /** A rejected argument whose title or a fixed phrase of at least twelve units occurs in the motion. */
  predicate RejectedButPresent(argument: EthicsArgument, motion: Text) {
    && argument.status == Rejected
    && exists p :: p in Phrases(argument) && |p| >= 12 && Includes(NormalizeClaim(motion), p)
  }

  // ----- The gate

  datatype Blocker =
    | MotionMissing
    | MotionUnsaved
    | CitationsFail
    | RejectionMissing
    | EthicsUnresolved
    | UnsafeStrategy
    | RejectedArgumentPresent
    | NotApproved
    | ApprovalStale

  function CurrentVersion(record: Case): Option<MotionVersion> {
    if record.motionVersions == [] then None
    else Some(record.motionVersions[|record.motionVersions| - 1])
  }

  predicate MotionExists(record: Case) {
    |Trim(record.currentMotion)| >= 80
  }

  predicate SavedMotionMatches(record: Case) {
    match CurrentVersion(record)
    case None => false
    case Some(v) =>
      Trim(v.body) == Trim(record.currentMotion) && v.mockHash == MotionHash(v.body, v.version)
  }

  predicate CitationPasses(c: Citation) {
    && c.status == Verified && c.sourceExists && c.metadataVerified && c.quotationVerified
    && c.locationVerified && c.propositionSupported && c.applicable
  }

  predicate CitationsPass(record: Case) {
    |record.citations| == 9 && forall c :: c in record.citations ==> CitationPasses(c)
  }

  /** The first argument that must be rejected is rejected. */
  predicate RejectionApplied(arguments: seq<EthicsArgument>) {
    if arguments == [] then false
    else if arguments[0].requiredRejection then arguments[0].status == Rejected
    else RejectionApplied(arguments[1..])
  }

  predicate EthicsResolved(record: Case) {
    && record.ethicsArguments != []
    && forall a :: a in record.ethicsArguments ==> a.status == Approved || a.status == Rejected
  }

  predicate IsUnsafe(s: Strategy) {
    s.included && (s.citationStatus != Verified || s.ethicsStatus != Approved)
  }

  predicate UnsafeExcluded(record: Case) {
    forall s :: s in record.strategies ==> !IsUnsafe(s)
  }

  predicate RejectedAbsent(record: Case) {
    forall a :: a in record.ethicsArguments ==> !RejectedButPresent(a, record.currentMotion)
  }

  function When(condition: bool, blocker: Blocker): seq<Blocker> {
    if condition then [blocker] else []
  }

  function ApprovalBlockers(record: Case): seq<Blocker> {
    When(!MotionExists(record), MotionMissing)
    + When(!SavedMotionMatches(record), MotionUnsaved)
    + When(!CitationsPass(record), CitationsFail)
    + When(!RejectionApplied(record.ethicsArguments), RejectionMissing)
    + When(!EthicsResolved(record), EthicsUnresolved)
    + When(!UnsafeExcluded(record), UnsafeStrategy)
    + When(!RejectedAbsent(record), RejectedArgumentPresent)
  }

  /** The stored approval names the last saved version and its hash. */
  predicate ApprovalMatches(record: Case) {
    match (record.approval, CurrentVersion(record))
    case (Some(a), Some(v)) => a.version == v.version && a.mockHash == v.mockHash
    case _ => false
  }

  function ExportBlockers(record: Case): seq<Blocker> {
    ApprovalBlockers(record)
    + (if record.approval.None? then [NotApproved] else When(!ApprovalMatches(record), ApprovalStale))
  }

  predicate ExportUnlocked(record: Case) {
    ExportBlockers(record) == []
  }

  /** Everything approval requires of a case. */
  predicate Approvable(record: Case) {
    && MotionExists(record) && SavedMotionMatches(record) && CitationsPass(record)
    && RejectionApplied(record.ethicsArguments) && EthicsResolved(record)
    && UnsafeExcluded(record) && RejectedAbsent(record)
  }

  /** The gate is open exactly for an approvable case whose approval names the current version and hash. */
  lemma GateExact(record: Case)
    ensures ApprovalBlockers(record) == [] <==> Approvable(record)
    ensures ExportUnlocked(record) <==> Approvable(record) && ApprovalMatches(record)
  {
    hide MotionExists, SavedMotionMatches, CitationsPass, RejectionApplied, EthicsResolved, UnsafeExcluded,
      RejectedAbsent, CurrentVersion;
    assert record.approval.None? ==> !ApprovalMatches(record);
  }

  /** `RejectionApplied` in words: some required rejection exists and the first one has been made. */
  lemma {:induction false} RejectionAppliedExact(arguments: seq<EthicsArgument>)
    ensures RejectionApplied(arguments)
       <==> exists i :: 0 <= i < |arguments| && arguments[i].requiredRejection && arguments[i].status == Rejected
                        && forall k :: 0 <= k < i ==> !arguments[k].requiredRejection
  {
    if arguments != [] {
      RejectionAppliedExact(arguments[1..]);
      var rest := arguments[1..];
      if i :| 0 <= i < |rest| && rest[i].requiredRejection && rest[i].status == Rejected
              && forall k :: 0 <= k < i ==> !rest[k].requiredRejection {
        if !arguments[0].requiredRejection {
          assert arguments[i + 1] == rest[i];
          assert forall k :: 0 < k < i + 1 ==> arguments[k] == rest[k - 1];
        }
      }
      if i :| 0 <= i < |arguments| && arguments[i].requiredRejection && arguments[i].status == Rejected
              && forall k :: 0 <= k < i ==> !arguments[k].requiredRejection {
        if i > 0 {
          assert rest[i - 1] == arguments[i];
          assert forall k :: 0 <= k < i - 1 ==> rest[k] == arguments[k + 1];
        }
      }
    }
  }
}
