/**
  Documents over two resources, the database tables and the private file area. The functions here say what
  each handler leaves behind when every awaited call may complete, raise, or be cancelled; the handlers
  themselves, with their compensations, are in the service module.
 */
module Documents {
  import opened Options
  import opened Paging
  import opened Extraction

  const MAX_DOCUMENT_BYTES := 52_428_800
  const CHUNK_SIZE := 1_048_576

  type Bytes = seq<bv8>
  type Digest = string
  type DocId = string
  type CaseId = string
  type OrgId = string
  type TempName = nat

  datatype Extension = PdfFile | DocxFile | TxtFile

  datatype Key = Key(org: OrgId, caseId: CaseId, document: DocId, extension: Extension)

  /** The name of a quarantined file: after its document, or a new identifier if that name is taken. */
  datatype HoldName = AfterDocument(document: DocId, extension: Extension) | Renamed(id: nat)

  datatype Progress = MetadataOnly | Uploaded | Processing | Extracted(status: Status)

  datatype Row = Row(
    org: OrgId, caseId: CaseId, size: nat, sha256: Digest, key: Option<Key>,
    progress: Progress, pageCount: nat, characterCount: nat)

  datatype PageRow = PageRow(number: nat, text: string, characterCount: nat)

  datatype Tables = Tables(documents: map<DocId, Row>, pages: map<DocId, seq<PageRow>>)

  datatype Disk = Disk(staging: map<TempName, Bytes>, stored: map<Key, Bytes>, quarantine: map<HoldName, Bytes>)

  /** What is committed and what is on disk. */
  datatype World = World(tables: Tables, disk: Disk)

  datatype Config = Config(maxUploadBytes: nat, limits: Limits, digestOf: Bytes -> Digest)

  // ----- How calls end

  datatype Signal = Completes | Raises | IsCancelled

  /** A commit may take effect although the caller sees an error or is cancelled. */
  datatype Commit = Commit(lands: bool, signal: Signal) {
    predicate Possible() {
      signal.Completes? ==> lands
    }
  }

  // ----- What a consistent system looks like

  function StoredKeys(tables: Tables): set<Key> {
    set id | id in tables.documents && tables.documents[id].key.Some? :: tables.documents[id].key.value
  }

  ghost predicate FileMatches(config: Config, disk: Disk, id: DocId, row: Row) {
    row.key.Some? ==>
      && row.key.value.document == id
      && row.key.value in disk.stored
      && |disk.stored[row.key.value]| == row.size
      && config.digestOf(disk.stored[row.key.value]) == row.sha256
  }

  ghost predicate UniqueDigests(tables: Tables) {
    forall a, b :: a in tables.documents && b in tables.documents
      && tables.documents[a].caseId == tables.documents[b].caseId
      && tables.documents[a].sha256 == tables.documents[b].sha256
      ==> a == b
  }

  /** The files are exactly the rows' files, byte for byte, and nothing is left in staging or quarantine. */
  ghost predicate FilesConsistent(config: Config, w: World) {
    && w.disk.staging == map[] && w.disk.quarantine == map[]
    && StoredKeys(w.tables) == w.disk.stored.Keys
    && (forall id :: id in w.tables.documents ==>
          && FileMatches(config, w.disk, id, w.tables.documents[id])
          && 0 < w.tables.documents[id].size <= MAX_DOCUMENT_BYTES)
    && UniqueDigests(w.tables)
  }

  function CharacterTotal(pages: seq<PageRow>): nat {
    if pages == [] then 0 else pages[0].characterCount + CharacterTotal(pages[1..])
  }

  predicate PagesMatch(row: Row, pages: seq<PageRow>) {
    && (pages != [] ==> row.progress.Extracted?)
    && |pages| == row.pageCount
    && CharacterTotal(pages) == row.characterCount
    && (forall i :: 0 <= i < |pages| ==> pages[i].number == i + 1 && pages[i].characterCount == |pages[i].text|)
  }

  /** Stored pages are numbered 1 to the page count and add up to the character count; only extracted documents have any. */
  ghost predicate PagesConsistent(tables: Tables) {
    && tables.pages.Keys == tables.documents.Keys
    && forall id :: id in tables.documents ==> PagesMatch(tables.documents[id], tables.pages[id])
  }

  // ----- Table changes

  predicate Duplicate(tables: Tables, caseId: CaseId, sha256: Digest) {
    exists id :: id in tables.documents && tables.documents[id].caseId == caseId && tables.documents[id].sha256 == sha256
  }

  /** The unique index and the size check of the documents table. */
  predicate Insertable(tables: Tables, row: Row) {
    0 < row.size <= MAX_DOCUMENT_BYTES && !Duplicate(tables, row.caseId, row.sha256)
  }

  function Inserted(tables: Tables, id: DocId, row: Row): Tables {
    Tables(tables.documents[id := row], tables.pages[id := []])
  }

  function Removed(tables: Tables, id: DocId): Tables {
    Tables(tables.documents - {id}, tables.pages - {id})
  }

  predicate Found(tables: Tables, org: OrgId, caseId: CaseId, id: DocId) {
    id in tables.documents && tables.documents[id].org == org && tables.documents[id].caseId == caseId
  }

  // ----- Processing

  /** The first commit, the extraction, and the second commit. */
  datatype ProcessFaults = ProcessFaults(first: Commit, extraction: Signal, second: Commit)

  function Cleared(tables: Tables, id: DocId): Tables
    requires id in tables.documents
  {
    Inserted(tables, id, tables.documents[id].(progress := Processing, pageCount := 0, characterCount := 0))
  }

  function PageRows(pages: seq<Page>): (r: seq<PageRow>)
    ensures |r| == |pages|
    ensures forall i :: 0 <= i < |r| ==> r[i] == PageRow(pages[i].number, pages[i].text, |pages[i].text|)
  {
    seq(|pages|, i requires 0 <= i < |pages| => PageRow(pages[i].number, pages[i].text, |pages[i].text|))
  }

  function Recorded(tables: Tables, id: DocId, result: Result): Tables
    requires id in tables.documents
  {
    Tables(
      tables.documents[id := tables.documents[id].(
        progress := Extracted(result.status),
        pageCount := |result.pages|,
        characterCount := result.characterCount)],
      tables.pages[id := PageRows(result.pages)])
  }

  function AfterProcessing(config: Config, tables: Tables, id: DocId, source: Source, f: ProcessFaults): Tables
    requires config.limits.Valid() && id in tables.documents
  {
    if !f.first.lands then tables
    else if f.first.signal.Completes? && f.extraction.Completes? && f.second.lands then
      Recorded(Cleared(tables, id), id, Extract(source, config.limits))
    else Cleared(tables, id)
  }

  // ----- Uploading

  /** The uploaded file; no extension if its name or declared type is refused. */
  datatype Upload = Upload(org: OrgId, caseId: CaseId, extension: Option<Extension>, content: Bytes, signatureOk: bool)

  /** Staging stops after so many chunks were read. */
  datatype Interruption = Interruption(afterReads: nat, cancels: bool)

  datatype UploadFaults = UploadFaults(
    prologue: Signal, interruption: Option<Interruption>, query: Signal, moves: bool,
    flush: Signal, commit: Commit, processing: ProcessFaults)

  datatype Staging = Accepted | Rejected | Broken | Abandoned

  function Chunks(content: Bytes): nat {
    (|content| + CHUNK_SIZE - 1) / CHUNK_SIZE
  }

  function BytesRead(content: Bytes, count: nat): nat {
    Min(count * CHUNK_SIZE, |content|)
  }

  /** The interruption comes while the file is still being staged. */
  predicate Interrupts(config: Config, content: Bytes, interruption: Option<Interruption>) {
    && interruption.Some?
    && interruption.value.afterReads <= Chunks(content)
    && BytesRead(content, interruption.value.afterReads) <= config.maxUploadBytes
  }

  function StagingOf(config: Config, upload: Upload, interruption: Option<Interruption>): Staging {
    if upload.extension.None? then Rejected
    else if Interrupts(config, upload.content, interruption) then
      if interruption.value.cancels then Abandoned else Broken
    else if 0 < |upload.content| <= config.maxUploadBytes && upload.signatureOk then Accepted
    else Rejected
  }

  function StagedFiles(config: Config, staging: map<TempName, Bytes>, upload: Upload, temp: TempName,
                       interruption: Option<Interruption>): map<TempName, Bytes>
  {
    match StagingOf(config, upload, interruption)
    case Accepted => staging[temp := upload.content]
    case Abandoned =>
      staging[temp := upload.content[..BytesRead(upload.content, interruption.value.afterReads)]]
    case _ => staging
  }

  function UploadKey(upload: Upload, id: DocId): Key
    requires upload.extension.Some?
  {
    Key(upload.org, upload.caseId, id, upload.extension.value)
  }

  function UploadRow(config: Config, upload: Upload, id: DocId): Row
    requires upload.extension.Some?
  {
    Row(upload.org, upload.caseId, |upload.content|, config.digestOf(upload.content),
        Some(UploadKey(upload, id)), Uploaded, 0, 0)
  }

  /** The upload gets as far as moving the staged file to its final place. */
  predicate ReachesStore(config: Config, w: World, upload: Upload, id: DocId, f: UploadFaults) {
    && f.prologue.Completes?
    && StagingOf(config, upload, f.interruption).Accepted?
    && f.query.Completes?
    && !Duplicate(w.tables, upload.caseId, config.digestOf(upload.content))
    && f.moves && UploadKey(upload, id) !in w.disk.stored
  }

  predicate ReachesCommit(config: Config, w: World, upload: Upload, id: DocId, f: UploadFaults) {
    ReachesStore(config, w, upload, id, f) && f.flush.Completes? && Insertable(w.tables, UploadRow(config, upload, id))
  }

  predicate RowLands(config: Config, w: World, upload: Upload, id: DocId, f: UploadFaults) {
    ReachesCommit(config, w, upload, id, f) && f.commit.lands
  }

  /** The file stays unless an exception reached the clean-up. */
  predicate FileStays(config: Config, w: World, upload: Upload, id: DocId, f: UploadFaults) {
    if ReachesCommit(config, w, upload, id, f) then !f.commit.signal.Raises?
    else ReachesStore(config, w, upload, id, f) && f.flush.IsCancelled?
  }

  function UploadedTables(config: Config, w: World, upload: Upload, id: DocId, source: Source, f: UploadFaults): Tables
    requires config.limits.Valid()
  {
    if !RowLands(config, w, upload, id, f) then w.tables
    else
      var tables := Inserted(w.tables, id, UploadRow(config, upload, id));
      if f.commit.signal.Completes? then AfterProcessing(config, tables, id, source, f.processing) else tables
  }

  function AfterUpload(config: Config, w: World, upload: Upload, id: DocId, temp: TempName, source: Source,
                       f: UploadFaults): World
    requires config.limits.Valid()
  {
    World(
      UploadedTables(config, w, upload, id, source, f),
      w.disk.(
        staging :=
          if f.prologue.Completes? && StagingOf(config, upload, f.interruption).Abandoned? then
            StagedFiles(config, w.disk.staging, upload, temp, f.interruption)
          else w.disk.staging,
        stored :=
          if FileStays(config, w, upload, id, f) then w.disk.stored[UploadKey(upload, id) := upload.content]
          else w.disk.stored))
  }

  /** The upload is answered as a duplicate: it is one, or the size check of the table failed. */
  predicate AnsweredAsDuplicate(config: Config, w: World, upload: Upload, id: DocId, f: UploadFaults) {
    && f.prologue.Completes? && StagingOf(config, upload, f.interruption).Accepted? && f.query.Completes?
    && (Duplicate(w.tables, upload.caseId, config.digestOf(upload.content))
        || (ReachesStore(config, w, upload, id, f) && f.flush.Completes? && |upload.content| > MAX_DOCUMENT_BYTES))
  }

  /** No cancellation strikes while a file lies outside the tables, and a failed commit did not take effect. */
  predicate CleanUpload(config: Config, w: World, upload: Upload, id: DocId, f: UploadFaults) {
    && !(f.prologue.Completes? && StagingOf(config, upload, f.interruption).Abandoned?)
    && (ReachesStore(config, w, upload, id, f) ==> !f.flush.IsCancelled?)
    && (ReachesCommit(config, w, upload, id, f) ==> f.commit.lands == !f.commit.signal.Raises?)
  }

  // ----- Metadata without a file

  datatype Metadata = Metadata(org: OrgId, caseId: CaseId, size: nat, sha256: Digest)

  datatype CreateFaults = CreateFaults(prologue: Signal, flush: Signal, commit: Commit)

  function MetadataRow(metadata: Metadata): Row {
    Row(metadata.org, metadata.caseId, metadata.size, metadata.sha256, None, MetadataOnly, 0, 0)
  }

  function AfterCreate(w: World, metadata: Metadata, id: DocId, f: CreateFaults): World {
    if f.prologue.Completes? && f.flush.Completes? && Insertable(w.tables, MetadataRow(metadata)) && f.commit.lands then
      w.(tables := Inserted(w.tables, id, MetadataRow(metadata)))
    else w
  }

  // ----- Reprocessing

  function AfterReprocess(config: Config, w: World, org: OrgId, caseId: CaseId, id: DocId, source: Source,
                          prologue: Signal, f: ProcessFaults): World
    requires config.limits.Valid()
  {
    if prologue.Completes? && Found(w.tables, org, caseId, id)
       && w.tables.documents[id].key.Some? && w.tables.documents[id].key.value in w.disk.stored
    then w.(tables := AfterProcessing(config, w.tables, id, source, f))
    else w
  }

  // ----- Deleting

  datatype DeleteFaults = DeleteFaults(prologue: Signal, moves: bool, delete: Signal, commit: Commit)

  /** The document has a file on disk to set aside. */
  predicate HasFile(w: World, id: DocId) {
    id in w.tables.documents && w.tables.documents[id].key.Some? && w.tables.documents[id].key.value in w.disk.stored
  }

  predicate ReachesDelete(w: World, org: OrgId, caseId: CaseId, id: DocId, f: DeleteFaults) {
    f.prologue.Completes? && Found(w.tables, org, caseId, id) && (HasFile(w, id) ==> f.moves)
  }

  /** How the guarded part of the deletion ends. */
  function DeleteSignal(f: DeleteFaults): Signal {
    if f.delete.Completes? then f.commit.signal else f.delete
  }

  predicate DeleteLands(f: DeleteFaults) {
    f.delete.Completes? && f.commit.lands
  }

  function HoldFor(quarantine: map<HoldName, Bytes>, key: Key, spare: nat): HoldName {
    var name := AfterDocument(key.document, key.extension);
    if name in quarantine then Renamed(spare) else name
  }

  /** The file comes back after an exception, is gone after success, and stays set aside after a cancellation. */
  function AfterDelete(w: World, org: OrgId, caseId: CaseId, id: DocId, spare: nat, f: DeleteFaults): World {
    if !ReachesDelete(w, org, caseId, id, f) then w
    else
      var tables := if DeleteLands(f) then Removed(w.tables, id) else w.tables;
      if !HasFile(w, id) || DeleteSignal(f).Raises? then World(tables, w.disk)
      else
        var key := w.tables.documents[id].key.value;
        World(tables, w.disk.(
          stored := w.disk.stored - {key},
          quarantine :=
            if DeleteSignal(f).Completes? then w.disk.quarantine
            else w.disk.quarantine[HoldFor(w.disk.quarantine, key, spare) := w.disk.stored[key]]))
  }

  predicate CleanDelete(w: World, org: OrgId, caseId: CaseId, id: DocId, f: DeleteFaults) {
    ReachesDelete(w, org, caseId, id, f) && HasFile(w, id) ==>
      && !DeleteSignal(f).IsCancelled?
      && DeleteLands(f) == !DeleteSignal(f).Raises?
  }

  // ----- Requests and runs

  datatype Request =
    | CreateMetadata(metadata: Metadata, id: DocId, createFaults: CreateFaults)
    | UploadDocument(upload: Upload, id: DocId, temp: TempName, source: Source, uploadFaults: UploadFaults)
    | ReprocessDocument(org: OrgId, caseId: CaseId, id: DocId, source: Source,
                        prologue: Signal, processFaults: ProcessFaults)
    | DeleteDocument(org: OrgId, caseId: CaseId, id: DocId, spare: nat, deleteFaults: DeleteFaults)

  function After(config: Config, w: World, request: Request): World
    requires config.limits.Valid()
  {
    match request
    case CreateMetadata(metadata, id, f) => AfterCreate(w, metadata, id, f)
    case UploadDocument(upload, id, temp, source, f) => AfterUpload(config, w, upload, id, temp, source, f)
    case ReprocessDocument(org, caseId, id, source, prologue, f) =>
      AfterReprocess(config, w, org, caseId, id, source, prologue, f)
    case DeleteDocument(org, caseId, id, spare, f) => AfterDelete(w, org, caseId, id, spare, f)
  }

  /** New identifiers and temporary names are unused, and a commit that completes took effect. */
  predicate Possible(w: World, request: Request) {
    match request
    case CreateMetadata(_, id, f) => id !in w.tables.documents && f.commit.Possible()
    case UploadDocument(_, id, temp, _, f) =>
      id !in w.tables.documents && temp !in w.disk.staging
      && f.commit.Possible() && f.processing.first.Possible() && f.processing.second.Possible()
    case ReprocessDocument(_, _, _, _, _, f) => f.first.Possible() && f.second.Possible()
    case DeleteDocument(_, _, _, spare, f) => Renamed(spare) !in w.disk.quarantine && f.commit.Possible()
  }

  predicate Clean(config: Config, w: World, request: Request) {
    match request
    case UploadDocument(upload, id, _, _, f) => CleanUpload(config, w, upload, id, f)
    case DeleteDocument(org, caseId, id, _, f) => CleanDelete(w, org, caseId, id, f)
    case _ => true
  }

  ghost predicate IsRun(config: Config, worlds: seq<World>, requests: seq<Request>)
    requires config.limits.Valid()
  {
    && |worlds| == |requests| + 1
    && forall i :: 0 <= i < |requests| ==>
         Possible(worlds[i], requests[i]) && worlds[i + 1] == After(config, worlds[i], requests[i])
  }

  const EMPTY := World(Tables(map[], map[]), Disk(map[], map[], map[]))
}
