/** What every upload, deletion and reprocessing keeps, and exactly which failures break it. */
module DocumentsSafety {
  import opened Options
  import opened Paging
  import opened Extraction
  import opened Documents

  // ----- Pages: numbered and counted, however calls end

  lemma {:induction false} CharacterTotalOfPages(pages: seq<Page>)
    ensures CharacterTotal(PageRows(pages)) == TextTotal(pages)
  {
    if pages != [] {
      assert PageRows(pages)[1..] == PageRows(pages[1..]);
      CharacterTotalOfPages(pages[1..]);
    }
  }

  lemma RecordedPages(config: Config, tables: Tables, id: DocId, source: Source)
    requires config.limits.Valid() && id in tables.documents && PagesConsistent(tables)
    ensures PagesConsistent(Recorded(tables, id, Extract(source, config.limits)))
  {
    hide Extract;
    var result := Extract(source, config.limits);
    ExtractConsistent(source, config.limits);
    CharacterTotalOfPages(result.pages);
    assert PagesMatch(Recorded(tables, id, result).documents[id], PageRows(result.pages));
  }

  lemma ProcessingKeepsPages(config: Config, tables: Tables, id: DocId, source: Source, f: ProcessFaults)
    requires config.limits.Valid() && id in tables.documents && PagesConsistent(tables)
    ensures PagesConsistent(AfterProcessing(config, tables, id, source, f))
  {
    hide Recorded, Extract;
    RecordedPages(config, Cleared(tables, id), id, source);
  }

  lemma RequestKeepsPages(config: Config, w: World, request: Request)
    requires config.limits.Valid() && PagesConsistent(w.tables)
    ensures PagesConsistent(After(config, w, request).tables)
  {
    hide AfterProcessing, Extract;
    match request {
      case UploadDocument(upload, id, _, source, f) =>
        if upload.extension.Some? {
          ProcessingKeepsPages(config, Inserted(w.tables, id, UploadRow(config, upload, id)), id, source, f.processing);
        }
      case ReprocessDocument(_, _, id, source, _, f) =>
        if id in w.tables.documents {
          ProcessingKeepsPages(config, w.tables, id, source, f);
        }
      case _ =>
    }
  }

  // ----- Files: when rows and files still agree

  /** The two tables differ only in what processing writes. */
  ghost predicate SameFiles(a: Tables, b: Tables) {
    && a.documents.Keys == b.documents.Keys
    && forall id :: id in a.documents ==>
         && a.documents[id].key == b.documents[id].key
         && a.documents[id].size == b.documents[id].size
         && a.documents[id].sha256 == b.documents[id].sha256
         && a.documents[id].caseId == b.documents[id].caseId
  }

  lemma SameFilesConsistent(config: Config, a: Tables, b: Tables, disk: Disk)
    requires SameFiles(a, b)
    ensures FilesConsistent(config, World(a, disk)) <==> FilesConsistent(config, World(b, disk))
  {
    assert StoredKeys(a) == StoredKeys(b);
    assert UniqueDigests(a) <==> UniqueDigests(b);
    assert forall id :: id in a.documents ==>
      (FileMatches(config, disk, id, a.documents[id]) <==> FileMatches(config, disk, id, b.documents[id]));
  }

  lemma ProcessingKeepsFiles(config: Config, tables: Tables, id: DocId, source: Source, f: ProcessFaults)
    requires config.limits.Valid() && id in tables.documents
    ensures SameFiles(AfterProcessing(config, tables, id, source, f), tables)
  {
    hide Extract;
  }

  lemma InsertedKeys(w: World, id: DocId, row: Row)
    requires id !in w.tables.documents
    ensures StoredKeys(Inserted(w.tables, id, row))
         == StoredKeys(w.tables) + (if row.key.Some? then {row.key.value} else {})
  {
    var tables := Inserted(w.tables, id, row);
    assert tables.documents[id] == row;
    assert forall d :: d in w.tables.documents ==> d in tables.documents && tables.documents[d] == w.tables.documents[d];
  }

  /** A new row goes in together with its file, if it has one. */
  lemma InsertConsistent(config: Config, w: World, id: DocId, row: Row, content: Bytes)
    requires FilesConsistent(config, w) && id !in w.tables.documents && Insertable(w.tables, row)
    requires row.key.Some? ==>
               && row.key.value.document == id && row.key.value !in w.disk.stored
               && |content| == row.size && config.digestOf(content) == row.sha256
    ensures FilesConsistent(config, World(Inserted(w.tables, id, row),
              if row.key.None? then w.disk else w.disk.(stored := w.disk.stored[row.key.value := content])))
  {
    hide StoredKeys;
    InsertedKeys(w, id, row);
    assert forall d :: d in w.tables.documents ==> FileMatches(config, w.disk, d, w.tables.documents[d]);
  }

  lemma RemovedKeys(config: Config, w: World, id: DocId)
    requires FilesConsistent(config, w) && id in w.tables.documents
    ensures var key := w.tables.documents[id].key;
            StoredKeys(Removed(w.tables, id)) == StoredKeys(w.tables) - (if key.Some? then {key.value} else {})
  {
    var key, tables := w.tables.documents[id].key, Removed(w.tables, id);
    assert forall d :: d in tables.documents ==> tables.documents[d] == w.tables.documents[d] && d != id;
    assert forall d :: d in w.tables.documents && d != id ==> d in tables.documents;
    assert forall d :: d in w.tables.documents ==> FileMatches(config, w.disk, d, w.tables.documents[d]);
    if key.Some? {
      assert key.value.document == id;
    }
  }

  /** A row goes out together with its file, if it has one. */
  lemma RemoveConsistent(config: Config, w: World, id: DocId)
    requires FilesConsistent(config, w) && id in w.tables.documents
    ensures var key := w.tables.documents[id].key;
            FilesConsistent(config, World(Removed(w.tables, id),
              if key.None? then w.disk else w.disk.(stored := w.disk.stored - {key.value})))
  {
    hide StoredKeys;
    RemovedKeys(config, w, id);
    var tables := Removed(w.tables, id);
    assert forall d :: d in tables.documents ==> d in w.tables.documents && d != id;
    assert forall d :: d in w.tables.documents ==> FileMatches(config, w.disk, d, w.tables.documents[d]);
  }

  lemma CreateKeepsFiles(config: Config, w: World, metadata: Metadata, id: DocId, f: CreateFaults)
    requires FilesConsistent(config, w) && id !in w.tables.documents
    ensures FilesConsistent(config, AfterCreate(w, metadata, id, f))
  {
    if Insertable(w.tables, MetadataRow(metadata)) {
      InsertConsistent(config, w, id, MetadataRow(metadata), []);
    }
  }

  lemma ReprocessKeepsFiles(config: Config, w: World, org: OrgId, caseId: CaseId, id: DocId, source: Source,
                            prologue: Signal, f: ProcessFaults)
    requires config.limits.Valid() && FilesConsistent(config, w)
    ensures FilesConsistent(config, AfterReprocess(config, w, org, caseId, id, source, prologue, f))
  {
    if id in w.tables.documents {
      ProcessingKeepsFiles(config, w.tables, id, source, f);
      SameFilesConsistent(config, AfterProcessing(config, w.tables, id, source, f), w.tables, w.disk);
    }
  }

  /** An upload leaves rows and files in agreement exactly when its row and its file share their fate. */
  lemma UploadTogether(config: Config, w: World, upload: Upload, id: DocId, temp: TempName, source: Source,
                       f: UploadFaults)
    requires config.limits.Valid() && FilesConsistent(config, w) && id !in w.tables.documents
    requires RowLands(config, w, upload, id, f) && FileStays(config, w, upload, id, f)
    ensures FilesConsistent(config, AfterUpload(config, w, upload, id, temp, source, f))
  {
    hide AfterProcessing;
    var row := UploadRow(config, upload, id);
    var tables := Inserted(w.tables, id, row);
    InsertConsistent(config, w, id, row, upload.content);
    var disk := w.disk.(stored := w.disk.stored[row.key.value := upload.content]);
    assert AfterUpload(config, w, upload, id, temp, source, f).disk == disk;
    if f.commit.signal.Completes? {
      ProcessingKeepsFiles(config, tables, id, source, f.processing);
      SameFilesConsistent(config, AfterProcessing(config, tables, id, source, f.processing), tables, disk);
    }
  }

  lemma UploadApart(config: Config, w: World, upload: Upload, id: DocId, temp: TempName, source: Source,
                    f: UploadFaults)
    requires config.limits.Valid() && FilesConsistent(config, w) && id !in w.tables.documents
    requires RowLands(config, w, upload, id, f) != FileStays(config, w, upload, id, f)
    ensures !FilesConsistent(config, AfterUpload(config, w, upload, id, temp, source, f))
  {
    hide AfterProcessing;
    var key := UploadKey(upload, id);
    var after := AfterUpload(config, w, upload, id, temp, source, f);
    if RowLands(config, w, upload, id, f) {
      var tables := Inserted(w.tables, id, UploadRow(config, upload, id));
      ProcessingKeepsFiles(config, tables, id, source, f.processing);
      assert after.tables.documents[id].key == Some(key);
    } else {
      assert key in after.disk.stored && key !in StoredKeys(w.tables);
    }
  }

  lemma UploadExactly(config: Config, w: World, upload: Upload, id: DocId, temp: TempName, source: Source,
                      f: UploadFaults)
    requires config.limits.Valid() && FilesConsistent(config, w)
    requires Possible(w, UploadDocument(upload, id, temp, source, f))
    ensures FilesConsistent(config, AfterUpload(config, w, upload, id, temp, source, f))
       <==> CleanUpload(config, w, upload, id, f)
  {
    hide AfterProcessing;
    if RowLands(config, w, upload, id, f) != FileStays(config, w, upload, id, f) {
      UploadApart(config, w, upload, id, temp, source, f);
    } else if RowLands(config, w, upload, id, f) {
      UploadTogether(config, w, upload, id, temp, source, f);
    } else if CleanUpload(config, w, upload, id, f) {
      assert AfterUpload(config, w, upload, id, temp, source, f) == w;
    } else {
      assert temp in AfterUpload(config, w, upload, id, temp, source, f).disk.staging;
    }
  }

  lemma DeleteExactly(config: Config, w: World, org: OrgId, caseId: CaseId, id: DocId, spare: nat, f: DeleteFaults)
    requires FilesConsistent(config, w) && Possible(w, DeleteDocument(org, caseId, id, spare, f))
    ensures FilesConsistent(config, AfterDelete(w, org, caseId, id, spare, f)) <==> CleanDelete(w, org, caseId, id, f)
  {
    if ReachesDelete(w, org, caseId, id, f) {
      var after := AfterDelete(w, org, caseId, id, spare, f);
      RemoveConsistent(config, w, id);
      if !HasFile(w, id) {
        assert w.tables.documents[id].key.None?;
      } else {
        var key := w.tables.documents[id].key.value;
        assert forall d :: d in w.tables.documents && d != id ==> w.tables.documents[d].key != Some(key);
        if DeleteSignal(f).IsCancelled? {
          assert HoldFor(w.disk.quarantine, key, spare) in after.disk.quarantine;
        } else if DeleteLands(f) && DeleteSignal(f).Raises? {
          assert key in after.disk.stored && key !in StoredKeys(after.tables);
        }
      }
    }
  }

  // ----- Every request, every run

  /** A request leaves rows and files in agreement exactly when it is clean. */
  lemma RequestExactly(config: Config, w: World, request: Request)
    requires config.limits.Valid() && FilesConsistent(config, w) && Possible(w, request)
    ensures FilesConsistent(config, After(config, w, request)) <==> Clean(config, w, request)
  {
    hide FilesConsistent, AfterUpload, AfterDelete, AfterReprocess, AfterCreate, CleanUpload, CleanDelete;
    match request {
      case CreateMetadata(metadata, id, f) => CreateKeepsFiles(config, w, metadata, id, f);
      case UploadDocument(upload, id, temp, source, f) => UploadExactly(config, w, upload, id, temp, source, f);
      case ReprocessDocument(org, caseId, id, source, prologue, f) =>
        ReprocessKeepsFiles(config, w, org, caseId, id, source, prologue, f);
      case DeleteDocument(org, caseId, id, spare, f) => DeleteExactly(config, w, org, caseId, id, spare, f);
    }
  }

  lemma {:induction false} RunExactlyUpTo(config: Config, worlds: seq<World>, requests: seq<Request>, n: nat)
    requires config.limits.Valid() && IsRun(config, worlds, requests) && FilesConsistent(config, worlds[0])
    requires n <= |requests|
    ensures (forall i :: 0 <= i <= n ==> FilesConsistent(config, worlds[i]))
       <==> (forall i :: 0 <= i < n ==> Clean(config, worlds[i], requests[i]))
  {
    hide FilesConsistent, Clean, After;
    if n > 0 {
      RunExactlyUpTo(config, worlds, requests, n - 1);
      if FilesConsistent(config, worlds[n - 1]) {
        RequestExactly(config, worlds[n - 1], requests[n - 1]);
        assert worlds[n] == After(config, worlds[n - 1], requests[n - 1]);
      } else {
        assert !(forall i :: 0 <= i < n - 1 ==> Clean(config, worlds[i], requests[i]));
      }
    }
  }

  /** Rows and files agree after every request of a run exactly when every request of it is clean. */
  lemma RunExactly(config: Config, worlds: seq<World>, requests: seq<Request>)
    requires config.limits.Valid() && IsRun(config, worlds, requests) && FilesConsistent(config, worlds[0])
    ensures (forall i :: 0 <= i < |worlds| ==> FilesConsistent(config, worlds[i]))
       <==> (forall i :: 0 <= i < |requests| ==> Clean(config, worlds[i], requests[i]))
  {
    hide FilesConsistent, Clean, After;
    RunExactlyUpTo(config, worlds, requests, |requests|);
  }

  /** Whatever fails, the page tables of a run stay numbered and add up. */
  lemma {:induction false} RunKeepsPages(config: Config, worlds: seq<World>, requests: seq<Request>, n: nat)
    requires config.limits.Valid() && IsRun(config, worlds, requests) && PagesConsistent(worlds[0].tables)
    requires n < |worlds|
    ensures PagesConsistent(worlds[n].tables)
  {
    hide PagesConsistent, After;
    if n > 0 {
      RunKeepsPages(config, worlds, requests, n - 1);
      RequestKeepsPages(config, worlds[n - 1], requests[n - 1]);
    }
  }

  // ----- What one request undoes, and what breaks

  lemma PutRemoved(tables: Tables, id: DocId, row: Row, pages: seq<PageRow>)
    ensures Removed(Tables(tables.documents[id := row], tables.pages[id := pages]), id) == Removed(tables, id)
  {
    assert tables.documents[id := row] - {id} == tables.documents - {id};
    assert tables.pages[id := pages] - {id} == tables.pages - {id};
  }

  /** Processing writes nothing but one document's row and pages. */
  lemma ProcessingTouchesOne(config: Config, tables: Tables, id: DocId, source: Source, f: ProcessFaults)
    requires config.limits.Valid() && id in tables.documents
    ensures Removed(AfterProcessing(config, tables, id, source, f), id) == Removed(tables, id)
    ensures AfterProcessing(config, tables, id, source, f).documents[id].org == tables.documents[id].org
  {
    hide Extract, Removed;
    var cleared := Cleared(tables, id);
    var recorded := Recorded(cleared, id, Extract(source, config.limits));
    PutRemoved(tables, id, cleared.documents[id], []);
    PutRemoved(cleared, id, recorded.documents[id], recorded.pages[id]);
  }

  /** Deleting a document that was just uploaded restores tables and files as they were. */
  lemma DeleteUndoesUpload(config: Config, w: World, upload: Upload, id: DocId, temp: TempName, source: Source,
                           f: UploadFaults, spare: nat, g: DeleteFaults)
    requires config.limits.Valid() && PagesConsistent(w.tables)
    requires Possible(w, UploadDocument(upload, id, temp, source, f))
    requires RowLands(config, w, upload, id, f) && f.commit.signal.Completes?
    requires g.prologue.Completes? && g.moves && g.delete.Completes? && g.commit == Commit(true, Completes)
    ensures AfterDelete(AfterUpload(config, w, upload, id, temp, source, f), upload.org, upload.caseId, id, spare, g) == w
  {
    hide AfterProcessing, StagedFiles;
    var after := AfterUpload(config, w, upload, id, temp, source, f);
    var row := UploadRow(config, upload, id);
    var tables := Inserted(w.tables, id, row);
    ProcessingKeepsFiles(config, tables, id, source, f.processing);
    ProcessingTouchesOne(config, tables, id, source, f.processing);
    PutRemoved(w.tables, id, row, []);
    assert w.tables.documents - {id} == w.tables.documents && w.tables.pages - {id} == w.tables.pages;
    assert after.tables == AfterProcessing(config, tables, id, source, f.processing);
    assert after.disk.stored - {UploadKey(upload, id)} == w.disk.stored;
  }

  /** A commit that takes effect and still reports an error leaves a row whose file the clean-up deleted. */
  lemma LostAcknowledgement(config: Config)
    returns (request: Request)
    requires config.limits.Valid() && config.maxUploadBytes >= 1
    ensures Possible(EMPTY, request) && FilesConsistent(config, EMPTY)
    ensures !FilesConsistent(config, After(config, EMPTY, request))
    ensures var after := After(config, EMPTY, request);
            after.disk.stored == map[] && StoredKeys(after.tables) != {}
  {
    var done := Commit(true, Completes);
    var upload := Upload("org", "case", Some(TxtFile), [65], true);
    var f := UploadFaults(Completes, None, Completes, true, Completes, Commit(true, Raises),
                          ProcessFaults(done, Completes, done));
    request := UploadDocument(upload, "document", 0, Unreadable, f);
    assert RowLands(config, EMPTY, upload, "document", f);
    UploadExactly(config, EMPTY, upload, "document", 0, Unreadable, f);
    assert After(config, EMPTY, request).tables.documents["document"].key == Some(UploadKey(upload, "document"));
    assert UploadKey(upload, "document") in StoredKeys(After(config, EMPTY, request).tables);
  }

  /** The request that uploads the one byte "A" as a text file, with the given failures. */
  function UploadOfA(f: UploadFaults): Request {
    UploadDocument(Upload("org", "case", Some(TxtFile), [65], true), "document", 0, Unreadable, f)
  }

  /** The failures of an upload that is not interrupted, with the given insertion and commit. */
  function Faults(interruption: Option<Interruption>, flush: Signal, commit: Commit): UploadFaults {
    var done := Commit(true, Completes);
    UploadFaults(Completes, interruption, Completes, true, flush, commit, ProcessFaults(done, Completes, done))
  }

  /** A cancellation while the upload is read leaves the temporary file in staging. */
  lemma CancelledStaging(config: Config)
    requires config.limits.Valid() && config.maxUploadBytes >= 1
    ensures var request := UploadOfA(Faults(Some(Interruption(1, true)), Completes, Commit(true, Completes)));
            && Possible(EMPTY, request) && FilesConsistent(config, EMPTY)
            && After(config, EMPTY, request).disk.staging == map[0 := [65]]
            && After(config, EMPTY, request).tables == EMPTY.tables
            && !FilesConsistent(config, After(config, EMPTY, request))
  {
    var f := Faults(Some(Interruption(1, true)), Completes, Commit(true, Completes));
    var upload := UploadOfA(f).upload;
    assert StagingOf(config, upload, f.interruption).Abandoned?;
    assert upload.content[..BytesRead(upload.content, 1)] == [65];
  }

  /** A cancellation while the row is inserted leaves the stored file without a row. */
  lemma CancelledFlush(config: Config)
    requires config.limits.Valid() && config.maxUploadBytes >= 1
    ensures var request := UploadOfA(Faults(None, IsCancelled, Commit(false, IsCancelled)));
            && Possible(EMPTY, request) && FilesConsistent(config, EMPTY)
            && After(config, EMPTY, request).disk.stored == map[Key("org", "case", "document", TxtFile) := [65]]
            && After(config, EMPTY, request).tables == EMPTY.tables
            && !FilesConsistent(config, After(config, EMPTY, request))
  {
    var f := Faults(None, IsCancelled, Commit(false, IsCancelled));
    var upload := UploadOfA(f).upload;
    assert ReachesStore(config, EMPTY, upload, "document", f);
    assert Key("org", "case", "document", TxtFile) in After(config, EMPTY, UploadOfA(f)).disk.stored;
    assert StoredKeys(EMPTY.tables) == {};
  }

  /** A cancellation while the document is deleted leaves its file in quarantine, and its row without a file. */
  lemma CancelledDeletion(config: Config, content: Bytes)
    requires 0 < |content| <= MAX_DOCUMENT_BYTES
    ensures var key := Key("org", "case", "document", TxtFile);
            var row := Row("org", "case", |content|, config.digestOf(content), Some(key), Uploaded, 0, 0);
            var w := World(Inserted(EMPTY.tables, "document", row), EMPTY.disk.(stored := map[key := content]));
            var after := AfterDelete(w, "org", "case", "document", 0,
                                     DeleteFaults(Completes, true, IsCancelled, Commit(false, IsCancelled)));
            && FilesConsistent(config, w)
            && after.tables == w.tables && after.disk.stored == map[]
            && after.disk.quarantine == map[AfterDocument("document", TxtFile) := content]
            && !FilesConsistent(config, after)
  {
    var key := Key("org", "case", "document", TxtFile);
    var row := Row("org", "case", |content|, config.digestOf(content), Some(key), Uploaded, 0, 0);
    assert StoredKeys(EMPTY.tables) == {};
    InsertConsistent(config, EMPTY, "document", row, content);
    var w := World(Inserted(EMPTY.tables, "document", row), EMPTY.disk.(stored := map[key := content]));
    assert EMPTY.disk.stored[key := content] == map[key := content];
    assert w.disk.stored - {key} == map[];
  }

  /** A new file above the size check, which a larger upload limit lets in, is answered as a duplicate. */
  lemma OversizeAnsweredAsDuplicate(config: Config)
    requires config.maxUploadBytes > MAX_DOCUMENT_BYTES
    ensures var f := Faults(None, Completes, Commit(true, Completes));
            var upload := Upload("org", "case", Some(TxtFile), seq(MAX_DOCUMENT_BYTES + 1, _ => 65), true);
            && AnsweredAsDuplicate(config, EMPTY, upload, "document", f)
            && !Duplicate(EMPTY.tables, "case", config.digestOf(upload.content))
  {
    var f := Faults(None, Completes, Commit(true, Completes));
    var upload := Upload("org", "case", Some(TxtFile), seq(MAX_DOCUMENT_BYTES + 1, _ => 65), true);
    assert ReachesStore(config, EMPTY, upload, "document", f);
  }
}
