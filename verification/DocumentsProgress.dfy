/** When a row comes and goes, and what processing leaves in it, by which calls complete. */
module DocumentsProgress {
  import opened Options
  import opened Extraction
  import opened Documents
  import opened DocumentsIsolation

  // ----- When a row comes and goes

  /** The upload is of an accepted kind and size, and reading it is not interrupted. */
  predicate Receivable(config: Config, upload: Upload, interruption: Option<Interruption>) {
    && upload.extension.Some? && upload.signatureOk && 0 < |upload.content| <= config.maxUploadBytes
    && (interruption.Some? ==> interruption.value.afterReads * 1_048_576 >= |upload.content| + 1_048_576)
  }

  /** An upload adds its row exactly when the file is receivable, new in its case, and all calls up to the commit work. */
  lemma UploadLandsExactly(config: Config, w: World, upload: Upload, id: DocId, temp: TempName, source: Source,
                           f: UploadFaults)
    requires config.limits.Valid() && Possible(w, UploadDocument(upload, id, temp, source, f))
    ensures id in AfterUpload(config, w, upload, id, temp, source, f).tables.documents
       <==> && f.prologue.Completes? && Receivable(config, upload, f.interruption) && f.query.Completes?
            && (forall d :: d in w.tables.documents && w.tables.documents[d].caseId == upload.caseId ==>
                  w.tables.documents[d].sha256 != config.digestOf(upload.content))
            && Key(upload.org, upload.caseId, id, upload.extension.value) !in w.disk.stored
            && f.moves && f.flush.Completes? && |upload.content| <= 52_428_800 && f.commit.lands
  {
    hide AfterProcessing, Extract;
    NotInterrupted(config, upload, f.interruption);
    if upload.extension.Some? {
      var tables := Inserted(w.tables, id, UploadRow(config, upload, id));
      ProcessingFrame(config, tables, id, source, f.processing);
    }
  }

  lemma NotInterrupted(config: Config, upload: Upload, interruption: Option<Interruption>)
    ensures Receivable(config, upload, interruption) <==> StagingOf(config, upload, interruption).Accepted?
  {
    var n := |upload.content|;
    if interruption.Some? && n <= config.maxUploadBytes {
      var k := interruption.value.afterReads;
      assert k <= Chunks(upload.content) <==> k * CHUNK_SIZE < n + CHUNK_SIZE;
      assert BytesRead(upload.content, k) <= n;
    }
  }

  /** A deletion removes a row exactly when it is one of its own place and every call up to the commit works. */
  lemma DeleteLandsExactly(w: World, org: OrgId, caseId: CaseId, id: DocId, spare: nat, f: DeleteFaults, gone: DocId)
    requires gone in w.tables.documents
    ensures gone !in AfterDelete(w, org, caseId, id, spare, f).tables.documents
       <==> && gone == id && w.tables.documents[id].org == org && w.tables.documents[id].caseId == caseId
            && f.prologue.Completes? && f.delete.Completes? && f.commit.lands
            && (w.tables.documents[id].key.Some? && w.tables.documents[id].key.value in w.disk.stored ==> f.moves)
  {
    hide HoldFor;
  }

  // ----- What processing leaves

  /** A row waiting to be processed again: no pages, no counts. */
  predicate Waiting(tables: Tables, id: DocId) {
    && id in tables.documents && id in tables.pages && tables.pages[id] == []
    && tables.documents[id].progress == Processing
    && tables.documents[id].pageCount == 0 && tables.documents[id].characterCount == 0
  }

  /** A row that shows the result: its status, its counts, and page by page its numbers and texts. */
  predicate Holds(tables: Tables, id: DocId, result: Result) {
    && id in tables.documents && id in tables.pages && |tables.pages[id]| == |result.pages|
    && tables.documents[id].progress == Extracted(result.status)
    && tables.documents[id].pageCount == |result.pages| && tables.documents[id].characterCount == result.characterCount
    && forall i :: 0 <= i < |result.pages| ==>
         && tables.pages[id][i].number == result.pages[i].number && tables.pages[id][i].text == result.pages[i].text
         && tables.pages[id][i].characterCount == |result.pages[i].text|
  }

  /** Processing leaves the tables alone, or the row waiting, or the row with what was extracted, by which commits landed. */
  lemma ProcessingOutcome(config: Config, tables: Tables, id: DocId, source: Source, f: ProcessFaults)
    requires config.limits.Valid() && id in tables.documents
    ensures var t := AfterProcessing(config, tables, id, source, f);
            if !f.first.lands then t == tables
            else if f.first.signal.Completes? && f.extraction.Completes? && f.second.lands then
              Holds(t, id, Extract(source, config.limits))
            else Waiting(t, id)
  {
    hide Extract;
  }

  /** The row an upload has added: uploaded only, waiting, or with what was extracted. */
  lemma UploadProgress(config: Config, w: World, upload: Upload, id: DocId, temp: TempName, source: Source,
                       f: UploadFaults)
    requires config.limits.Valid() && id !in w.tables.documents
    requires id in AfterUpload(config, w, upload, id, temp, source, f).tables.documents
    ensures var t := AfterUpload(config, w, upload, id, temp, source, f).tables;
            if !f.commit.signal.Completes? || !f.processing.first.lands then
              t.documents[id].progress == Uploaded && id in t.pages && t.pages[id] == []
            else if f.processing.first.signal.Completes? && f.processing.extraction.Completes?
                    && f.processing.second.lands then
              Holds(t, id, Extract(source, config.limits))
            else Waiting(t, id)
  {
    hide AfterProcessing, Extract, Holds, Waiting, Duplicate, Interrupts;
    if RowLands(config, w, upload, id, f) {
      ProcessingOutcome(config, Inserted(w.tables, id, UploadRow(config, upload, id)), id, source, f.processing);
    }
  }

  /** Exactly the rows without a file are metadata only. */
  predicate ProgressFits(tables: Tables) {
    forall id :: id in tables.documents ==>
      (tables.documents[id].progress.MetadataOnly? <==> tables.documents[id].key.None?)
  }

  lemma ProcessingKeepsProgress(config: Config, tables: Tables, id: DocId, source: Source, f: ProcessFaults)
    requires config.limits.Valid() && id in tables.documents && tables.documents[id].key.Some? && ProgressFits(tables)
    ensures ProgressFits(AfterProcessing(config, tables, id, source, f))
  {
    hide Extract;
  }

  /** However its calls end, a request keeps that. */
  lemma RequestKeepsProgress(config: Config, w: World, request: Request)
    requires config.limits.Valid() && ProgressFits(w.tables)
    ensures ProgressFits(After(config, w, request).tables)
  {
    hide AfterProcessing, Extract, Duplicate, Interrupts;
    match request {
      case UploadDocument(upload, id, _, source, f) =>
        if upload.extension.Some? {
          ProcessingKeepsProgress(config, Inserted(w.tables, id, UploadRow(config, upload, id)), id, source, f.processing);
        }
      case ReprocessDocument(_, _, id, source, _, f) =>
        if id in w.tables.documents && w.tables.documents[id].key.Some? {
          ProcessingKeepsProgress(config, w.tables, id, source, f);
        }
      case _ =>
    }
  }
}
