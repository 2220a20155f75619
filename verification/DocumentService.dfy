/** The file area, the database session, and the document handlers with their clean-up code. */
module DocumentService {
  import opened Options
  import opened Extraction
  import opened Documents
  import opened DocumentsIsolation

  datatype StagedUpload = StagedUpload(temp: TempName, extension: Extension, size: nat, sha256: Digest)

  datatype Held = Held(original: Key, name: HoldName)

  datatype Reply = Success | Refused(status: nat) | Failure(signal: Signal)

  // ----- Local file storage

  class StorageService {
    var staging: map<TempName, Bytes>
    var stored: map<Key, Bytes>
    var quarantine: map<HoldName, Bytes>
    const config: Config

    constructor (config: Config)
      ensures this.config == config
      ensures Contents() == EMPTY.disk
    {
      this.config := config;
      staging, stored, quarantine := map[], map[], map[];
    }

    function Contents(): Disk
      reads this
    {
      Disk(staging, stored, quarantine)
    }

    /** `stage_upload`: the file is read chunk by chunk into staging while its size and digest are computed. */
    method StageUpload(upload: Upload, temp: TempName, interruption: Option<Interruption>)
      returns (outcome: Staging, staged: Option<StagedUpload>)
      requires temp !in staging
      modifies this`staging
      ensures outcome == StagingOf(config, upload, interruption)
      ensures staging == StagedFiles(config, old(staging), upload, temp, interruption)
      ensures outcome.Accepted? ==>
                staged == Some(StagedUpload(temp, upload.extension.value, |upload.content|, config.digestOf(upload.content)))
      ensures !outcome.Accepted? ==> staged.None?
    {
      if upload.extension.None? {
        return Rejected, None;
      }
      var content, position, rounds, size := upload.content, 0, 0, 0;
      var hashed: Bytes := [];
      staging := staging[temp := []];
      while true
        invariant rounds <= Chunks(content)
        invariant position == BytesRead(content, rounds) && position <= config.maxUploadBytes
        invariant size == position && hashed == content[..position]
        invariant staging == old(staging)[temp := content[..position]]
        invariant interruption.Some? ==> interruption.value.afterReads >= rounds
        decreases Chunks(content) - rounds
      {
        if interruption.Some? && interruption.value.afterReads == rounds {
          if interruption.value.cancels {
            return Abandoned, None;
          }
          staging := staging - {temp};
          return Broken, None;
        }
        var chunk := content[position..Min(position + CHUNK_SIZE, |content|)];
        if chunk == [] {
          break;
        }
        size := size + |chunk|;
        if size > config.maxUploadBytes {
          staging := staging - {temp};
          return Rejected, None;
        }
        assert content[..position] + chunk == content[..position + |chunk|];
        hashed := hashed + chunk;
        staging := staging[temp := staging[temp] + chunk];
        position := position + |chunk|;
        rounds := rounds + 1;
      }
      assert content[..position] == content;
      if size == 0 || !upload.signatureOk {
        staging := staging - {temp};
        return Rejected, None;
      }
      return Accepted, Some(StagedUpload(temp, upload.extension.value, size, config.digestOf(hashed)));
    }

    /** `finalize`: refuses to replace a stored file. */
    method Finalize(staged: StagedUpload, org: OrgId, caseId: CaseId, document: DocId, moves: bool)
      returns (key: Option<Key>)
      requires staged.temp in staging
      modifies this`staging, this`stored
      ensures var target := Key(org, caseId, document, staged.extension);
              if moves && target !in old(stored) then
                key == Some(target) && staging == old(staging) - {staged.temp}
                && stored == old(stored)[target := old(staging)[staged.temp]]
              else
                key.None? && staging == old(staging) && stored == old(stored)
    {
      var target := Key(org, caseId, document, staged.extension);
      if target in stored || !moves {
        return None;
      }
      stored := stored[target := staging[staged.temp]];
      staging := staging - {staged.temp};
      return Some(target);
    }

    method Discard(staged: StagedUpload)
      modifies this`staging
      ensures staging == old(staging) - {staged.temp}
    {
      staging := staging - {staged.temp};
    }

    method DeleteKey(key: Option<Key>)
      modifies this`stored
      ensures stored == old(stored) - (if key.Some? then {key.value} else {})
    {
      if key.None? {
        return;
      }
      stored := stored - {key.value};
    }

    /** `quarantine`: sets a stored file aside under a free name. */
    method SetAside(key: Option<Key>, spare: nat, moves: bool) returns (ok: bool, held: Option<Held>)
      requires Renamed(spare) !in quarantine
      modifies this`stored, this`quarantine
      ensures if key.Some? && key.value in old(stored) && moves then
                && ok && held == Some(Held(key.value, HoldFor(old(quarantine), key.value, spare)))
                && held.value.name !in old(quarantine)
                && stored == old(stored) - {key.value}
                && quarantine == old(quarantine)[held.value.name := old(stored)[key.value]]
              else
                && held.None? && ok == (key.None? || key.value !in old(stored))
                && stored == old(stored) && quarantine == old(quarantine)
    {
      if key.None? || key.value !in stored {
        return true, None;
      }
      var name := AfterDocument(key.value.document, key.value.extension);
      if name in quarantine {
        name := Renamed(spare);
      }
      if !moves {
        return false, None;
      }
      quarantine := quarantine[name := stored[key.value]];
      stored := stored - {key.value};
      return true, Some(Held(key.value, name));
    }

    method Restore(held: Option<Held>)
      modifies this`stored, this`quarantine
      ensures if held.Some? && held.value.name in old(quarantine) then
                && stored == old(stored)[held.value.original := old(quarantine)[held.value.name]]
                && quarantine == old(quarantine) - {held.value.name}
              else stored == old(stored) && quarantine == old(quarantine)
    {
      if held.None? {
        return;
      }
      if held.value.name in quarantine {
        stored := stored[held.value.original := quarantine[held.value.name]];
        quarantine := quarantine - {held.value.name};
      }
    }

    method Purge(held: Option<Held>)
      modifies this`quarantine
      ensures quarantine == old(quarantine) - (if held.Some? then {held.value.name} else {})
    {
      if held.None? {
        return;
      }
      quarantine := quarantine - {held.value.name};
    }
  }

  // ----- Database session

  datatype Flushed = FlushDone | IntegrityError | FlushRaised | FlushCancelled

  class Session {
    var committed: Tables
    var pending: Tables

    constructor ()
      ensures committed == pending == EMPTY.tables
    {
      committed, pending := EMPTY.tables, EMPTY.tables;
    }

    /** A request works in a session of its own: it sees what is committed. */
    method Begin()
      modifies this`pending
      ensures pending == committed
    {
      pending := committed;
    }

    method Insert(id: DocId, row: Row, signal: Signal) returns (flushed: Flushed)
      modifies this`pending
      ensures flushed.FlushDone? <==> signal.Completes? && Insertable(old(pending), row)
      ensures flushed.FlushRaised? <==> signal.Raises?
      ensures flushed.FlushCancelled? <==> signal.IsCancelled?
      ensures flushed.FlushDone? ==> pending == Inserted(old(pending), id, row)
    {
      var fits := Insertable(pending, row);
      pending := Inserted(pending, id, row);
      match signal {
        case Raises => return FlushRaised;
        case IsCancelled => return FlushCancelled;
        case Completes => return if fits then FlushDone else IntegrityError;
      }
    }

    method Save(commit: Commit)
      modifies this`committed
      ensures committed == if commit.lands then pending else old(committed)
    {
      if commit.lands {
        committed := pending;
      }
    }

    method Rollback()
      modifies this`pending
      ensures pending == committed
    {
      pending := committed;
    }
  }

  // ----- Handlers

  ghost function Now(session: Session, storage: StorageService): World
    reads session, storage
  {
    World(session.committed, storage.Contents())
  }

  /** `process_document`: the pages go with the first commit, the new ones come with the second. */
  method ProcessDocument(session: Session, storage: StorageService, id: DocId, source: Source, f: ProcessFaults)
    returns (reply: Reply)
    requires storage.config.limits.Valid()
    requires id in session.committed.documents && session.pending == session.committed
    requires f.first.Possible() && f.second.Possible()
    modifies session
    ensures session.committed ==
              if HasFile(old(Now(session, storage)), id) then
                AfterProcessing(storage.config, old(session.committed), id, source, f)
              else old(session.committed)
    ensures !reply.Refused?
    ensures reply.Success? ==>
              session.committed ==
                Recorded(Cleared(old(session.committed), id), id, Extract(source, storage.config.limits))
  {
    var record := session.pending.documents[id];
    if record.key.None? || record.key.value !in storage.stored {
      return Failure(Raises);
    }
    session.pending := Cleared(session.pending, id);
    session.Save(f.first);
    if !f.first.signal.Completes? {
      return Failure(f.first.signal);
    }
    if !f.extraction.Completes? {
      return Failure(f.extraction);
    }
    session.pending := Recorded(session.pending, id, Extract(source, storage.config.limits));
    session.Save(f.second);
    return if f.second.signal.Completes? then Success else Failure(f.second.signal);
  }

  method CreateDocumentMetadata(session: Session, storage: StorageService, metadata: Metadata, id: DocId,
                                f: CreateFaults)
    returns (reply: Reply)
    requires Possible(Now(session, storage), CreateMetadata(metadata, id, f))
    modifies session
    ensures Now(session, storage) == AfterCreate(old(Now(session, storage)), metadata, id, f)
    ensures reply.Success? ==> session.committed == Inserted(old(session.committed), id, MetadataRow(metadata))
    ensures reply.Refused? ==> session.committed == old(session.committed)
  {
    session.Begin();
    if !f.prologue.Completes? {
      return Failure(f.prologue);
    }
    if !(0 < metadata.size <= MAX_DOCUMENT_BYTES) {
      return Refused(422);
    }
    if Duplicate(session.pending, metadata.caseId, metadata.sha256) {
      return Refused(409);
    }
    var conflict, interrupted := Refused(409), Failure(f.flush);
    var flushed := session.Insert(id, MetadataRow(metadata), f.flush);
    if !flushed.FlushDone? {
      session.Rollback();
      return if flushed.IntegrityError? then conflict else interrupted;
    }
    session.Save(f.commit);
    return if f.commit.signal.Completes? then Success else Failure(f.commit.signal);
  }

  /** What an upload leaves behind when it ends before its file is in place. */
  lemma UploadNotStored(config: Config, w: World, upload: Upload, id: DocId, temp: TempName, source: Source,
                        f: UploadFaults)
    requires config.limits.Valid() && !ReachesStore(config, w, upload, id, f)
    requires f.prologue.Completes? ==> !StagingOf(config, upload, f.interruption).Abandoned?
    ensures AfterUpload(config, w, upload, id, temp, source, f) == w
    ensures !RowLands(config, w, upload, id, f)
  {
  }

  lemma UploadAbandoned(config: Config, w: World, upload: Upload, id: DocId, temp: TempName, source: Source,
                        f: UploadFaults)
    requires config.limits.Valid() && f.prologue.Completes? && StagingOf(config, upload, f.interruption).Abandoned?
    ensures AfterUpload(config, w, upload, id, temp, source, f)
         == w.(disk := w.disk.(staging := StagedFiles(config, w.disk.staging, upload, temp, f.interruption)))
    ensures !RowLands(config, w, upload, id, f)
  {
  }

  /** What it leaves behind when the insertion of its row does not complete. */
  lemma UploadNotInserted(config: Config, w: World, upload: Upload, id: DocId, temp: TempName, source: Source,
                          f: UploadFaults)
    requires config.limits.Valid() && ReachesStore(config, w, upload, id, f)
    requires !f.flush.Completes? || |upload.content| > MAX_DOCUMENT_BYTES
    ensures AfterUpload(config, w, upload, id, temp, source, f)
         == if f.flush.IsCancelled? then w.(disk := w.disk.(stored := w.disk.stored[UploadKey(upload, id) := upload.content]))
            else w
    ensures !RowLands(config, w, upload, id, f)
  {
  }

  /** What it leaves behind once its row is inserted and committed, or not. */
  lemma UploadInserted(config: Config, w: World, upload: Upload, id: DocId, temp: TempName, source: Source,
                       f: UploadFaults)
    requires config.limits.Valid() && ReachesStore(config, w, upload, id, f)
    requires f.flush.Completes? && |upload.content| <= MAX_DOCUMENT_BYTES
    ensures RowLands(config, w, upload, id, f) <==> f.commit.lands
    ensures FileStays(config, w, upload, id, f) <==> !f.commit.signal.Raises?
    ensures var after := AfterUpload(config, w, upload, id, temp, source, f);
            var tables := Inserted(w.tables, id, UploadRow(config, upload, id));
            && after.disk == (if f.commit.signal.Raises? then w.disk
                              else w.disk.(stored := w.disk.stored[UploadKey(upload, id) := upload.content]))
            && after.tables == if !f.commit.lands then w.tables
                               else if f.commit.signal.Completes? then
                                 AfterProcessing(config, tables, id, source, f.processing)
                               else tables
  {
    hide AfterProcessing;
  }

  lemma UploadFits(config: Config, w: World, upload: Upload, id: DocId, f: UploadFaults)
    requires ReachesStore(config, w, upload, id, f)
    ensures Insertable(w.tables, UploadRow(config, upload, id)) <==> |upload.content| <= MAX_DOCUMENT_BYTES
  {
    hide Duplicate;
  }

  method UploadDocument(session: Session, storage: StorageService, upload: Upload, id: DocId, temp: TempName,
                        source: Source, f: UploadFaults)
    returns (reply: Reply)
    requires storage.config.limits.Valid()
    requires Possible(Now(session, storage), Request.UploadDocument(upload, id, temp, source, f))
    modifies session, storage
    ensures Now(session, storage) == AfterUpload(storage.config, old(Now(session, storage)), upload, id, temp, source, f)
    ensures reply.Refused? ==> Now(session, storage) == old(Now(session, storage))
    ensures reply == Refused(409) <==> AnsweredAsDuplicate(storage.config, old(Now(session, storage)), upload, id, f)
    ensures reply.Success? ==>
              && RowLands(storage.config, old(Now(session, storage)), upload, id, f)
              && FileStays(storage.config, old(Now(session, storage)), upload, id, f)
              && session.committed.documents[id].progress == Extracted(Extract(source, storage.config.limits).status)
  {
    hide Extract, Duplicate, AfterProcessing, Interrupts, RowLands, FileStays, UploadedTables, Insertable;
    ghost var config, before := storage.config, Now(session, storage);
    session.Begin();
    if !f.prologue.Completes? {
      UploadNotStored(config, before, upload, id, temp, source, f);
      return Failure(f.prologue);
    }
    var outcome, staged := storage.StageUpload(upload, temp, f.interruption);
    if !outcome.Accepted? {
      if outcome.Abandoned? {
        UploadAbandoned(config, before, upload, id, temp, source, f);
        return Failure(IsCancelled);
      }
      UploadNotStored(config, before, upload, id, temp, source, f);
      return if outcome.Rejected? then Refused(400) else Failure(Raises);
    }
    assert storage.staging == before.disk.staging[temp := upload.content];
    assert storage.staging - {temp} == before.disk.staging;
    hide StagingOf, StagedFiles, AfterUpload;
    if !f.query.Completes? {
      session.Rollback();
      storage.Discard(staged.value);
      UploadNotStored(config, before, upload, id, temp, source, f);
      return Failure(f.query);
    }
    if Duplicate(session.pending, upload.caseId, staged.value.sha256) {
      storage.Discard(staged.value);
      UploadNotStored(config, before, upload, id, temp, source, f);
      return Refused(409);
    }
    var key := storage.Finalize(staged.value, upload.org, upload.caseId, id, f.moves);
    if key.None? {
      session.Rollback();
      storage.Discard(staged.value);
      UploadNotStored(config, before, upload, id, temp, source, f);
      return Failure(Raises);
    }
    assert key == Some(UploadKey(upload, id)) && ReachesStore(config, before, upload, id, f);
    assert storage.stored - {key.value} == before.disk.stored;
    assert storage.staging == before.disk.staging;
    hide ReachesStore;
    var row := Row(upload.org, upload.caseId, staged.value.size, staged.value.sha256, key, Uploaded, 0, 0);
    var flushed := session.Insert(id, row, f.flush);
    assert row == UploadRow(config, upload, id);
    UploadFits(config, before, upload, id, f);
    if !flushed.FlushDone? {
      UploadNotInserted(config, before, upload, id, temp, source, f);
      if !flushed.FlushCancelled? {
        session.Rollback();
        storage.DeleteKey(key);
      }
      storage.Discard(staged.value);
      return match flushed
        case IntegrityError => Refused(409)
        case FlushRaised => Failure(Raises)
        case _ => Failure(IsCancelled);
    }
    UploadInserted(config, before, upload, id, temp, source, f);
    session.Save(f.commit);
    if f.commit.signal.Raises? {
      session.Rollback();
      storage.DeleteKey(key);
    }
    storage.Discard(staged.value);
    if !f.commit.signal.Completes? {
      return Failure(f.commit.signal);
    }
    reply := ProcessDocument(session, storage, id, source, f.processing);
  }

  method ReprocessDocument(session: Session, storage: StorageService, org: OrgId, caseId: CaseId, id: DocId,
                           source: Source, prologue: Signal, f: ProcessFaults)
    returns (reply: Reply)
    requires storage.config.limits.Valid() && f.first.Possible() && f.second.Possible()
    modifies session
    ensures Now(session, storage)
         == AfterReprocess(storage.config, old(Now(session, storage)), org, caseId, id, source, prologue, f)
    ensures reply.Refused? ==> Now(session, storage) == old(Now(session, storage))
    ensures reply == Refused(404)
       <==> prologue.Completes? && !RowAt(old(session.committed), id, Place(org, caseId))
    ensures reply == Refused(409)
       <==> && prologue.Completes? && RowAt(old(session.committed), id, Place(org, caseId))
            && !HasFile(old(Now(session, storage)), id)
  {
    session.Begin();
    if !prologue.Completes? {
      return Failure(prologue);
    }
    if !Found(session.pending, org, caseId, id) {
      return Refused(404);
    }
    var record := session.pending.documents[id];
    if record.key.None? || record.key.value !in storage.stored {
      return Refused(409);
    }
    reply := ProcessDocument(session, storage, id, source, f);
  }

  method DeleteDocument(session: Session, storage: StorageService, org: OrgId, caseId: CaseId, id: DocId,
                        spare: nat, f: DeleteFaults)
    returns (reply: Reply)
    requires Possible(Now(session, storage), Request.DeleteDocument(org, caseId, id, spare, f))
    modifies session, storage
    ensures Now(session, storage) == AfterDelete(old(Now(session, storage)), org, caseId, id, spare, f)
    ensures reply.Success? ==> id !in session.committed.documents
    ensures reply.Refused? ==> Now(session, storage) == old(Now(session, storage))
    ensures reply == Refused(404)
       <==> f.prologue.Completes? && !RowAt(old(session.committed), id, Place(org, caseId))
  {
    ghost var before := Now(session, storage);
    session.Begin();
    if !f.prologue.Completes? {
      return Failure(f.prologue);
    }
    if !Found(session.pending, org, caseId, id) {
      return Refused(404);
    }
    var ok, held := storage.SetAside(session.pending.documents[id].key, spare, f.moves);
    if !ok {
      return Failure(Raises);
    }
    if held.Some? {
      assert storage.stored[held.value.original := storage.quarantine[held.value.name]] == before.disk.stored;
      assert storage.quarantine - {held.value.name} == before.disk.quarantine;
    }
    hide HoldFor;
    var signal := f.delete;
    if signal.Completes? {
      session.pending := Removed(session.pending, id);
      session.Save(f.commit);
      signal := f.commit.signal;
    }
    if signal.Raises? {
      session.Rollback();
      storage.Restore(held);
      return Failure(Raises);
    }
    if signal.IsCancelled? {
      return Failure(IsCancelled);
    }
    storage.Purge(held);
    return Success;
  }
}
