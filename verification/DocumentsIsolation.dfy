/** Whose rows and files a request may touch, and where every stored file comes from. */
module DocumentsIsolation {
  import opened Options
  import opened Extraction
  import opened Documents

  /** The organisation and case a request is made for. */
  datatype Place = Place(org: OrgId, caseId: CaseId)

  function PlaceOf(request: Request): Place {
    match request
    case CreateMetadata(metadata, _, _) => Place(metadata.org, metadata.caseId)
    case UploadDocument(upload, _, _, _, _) => Place(upload.org, upload.caseId)
    case ReprocessDocument(org, caseId, _, _, _, _) => Place(org, caseId)
    case DeleteDocument(org, caseId, _, _, _) => Place(org, caseId)
  }

  /** The row of that identifier belongs to that organisation and case. */
  predicate RowAt(tables: Tables, id: DocId, place: Place) {
    id in tables.documents && tables.documents[id].org == place.org && tables.documents[id].caseId == place.caseId
  }

  predicate KeyAt(key: Key, place: Place) {
    key.org == place.org && key.caseId == place.caseId
  }

  /** Every stored file is named after its row. */
  predicate KeysMatch(tables: Tables) {
    forall id :: id in tables.documents && tables.documents[id].key.Some? ==>
      var row := tables.documents[id];
      row.key.value.document == id && row.key.value.org == row.org && row.key.value.caseId == row.caseId
  }

  /** The rows and pages of a place are the same: none is new, changed or gone. */
  ghost predicate SameRowsAt(before: Tables, after: Tables, place: Place) {
    && (forall id :: RowAt(before, id, place) <==> RowAt(after, id, place))
    && (forall id :: RowAt(before, id, place) ==>
          && after.documents[id] == before.documents[id]
          && (id in after.pages <==> id in before.pages)
          && (id in before.pages ==> after.pages[id] == before.pages[id]))
  }

  /** The stored files of a place are the same, byte for byte. */
  ghost predicate SameFilesAt(before: Disk, after: Disk, place: Place) {
    forall key :: KeyAt(key, place) ==>
      && (key in after.stored <==> key in before.stored)
      && (key in before.stored ==> after.stored[key] == before.stored[key])
  }

  ghost predicate SameAt(before: World, after: World, place: Place) {
    SameRowsAt(before.tables, after.tables, place) && SameFilesAt(before.disk, after.disk, place)
  }

  /** Processing changes one row and its pages, and neither the place nor the file of that row. */
  lemma ProcessingFrame(config: Config, tables: Tables, id: DocId, source: Source, f: ProcessFaults)
    requires config.limits.Valid() && id in tables.documents
    ensures var t := AfterProcessing(config, tables, id, source, f);
            && t.documents.Keys == tables.documents.Keys
            && (forall d :: d in tables.documents && d != id ==>
                  && t.documents[d] == tables.documents[d]
                  && (d in t.pages <==> d in tables.pages)
                  && (d in tables.pages ==> t.pages[d] == tables.pages[d]))
            && t.documents[id].org == tables.documents[id].org && t.documents[id].caseId == tables.documents[id].caseId
            && t.documents[id].key == tables.documents[id].key
            && t.documents[id].sha256 == tables.documents[id].sha256 && t.documents[id].size == tables.documents[id].size
  {
    hide Extract;
  }

  /** However its calls end, a request leaves every stored file named after its row. */
  lemma RequestKeepsKeys(config: Config, w: World, request: Request)
    requires config.limits.Valid() && KeysMatch(w.tables)
    ensures KeysMatch(After(config, w, request).tables)
  {
    hide AfterProcessing, Extract, Duplicate, Interrupts;
    match request {
      case CreateMetadata(_, _, _) =>
      case UploadDocument(upload, id, _, source, f) =>
        if upload.extension.Some? {
          var tables := Inserted(w.tables, id, UploadRow(config, upload, id));
          ProcessingFrame(config, tables, id, source, f.processing);
        }
      case ReprocessDocument(_, _, id, source, _, f) =>
        if id in w.tables.documents {
          ProcessingFrame(config, w.tables, id, source, f);
        }
      case DeleteDocument(_, _, _, _, _) =>
    }
  }

  lemma LandedHasKind(config: Config, w: World, upload: Upload, id: DocId, f: UploadFaults)
    requires RowLands(config, w, upload, id, f)
    ensures upload.extension.Some?
  {
  }

  lemma UploadTouchesOwnRows(config: Config, w: World, upload: Upload, id: DocId, source: Source, f: UploadFaults,
                             place: Place)
    requires config.limits.Valid() && id !in w.tables.documents && place != Place(upload.org, upload.caseId)
    ensures SameRowsAt(w.tables, UploadedTables(config, w, upload, id, source, f), place)
  {
    hide AfterProcessing, ReachesCommit;
    if RowLands(config, w, upload, id, f) {
      LandedHasKind(config, w, upload, id, f);
      var tables := Inserted(w.tables, id, UploadRow(config, upload, id));
      ProcessingFrame(config, tables, id, source, f.processing);
      assert SameRowsAt(w.tables, tables, place);
    }
  }

  lemma UploadTouchesOwn(config: Config, w: World, upload: Upload, id: DocId, temp: TempName, source: Source,
                         f: UploadFaults, place: Place)
    requires config.limits.Valid() && id !in w.tables.documents && place != Place(upload.org, upload.caseId)
    ensures SameAt(w, AfterUpload(config, w, upload, id, temp, source, f), place)
  {
    hide UploadedTables, SameRowsAt, ReachesCommit, Duplicate, Interrupts;
    UploadTouchesOwnRows(config, w, upload, id, source, f, place);
  }

  lemma ReprocessTouchesOwn(config: Config, w: World, org: OrgId, caseId: CaseId, id: DocId, source: Source,
                            prologue: Signal, f: ProcessFaults, place: Place)
    requires config.limits.Valid() && place != Place(org, caseId)
    ensures SameAt(w, AfterReprocess(config, w, org, caseId, id, source, prologue, f), place)
  {
    hide AfterProcessing, Extract;
    if id in w.tables.documents {
      ProcessingFrame(config, w.tables, id, source, f);
    }
  }

  lemma DeleteTouchesOwn(w: World, org: OrgId, caseId: CaseId, id: DocId, spare: nat, f: DeleteFaults, place: Place)
    requires KeysMatch(w.tables) && place != Place(org, caseId)
    ensures SameAt(w, AfterDelete(w, org, caseId, id, spare, f), place)
  {
    hide HoldFor;
  }

  /** A request made for one organisation and case changes nothing of any other. */
  lemma OthersUntouched(config: Config, w: World, request: Request, place: Place)
    requires config.limits.Valid() && KeysMatch(w.tables) && Possible(w, request) && place != PlaceOf(request)
    ensures SameAt(w, After(config, w, request), place)
  {
    hide AfterUpload, AfterReprocess, AfterDelete, Duplicate;
    match request {
      case CreateMetadata(_, _, _) =>
      case UploadDocument(upload, id, temp, source, f) =>
        UploadTouchesOwn(config, w, upload, id, temp, source, f, place);
      case ReprocessDocument(org, caseId, id, source, prologue, f) =>
        ReprocessTouchesOwn(config, w, org, caseId, id, source, prologue, f, place);
      case DeleteDocument(org, caseId, id, spare, f) =>
        DeleteTouchesOwn(w, org, caseId, id, spare, f, place);
    }
  }

  /** Files set aside and staged earlier stay as they are. */
  lemma HoldsStay(config: Config, w: World, request: Request)
    requires config.limits.Valid() && Possible(w, request)
    ensures var after := After(config, w, request);
            && (forall name :: name in w.disk.quarantine ==>
                  name in after.disk.quarantine && after.disk.quarantine[name] == w.disk.quarantine[name])
            && (forall name :: name in w.disk.staging ==>
                  name in after.disk.staging && after.disk.staging[name] == w.disk.staging[name])
  {
    hide AfterProcessing, Extract, Duplicate, Interrupts;
  }

  /** Over a run, nothing of a place changes unless a request is made for it. */
  lemma {:induction false} RunIsolates(config: Config, worlds: seq<World>, requests: seq<Request>, place: Place, n: nat)
    requires config.limits.Valid() && IsRun(config, worlds, requests) && KeysMatch(worlds[0].tables) && n < |worlds|
    requires forall i :: 0 <= i < n ==> PlaceOf(requests[i]) != place
    ensures KeysMatch(worlds[n].tables) && SameAt(worlds[0], worlds[n], place)
  {
    hide After, KeysMatch, Possible;
    if n > 0 {
      RunIsolates(config, worlds, requests, place, n - 1);
      RequestKeepsKeys(config, worlds[n - 1], requests[n - 1]);
      OthersUntouched(config, worlds[n - 1], requests[n - 1], place);
      assert worlds[n] == After(config, worlds[n - 1], requests[n - 1]);
    }
  }

  /** A request that names a document of another organisation or case changes nothing at all. */
  lemma ForeignDocumentUntouched(config: Config, w: World, request: Request)
    requires config.limits.Valid()
    requires request.ReprocessDocument? || request.DeleteDocument?
    requires !RowAt(w.tables, request.id, PlaceOf(request))
    ensures After(config, w, request) == w
  {
    hide AfterProcessing, Extract;
  }

  // ----- Where stored files come from

  /** The request uploads these bytes under that key: a file of an accepted kind and size for that place. */
  predicate Brings(config: Config, request: Request, key: Key, content: Bytes) {
    && request.UploadDocument? && request.id == key.document && KeyAt(key, PlaceOf(request))
    && request.upload.extension == Some(key.extension) && request.upload.signatureOk
    && request.upload.content == content && 0 < |content| <= config.maxUploadBytes
  }

  /** A stored file is as it was, or an upload of accepted content has just brought it. */
  lemma StoredFrom(config: Config, w: World, request: Request, key: Key)
    requires config.limits.Valid() && key in After(config, w, request).disk.stored
    ensures var after := After(config, w, request);
            || (key in w.disk.stored && after.disk.stored[key] == w.disk.stored[key])
            || (key !in w.disk.stored && Brings(config, request, key, after.disk.stored[key]))
  {
    hide AfterProcessing, Extract, Duplicate, Interrupts;
  }

  /** Every file stored in a run that began with nothing was brought by an upload of accepted content to its place. */
  lemma {:induction false} StoredOnlyByUpload(
      config: Config, worlds: seq<World>, requests: seq<Request>, n: nat, key: Key)
    requires config.limits.Valid() && IsRun(config, worlds, requests) && worlds[0] == EMPTY && n < |worlds|
    requires key in worlds[n].disk.stored
    ensures exists i :: 0 <= i < n && Brings(config, requests[i], key, worlds[n].disk.stored[key])
  {
    hide After, Brings, Possible;
    if n > 0 {
      assert worlds[n] == After(config, worlds[n - 1], requests[n - 1]);
      StoredFrom(config, worlds[n - 1], requests[n - 1], key);
      if key in worlds[n - 1].disk.stored {
        StoredOnlyByUpload(config, worlds, requests, n - 1, key);
      }
    }
  }

  /** A new row with a file tells what was uploaded: its place, size and digest. */
  lemma RowFrom(config: Config, w: World, request: Request, id: DocId)
    requires config.limits.Valid() && id !in w.tables.documents && id in After(config, w, request).tables.documents
    ensures var row := After(config, w, request).tables.documents[id];
            && request.id == id && Place(row.org, row.caseId) == PlaceOf(request)
            && (row.key.Some? ==>
                  && request.UploadDocument? && Brings(config, request, row.key.value, request.upload.content)
                  && row.size == |request.upload.content| && row.sha256 == config.digestOf(request.upload.content))
            && (row.key.None? ==>
                  && request.CreateMetadata? && row.size == request.metadata.size && row.sha256 == request.metadata.sha256)
  {
    hide AfterProcessing, Extract, Duplicate, Interrupts;
    match request {
      case UploadDocument(upload, _, _, source, f) =>
        if upload.extension.Some? {
          ProcessingFrame(config, Inserted(w.tables, request.id, UploadRow(config, upload, request.id)), request.id,
                          source, f.processing);
        }
      case ReprocessDocument(_, _, _, source, _, f) =>
        if request.id in w.tables.documents {
          ProcessingFrame(config, w.tables, request.id, source, f);
        }
      case _ =>
    }
  }
}
