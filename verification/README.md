# LegalBridge: a verified model

The project models four parts of LegalBridge that carry state, loops or arithmetic, and proves what they are for.

**Text paging and the record format.** `_normalise_text`, the two greedy packers, the three budgets and the paging of
the TXT, DOCX and PDF extractors; the `RECORD:` pattern with its backtracking, the page writer and the contradiction
pass. Texts are character sequences; "visible" means neither whitespace nor a control character. The imperative
packers are proved against one greedy grouping, which is proved lossless, bounded and optimal.
(`Strings`, `Normalisation`, `SourceLines`, `Paging`, `DocxTable`, `Extraction`, `ExtractionOutcomes`, `TextFile`,
`Records`, `Slugs`, `Patterns`, `Workspace`, `Contradictions`)

**Motion approval, export gate and agent workflow.** The browser store in mock mode: every action is a method on the
two fields it replaces, proved equal to a transition function; one inductive invariant over all actions gives the
approval, audit-log and workflow results. `stableHash` is modelled bit for bit.
The gate is also told in plain conditions on motion texts and titles, without its normalisation.
(`StableHash`, `MotionGate`, `RejectedClaims`, `GateInWords`, `MotionStore`, `MotionSafety`, `MotionOutcomes`,
`MotionEffects`, `AppStore`)

**Refresh-token rotation.** The server handlers as one atomic step a request, and one browser tab as the steps between
awaits, with any number of concurrent calls, lost or failed replies, other clients and page reloads.
(`AuthServer`, `AuthSafety`, `AuthOutcomes`, `AuthAccounts`, `AuthService`, `AuthTab`, `AuthTabSafety`, `AuthTabCalls`)

**Document lifecycle.** Upload, deletion, reprocessing and metadata creation over the database and the local file area.
Every awaited call may complete, raise or be cancelled, and a commit may take effect although it reports an error.
(`Documents`, `DocumentsSafety`, `DocumentsIsolation`, `DocumentsProgress`, `DocumentService`)

## Findings

- Files and rows do not agree after *every* failure. `except Exception` does not catch a cancellation, so a cancelled
  request can leave a file in staging, in quarantine, or without a row; and a commit that took effect before its
  error was reported makes the clean-up delete the file of a committed row (or restore the file of a deleted one).
  `UploadExactly`, `DeleteExactly` and `RunExactly` say that, as long as the compensations themselves succeed, nothing else breaks the agreement.
- The browser keeps its session across a reload but not the single-flight promise. A reload while the stored token is
  in flight can lead to its second presentation; `ReloadResendsExactly` says that no other reload does.
- The size check of the documents table fails an upload above 50 MiB, which `max_upload_bytes` can allow
  (`server/app/core/config.py:111`); the handler answers it as a duplicate. `UploadDocument` gives the exact condition
  and `OversizeAnsweredAsDuplicate` an input.
- `_table_text` drops a cell whose text equals the one kept before it in its row (`server/app/services/extraction.py:224`).
  Cells merged across columns need that, but two neighbouring cells that happen to hold the same text lose one of them,
  and the document is still reported as processed. `DocxLosesNothing` gives the exact condition, `RepeatedCellLost` an input.
- `_apply_limits` can drop pages without a warning; `ApplyLimits` says for exactly which inputs, `SilentCutExample` shows one.
- The byte budget of `_extract_txt` is four bytes a character of the text limit, plus four, for a whole file whose form
  feeds and line feeds the limits do not count: pages within all limits can be cut (`FourByteOverflow`). A file that
  begins with U+FEFF loses it (`MarkedPageLost`). `PagesRoundTrip` says that nothing else breaks the round trip.
- A rejected argument is looked for through claims of twelve or more units only, so a short one can stay in an approved
  motion. `FoundExactly` gives the exact condition, `TwelveBlocksElevenPasses` an input on either side.
- The two packers differ on blank texts only: one empty chunk against no page.

## Model

| member | source | states |
|---|---|---|
| `Normalisation.NormaliseResult` | server/app/services/extraction.py:56-67 | the result is normalised (allowed characters only, no blank before a line end, no outer whitespace), is never longer than the input, and shows exactly the same non-whitespace, non-control characters in the same order |
| `Normalisation.NormalisedIffFixed` | server/app/services/extraction.py:56-67 | the texts left unchanged are exactly the normalised ones, in both form-feed modes |
| `Normalisation.NormaliseIdempotent` | server/app/services/extraction.py:56-67 | normalising twice is normalising once |
| `SourceLines.NormalisedLines` | server/app/services/extraction.py:56-67 | the normal form is the lines of the text, whether they end at CR LF, CR or LF, each without control characters and without the blanks at its end, joined by line feeds, less the white space at both ends |
| `Paging.PackSound` | server/app/services/extraction.py:231-268 | the greedy groups hold the pieces in order, none lost or repeated, and every joined group is within the bound |
| `Paging.GreedyPagingOptimal` | server/app/services/extraction.py:231-268 | no order-preserving grouping of the same pieces into pages that fit has fewer pages than the loop produces |
| `Paging.PageTextsKeep` | server/app/services/extraction.py:231-268 | the page texts of a section show exactly what its blocks show, and each is within the bound |
| `Paging.Flush` | server/app/services/extraction.py:242-257 | closes the page being filled with the next number and label, or does nothing if it is empty |
| `Paging.PackPiece` | server/app/services/extraction.py:261-266 | one turn of the inner loop: the pages so far plus what is still to come stay the greedy result |
| `Paging.PackBlock` | server/app/services/extraction.py:260-266 | all pieces of one block, cut at the offsets of the range |
| `Paging.SplitSection` | server/app/services/extraction.py:231-268 | the whole loop returns the optimal greedy pages, numbered on from the start number |
| `Paging.PackParagraph` | server/app/services/extraction.py:370-382 | one paragraph of the text packer, including the slicing of over-long paragraphs |
| `Paging.ChunkText` | server/app/services/extraction.py:363-385 | the text packer, which tests before joining instead of counting, returns the same greedy pages, and one empty chunk for a blank text |
| `Paging.ChunkTextsKeep` | server/app/services/extraction.py:363-385 | chunking loses nothing visible, every chunk is within the bound, and there is always a chunk |
| `Paging.PackersAgree` | server/app/services/extraction.py:231-385 | on any text with a non-blank paragraph both packers give the same list of texts; on the others they differ, one empty chunk against no page |
| `Extraction.LimitsExact` | server/app/services/extraction.py:74-104 | the three budgets keep exactly min(text limit, sum over the first pages of min(length, page limit)) characters, and each kept page is the page at its position with its text cut to a prefix |
| `Extraction.ApplyLimits` | server/app/services/extraction.py:74-104 | the loop computes that; its total is the kept characters; the truncated flag is true exactly when the output differs from the input; and it is true without a warning exactly when a page starts where the text budget ends, no page up to it exceeds the per-page budget, and there are not too many pages |
| `Extraction.SilentCutExample` | server/app/services/extraction.py:90-92 | two pages of which the first uses up the budget: the second is dropped without a warning |
| `DocxTable.RowValues` | server/app/services/extraction.py:221-225 | the inner loop keeps the non-blank cell texts of a row, except one equal to the last one kept |
| `DocxTable.PrintTable` | server/app/services/extraction.py:218-228 | one line for every row that shows anything, the kept cells with bars between |
| `DocxTable.CellShows` | server/app/services/extraction.py:223 | a cell shows exactly its own visible characters, with a slash at each line end of its normalised text |
| `DocxTable.TableLosesExactly` | server/app/services/extraction.py:218-228 | a table shows less than all its cells, and otherwise exactly them, precisely when some row has two neighbouring cells, blank ones aside, with the same text |
| `Extraction.VisibleTxtPages` | server/app/services/extraction.py:388-426 | before the budgets apply, the TXT pages show exactly what the decoded text shows |
| `Extraction.TxtLosesNothing` | server/app/services/extraction.py:388-439 | a TXT reported as processed lost no visible character |
| `Extraction.TxtKeepsPrefix` | server/app/services/extraction.py:388-439 | a TXT without form feeds, whatever its status, keeps a leading part of its visible characters |
| `Extraction.DocxPagesVisible` | server/app/services/extraction.py:271-318 | before the budgets apply, the DOCX pages show all paragraphs, and the tables as `_table_text` prints them, in order, and are numbered through all sections |
| `Extraction.DocxLosesNothing` | server/app/services/extraction.py:218-328 | a DOCX reported as processed shows everything its paragraphs and cells show, exactly when no row of a table has two neighbouring cells, blank ones aside, with the same text |
| `Extraction.RepeatedCellLost` | server/app/services/extraction.py:218-228 | a table with the one row 5, 5 is reported as processed and shows a single 5 |
| `ExtractionOutcomes.UncutExactly` | server/app/services/extraction.py:74-104 | nothing is cut exactly when there are not too many pages, each text is within the page budget, all together are within the text budget, and the last page starts before that is used up |
| `ExtractionOutcomes.TxtStatus` | server/app/services/extraction.py:391-439 | a TXT is processed exactly when all of it was read and its pages are within the budgets, and partially processed otherwise |
| `ExtractionOutcomes.TxtPageSize` | server/app/services/extraction.py:405-414 | logical TXT pages have at most 12000 characters and at most the page budget, and a text within both is one page |
| `ExtractionOutcomes.DocxStatus` | server/app/services/extraction.py:319-328 | a DOCX is processed exactly when its pages are within the budgets, and partially processed otherwise |
| `ExtractionOutcomes.DocxPageSize` | server/app/services/extraction.py:298-308 | the pages of a section have at most 20000 characters and at most the page budget; a section within both is one page, its blocks with an empty line between them |
| `ExtractionOutcomes.SectionsAtHeadings` | server/app/services/extraction.py:276-294 | the sections hold every block that shows anything, in order; each after the first begins with a heading that names it, and no heading stands inside one |
| `ExtractionOutcomes.PdfPagesShow` | server/app/services/extraction.py:155-191 | one page for each physical page within the page budget: its embedded text in normal form from 20 word characters on, otherwise what OCR read, otherwise nothing |
| `ExtractionOutcomes.PdfStatus` | server/app/services/extraction.py:196-204 | OCR is required exactly when there are pages and none of those read has text; processed exactly when all pages were read, none lacks text and all are within the budgets; partially processed otherwise |
| `ExtractionOutcomes.PdfLosesNothing` | server/app/services/extraction.py:138-215 | a PDF reported as processed has one page for each physical page and shows, page by page, the embedded text where that is meaningful and otherwise what OCR read |
| `ExtractionOutcomes.PdfKeepsPrefixes` | server/app/services/extraction.py:138-215 | whatever the status, the pages kept are the first ones, each a leading part of what shows its physical page |
| `ExtractionOutcomes.IsMeaningful` | server/app/services/extraction.py:70-71 | counts the word characters and compares with 20 |
| `ExtractionOutcomes.ReadPdf` | server/app/services/extraction.py:148-215 | the loop over the physical pages with its count of pages without text returns the result described, and shows every page when it reports processed |
| `Extraction.ExtractConsistent` | server/app/services/extraction.py:138-454 | every extractor numbers its pages 1, 2, 3, ... within the page budget and reports exactly the characters they hold, within the text budget |
| `Records.RecordParses` | server/app/services/analysis.py:111 | the pattern, with the backtracking of its three whitespace runs, reads a well-formed printed record back as its three fields and consumes exactly that line |
| `Records.ScanLines` | server/app/services/analysis.py:191-211 | scanning a page of records and other lines yields exactly the records, in order, with keys in normal form |
| `Records.SlugOfKey` | server/app/services/analysis.py:198 | a key already in normal form is not changed by the key rewriting |
| `Slugs.SlugIsWords` | server/app/services/analysis.py:198 | the normal form of any key is its runs of letters and digits with one underscore between any two, whatever stood around them |
| `Slugs.SlugIsKey` | server/app/services/analysis.py:198 | it is empty exactly if the key has no letter or digit, and otherwise in normal form |
| `Patterns.TagInAnyCase` | server/app/services/analysis.py:111 | the tag is RECORD and a colon, each letter in either case |
| `Patterns.MatchesExactly` | server/app/services/analysis.py:111 | with its backtracking, the pattern matches exactly the texts that begin with the tag and, for some division, white space, a field and a bar, white space, a field and a bar, white space and a part of a line |
| `Patterns.MatchCaptures` | server/app/services/analysis.py:111 | a match captures the three fields of such a division, consumes it, and its detail goes on to the end of the line |
| `Patterns.FindAllExactly` | server/app/services/analysis.py:197 | the matches in a text stand at line starts, in order and without overlap, and no line start outside them begins a record |
| `Records.WrittenChunks` | server/app/scripts/bootstrap_casework_workspace.py:369-370 | the written text is already normalised and its form feeds cut it into the framed pages |
| `TextFile.WithinBudget` | server/app/services/extraction.py:391-399 | a file within the byte budget is decoded to the text written, less a byte-order mark in front |
| `TextFile.OverBudget` | server/app/services/extraction.py:391-399 | a file beyond the byte budget is never reported as processed |
| `Records.PagesRoundTrip` | server/app/services/extraction.py:388-426 | two or more page texts within the limits, written and extracted, are processed and come back one a page, exactly when the file is within the byte budget and does not begin with a byte-order mark; pages are numbered from 1 in any case |
| `Records.FourByteOverflow` | server/app/services/extraction.py:391-399 | three pages of 10 000 four-byte characters in all are within the limits but not within the byte budget, so they are not reported as processed |
| `Records.MarkedPageLost` | server/app/services/extraction.py:345-346 | a page that begins with U+FEFF does not come back |
| `Records.RecordsRoundTrip` | server/app/services/analysis.py:191-211 | written to a file without a byte-order mark, pages of well-formed lines within the limits are processed exactly when the file is within the byte budget, and then give back exactly their records in order, each under its own page number |
| `Workspace.EveryThirdExact` | server/app/scripts/bootstrap_casework_workspace.py:312 | the stride is exact: its items are the records at the positions start, start + 3, ..., in order, and there is no further one |
| `Workspace.DocumentPageOk` | server/app/scripts/bootstrap_casework_workspace.py:320-335 | every generated page is a text that extraction leaves unchanged and whose lines are all well formed |
| `Workspace.DocumentRoundTrip` | server/app/scripts/bootstrap_casework_workspace.py:306-336 | a generated document within the limits is processed exactly when its file is within the byte budget, and then the observations are exactly the records selected for the three pages, page by page in order |
| `Workspace.EveryRecordExpected` | server/app/scripts/bootstrap_casework_workspace.py:312 | among them is every record, on the page its position selects |
| `Contradictions.GroupByKey` | server/app/services/analysis.py:573-575 | the dictionary of lists holds, for every key, its observations in order, and each key is first mentioned after the keys before it |
| `Contradictions.DistinctValues` | server/app/services/analysis.py:578-581 | the first observation comes first, a second entry exists exactly when some observation differs from it after folding, and is the first that does |
| `Contradictions.FindContradictions` | server/app/services/analysis.py:573-583 | a key is reported exactly when it is titled and two of its observations differ after case folding, once, in order of first mention, with its first observation against the first that differs |
| `StableHash.ComputeStableHash` | client/src/lib/utils.ts:8-15 | the loop over UTF-16 units in 32-bit arithmetic and the printing compute the specification function |
| `StableHash.HashIsDigest` | client/src/lib/utils.ts:14 | printing loses nothing: two hashes are equal exactly when the 32-bit digests are |
| `StableHash.CommonSuffix` | client/src/lib/utils.ts:10-13 | appending the same text to two strings neither creates nor removes a collision |
| `StableHash.OneUnitNeverCollides` | client/src/lib/utils.ts:8-15 | equal-length strings that differ in exactly one UTF-16 unit never have the same hash |
| `StableHash.OneUnitChangesMotionHash` | client/src/stores/app-store.ts:1049-1051 | substituting one unit of a motion body at the same version changes its recorded hash |
| `StableHash.VersionChangesMotionHash` | client/src/stores/app-store.ts:1049-1051 | the same body under two version numbers that differ in the last digit only has different hashes |
| `StableHash.MotionTextInjective` | client/src/stores/app-store.ts:1049-1051 | no two pairs of body and version give the same text to hash |
| `StableHash.PublishedValues` | client/src/lib/utils.ts:8-15 | the digests of the empty string and of "a" are the published 32-bit FNV-1a values |
| `MotionGate.GateExact` | client/src/lib/motion-gate.ts:158-223 | there is no approval blocker exactly when the seven conditions hold, and export is unlocked exactly when, besides, the approval names the current version and its hash |
| `MotionGate.RejectionAppliedExact` | client/src/lib/motion-gate.ts:87-90 | the rejection test holds exactly when the first argument that requires rejection is rejected |
| `RejectedClaims.FoundExactly` | client/src/lib/motion-gate.ts:32-72 | a rejected argument is found in a motion exactly when one of its claims of twelve or more units stands in it: the words of its title, those without a final "allegation", those without "police", or a fixed claim of its identifier, in any letter case and with anything but letters and digits between the words |
| `RejectedClaims.GateOnClaims` | client/src/lib/motion-gate.ts:103-105 | the gate's test passes exactly when no such claim of a rejected argument stands in the motion |
| `RejectedClaims.RejectedTitleBlocks` | client/src/lib/motion-gate.ts:48-72 | wherever a rejected title of twelve or more units stands in the motion, no request is recorded and the export stays locked |
| `RejectedClaims.FixedClaimBlocks` | client/src/lib/motion-gate.ts:39-46 | the same for the four fixed claims under their identifiers, whatever the titles say |
| `RejectedClaims.TwelveUnits` | client/src/lib/motion-gate.ts:69 | a rejected title of one word that stands in the motion is found exactly from twelve units on |
| `RejectedClaims.TwelveBlocksElevenPasses` | client/src/lib/motion-gate.ts:69 | "exaggeration" blocks, "speculation" passes |
| `GateInWords.TrimExactly` | client/src/lib/motion-gate.ts:80-83 | trimming leaves the one middle part that has no white space at its ends and only white space around it |
| `GateInWords.ApprovableInWords` | client/src/lib/motion-gate.ts:78-194 | a case is approvable exactly when its motion has 80 units between outer white space, is the last saved version with its hash, has nine citations that pass everything, the first required rejection is made, every decision is taken, included strategies are safe and no rejected claim stands in it; each condition missing is reported by its own blocker |
| `MotionSafety.StepInv` | client/src/stores/app-store.ts:660-1241 | every mock-mode action keeps the invariant that ties gate, versions, workflow and audit log together |
| `MotionSafety.RunInv` | client/src/stores/app-store.ts:660-1241 | the invariant holds after every run of actions from the seed |
| `MotionOutcomes.ReviewOutcome` | client/src/stores/app-store.ts:976-1045 | a changed decision stands and leaves no approval, in the case and in the log; any other request changes nothing, and no other case is touched |
| `MotionOutcomes.SaveOutcome` | client/src/stores/app-store.ts:1046-1088 | a changed motion becomes one more version under the next number with its hash and leaves no approval, in the case and in the log; an unchanged one changes nothing |
| `MotionOutcomes.ApprovalOutcome` | client/src/stores/app-store.ts:1089-1148 | an approval is recorded exactly for an approvable, unapproved case and a request in order; it names the last version and the hash of the current motion, in the case and in the log; any other request changes nothing |
| `MotionOutcomes.ExportOutcome` | client/src/stores/app-store.ts:1149-1169 | exactly an approved case is exported; no case changes, and the one new event names the approved version |
| `MotionOutcomes.AdvanceOutcome` | client/src/stores/app-store.ts:860-926 | a running workflow has its running node completed, the next one running or all completed, and that agent logged once; any other stays |
| `MotionOutcomes.NeutralOutcome` | client/src/stores/app-store.ts:710-975 | no document, workflow or strategy action changes any approval or any case but the one named |
| `MotionEffects.RequestInWords` | client/src/stores/app-store.ts:1089-1130 | an approval request can be recorded exactly when the case meets these conditions and is unapproved, the name has two units or more between outer white space, the PIN is 2026 and the box is ticked |
| `MotionEffects.ApprovedMotionsAreClean` | client/src/stores/app-store.ts:952-1241 | in every reachable state an approved case meets them all: no rejected claim stands in its motion and no unsafe strategy is included |
| `MotionEffects.ReviewEffect` | client/src/stores/app-store.ts:986-1018 | a changed decision changes exactly the argument, the strategy tied to it, which is excluded unless approved, and the approval |
| `MotionEffects.AddedExactly` | client/src/stores/app-store.ts:716-727 | added are the first incoming documents of new names, no two of one name, up to twelve in all; a new name is left out only when twelve are reached |
| `MotionEffects.AddEffect` | client/src/stores/app-store.ts:710-749 | the case gains exactly those, in order, or nothing changes |
| `MotionEffects.StartEffect` | client/src/stores/app-store.ts:779-817 | a workflow starts, at its first node and with an empty list of completed agents, exactly when it is idle and its documents, of which there are some, are all processed |
| `MotionEffects.PauseResumeEffect` | client/src/stores/app-store.ts:818-859 | only a running workflow is paused and only a paused one resumed, and its nodes and place stay |
| `MotionEffects.ProcessEffect` | client/src/stores/app-store.ts:750-778 | afterwards every document is processed and none is added or lost; nothing happens exactly when all were |
| `MotionEffects.NeverUnsafe` | client/src/stores/app-store.ts:952-1045 | from a seed that includes only safe strategies, no reachable case ever includes an unsafe one |
| `MotionEffects.AdvanceLogs` | client/src/stores/app-store.ts:210-262 | one step logs the agent, what it produced if the case has anything for it, the completion after the last one, and nothing else |
| `MotionSafety.ApprovedExactlyWhenUnlocked` | client/src/stores/app-store.ts:952-1241 | in every reachable state a case has an approval exactly when its export gate is unlocked, and it names the last saved version and the hash of the current motion |
| `MotionSafety.ApprovalOpensGate` | client/src/stores/app-store.ts:1089-1148 | after an approval request the gate is open exactly when it was open or the case is approvable and name, PIN and confirmation are in order |
| `MotionSafety.AuditLogRebuildsApproval` | client/src/stores/app-store.ts:1016-1168 | in every reachable state the newest approval event of a case in the log tells whether it is approved, and for which version and hash |
| `MotionSafety.EveryExportWasApproved` | client/src/stores/app-store.ts:1149-1168 | each export event names the version approved last before it with no invalidation in between |
| `MotionSafety.WorkflowFollowsLog` | client/src/stores/app-store.ts:779-951 | a started workflow is completed nodes, one running node, locked nodes; the log lists exactly the completed agents since the start, once each in order; it is complete exactly when all are listed |
| `AppStoreObject.AppStore.constructor` | client/src/stores/app-store.ts:280-281 | the store starts consistent, with the seed unapproved and locked and no approval or export logged |
| `AppStoreObject.AppStore.CreateCase` | client/src/stores/app-store.ts:660-709 | keeps the store consistent; the new case comes last, empty, unapproved and locked, and the others stay |
| `AppStoreObject.AppStore.AddDocuments` | client/src/stores/app-store.ts:710-749 | keeps the store consistent; adds the first documents of new names, up to twelve in all, and returns how many; no approval and no other case changes |
| `AppStoreObject.AppStore.RegisterDocument` | client/src/stores/app-store.ts:558-586 | keeps the store consistent; of the case named only the documents change, by one more; no approval and no other case changes |
| `AppStoreObject.AppStore.DeleteDocument` | client/src/stores/app-store.ts:639-651 | keeps the store consistent; exactly the documents with that identifier are gone; no approval and no other case changes |
| `AppStoreObject.AppStore.ProcessDocuments` | client/src/stores/app-store.ts:750-778 | keeps the store consistent; every document of the case is processed, none added or lost; no approval and no other case changes |
| `AppStoreObject.AppStore.StartWorkflow` | client/src/stores/app-store.ts:779-817 | keeps the store consistent; exactly an idle workflow with documents, all processed, starts, at its first node; no approval and no other case changes |
| `AppStoreObject.AppStore.PauseWorkflow` | client/src/stores/app-store.ts:818-838 | keeps the store consistent; exactly a running workflow is paused, in its place; no approval and no other case changes |
| `AppStoreObject.AppStore.ResumeWorkflow` | client/src/stores/app-store.ts:839-859 | keeps the store consistent; exactly a paused workflow is resumed, in its place; no approval and no other case changes |
| `AppStoreObject.AppStore.AdvanceWorkflow` | client/src/stores/app-store.ts:860-926 | keeps the store consistent; a running workflow advances by exactly one agent, logged once; no approval and no other case changes |
| `AppStoreObject.AppStore.ResetWorkflow` | client/src/stores/app-store.ts:927-951 | keeps the store consistent; the workflow is idle at its first node; no approval and no other case changes |
| `AppStoreObject.AppStore.SetStrategyIncluded` | client/src/stores/app-store.ts:952-964 | keeps the store consistent; exactly the strategies of that identifier that are approved and verified take the value asked for, nothing else about any strategy changes, and no approval or gate does |
| `AppStoreObject.AppStore.SetStrategyNotes` | client/src/stores/app-store.ts:965-975 | keeps the store consistent; exactly the notes of the strategy named change, and no approval or gate does |
| `AppStoreObject.AppStore.ReviewEthicsArgument` | client/src/stores/app-store.ts:976-1045 | keeps the store consistent; a changed decision stands, changes exactly its argument, the strategy tied to it and the approval, and leaves no approval in the case and in the log; otherwise nothing changes |
| `AppStoreObject.AppStore.SaveMotion` | client/src/stores/app-store.ts:1046-1088 | keeps the store consistent; a changed motion becomes the next version with its hash and leaves no approval; otherwise nothing changes |
| `AppStoreObject.AppStore.ApproveMotion` | client/src/stores/app-store.ts:1089-1148 | keeps the store consistent; recorded exactly when the case, told in plain conditions that no rejected claim escapes, is unapproved and ready and the request in order, and then the approval and the log name the last version and hash; otherwise nothing changes |
| `AppStoreObject.AppStore.RecordExport` | client/src/stores/app-store.ts:1149-1169 | keeps the store consistent; recorded exactly when the case is approved, and then it is ready in the same plain conditions, as one new event that names the approved version; no case changes |
| `AppStoreObject.AppStore.ResetDemo` | client/src/stores/app-store.ts:1174-1241 | keeps the store consistent; only the seed is left, unapproved and locked, and no approval or export is logged |
| `AuthServiceObject.AuthService.IssueTokens` | server/app/api/routes/auth.py:55-70 | a token pair under the current user version and a session row that expires with the refresh token |
| `AuthServiceObject.AuthService.Login` | server/app/api/routes/auth.py:73-110 | keeps the session invariant; tokens exactly for an active user of an active organisation with the right password, both usable at once; a refusal changes nothing |
| `AuthServiceObject.AuthService.RefreshSession` | server/app/api/routes/auth.py:113-157 | keeps the session invariant; tokens exactly for a session that passes all tests, both usable at once, while the presented token is spent for good; a refusal changes nothing and other sessions stay |
| `AuthServiceObject.AuthService.Logout` | server/app/api/routes/auth.py:160-179 | keeps the session invariant; the presented token is not accepted from now on, other sessions stay, and the answer is the same in all cases |
| `AuthServiceObject.AuthService.ChangePassword` | server/app/api/routes/auth.py:189-219 | keeps the session invariant; succeeds exactly for a bearer signed in to an active account who gives the current password and a different new one; then the password is the new one and nothing issued to the user before is accepted; a refusal changes nothing |
| `AuthServiceObject.AuthService.UpdateStatus` | server/app/api/routes/users.py:77-128 | keeps the session invariant; succeeds exactly for an active administrator of the organisation of the account, and not to deactivate the own one; then the account has the status asked for, no other account changes, and after a deactivation nothing issued to it before is accepted; a refusal changes nothing |
| `AuthSafety.HandleKeeps` | server/app/api/routes/auth.py:55-219 | every request keeps the session invariant |
| `AuthSafety.RunKeeps` | server/app/api/routes/auth.py:55-219 | the invariant holds over every run with fresh identifiers |
| `AuthSafety.OneLiveSessionPerLogin` | server/app/api/routes/auth.py:98-157 | two rotation chains from one session that both end un-revoked are the same chain |
| `AuthSafety.RotationIsLinear` | server/app/api/routes/auth.py:98-157 | every session lies on exactly one chain from a login, and no chain meets itself |
| `AuthSafety.RevokedStays` | server/app/api/routes/auth.py:152-178 | a revoked row is never written again, so its revocation time is written once |
| `AuthSafety.RedeemedAtMostOnce` | server/app/api/routes/auth.py:113-157 | a refresh token that was redeemed is refused in every later state |
| `AuthSafety.RefreshAcceptedExactly` | server/app/api/routes/auth.py:140-149 | in every reachable state a genuine refresh token is accepted exactly when its session is live and unexpired and its user and organisation are active; the identity and version tests never decide alone |
| `AuthSafety.OldTokensStayDead` | server/app/api/dependencies.py:63-71 | after a password change or deactivation no access or refresh token issued to that user before is accepted in any later state, reactivation included |
| `AuthSafety.ExpelRevokesAll` | server/app/api/routes/users.py:104-115 | after such a change every session of the user is revoked |
| `AuthAccounts.StatusDoneExactly` | server/app/api/routes/users.py:77-102 | a status request is carried out exactly for an active administrator of the organisation of the account, signed in with a current token, and never to deactivate the own account; it is answered 403 exactly to others who are signed in, and every refusal changes nothing |
| `AuthAccounts.PasswordDoneExactly` | server/app/api/routes/auth.py:189-207 | a password is replaced exactly by the signed-in user of the account who knows the current one and gives another |
| `AuthAccounts.AccountFrame` | server/app/api/routes/users.py:77-128 | whatever the request, accounts neither come nor go, organisation and role stay, status and password change only by a request that may set them, and the token version rises exactly when a password is replaced or an active account deactivated |
| `AuthAccounts.TokensExactly` | server/app/api/routes/auth.py:55-157 | tokens are answered exactly to a login with the right password or a live refresh token of an active account; they are that user's, with the lifetimes configured, and one session is added |
| `AuthAccounts.SessionFrame` | server/app/api/routes/auth.py:113-219 | a session keeps its user and expiry and is revoked exactly by the request that redeems it, logs it out or ends its account |
| `AuthAccounts.AccountsFollowLog` | server/app/api/routes/auth.py:73-219 | after any run every account has the status and the password last set for it by the requests answered |
| `AuthAccounts.LoginExactly` | server/app/api/routes/auth.py:78-96 | after any run a login is answered with tokens exactly for an open account and the password last set for it |
| `AuthAccounts.AccessExactly` | server/app/api/dependencies.py:36-72 | after any run an access token answered earlier is accepted exactly until its lifetime is over, while the account is open, and as long as no password change and no deactivation has come since |
| `AuthAccounts.OnlyAnswered` | server/app/core/security.py:86-131 | no access token is genuine that was not the answer to one of the requests of the run |
| `AuthAccounts.RefreshExactly` | server/app/api/routes/auth.py:113-179 | after any run a refresh token answered earlier can be redeemed exactly until its lifetime is over, while the account is open, and as long as it was not redeemed or logged out and no password change and no deactivation has come since |
| `AuthAccounts.LastAdminStays` | server/app/api/routes/users.py:77-102 | no run of requests takes the last active administrator from an organisation |
| `AuthTabSafety.NextKeeps` | client/src/lib/api/client.ts:127-277 | every step of the tab, the network or the server keeps the invariant that ties the stored session to the token in flight |
| `AuthTabSafety.EachTokenSentOnce` | client/src/lib/api/client.ts:127-203 | in every interleaving of calls, logins, logouts, other clients and lost or failed replies, each refresh token is presented at most once |
| `AuthTabSafety.NeverRefusedAsRotated` | client/src/lib/api/client.ts:127-157 | so no refresh in flight is refused because its token was already rotated: it is refused exactly when its session was revoked without replacement or expired, or its user or organisation is inactive |
| `AuthTabSafety.ReloadResendsExactly` | client/src/lib/api/client.ts:84 | over all continuations: after a page reload some token can come to be presented a second time exactly when the stored token is in flight at the reload |
| `AuthTabSafety.ReloadCanResend` | client/src/lib/api/client.ts:84 | such a state is reached by a login and one call after the access token has expired |
| `AuthTabCalls.AtMostOneRetry` | client/src/lib/api/client.ts:159-203 | until a reload, a call puts at most two requests on the network, both for its own operation, and a second one only after the first was answered by 401 |
| `AuthTabCalls.CallBegins` | client/src/lib/api/client.ts:159-184 | without a session nothing is sent; a live access token is used at once; an expired one leads to one refresh with the stored token, or joins the one under way |
| `AuthTabCalls.ReplyDelivered` | client/src/lib/api/client.ts:187-202 | a first 401 leads to one refresh with the stored token, or joins the one under way; any other reply, or a second 401, ends the call and sends nothing |
| `AuthTabCalls.GrantedCallSends` | client/src/lib/api/client.ts:142-145 | once the refresh a call awaits is granted and delivered and the call resumes, it puts exactly one request on the network, with the access token just granted |
| `AuthTabCalls.FailedRefreshSendsNothing` | client/src/lib/api/client.ts:146-152 | a refresh that fails clears the session and ends every call that awaits it without a request |
| `AuthTabCalls.ExpiredCallAnswered` | client/src/lib/api/client.ts:173-191 | from any reachable state with an expired session and no refresh under way: a call whose refresh is granted, delivered and resumed, and whose request is served while its account is open, puts exactly one request on the network, with the new access token, is answered as done and ends |
| `AuthTabCalls.RefusedCallRetriesOnce` | client/src/lib/api/client.ts:192-199 | a first 401 leads to exactly one more request, with the access token newly granted, and the call ends whatever the answer to it |
| `AuthTabCalls.LoginDelivered` | client/src/lib/api/client.ts:248-255 | a login that is granted stores its tokens with their expiry, and one that is not leaves the session as it is |
| `AuthTabCalls.LogoutClears` | client/src/lib/api/client.ts:265-277 | a logout presents the stored refresh token |
| `AuthTabCalls.LogoutEnds` | client/src/lib/api/client.ts:265-277 | and clears the session however that request ends |
| `DocumentService.StorageService.StageUpload` | server/app/services/storage.py:121-162 | the chunk loop accepts exactly an allowed, non-empty file within the limit with a valid signature, with its true size and digest, and leaves a temporary file in no other case but a cancellation |
| `DocumentService.StorageService.Finalize` | server/app/services/storage.py:209-226 | moves the staged file to its key, or changes nothing when the key is taken |
| `DocumentService.StorageService.SetAside` | server/app/services/storage.py:247-258 | moves a stored file into quarantine under a free name, or changes nothing |
| `DocumentService.StorageService.Restore` | server/app/services/storage.py:260-266 | puts a quarantined file back under its key |
| `DocumentService.StorageService.Purge` | server/app/services/storage.py:268-273 | removes a quarantined file |
| `DocumentService.Session.Insert` | server/app/models/document.py:15-30 | a row is accepted exactly when its size is allowed and no row of its case has its digest |
| `DocumentService.ProcessDocument` | server/app/services/document_processing.py:50-123 | whatever fails, the tables afterwards are untouched, cleared, or hold exactly the extraction result |
| `DocumentService.CreateDocumentMetadata` | server/app/api/routes/documents.py:182-245 | inserts a row without a file, or changes nothing |
| `DocumentService.UploadDocument` | server/app/api/routes/documents.py:253-396 | the steps with their except and finally clauses leave exactly the row, file and staging contents the all-or-nothing description says; a refusal changes nothing; and 409 is answered exactly for a duplicate or for a stored file above the size check of the table |
| `DocumentService.ReprocessDocument` | server/app/api/routes/documents.py:475-521 | touches one document, and only if its file exists; 404 is answered exactly when the identifier is not a row of that organisation and case, 409 exactly when it is one without a file |
| `DocumentService.DeleteDocument` | server/app/api/routes/documents.py:524-565 | row and file go together, come back after an exception, and a refusal changes nothing; 404 is answered exactly when the identifier is not a row of that organisation and case |
| `DocumentsSafety.ProcessingKeepsPages` | server/app/services/document_processing.py:60-122 | however its two commits and the extraction end, stored pages are numbered 1 to the page count and add up to the character count |
| `DocumentsSafety.RequestKeepsPages` | server/app/services/document_processing.py:60-122 | every request keeps that for all documents |
| `DocumentsSafety.RunKeepsPages` | server/app/services/document_processing.py:60-122 | and so does every run of requests, whatever fails |
| `DocumentsSafety.UploadExactly` | server/app/api/routes/documents.py:292-386 | after an upload, files and rows agree exactly when it was not cancelled with a file in staging or without its row, and no commit took effect that reported an error |
| `DocumentsSafety.DeleteExactly` | server/app/api/routes/documents.py:543-564 | after a deletion, files and rows agree exactly when it was not cancelled while the file was set aside, and no commit took effect that reported an error |
| `DocumentsSafety.RequestExactly` | server/app/api/routes/documents.py:182-565 | a request leaves files and rows in agreement exactly when it is clean |
| `DocumentsSafety.RunExactly` | server/app/api/routes/documents.py:182-565 | files and rows agree after every request of a run exactly when every request of it is clean |
| `DocumentsSafety.DeleteUndoesUpload` | server/app/api/routes/documents.py:524-565 | deleting a document just uploaded restores tables and files as they were |
| `DocumentsSafety.LostAcknowledgement` | server/app/api/routes/documents.py:378-381 | a concrete upload into an empty system whose commit takes effect and still raises: the clean-up deletes the file of a committed row |
| `DocumentsSafety.CancelledStaging` | server/app/services/storage.py:160-162 | a concrete upload cancelled while it is read leaves its temporary file in staging |
| `DocumentsSafety.CancelledFlush` | server/app/api/routes/documents.py:341-382 | a concrete upload cancelled while its row is inserted leaves the stored file without a row |
| `DocumentsSafety.CancelledDeletion` | server/app/api/routes/documents.py:544-563 | a deletion cancelled in the session leaves the file in quarantine and its row without a file |
| `DocumentsSafety.OversizeAnsweredAsDuplicate` | server/app/api/routes/documents.py:369-377 | a new file above 50 MiB, which a larger upload limit lets in, is answered as a duplicate |
| `DocumentsIsolation.RequestKeepsKeys` | server/app/api/routes/documents.py:182-565 | however its calls end, a request leaves every stored file named after the organisation, case and identifier of its row |
| `DocumentsIsolation.OthersUntouched` | server/app/api/routes/documents.py:47-66 | a request made for one organisation and case leaves every row, page list and stored file of any other as it was, and adds none there |
| `DocumentsIsolation.ForeignDocumentUntouched` | server/app/api/routes/documents.py:47-66 | a deletion or reprocessing that names a document of another organisation or case changes nothing at all |
| `DocumentsIsolation.RunIsolates` | server/app/api/routes/documents.py:182-565 | over a run nothing of an organisation and case changes unless a request is made for them |
| `DocumentsIsolation.HoldsStay` | server/app/services/storage.py:121-273 | no request touches a file that is staged or in quarantine already |
| `DocumentsIsolation.StoredFrom` | server/app/services/storage.py:121-226 | a stored file is as it was, or the request has just uploaded it: of an accepted kind, with a valid signature, not empty and within the limit |
| `DocumentsIsolation.StoredOnlyByUpload` | server/app/services/storage.py:121-226 | every file stored in a run from an empty system was brought by such an upload to its own organisation and case, with that content |
| `DocumentsIsolation.RowFrom` | server/app/api/routes/documents.py:253-396 | a new row belongs to the organisation and case of its request and tells size and digest of what was uploaded |
| `DocumentsProgress.UploadLandsExactly` | server/app/api/routes/documents.py:253-396 | an upload adds its row exactly when the file is of an accepted kind, with a valid signature, within the limit and read to its end, new in its case and at most 50 MiB, and every call up to the commit works |
| `DocumentsProgress.DeleteLandsExactly` | server/app/api/routes/documents.py:524-565 | a deletion removes a row exactly when it is the one named, of that organisation and case, and every call up to the commit works |
| `DocumentsProgress.ProcessingOutcome` | server/app/services/document_processing.py:60-122 | processing leaves the tables alone, or the row waiting without pages, or the row with status, counts and pages of what was extracted, by which commits landed |
| `DocumentsProgress.UploadProgress` | server/app/api/routes/documents.py:384-396 | the row an upload has added is uploaded only, waiting, or holds what was extracted, by which commits landed |
| `DocumentsProgress.RequestKeepsProgress` | server/app/services/document_processing.py:50-123 | however its calls end, a request leaves exactly the rows without a file as metadata only |

## Left out

- Byte decoding, PDF, DOCX and OCR libraries: a source is what they hand over. For files the workspace writes, decoding
  is modelled as far as the byte budget and the byte-order mark; line ends are written as they are, as on POSIX. `extraction_error`, parser names and the
  wording of warnings are not kept.
- `lower` and `casefold` are parameters, and so is the set of characters `\w` matches; `Upper` covers the ASCII letters of the record tag, to which no other
  character folds.
- The fixed sentences and headings of generated pages are parameters, required to be clean lines that do not look like
  records; the PDF and DOCX writers are left out.
- JWT signing, password hashing, SHA-256 and identifiers: a token is its claims and decodes only if issued, a stored
  password is compared as it is, digests are a parameter, identifiers are fresh. Password strength is not checked.
- Which user row a login finds by e-mail and organisation is an input; creating users and changing an organisation's
  status are left out.
- `restoreSession` appears as the call it makes; it rewrites the stored session with the same tokens.
- Tabs that share or duplicate the session storage: each tab is on its own, other clients use their own tokens.
- Isolation between overlapping server requests: each request is atomic.
- Backend motion routes, HTTP-mode hydration of the store, and audit events of the server.
- Event timestamps, explanations, histories, settings and the selected case of the store, which no gate reads.
- Names of uploaded files and their declared types: whether they are accepted is an input, like the signature check.
- The checks of a document request before its first stored effect are one step that may end it early.
- Compensations succeed: roll-back, deletion, restoring and purging of files do not themselves fail. Directories are
  not modelled, only files.
- `SupabaseStorageService`, the NIM client, scoring by hashed vectors, copilot and strategy texts, user interface.
- Contradictions.FindContradictions: covers grouping and detection; the stored record's wording is left out.
