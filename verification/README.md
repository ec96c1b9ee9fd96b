# Verified models of Bindery's stateful cores

Bindery keeps a library of books and authors, imports them from Audiobookshelf, and adopts files it finds on disk. Five
of its components are small state machines whose promises span whole runs, crashes and other writers. This project
models them in Dafny and proves those promises, together with the scans that pick one match among several.

`dafny verify dfyconfig.toml` checks everything. The model follows the code, branch by branch; where the code and its
comments or intended behaviour differ, it follows the code, and the difference is a lemma.

**Library adoption** (`Adoption*.dfy`). A unit of unmatched files is claimed with a token; each side effect is written
to its row before the next; a failed request is compensated, a dead one recovered from its row. `AdoptionStore` has the
tables and the store's atomic operations, `AdoptionReversal` what one reversal does, `AdoptionRetries` any number of
interrupted ones. `AdoptionHandler` is the handler itself, with a store call that may fail at every point, resting on
the lemmas of `AdoptionCompensation`. `AdoptionMachine` interleaves requests, crashes, recoveries and everybody else;
`AdoptionFrames`, `AdoptionSteps` and `AdoptionReversing` prove its invariant, `AdoptionTraces` draws the conclusions.
`AdoptionRoundTrip` compares a book before an adoption and after its undo.

**Rollback of an Audiobookshelf run** (`Rollback*.dfy`). `RollbackModel` says what the ranked pass does to books,
authors, series, editions and the provenance rows shared by many runs; `RollbackRunner` is the loop with its planning
pass and restores. `RollbackProofs` and `RollbackDeletions` say what survives and what may be deleted,
`RollbackCompleteness` what goes, `RollbackOutcome` which authors and series are gone afterwards, `RollbackTaken` and
`RollbackExposed` the one way another run's book goes, `RollbackSeries` and `RollbackMembers` which series,
memberships and editions go, `RollbackCounts` what the unlinked counter counts.
`RollbackRepeat` compares a second rollback with the first, `RollbackFailures` says when none fails. `RollbackFields`,
`RollbackLinks` and `RollbackRows` follow one row through a rollback, `RollbackStack` through rollbacks of several runs,
with what they do to a value in `RollbackUnwind`. `RollbackLimits` has the concrete runs that break a promise.

**Resumable enumeration** (`Enumerator.dfy`). The debounced checkpoint, the page loop and the run over libraries.

**Upstream merge** (`ConflictValues`, `MergeFields`, `BookMerge`, `AuthorMerge`, `AuthorPlan`, `GuardedMerge`,
`BookIdentity`). Field decisions and conflict rows, optimistic writes under interference, and the ladder that finds an
item's book.

**Telemetry** (`Telemetry.dfy`, `TelemetryInstalls.dfy`, `TelemetryServer.dfy`, `TelemetryUpkeep.dfy`). The per-day
ledger, the installs and when they were first seen, perpetual aggregates, sweeps and backfills.

**Matching** (`Matching`, `AuthorMatcher`, `SeriesPipeline`). Top-two scans in any map order, and the fetch pipeline.

## What turned out not to hold

Each line names an input that breaks the promise and the condition under which it holds.

- Registering a file can insert its row and then fail in the status refresh. The row is on no record, so a reversal that
  finishes leaves it tracked (`LeakedRowStays`, `TornRunLeavesARow`); a refused request leaves a row exactly in
  that case (`AdoptInto`, `torn`).
- Undoing an adoption leaves a book wanted when the adoption had widened a complete one
  (`UndoLeavesTheWidenedBookWanted`), or had completed a skipped one that the undo could not read
  (`UnreadStatusLeavesTheSkippedBookWanted`), and only then (`UndoRestoresStatusUnlessWidened`).
- A rollback removes another run's provenance row when it deletes an edition both runs name (`SharedEditionGoes`,
  `ForeignRowGoesExactlyWhen`). The guard that skips editions of deleted books never applies, as editions come first
  (`NothingDeletedBeforeEditions`).
- The author branch deletes a book that another run names when the run still owns the row it recorded for that book
  although the row names a second book by then (`AuthorBranchDeletesForeignBook`). That is the only way
  (`NamedRowGoesExactlyWhenTaken`, `NamedBookGoesExactlyWhenExposed`).
- Rolling several runs of one item back does not undo them: the runs share one provenance row, owned by the newest, and
  its rollback takes the row away, so the older ones are skipped (`OlderRunIsSkipped`). An unedited field then ends as
  it was before the newest run (`SameItemGoesBackOneRun`).
- Rolling one run back does not undo a field that two of its items changed, as two items of one title do. They are
  undone in the order they were recorded, so the first finds the second's value and leaves it, and the field ends at
  what the first wrote (`FirstItemIsNotUndone`, `TwoItemsAreUndoable`).
- So an unedited field gets its original value back exactly when no skipped entity had changed it and in each run at
  most one entity had (`UneditedComesBack`), unless a replaced value had come back (`ReturnedValueComesBack`). A Calibre
  id is never put back (`CalibreIdStays`).
- A second rollback of the same run can change rows after the first one reported a failure (`RefusedThenRetried`), and
  when two entities put a snapshot back on one row under links that another run took over (`RivalsUndoFurther`). It
  changes nothing exactly when no entity is left to retry (`SecondRollbackChangesNothing`), but for such rivals, which
  can cancel each other out (`RivalsCancelOut`); `SecondRollbackIsIdle` gives a condition on the tables and the run.
- A run without a checkpoint starts at the primary library, so libraries listed before it are never visited
  (`SkipsEarlierLibraries`); everything is covered exactly when those are empty (`EveryLibraryCovered`).
- A release date whose year has more than four digits is lost when a merge applies it (`LongYearEmptiesTheDate`); no
  other field is ever emptied (`MergeEmptiesOnlyLostDates`). An author's sort name is emptied exactly by a rename that
  brings along one that is all space (`BlankSortNameEmpties`, `AuthorMergeEmptiesOnlyBlankSortNames`).
- A relink whose identifier write failed loses the book once its provenance is lost (`UnattachedRelinkMakesASecondBook`),
  and a rollback that puts the item's key on another book takes the item there (`RestoredKeyTakesTheItem`);
  `CreatedBookIsFoundAgain` says over all histories when the book is found.
- A ledger import older than ledger retention recounts its days from the rows it finds (`LateImportUndercounts`,
  `LateImportMovesTheSplit`, `LateImportsGoWrong`); `ImportCountsWhatIsLeft` says when the count is right. A seeded day
  that has to be inserted counts as raised even with count 0 (`SeededZeroCountsAsRaised`, `RaisedDays`), unlike the
  comment on it.

## Model

| member | source | states |
|---|---|---|
| `AdoptionTraces.EveryRowIsRecorded` | internal/api/adoption_adopt.go:204-265 | In every interleaving of adopts, undos, crashes, recoveries and foreign changes, a row a claim inserted is named in the stored record while the claim lives, but for at most one row per claim; none once adopted or undoing; a finished claim leaves at most that row |
| `AdoptionTraces.ReadyRequestIsRecorded` | internal/api/adoption_adopt.go:386-412 | Between two registrations a live adopt has recorded every row it inserted and still owns |
| `AdoptionTraces.StepKeeps` | internal/api/adoption_undo.go:205-230 | Each step of a request, of recovery and of everybody else keeps the invariant behind that result |
| `AdoptionTraces.RunKeeps` | internal/api/adoption_adopt.go:60-121 | The invariant holds after any run of enabled steps |
| `AdoptionReversing.FinishedReversalLeavesLoose` | internal/api/adoption_undo.go:134-138 | When a reversal has gone through its record, the only row of the claim left is the unrecorded one |
| `AdoptionReversing.UntrackKeeps` | internal/api/adoption_undo.go:134-138 | Untracking one recorded row keeps the invariant and leaves no row of that book under that path |
| `AdoptionSteps.CompleteKeeps` | internal/api/adoption_adopt.go:240-267 | Completing stores a record that names every row of the claim, rebuilt from the book when it was created |
| `AdoptionSteps.CreatedBookIsRecordedWhole` | internal/api/adoption_adopt.go:240-267 | The completed record of a created book lists all its rows and no others |
| `AdoptionSteps.ReleasedUndoIsAdopted` | internal/api/adoption_undo.go:46-94 | An undo given up leaves the unit adopted with its record |
| `AdoptionReversing.RecoverKeeps` | internal/api/adoption_undo.go:205-230 | Recovering an abandoned claim leaves no recorded row of it |
| `AdoptionReversal.ReversalUntracksExactlyTheRecord` | internal/api/adoption_undo.go:110-180 | A reversal that finishes removes exactly the recorded rows that still belong to their book |
| `AdoptionReversal.ReversalDeletesOnlyUnusedBook` | internal/api/adoption_undo.go:112-158 | The created book is deleted exactly when no unrecorded file is in it, no other unit refers to it and its recorded fingerprint is unchanged; no other book is |
| `AdoptionReversal.ReversalDeletesOnlyBarrenAuthor` | internal/api/adoption_undo.go:159-178 | The created author is deleted exactly when no book is left under it and no other unit names it |
| `AdoptionReversal.ReversalUnlinksExactlyTheHint` | internal/db/unmatched_units.go:724-754 | The recorded membership is removed, and of the others only those of a deleted book |
| `AdoptionStore.DeletingBooks` | internal/db/migrations/088_unmatched_units.sql:60-62 | Deleting a book takes its files and memberships and clears exactly the references to it |
| `AdoptionStore.DeletingAuthors` | internal/db/migrations/088_unmatched_units.sql:60-62 | The same for an author and the books filed under it |
| `AdoptionReversal.ReversingMovesTheVersion` | internal/api/adoption_undo.go:110-158 | What a reversal changes about a book, its files or its memberships moves the version its fingerprint tells |
| `AdoptionReversal.UntrackAllFiles` | internal/api/adoption_undo.go:134-138 | Untracking a list of rows removes each only while it is still that book's, and edits nothing but book rows |
| `AdoptionRetries.RetriesConverge` | internal/api/adoption_undo.go:103-180 | After any number of interrupted reversals, the one that finishes leaves the same rows as an uninterrupted one and deletes no book or author that one would have kept |
| `AdoptionRetries.RetriedDeletionExactly` | internal/api/adoption_undo.go:112-124 | A retry deletes the created book exactly when it could have gone at the start and no interrupted attempt moved its fingerprint |
| `AdoptionRetries.AttemptsStayAlong` | internal/api/adoption_undo.go:205-230 | Interrupted reversals lose only recorded rows and at most the created book, whose references are then cleared |
| `AdoptionCompensation.StoppedAndReversed` | internal/api/adoption_adopt.go:292-297 | Reversing a stopped registration leaves no inserted row but a leaked one, and for an existing book every other live row as it was |
| `AdoptionCompensation.StoppedAndUnfinished` | internal/api/adoption_adopt.go:292-297 | A reversal that stops keeps the claim, and the stored record names every inserted row left but at most one |
| `AdoptionCompensation.AddedOne` | internal/db/books.go:1066-1072 | Tracking a free path adds exactly that row, whether or not the caller records it |
| `AdoptionCompensation.LeakedRowStays` | internal/db/books.go:1066-1072 | A row whose status refresh failed after its insertion survives every reversal that finishes: for all such inputs |
| `AdoptionCompensation.RefusedAdoptionLeavesARow` | internal/db/books.go:1066-1072 | The compensation of one adoption leaves such a row: a concrete input |
| `AdoptionTraces.TornRunLeavesARow` | internal/api/adoption_adopt.go:386-412 | A whole run of claiming, registering with a failed refresh, reversing and releasing that leaves such a row: a concrete run |
| `AdoptionHandler.Handler.RegisterFile` | internal/db/books.go:1066-1072 | The row is inserted when the path is free, refused when a live book owns it; a failing call leaves it exactly when the status refresh is what failed |
| `AdoptionHandler.Handler.Register` | internal/api/adoption_adopt.go:386-412 | The record names every row added, but for a row whose insertion was followed by a failed refresh; the stored record is at most one row behind |
| `AdoptionHandler.Handler.Reverse` | internal/api/adoption_undo.go:110-180 | The step-by-step reversal is the specified one, or stops after one of its steps |
| `AdoptionHandler.Handler.UntrackRows` | internal/api/adoption_undo.go:134-138 | The untracking loop is the specified fold, or stops at a row that may be gone but not refreshed |
| `AdoptionHandler.Handler.FailAdopt` | internal/api/adoption_adopt.go:292-297 | A failed adopt is fully compensated, or its claim and record are kept |
| `AdoptionHandler.Handler.AdoptInto` | internal/api/adoption_adopt.go:60-121 | Adopting into an existing book ends adopted with every inserted row recorded; refused with every row as before, one row of the book more exactly when its refresh failed, and the claim released unless that write failed; or unfinished with claim and record kept; a request that is not accepted, or names a file that belongs to a book, touches no table; any other in which no call fails is adopted |
| `AdoptionHandler.Handler.AdoptNew` | internal/api/adoption_adopt.go:159-267 | The record calls the book and the author created exactly when the add made them, and keeps an existing book's status; a created book's rows are all on record; no book or author that was there goes, however the request ends |
| `AdoptionCompensation.UndoKeepsWhatWasThere` | internal/api/adoption_undo.go:140-178 | Undoing an adoption deletes no book and no author that was there before it |
| `AdoptionCompensation.UndoGivesBackTheFiles` | internal/api/adoption_undo.go:134-138 | Adopting into an existing book and undoing it leaves the rows of live books as they were and no row more |
| `AdoptionHandler.Handler.Undo` | internal/api/adoption_undo.go:46-94 | Undo returns the unit to pending only with exactly its recorded rows and membership gone, the created book and author deleted exactly when their guards hold, and other claims kept; a refusal touches nothing but the claim; otherwise its recorded rows stay on record; where no call fails an adopted unit is undone |
| `AdoptionHandler.Handler.RecoverStaleClaims` | internal/api/adoption_undo.go:205-230 | Each stale claim ends pending with no recorded row left, or still claimed; only recorded rows and created books and authors go; other units keep their claims; where no call fails each ends pending |
| `AdoptionHandler.Handler.ListFiles` | internal/api/adoption_adopt.go:248-256 | The rebuilt record lists exactly the rows of the created book |
| `AdoptionHandler.Handler.CheckOwnership` | internal/api/adoption_adopt.go:371-382 | An accepted path is free or already the book's |
| `AdoptionRoundTrip.UndoRestoresStatusUnlessWidened` | internal/api/adoption_undo.go:119-151 | Adopting and undoing gives the rows back, and the status exactly unless the adoption widened a complete book, or completed a skipped one whose status the undo could not read; both are left wanted |
| `AdoptionRoundTrip.UndoLeavesTheWidenedBookWanted` | internal/api/adoption_undo.go:119-151 | A complete ebook left wanted in both formats by an audiobook adoption and its undo: a concrete input |
| `AdoptionRoundTrip.UnreadStatusLeavesTheSkippedBookWanted` | internal/api/adoption_undo.go:119-124 | A skipped book left wanted by an undo that could not read it: a concrete input |
| `AdoptionRoundTrip.AdoptingShows` | internal/db/books.go:1324-1400 | After adopting, status and media type are those one refresh derives |
| `RollbackProofs.ForeignRowsAreKeptUnlessShared` | internal/abs/import_rollback.go:241-295 | A committed rollback removes another run's provenance row exactly when it names an edition this run created and owns |
| `RollbackProofs.OneEntityPerExternalIdAgrees` | internal/abs/import_rollback.go:348-392 | With one entity per external id, the rows the run owns name the books it created |
| `RollbackTaken.ForeignRowGoesExactlyWhen` | internal/abs/import_rollback.go:363-392 | Without that assumption: another run's provenance row is removed exactly when it names such an edition, or a book a created author takes |
| `RollbackTaken.NamedRowGoesExactlyWhenTaken` | internal/abs/import_rollback.go:363-392 | A book, author or series that another run's row names is deleted exactly when it is a book a created author takes |
| `RollbackTaken.TakenRowNamesAnother` | internal/abs/import_rollback.go:363-392 | A book is only taken while filed under the author and while the run owns the row it recorded for the book, which names another book by then |
| `RollbackTaken.TakesExactlyOwned` | internal/abs/import_rollback.go:357-392 | A listed book is taken exactly when the run owns that row, unless the row goes with another book of the listing |
| `RollbackExposed.NamedBookGoesExactlyWhenExposed` | internal/abs/import_rollback.go:363-392 | A book another run names is gone after a rollback exactly when, as the authors are reached, it is filed under a created author the run owns and the run owns the row it recorded for the book, which names another one |
| `RollbackProofs.AuthorsComeAfterBooks` | internal/abs/import_rollback.go:145-178 | When the pass reaches the authors, no book the run created is still owned through its row |
| `RollbackProofs.NothingDeletedBeforeEditions` | internal/abs/import_rollback.go:513-521 | No edition is ever skipped for a deleted book, as editions come first |
| `RollbackProofs.SortByRankSorts` | internal/abs/import_rollback.go:1099-1115 | The pass visits every entity once, children before parents |
| `RollbackProofs.SortIsStable` | internal/abs/import_rollback.go:155-157 | Within a rank the recorded order is kept |
| `RollbackProofs.StepsShrink` | internal/abs/import_rollback.go:179-228 | A rollback only ever removes provenance rows |
| `RollbackTaken.ForeignNamedRowsSurvive` | internal/abs/import_rollback.go:340-463 | No book, author or series that another run's provenance row names is deleted |
| `RollbackDeletions.OnlyOwnRowsAreDeleted` | internal/abs/import_rollback.go:551-736 | Every book, author, series or membership missing after a rollback was created, or recorded, by the run |
| `RollbackOutcome.DeletedAuthorLeavesNoBook` | internal/abs/import_rollback.go:348-417 | An author missing after a rollback was created by the run, and no book left is filed under it |
| `RollbackSeries.SeriesGoesExactlyWhenForsaken` | internal/abs/import_rollback.go:551-719 | A series is gone exactly when the run created it and owns its row, or that of the last membership it created, no other run's row names it, and each book in it was put there by a recorded membership or goes as the run's own |
| `RollbackMembers.MembershipGoesExactlyWhenReleased` | internal/abs/import_rollback.go:559-660 | A membership is gone exactly when its series or book is, or the run recorded and owns it and no other run's link holds it |
| `RollbackMembers.EditionGoesExactlyWhenMade` | internal/abs/import_rollback.go:513-550 | An edition is gone exactly when its book is, or the run created it and owns its row |
| `RollbackOutcome.DeletedSeriesHeldOnlyRecordedBooks` | internal/abs/import_rollback.go:606-630 | A series missing after a rollback was created by the run, and each book in it is gone or was put there by a recorded membership |
| `RollbackDeletions.BooksOfLists` | internal/abs/import_rollback.go:348-357 | The listing holds exactly the books of the author |
| `RollbackCompleteness.UnretainedBookIsDeleted` | internal/abs/import_rollback.go:241-295 | A book the run created and owns, and that no other run's row names, is deleted |
| `RollbackCompleteness.UnretainedMembershipIsRemoved` | internal/abs/import_rollback.go:559-660 | A membership the run recorded and owns, and that no other run's link holds, is removed |
| `RollbackOutcome.AuthorGoesExactlyWhenBarren` | internal/abs/import_rollback.go:393-463 | After a rollback an author the run created and owned is gone exactly when no book left is filed under it and no other run's row names it |
| `RollbackRepeat.SecondRollbackChangesNothing` | internal/abs/import_rollback.go:111-228 | After any rollback, failures included, a second one changes no row exactly when no entity is retried: not put back yet, and no key refuses it any more |
| `RollbackRepeat.PassingEntityIsSettled` | internal/abs/import_rollback.go:296-339 | Only an entity whose write was refused is left to retry, where two entities that restore one row do so under the run's own links |
| `RollbackFailures.RollbackNeverFails` | internal/abs/import_rollback.go:320-327 | A rollback reports no failure when no id to put back is held, or put back, by another row and the authors it files books under exist |
| `RollbackFailures.FreeWritePasses` | internal/abs/import_rollback.go:320-327 | An entity of which that holds is not refused, whatever happens to the others |
| `RollbackFailures.SecondRollbackIsIdle` | internal/abs/import_rollback.go:111-145 | Of such a run a second rollback changes no row |
| `RollbackRepeat.PutBackTwice` | internal/abs/import_rollback.go:769-798 | Putting a book snapshot back twice is putting it back once |
| `RollbackRepeat.StepSettles` | internal/abs/import_rollback.go:296-339 | An entity that was processed without failure has nothing left to do |
| `RollbackRepeat.StepKeepsSettled` | internal/abs/import_rollback.go:464-512 | Processing other entities keeps it that way |
| `RollbackFields.PutBackField` | internal/abs/import_rollback.go:857-952 | Each stored field goes back exactly when it still holds the run's value; language up to its normal form |
| `RollbackFields.RestoredField` | internal/abs/import_rollback.go:857-952 | The same for every field of a book or an author, but for the Calibre id, which the row write leaves out |
| `RollbackFields.RestoredIdentifiers` | internal/abs/import_rollback.go:819-855 | A restored author keeps the ids it had but those the run attached, and its primary id; other authors' ids stay |
| `RollbackStack.StackOfRollbacks` | internal/abs/import_rollback.go:296-339 | Rolling a stack of runs back newest first keeps the book or author and unwinds, field by field, exactly the changes whose provenance row no newer run of the stack owns, those of one run in the order they were recorded |
| `RollbackStack.UneditedComesBack` | internal/abs/import_rollback.go:857-952 | An unedited field gets its original value back exactly when every entity that is skipped had left it alone and at most one entity of each run had changed it, unless a replaced value had come back |
| `RollbackUnwind.UneditedUnwinds` | internal/abs/import_rollback.go:857-952 | The rule behind that result, on any stack of changes of one field |
| `RollbackUnwind.ReturnedValueComesBack` | internal/abs/import_rollback.go:873-882 | A field whose replaced value had come back gets the original although a change to it is not unwound |
| `RollbackStack.OwnItemsComeBack` | internal/abs/import_rollback.go:179-205 | Runs that came by items of their own are undone to the start exactly when no two items of one run had changed the field |
| `RollbackStack.SameItemGoesBackOneRun` | internal/db/abs_imports.go:247-258 | Runs of one item share one provenance row, so an unedited field ends as it was before the newest run, and at the original value exactly when the older runs had not changed it |
| `RollbackStack.EditedStays` | internal/abs/import_rollback.go:873-882 | A value that no unwound run left stays in place |
| `RollbackStack.CalibreIdStays` | internal/db/books.go:883-942 | No stack of rollbacks changes the Calibre id, so it is the original one exactly when no run had changed it |
| `RollbackRows.RollbackRestoresRow` | internal/abs/import_rollback.go:296-339 | A rollback puts back on a surviving book or author the snapshots of all entities that still name it, in recorded order, unless a key refuses one |
| `RollbackRows.RollbackRemovesOwnLinks` | internal/abs/import_rollback.go:328-338 | Where the book or author survives and its restore is not refused, exactly the run's own provenance rows of it are gone |
| `RollbackCounts.UnlinkedCountIsRowsRemoved` | internal/abs/import_rollback.go:270-295 | The reported unlinked count is the number of provenance rows removed |
| `RollbackLimits.FirstItemIsNotUndone` | internal/abs/import_upserts.go:1211-1238 | Two items of one run linked to one book, nobody edited it, and its rollback leaves what the first item wrote: a concrete run |
| `RollbackLimits.TwoItemsAreUndoable` | internal/abs/import_rollback.go:111-145 | The run owns both links, no write is refused, and the conditions of the stack results hold |
| `RollbackLimits.RivalsUndoFurther` | internal/abs/import_rollback.go:296-339 | With two snapshots of one row under another run's links a second rollback can still change it: a concrete run |
| `RollbackLimits.RivalsCancelOut` | internal/abs/import_rollback.go:296-339 | Two such snapshots can cancel out, so that an entity is retried and no row changes: a concrete run |
| `RollbackLimits.OlderRunIsSkipped` | internal/abs/import_rollback.go:179-205 | Two runs of one item rolled back: the field ends at what the older run wrote, a concrete run |
| `RollbackLimits.TwoRunsAreUndoable` | internal/abs/import_rollback.go:111-145 | Those two runs share one item's row and meet every condition the stack results ask for |
| `RollbackLimits.RefusedThenRetried` | internal/abs/import_rollback.go:320-327 | A write refused in the first rollback succeeds in a second one: a concrete run |
| `RollbackLimits.SharedEditionGoes` | internal/abs/import_rollback.go:513-550 | A deleted edition takes another run's provenance row with it: a concrete run |
| `RollbackLimits.AuthorBranchDeletesForeignBook` | internal/abs/import_rollback.go:363-392 | With an item pointed at a second book that is gone, the author branch deletes a book another run names, although every row the run owns is recorded: a concrete run |
| `RollbackRunner.Pass.Run` | internal/abs/import_rollback.go:111-767 | The loop over the ranked entities is the specified rollback; the run counts as rolled back when nothing failed |
| `RollbackRunner.Pass.Process` | internal/abs/import_rollback.go:241-757 | Each entity takes the branch of its kind and outcome |
| `RollbackRunner.Pass.CollectAll` | internal/abs/import_rollback.go:158-178 | The planning loop collects the created books and series, memberships and deleting memberships |
| `RollbackRunner.Pass.RollBackCreatedAuthor` | internal/abs/import_rollback.go:340-463 | The counting loop over the author's books, and unlinking or deleting the author |
| `RollbackRunner.Pass.RollBackMembership` | internal/abs/import_rollback.go:559-660 | Unlinking a membership, and deleting the series only with its last recorded one |
| `RollbackRunner.Pass.RemainingSeriesBooks` | internal/abs/import_rollback.go:1077-1092 | Some book remains exactly when a membership in the series is not one the run recorded |
| `RollbackRunner.Pass.HasProvenanceOutsideRun` | internal/abs/import_rollback.go:1042-1056 | True exactly when a row of another run names the local row |
| `RollbackRunner.Pass.HasMatchingProvenanceOutsideRun` | internal/abs/import_rollback.go:1058-1075 | The same for rows of the same external id |
| `RollbackRunner.BookRow.RestoreFrom` | internal/abs/import_rollback.go:769-798 | Field by field restore of the copy; it reports whether a value changed |
| `RollbackRunner.AuthorRow.RestoreFrom` | internal/abs/import_rollback.go:803-817 | The same for an author |
| `RollbackRunner.RollbackIdentifiers` | internal/abs/import_rollback.go:819-855 | Exactly the identifiers attached by the run go, except the author's current id |
| `Enumerator.Enumerator.Enumerate` | internal/abs/enumerator.go:164-318 | A completed pass accepted every item and cleared the checkpoint; an interrupted one leaves at most minItems accepted items beyond the checkpoint, none after a flushed stop; one that nothing cuts completes |
| `Enumerator.Checkpointer.Offer` | internal/abs/enumerator.go:135-144 | A candidate is kept, and written exactly after minItems offers or when the last write is long ago |
| `Enumerator.Checkpointer.Flush` | internal/abs/enumerator.go:146-162 | The pending candidate is written and the counter reset, or nothing changes |
| `Enumerator.Enumerator.ProcessItem` | internal/abs/enumerator.go:240-293 | One item: accepted once the callback took it, then offered as checkpoint |
| `Enumerator.ItemCheckpoint` | internal/abs/enumerator.go:264-293 | A checkpoint after an item resumes no later than the next item, and exactly there when ids are distinct |
| `Enumerator.Importer.Run` | internal/abs/importer.go:308-368 | A run starts at the library of its checkpoint and accepts nothing of earlier ones; one that completes, as it does where nothing is cut, has completed every library from the configured start |
| `Enumerator.Importer.History` | internal/abs/importer.go:344-355 | After any attempts cut short and one that finishes, the accepted items are exactly those of the libraries from the configured start on |
| `Enumerator.LibraryStartIndex` | internal/abs/importer.go:567-578 | The index of the library, and 0 when it is not listed |
| `Enumerator.NormalizedIdsHold` | internal/abs/import_utils.go:148-175 | The normalized list holds the primary library and every listed one, trimmed, and no other |
| `Enumerator.StartsAtFirstLibrary` | internal/abs/importer.go:344-355 | A run without checkpoint starts at the first library exactly when the primary one is not listed behind another |
| `Enumerator.SkipsEarlierLibraries` | internal/abs/importer.go:567-595 | A configuration for which such a run skips a library |
| `Enumerator.EveryLibraryCovered` | internal/abs/importer.go:344-355 | Every item of every library is covered exactly when the libraries before the start are empty |
| `Enumerator.CheckpointStart` | internal/abs/importer.go:580-595 | A stored checkpoint names a library with everything before it complete |
| `MergeFields.RowsDescribeTheStoredBook` | internal/abs/import_conflicts.go:91-111 | Every recorded conflict row names a source whose normalized value is the stored field's, exactly when that value is not a lost date |
| `MergeFields.RowsAreForDisagreements` | internal/abs/import_conflicts.go:29-112 | A row is recorded for a field exactly when both sources have a value and differ, or one has a value and the field has a row; it is open exactly when they differ and nobody has chosen |
| `MergeFields.ItemFillsWhereUpstreamIsSilent` | internal/abs/import_conflicts.go:114-130 | Where upstream has nothing, the book gets the item's description, language or date |
| `MergeFields.SilenceKeepsTheField` | internal/abs/import_conflicts.go:29-112 | A field neither has a say on stays as it is |
| `MergeFields.PreferenceWins` | internal/abs/import_conflicts.go:70-90 | Where both sources have a value a remembered preference decides what is stored, or which date is lost |
| `MergeFields.MergeEmptiesOnlyLostDates` | internal/abs/import_conflicts.go:51-62 | A merge empties a field exactly when the value chosen for it is a date whose year has more than four digits and is not what is stored |
| `MergeFields.MergingAgainChangesNothing` | internal/abs/import_upserts.go:731-755 | Once stored, merging the same record again changes no field, whatever its dates |
| `MergeFields.MergedHolds` | internal/abs/import_conflicts.go:41-111 | After a merge each field holds, in normal form, what was decided for it, exactly when that is not a lost date |
| `MergeFields.LongYearEmptiesTheDate` | internal/abs/metadata_conflicts.go:191-203 | A date with a longer year is lost when applied: the family of inputs that empties a field |
| `ConflictValues.ParseOfFormat` | internal/abs/metadata_conflicts.go:184-203 | A formatted date reads back exactly when its year has four digits |
| `ConflictValues.ParseOfCount` | internal/abs/metadata_conflicts.go:216-225 | A positive count reads back |
| `ConflictValues.AppliedIsStored` | internal/abs/metadata_conflicts.go:141-167 | An applied value compares equal to what is then stored; a date with a longer year leaves none |
| `BookMerge.PlannedRowsDescribe` | internal/abs/import_upserts.go:704-757 | The rows a plan records describe the row it writes, relinked or not |
| `BookMerge.RecordedRowsDescribe` | internal/abs/import_upserts.go:640-688 | With others writing all the while, every conflict row a guarded merge recorded follows a write and describes the row that write left |
| `BookMerge.NoWriteNoRows` | internal/abs/import_upserts.go:753-757 | A plan that writes nothing records no conflict row |
| `BookMerge.PlanningAgainChangesNothing` | internal/abs/import_upserts.go:704-757 | Planning again on the written row changes no field and relinks nothing |
| `BookMerge.BookDraft.PlanConflictField` | internal/abs/import_conflicts.go:16-112 | The decision and the in-place update of one field are the specified ones |
| `BookMerge.BookDraft.Choose` | internal/abs/import_conflicts.go:56-90 | Presence, equality and preference pick the source |
| `BookMerge.BookDraft.Plan` | internal/abs/import_upserts.go:704-757 | The planning loop over the fields, and whether a write is needed |
| `AuthorMerge.ProfileRefreshRules` | internal/models/author.go:467-480 | A refresh never empties a profile field, replaces nothing the user set, never displaces an uncredited value by a credited one, and is idempotent |
| `AuthorMerge.FieldAgain` | internal/abs/metadata_conflicts.go:114-139 | Merging one author field again changes nothing, credited or not |
| `AuthorMerge.AuthorMergeAgainChangesNothing` | internal/abs/import_upserts.go:470-543 | Merging the same upstream author again changes no field |
| `AuthorMerge.AuthorRowsDescribe` | internal/abs/import_conflicts.go:91-111 | Every conflict row of an author merge names a source whose normalized value is the stored field's |
| `AuthorMerge.AuthorRowsAreForDisagreements` | internal/abs/import_conflicts.go:29-112 | An author's row is recorded exactly when uncredited sides differ, or one has a value and the field has a row; it is open exactly when they differ and nobody has chosen |
| `AuthorMerge.UserValueStays` | internal/models/author.go:457-480 | A photo or bio the user set stays, whatever upstream has |
| `AuthorMerge.CreditedNeverDisplacesUncredited` | internal/models/author.go:457-480 | A credited photo or bio never displaces one without credit |
| `AuthorMerge.AuthorPreferenceWins` | internal/abs/import_conflicts.go:70-90 | Where neither value carries a credit and both are present, a remembered preference decides, upstream otherwise |
| `AuthorMerge.AuthorMergeEmptiesOnlyBlankSortNames` | internal/abs/import_upserts.go:482-491 | A merge empties an author field exactly when it is the sort name and a rename brings along one that is all space |
| `AuthorMerge.BlankSortNameEmpties` | internal/abs/import_upserts.go:482-491 | A rename that empties the sort name: a concrete input |
| `AuthorPlan.RecordedAuthorRowsDescribe` | internal/abs/import_upserts.go:412-454 | With others writing all the while, every conflict row a guarded author merge recorded follows a write and describes the author that write left |
| `AuthorPlan.PlannedAuthorRowDescribes` | internal/abs/import_upserts.go:470-543 | The conflict rows an author plan records describe the author it writes, renamed and relinked or not |
| `AuthorPlan.NoAuthorWriteNoRows` | internal/abs/import_upserts.go:540-543 | A plan that writes nothing records no conflict row |
| `AuthorPlan.PlanningAgainChangesNothing` | internal/abs/import_upserts.go:412-543 | Planning the same upstream author on the row a plan writes changes no field, relinks nothing and renames nothing, unless the author or the id became available since |
| `AuthorPlan.PlanDecidesIdentity` | internal/abs/import_upserts.go:491-511 | A free upstream id replaces the author's where that gives way, and is attached to the author where it does not |
| `AuthorPlan.MadeIdentitiesGiveWay` | internal/abs/import_upserts.go:493-511 | Ids made from an Audiobookshelf or Calibre author, and blank ones, give way |
| `AuthorPlan.UnwrittenPlanKeepsTheAuthor` | internal/abs/import_upserts.go:473-543 | A plan that does not write would have changed nothing; one for an author without the item's name does nothing |
| `AuthorPlan.PlanWritesForAReason` | internal/abs/import_upserts.go:512-543 | A plan writes only to change the author or to settle a field nobody credits |
| `AuthorPlan.AttachedKeepsItsIdentity` | internal/abs/import_upserts.go:493-514 | An upstream id is attached only to an author that keeps its own |
| `GuardedMerge.Importer.MergeUpstream` | internal/abs/import_upserts.go:640-688 | With other writers everywhere, at most two guarded writes; what lands was computed from the very row it replaces, and rows are recorded only after it; new identifiers are ids its plans replace, on its row; an id that the write replaced found the row before, unless attaching it failed |
| `GuardedMerge.Importer.Attempt` | internal/abs/import_upserts.go:642-688 | One attempt: plan, the replaced id attached, guarded write, bookkeeping, or a fresh read |
| `BookMerge.RelinkedBookKeepsItsKey` | internal/abs/import_upserts.go:655-662 | When a guarded merge relinked a book, its former id was attached to it before the write, unless that failed |
| `BookMerge.PlanDecidesIdentity` | internal/abs/import_upserts.go:704-728 | The plan takes upstream's id, and its provider if it names one, where no other book has the id; where one has, it does nothing |
| `BookMerge.UnwrittenPlanKeepsTheBook` | internal/abs/import_upserts.go:754-755 | A plan that does not write would have changed nothing |
| `BookMerge.SetsAsideTheReplacedId` | internal/abs/import_upserts.go:690-757 | A plan sets aside the trimmed id of the row exactly when it gives the row another |
| `GuardedMerge.Importer.ReplaceIdentity` | internal/abs/import_upserts.go:1684-1707 | At most three guarded writes, each of the current row with only its identity replaced |
| `BookIdentity.CreatedBookIsFoundAgain` | internal/abs/import_upserts.go:879-937 | After a book was created for an item, and whatever happened between, later imports of the item bind to it and create none exactly when no step parted the two, or the item's live link names it, or no link lives and the book answers to the key again |
| `BookIdentity.BindsWhateverElseMatches` | internal/abs/import_upserts.go:879-937 | An import binds to the book whatever its files and title match exactly when the link or the key finds it |
| `BookIdentity.StepKeepsAnchor` | internal/abs/import_upserts.go:655-682 | Every step keeps the book findable except giving the key up unattached, putting it on another book, pointing the item elsewhere by hand and deleting the book |
| `BookIdentity.RunStands` | internal/abs/import_upserts.go:759-769 | Over any history, rollbacks included, the book answers to the item's key, gave it up, is covered by another book with it or is gone, as the steps say |
| `BookIdentity.RestoredKeyTakesTheItem` | internal/db/book_identifiers.go:45-64 | The item's key put on another book: without its link the item binds to that one |
| `BookIdentity.FilesComeBeforeTitle` | internal/abs/import_upserts.go:938-973 | Without link and key, a book that tracks the item's files comes before one of its title |
| `BookIdentity.LinkedItemBindsAgain` | internal/abs/import_upserts.go:885-910 | An import that wrote its link binds the item to the same book next time |
| `BookIdentity.AttachedKeySurvivesRelink` | internal/abs/import_upserts.go:917-937 | A created book whose key was attached is found by it after a relink and a lost link |
| `BookIdentity.PreservedKeySurvivesRelink` | internal/abs/import_upserts.go:655-662 | So is one whose key was set aside just before the relink |
| `BookIdentity.UnattachedRelinkMakesASecondBook` | internal/abs/import_upserts.go:759-769 | A relink whose identifier write failed, followed by a lost link, makes a second row |
| `BookIdentity.BookImporter.Upsert` | internal/abs/import_upserts.go:870-1057 | The item's live link decides, then its key, its files, its title; else a book is made under its key, unless the title is ambiguous and making one is not allowed; the link may be left unwritten |
| `BookIdentity.BookImporter.ByAnyForeignId` | internal/db/book_identifiers.go:45-64 | A book's own id wins over an attached one |
| `Matching.PickAuthor` | internal/abs/import_author_matcher.go:247-276 | Picks an author exactly when it has the automatic weight and is a full point ahead of every other, for every walk of the map |
| `Matching.DominantExactMatch` | internal/abs/import_author_matcher.go:679-707 | Picks exactly the candidate ten works and twice ahead of every counted rival, for every walk of the map |
| `Matching.SelectSeries` | internal/abs/import_hardcover_series.go:328-346 | Picks exactly the candidate ten points ahead of every other, for every walk of the map |
| `Matching.MatchCatalogBook` | internal/abs/import_hardcover_series.go:277-326 | Picks exactly the eligible volume that alone has the best score |
| `AuthorMatcher.Matcher.FindByName` | internal/abs/import_author_matcher.go:117-281 | A lone exact author is the answer whatever else matches, several go to review; without one the same holds of normalized names, then of the evidence |
| `AuthorMatcher.Matcher.Tier` | internal/abs/import_author_matcher.go:117-160 | A tier accepts exactly the authors so named or trusted by alias, and tells which |
| `AuthorMatcher.CollectEvidence` | internal/abs/import_author_matcher.go:196-246 | The best evidence per author, credited to an alias only where no direct name is as strong |
| `AuthorMatcher.TiersIgnoreOrder` | internal/abs/import_author_matcher.go:117-204 | What a tier accepts does not depend on the order of authors and aliases |
| `AuthorMatcher.EvidenceIgnoresOrder` | internal/abs/import_author_matcher.go:205-246 | Nor does the best evidence of each author |
| `AuthorMatcher.Matcher.AddAuthor` | internal/abs/import_author_matcher.go:54-65 | A known author is refreshed in place, a new one added once |
| `AuthorMatcher.Matcher.AddAlias` | internal/abs/import_author_matcher.go:67-81 | An alias is kept once per author up to case and space |
| `SeriesPipeline.BestHitIsKept` | internal/abs/import_hardcover_series.go:139-151 | Of the hits of each catalog the highest score is kept, the earliest on a tie |
| `SeriesPipeline.HitsInOrder` | internal/abs/import_hardcover_series.go:88-110 | The hits come query after query, in the order each search gave them |
| `SeriesPipeline.MatchSeries` | internal/abs/import_hardcover_series.go:88-153 | Search, deduplicated fetch in any order, and scoring give the candidates and failure flag of a plain loop, and the pick follows from them |
| `SeriesPipeline.PipelineIsSerial` | internal/abs/import_hardcover_series.go:110-151 | Scoring from the fetched catalogs equals fetching per hit |
| `SeriesPipeline.FetchAll` | internal/abs/import_hardcover_series.go:119-137 | Every completion order leaves the same catalogs and flag |
| `SeriesPipeline.DistinctSeries` | internal/abs/import_hardcover_series.go:110-117 | Exactly the mentioned series, each once |
| `Telemetry.VersionSplitSumsToActiveDay` | cmd/telemetry-server/main.go:388-494 | In every reachable state each day's version counts sum to its active_day |
| `Telemetry.NewInstallsNeverFall` | cmd/telemetry-server/main.go:511-522 | No step lowers a day's new_installs |
| `Telemetry.CumulativeNeverFalls` | cmd/telemetry-server/main.go:537-580 | The all-time total never falls, whatever retention removes |
| `Telemetry.OneTickHeals` | cmd/telemetry-server/main.go:706-729 | One committed snapshot within seven days makes a day's aggregates exact for good, except for imports after ledger retention |
| `Telemetry.ImportCountsWhatIsLeft` | cmd/telemetry-server/main.go:596-700 | In every history an import recounts a day from the rows retention left and its own: active_day is exact exactly when those name every recorded install, and the version split is theirs |
| `Telemetry.LedgerWithinRecord` | cmd/telemetry-server/main.go:1298-1331 | In every history a day's ledger rows are of installs recorded for it |
| `TelemetryUpkeep.LateImportUndercounts` | cmd/telemetry-server/main.go:596-700 | A ping, a sweep after retention and an import of another install: two were recorded, one is counted |
| `TelemetryUpkeep.LateImportMovesTheSplit` | cmd/telemetry-server/main.go:596-700 | The same with the recorded install under another version: the count is right, the version split is not |
| `TelemetryUpkeep.LateImportsGoWrong` | cmd/telemetry-server/main.go:596-700 | Such installs and versions exist, so both histories do |
| `Telemetry.LedgerHoldsTheRecord` | cmd/telemetry-server/main.go:1298-1331 | Within ledger retention a day's rows are exactly the last accepted ping of each install, then imported rows |
| `Telemetry.SeedAndSweepInReachableStates` | cmd/telemetry-server/main.go:192-214 | The sweep removes only silent installs, and boot-time seeding adds no row, in every reachable state |
| `Telemetry.AlwaysBacked` | cmd/telemetry-server/main.go:1298-1331 | Every install has a ledger row on the day it was last seen |
| `Telemetry.ReimportAddsNothing` | cmd/telemetry-server/main.go:596-700 | Importing the same file again adds no row |
| `Telemetry.InsertedCountIsLedgerGrowth` | cmd/telemetry-server/main.go:596-700 | The reported number of rows is the growth of the ledger |
| `Telemetry.TickDerivesEachDay` | cmd/telemetry-server/main.go:706-729 | A tick derives every day whose snapshot commits from the ledger, whatever the other days do |
| `Telemetry.VersionCountsSum` | cmd/telemetry-server/main.go:363-386 | The counts per version sum to the number of rows |
| `TelemetryUpkeep.BackfillRaisesEachDay` | cmd/telemetry-server/main.go:511-522 | Each day ends at the larger of its value and the installs first seen on it; a row appears only where somebody was |
| `TelemetryUpkeep.BackfillCoversEveryInstall` | cmd/telemetry-server/main.go:511-522 | After a backfill the all-time total is at least the number of installs |
| `TelemetryUpkeep.RaisedDays` | cmd/telemetry-server/main.go:537-580 | A seeded day counts as raised exactly when its value rises, or it had no row and is seeded with 0 |
| `TelemetryUpkeep.SeededZeroCountsAsRaised` | cmd/telemetry-server/main.go:537-580 | Such a day with count 0: reported as raised, still 0 |
| `TelemetryUpkeep.SeedingCoversEveryInstall` | cmd/telemetry-server/main.go:297-323 | Seeding an empty ledger gives every install its one row, on the day it was last seen, and no other; any row at all and nothing is seeded |
| `TelemetryUpkeep.SweepKeepsWhatIsRecent` | cmd/telemetry-server/main.go:192-214 | No ledger row of the last 400 days goes, and only installs silent for 60 days, of a dev build or with a misshapen id do |
| `TelemetryInstalls.FirstSeenIsTheArrival` | cmd/telemetry-server/main.go:1305-1314 | In every history an install's first_seen is the time of the accepted ping that found it absent, and it has been there since |
| `TelemetryInstalls.LastSeenIsTheLastPing` | cmd/telemetry-server/main.go:1305-1314 | Its last_seen and version are those of its last accepted ping |
| `TelemetryInstalls.FirstSeenOnCountsNewcomers` | cmd/telemetry-server/main.go:404-408 | The installs first seen on a day are those present that came in on it |
| `TelemetryInstalls.PingMovesNoInstall` | cmd/telemetry-server/main.go:1305-1314 | A ping counts an absent install on its own day and moves nobody else |
| `TelemetryInstalls.SnapshotCountsNewcomers` | cmd/telemetry-server/main.go:511-522 | A snapshot leaves the number of the day's newcomers, or the larger one it found |
| `TelemetryInstalls.NewInstallsCountArrivals` | cmd/telemetry-server/main.go:511-580 | In every history a day's new_installs is at most the number of times an install came in on it, or a seeded count |
| `TelemetryServer.Server.HandlePing` | cmd/telemetry-server/main.go:1239-1342 | An accepted ping upserts the install and its row of the day; anything else changes nothing |
| `TelemetryServer.Server.ReadVersionCounts` | cmd/telemetry-server/main.go:363-386 | The loop counts the rows of each version |
| `TelemetryServer.Server.SnapshotDayRows` | cmd/telemetry-server/main.go:388-494 | One day's aggregates replaced; new_installs only raised |
| `TelemetryServer.Server.AggregateTick` | cmd/telemetry-server/main.go:706-729 | Today and the seven days before, each on its own |
| `TelemetryServer.Server.ReconcileNewInstallsSeed` | cmd/telemetry-server/main.go:537-580 | Seeded days are raised, never lowered, and the raised ones counted |
| `TelemetryServer.Server.LoadLedgerBackfill` | cmd/telemetry-server/main.go:596-700 | The import, the re-derivation of its days, the lowered epoch and the done marker |

## Left out

- RollbackProofs.ForeignRowsAreKeptUnlessShared: assumes that rows the run owns name the books it created under those ids; `OneEntityPerExternalIdAgrees` derives that from one entity per external id, and `RollbackTaken.ForeignRowGoesExactlyWhen` is the result without it.
- RollbackExposed.NamedBookGoesExactlyWhenExposed: said where the book that the row names is not exposed itself; `RollbackTaken.NamedRowGoesExactlyWhenTaken` is the result without that.
- RollbackRepeat.SecondRollbackChangesNothing: assumes recorded local ids are not 0 and stored media types not empty, which every committed write ensures, and that no two entities of the run restore one row under links that both belong to other runs by then, where `RivalsCancelOut` shows it fails.
- RollbackStack.StackOfRollbacks: no id to put back on the row is held by another row that is still there by then; authors that a newer run created under such an id are not looked at, books are.
- AdoptionTraces.EveryRowIsRecorded: recovery of one claim is one step and only of requests that are gone; series hints, removal of created books and library scans appear only as other actors' changes or not at all.
- AdoptionHandler.Handler.AdoptNew: the add of a book is one arbitrary step, whether it fails or not, and rows are compared with the state it left; a request that dies right after it leaves a book nobody recorded.
- AdoptionRoundTrip.UndoRestoresStatusUnlessWidened: nobody else touches the book between the adoption and its undo, and all paths are new.
- GuardedMerge.Importer.MergeUpstream: what a plan reads beside its row (conflict rows, other books' ids, aliases) is an arbitrary value read during the attempt; identifiers that others attach or remove meanwhile are not modelled.
- AuthorPlan.RecordedAuthorRowsDescribe: the variant alias kept on a rename, whose failure is only logged, and the matching of the author with the item's name are not part of the plan.
- Telemetry.OneTickHeals: operations commit at nondecreasing times, and imports later than ledger retention are excluded.
- SeriesPipeline.MatchSeries: a context cancelled during the fan-out, which would leave catalogs unfetched.
- Matching.PickAuthor: weights and scores come from name and title comparison, which is not part of this model.
- AdoptionStore: the removal of a manual series created by a series hint, file sizes, the derived path columns and paths that vanished from disk.
- Filesystem checks, library roots and path remapping: only whether the paths were accepted.
- The scanner's reconcile of units, which may set an old adopted unit back to pending or drop a unit.
- HTTP handlers, status texts, progress messages, logging, dry runs, the rollback preview and review resolution.
- Store failures inside a rollback other than unique and foreign key conflicts.
- Clean-up of descriptions, language codes and rating texts: arbitrary functions with the laws the merge needs (idempotent, insensitive to surrounding space, ratings read back).
- Time of day in release dates, 64-bit overflow of counts, and Unicode case folding beyond ASCII.
- Telemetry: features, operating system and deployment columns, the rate limiter, the start-up migrations, and day keys that match the day pattern without being calendar days.
- Importing one mode per history: real and dry runs share a checkpoint key, and their mixing is not modelled.
- Enumeration: a detail fetch that returns another item's id.
