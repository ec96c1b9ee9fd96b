// Any number of interrupted reversals of one adoption, each going by the record then stored, followed by one that
// finishes, compared with a single reversal that is never interrupted.

module AdoptionRetries {
  import opened AdoptionStore
  import opened AdoptionReversal

  function RecordOf(w: World, unit: Id): Record { if unit in w.units then w.units[unit].record else NO_RECORD }

  /** One interrupted reversal: whether the prior status could be read, and where it stopped. */
  datatype Try = Try(readable: bool, stop: Stop)

  function Attempt(w: World, unit: Id, t: Try): World {
    if StopFits(t.stop, w, RecordOf(w, unit)) then PartlyReversed(w, unit, RecordOf(w, unit), t.readable, t.stop) else w
  }

  function AttemptAll(w: World, unit: Id, tries: seq<Try>): World {
    if tries == [] then w else Attempt(AttemptAll(w, unit, tries[..|tries| - 1]), unit, tries[|tries| - 1])
  }

  function Finish(w: World, unit: Id, readable: bool): World { Reversed(w, unit, RecordOf(w, unit), readable) }

  /** The fingerprint was taken from an earlier state of the created book. */
  predicate FingerprintIsPast(w: World, r: Record) {
    r.fingerprint.Some? && r.createdBook in w.books ==> r.fingerprint.value <= w.books[r.createdBook].version
  }

  // ----- what interrupted reversals keep -----

  ghost predicate SameOtherRecords(w0: World, w: World, unit: Id) {
    && w.units.Keys == w0.units.Keys
    && forall u :: u in w0.units && u != unit ==> w.units[u].record == w0.units[u].record
  }

  ghost predicate BooksGrew(w0: World, w: World) {
    forall b :: b in w.books ==>
      b in w0.books && w.books[b].author == w0.books[b].author && w.books[b].version >= w0.books[b].version
  }

  /** Only recorded rows went. */
  ghost predicate RowsOnly(w0: World, w: World, rows: seq<Registered>) {
    && WithoutRows(w.files, rows) == WithoutRows(w0.files, rows)
    && forall p :: p in w.files ==> p in w0.files && w.files[p] == w0.files[p]
  }

  /** Only the created book may have gone, and then its references are cleared. */
  ghost predicate OnlyCreatedBookGone(w0: World, w: World, unit: Id) {
    var r0 := RecordOf(w0, unit);
    || (RecordOf(w, unit) == r0 && w.books.Keys == w0.books.Keys)
    || (&& RecordOf(w, unit) == ForgetBook(r0, r0.createdBook) && MayDeleteBook(w0, unit, r0)
        && w.books.Keys == w0.books.Keys - {r0.createdBook})
  }

  ghost predicate Along(w0: World, w: World, unit: Id) {
    && unit in w0.units && w.authors == w0.authors
    && SameOtherRecords(w0, w, unit) && BooksGrew(w0, w)
    && RowsOnly(w0, w, RecordOf(w0, unit).registered) && OnlyCreatedBookGone(w0, w, unit)
  }

  lemma UntrackingKeepsOthers(w: World, rows: seq<Registered>, done: nat)
    requires done <= |rows|
    ensures RowsOnly(w, UntrackAll(w, rows[..done]), rows)
  {
    UntrackAllFiles(w, rows[..done]);
    assert forall r :: r in rows[..done] ==> r in rows;
  }

  lemma TornRowKeepsOthers(w: World, w1: World, rows: seq<Registered>, done: nat)
    requires done < |rows| && RowsOnly(w, w1, rows) && Owns(w1.files, rows[done])
    ensures RowsOnly(w, DropRow(w1, rows[done]), rows)
  {
    assert rows[done] in rows;
  }

  lemma RowsStopAlong(w0: World, w: World, unit: Id, done: nat, torn: bool, readable: bool)
    requires Along(w0, w, unit) && StopFits(InRows(done, torn), w, RecordOf(w, unit))
    ensures Along(w0, PartlyReversed(w, unit, RecordOf(w, unit), readable, InRows(done, torn)), unit)
  {
    var r := RecordOf(w, unit);
    var w1 := ReverseLink(w, r.link);
    var w2 := UntrackAll(w1, r.registered[..done]);
    ReverseLinkKeepsFiles(w, r.link);
    UntrackAllFiles(w1, r.registered[..done]);
    UntrackingKeepsOthers(w1, r.registered, done);
    assert RowsOnly(w, w2, r.registered);
    if torn && Owns(w2.files, r.registered[done]) {
      TornRowKeepsOthers(w, w2, r.registered, done);
    }
  }

  lemma RestoreStaysAlong(w0: World, w: World, unit: Id, readable: bool)
    requires Along(w0, w, unit)
    ensures Along(w0, Restored(w, RecordOf(w, unit), readable), unit)
  {
    var r := RecordOf(w, unit);
    RestoredFiles(w, r, readable);
    var w' := Restored(w, r, readable);
    assert WithoutRows(w'.files, r.registered) == w'.files;
  }

  /** What may be deleted later could have been deleted at the start. */
  lemma MayDeleteBookFromStart(w0: World, w: World, unit: Id)
    requires Along(w0, w, unit) && FingerprintIsPast(w0, RecordOf(w0, unit))
    requires MayDeleteBook(w, unit, RecordOf(w, unit))
    ensures RecordOf(w, unit) == RecordOf(w0, unit) && MayDeleteBook(w0, unit, RecordOf(w0, unit))
  {
    var r := RecordOf(w0, unit);
    forall p | p in w0.files && w0.files[p].book == r.createdBook && Registered(p, r.createdBook) !in r.registered
      ensures p in w.files && w.files[p] == w0.files[p]
    {
      assert p in WithoutRows(w0.files, r.registered);
      assert p in WithoutRows(w.files, r.registered);
    }
  }

  lemma BookStopAlong(w0: World, w: World, unit: Id, readable: bool)
    requires Along(w0, w, unit) && FingerprintIsPast(w0, RecordOf(w0, unit)) && !WasUsed(w, RecordOf(w, unit))
    ensures Along(w0, RemoveCreatedBook(Restored(w, RecordOf(w, unit), readable), unit, RecordOf(w, unit)), unit)
  {
    var r := RecordOf(w, unit);
    RestoreStaysAlong(w0, w, unit, readable);
    AfterBookRemoval(w, unit, r, readable);
    RestoredFiles(w, r, readable);
    var w1 := Restored(w, r, readable);
    if r.createdBook > 0 && r.createdBook in w.books && BookIsOnlyOurs(w1, unit, r.createdBook) {
      RestoredDecidesBook(w, unit, r, readable);
      MayDeleteBookFromStart(w0, w, unit);
      DeletingOwnBookAlong(w0, w1, unit);
    }
  }

  lemma DeletingOwnBookAlong(w0: World, w: World, unit: Id)
    requires Along(w0, w, unit) && RecordOf(w, unit) == RecordOf(w0, unit)
             && MayDeleteBook(w0, unit, RecordOf(w0, unit))
    requires w.books.Keys == w0.books.Keys && BookIsOnlyOurs(w, unit, RecordOf(w0, unit).createdBook)
    ensures Along(w0, DeleteBook(w, RecordOf(w0, unit).createdBook), unit)
  {
  }

  lemma AttemptStaysAlong(w0: World, w: World, unit: Id, t: Try)
    requires Along(w0, w, unit) && FingerprintIsPast(w0, RecordOf(w0, unit))
    ensures Along(w0, Attempt(w, unit, t), unit)
  {
    if StopFits(t.stop, w, RecordOf(w, unit)) {
      match t.stop
      case Untouched =>
      case InRows(done, torn) => RowsStopAlong(w0, w, unit, done, torn, t.readable);
      case AfterRestore => RestoreStaysAlong(w0, w, unit, t.readable);
      case AfterBook => BookStopAlong(w0, w, unit, t.readable);
    }
  }

  lemma {:induction false} AttemptsStayAlong(w: World, unit: Id, tries: seq<Try>)
    requires unit in w.units && FingerprintIsPast(w, RecordOf(w, unit))
    ensures Along(w, AttemptAll(w, unit, tries), unit)
  {
    if tries != [] {
      AttemptsStayAlong(w, unit, tries[..|tries| - 1]);
      AttemptStaysAlong(w, AttemptAll(w, unit, tries[..|tries| - 1]), unit, tries[|tries| - 1]);
    }
  }

  lemma MayDeleteAuthorFromStart(w0: World, w: World, unit: Id)
    requires Along(w0, w, unit) && FingerprintIsPast(w0, RecordOf(w0, unit))
    requires MayDeleteAuthor(w, unit, RecordOf(w, unit))
    ensures MayDeleteAuthor(w0, unit, RecordOf(w0, unit))
  {
    var r0, r := RecordOf(w0, unit), RecordOf(w, unit);
    forall b | b in w0.books && w0.books[b].author == r0.createdAuthor
      ensures b == r0.createdBook && MayDeleteBook(w0, unit, r0)
    {
      if b in w.books {
        assert b == r.createdBook && MayDeleteBook(w, unit, r);
        MayDeleteBookFromStart(w0, w, unit);
      }
    }
  }

  /**
   * Main result: however often a reversal was interrupted, the one that finishes leaves the same rows tracked as a
   * single uninterrupted reversal, and deletes no book or author that the uninterrupted one would have kept.
   */
  lemma RetriesConverge(w: World, unit: Id, tries: seq<Try>, readable: bool, readableAtOnce: bool)
    requires unit in w.units && FingerprintIsPast(w, RecordOf(w, unit))
    ensures var retried, atOnce := Finish(AttemptAll(w, unit, tries), unit, readable), Finish(w, unit, readableAtOnce);
            && retried.files == atOnce.files == WithoutRows(w.files, RecordOf(w, unit).registered)
            && atOnce.books.Keys <= retried.books.Keys <= w.books.Keys
            && atOnce.authors <= retried.authors <= w.authors
  {
    var w1 := AttemptAll(w, unit, tries);
    var r, r1 := RecordOf(w, unit), RecordOf(w1, unit);
    AttemptsStayAlong(w, unit, tries);
    ReversalUntracksExactlyTheRecord(w, unit, r, readableAtOnce);
    ReversalUntracksExactlyTheRecord(w1, unit, r1, readable);
    ReversalDeletesOnlyUnusedBook(w, unit, r, readableAtOnce);
    ReversalDeletesOnlyUnusedBook(w1, unit, r1, readable);
    ReversalDeletesOnlyBarrenAuthor(w, unit, r, readableAtOnce);
    ReversalDeletesOnlyBarrenAuthor(w1, unit, r1, readable);
    if MayDeleteBook(w1, unit, r1) { MayDeleteBookFromStart(w, w1, unit); }
    if MayDeleteAuthor(w1, unit, r1) { MayDeleteAuthorFromStart(w, w1, unit); }
  }

  /**
   * A finishing retry still deletes the created book exactly when it could have gone at the start and the interrupted
   * attempts neither deleted it already nor moved its fingerprint (untracking its own rows does move it).
   */
  lemma RetriedDeletionExactly(w: World, unit: Id, tries: seq<Try>, readable: bool)
    requires unit in w.units && FingerprintIsPast(w, RecordOf(w, unit)) && RecordOf(w, unit).createdBook in w.books
    ensures var r, w1 := RecordOf(w, unit), AttemptAll(w, unit, tries);
            r.createdBook !in Finish(w1, unit, readable).books <==>
            MayDeleteBook(w, unit, r) && (r.createdBook in w1.books ==> !WasUsed(w1, r))
  {
    var w1 := AttemptAll(w, unit, tries);
    var r, r1 := RecordOf(w, unit), RecordOf(w1, unit);
    AttemptsStayAlong(w, unit, tries);
    ReversalDeletesOnlyUnusedBook(w1, unit, r1, readable);
    if MayDeleteBook(w1, unit, r1) { MayDeleteBookFromStart(w, w1, unit); }
  }
}
