// Reversing an adoption: what one reversal does, where it may stop, and what any number of interrupted reversals
// followed by one that finishes comes to.

module AdoptionReversal {
  import opened Common
  import opened AdoptionStore

  // ----- one reversal -----

  /** The created book was changed since the adoption was completed. */
  predicate WasUsed(w: World, r: Record) {
    && r.createdBook > 0 && r.fingerprint.Some? && r.createdBook in w.books
    && Fingerprint(w, r.createdBook) != r.fingerprint
  }

  /** The adoption went into an existing book that was skipped before. */
  predicate AdoptedSkipped(r: Record) { r.createdBook == 0 && r.bookId > 0 && r.prior == Some(Skipped) }

  /** The status before untracking; the read may fail, and the restore is then not attempted. */
  function StatusBefore(w: World, r: Record, readable: bool): Option<Status> {
    if AdoptedSkipped(r) && readable && r.bookId in w.books then Some(w.books[r.bookId].status) else None
  }

  function Touch(w: World, b: Id): World {
    if b in w.books then w.(books := w.books[b := w.books[b].(version := w.books[b].version + 1)]) else w
  }

  /** Remove the unchanged membership the adoption added; the book's links are part of its fingerprint. */
  function ReverseLink(w: World, link: Option<SeriesLink>): World {
    if link.Some? && link.value.series != 0 && link.value.book != 0 && link.value in w.links
    then Touch(w.(links := w.links - {link.value}), link.value.book) else w
  }

  function UntrackAll(w: World, rows: seq<Registered>): World {
    if rows == [] then w else Untrack(UntrackAll(w, rows[..|rows| - 1]), rows[|rows| - 1])
  }

  function RestoreSkipped(w: World, r: Record, before: Option<Status>): World {
    if AdoptedSkipped(r) && before == Some(Imported) && r.bookId in w.books && w.books[r.bookId].status == Wanted
    then
      var b := w.books[r.bookId];
      w.(books := w.books[r.bookId := b.(status := Skipped, version := b.version + 1)])
    else w
  }

  function FilesReversed(w: World, r: Record): World { UntrackAll(ReverseLink(w, r.link), r.registered) }

  predicate HasFiles(w: World, b: Id) { exists p :: p in w.files && w.files[p].book == b }

  predicate BookIsOnlyOurs(w: World, unit: Id, b: Id) { !HasFiles(w, b) && !BookReferencedElsewhere(w, b, unit) }

  function RemoveCreatedBook(w: World, unit: Id, r: Record): World {
    if r.createdBook > 0 && BookIsOnlyOurs(w, unit, r.createdBook) then DeleteBook(w, r.createdBook) else w
  }

  predicate AuthorIsOnlyOurs(w: World, unit: Id, a: Id) { !HasBooks(w, a) && !AuthorReferencedElsewhere(w, a, unit) }

  function RemoveCreatedAuthor(w: World, unit: Id, r: Record): World {
    if r.createdAuthor > 0 && AuthorIsOnlyOurs(w, unit, r.createdAuthor) then DeleteAuthor(w, r.createdAuthor) else w
  }

  function Restored(w: World, r: Record, readable: bool): World {
    RestoreSkipped(FilesReversed(w, r), r, StatusBefore(w, r, readable))
  }

  /** A reversal that finishes. */
  function Reversed(w: World, unit: Id, r: Record, readable: bool): World {
    var w1 := Restored(w, r, readable);
    if WasUsed(w, r) then w1 else RemoveCreatedAuthor(RemoveCreatedBook(w1, unit, r), unit, r)
  }

  /** Where a reversal may stop: within the rows (one may be gone with its book not refreshed), or after a step. */
  datatype Stop = Untouched | InRows(done: nat, torn: bool) | AfterRestore | AfterBook

  predicate StopFits(s: Stop, w: World, r: Record) {
    match s
    case Untouched => true
    case InRows(done, torn) => if torn then done < |r.registered| else done <= |r.registered|
    case AfterRestore => true
    case AfterBook => !WasUsed(w, r)
  }

  /** What a reversal that stopped has done. */
  function PartlyReversed(w: World, unit: Id, r: Record, readable: bool, s: Stop): World
    requires StopFits(s, w, r)
  {
    match s
    case Untouched => w
    case InRows(done, torn) =>
      var w1 := UntrackAll(ReverseLink(w, r.link), r.registered[..done]);
      if torn && Owns(w1.files, r.registered[done]) then DropRow(w1, r.registered[done]) else w1
    case AfterRestore => Restored(w, r, readable)
    case AfterBook => RemoveCreatedBook(Restored(w, r, readable), unit, r)
  }

  // ----- files -----

  /** The tables of files without the recorded rows, each only while it is still that book's. */
  function WithoutRows(files: map<Path, File>, rows: seq<Registered>): map<Path, File> {
    map p | p in files && Registered(p, files[p].book) !in rows :: files[p]
  }

  /** The steps that only change book rows: same ids, same authors, versions never lower, nothing else touched. */
  ghost predicate BooksEdited(w: World, w': World) {
    && w'.books.Keys == w.books.Keys && w'.units == w.units && w'.authors == w.authors
    && forall b :: b in w.books ==> w'.books[b].author == w.books[b].author && w'.books[b].version >= w.books[b].version
  }

  lemma {:induction false} UntrackAllFiles(w: World, rows: seq<Registered>)
    ensures UntrackAll(w, rows).files == WithoutRows(w.files, rows)
    ensures BooksEdited(w, UntrackAll(w, rows)) && UntrackAll(w, rows).links == w.links
  {
    if rows != [] {
      var front, last := rows[..|rows| - 1], rows[|rows| - 1];
      UntrackAllFiles(w, front);
      assert rows == front + [last];
      WithoutOneMore(w.files, front, last);
    }
  }

  lemma WithoutOneMore(files: map<Path, File>, rows: seq<Registered>, r: Registered)
    ensures var some := WithoutRows(files, rows);
            WithoutRows(files, rows + [r]) == if Owns(some, r) then some - {r.path} else some
  {
  }

  lemma ReverseLinkKeepsFiles(w: World, link: Option<SeriesLink>)
    ensures ReverseLink(w, link).files == w.files && BooksEdited(w, ReverseLink(w, link))
  {
  }

  lemma RestoredFiles(w: World, r: Record, readable: bool)
    ensures Restored(w, r, readable).files == WithoutRows(w.files, r.registered)
    ensures BooksEdited(w, Restored(w, r, readable))
  {
    ReverseLinkKeepsFiles(w, r.link);
    UntrackAllFiles(ReverseLink(w, r.link), r.registered);
  }

  lemma RemoveCreatedBookKeepsFiles(w: World, unit: Id, r: Record)
    ensures RemoveCreatedBook(w, unit, r).files == w.files
  {
  }

  lemma RemoveCreatedAuthorKeeps(w: World, unit: Id, r: Record)
    ensures RemoveCreatedAuthor(w, unit, r).files == w.files && RemoveCreatedAuthor(w, unit, r).books == w.books
    ensures RemoveCreatedAuthor(w, unit, r).links == w.links
  {
    if !HasBooks(w, r.createdAuthor) {
      var gone := set b | b in w.books && w.books[b].author == r.createdAuthor;
      assert gone == {};
      assert w.books - gone == w.books;
    }
  }

  /** A reversal that finishes removes exactly the recorded rows that still belong to their book. */
  lemma ReversalUntracksExactlyTheRecord(w: World, unit: Id, r: Record, readable: bool)
    ensures Reversed(w, unit, r, readable).files == WithoutRows(w.files, r.registered)
  {
    RestoredFiles(w, r, readable);
    var w1 := Restored(w, r, readable);
    RemoveCreatedBookKeepsFiles(w1, unit, r);
    RemoveCreatedAuthorKeeps(RemoveCreatedBook(w1, unit, r), unit, r);
  }

  /** The membership the adoption recorded, if it names a series and a book. */
  predicate Recorded(r: Record, l: SeriesLink) { r.link == Some(l) && l.series != 0 && l.book != 0 }

  /** A reversal that finishes removes the recorded membership, and of the other ones only those of a deleted book. */
  lemma ReversalUnlinksExactlyTheHint(w: World, unit: Id, r: Record, readable: bool, l: SeriesLink)
    ensures var w' := Reversed(w, unit, r, readable);
            && (l in w'.links ==> l in w.links && !Recorded(r, l))
            && (l in w.links && !Recorded(r, l) && (l.book in w.books ==> l.book in w'.books) ==> l in w'.links)
  {
    var w1 := Restored(w, r, readable);
    RestoredLinks(w, r, readable);
    RestoredFiles(w, r, readable);
    RemoveCreatedBookLinks(w1, unit, r, l);
    RemoveCreatedAuthorKeeps(RemoveCreatedBook(w1, unit, r), unit, r);
    assert Recorded(r, l) ==> l !in w1.links;
  }

  lemma RestoredLinks(w: World, r: Record, readable: bool)
    ensures Restored(w, r, readable).links == ReverseLink(w, r.link).links
  {
    UntrackAllFiles(ReverseLink(w, r.link), r.registered);
  }

  lemma RemoveCreatedBookLinks(w: World, unit: Id, r: Record, l: SeriesLink)
    ensures var w' := RemoveCreatedBook(w, unit, r);
            && (l in w'.links ==> l in w.links)
            && (l in w.links && (l.book in w.books ==> l.book in w'.books) ==> l in w'.links)
  {
  }

  /** The book, its files and its memberships are as they were. */
  ghost predicate SameBook(w: World, w': World, b: Id)
    requires b in w.books && b in w'.books
  {
    && w'.books[b] == w.books[b]
    && (forall p :: p in w.files && w.files[p].book == b ==> p in w'.files && w'.files[p] == w.files[p])
    && forall l :: l in w.links && l.book == b ==> l in w'.links
  }

  /** A book whose version is the same is the same. */
  ghost predicate VersionTells(w: World, w': World) {
    && w'.books.Keys == w.books.Keys
    && forall b :: b in w.books ==>
         && w'.books[b].version >= w.books[b].version
         && (w'.books[b].version == w.books[b].version ==> SameBook(w, w', b))
  }

  lemma {:induction false} UntrackingTells(w: World, rows: seq<Registered>)
    ensures VersionTells(w, UntrackAll(w, rows))
  {
    if rows != [] {
      var w1 := UntrackAll(w, rows[..|rows| - 1]);
      UntrackingTells(w, rows[..|rows| - 1]);
      UntrackingOneTells(w1, rows[|rows| - 1]);
      TellsOnward(w, w1, UntrackAll(w, rows));
    }
  }

  lemma UntrackingOneTells(w: World, r: Registered)
    ensures VersionTells(w, Untrack(w, r))
  {
  }

  /**
   * Whatever a reversal does to a book, to its files or to its memberships short of deleting it moves the book's
   * version, so that a later reversal of the same claim can tell.
   */
  lemma ReversingMovesTheVersion(w: World, r: Record, readable: bool)
    ensures VersionTells(w, Restored(w, r, readable))
  {
    var w1, w2 := ReverseLink(w, r.link), FilesReversed(w, r);
    UnlinkingTells(w, r.link);
    UntrackingTells(w1, r.registered);
    TellsOnward(w, w1, w2);
    SkippingTells(w2, r, StatusBefore(w, r, readable));
    TellsOnward(w, w2, Restored(w, r, readable));
  }

  lemma TellsOnward(w: World, w1: World, w2: World)
    requires VersionTells(w, w1) && VersionTells(w1, w2)
    ensures VersionTells(w, w2)
  {
  }

  lemma UnlinkingTells(w: World, link: Option<SeriesLink>)
    ensures VersionTells(w, ReverseLink(w, link))
  {
  }

  lemma SkippingTells(w: World, r: Record, before: Option<Status>)
    ensures VersionTells(w, RestoreSkipped(w, r, before))
  {
  }

  // ----- what a reversal may delete -----

  /** No recorded row aside, the book has no file, and no other unit refers to it, and it is as the adoption left it. */
  ghost predicate MayDeleteBook(w: World, unit: Id, r: Record) {
    && r.createdBook > 0 && r.createdBook in w.books && AsAdopted(w, r)
    && (forall p :: p in w.files && w.files[p].book == r.createdBook ==> Registered(p, r.createdBook) in r.registered)
    && forall u :: u in w.units && u != unit ==>
         w.units[u].record.bookId != r.createdBook && w.units[u].record.createdBook != r.createdBook
  }

  /** The created book, if it is still there, has the version that was recorded when its adoption was completed. */
  predicate AsAdopted(w: World, r: Record) {
    r.createdBook > 0 && r.createdBook in w.books && r.fingerprint.Some? ==>
      w.books[r.createdBook].version == r.fingerprint.value
  }

  lemma RestoredDecidesBook(w: World, unit: Id, r: Record, readable: bool)
    requires r.createdBook > 0
    ensures BookIsOnlyOurs(Restored(w, r, readable), unit, r.createdBook) <==>
            && (forall p :: p in w.files && w.files[p].book == r.createdBook ==>
                  Registered(p, r.createdBook) in r.registered)
            && !BookReferencedElsewhere(w, r.createdBook, unit)
  {
    RestoredFiles(w, r, readable);
    var w1 := Restored(w, r, readable);
    if HasFiles(w1, r.createdBook) {
      var p :| p in w1.files && w1.files[p].book == r.createdBook;
      assert p in w.files && Registered(p, w.files[p].book) !in r.registered;
    }
    forall p | p in w.files && w.files[p].book == r.createdBook && Registered(p, r.createdBook) !in r.registered
      ensures HasFiles(w1, r.createdBook)
    {
      assert p in w1.files && w1.files[p].book == r.createdBook;
    }
  }

  /** A reversal that finishes deletes the created book exactly when nobody else holds or used it, and no other book. */
  lemma ReversalDeletesOnlyUnusedBook(w: World, unit: Id, r: Record, readable: bool)
    ensures Reversed(w, unit, r, readable).books.Keys ==
            if MayDeleteBook(w, unit, r) then w.books.Keys - {r.createdBook} else w.books.Keys
  {
    RestoredFiles(w, r, readable);
    if r.createdBook > 0 { RestoredDecidesBook(w, unit, r, readable); }
    RemoveCreatedAuthorKeeps(RemoveCreatedBook(Restored(w, r, readable), unit, r), unit, r);
  }

  /** The created author goes when it keeps no book (the created one aside, if that goes) and no other unit names it. */
  ghost predicate MayDeleteAuthor(w: World, unit: Id, r: Record) {
    && r.createdAuthor > 0 && AsAdopted(w, r)
    && (forall b :: b in w.books && w.books[b].author == r.createdAuthor ==>
          b == r.createdBook && MayDeleteBook(w, unit, r))
    && forall u :: u in w.units && u != unit ==> w.units[u].record.createdAuthor != r.createdAuthor
  }

  lemma AfterBookRemoval(w: World, unit: Id, r: Record, readable: bool)
    requires !WasUsed(w, r)
    ensures var w2 := RemoveCreatedBook(Restored(w, r, readable), unit, r);
            && w2.authors == w.authors
            && w2.books.Keys == (if MayDeleteBook(w, unit, r) then w.books.Keys - {r.createdBook} else w.books.Keys)
            && (forall b :: b in w2.books ==> w2.books[b].author == w.books[b].author)
            && (AuthorReferencedElsewhere(w2, r.createdAuthor, unit) <==>
                AuthorReferencedElsewhere(w, r.createdAuthor, unit))
  {
    RestoredFiles(w, r, readable);
    if r.createdBook > 0 { RestoredDecidesBook(w, unit, r, readable); }
    var w1 := Restored(w, r, readable);
    var w2 := RemoveCreatedBook(w1, unit, r);
    assert w1.units == w.units;
    forall u | u in w.units
      ensures u in w2.units && w2.units[u].record.createdAuthor == w.units[u].record.createdAuthor
    {
    }
    assert w2.units.Keys == w.units.Keys;
  }

  lemma ReversalDeletesOnlyBarrenAuthor(w: World, unit: Id, r: Record, readable: bool)
    ensures Reversed(w, unit, r, readable).authors ==
            if MayDeleteAuthor(w, unit, r) then w.authors - {r.createdAuthor} else w.authors
  {
    RestoredFiles(w, r, readable);
    if !WasUsed(w, r) {
      AfterBookRemoval(w, unit, r, readable);
      var w2 := RemoveCreatedBook(Restored(w, r, readable), unit, r);
      if HasBooks(w2, r.createdAuthor) {
        var b :| b in w2.books && w2.books[b].author == r.createdAuthor;
        assert b in w.books && (b != r.createdBook || !MayDeleteBook(w, unit, r));
      }
      forall b | && b in w.books && w.books[b].author == r.createdAuthor
                 && !(b == r.createdBook && MayDeleteBook(w, unit, r))
        ensures HasBooks(w2, r.createdAuthor)
      {
        assert b in w2.books && w2.books[b].author == r.createdAuthor;
      }
    }
  }
}
