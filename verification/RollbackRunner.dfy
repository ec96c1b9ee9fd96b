// The rollback pass itself: the planning loop, the loop over the ranked entities, and the branches that update the
// tables. Each method is proved against the step functions of RollbackModel.

module RollbackRunner {
  import opened Common
  import opened Text
  import opened RollbackModel
  import opened RollbackProofs

  // ----- putting a snapshot back, field by field -----

  method RestoreField<T(==)>(current: T, before: T, after: T, wasChanged: bool) returns (value: T, changed: bool)
    ensures value == Restore(current, before, after)
    ensures changed == (wasChanged || value != current)
  {
    value, changed := current, wasChanged;
    if current == after {
      if current != before { changed := true; }
      value := before;
    }
  }

  method RestoreLanguageField(norm: string -> string, current: string, before: string, after: string, wasChanged: bool)
    returns (value: string, changed: bool)
    ensures value == RestoreLanguage(norm, current, before, after)
    ensures changed == (wasChanged || value != current)
  {
    value, changed := current, wasChanged;
    if norm(current) == norm(after) {
      var normal := norm(before);
      if current != normal { changed := true; }
      value := normal;
    }
  }

  /** The in-memory copy of a book row. */
  class BookRow {
    var book: Book

    constructor (b: Book)
      ensures book == b
    {
      book := b;
    }

    method RestoreIdentity(before: Book, after: Book) returns (changed: bool)
      modifies this
      ensures book == old(book).(
                foreignId := Restore(old(book).foreignId, before.foreignId, after.foreignId),
                authorId := Restore(old(book).authorId, before.authorId, after.authorId),
                title := Restore(old(book).title, before.title, after.title),
                sortTitle := Restore(old(book).sortTitle, before.sortTitle, after.sortTitle),
                originalTitle := Restore(old(book).originalTitle, before.originalTitle, after.originalTitle),
                description := Restore(old(book).description, before.description, after.description),
                imageUrl := Restore(old(book).imageUrl, before.imageUrl, after.imageUrl))
      ensures changed == (book != old(book))
    {
      var foreignId, c0 := RestoreField(book.foreignId, before.foreignId, after.foreignId, false);
      var authorId, c1 := RestoreField(book.authorId, before.authorId, after.authorId, c0);
      var title, c2 := RestoreField(book.title, before.title, after.title, c1);
      var sortTitle, c3 := RestoreField(book.sortTitle, before.sortTitle, after.sortTitle, c2);
      var originalTitle, c4 := RestoreField(book.originalTitle, before.originalTitle, after.originalTitle, c3);
      var description, c5 := RestoreField(book.description, before.description, after.description, c4);
      var imageUrl, c6 := RestoreField(book.imageUrl, before.imageUrl, after.imageUrl, c5);
      book := book.(foreignId := foreignId, authorId := authorId, title := title, sortTitle := sortTitle,
                    originalTitle := originalTitle, description := description, imageUrl := imageUrl);
      changed := c6;
    }

    method RestoreCatalogue(before: Book, after: Book) returns (changed: bool)
      modifies this
      ensures book == old(book).(
                releaseDate := Restore(old(book).releaseDate, before.releaseDate, after.releaseDate),
                genres := Restore(old(book).genres, before.genres, after.genres),
                averageRating := Restore(old(book).averageRating, before.averageRating, after.averageRating),
                ratingsCount := Restore(old(book).ratingsCount, before.ratingsCount, after.ratingsCount),
                monitored := Restore(old(book).monitored, before.monitored, after.monitored),
                status := Restore(old(book).status, before.status, after.status),
                anyEditionOk := Restore(old(book).anyEditionOk, before.anyEditionOk, after.anyEditionOk),
                selectedEditionId :=
                  Restore(old(book).selectedEditionId, before.selectedEditionId, after.selectedEditionId))
      ensures changed == (book != old(book))
    {
      var releaseDate, c0 := RestoreField(book.releaseDate, before.releaseDate, after.releaseDate, false);
      var genres, c1 := RestoreField(book.genres, before.genres, after.genres, c0);
      var averageRating, c2 := RestoreField(book.averageRating, before.averageRating, after.averageRating, c1);
      var ratingsCount, c3 := RestoreField(book.ratingsCount, before.ratingsCount, after.ratingsCount, c2);
      var monitored, c4 := RestoreField(book.monitored, before.monitored, after.monitored, c3);
      var status, c5 := RestoreField(book.status, before.status, after.status, c4);
      var anyEditionOk, c6 := RestoreField(book.anyEditionOk, before.anyEditionOk, after.anyEditionOk, c5);
      var edition, c7 := RestoreField(book.selectedEditionId, before.selectedEditionId, after.selectedEditionId, c6);
      book := book.(releaseDate := releaseDate, genres := genres, averageRating := averageRating,
                    ratingsCount := ratingsCount, monitored := monitored, status := status,
                    anyEditionOk := anyEditionOk, selectedEditionId := edition);
      changed := c7;
    }

    method RestoreMedia(norm: string -> string, before: Book, after: Book) returns (changed: bool)
      modifies this
      ensures book == old(book).(
                language := RestoreLanguage(norm, old(book).language, before.language, after.language),
                mediaType := Restore(old(book).mediaType, before.mediaType, after.mediaType),
                narrator := Restore(old(book).narrator, before.narrator, after.narrator),
                durationSeconds := Restore(old(book).durationSeconds, before.durationSeconds, after.durationSeconds),
                asin := Restore(old(book).asin, before.asin, after.asin),
                calibreId := Restore(old(book).calibreId, before.calibreId, after.calibreId),
                metadataProvider := Restore(old(book).metadataProvider, before.metadataProvider,
                                            after.metadataProvider),
                lastMetadataRefreshAt :=
                  Restore(old(book).lastMetadataRefreshAt, before.lastMetadataRefreshAt, after.lastMetadataRefreshAt))
      ensures changed == (book != old(book))
    {
      var language, c0 := RestoreLanguageField(norm, book.language, before.language, after.language, false);
      var mediaType, c1 := RestoreField(book.mediaType, before.mediaType, after.mediaType, c0);
      var narrator, c2 := RestoreField(book.narrator, before.narrator, after.narrator, c1);
      var seconds, c3 := RestoreField(book.durationSeconds, before.durationSeconds, after.durationSeconds, c2);
      var asin, c4 := RestoreField(book.asin, before.asin, after.asin, c3);
      var calibreId, c5 := RestoreField(book.calibreId, before.calibreId, after.calibreId, c4);
      var provider, c6 := RestoreField(book.metadataProvider, before.metadataProvider, after.metadataProvider, c5);
      var at, c7 := RestoreField(book.lastMetadataRefreshAt, before.lastMetadataRefreshAt,
                                 after.lastMetadataRefreshAt, c6);
      book := book.(language := language, mediaType := mediaType, narrator := narrator, durationSeconds := seconds,
                    asin := asin, calibreId := calibreId, metadataProvider := provider, lastMetadataRefreshAt := at);
      changed := c7;
    }

    /** Only fields that still hold what the run left go back; the result says whether any value changed. */
    method RestoreFrom(norm: string -> string, before: Book, after: Book) returns (changed: bool)
      modifies this
      ensures book == RestoreBook(norm, old(book), before, after)
      ensures changed == (book != old(book))
    {
      var identity := RestoreIdentity(before, after);
      var catalogue := RestoreCatalogue(before, after);
      var media := RestoreMedia(norm, before, after);
      changed := identity || catalogue || media;
    }
  }

  class AuthorRow {
    var author: Author

    constructor (a: Author)
      ensures author == a
    {
      author := a;
    }

    method RestoreFrom(before: Author, after: Author) returns (changed: bool)
      modifies this
      ensures author == RestoreAuthor(old(author), before, after)
      ensures changed == (author != old(author))
    {
      var foreignId, c0 := RestoreField(author.foreignId, before.foreignId, after.foreignId, false);
      var name, c1 := RestoreField(author.name, before.name, after.name, c0);
      var sortName, c2 := RestoreField(author.sortName, before.sortName, after.sortName, c1);
      var description, c3 := RestoreField(author.description, before.description, after.description, c2);
      var imageUrl, c4 := RestoreField(author.imageUrl, before.imageUrl, after.imageUrl, c3);
      var note, c5 := RestoreField(author.disambiguation, before.disambiguation, after.disambiguation, c4);
      var provider, c6 := RestoreField(author.metadataProvider, before.metadataProvider, after.metadataProvider, c5);
      var at, c7 :=
        RestoreField(author.lastMetadataRefreshAt, before.lastMetadataRefreshAt, after.lastMetadataRefreshAt, c6);
      author := Author(foreignId, name, sortName, description, imageUrl, note, provider, at);
      changed := c7;
    }
  }

  // ----- identifiers -----

  function DroppedSoFar(ids: map<string, Id>, author: Id, before: seq<string>, after: seq<string>, primary: string)
    : map<string, Id>
  {
    map f | f in ids && !(ids[f] == author && Dropped(f, before, after, primary)) :: ids[f]
  }

  lemma ListedOneMore(f: string, ids: seq<string>, n: nat)
    requires n < |ids|
    ensures ListedTrimmed(f, ids[..n + 1]) <==> ListedTrimmed(f, ids[..n]) || Trim(ids[n]) == f
  {
    if ListedTrimmed(f, ids[..n]) {
      var i :| 0 <= i < n && Trim(ids[..n][i]) == f;
      assert Trim(ids[..n + 1][i]) == f;
    }
    if Trim(ids[n]) == f { assert Trim(ids[..n + 1][n]) == f; }
    if ListedTrimmed(f, ids[..n + 1]) && Trim(ids[n]) != f {
      var i :| 0 <= i < n + 1 && Trim(ids[..n + 1][i]) == f;
      assert Trim(ids[..n][i]) == f;
    }
  }

  method TrimmedSet(ids: seq<string>) returns (known: set<string>)
    ensures forall f :: f in known <==> f != "" && ListedTrimmed(f, ids)
  {
    known := {};
    for n := 0 to |ids|
      invariant forall f :: f in known <==> f != "" && ListedTrimmed(f, ids[..n])
    {
      var f := Trim(ids[n]);
      forall g ensures ListedTrimmed(g, ids[..n + 1]) <==> ListedTrimmed(g, ids[..n]) || f == g {
        ListedOneMore(g, ids, n);
      }
      if f != "" { known := known + {f}; }
    }
    assert ids[..|ids|] == ids;
  }

  lemma DropOne(ids: map<string, Id>, author: Id, before: seq<string>, after: seq<string>, primary: string, n: nat)
    requires n < |after|
    ensures var f := Trim(after[n]);
            var drop := f != "" && !ListedTrimmed(f, before) && Lower(f) != Lower(Trim(primary));
            var sofar := DroppedSoFar(ids, author, before, after[..n], primary);
            DroppedSoFar(ids, author, before, after[..n + 1], primary) ==
            if drop && f in sofar && sofar[f] == author then sofar - {f} else sofar
  {
    var f := Trim(after[n]);
    var sofar := DroppedSoFar(ids, author, before, after[..n], primary);
    var next := DroppedSoFar(ids, author, before, after[..n + 1], primary);
    forall g ensures ListedTrimmed(g, after[..n + 1]) <==> ListedTrimmed(g, after[..n]) || f == g {
      ListedOneMore(g, after, n);
    }
    assert forall g :: g != f ==> (g in next <==> g in sofar);
  }

  /** Detach the identifiers the run attached, unless one of them is now the author's own id. */
  method RollbackIdentifiers(ids: map<string, Id>, author: Id, primary: string,
                             e: Entity) returns (kept: map<string, Id>)
    requires e.snapshot.OfAuthor?
    ensures kept == DropIdentifiers(ids, author, primary, e)
  {
    if e.snapshot.was.identifiers.None? || e.snapshot.became.identifiers.None? { return ids; }
    var before, after := e.snapshot.was.identifiers.value, e.snapshot.became.identifiers.value;
    var existedBefore := TrimmedSet(before);
    var current := Trim(primary);
    kept := ids;
    for n := 0 to |after|
      invariant kept == DroppedSoFar(ids, author, before, after[..n], primary)
    {
      DropOne(ids, author, before, after, primary, n);
      var f := Trim(after[n]);
      if f == "" || f in existedBefore || Lower(f) == Lower(current) { continue; }
      if f in kept && kept[f] == author { kept := kept - {f}; }
    }
    assert after[..|after|] == after;
  }

  // ----- the pass -----

  /** One rollback in progress: the tables, the sets collected up front, and the counters. */
  class Pass {
    const run: Id
    const norm: string -> string
    /** The order in which the store lists books. */
    const bookOrder: seq<Id>

    var shelf: Shelf
    var deletedBooks: set<Id>
    var unlinked: nat
    var failed: nat
    var rolledBack: bool

    var createdBooks: map<Id, Entity>
    var createdSeries: set<Id>
    var identitySeries: set<Id>
    var memberships: map<Id, set<Id>>
    var deletingMembership: map<Id, Id>

    constructor (run: Id, norm: string -> string, bookOrder: seq<Id>, s: Shelf)
      ensures this.run == run && this.norm == norm && this.bookOrder == bookOrder && shelf == s
      ensures Progress() == Begin(s) && Collected(NO_PLAN) && !rolledBack
    {
      this.run, this.norm, this.bookOrder, shelf := run, norm, bookOrder, s;
      deletedBooks, unlinked, failed, rolledBack := {}, 0, 0, false;
      createdBooks, createdSeries, identitySeries, memberships, deletingMembership := map[], {}, {}, map[], map[];
    }

    function Progress(): Work reads this { Work(shelf, deletedBooks, unlinked, failed) }

    predicate HasMembership(series: Id, book: Id) reads this { series in memberships && book in memberships[series] }

    /** The collected sets are those of the plan. */
    ghost predicate Collected(p: Plan)
      reads this
    {
      && createdBooks == p.created && createdSeries == p.createdSeries && identitySeries == p.identitySeries
      && deletingMembership == p.lastMembership
      && forall s: Id, b: Id :: HasMembership(s, b) <==> (s, b) in p.memberships
    }

    method Collect(e: Entity, ghost p: Plan)
      requires Collected(p)
      modifies this`createdBooks, this`createdSeries, this`identitySeries, this`memberships, this`deletingMembership
      ensures Collected(Noted(p, e))
    {
      if e.key.kind == BookKind && e.outcome == Created && e.local != 0 { createdBooks := createdBooks[e.local := e]; }
      if e.key.kind != SeriesKind || e.local == 0 { return; }
      if e.outcome == Created { createdSeries := createdSeries + {e.local}; }
      if e.bookId > 0 {
        var books := if e.local in memberships then memberships[e.local] else {};
        memberships := memberships[e.local := books + {e.bookId}];
        if e.outcome == Created && e.id > (if e.local in deletingMembership then deletingMembership[e.local] else 0) {
          deletingMembership := deletingMembership[e.local := e.id];
        }
      } else {
        identitySeries := identitySeries + {e.local};
      }
    }

    method CollectAll(es: seq<Entity>)
      requires Collected(NO_PLAN)
      modifies this`createdBooks, this`createdSeries, this`identitySeries, this`memberships, this`deletingMembership
      ensures Collected(PlanOf(es))
    {
      for n := 0 to |es|
        invariant Collected(PlanOf(es[..n]))
      {
        assert es[..n + 1][..n] == es[..n];
        Collect(es[n], PlanOf(es[..n]));
      }
      assert es[..|es|] == es;
    }

    // ----- questions about provenance -----

    method HasProvenanceOutsideRun(kind: Kind, local: Id) returns (outside: bool)
      ensures outside == HasOutside(shelf, kind, local, run)
    {
      var links := RowsByLocal(shelf, kind, local);
      while links != {}
        invariant links <= RowsByLocal(shelf, kind, local)
        invariant forall k :: k in RowsByLocal(shelf, kind, local) && k !in links ==> shelf.prov[k].run == Some(run)
      {
        var k :| k in links;
        if shelf.prov[k].run != Some(run) { return true; }
        links := links - {k};
      }
      outside := false;
    }

    method HasMatchingProvenanceOutsideRun(e: Entity) returns (outside: bool)
      ensures outside == HasMatchingOutside(shelf, e, run)
    {
      var links := RowsByLocal(shelf, e.key.kind, e.local);
      while links != {}
        invariant links <= RowsByLocal(shelf, e.key.kind, e.local)
        invariant forall k :: k in RowsByLocal(shelf, e.key.kind, e.local) && k !in links ==>
                    k.external != e.key.external || shelf.prov[k].run == Some(run)
      {
        var k :| k in links;
        links := links - {k};
        if k.external != e.key.external { continue; }
        if shelf.prov[k].run != Some(run) { return true; }
      }
      outside := false;
    }

    /** How many books would stay in the series once the run's own memberships are gone. */
    method RemainingSeriesBooks(series: Id, ghost p: Plan) returns (remaining: nat)
      requires Collected(p)
      ensures remaining > 0 <==> KeepsOtherBooks(Ctx(run, p, bookOrder), shelf, series)
    {
      var listed := set m | m in shelf.members && m.0 == series;
      var pending := listed;
      remaining := 0;
      while pending != {}
        invariant pending <= listed
        invariant remaining > 0 <==> exists m :: m in listed && m !in pending && m !in p.memberships
      {
        var m :| m in pending;
        assert HasMembership(m.0, m.1) <==> m in p.memberships;
        pending := pending - {m};
        if HasMembership(series, m.1) { continue; }
        remaining := remaining + 1;
      }
    }

    // ----- store writes -----

    method UnlinkExternal(k: Key)
      modifies this`shelf, this`unlinked
      ensures Progress() == Unlink(old(Progress()), k)
    {
      shelf := UnlinkKey(shelf, k);
      unlinked := unlinked + 1;
    }

    method UnlinkByLocal(kind: Kind, local: Id)
      modifies this`shelf, this`unlinked
      ensures Progress() == UnlinkAll(old(Progress()), kind, local)
    {
      unlinked := unlinked + |RowsByLocal(shelf, kind, local)|;
      shelf := UnlinkLocal(shelf, kind, local);
    }

    method DeleteRunBook(b: Id)
      modifies this`shelf, this`unlinked, this`deletedBooks
      ensures Progress() == RemoveBook(old(Progress()), b)
    {
      shelf := DeleteBook(shelf, b);
      UnlinkByLocal(BookKind, b);
      deletedBooks := deletedBooks + {b};
    }

    // ----- one branch per kind of entity -----

    ghost function Context(p: Plan): Ctx { Ctx(run, p, bookOrder) }

    method RollBackCreatedBook(ghost p: Plan, e: Entity, owned: bool)
      requires e.key.kind == BookKind && owned == Owned(shelf, run, e)
      modifies this`shelf, this`unlinked, this`deletedBooks
      ensures Progress() == BookCreated(Context(p), old(Progress()), e)
    {
      if !owned { return; }
      var retain := HasProvenanceOutsideRun(e.key.kind, e.local);
      if retain { UnlinkExternal(e.key); } else { DeleteRunBook(e.local); }
    }

    method UnlinkOwned(ghost p: Plan, e: Entity, owned: bool)
      requires owned == Owned(shelf, run, e)
      modifies this`shelf, this`unlinked
      ensures Progress() == UnlinkIfOwned(Context(p), old(Progress()), e)
    {
      if owned { UnlinkExternal(e.key); }
    }

    method RestoreBookEntity(ghost p: Plan, e: Entity, owned: bool)
      requires e.snapshot.OfBook? && owned == Owned(shelf, run, e)
      modifies this`shelf, this`unlinked, this`failed
      ensures Progress() == BookRestored(norm, Context(p), old(Progress()), e)
    {
      if e.local !in shelf.books { return; }
      var stored := shelf.books[e.local];
      var row := new BookRow(stored);
      var changed := row.RestoreFrom(norm, e.snapshot.before, e.snapshot.after);
      if changed {
        if WriteRefused(e.local, row.book) {
          failed := failed + 1;
          return;
        }
        shelf := shelf.(books := shelf.books[e.local := Stored(norm, stored, row.book)]);
      }
      UnlinkOwned(p, e, owned);
    }

    /** The store's unique and foreign keys. */
    predicate WriteRefused(id: Id, b: Book) reads this { BookWriteConflicts(shelf, id, b) }

    method RollBackCreatedAuthor(ghost p: Plan, e: Entity, owned: bool)
      requires e.key.kind == AuthorKind && owned == Owned(shelf, run, e) && createdBooks == p.created
      modifies this`shelf, this`unlinked, this`deletedBooks
      ensures Progress() == AuthorCreated(Context(p), old(Progress()), e)
    {
      if !owned { return; }
      var books := BooksOf(shelf, e.local, bookOrder);
      var remaining := 0;
      ghost var start := Progress();
      for n := 0 to |books|
        invariant createdBooks == p.created
        invariant (Progress(), remaining) == RemoveRunBooks(Context(p), start, books[..n])
      {
        var b := books[n];
        assert books[..n + 1][..n] == books[..n];
        if b in deletedBooks { continue; }
        if b in createdBooks {
          var key := createdBooks[b].key;
          if key in shelf.prov && shelf.prov[key].run == Some(run) {
            DeleteRunBook(b);
            continue;
          }
        }
        remaining := remaining + 1;
      }
      assert books[..|books|] == books;
      if remaining > 0 {
        UnlinkExternal(e.key);
        return;
      }
      var retain := HasProvenanceOutsideRun(e.key.kind, e.local);
      if retain {
        UnlinkExternal(e.key);
        return;
      }
      shelf := DeleteAuthor(shelf, e.local);
      UnlinkByLocal(AuthorKind, e.local);
    }

    method RestoreAuthorEntity(ghost p: Plan, e: Entity, owned: bool)
      requires e.snapshot.OfAuthor? && owned == Owned(shelf, run, e)
      modifies this`shelf, this`unlinked, this`failed
      ensures Progress() == AuthorRestored(Context(p), old(Progress()), e)
    {
      if e.local !in shelf.authors { return; }
      var row := new AuthorRow(shelf.authors[e.local]);
      var changed := row.RestoreFrom(e.snapshot.was.author, e.snapshot.became.author);
      if changed {
        if AuthorWriteConflicts(shelf, e.local, row.author) {
          failed := failed + 1;
          return;
        }
        shelf := WriteAuthor(shelf, e.local, row.author);
      }
      var kept := RollbackIdentifiers(shelf.identifiers, e.local, row.author.foreignId, e);
      shelf := shelf.(identifiers := kept);
      UnlinkOwned(p, e, owned);
    }

    method RollBackCreatedEdition(ghost p: Plan, e: Entity, owned: bool)
      requires owned == Owned(shelf, run, e)
      modifies this`shelf, this`unlinked
      ensures Progress() == EditionCreated(Context(p), old(Progress()), e)
    {
      if e.bookId > 0 && e.bookId in deletedBooks { return; }
      if !owned { return; }
      shelf := DeleteEdition(shelf, e.local);
      UnlinkByLocal(EditionKind, e.local);
    }

    method RollBackMembership(ghost p: Plan, e: Entity)
      requires e.key.kind == SeriesKind && Owned(shelf, run, e) && e.bookId > 0 && Collected(p)
      modifies this`shelf, this`unlinked
      ensures Progress() == SeriesMembership(Context(p), old(Progress()), e)
    {
      var retainMembership := HasMatchingProvenanceOutsideRun(e);
      var retainSeries := HasProvenanceOutsideRun(SeriesKind, e.local);
      if !retainMembership {
        var retainBook := HasProvenanceOutsideRun(BookKind, e.bookId);
        retainMembership := retainBook && retainSeries;
      }
      if retainMembership {
        UnlinkExternal(e.key);
        return;
      }
      var deleteSeries := false;
      if e.local in createdSeries && e.local !in identitySeries
         && (if e.local in deletingMembership then deletingMembership[e.local] else 0) == e.id {
        var remaining := RemainingSeriesBooks(e.local, p);
        deleteSeries := remaining <= 0 && !retainSeries;
      }
      shelf := UnlinkMember(shelf, e.local, e.bookId);
      DropSeriesOrLink(e, deleteSeries);
    }

    method DropSeriesOrLink(e: Entity, deleteSeries: bool)
      modifies this`shelf, this`unlinked
      ensures Progress() == if deleteSeries then RemoveSeries(old(Progress()), e.local)
              else Unlink(old(Progress()), e.key)
    {
      if deleteSeries {
        shelf := DeleteSeries(shelf, e.local);
        UnlinkByLocal(SeriesKind, e.local);
      } else {
        UnlinkExternal(e.key);
      }
    }

    method RollBackSeries(ghost p: Plan, e: Entity, owned: bool)
      requires e.key.kind == SeriesKind && owned == Owned(shelf, run, e) && Collected(p)
      modifies this`shelf, this`unlinked
      ensures Progress() == SeriesStep(Context(p), old(Progress()), e)
    {
      if !owned { return; }
      if e.bookId > 0 {
        RollBackMembership(p, e);
        return;
      }
      var deleteSeries := false;
      if e.outcome == Created {
        var retainSeries := HasProvenanceOutsideRun(SeriesKind, e.local);
        if retainSeries {
          UnlinkExternal(e.key);
          return;
        }
        var remaining := RemainingSeriesBooks(e.local, p);
        deleteSeries := remaining <= 0;
      }
      DropSeriesOrLink(e, deleteSeries);
    }

    method Process(ghost p: Plan, e: Entity)
      requires Collected(p)
      modifies this`shelf, this`unlinked, this`deletedBooks, this`failed
      ensures Progress() == Step(norm, Context(p), old(Progress()), e)
    {
      if e.key !in shelf.prov || shelf.prov[e.key].local != e.local { return; }
      var owned := shelf.prov[e.key].run == Some(run);
      if e.key.kind == BookKind && e.outcome == Created {
        RollBackCreatedBook(p, e, owned);
      } else if e.key.kind == BookKind && e.snapshot.OfBook? {
        RestoreBookEntity(p, e, owned);
      } else if e.key.kind == AuthorKind && e.outcome == Created {
        RollBackCreatedAuthor(p, e, owned);
      } else if e.key.kind == AuthorKind && e.snapshot.OfAuthor? {
        RestoreAuthorEntity(p, e, owned);
      } else if e.key.kind == EditionKind && e.outcome == Created {
        RollBackCreatedEdition(p, e, owned);
      } else if e.key.kind == SeriesKind {
        RollBackSeries(p, e, owned);
      } else {
        UnlinkOwned(p, e, owned);
      }
    }

    /** The loop over the ranked entities. */
    method ProcessAll(ghost p: Plan, ordered: seq<Entity>)
      requires Collected(p)
      modifies this`shelf, this`unlinked, this`deletedBooks, this`failed
      ensures Progress() == Steps(norm, Context(p), old(Progress()), ordered)
    {
      ghost var start, c := Progress(), Context(p);
      ghost var done := start;
      for n := 0 to |ordered|
        invariant Collected(p) && c == Context(p) && Progress() == done && done == Steps(norm, c, start, ordered[..n])
      {
        Process(p, ordered[n]);
        StepsOneMore(norm, c, start, ordered, n + 1);
        done := Step(norm, c, done, ordered[n]);
      }
      assert ordered[..|ordered|] == ordered;
    }

    /** The committed rollback of a run with these entities. */
    method Run(entities: seq<Entity>)
      requires Progress() == Begin(shelf) && Collected(NO_PLAN) && !rolledBack
      modifies this
      ensures Progress() == Rollback(norm, old(shelf), run, entities, bookOrder)
      ensures rolledBack == (failed == 0)
    {
      var ordered := SortByRank(entities);
      CollectAll(ordered);
      ProcessAll(PlanOf(ordered), ordered);
      if failed == 0 { rolledBack := true; }
    }
  }
}
