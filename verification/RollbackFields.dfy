// One field of a book or author row under one restore.

module RollbackFields {
  import opened Common
  import opened Text
  import opened RollbackModel
  import opened RollbackRepeat

  // ----- one field of a book row -----

  datatype Field =
    | ForeignId | AuthorId | Title | SortTitle | OriginalTitle | Description | ImageUrl | ReleaseDate | Genres
    | AverageRating | RatingsCount | Monitored | Status | AnyEditionOk | SelectedEditionId | Language | MediaType
    | Narrator | DurationSeconds | Asin | CalibreId | MetadataProvider | LastMetadataRefreshAt

  datatype Value =
    | Str(string) | Strs(seq<string>) | Num(int) | Flag(bool) | Rating(real) | Ref(Option<Id>) | Time(Option<int>)

  function Get(b: Book, f: Field): Value {
    match f
    case ForeignId => Str(b.foreignId)
    case AuthorId => Num(b.authorId)
    case Title => Str(b.title)
    case SortTitle => Str(b.sortTitle)
    case OriginalTitle => Str(b.originalTitle)
    case Description => Str(b.description)
    case ImageUrl => Str(b.imageUrl)
    case ReleaseDate => Time(b.releaseDate)
    case Genres => Strs(b.genres)
    case AverageRating => Rating(b.averageRating)
    case RatingsCount => Num(b.ratingsCount)
    case Monitored => Flag(b.monitored)
    case Status => Str(b.status)
    case AnyEditionOk => Flag(b.anyEditionOk)
    case SelectedEditionId => Ref(b.selectedEditionId)
    case Language => Str(b.language)
    case MediaType => Str(b.mediaType)
    case Narrator => Str(b.narrator)
    case DurationSeconds => Num(b.durationSeconds)
    case Asin => Str(b.asin)
    case CalibreId => Ref(b.calibreId)
    case MetadataProvider => Str(b.metadataProvider)
    case LastMetadataRefreshAt => Time(b.lastMetadataRefreshAt)
  }

  /** A field's value up to spelling: a language counts in its normal form. */
  function Normal(norm: string -> string, f: Field, b: Book): Value {
    if f == Language then Str(norm(b.language)) else Get(b, f)
  }

  /** What one restore does to any field the row write stores. */
  lemma PutBackField(norm: string -> string, row: Book, before: Book, after: Book, f: Field)
    requires Idempotent(norm) && f != CalibreId && row.mediaType != "" && before.mediaType != ""
    ensures Normal(norm, f, PutBack(norm, row, before, after)) ==
            if Normal(norm, f, row) == Normal(norm, f, after) then Normal(norm, f, before) else Normal(norm, f, row)
  {
    if f == Language {
      PutBackLanguage(norm, row, before, after);
    } else if f != MediaType {
      PutBackPlainField(norm, row, before, after, f);
    }
  }

  lemma PutBackLanguage(norm: string -> string, row: Book, before: Book, after: Book)
    requires Idempotent(norm)
    ensures norm(PutBack(norm, row, before, after).language) ==
            if norm(row.language) == norm(after.language) then norm(before.language) else norm(row.language)
  {
    assert norm(norm(before.language)) == norm(before.language);
    assert norm(norm(row.language)) == norm(row.language);
    assert norm(norm(norm(before.language))) == norm(before.language);
  }

  lemma PutBackPlainField(norm: string -> string, row: Book, before: Book, after: Book, f: Field)
    requires f != CalibreId && f != MediaType && f != Language
    ensures Get(PutBack(norm, row, before, after), f) ==
            if Get(row, f) == Get(after, f) then Get(before, f) else Get(row, f)
  {
    RestoredPlainField(norm, row, before, after, f);
    StoredPlainField(norm, row, RestoreBook(norm, row, before, after), f);
  }

  lemma RestoredPlainField(norm: string -> string, row: Book, before: Book, after: Book, f: Field)
    requires f != Language
    ensures Get(RestoreBook(norm, row, before, after), f) ==
            if Get(row, f) == Get(after, f) then Get(before, f) else Get(row, f)
  {
  }

  lemma StoredPlainField(norm: string -> string, row: Book, b: Book, f: Field)
    requires f != CalibreId && f != MediaType && f != Language
    ensures Get(Stored(norm, row, b), f) == Get(b, f)
  {
  }

  // ----- author rows, and rows of either kind -----

  datatype AuthorField =
    | AuthorForeignId | Name | SortName | Biography | Photo | Disambiguation | AuthorProvider | AuthorRefreshedAt

  function GetAuthor(a: Author, f: AuthorField): Value {
    match f
    case AuthorForeignId => Str(a.foreignId)
    case Name => Str(a.name)
    case SortName => Str(a.sortName)
    case Biography => Str(a.description)
    case Photo => Str(a.imageUrl)
    case Disambiguation => Str(a.disambiguation)
    case AuthorProvider => Str(a.metadataProvider)
    case AuthorRefreshedAt => Time(a.lastMetadataRefreshAt)
  }

  datatype Row = BookRow(book: Book) | AuthorRow(author: Author)

  datatype RowField = BookField(book: Field) | AuthorRowField(author: AuthorField)

  predicate FieldFits(f: RowField, r: Row) { f.BookField? <==> r.BookRow? }

  /** What a row shows in a field, up to spelling. */
  function Shows(norm: string -> string, r: Row, f: RowField): Value
    requires FieldFits(f, r)
  {
    match r
    case BookRow(b) => Normal(norm, f.book, b)
    case AuthorRow(a) => GetAuthor(a, f.author)
  }

  /** The entity puts a snapshot back. */
  predicate Restores(e: Entity) { RestoresBook(e) || RestoresAuthor(e) }

  function BeforeOf(e: Entity): Row
    requires Restores(e)
  {
    if RestoresBook(e) then BookRow(e.snapshot.before) else AuthorRow(e.snapshot.was.author)
  }

  function AfterOf(e: Entity): Row
    requires Restores(e)
  {
    if RestoresBook(e) then BookRow(e.snapshot.after) else AuthorRow(e.snapshot.became.author)
  }

  function RowAt(s: Shelf, kind: Kind, id: Id): Option<Row> {
    if kind == BookKind && id in s.books then Some(BookRow(s.books[id]))
    else if kind == AuthorKind && id in s.authors then Some(AuthorRow(s.authors[id]))
    else None
  }

  /** The row with its snapshot put back. */
  function RestoredRow(norm: string -> string, r: Row, e: Entity): (restored: Row)
    requires Restores(e) && (r.BookRow? <==> RestoresBook(e))
    ensures restored.BookRow? <==> r.BookRow?
  {
    match r
    case BookRow(b) => BookRow(PutBack(norm, b, e.snapshot.before, e.snapshot.after))
    case AuthorRow(a) => AuthorRow(RestoreAuthor(a, e.snapshot.was.author, e.snapshot.became.author))
  }

  /** Every stored book row, and every snapshot of one, has a media type. */
  predicate HasMedia(r: Row) { r.BookRow? ==> r.book.mediaType != "" }

  /** The Calibre id is compared and restored on the copy, but no row write stores it. */
  predicate Stores(f: RowField) { f != BookField(CalibreId) }

  /** One restore, one field: put back exactly when the row still shows the run's value and the write stores it. */
  lemma RestoredField(norm: string -> string, r: Row, e: Entity, f: RowField)
    requires Restores(e) && (r.BookRow? <==> RestoresBook(e)) && FieldFits(f, r)
    requires Idempotent(norm) && HasMedia(r) && HasMedia(BeforeOf(e))
    ensures HasMedia(RestoredRow(norm, r, e))
    ensures Shows(norm, RestoredRow(norm, r, e), f) ==
            if Stores(f) && Shows(norm, r, f) == Shows(norm, AfterOf(e), f) then Shows(norm, BeforeOf(e), f)
            else Shows(norm, r, f)
  {
    match r
    case BookRow(b) =>
      if f.book != CalibreId { PutBackField(norm, b, e.snapshot.before, e.snapshot.after, f.book); }
      PutBackKeepsMedia(norm, b, e.snapshot.before, e.snapshot.after);
    case AuthorRow(a) => RestoreAuthorField(a, e.snapshot.was.author, e.snapshot.became.author, f.author);
  }

  lemma PutBackKeepsMedia(norm: string -> string, row: Book, before: Book, after: Book)
    requires row.mediaType != ""
    ensures PutBack(norm, row, before, after).mediaType != ""
    ensures PutBack(norm, row, before, after).calibreId == row.calibreId
  {
  }

  lemma RestoreAuthorField(a: Author, before: Author, after: Author, f: AuthorField)
    ensures GetAuthor(RestoreAuthor(a, before, after), f) ==
            if GetAuthor(a, f) == GetAuthor(after, f) then GetAuthor(before, f) else GetAuthor(a, f)
  {
  }

  // ----- an author's identifiers -----

  predicate HasId(s: Shelf, a: Id, f: string) { f in s.identifiers && s.identifiers[f] == a }

  /** The primary id of the restored author, if the row was written and the id is not blank, is attached to it. */
  predicate WritesPrimary(row: Author, restored: Author, f: string) {
    restored != row && f != "" && f == Trim(restored.foreignId)
  }

  /** The run had attached the id: it is listed after but not before, and is not the author's primary id now. */
  predicate DroppedBy(e: Entity, restored: Author, f: string)
    requires RestoresAuthor(e)
  {
    && e.snapshot.was.identifiers.Some? && e.snapshot.became.identifiers.Some?
    && Dropped(f, e.snapshot.was.identifiers.value, e.snapshot.became.identifiers.value, restored.foreignId)
  }

  /**
   * One restore of an author that no key refuses: the author has afterwards the ids it had without those the run had
   * attached, and its primary one; every other author's ids stay.
   */
  lemma RestoredIdentifiers(c: Ctx, w: Work, e: Entity, f: string)
    requires RestoresAuthor(e) && e.local in w.s.authors && AuthorRestored(c, w, e).failed == w.failed
    ensures var row, s' := w.s.authors[e.local], AuthorRestored(c, w, e).s;
            var restored := RestoreAuthor(row, e.snapshot.was.author, e.snapshot.became.author);
            && (HasId(s', e.local, f) <==>
                WritesPrimary(row, restored, f) || (HasId(w.s, e.local, f) && !DroppedBy(e, restored, f)))
            && forall a :: a != e.local ==> (HasId(s', a, f) <==> HasId(w.s, a, f))
  {
    var row := w.s.authors[e.local];
    var restored := RestoreAuthor(row, e.snapshot.was.author, e.snapshot.became.author);
    if restored == row {
      DroppingIdentifiers(w.s.identifiers, e, restored, f);
    } else {
      DroppingIdentifiers(WriteAuthor(w.s, e.local, restored).identifiers, e, restored, f);
      PrimaryIsKept(e, restored);
    }
  }

  lemma DroppingIdentifiers(ids: map<string, Id>, e: Entity, restored: Author, f: string)
    requires RestoresAuthor(e)
    ensures var kept := DropIdentifiers(ids, e.local, restored.foreignId, e);
            && (f in kept <==> f in ids && !(ids[f] == e.local && DroppedBy(e, restored, f)))
            && (f in kept ==> kept[f] == ids[f])
  {
  }

  lemma PrimaryIsKept(e: Entity, restored: Author)
    requires RestoresAuthor(e)
    ensures !DroppedBy(e, restored, Trim(restored.foreignId))
  {
  }
}
