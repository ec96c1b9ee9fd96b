// The tables library adoption reads and writes, and the store's atomic operations on them.

module AdoptionStore {
  import opened Common

  /** A row id; 0 names no row. */
  type Id = nat
  type Path = string
  type Token = nat

  datatype Format = Ebook | Audiobook
  datatype Media = EbookOnly | AudiobookOnly | BothMedia
  datatype Status = Wanted | Imported | Skipped

  /** Every write of the row moves its version, which is what the fingerprint of a book tells apart. */
  datatype Book = Book(author: Id, status: Status, media: Media, version: nat)

  datatype File = File(book: Id, format: Format)

  datatype SeriesLink = SeriesLink(series: Id, book: Id, position: string, primary: bool)

  datatype Registered = Registered(path: Path, book: Id)

  /** What an adoption has written so far, and what reversing it goes by. */
  datatype Record = Record(
    bookId: Id, prior: Option<Status>, createdBook: Id, createdAuthor: Id, fingerprint: Option<nat>,
    registered: seq<Registered>, link: Option<SeriesLink>)

  const NO_RECORD := Record(0, None, 0, 0, None, [], None)

  datatype UnitState = Pending | Adopting | Adopted | Undoing | Ignored

  datatype Unit = Unit(state: UnitState, token: Option<Token>, record: Record)

  datatype World = World(
    units: map<Id, Unit>, books: map<Id, Book>, authors: set<Id>, files: map<Path, File>, links: set<SeriesLink>)

  // ----- books and their files -----

  predicate HasFormat(files: map<Path, File>, b: Id, format: Format) {
    exists p :: p in files && files[p] == File(b, format)
  }

  /** The status and media type a book's tracked files imply. */
  function Refreshed(files: map<Path, File>, id: Id, b: Book): Book {
    var ebook, audio := HasFormat(files, id, Ebook), HasFormat(files, id, Audiobook);
    var media := if ebook && audio then BothMedia else b.media;
    var complete := (media != AudiobookOnly ==> ebook) && (media != EbookOnly ==> audio);
    var status := if complete then Imported else if b.status == Imported then Wanted else b.status;
    Book(b.author, status, media, b.version + 1)
  }

  function Refresh(w: World, b: Id): World {
    if b in w.books then w.(books := w.books[b := Refreshed(w.files, b, w.books[b])]) else w
  }

  datatype Tracking = Inserted | AlreadyTracked | TookOver | OwnedElsewhere | NoSuchBook

  /** What recording a path against a book comes to. */
  function TrackOutcome(w: World, b: Id, p: Path): Tracking {
    if p !in w.files then (if b in w.books then Inserted else NoSuchBook)
    else if w.files[p].book == b then AlreadyTracked
    else if w.files[p].book !in w.books then (if b in w.books then TookOver else NoSuchBook)
    else OwnedElsewhere
  }

  /** Whether the call made the row the book's. */
  predicate Creates(t: Tracking) { t == Inserted || t == TookOver }

  function Track(w: World, b: Id, format: Format, p: Path): World {
    if Creates(TrackOutcome(w, b, p)) then w.(files := w.files[p := File(b, format)]) else w
  }

  predicate Owns(files: map<Path, File>, r: Registered) { r.path in files && files[r.path].book == r.book }

  function DropRow(w: World, r: Registered): World { w.(files := w.files - {r.path}) }

  /** Untracking removes a row only while it still belongs to the named book. */
  function Untrack(w: World, r: Registered): World {
    if Owns(w.files, r) then Refresh(DropRow(w, r), r.book) else w
  }

  // ----- deletes -----

  /** References to a deleted row become null. */
  function ForgetBook(r: Record, b: Id): Record {
    r.(bookId := if r.bookId == b then 0 else r.bookId, createdBook := if r.createdBook == b then 0 else r.createdBook)
  }

  function ForgetAuthor(r: Record, a: Id): Record {
    r.(createdAuthor := if r.createdAuthor == a then 0 else r.createdAuthor)
  }

  function UnitsWithoutBook(units: map<Id, Unit>, b: Id): map<Id, Unit> {
    map u | u in units :: units[u].(record := ForgetBook(units[u].record, b))
  }

  function ForgetBooks(r: Record, gone: set<Id>): Record {
    r.(bookId := if r.bookId in gone then 0 else r.bookId,
       createdBook := if r.createdBook in gone then 0 else r.createdBook)
  }

  function UnitsWithoutAuthor(units: map<Id, Unit>, a: Id, gone: set<Id>): map<Id, Unit> {
    map u | u in units :: units[u].(record := ForgetAuthor(ForgetBooks(units[u].record, gone), a))
  }

  function FilesWithoutBook(files: map<Path, File>, b: Id): map<Path, File> {
    map p | p in files && files[p].book != b :: files[p]
  }

  /** Deleting a book cascades to its files and series links and clears every reference to it. */
  function DeleteBook(w: World, b: Id): World {
    if b !in w.books then w
    else
      w.(books := w.books - {b}, files := FilesWithoutBook(w.files, b), links := (set l | l in w.links && l.book != b),
         units := UnitsWithoutBook(w.units, b))
  }

  predicate HasBooks(w: World, a: Id) { exists b :: b in w.books && w.books[b].author == a }

  /** Deleting an author; the books still filed under it go with it. */
  function DeleteAuthor(w: World, a: Id): World {
    if a !in w.authors then w
    else
      var gone := set b | b in w.books && w.books[b].author == a;
      w.(authors := w.authors - {a}, books := w.books - gone,
         files := (map p | p in w.files && w.files[p].book !in gone :: w.files[p]),
         links := (set l | l in w.links && l.book !in gone),
         units := UnitsWithoutAuthor(w.units, a, gone))
  }

  /** Of a unit's record, the references to rows that are gone become null and nothing else changes. */
  predicate OnlyReferencesCleared(w: World, w': World, u: Unit, u': Unit) {
    var r, r' := u.record, u'.record;
    && u' == u.(record := r')
    && r' == r.(bookId := if r.bookId in w.books && r.bookId !in w'.books then 0 else r.bookId,
                createdBook := if r.createdBook in w.books && r.createdBook !in w'.books then 0 else r.createdBook,
                createdAuthor := if r.createdAuthor in w.authors && r.createdAuthor !in w'.authors then 0
                                 else r.createdAuthor)
  }

  /** A delete takes these books and authors, with their files and memberships, and clears the references to them. */
  ghost predicate Deletes(w: World, w': World, books: set<Id>, authors: set<Id>) {
    && w'.books == w.books - books && w'.authors == w.authors - authors
    && (forall p :: p in w'.files <==> p in w.files && w.files[p].book !in books)
    && (forall p :: p in w'.files ==> w'.files[p] == w.files[p])
    && (forall l :: l in w'.links <==> l in w.links && l.book !in books)
    && w'.units.Keys == w.units.Keys
    && forall u :: u in w.units ==> OnlyReferencesCleared(w, w', w.units[u], w'.units[u])
  }

  lemma DeletingBooks(w: World, b: Id)
    ensures b in w.books ==> Deletes(w, DeleteBook(w, b), {b}, {})
    ensures b !in w.books ==> DeleteBook(w, b) == w
  {
  }

  lemma DeletingAuthors(w: World, a: Id)
    ensures a in w.authors ==> Deletes(w, DeleteAuthor(w, a), set b | b in w.books && w.books[b].author == a, {a})
    ensures a !in w.authors ==> DeleteAuthor(w, a) == w
  {
  }

  // ----- units -----

  predicate BookReferencedElsewhere(w: World, b: Id, except: Id) {
    exists u :: u in w.units && u != except && (w.units[u].record.bookId == b || w.units[u].record.createdBook == b)
  }

  predicate AuthorReferencedElsewhere(w: World, a: Id, except: Id) {
    exists u :: u in w.units && u != except && w.units[u].record.createdAuthor == a
  }

  /** A write of this claim still applies. */
  predicate Holds(w: World, id: Id, from: UnitState, token: Token) {
    id in w.units && w.units[id].state == from && w.units[id].token == Some(token)
  }

  function SetUnit(w: World, id: Id, u: Unit): World { w.(units := w.units[id := u]) }

  function Fingerprint(w: World, b: Id): Option<nat> { if b in w.books then Some(w.books[b].version) else None }
}
