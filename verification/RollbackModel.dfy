// What rolling back one Audiobookshelf import run does to the library, entity by entity, as pure state.
// RollbackRunner.dfy holds the loop that updates the tables; RollbackProofs.dfy what a whole rollback guarantees.

module RollbackModel {
  import opened Common
  import opened Text

  /** A row id; 0 names no row. */
  type Id = nat

  datatype Book = Book(
    foreignId: string, authorId: Id, title: string, sortTitle: string, originalTitle: string, description: string,
    imageUrl: string, releaseDate: Option<int>, genres: seq<string>, averageRating: real, ratingsCount: int,
    monitored: bool, status: string, anyEditionOk: bool, selectedEditionId: Option<Id>, language: string,
    mediaType: string, narrator: string, durationSeconds: int, asin: string, calibreId: Option<Id>,
    metadataProvider: string, lastMetadataRefreshAt: Option<int>)

  datatype Author = Author(
    foreignId: string, name: string, sortName: string, description: string, imageUrl: string,
    disambiguation: string, metadataProvider: string, lastMetadataRefreshAt: Option<int>)

  /** An author snapshot also lists the author's identifiers, when they were read. */
  datatype AuthorSnapshot = AuthorSnapshot(author: Author, identifiers: Option<seq<string>>)

  // ----- three-way restore -----

  /** Put `before` back only where the run's own value is still there. */
  function Restore<T(==)>(current: T, before: T, after: T): T { if current == after then before else current }

  /** The language code, compared and put back in its normal form. */
  function RestoreLanguage(norm: string -> string, current: string, before: string, after: string): string {
    if norm(current) == norm(after) then norm(before) else current
  }

  function RestoreBook(norm: string -> string, b: Book, before: Book, after: Book): Book {
    Book(Restore(b.foreignId, before.foreignId, after.foreignId),
         Restore(b.authorId, before.authorId, after.authorId),
         Restore(b.title, before.title, after.title),
         Restore(b.sortTitle, before.sortTitle, after.sortTitle),
         Restore(b.originalTitle, before.originalTitle, after.originalTitle),
         Restore(b.description, before.description, after.description),
         Restore(b.imageUrl, before.imageUrl, after.imageUrl),
         Restore(b.releaseDate, before.releaseDate, after.releaseDate),
         Restore(b.genres, before.genres, after.genres),
         Restore(b.averageRating, before.averageRating, after.averageRating),
         Restore(b.ratingsCount, before.ratingsCount, after.ratingsCount),
         Restore(b.monitored, before.monitored, after.monitored),
         Restore(b.status, before.status, after.status),
         Restore(b.anyEditionOk, before.anyEditionOk, after.anyEditionOk),
         Restore(b.selectedEditionId, before.selectedEditionId, after.selectedEditionId),
         RestoreLanguage(norm, b.language, before.language, after.language),
         Restore(b.mediaType, before.mediaType, after.mediaType),
         Restore(b.narrator, before.narrator, after.narrator),
         Restore(b.durationSeconds, before.durationSeconds, after.durationSeconds),
         Restore(b.asin, before.asin, after.asin),
         Restore(b.calibreId, before.calibreId, after.calibreId),
         Restore(b.metadataProvider, before.metadataProvider, after.metadataProvider),
         Restore(b.lastMetadataRefreshAt, before.lastMetadataRefreshAt, after.lastMetadataRefreshAt))
  }

  function RestoreAuthor(a: Author, before: Author, after: Author): Author {
    Author(Restore(a.foreignId, before.foreignId, after.foreignId),
           Restore(a.name, before.name, after.name),
           Restore(a.sortName, before.sortName, after.sortName),
           Restore(a.description, before.description, after.description),
           Restore(a.imageUrl, before.imageUrl, after.imageUrl),
           Restore(a.disambiguation, before.disambiguation, after.disambiguation),
           Restore(a.metadataProvider, before.metadataProvider, after.metadataProvider),
           Restore(a.lastMetadataRefreshAt, before.lastMetadataRefreshAt, after.lastMetadataRefreshAt))
  }

  // ----- the store -----

  datatype Kind = EditionKind | BookKind | SeriesKind | AuthorKind | OtherKind

  datatype Key = Key(source: string, library: string, kind: Kind, external: string)

  /** A provenance row: the local row an external entity maps to, and the run that last wrote it. */
  datatype Link = Link(local: Id, run: Option<Id>)

  datatype Shelf = Shelf(
    books: map<Id, Book>,
    authors: map<Id, Author>,
    series: set<Id>,
    members: set<(Id, Id)>,
    editions: map<Id, Id>,
    identifiers: map<string, Id>,
    prov: map<Key, Link>)

  /** Writing b over a row: the language is normalized, the media type filled in, and the Calibre id not written. */
  function Stored(norm: string -> string, row: Book, b: Book): Book {
    b.(language := norm(b.language),
       mediaType := if b.mediaType == "" then "ebook" else b.mediaType,
       calibreId := row.calibreId)
  }

  /** The row after its snapshot was put back; it is written only when a field changed. */
  function PutBack(norm: string -> string, row: Book, before: Book, after: Book): Book {
    var b := RestoreBook(norm, row, before, after);
    if b == row then row else Stored(norm, row, b)
  }

  /** Deleting a book cascades to its editions and series memberships. */
  function DeleteBook(s: Shelf, b: Id): Shelf {
    s.(books := s.books - {b},
       members := (set m | m in s.members && m.1 != b),
       editions := map e | e in s.editions && s.editions[e] != b :: s.editions[e])
  }

  /** Deleting an author cascades to every book filed under it. */
  function DeleteAuthor(s: Shelf, a: Id): Shelf {
    var gone := set b | b in s.books && s.books[b].authorId == a;
    s.(authors := s.authors - {a},
       books := s.books - gone,
       members := (set m | m in s.members && m.1 !in gone),
       editions := map e | e in s.editions && s.editions[e] !in gone :: s.editions[e],
       identifiers := map f | f in s.identifiers && s.identifiers[f] != a :: s.identifiers[f])
  }

  function DeleteSeries(s: Shelf, id: Id): Shelf {
    s.(series := s.series - {id}, members := (set m | m in s.members && m.0 != id))
  }

  function DeleteEdition(s: Shelf, id: Id): Shelf { s.(editions := s.editions - {id}) }

  function UnlinkMember(s: Shelf, series: Id, book: Id): Shelf { s.(members := s.members - {(series, book)}) }

  function UnlinkKey(s: Shelf, k: Key): Shelf { s.(prov := s.prov - {k}) }

  function RowsByLocal(s: Shelf, kind: Kind, local: Id): set<Key> {
    if local == 0 then {} else set k | k in s.prov && k.kind == kind && s.prov[k].local == local
  }

  function UnlinkLocal(s: Shelf, kind: Kind, local: Id): Shelf {
    s.(prov := s.prov - RowsByLocal(s, kind, local))
  }

  predicate HasOutside(s: Shelf, kind: Kind, local: Id, run: Id) {
    exists k :: k in RowsByLocal(s, kind, local) && s.prov[k].run != Some(run)
  }

  // ----- a run's entities -----

  datatype Outcome = Created | Updated | Linked

  datatype Snapshot =
    | NoSnapshot
    | OfBook(before: Book, after: Book)
    | OfAuthor(was: AuthorSnapshot, became: AuthorSnapshot)

  /** One row of the run: what it touched, and the book id its metadata carries (0 when none). */
  datatype Entity = Entity(id: Id, key: Key, local: Id, outcome: Outcome, bookId: int, snapshot: Snapshot)

  function Rank(e: Entity): nat {
    match e.key.kind
    case EditionKind => 0
    case BookKind => 1
    case SeriesKind => if e.bookId > 0 then 2 else 3
    case AuthorKind => 4
    case OtherKind => 5
  }

  /** A stable sort by rank. */
  function SortByRank(es: seq<Entity>): seq<Entity> {
    if es == [] then [] else InsertByRank(SortByRank(es[..|es| - 1]), es[|es| - 1])
  }

  function InsertByRank(es: seq<Entity>, e: Entity): seq<Entity> {
    if es == [] || Rank(es[|es| - 1]) <= Rank(e) then es + [e]
    else InsertByRank(es[..|es| - 1], e) + [es[|es| - 1]]
  }

  /** What the rollback collects about its entities before touching anything. */
  datatype Plan = Plan(
    created: map<Id, Entity>,
    createdSeries: set<Id>,
    identitySeries: set<Id>,
    memberships: set<(Id, Id)>,
    lastMembership: map<Id, Id>)

  const NO_PLAN := Plan(map[], {}, {}, {}, map[])

  function Noted(p: Plan, e: Entity): Plan {
    var p1 := if e.key.kind == BookKind && e.outcome == Created && e.local != 0
              then p.(created := p.created[e.local := e]) else p;
    if e.key.kind != SeriesKind || e.local == 0 then p1
    else
      var p2 := if e.outcome == Created then p1.(createdSeries := p1.createdSeries + {e.local}) else p1;
      if e.bookId > 0 then
        p2.(memberships := p2.memberships + {(e.local, e.bookId)},
            lastMembership :=
              if e.outcome == Created && e.id > LastMembership(p2, e.local)
              then p2.lastMembership[e.local := e.id] else p2.lastMembership)
      else p2.(identitySeries := p2.identitySeries + {e.local})
  }

  function LastMembership(p: Plan, series: Id): Id {
    if series in p.lastMembership then p.lastMembership[series] else 0
  }

  function PlanOf(es: seq<Entity>): Plan {
    if es == [] then NO_PLAN else Noted(PlanOf(es[..|es| - 1]), es[|es| - 1])
  }

  // ----- one entity -----

  /** The run being rolled back: its id, its plan, and the order the store lists books in. */
  datatype Ctx = Ctx(run: Id, plan: Plan, bookOrder: seq<Id>)

  /** The tables, the books deleted so far, and the counters the result reports. */
  datatype Work = Work(s: Shelf, deleted: set<Id>, unlinked: nat, failed: nat)

  predicate Owned(s: Shelf, run: Id, e: Entity) {
    e.key in s.prov && s.prov[e.key].local == e.local && s.prov[e.key].run == Some(run)
  }

  function Unlink(w: Work, k: Key): Work { w.(s := UnlinkKey(w.s, k), unlinked := w.unlinked + 1) }

  function UnlinkAll(w: Work, kind: Kind, local: Id): Work {
    w.(s := UnlinkLocal(w.s, kind, local), unlinked := w.unlinked + |RowsByLocal(w.s, kind, local)|)
  }

  function RemoveBook(w: Work, b: Id): Work {
    var w1 := UnlinkAll(w.(s := DeleteBook(w.s, b)), BookKind, b);
    w1.(deleted := w1.deleted + {b})
  }

  function BookCreated(c: Ctx, w: Work, e: Entity): Work {
    if !Owned(w.s, c.run, e) then w
    else if HasOutside(w.s, BookKind, e.local, c.run) then Unlink(w, e.key)
    else RemoveBook(w, e.local)
  }

  /** A book write fails on a foreign id another book has, or on an author that is gone. */
  predicate BookWriteConflicts(s: Shelf, id: Id, b: Book) {
    || b.authorId !in s.authors
    || exists other :: other in s.books && other != id && s.books[other].foreignId == b.foreignId
  }

  function UnlinkIfOwned(c: Ctx, w: Work, e: Entity): Work {
    if Owned(w.s, c.run, e) then Unlink(w, e.key) else w
  }

  function BookRestored(norm: string -> string, c: Ctx, w: Work, e: Entity): Work
    requires e.snapshot.OfBook?
  {
    if e.local !in w.s.books then w
    else WriteBack(norm, c, w, e, RestoreBook(norm, w.s.books[e.local], e.snapshot.before, e.snapshot.after))
  }

  /**
   * Write the restored copy over the row if it differs, and give up the run's provenance row; a refused write counts.
   */
  function WriteBack(norm: string -> string, c: Ctx, w: Work, e: Entity, b: Book): Work
    requires e.local in w.s.books
  {
    if b == w.s.books[e.local] then UnlinkIfOwned(c, w, e)
    else if BookWriteConflicts(w.s, e.local, b) then w.(failed := w.failed + 1)
    else UnlinkIfOwned(c, w.(s := w.s.(books := w.s.books[e.local := Stored(norm, w.s.books[e.local], b)])), e)
  }

  /** The run may delete a listed book under this author: it created it and still owns the row it recorded. */
  predicate RunOwnsBook(c: Ctx, s: Shelf, b: Id) {
    && b in c.plan.created
    && c.plan.created[b].key in s.prov && s.prov[c.plan.created[b].key].run == Some(c.run)
  }

  /** The books the author had when they were listed, in listing order; how many of them remain. */
  function RemoveRunBooks(c: Ctx, w: Work, listed: seq<Id>): (Work, nat) {
    if listed == [] then (w, 0)
    else
      var (w1, remaining) := RemoveRunBooks(c, w, listed[..|listed| - 1]);
      var b := listed[|listed| - 1];
      if b in w1.deleted then (w1, remaining)
      else if RunOwnsBook(c, w1.s, b) then (RemoveBook(w1, b), remaining)
      else (w1, remaining + 1)
  }

  function BooksOf(s: Shelf, author: Id, order: seq<Id>): seq<Id> {
    if order == [] then []
    else
      var b := order[|order| - 1];
      BooksOf(s, author, order[..|order| - 1]) +
      (if b in s.books && s.books[b].authorId == author then [b] else [])
  }

  function AuthorCreated(c: Ctx, w: Work, e: Entity): Work {
    if !Owned(w.s, c.run, e) then w
    else
      var (w1, remaining) := RemoveRunBooks(c, w, BooksOf(w.s, e.local, c.bookOrder));
      if remaining > 0 || HasOutside(w1.s, AuthorKind, e.local, c.run) then Unlink(w1, e.key)
      else UnlinkAll(w1.(s := DeleteAuthor(w1.s, e.local)), AuthorKind, e.local)
  }

  /** An author write also records its foreign id as an identifier, so it fails when another author owns that id. */
  predicate AuthorWriteConflicts(s: Shelf, id: Id, a: Author) {
    || (exists other :: other in s.authors && other != id && s.authors[other].foreignId == a.foreignId)
    || (Trim(a.foreignId) in s.identifiers && s.identifiers[Trim(a.foreignId)] != id)
  }

  function WriteAuthor(s: Shelf, id: Id, a: Author): Shelf {
    s.(authors := s.authors[id := a],
       identifiers := if Trim(a.foreignId) == "" then s.identifiers else s.identifiers[Trim(a.foreignId) := id])
  }

  predicate ListedTrimmed(f: string, ids: seq<string>) { exists i :: 0 <= i < |ids| && Trim(ids[i]) == f }

  /** An identifier the run attached: listed after but not before, and not what is now the primary id. */
  predicate Dropped(f: string, before: seq<string>, after: seq<string>, primary: string) {
    f != "" && ListedTrimmed(f, after) && !ListedTrimmed(f, before) && Lower(f) != Lower(Trim(primary))
  }

  function DropIdentifiers(ids: map<string, Id>, author: Id, primary: string, e: Entity): map<string, Id>
    requires e.snapshot.OfAuthor?
  {
    if e.snapshot.was.identifiers.None? || e.snapshot.became.identifiers.None? then ids
    else
      map f | f in ids &&
        !(ids[f] == author &&
          Dropped(f, e.snapshot.was.identifiers.value, e.snapshot.became.identifiers.value, primary)) :: ids[f]
  }

  function AuthorRestored(c: Ctx, w: Work, e: Entity): Work
    requires e.snapshot.OfAuthor?
  {
    if e.local !in w.s.authors then w
    else
      var a := RestoreAuthor(w.s.authors[e.local], e.snapshot.was.author, e.snapshot.became.author);
      if a != w.s.authors[e.local] && AuthorWriteConflicts(w.s, e.local, a) then w.(failed := w.failed + 1)
      else
        var s := if a == w.s.authors[e.local] then w.s else WriteAuthor(w.s, e.local, a);
        UnlinkIfOwned(c, w.(s := s.(identifiers := DropIdentifiers(s.identifiers, e.local, a.foreignId, e))), e)
  }

  function EditionCreated(c: Ctx, w: Work, e: Entity): Work {
    if e.bookId > 0 && e.bookId in w.deleted then w
    else if !Owned(w.s, c.run, e) then w
    else UnlinkAll(w.(s := DeleteEdition(w.s, e.local)), EditionKind, e.local)
  }

  /** Another run's row of the same external id names this entity's row. */
  predicate HasMatchingOutside(s: Shelf, e: Entity, run: Id) {
    exists k :: k in RowsByLocal(s, e.key.kind, e.local) && k.external == e.key.external && s.prov[k].run != Some(run)
  }

  /** Whether the series would keep a book whose membership this run did not record. */
  predicate KeepsOtherBooks(c: Ctx, s: Shelf, series: Id) {
    exists m :: m in s.members && m.0 == series && m !in c.plan.memberships
  }

  function RemoveSeries(w: Work, id: Id): Work { UnlinkAll(w.(s := DeleteSeries(w.s, id)), SeriesKind, id) }

  function SeriesMembership(c: Ctx, w: Work, e: Entity): Work
    requires Owned(w.s, c.run, e) && e.bookId > 0
  {
    if HasMatchingOutside(w.s, e, c.run)
       || (HasOutside(w.s, BookKind, e.bookId, c.run) && HasOutside(w.s, SeriesKind, e.local, c.run))
    then Unlink(w, e.key)
    else
      var deleteSeries :=
        && e.local in c.plan.createdSeries && e.local !in c.plan.identitySeries
        && LastMembership(c.plan, e.local) == e.id
        && !KeepsOtherBooks(c, w.s, e.local) && !HasOutside(w.s, SeriesKind, e.local, c.run);
      var w1 := w.(s := UnlinkMember(w.s, e.local, e.bookId));
      if deleteSeries then RemoveSeries(w1, e.local) else Unlink(w1, e.key)
  }

  function SeriesIdentity(c: Ctx, w: Work, e: Entity): Work
    requires Owned(w.s, c.run, e)
  {
    if e.outcome == Created && !HasOutside(w.s, SeriesKind, e.local, c.run) && !KeepsOtherBooks(c, w.s, e.local)
    then RemoveSeries(w, e.local)
    else Unlink(w, e.key)
  }

  function SeriesStep(c: Ctx, w: Work, e: Entity): Work {
    if !Owned(w.s, c.run, e) then w
    else if e.bookId > 0 then SeriesMembership(c, w, e)
    else SeriesIdentity(c, w, e)
  }

  function BookStep(norm: string -> string, c: Ctx, w: Work, e: Entity): Work {
    if e.outcome == Created then BookCreated(c, w, e)
    else if e.snapshot.OfBook? then BookRestored(norm, c, w, e)
    else UnlinkIfOwned(c, w, e)
  }

  function AuthorStep(c: Ctx, w: Work, e: Entity): Work {
    if e.outcome == Created then AuthorCreated(c, w, e)
    else if e.snapshot.OfAuthor? then AuthorRestored(c, w, e)
    else UnlinkIfOwned(c, w, e)
  }

  function EditionStep(c: Ctx, w: Work, e: Entity): Work {
    if e.outcome == Created then EditionCreated(c, w, e) else UnlinkIfOwned(c, w, e)
  }

  /** An entity whose row is gone, or now names another local row, is skipped. */
  function Step(norm: string -> string, c: Ctx, w: Work, e: Entity): Work {
    if e.key !in w.s.prov || w.s.prov[e.key].local != e.local then w
    else
      match e.key.kind
      case BookKind => BookStep(norm, c, w, e)
      case AuthorKind => AuthorStep(c, w, e)
      case EditionKind => EditionStep(c, w, e)
      case SeriesKind => SeriesStep(c, w, e)
      case OtherKind => UnlinkIfOwned(c, w, e)
  }

  function Steps(norm: string -> string, c: Ctx, w: Work, es: seq<Entity>): Work {
    if es == [] then w else Step(norm, c, Steps(norm, c, w, es[..|es| - 1]), es[|es| - 1])
  }

  function Begin(s: Shelf): Work { Work(s, {}, 0, 0) }

  /** The committed rollback of a run with these entities. */
  function Rollback(norm: string -> string, s: Shelf, run: Id, es: seq<Entity>, bookOrder: seq<Id>): Work {
    var ordered := SortByRank(es);
    Steps(norm, Ctx(run, PlanOf(ordered), bookOrder), Begin(s), ordered)
  }
}
