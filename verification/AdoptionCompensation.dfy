// What registering, compensating and recovering do to the tables: the lemmas the adoption requests rest on.

module AdoptionCompensation {
  import opened Common
  import opened AdoptionStore
  import opened AdoptionReversal

  // ----- the rows a registration adds -----

  /** The path may be registered: untracked, or tracked by a book that is gone. */
  predicate Free(w: World, p: Path) { p in w.files ==> w.files[p].book !in w.books }

  /** Between two file tables only the listed rows of book b, and possibly one leaked row, were added. */
  ghost predicate Added(w0: World, w: World, b: Id, rows: seq<Registered>, leak: Option<Path>) {
    && (forall r :: r in rows ==> r.book == b && Owns(w.files, r) && Free(w0, r.path))
    && (leak.Some? ==>
          Owns(w.files, Registered(leak.value, b)) && Free(w0, leak.value) && Registered(leak.value, b) !in rows)
    && (forall p :: p in w.files && Registered(p, b) !in rows && leak != Some(p) ==>
          p in w0.files && w.files[p] == w0.files[p])
    && (forall p :: p in w0.files ==> p in w.files)
  }

  /** Nothing but book rows, and files, differs. */
  ghost predicate OnlyFiles(w0: World, w: World) {
    w.books.Keys == w0.books.Keys && w.authors == w0.authors
  }

  /** No row is left that was not there before, one leaked row aside. */
  ghost predicate NothingLeft(w0: World, w: World, leak: Option<Path>) {
    forall p :: p in w.files && leak != Some(p) ==> p in w0.files && w.files[p] == w0.files[p]
  }

  /** Every row that belonged to a live book is as it was. */
  ghost predicate LiveRowsUntouched(w0: World, w: World) {
    forall p :: p in w0.files && w0.files[p].book in w0.books ==> p in w.files && w.files[p] == w0.files[p]
  }

  lemma AddedOne(w0: World, w: World, b: Id, rows: seq<Registered>, f: Format, p: Path)
    requires Added(w0, w, b, rows, None) && OnlyFiles(w0, w) && b in w0.books && Creates(TrackOutcome(w, b, p))
    ensures Added(w0, Track(w, b, f, p), b, rows + [Registered(p, b)], None)
    ensures Added(w0, Track(w, b, f, p), b, rows, Some(p))
  {
    assert Registered(p, b) !in rows;
    assert Free(w0, p);
  }

  /** The stored record names every row the request inserted but at most the newest one. */
  predicate StoredBehind(stored: Record, rec: Record) {
    || stored == rec
    || (rec.registered != [] && stored == rec.(registered := rec.registered[..|rec.registered| - 1]))
  }

  ghost predicate OtherUnitsKept(w0: World, w: World, id: Id) {
    w.units.Keys == w0.units.Keys && forall u :: u in w0.units && u != id ==> w.units[u] == w0.units[u]
  }

  /** The unit is held, its stored record is rec, and rec names exactly the rows of b added since w0. */
  ghost predicate Registering(w0: World, w: World, id: Id, token: Token, b: Id, rec: Record) {
    && Holds(w, id, Adopting, token) && w.units[id].record == rec
    && b in w0.books && OnlyFiles(w0, w) && OtherUnitsKept(w0, w, id)
    && Added(w0, w, b, rec.registered, None)
  }

  /**
   * The registration stopped: the record names what was added but a leaked row, and the store is at most a row behind.
   */
  ghost predicate RegistrationStopped(w0: World, w: World, id: Id, token: Token, b: Id, rec: Record,
                                      leak: Option<Path>) {
    && Holds(w, id, Adopting, token) && (rec.registered == [] || StoredBehind(w.units[id].record, rec))
    && (leak.Some? ==> w.units[id].record == rec)
    && b in w0.books && OnlyFiles(w0, w) && OtherUnitsKept(w0, w, id)
    && Added(w0, w, b, rec.registered, leak)
  }

  ghost predicate PathsDone(w: World, paths: seq<Path>, n: nat, b: Id)
    requires n <= |paths|
  {
    forall i :: 0 <= i < n ==> paths[i] in w.files && w.files[paths[i]].book == b
  }

  /** A path that adds no row leaves the registration where it was. */
  lemma RegisteringSame(w0: World, w: World, id: Id, token: Token, b: Id, rec: Record, f: Format, p: Path)
    requires Registering(w0, w, id, token, b, rec) && TrackOutcome(w, b, p) == AlreadyTracked
    ensures Registering(w0, Refresh(Track(w, b, f, p), b), id, token, b, rec)
    ensures Refresh(Track(w, b, f, p), b).files == w.files
  {
  }

  lemma RegisteringOne(w0: World, w: World, id: Id, token: Token, b: Id, rec: Record, f: Format, p: Path)
    requires Registering(w0, w, id, token, b, rec) && Creates(TrackOutcome(w, b, p))
    ensures var w1 := Refresh(Track(w, b, f, p), b);
            var rec1 := rec.(registered := rec.registered + [Registered(p, b)]);
            && RegistrationStopped(w0, w1, id, token, b, rec1, None)
            && w1.units == w.units && w1.files == w.files[p := File(b, f)]
            && Registering(w0, SetUnit(w1, id, w1.units[id].(record := rec1)), id, token, b, rec1)
  {
    var w1 := Refresh(Track(w, b, f, p), b);
    var rec1 := rec.(registered := rec.registered + [Registered(p, b)]);
    AddedOne(w0, w, b, rec.registered, f, p);
    assert rec1.(registered := rec1.registered[..|rec1.registered| - 1]) == rec;
  }

  lemma RegisteringLeaked(w0: World, w: World, id: Id, token: Token, b: Id, rec: Record, f: Format, p: Path)
    requires Registering(w0, w, id, token, b, rec) && Creates(TrackOutcome(w, b, p))
    ensures RegistrationStopped(w0, Track(w, b, f, p), id, token, b, rec, Some(p))
  {
    AddedOne(w0, w, b, rec.registered, f, p);
  }

  /** Whatever registering a path comes to, short of a refusal. */
  lemma RegisteringAny(w0: World, w: World, id: Id, token: Token, b: Id, rec: Record, f: Format, p: Path)
    requires Registering(w0, w, id, token, b, rec)
    ensures var w1 := Refresh(Track(w, b, f, p), b);
            var rec1 := rec.(registered := rec.registered + [Registered(p, b)]);
            && (Creates(TrackOutcome(w, b, p)) ==>
                  && RegistrationStopped(w0, w1, id, token, b, rec1, None)
                  && w1.units == w.units && w1.files == w.files[p := File(b, f)]
                  && Registering(w0, SetUnit(w1, id, w1.units[id].(record := rec1)), id, token, b, rec1)
                  && RegistrationStopped(w0, Track(w, b, f, p), id, token, b, rec, Some(p)))
            && (TrackOutcome(w, b, p) == AlreadyTracked ==>
                  Registering(w0, w1, id, token, b, rec) && w1.files == w.files)
  {
    if Creates(TrackOutcome(w, b, p)) {
      RegisteringOne(w0, w, id, token, b, rec, f, p);
      RegisteringLeaked(w0, w, id, token, b, rec, f, p);
    } else if TrackOutcome(w, b, p) == AlreadyTracked {
      RegisteringSame(w0, w, id, token, b, rec, f, p);
    }
  }

  // ----- what compensation comes to -----

  /** The adoption created neither its book nor an author. */
  predicate IntoExisting(rec: Record) { rec.createdBook == 0 && rec.createdAuthor == 0 }

  /**
   * A failed adopt was fully reversed: nothing it inserted is left, a leaked row of b aside, and nothing else changed.
   */
  ghost predicate Compensated(w0: World, w: World, id: Id, b: Id, leak: Option<Path>) {
    && NothingLeft(w0, w, leak) && LiveRowsUntouched(w0, w) && OnlyFiles(w0, w) && OtherUnitsKept(w0, w, id)
    && (leak.Some? ==> Owns(w.files, Registered(leak.value, b)) && Free(w0, leak.value))
  }

  /** The unit is still claimed, and its record names every row added since w0, one loose row aside. */
  ghost predicate RowsOnRecord(w0: World, w: World, id: Id, token: Token, b: Id, loose: Option<Path>) {
    && Holds(w, id, Adopting, token)
    && forall p :: p in w.files && loose != Some(p) && !(p in w0.files && w.files[p] == w0.files[p]) ==>
         Registered(p, b) in w.units[id].record.registered
  }

  /** A failed adopt could not be fully reversed: what it inserted is named in the record kept, one loose row aside. */
  ghost predicate ClaimKept(w0: World, w: World, id: Id, token: Token, b: Id, loose: Option<Path>) {
    && RowsOnRecord(w0, w, id, token, b, loose) && LiveRowsUntouched(w0, w) && OnlyFiles(w0, w)
    && OtherUnitsKept(w0, w, id)
  }

  /** Reversing rows of an adoption into an existing book changes only book rows and takes recorded rows away. */
  ghost predicate RowsTaken(w: World, w': World, rows: seq<Registered>) {
    && OnlyFiles(w, w') && w'.units == w.units
    && (forall p :: p in w'.files ==> p in w.files && w'.files[p] == w.files[p])
    && (forall p :: p in w.files && Registered(p, w.files[p].book) !in rows ==> p in w'.files)
  }

  lemma UntrackingTakesRows(w: World, r: Record, done: nat, torn: bool)
    requires done <= |r.registered| && (torn ==> done < |r.registered|)
    ensures var w1 := UntrackAll(ReverseLink(w, r.link), r.registered[..done]);
            var w2 := if torn && Owns(w1.files, r.registered[done]) then DropRow(w1, r.registered[done]) else w1;
            RowsTaken(w, w2, r.registered)
  {
    ReverseLinkKeepsFiles(w, r.link);
    UntrackAllFiles(ReverseLink(w, r.link), r.registered[..done]);
    assert forall x :: x in r.registered[..done] ==> x in r.registered;
  }

  lemma RestoreTakesRows(w: World, r: Record, readable: bool)
    ensures RowsTaken(w, Restored(w, r, readable), r.registered)
  {
    RestoredFiles(w, r, readable);
  }

  lemma PartlyReversedTakesRows(w: World, id: Id, r: Record, readable: bool, s: Stop)
    requires StopFits(s, w, r) && IntoExisting(r)
    ensures RowsTaken(w, PartlyReversed(w, id, r, readable, s), r.registered)
  {
    match s
    case Untouched =>
    case InRows(done, torn) => UntrackingTakesRows(w, r, done, torn);
    case AfterRestore => RestoreTakesRows(w, r, readable);
    case AfterBook => RestoreTakesRows(w, r, readable);
  }

  /** The row the stored record is behind by, or the leaked one. */
  function LooseRow(stored: Record, rec: Record, leak: Option<Path>): Option<Path> {
    if leak.Some? then leak
    else if rec.registered != [] && |stored.registered| < |rec.registered|
        then Some(rec.registered[|rec.registered| - 1].path)
    else None
  }

  lemma StoppedOnRecord(w0: World, w: World, id: Id, token: Token, b: Id, rec: Record, leak: Option<Path>)
    requires RegistrationStopped(w0, w, id, token, b, rec, leak)
    ensures RowsOnRecord(w0, w, id, token, b, LooseRow(w.units[id].record, rec, leak))
  {
    var stored := w.units[id].record;
    forall p | p in w.files && LooseRow(stored, rec, leak) != Some(p) && !(p in w0.files && w.files[p] == w0.files[p])
      ensures Registered(p, b) in stored.registered
    {
      assert Registered(p, b) in rec.registered;
      if stored != rec {
        var n := |rec.registered| - 1;
        var i :| 0 <= i <= n && rec.registered[i] == Registered(p, b);
        assert stored.registered[i] == Registered(p, b);
      }
    }
  }

  /** A reversal that stops takes rows away and keeps the claim, so what is left stays on record. */
  lemma UnfinishedOnRecord(w0: World, w: World, id: Id, token: Token, b: Id, rec: Record, loose: Option<Path>,
                           readable: bool, s: Stop)
    requires RowsOnRecord(w0, w, id, token, b, loose) && StopFits(s, w, rec)
    ensures RowsOnRecord(w0, PartlyReversed(w, id, rec, readable, s), id, token, b, loose)
  {
    PartlyReversedShrinks(w, id, rec, readable, s);
    PartlyReversedKeepsClaim(w, id, rec, readable, s, id);
  }

  lemma StoppedAndUnfinished(w0: World, w: World, w': World, id: Id, token: Token, b: Id, rec: Record,
                             leak: Option<Path>)
    requires RegistrationStopped(w0, w, id, token, b, rec, leak) && RowsTaken(w, w', rec.registered)
    ensures ClaimKept(w0, w', id, token, b, LooseRow(w.units[id].record, rec, leak))
  {
    StoppedOnRecord(w0, w, id, token, b, rec, leak);
  }

  lemma StoppedAndReversed(w0: World, w: World, id: Id, token: Token, b: Id, rec: Record, leak: Option<Path>,
                           readable: bool)
    requires RegistrationStopped(w0, w, id, token, b, rec, leak)
    ensures NothingLeft(w0, Reversed(w, id, rec, readable), leak)
    ensures IntoExisting(rec) ==> Compensated(w0, Reversed(w, id, rec, readable), id, b, leak)
    ensures IntoExisting(rec) ==> Holds(Reversed(w, id, rec, readable), id, Adopting, token)
  {
    RestoredFiles(w, rec, readable);
    ReversalUntracksExactlyTheRecord(w, id, rec, readable);
  }

  /**
   * The row inserted just before a failed status refresh is not on record, so a reversal that finishes leaves it: the
   * path stays with the book the request could not be given.
   */
  lemma LeakedRowStays(w0: World, w: World, id: Id, token: Token, b: Id, rec: Record, f: Format, p: Path,
                       readable: bool)
    requires Registering(w0, w, id, token, b, rec) && Creates(TrackOutcome(w, b, p))
    ensures Owns(Reversed(Track(w, b, f, p), id, rec, readable).files, Registered(p, b))
    ensures !Owns(w0.files, Registered(p, b))
  {
    AddedOne(w0, w, b, rec.registered, f, p);
    ReversalUntracksExactlyTheRecord(Track(w, b, f, p), id, rec, readable);
  }

  /** One wanted book, and unit 7 just claimed for adoption into it. */
  function JustClaimed(): World {
    World(map[7 := Unit(Adopting, Some(0), FirstRecord())], map[1 := Book(3, Wanted, EbookOnly, 0)], {3}, map[], {})
  }

  function FirstRecord(): Record { NO_RECORD.(bookId := 1, prior := Some(Wanted)) }

  /** Adopting one file, whose insertion succeeds and whose refresh fails: the request is refused, the row is left. */
  lemma RefusedAdoptionLeavesARow()
    ensures var w := JustClaimed();
            && Registering(w, w, 7, 0, 1, FirstRecord())
            && Reversed(Track(w, 1, Ebook, "dune.epub"), 7, FirstRecord(), true).files ==
               map["dune.epub" := File(1, Ebook)]
  {
    var w := JustClaimed();
    assert Added(w, w, 1, [], None);
    ReversalUntracksExactlyTheRecord(Track(w, 1, Ebook, "dune.epub"), 7, FirstRecord(), true);
  }

  /** The rows recorded for a completed adoption, and what it left besides. */
  ghost predicate AdoptedWith(w0: World, w: World, id: Id, b: Id, paths: seq<Path>) {
    && id in w.units && w.units[id].state == Adopted && w.units[id].token == None && w.units[id].record.bookId == b
    && OtherUnitsKept(w0, w, id) && PathsDone(w, paths, |paths|, b) && OnlyFiles(w0, w)
    && (forall p :: p in w.files && !(p in w0.files && w.files[p] == w0.files[p]) ==>
          Registered(p, b) in w.units[id].record.registered)
    && (IntoExisting(w.units[id].record) ==> Added(w0, w, b, w.units[id].record.registered, None))
    && (w.units[id].record.createdBook > 0 ==>
          && (forall p :: p in w.files && w.files[p].book == b ==> Registered(p, b) in w.units[id].record.registered)
          && b in w.books && w.units[id].record.fingerprint == Some(w.books[b].version))
  }

  /** What a record says from the start: the book, its status before, and what the adoption created. */
  predicate SameStart(r: Record, rec: Record) {
    r.bookId == rec.bookId && r.prior == rec.prior && r.createdBook == rec.createdBook
        && r.createdAuthor == rec.createdAuthor
  }

  /** No book and no author is gone but what the record says was created. */
  ghost predicate OnlyCreatedGone(w: World, w': World, rec: Record) {
    && (forall b :: b in w.books && (b != rec.createdBook || b == 0) ==> b in w'.books)
    && (forall a :: a in w.authors && (a != rec.createdAuthor || a == 0) ==> a in w'.authors)
  }

  lemma PartlyReversedRemovesOnlyCreated(w: World, id: Id, rec: Record, readable: bool, s: Stop)
    requires StopFits(s, w, rec)
    ensures OnlyCreatedGone(w, PartlyReversed(w, id, rec, readable, s), rec)
  {
    match s
    case Untouched =>
    case InRows(done, torn) => UntrackingTakesRows(w, rec, done, torn);
    case AfterRestore => RestoreTakesRows(w, rec, readable);
    case AfterBook => RestoreTakesRows(w, rec, readable);
  }

  lemma ReversedRemovesOnlyCreated(w: World, id: Id, rec: Record, readable: bool)
    ensures OnlyCreatedGone(w, Reversed(w, id, rec, readable), rec)
  {
    ReversalDeletesOnlyUnusedBook(w, id, rec, readable);
    ReversalDeletesOnlyBarrenAuthor(w, id, rec, readable);
  }

  /** What the record calls created was not there in the earlier state. */
  predicate CreatedSince(w0: World, rec: Record) {
    && (rec.createdBook > 0 ==> rec.createdBook !in w0.books)
    && (rec.createdAuthor > 0 ==> rec.createdAuthor !in w0.authors)
  }

  /** Main result: undoing an adoption deletes no book and no author that was there before the adoption. */
  lemma UndoKeepsWhatWasThere(before: World, w: World, w': World, id: Id)
    requires id in w.units && CreatedSince(before, w.units[id].record) && Undone(w, w', id)
    ensures forall b :: b in before.books && b in w.books ==> b in w'.books
    ensures forall a :: a in before.authors && a in w.authors ==> a in w'.authors
  {
  }

  /**
   * Main result: adopting into a book of the library and undoing it gives every row of a live book back, and no more.
   */
  lemma UndoGivesBackTheFiles(w0: World, w: World, w': World, id: Id, b: Id, paths: seq<Path>)
    requires AdoptedWith(w0, w, id, b, paths) && IntoExisting(w.units[id].record) && Undone(w, w', id)
    ensures NothingLeft(w0, w', None) && LiveRowsUntouched(w0, w') && OnlyFiles(w0, w')
  {
  }

  /** A series hint adds at most one membership of the adopted book, and records it with the claim. */
  function Linked(w: World, id: Id, link: SeriesLink): World
    requires id in w.units
  {
    SetUnit(Touch(w.(links := w.links + {link}), link.book), id,
            w.units[id].(record := w.units[id].record.(link := Some(link))))
  }

  lemma FirstProgress(w0: World, w: World, id: Id, token: Token, b: Id, rec: Record)
    requires Holds(w, id, Adopting, token) && w.files == w0.files && OnlyFiles(w0, w) && OtherUnitsKept(w0, w, id)
    requires rec.registered == [] && b in w0.books
    ensures Registering(w0, SetUnit(w, id, w.units[id].(record := rec)), id, token, b, rec)
    ensures NothingLeft(w0, w, None) && LiveRowsUntouched(w0, w)
  {
  }

  /** The record lists every row of the created book, whoever added it. */
  ghost predicate Rebuilt(w0: World, w: World, b: Id, rec: Record) {
    && rec.createdBook > 0
    && (forall p :: p in w.files && w.files[p].book == b ==> Registered(p, b) in rec.registered)
    && (forall p :: p in w.files ==> w.files[p].book == b || (p in w0.files && w.files[p] == w0.files[p]))
  }

  lemma RebuiltAndReversed(w0: World, w: World, id: Id, b: Id, rec: Record, readable: bool)
    requires Rebuilt(w0, w, b, rec)
    ensures NothingLeft(w0, Reversed(w, id, rec, readable), None)
  {
    ReversalUntracksExactlyTheRecord(w, id, rec, readable);
  }

  /** What became of the claim of a refused request: not obtained, released, or (the release failed) still held. */
  datatype ClaimEnd = NotClaimed | Released | StillHeld

  predicate EndsAs(end: ClaimEnd, w0: World, w: World, id: Id, token: Token) {
    match end
    case NotClaimed => w == w0
    case Released => id in w.units && w.units[id] == Unit(Pending, None, NO_RECORD)
    case StillHeld => Holds(w, id, Adopting, token)
  }

  /** Reversing clears at most references: every unit keeps its state, its claim and its recorded rows. */
  ghost predicate ClaimsKept(w: World, w': World, u: Id) {
    u in w.units ==>
      && u in w'.units && w'.units[u].state == w.units[u].state && w'.units[u].token == w.units[u].token
      && w'.units[u].record.registered == w.units[u].record.registered
  }

  lemma RemoveCreatedBookKeepsClaim(w: World, id: Id, rec: Record, u: Id)
    ensures ClaimsKept(w, RemoveCreatedBook(w, id, rec), u)
  {
  }

  lemma ReversedKeepsClaim(w: World, id: Id, rec: Record, readable: bool, u: Id)
    ensures ClaimsKept(w, Reversed(w, id, rec, readable), u)
  {
    RestoredFiles(w, rec, readable);
    RemoveCreatedBookKeepsClaim(Restored(w, rec, readable), id, rec, u);
  }

  lemma PartlyReversedKeepsClaim(w: World, id: Id, rec: Record, readable: bool, s: Stop, u: Id)
    requires StopFits(s, w, rec)
    ensures ClaimsKept(w, PartlyReversed(w, id, rec, readable, s), u)
  {
    match s
    case Untouched =>
    case InRows(done, torn) =>
      ReverseLinkKeepsFiles(w, rec.link);
      UntrackAllFiles(ReverseLink(w, rec.link), rec.registered[..done]);
    case AfterRestore => RestoredFiles(w, rec, readable);
    case AfterBook =>
      RestoredFiles(w, rec, readable);
      RemoveCreatedBookKeepsClaim(Restored(w, rec, readable), id, rec, u);
  }

  // ----- what an undo comes to -----

  /** The adoption of unit id was taken back: the unit is pending, its rows and hint are gone, and what it created. */
  ghost predicate Undone(w0: World, w: World, id: Id)
    requires id in w0.units
  {
    var r := w0.units[id].record;
    && id in w.units && w.units[id] == Unit(Pending, None, NO_RECORD)
    && (forall u :: u in w0.units && u != id ==> ClaimsKept(w0, w, u))
    && w.files == WithoutRows(w0.files, r.registered)
    && w.books.Keys == (if MayDeleteBook(w0, id, r) then w0.books.Keys - {r.createdBook} else w0.books.Keys)
    && w.authors == (if MayDeleteAuthor(w0, id, r) then w0.authors - {r.createdAuthor} else w0.authors)
    && LinksUndone(w0, w, r)
  }

  /** The recorded membership is gone, and of the others at most those of a deleted book. */
  ghost predicate LinksUndone(w0: World, w: World, r: Record) {
    forall l: SeriesLink ::
      && (l in w.links ==> l in w0.links && !Recorded(r, l))
      && (l in w0.links && !Recorded(r, l) && (l.book in w0.books ==> l.book in w.books) ==> l in w.links)
  }

  /** No row of any table was touched, and of the units at most the claim of one. */
  ghost predicate OnlyClaimed(w0: World, w: World, id: Id) {
    && w == w0.(units := w.units) && OtherUnitsKept(w0, w, id)
    && (id in w0.units ==>
          && w.units[id].record == w0.units[id].record && w.units[id].state in {w0.units[id].state, Undoing})
  }

  lemma OthersClaimsKept(w0: World, w: World, w': World, id: Id)
    requires OtherUnitsKept(w0, w, id) && forall u :: u in w.units ==> ClaimsKept(w, w', u)
    ensures forall u :: u in w0.units && u != id ==> ClaimsKept(w0, w', u)
  {
    forall u | u in w0.units && u != id ensures ClaimsKept(w0, w', u) { assert ClaimsKept(w, w', u); }
  }

  lemma ClaimKeepsGuards(w: World, id: Id, u: Unit, r: Record)
    requires id in w.units
    ensures MayDeleteBook(SetUnit(w, id, u), id, r) <==> MayDeleteBook(w, id, r)
    ensures MayDeleteAuthor(SetUnit(w, id, u), id, r) <==> MayDeleteAuthor(w, id, r)
  {
    var w' := SetUnit(w, id, u);
    assert forall v :: v in w'.units && v != id ==> w'.units[v] == w.units[v];
    assert forall v :: v in w.units && v != id ==> w'.units[v] == w.units[v];
    assert BookReferencedElsewhere(w', r.createdBook, id) <==> BookReferencedElsewhere(w, r.createdBook, id);
    assert AuthorReferencedElsewhere(w', r.createdAuthor, id) <==> AuthorReferencedElsewhere(w, r.createdAuthor, id);
  }

  lemma ReversalUndoes(w0: World, id: Id, u: Unit, readable: bool)
    requires id in w0.units
    ensures var w1 := Reversed(SetUnit(w0, id, u), id, w0.units[id].record, readable);
            Undone(w0, SetUnit(w1, id, Unit(Pending, None, NO_RECORD)), id)
  {
    var w, r := SetUnit(w0, id, u), w0.units[id].record;
    var w1 := Reversed(w, id, r, readable);
    ReversalUntracksExactlyTheRecord(w, id, r, readable);
    ReversalDeletesOnlyUnusedBook(w, id, r, readable);
    ReversalDeletesOnlyBarrenAuthor(w, id, r, readable);
    ClaimKeepsGuards(w0, id, u, r);
    forall v | v in w0.units && v != id ensures ClaimsKept(w0, w1, v) { ReversedKeepsClaim(w, id, r, readable, v); }
    ReversalUnlinks(w0, id, u, readable);
  }

  lemma ReversalUnlinks(w0: World, id: Id, u: Unit, readable: bool)
    requires id in w0.units
    ensures LinksUndone(w0, Reversed(SetUnit(w0, id, u), id, w0.units[id].record, readable), w0.units[id].record)
  {
    forall l: SeriesLink
      ensures var w', r := Reversed(SetUnit(w0, id, u), id, w0.units[id].record, readable), w0.units[id].record;
              && (l in w'.links ==> l in w0.links && !Recorded(r, l))
              && (l in w0.links && !Recorded(r, l) && (l.book in w0.books ==> l.book in w'.books) ==> l in w'.links)
    {
      ReversalUnlinksExactlyTheHint(SetUnit(w0, id, u), id, w0.units[id].record, readable, l);
    }
  }

  // ----- recovery of several claims -----

  ghost predicate RowsGone(w: World, rows: seq<Registered>) {
    forall p :: p in w.files ==> Registered(p, w.files[p].book) !in rows
  }

  /** The unit is pending again, and no row it had recorded is left. */
  ghost predicate Recovered(w0: World, w: World, u: Id) {
    && u in w0.units && u in w.units && w.units[u] == Unit(Pending, None, NO_RECORD)
    && RowsGone(w, w0.units[u].record.registered)
  }

  ghost predicate OnlyRecordedRowsGone(w0: World, w: World, stale: seq<Id>) {
    && (forall p :: p in w.files ==> p in w0.files && w.files[p] == w0.files[p])
    && (forall p :: p in w0.files && p !in w.files ==> RecordedByOne(w0, stale, Registered(p, w0.files[p].book)))
  }

  /** No book and no author is gone but what one of these units created. */
  ghost predicate OnlyTheirsGone(w0: World, w: World, stale: seq<Id>) {
    && (forall b :: b in w0.books && b !in w.books ==>
          exists u :: u in stale && u in w0.units && w0.units[u].record.createdBook == b)
    && (forall a :: a in w0.authors && a !in w.authors ==>
          exists u :: u in stale && u in w0.units && w0.units[u].record.createdAuthor == a)
  }

  ghost predicate RecordedByOne(w0: World, stale: seq<Id>, r: Registered) {
    exists u :: u in stale && u in w0.units && r in w0.units[u].record.registered
  }

  /** Every unit is still claimed as at the start, or recovered. */
  ghost predicate Recovering(w0: World, w: World, stale: seq<Id>) {
    forall u :: u in w0.units ==> ClaimsKept(w0, w, u) || (u in stale && Recovered(w0, w, u))
  }

  ghost predicate FilesShrink(w: World, w': World, rows: seq<Registered>) {
    && (forall p :: p in w'.files ==> p in w.files && w'.files[p] == w.files[p])
    && (forall p :: p in w.files && p !in w'.files ==> Registered(p, w.files[p].book) in rows)
  }

  lemma ShrinkingRecovers(w0: World, w: World, w': World, u: Id, rows: seq<Registered>, stale: seq<Id>)
    requires u in stale && u in w0.units && w0.units[u].record.registered == rows
    requires Recovering(w0, w, stale) && OnlyRecordedRowsGone(w0, w, stale) && FilesShrink(w, w', rows)
    requires forall v :: v in w.units ==>
               ClaimsKept(w, w', v) && (w.units[v].record == NO_RECORD ==> w'.units[v] == w.units[v])
    ensures Recovering(w0, w', stale) && OnlyRecordedRowsGone(w0, w', stale)
  {
    forall p | p in w0.files && p !in w'.files ensures RecordedByOne(w0, stale, Registered(p, w0.files[p].book)) {
      if p in w.files { assert Registered(p, w0.files[p].book) in w0.units[u].record.registered; }
    }
    forall v | v in w0.units ensures ClaimsKept(w0, w', v) || (v in stale && Recovered(w0, w', v)) {
      assert ClaimsKept(w0, w, v) || (v in stale && Recovered(w0, w, v));
    }
  }

  lemma RemovalsKeepBlank(w: World, id: Id, rec: Record, v: Id)
    requires v in w.units && w.units[v].record == NO_RECORD
    ensures v in RemoveCreatedBook(w, id, rec).units && RemoveCreatedBook(w, id, rec).units[v] == w.units[v]
    ensures v in RemoveCreatedAuthor(w, id, rec).units && RemoveCreatedAuthor(w, id, rec).units[v] == w.units[v]
  {
    assert w.units[v] == w.units[v].(record := NO_RECORD);
  }

  lemma ReversedKeepsBlank(w: World, id: Id, rec: Record, readable: bool, v: Id)
    requires v in w.units && w.units[v].record == NO_RECORD
    ensures v in Reversed(w, id, rec, readable).units && Reversed(w, id, rec, readable).units[v] == w.units[v]
  {
    RestoredFiles(w, rec, readable);
    RemovalsKeepBlank(Restored(w, rec, readable), id, rec, v);
    RemovalsKeepBlank(RemoveCreatedBook(Restored(w, rec, readable), id, rec), id, rec, v);
  }

  lemma PartlyReversedKeepsBlank(w: World, id: Id, rec: Record, readable: bool, s: Stop, v: Id)
    requires StopFits(s, w, rec) && v in w.units && w.units[v].record == NO_RECORD
    ensures v in PartlyReversed(w, id, rec, readable, s).units
    ensures PartlyReversed(w, id, rec, readable, s).units[v] == w.units[v]
  {
    match s
    case Untouched =>
    case InRows(done, torn) =>
      ReverseLinkKeepsFiles(w, rec.link);
      UntrackAllFiles(ReverseLink(w, rec.link), rec.registered[..done]);
    case AfterRestore => RestoredFiles(w, rec, readable);
    case AfterBook =>
      RestoredFiles(w, rec, readable);
      RemovalsKeepBlank(Restored(w, rec, readable), id, rec, v);
  }

  lemma PartlyReversedShrinks(w: World, id: Id, rec: Record, readable: bool, s: Stop)
    requires StopFits(s, w, rec)
    ensures FilesShrink(w, PartlyReversed(w, id, rec, readable, s), rec.registered)
  {
    match s
    case Untouched =>
    case InRows(done, torn) => UntrackingTakesRows(w, rec, done, torn);
    case AfterRestore => RestoreTakesRows(w, rec, readable);
    case AfterBook =>
      RestoreTakesRows(w, rec, readable);
      RemoveCreatedBookKeepsFiles(Restored(w, rec, readable), id, rec);
  }

  lemma PartReversalRecovers(w0: World, w: World, u: Id, rec: Record, readable: bool, s: Stop, stale: seq<Id>)
    requires u in stale && u in w0.units && w0.units[u].record == rec && StopFits(s, w, rec)
    requires Recovering(w0, w, stale) && OnlyRecordedRowsGone(w0, w, stale)
    ensures Recovering(w0, PartlyReversed(w, u, rec, readable, s), stale)
    ensures OnlyRecordedRowsGone(w0, PartlyReversed(w, u, rec, readable, s), stale)
  {
    var w' := PartlyReversed(w, u, rec, readable, s);
    PartlyReversedShrinks(w, u, rec, readable, s);
    forall v | v in w.units
      ensures ClaimsKept(w, w', v) && (w.units[v].record == NO_RECORD ==> w'.units[v] == w.units[v])
    {
      PartlyReversedKeepsClaim(w, u, rec, readable, s, v);
      if w.units[v].record == NO_RECORD { PartlyReversedKeepsBlank(w, u, rec, readable, s, v); }
    }
    ShrinkingRecovers(w0, w, w', u, rec.registered, stale);
  }

  lemma ReversalRecovers(w0: World, w: World, u: Id, rec: Record, readable: bool, stale: seq<Id>)
    requires u in stale && u in w0.units && w0.units[u].record == rec
    requires Recovering(w0, w, stale) && OnlyRecordedRowsGone(w0, w, stale)
    ensures Recovering(w0, Reversed(w, u, rec, readable), stale)
    ensures OnlyRecordedRowsGone(w0, Reversed(w, u, rec, readable), stale)
    ensures RowsGone(Reversed(w, u, rec, readable), rec.registered)
  {
    var w' := Reversed(w, u, rec, readable);
    ReversalUntracksExactlyTheRecord(w, u, rec, readable);
    forall v | v in w.units
      ensures ClaimsKept(w, w', v) && (w.units[v].record == NO_RECORD ==> w'.units[v] == w.units[v])
    {
      ReversedKeepsClaim(w, u, rec, readable, v);
      if w.units[v].record == NO_RECORD { ReversedKeepsBlank(w, u, rec, readable, v); }
    }
    ShrinkingRecovers(w0, w, w', u, rec.registered, stale);
  }

  /** A recovered unit stays so: its claim, which it no longer has, is not what the others leave it. */
  lemma RecoveredStays(w0: World, w: World, w': World, stale: seq<Id>, v: Id)
    requires v in w0.units && w0.units[v].token.Some? && Recovered(w0, w, v)
    requires ClaimsKept(w, w', v) && Recovering(w0, w', stale)
    ensures Recovered(w0, w', v)
  {
    assert !ClaimsKept(w0, w', v);
  }

  /** With its rows gone, a unit whose claim could not be released has none any more, or is still claimed. */
  lemma ReleasedOrRecovered(w0: World, w: World, u: Id, stale: seq<Id>)
    requires u in w0.units && w0.units[u].token.Some? && Recovering(w0, w, stale)
    requires !Holds(w, u, w0.units[u].state, w0.units[u].token.value)
    ensures Recovered(w0, w, u)
  {
    assert !ClaimsKept(w0, w, u);
  }

  lemma ResetRecovers(w0: World, w: World, u: Id, stale: seq<Id>)
    requires u in stale && u in w0.units && u in w.units && RowsGone(w, w0.units[u].record.registered)
    requires Recovering(w0, w, stale) && OnlyRecordedRowsGone(w0, w, stale)
    ensures Recovering(w0, SetUnit(w, u, Unit(Pending, None, NO_RECORD)), stale)
    ensures OnlyRecordedRowsGone(w0, SetUnit(w, u, Unit(Pending, None, NO_RECORD)), stale)
  {
    var w' := SetUnit(w, u, Unit(Pending, None, NO_RECORD));
    forall v | v in w0.units ensures ClaimsKept(w0, w', v) || (v in stale && Recovered(w0, w', v)) {
      assert ClaimsKept(w0, w, v) || (v in stale && Recovered(w0, w, v));
    }
  }
}
