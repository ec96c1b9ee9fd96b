// The requests that adopt a unit, undo an adoption, and recover claims that dead requests left behind.
// Fails() stands for a store call that may fail; nothing else touches the tables while a request runs.

module AdoptionHandler {
  import opened Common
  import opened AdoptionStore
  import opened AdoptionReversal
  import opened AdoptionCompensation

  datatype Answer = Done | Refused | Unfinished

  /** A row is left behind exactly when a status refresh failed after an insertion, and it is one of the paths. */
  predicate LooseWhenTorn(torn: bool, loose: Option<Path>, paths: seq<Path>) {
    (torn <==> loose.Some?) && (torn ==> loose.value in paths)
  }

  /** Another unit is being adopted, or was adopted, into the book, and recorded the status it found. */
  predicate AdoptsElsewhere(w: World, id: Id, b: Id, u: Id) {
    && u in w.units && u != id && w.units[u].record.bookId == b && w.units[u].state in {Adopting, Adopted}
    && w.units[u].record.prior.Some?
  }

  ghost predicate SkippedElsewhere(w: World, id: Id, b: Id) {
    exists u :: AdoptsElsewhere(w, id, b, u) && w.units[u].record.prior == Some(Skipped)
  }

  /** There is such a unit, and each of them found the book skipped. */
  ghost predicate OnlySkippedElsewhere(w: World, id: Id, b: Id) {
    && (exists u :: AdoptsElsewhere(w, id, b, u))
    && forall u :: AdoptsElsewhere(w, id, b, u) ==> w.units[u].record.prior == Some(Skipped)
  }

  /** One of the files already belongs to a live book other than b (0: to any). */
  predicate SomeOwned(w: World, paths: seq<Path>, b: Id) {
    exists i :: 0 <= i < |paths| && OwnedByOther(w, paths[i], b)
  }

  lemma OwnedAmongAll(w: World, paths: seq<Path>, members: seq<Path>, n: nat, b: Id)
    requires n < |paths|
    ensures OwnedByOther(w, paths[n], b) ==> SomeOwned(w, paths + members, b)
  {
    assert (paths + members)[n] == paths[n];
  }

  /** The unit is waiting, the request is accepted, and no file belongs to a book. */
  predicate Adoptable(w: World, id: Id, accepted: bool, paths: seq<Path>) {
    id in w.units && w.units[id].state == Pending && accepted && !SomeOwned(w, paths, 0) && 0 !in w.books
  }

  predicate OwnedByOther(w: World, p: Path, b: Id) {
    p in w.files && w.files[p].book in w.books && w.files[p].book != b
  }

  /** Only claims may differ. */
  ghost predicate SameTables(w0: World, w: World) { w == w0.(units := w.units) }

  /** The book is in the series already, at whatever position. */
  predicate IsMember(links: set<SeriesLink>, link: SeriesLink) {
    exists l :: l in links && l.series == link.series && l.book == link.book
  }

  /** At most the hinted membership was added, it is on record, and with a hint the book is in the series. */
  ghost predicate LinkedAsHinted(w0: World, w: World, b: Id, r: Record, hint: Option<SeriesLink>) {
    && (w.links == w0.links || (hint.Some? && r.link.Some? && w.links == w0.links + {r.link.value}))
    && (hint.Some? ==> IsMember(w.links, hint.value.(book := b)))
  }

  /** Tracking a path gives the book no row that another live book owns. */
  lemma TrackingTakesNoOwner(w: World, b: Id, f: Format, p: Path)
    ensures forall q :: OwnedByOther(Track(w, b, f, p), q, b) ==> OwnedByOther(w, q, b)
    ensures forall q :: OwnedByOther(Refresh(Track(w, b, f, p), b), q, b) ==> OwnedByOther(w, q, b)
    ensures forall q :: q in w.files && w.files[q].book == b ==>
              q in Track(w, b, f, p).files && Track(w, b, f, p).files[q].book == b
  {
  }

  /** The record keeps the status the book had, or, if another adoption found it skipped, that. */
  ghost predicate RecordsPrior(w: World, id: Id, b: Id, r: Record)
    requires b in w.books
  {
    && (r.prior == Some(w.books[b].status) || (r.prior == Some(Skipped) && SkippedElsewhere(w, id, b)))
    && (OnlySkippedElsewhere(w, id, b) ==> r.prior == Some(Skipped))
  }

  lemma OwnClaimDecidesNothing(w0: World, w: World, id: Id, b: Id, r: Record)
    requires b in w0.books && w.books == w0.books && OtherUnitsKept(w0, w, id) && RecordsPrior(w, id, b, r)
    ensures forall r' :: SameStart(r', r) ==> RecordsPrior(w0, id, b, r')
  {
    assert forall u :: AdoptsElsewhere(w, id, b, u) <==> AdoptsElsewhere(w0, id, b, u);
  }

  /** The record names the book, and the author, as created exactly when the add made it. */
  ghost predicate RecordsCreated(before: World, w0: World, b: Id, r: Record) {
    && r.bookId == b && r.createdBook == (if b in before.books then 0 else b) && CreatedSince(before, r)
    && w0.authors == before.authors + (if r.createdAuthor > 0 then {r.createdAuthor} else {})
    && (b !in before.books ==> r.prior == None)
  }

  class Handler {
    var world: World
    /** How many calls have failed. */
    ghost var faults: nat
    var nextToken: Token
    const formatFor: (Path, Format) -> Format

    constructor (w: World, formatFor: (Path, Format) -> Format)
      ensures world == w && this.formatFor == formatFor && faults == 0
    {
      world, nextToken, faults := w, 0, 0;
      this.formatFor := formatFor;
    }

    /** Whether the next call fails. */
    method Fails() returns (fault: bool)
      modifies this`faults
      ensures faults == old(faults) + (if fault then 1 else 0)
    {
      fault := *;
      if fault { faults := faults + 1; }
    }

    // ----- claims -----

    method Claim(id: Id, from: UnitState, to: UnitState) returns (token: Option<Token>)
      modifies this
      ensures token.None? ==> world == old(world)
      ensures nextToken >= old(nextToken)
      ensures token.Some? ==> old(nextToken) <= token.value < nextToken
      ensures faults >= old(faults)
      ensures faults == old(faults) ==>
                (token.Some? <==> id in old(world).units && old(world).units[id].state == from)
      ensures token.Some? ==> id in old(world).units && old(world).units[id].state == from
      ensures token.Some? ==> world == SetUnit(old(world), id, old(world).units[id].(state := to, token := token))
    {
      var fault := Fails();
      if fault { return None; }
      if id !in world.units || world.units[id].state != from { return None; }
      token := Some(nextToken);
      nextToken := nextToken + 1;
      world := SetUnit(world, id, world.units[id].(state := to, token := token));
    }

    /** Write the record of a held claim; false when the claim is lost or the store fails. */
    method Progress(id: Id, token: Token, rec: Record) returns (ok: bool)
      modifies this`world, this`faults
      ensures ok ==> Holds(old(world), id, Adopting, token)
      ensures faults >= old(faults) && (faults == old(faults) && Holds(old(world), id, Adopting, token) ==> ok)
      ensures world == if ok then SetUnit(old(world), id, old(world).units[id].(record := rec)) else old(world)
    {
      var fault := Fails();
      if fault { return false; }
      ok := Holds(world, id, Adopting, token);
      if ok { world := SetUnit(world, id, world.units[id].(record := rec)); }
    }

    method CompleteAdoption(id: Id, token: Token, rec: Record) returns (ok: bool)
      modifies this`world, this`faults
      ensures ok ==> Holds(old(world), id, Adopting, token)
      ensures faults >= old(faults) && (faults == old(faults) && Holds(old(world), id, Adopting, token) ==> ok)
      ensures world == if ok then SetUnit(old(world), id, Unit(Adopted, None, rec)) else old(world)
    {
      var fault := Fails();
      if fault { return false; }
      ok := Holds(world, id, Adopting, token);
      if ok { world := SetUnit(world, id, Unit(Adopted, None, rec)); }
    }

    method ResetToPending(id: Id, from: UnitState, token: Token) returns (ok: bool)
      modifies this`world, this`faults
      ensures ok ==> Holds(old(world), id, from, token)
      ensures faults >= old(faults) && (faults == old(faults) && Holds(old(world), id, from, token) ==> ok)
      ensures world == if ok then SetUnit(old(world), id, Unit(Pending, None, NO_RECORD)) else old(world)
    {
      var fault := Fails();
      if fault { return false; }
      ok := Holds(world, id, from, token);
      if ok { world := SetUnit(world, id, Unit(Pending, None, NO_RECORD)); }
    }

    // ----- registering files -----

    /** Whether any path belongs to a live book other than b (0: to any). */
    method CheckOwnership(paths: seq<Path>, b: Id) returns (refused: bool)
      modifies this`faults
      ensures faults >= old(faults) && (faults == old(faults) && refused ==> SomeOwned(world, paths, b))
      ensures SomeOwned(world, paths, b) ==> refused
      ensures !refused ==> forall p :: p in paths ==> Free(world, p) || world.files[p].book == b
    {
      for n := 0 to |paths|
        invariant forall i :: 0 <= i < n ==> Free(world, paths[i]) || world.files[paths[i]].book == b
        invariant forall i :: 0 <= i < n ==> !OwnedByOther(world, paths[i], b)
        invariant faults == old(faults)
      {
        var fault := Fails();
        if fault { return true; }
        var p := paths[n];
        if p in world.files && world.files[p].book in world.books && world.files[p].book != b { return true; }
      }
      refused := false;
    }

    /**
     * Record one path; the row is in the table even when the call fails, if the status refresh is what failed (torn).
     */
    method RegisterFile(b: Id, format: Format, p: Path) returns (inserted: bool, failed: bool, ghost torn: bool)
      modifies this`world, this`faults
      ensures torn <==> inserted && failed
      ensures faults >= old(faults)
      ensures faults == old(faults) && failed ==> TrackOutcome(old(world), b, p) in {OwnedElsewhere, NoSuchBook}
      ensures torn ==> world.books == old(world).books
      ensures !failed ==> !(TrackOutcome(old(world), b, p) in {OwnedElsewhere, NoSuchBook})
      ensures !failed ==> inserted == Creates(TrackOutcome(old(world), b, p))
      ensures !failed ==> world == Refresh(Track(old(world), b, formatFor(p, format), p), b)
      ensures failed ==> world == if inserted then Track(old(world), b, formatFor(p, format), p) else old(world)
      ensures inserted ==> Creates(TrackOutcome(old(world), b, p))
    {
      var fault := Fails();
      if fault { return false, true, false; }
      var outcome := TrackOutcome(world, b, p);
      if outcome == OwnedElsewhere || outcome == NoSuchBook { return false, true, false; }
      world := Track(world, b, formatFor(p, format), p);
      inserted := Creates(outcome);
      fault := Fails();
      if fault { return inserted, true, inserted; }
      world := Refresh(world, b);
      failed, torn := false, false;
    }

    /** Register one path and record the row it inserted. */
    method RegisterPath(ghost w0: World, id: Id, token: Token, b: Id, format: Format, p: Path, rec: Record)
      returns (rec': Record, failed: bool, ghost torn: bool)
      requires Registering(w0, world, id, token, b, rec)
      modifies this`world, this`faults
      ensures rec' == rec.(registered := rec'.registered) && world.links == old(world).links
      ensures RegistrationStopped(w0, world, id, token, b, rec', if torn then Some(p) else None)
      ensures faults >= old(faults) && (faults == old(faults) && failed ==> OwnedByOther(old(world), p, b))
      ensures forall q :: OwnedByOther(world, q, b) ==> OwnedByOther(old(world), q, b)
      ensures !failed ==> !torn && Registering(w0, world, id, token, b, rec')
      ensures !failed ==> p in world.files && world.files[p].book == b
      ensures forall q :: q in old(world).files && old(world).files[q].book == b ==>
                q in world.files && world.files[q].book == b
    {
      rec' := rec;
      RegisteringAny(w0, world, id, token, b, rec, formatFor(p, format), p);
      TrackingTakesNoOwner(world, b, formatFor(p, format), p);
      var inserted;
      inserted, failed, torn := RegisterFile(b, format, p);
      if failed { return; }
      if inserted {
        rec' := rec.(registered := rec.registered + [Registered(p, b)]);
        var ok := Progress(id, token, rec');
        failed := !ok;
      }
    }

    /**
     * Register the paths one by one, recording each row it inserts before the next. On failure the record still names
     * every row it added, but for the row whose status refresh failed after its insertion (torn): that row is at leak.
     */
    method Register(ghost w0: World, id: Id, token: Token, b: Id, format: Format, paths: seq<Path>, members: seq<Path>,
                    rec: Record)
      returns (rec': Record, failed: bool, ghost torn: bool, ghost leak: Option<Path>)
      requires Registering(w0, world, id, token, b, rec)
      modifies this`world, this`faults
      ensures rec' == rec.(registered := rec'.registered) && world.links == old(world).links
      ensures RegistrationStopped(w0, world, id, token, b, rec', leak)
      ensures faults >= old(faults)
      ensures faults == old(faults) && failed ==> SomeOwned(old(world), paths + members, b)
      ensures torn <==> leak.Some?
      ensures torn ==> failed && leak.value in paths
      ensures !failed ==> world.units[id].record == rec' && PathsDone(world, paths, |paths|, b)
      ensures !failed ==> !SomeOwned(old(world), paths + members, b)
    {
      rec', torn, leak := rec, false, None;
      failed := CheckOwnership(paths + members, b);
      if failed { return; }
      for n := 0 to |paths|
        invariant Registering(w0, world, id, token, b, rec') && PathsDone(world, paths, n, b)
        invariant rec' == rec.(registered := rec'.registered) && leak.None? && !torn && world.links == old(world).links
        invariant faults >= old(faults)
        invariant forall q :: OwnedByOther(world, q, b) ==> OwnedByOther(old(world), q, b)
        invariant !SomeOwned(old(world), paths + members, b)
      {
        rec', failed, torn := RegisterPath(w0, id, token, b, format, paths[n], rec');
        if torn { leak := Some(paths[n]); }
        if failed {
          OwnedAmongAll(old(world), paths, members, n, b);
          return;
        }
      }
    }

    // ----- reversing -----

    /** Untrack one recorded row; the row may be gone even when the call fails. */
    method UntrackFile(r: Registered) returns (failed: bool, ghost torn: bool)
      modifies this`world, this`faults
      ensures faults >= old(faults) && (failed ==> faults > old(faults))
      ensures !failed ==> world == Untrack(old(world), r)
      ensures failed ==> world == if torn && Owns(old(world).files, r) then DropRow(old(world), r) else old(world)
    {
      var fault := Fails();
      if fault { return true, false; }
      failed, torn := false, false;
      if !Owns(world.files, r) { return; }
      world := DropRow(world, r);
      fault := Fails();
      if fault { return true, true; }
      world := Refresh(world, r.book);
    }

    method UntrackRows(rows: seq<Registered>) returns (failed: bool, ghost done: nat, ghost torn: bool)
      modifies this`world, this`faults
      ensures done <= |rows| && (torn ==> done < |rows|)
      ensures faults >= old(faults) && (failed ==> faults > old(faults))
      ensures !failed ==> world == UntrackAll(old(world), rows)
      ensures failed ==>
                var w1 := UntrackAll(old(world), rows[..done]);
                world == if torn && Owns(w1.files, rows[done]) then DropRow(w1, rows[done]) else w1
    {
      done, torn := 0, false;
      for n := 0 to |rows|
        invariant world == UntrackAll(old(world), rows[..n]) && done == n && !torn && faults >= old(faults)
      {
        assert rows[..n + 1][..n] == rows[..n];
        failed, torn := UntrackFile(rows[n]);
        if failed { return; }
        torn, done := false, n + 1;
      }
      assert rows[..|rows|] == rows;
      failed := false;
    }

    /** Undo an adoption's writes step by step; the first failure stops it. */
    method Reverse(unit: Id, rec: Record) returns (failed: bool, kept: bool, ghost readable: bool, ghost stop: Stop)
      modifies this`world, this`faults
      ensures faults >= old(faults) && (failed ==> faults > old(faults))
      ensures !failed ==> world == Reversed(old(world), unit, rec, readable) && kept == WasUsed(old(world), rec)
      ensures failed ==> StopFits(stop, old(world), rec)
      ensures failed ==> world == PartlyReversed(old(world), unit, rec, readable, stop)
    {
      failed, kept, readable, stop := true, false, true, Untouched;
      ghost var w0 := world;
      var fault := Fails();
      if fault { return; }
      var used := WasUsed(world, rec);
      var canRead: bool := *;
      readable := canRead;
      var before := StatusBefore(world, rec, canRead);
      fault := Fails();
      if fault { return; }
      world := ReverseLink(world, rec.link);
      ghost var done, torn;
      failed, done, torn := UntrackRows(rec.registered);
      if failed {
        stop := InRows(done, torn);
        return;
      }
      failed, stop := true, InRows(|rec.registered|, false);
      assert rec.registered[..|rec.registered|] == rec.registered;
      fault := Fails();
      if fault { return; }
      world := RestoreSkipped(world, rec, before);
      stop := AfterRestore;
      if used { return false, true, readable, stop; }
      fault := Fails();
      if fault { return; }
      world := RemoveCreatedBook(world, unit, rec);
      stop := AfterBook;
      fault := Fails();
      if fault { return; }
      world := RemoveCreatedAuthor(world, unit, rec);
      failed := false;
    }

    /** Reverse a failed adopt; if that fails too, the claim and the stored record stay. */
    method FailAdopt(id: Id, rec: Record, ghost w0: World, ghost token: Token, ghost b: Id, ghost leak: Option<Path>)
      returns (answer: Answer, ghost loose: Option<Path>)
      requires || RegistrationStopped(w0, world, id, token, b, rec, leak)
               || (leak.None? && Rebuilt(w0, world, b, rec) && RowsOnRecord(w0, world, id, token, b, None))
      modifies this`world, this`faults
      ensures answer == Refused || answer == Unfinished
      ensures faults >= old(faults)
      ensures answer == Refused ==> NothingLeft(w0, world, loose) && loose == leak
      ensures answer == Unfinished ==> RowsOnRecord(w0, world, id, token, b, loose)
      ensures OnlyCreatedGone(old(world), world, rec)
      ensures IntoExisting(rec) && answer == Refused ==>
                Compensated(w0, world, id, b, loose) && Holds(world, id, Adopting, token)
      ensures IntoExisting(rec) && answer == Unfinished ==> ClaimKept(w0, world, id, token, b, loose)
    {
      ghost var w := world;
      var failed, kept;
      ghost var readable, stop;
      failed, kept, readable, stop := Reverse(id, rec);
      if failed {
        PartlyReversedRemovesOnlyCreated(w, id, rec, readable, stop);
        answer, loose := Unfinished, None;
        if RegistrationStopped(w0, w, id, token, b, rec, leak) {
          loose := LooseRow(w.units[id].record, rec, leak);
          StoppedOnRecord(w0, w, id, token, b, rec, leak);
        }
        UnfinishedOnRecord(w0, w, id, token, b, rec, loose, readable, stop);
        if IntoExisting(rec) {
          PartlyReversedTakesRows(w, id, rec, readable, stop);
          StoppedAndUnfinished(w0, w, world, id, token, b, rec, leak);
        }
      } else {
        ReversedRemovesOnlyCreated(w, id, rec, readable);
        answer, loose := Refused, leak;
        if RegistrationStopped(w0, w, id, token, b, rec, leak) {
          StoppedAndReversed(w0, w, id, token, b, rec, leak, readable);
        } else {
          RebuiltAndReversed(w0, w, id, b, rec, readable);
        }
      }
    }

    // ----- adopting -----

    /** Every row of the book, in some order. */
    method ListFiles(b: Id) returns (rows: seq<Registered>)
      ensures forall p :: p in world.files && world.files[p].book == b ==> Registered(p, b) in rows
      ensures forall r :: r in rows ==> r.book == b && Owns(world.files, r)
    {
      var pending := set p | p in world.files && world.files[p].book == b;
      rows := [];
      while pending != {}
        invariant forall p :: p in pending ==> p in world.files && world.files[p].book == b
        invariant forall p :: p in world.files && world.files[p].book == b && p !in pending ==> Registered(p, b) in rows
        invariant forall r :: r in rows ==> r.book == b && Owns(world.files, r)
      {
        var p :| p in pending;
        rows, pending := rows + [Registered(p, b)], pending - {p};
      }
    }

    /**
     * Create the hinted membership and record it, in one transaction; a membership the book already has is left alone.
     */
    method ApplySeriesHint(id: Id, token: Token, rec: Record, link: SeriesLink, ghost w0: World, ghost b: Id)
      returns (rec': Record, failed: bool)
      requires Registering(w0, world, id, token, b, rec)
      modifies this`world, this`faults
      ensures Registering(w0, world, id, token, b, rec')
      ensures rec' == rec.(link := rec'.link)
      ensures faults >= old(faults) && (failed ==> faults > old(faults))
      ensures world.files == old(world).files && world.books.Keys == old(world).books.Keys
      ensures !failed ==> IsMember(world.links, link)
      ensures if IsMember(old(world).links, link) || failed then world.links == old(world).links && rec' == rec
              else world.links == old(world).links + {link} && rec'.link == Some(link)
    {
      rec', failed := rec, true;
      var fault := Fails();
      if fault { return; }
      if !IsMember(world.links, link) {
        world := Linked(world, id, link);
        rec' := rec.(link := Some(link));
      }
      failed := false;
    }

    /** The part of an adopt after its book is known: from the first record to completion or compensation. */
    method Attach(id: Id, token: Token, b: Id, format: Format, paths: seq<Path>, members: seq<Path>, rec: Record,
                  hint: Option<SeriesLink>, ghost w0: World)
      returns (answer: Answer, ghost torn: bool, ghost loose: Option<Path>)
      requires Holds(world, id, Adopting, token) && world.files == w0.files && OnlyFiles(w0, world)
      requires world.links == w0.links && rec.link.None?
      requires OtherUnitsKept(w0, world, id) && rec.registered == [] && rec.bookId == b && b in w0.books
      requires rec.createdBook == 0 || rec.createdBook == b
      modifies this`world, this`faults
      ensures answer == Done ==> AdoptedWith(w0, world, id, b, paths) && SameStart(world.units[id].record, rec)
      ensures answer == Done ==> LinkedAsHinted(w0, world, b, world.units[id].record, hint)
      ensures faults >= old(faults)
      ensures faults == old(faults) && answer != Done ==> SomeOwned(old(world), paths + members, b)
      ensures answer == Done ==> !SomeOwned(old(world), paths + members, b)
      ensures answer == Refused ==> NothingLeft(w0, world, loose) && LooseWhenTorn(torn, loose, paths)
      ensures answer == Unfinished ==> RowsOnRecord(w0, world, id, token, b, loose)
      ensures OnlyCreatedGone(w0, world, rec)
      ensures IntoExisting(rec) && answer == Refused ==>
                Compensated(w0, world, id, b, loose) && Holds(world, id, Adopting, token)
      ensures IntoExisting(rec) && answer == Unfinished ==> ClaimKept(w0, world, id, token, b, loose)
    {
      torn := false;
      FirstProgress(w0, world, id, token, b, rec);
      var ok := Progress(id, token, rec);
      if !ok {
        answer, loose := FailAdopt(id, rec, w0, token, b, None);
        return;
      }
      var rec1, failed := rec, false;
      if hint.Some? {
        rec1, failed := ApplySeriesHint(id, token, rec, hint.value.(book := b), w0, b);
        if failed {
          answer, loose := FailAdopt(id, rec1, w0, token, b, None);
          return;
        }
      }
      answer, torn, loose := RegisterAndComplete(id, token, b, format, paths, members, rec1, w0);
    }

    method RegisterAndComplete(id: Id, token: Token, b: Id, format: Format, paths: seq<Path>, members: seq<Path>,
                               rec: Record, ghost w0: World)
      returns (answer: Answer, ghost torn: bool, ghost loose: Option<Path>)
      requires Registering(w0, world, id, token, b, rec) && rec.registered == [] && rec.bookId == b
      requires rec.createdBook == 0 || rec.createdBook == b
      modifies this`world, this`faults
      ensures answer == Done ==> AdoptedWith(w0, world, id, b, paths) && SameStart(world.units[id].record, rec)
      ensures answer == Done ==> world.links == old(world).links && world.units[id].record.link == rec.link
      ensures faults >= old(faults)
      ensures faults == old(faults) && answer != Done ==> SomeOwned(old(world), paths + members, b)
      ensures answer == Done ==> !SomeOwned(old(world), paths + members, b)
      ensures answer == Refused ==> NothingLeft(w0, world, loose) && LooseWhenTorn(torn, loose, paths)
      ensures answer == Unfinished ==> RowsOnRecord(w0, world, id, token, b, loose)
      ensures OnlyCreatedGone(w0, world, rec)
      ensures IntoExisting(rec) && answer == Refused ==>
                Compensated(w0, world, id, b, loose) && Holds(world, id, Adopting, token)
      ensures IntoExisting(rec) && answer == Unfinished ==> ClaimKept(w0, world, id, token, b, loose)
    {
      var rec1, failed;
      ghost var leak;
      rec1, failed, torn, leak := Register(w0, id, token, b, format, paths, members, rec);
      if !failed && rec1.createdBook > 0 { rec1, failed := RecordWholeBook(id, token, b, rec1, w0); }
      if !failed {
        var done := CompleteAdoption(id, token, rec1);
        if done { return Done, false, None; }
      }
      answer, loose := FailAdopt(id, rec1, w0, token, b, leak);
    }

    /** Put every row of a created book on record, and the book as it is left. */
    method RecordWholeBook(id: Id, token: Token, b: Id, rec: Record, ghost w0: World)
      returns (rec': Record, failed: bool)
      requires Registering(w0, world, id, token, b, rec) && rec.createdBook == b > 0
      modifies this`faults
      ensures faults >= old(faults) && (failed ==> faults > old(faults))
      ensures rec' == rec.(registered := rec'.registered, fingerprint := rec'.fingerprint)
      ensures rec' == rec || (Rebuilt(w0, world, b, rec') && RowsOnRecord(w0, world, id, token, b, None))
      ensures !failed ==> Rebuilt(w0, world, b, rec') && rec'.fingerprint == Fingerprint(world, b)
    {
      rec' := rec;
      var fault := Fails();
      if fault { return rec', true; }
      assert RegistrationStopped(w0, world, id, token, b, rec, None);
      StoppedOnRecord(w0, world, id, token, b, rec, None);
      var rows := ListFiles(b);
      rec' := rec.(registered := rows);
      assert Rebuilt(w0, world, b, rec');
      failed := Fails();
      if !failed { rec' := rec'.(fingerprint := Fingerprint(world, b)); }
    }

    /** The prior status some other live adoption of the book recorded, if any. */
    method PriorStatusElsewhere(b: Id, except: Id) returns (prior: Option<Status>)
      ensures prior.Some? <==> exists u :: AdoptsElsewhere(world, except, b, u)
      ensures prior.Some? ==> exists u :: AdoptsElsewhere(world, except, b, u) && world.units[u].record.prior == prior
    {
      var others := set u | u in world.units && u != except && world.units[u].record.bookId == b
                            && world.units[u].state in {Adopting, Adopted} && world.units[u].record.prior.Some?;
      if others == {} {
        assert forall u :: AdoptsElsewhere(world, except, b, u) ==> u in others;
        return None;
      }
      var u :| u in others;
      assert AdoptsElsewhere(world, except, b, u);
      prior := world.units[u].record.prior;
    }

    /** The first record of an adoption into a book that existed. */
    method RecordInto(id: Id, b: Id) returns (rec: Record)
      requires b in world.books
      ensures IntoExisting(rec) && rec.bookId == b && rec.registered == [] && rec.link.None?
      ensures RecordsPrior(world, id, b, rec)
    {
      var prior := world.books[b].status;
      if prior != Skipped {
        var elsewhere := PriorStatusElsewhere(b, id);
        if elsewhere == Some(Skipped) { prior := Skipped; }
      }
      rec := NO_RECORD.(bookId := b, prior := Some(prior));
    }

    /** Release a claim whose work has been reversed. */
    method Release(id: Id, token: Token) returns (ghost end: ClaimEnd)
      modifies this`world, this`faults
      ensures end == Released || end == StillHeld
      ensures faults >= old(faults)
      ensures faults == old(faults) && Holds(old(world), id, Adopting, token) ==> end == Released
      ensures Holds(old(world), id, Adopting, token) ==> EndsAs(end, old(world), world, id, token)
      ensures world == if end == Released then SetUnit(old(world), id, Unit(Pending, None, NO_RECORD)) else old(world)
    {
      var ok := ResetToPending(id, Adopting, token);
      end := if ok then Released else StillHeld;
    }

    /**
     * Adopt a unit into a book of the library. A refused request leaves every row as it was, and a row of its own
     * exactly when the status refresh failed after that row was inserted.
     */
    method AdoptInto(id: Id, b: Id, format: Format, accepted: bool, paths: seq<Path>, members: seq<Path>,
                     hint: Option<SeriesLink>)
      returns (answer: Answer, ghost token: Token, ghost torn: bool, ghost loose: Option<Path>, ghost end: ClaimEnd)
      requires b > 0
      modifies this
      ensures answer == Done ==> AdoptedWith(old(world), world, id, b, paths) && IntoExisting(world.units[id].record)
      ensures answer == Done ==> LinkedAsHinted(old(world), world, b, world.units[id].record, hint)
      ensures answer == Done ==> b in old(world).books && RecordsPrior(old(world), id, b, world.units[id].record)
      ensures !accepted || b !in old(world).books || SomeOwned(old(world), paths + members, 0) ==>
                answer == Refused && SameTables(old(world), world)
      ensures faults >= old(faults)
      ensures faults == old(faults) && Adoptable(old(world), id, accepted, paths + members) && b in old(world).books ==>
                answer == Done
      ensures answer == Refused ==> Compensated(old(world), world, id, b, loose)
      ensures answer == Refused ==> LooseWhenTorn(torn, loose, paths) && EndsAs(end, old(world), world, id, token)
      ensures answer == Unfinished ==> ClaimKept(old(world), world, id, token, b, loose)
    {
      answer, token, torn, loose, end := Refused, 0, false, None, NotClaimed;
      var claim := Claim(id, Pending, Adopting);
      if claim.None? { return; }
      token := claim.value;
      var refused := !accepted || b !in world.books;
      if !refused { refused := CheckOwnership(paths + members, 0); }
      if refused {
        end := Release(id, claim.value);
        return;
      }
      var rec := RecordInto(id, b);
      OwnClaimDecidesNothing(old(world), world, id, b, rec);
      answer, torn, loose := Attach(id, claim.value, b, format, paths, members, rec, hint, old(world));
      if answer == Refused { end := Release(id, claim.value); }
    }

    /**
     * The add book core: one step that may create a book and an author, and may give the book files of its own. It
     * says which of them it created. A failed add may leave some of that behind.
     */
    method AddBook() returns (failed: bool, b: Id, bookCreated: bool, createdAuthor: Id)
      modifies this`world, this`faults
      ensures world.units == old(world).units
      ensures faults >= old(faults) && (failed ==> faults > old(faults))
      ensures old(world).books.Keys <= world.books.Keys && old(world).authors <= world.authors
      ensures !failed ==> b > 0 && b in world.books && (bookCreated <==> b !in old(world).books)
      ensures !failed && createdAuthor > 0 ==> createdAuthor !in old(world).authors
      ensures !failed ==> world.authors == old(world).authors + (if createdAuthor > 0 then {createdAuthor} else {})
    {
      var after: World := *;
      b, createdAuthor := *, *;
      failed := Fails();
      bookCreated := b !in world.books;
      if createdAuthor in world.authors { createdAuthor := 0; }
      if after.units == world.units && world.books.Keys <= after.books.Keys && world.authors <= after.authors {
        failed := failed || after.authors != world.authors + (if createdAuthor > 0 then {createdAuthor} else {});
        world := after;
      } else {
        failed := true;
      }
      failed := failed || b == 0 || b !in world.books;
      if failed { faults := faults + 1; }
    }

    /**
     * Adopt a unit into a book added from metadata; w0 is the state the add left, or the first one if there was none.
     */
    method AdoptNew(id: Id, format: Format, accepted: bool, paths: seq<Path>, members: seq<Path>,
                    hint: Option<SeriesLink>)
      returns (answer: Answer, ghost w0: World, ghost token: Token, ghost b: Id, ghost torn: bool,
               ghost loose: Option<Path>)
      modifies this
      ensures w0.units.Keys == old(world).units.Keys
      ensures forall u :: u in old(world).units && u != id ==> w0.units[u] == old(world).units[u]
      ensures old(world).books.Keys <= world.books.Keys && old(world).authors <= world.authors
      ensures answer == Done ==> AdoptedWith(w0, world, id, b, paths)
      ensures answer == Done ==> LinkedAsHinted(w0, world, b, world.units[id].record, hint)
      ensures answer == Done ==> RecordsCreated(old(world), w0, b, world.units[id].record)
      ensures answer == Done && b in old(world).books ==> RecordsPrior(w0, id, b, world.units[id].record)
      ensures !accepted || SomeOwned(old(world), paths + members, 0) ==>
                answer == Refused && SameTables(old(world), world)
      ensures faults >= old(faults)
      ensures faults == old(faults) && Adoptable(old(world), id, accepted, paths + members) ==>
                (answer == Done <==> !SomeOwned(w0, paths + members, b))
      ensures answer == Refused ==> NothingLeft(w0, world, loose) && LooseWhenTorn(torn, loose, paths)
      ensures answer == Unfinished ==> RowsOnRecord(w0, world, id, token, b, loose)
    {
      answer, w0, token, b, torn, loose := Refused, world, 0, 0, false, None;
      var claim := Claim(id, Pending, Adopting);
      if claim.None? { return; }
      token := claim.value;
      var refused := !accepted;
      if !refused { refused := CheckOwnership(paths + members, 0); }
      if refused {
        var _ := Release(id, claim.value);
        return;
      }
      var failed, book, bookCreated, createdAuthor := AddBook();
      w0, b := world, book;
      if failed {
        var _ := Release(id, claim.value);
        return;
      }
      var rec;
      if bookCreated {
        rec := NO_RECORD.(bookId := book, createdBook := book);
      } else {
        rec := RecordInto(id, book);
      }
      rec := rec.(createdAuthor := createdAuthor);
      answer, torn, loose := Attach(id, claim.value, book, format, paths, members, rec, hint, w0);
      if answer == Refused { var _ := Release(id, claim.value); }
    }

    // ----- undoing and recovering -----

    method ReleaseUndo(id: Id, token: Token) returns (ok: bool)
      modifies this`world, this`faults
      ensures ok ==> Holds(old(world), id, Undoing, token)
      ensures faults >= old(faults)
      ensures world == if ok then SetUnit(old(world), id, old(world).units[id].(state := Adopted, token := None))
              else old(world)
    {
      var fault := Fails();
      if fault { return false; }
      ok := Holds(world, id, Undoing, token);
      if ok { world := SetUnit(world, id, world.units[id].(state := Adopted, token := None)); }
    }

    /**
     * Undo an adoption. Only a reversal that finished returns the unit to pending; a refusal touches nothing but the
     * claim; otherwise the claim and the record stay, up to references to a created book that is already gone.
     */
    method Undo(id: Id) returns (answer: Answer)
      modifies this
      ensures answer == Done ==>
                && id in old(world).units && old(world).units[id].state == Adopted && Undone(old(world), world, id)
      ensures answer == Refused ==> OnlyClaimed(old(world), world, id)
      ensures faults >= old(faults)
      ensures faults == old(faults) && id in old(world).units && old(world).units[id].state == Adopted ==>
                answer == Done
      ensures answer == Unfinished ==>
                && id in old(world).units && id in world.units && world.units[id].state == Undoing
                && world.units[id].record.registered == old(world).units[id].record.registered
                && FilesShrink(old(world), world, old(world).units[id].record.registered)
                && OnlyCreatedGone(old(world), world, old(world).units[id].record)
                && forall u :: u in old(world).units && u != id ==> ClaimsKept(old(world), world, u)
    {
      var claim := Claim(id, Adopted, Undoing);
      if claim.None? { return Refused; }
      var token := claim.value;
      var fault := Fails();
      if fault {
        var _ := ReleaseUndo(id, token);
        return Refused;
      }
      var rec := world.units[id].record;
      ghost var w := world;
      var failed, kept;
      ghost var readable, stop;
      failed, kept, readable, stop := Reverse(id, rec);
      if failed {
        PartlyReversedShrinks(w, id, rec, readable, stop);
        PartlyReversedRemovesOnlyCreated(w, id, rec, readable, stop);
        forall u | u in w.units ensures ClaimsKept(w, world, u) {
          PartlyReversedKeepsClaim(w, id, rec, readable, stop, u);
        }
        OthersClaimsKept(old(world), w, world, id);
        return Unfinished;
      }
      ReversalUntracksExactlyTheRecord(w, id, rec, readable);
      ReversedRemovesOnlyCreated(w, id, rec, readable);
      forall u | u in w.units ensures ClaimsKept(w, world, u) { ReversedKeepsClaim(w, id, rec, readable, u); }
      OthersClaimsKept(old(world), w, world, id);
      ReversalUndoes(old(world), id, w.units[id], readable);
      var done := ResetToPending(id, Undoing, token);
      answer := if done then Done else Unfinished;
    }

    /**
     * Reverse and release the claims of dead requests. Each one is either pending again with all its recorded rows
     * gone, or still claimed; every other unit keeps its claim; only rows recorded by one of them are removed.
     */
    method RecoverStaleClaims(stale: seq<Id>) returns (recovered: nat)
      requires forall u :: u in stale ==> u in world.units && world.units[u].token.Some?
      requires forall u :: u in stale ==> world.units[u].state in {Adopting, Undoing}
      modifies this`world, this`faults
      ensures forall u :: u in stale ==> Recovered(old(world), world, u) || ClaimsKept(old(world), world, u)
      ensures forall u :: u in old(world).units && u !in stale ==> ClaimsKept(old(world), world, u)
      ensures OnlyRecordedRowsGone(old(world), world, stale) && OnlyTheirsGone(old(world), world, stale)
      ensures faults >= old(faults)
      ensures faults == old(faults) ==> forall u :: u in stale ==> Recovered(old(world), world, u)
    {
      var rows := world.units;
      ghost var w0 := world;
      recovered := 0;
      for n := 0 to |stale|
        invariant Recovering(w0, world, stale) && faults >= old(faults)
        invariant OnlyRecordedRowsGone(w0, world, stale) && OnlyTheirsGone(w0, world, stale)
        invariant faults == old(faults) ==> forall i :: 0 <= i < n ==> Recovered(w0, world, stale[i])
      {
        var released := RecoverOne(stale[n], rows[stale[n]], stale, w0);
        if released { recovered := recovered + 1; }
      }
    }

    /** Reverse one abandoned claim and release it. */
    method RecoverOne(u: Id, unit: Unit, ghost stale: seq<Id>, ghost w0: World) returns (released: bool)
      requires u in stale && u in w0.units && unit == w0.units[u] && unit.state in {Adopting, Undoing}
      requires forall v :: v in stale ==> v in w0.units && w0.units[v].token.Some?
      requires Recovering(w0, world, stale)
      requires OnlyRecordedRowsGone(w0, world, stale) && OnlyTheirsGone(w0, world, stale)
      modifies this`world, this`faults
      ensures Recovering(w0, world, stale)
      ensures OnlyRecordedRowsGone(w0, world, stale) && OnlyTheirsGone(w0, world, stale)
      ensures faults >= old(faults) && (released || faults == old(faults) ==> Recovered(w0, world, u))
      ensures forall v :: v in stale && Recovered(w0, old(world), v) ==> Recovered(w0, world, v)
    {
      ghost var w := world;
      var failed, kept;
      ghost var readable, stop;
      failed, kept, readable, stop := Reverse(u, unit.record);
      if failed {
        PartlyReversedRemovesOnlyCreated(w, u, unit.record, readable, stop);
        PartReversalRecovers(w0, w, u, unit.record, readable, stop, stale);
        forall v | v in stale && Recovered(w0, w, v) ensures Recovered(w0, world, v) {
          PartlyReversedKeepsClaim(w, u, unit.record, readable, stop, v);
          RecoveredStays(w0, w, world, stale, v);
        }
        return false;
      }
      ReversedRemovesOnlyCreated(w, u, unit.record, readable);
      ReversalRecovers(w0, w, u, unit.record, readable, stale);
      ghost var w1 := world;
      forall v | v in stale && Recovered(w0, w, v) ensures Recovered(w0, w1, v) {
        ReversedKeepsClaim(w, u, unit.record, readable, v);
        RecoveredStays(w0, w, w1, stale, v);
      }
      released := ResetToPending(u, unit.state, unit.token.value);
      if !Holds(w1, u, unit.state, unit.token.value) { ReleasedOrRecovered(w0, w1, u, stale); }
      if released { ResetRecovers(w0, w1, u, stale); }
    }
  }
}
