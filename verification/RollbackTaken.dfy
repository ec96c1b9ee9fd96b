// The one way a rollback deletes what another run's provenance names: a created author takes a book under it when the
// run still owns the row it recorded for that book, without asking which book the row names by then.

module RollbackTaken {
  import opened RollbackModel
  import opened RollbackProofs
  import opened RollbackDeletions
  import opened RollbackRepeat
  import opened RollbackLinks
  import opened RollbackOutcome

  /** Going through an author's listing, the mth book is deleted. */
  predicate TakesAt(c: Ctx, w: Work, listed: seq<Id>, m: nat) {
    && m < |listed|
    && var w1 := RemoveRunBooks(c, w, listed[..m]).0;
       listed[m] !in w1.deleted && RunOwnsBook(c, w1.s, listed[m])
  }

  predicate Takes(c: Ctx, w: Work, listed: seq<Id>, b: Id) {
    exists m :: 0 <= m < |listed| && TakesAt(c, w, listed, m) && listed[m] == b
  }

  lemma TakesLonger(c: Ctx, w: Work, listed: seq<Id>, b: Id)
    requires listed != []
    ensures Takes(c, w, listed, b) <==>
              || Takes(c, w, listed[..|listed| - 1], b)
              || (listed[|listed| - 1] == b && TakesAt(c, w, listed, |listed| - 1))
  {
    var front := listed[..|listed| - 1];
    assert forall m :: 0 <= m < |front| ==> front[..m] == listed[..m] && front[m] == listed[m];
    if Takes(c, w, front, b) {
      var m :| 0 <= m < |front| && TakesAt(c, w, front, m) && front[m] == b;
      assert TakesAt(c, w, listed, m);
    }
    if Takes(c, w, listed, b) {
      var m :| 0 <= m < |listed| && TakesAt(c, w, listed, m) && listed[m] == b;
      assert m < |front| ==> TakesAt(c, w, front, m);
    }
  }

  /** A book row's provenance goes with its book, and with nothing else. */
  lemma {:induction false} ListingTakesRow(c: Ctx, w: Work, listed: seq<Id>, k: Key)
    requires k in w.s.prov && k.kind == BookKind && w.s.prov[k].local != 0
    ensures k !in RemoveRunBooks(c, w, listed).0.s.prov <==> Takes(c, w, listed, w.s.prov[k].local)
  {
    if listed != [] {
      var front := listed[..|listed| - 1];
      ListingTakesRow(c, w, front, k);
      TakesLonger(c, w, listed, w.s.prov[k].local);
      RemoveRunBooksShrinks(c, w, front);
    }
  }

  lemma {:induction false} ListingTakesBook(c: Ctx, w: Work, listed: seq<Id>, b: Id)
    requires b in w.s.books
    ensures b !in RemoveRunBooks(c, w, listed).0.s.books <==> Takes(c, w, listed, b)
  {
    if listed != [] {
      var front := listed[..|listed| - 1];
      ListingTakesBook(c, w, front, b);
      TakesLonger(c, w, listed, b);
      RemoveRunBooksKeepsRows(c, w, front, b);
    }
  }

  lemma {:induction false} UnlistedStay(c: Ctx, w: Work, listed: seq<Id>, k: Key, b: Id)
    ensures k in w.s.prov && w.s.prov[k].local !in listed ==> k in RemoveRunBooks(c, w, listed).0.s.prov
    ensures b !in w.deleted && b !in listed ==> b !in RemoveRunBooks(c, w, listed).0.deleted
  {
    if listed != [] {
      var front, last := listed[..|listed| - 1], listed[|listed| - 1];
      assert last in listed && forall x :: x in front ==> x in listed;
      UnlistedStay(c, w, front, k, b);
      RemoveRunBooksShrinks(c, w, front);
    }
  }

  /** Unless the row in question goes with a book of the listing, a listed book is taken when the run owns that row. */
  lemma {:induction false} TakesExactlyOwned(c: Ctx, w: Work, listed: seq<Id>, b: Id)
    requires b !in w.deleted && (RunOwnsBook(c, w.s, b) ==> KeepsRow(c, w, listed, c.plan.created[b].key, b))
    ensures Takes(c, w, listed, b) <==> b in listed && RunOwnsBook(c, w.s, b)
  {
    if listed != [] {
      var front, last := listed[..|listed| - 1], listed[|listed| - 1];
      assert listed == front + [last];
      TakesLonger(c, w, listed, b);
      RemoveRunBooksShrinks(c, w, front);
      if RunOwnsBook(c, w.s, b) {
        var k := c.plan.created[b].key;
        TakesLonger(c, w, listed, w.s.prov[k].local);
        RowStaysBeforeItsBook(c, w, front, k, b);
      }
      TakesExactlyOwned(c, w, front, b);
    }
  }

  /** The book row names b itself, or no book that goes through the listing. */
  predicate KeepsRow(c: Ctx, w: Work, listed: seq<Id>, k: Key, b: Id)
    requires k in w.s.prov
  {
    k.kind == BookKind && (w.s.prov[k].local == b || w.s.prov[k].local == 0 || !Takes(c, w, listed, w.s.prov[k].local))
  }

  lemma {:induction false} RowOfNoBookStays(c: Ctx, w: Work, listed: seq<Id>, k: Key)
    requires k in w.s.prov && w.s.prov[k].local == 0
    ensures k in RemoveRunBooks(c, w, listed).0.s.prov
  {
    if listed != [] {
      RowOfNoBookStays(c, w, listed[..|listed| - 1], k);
      RemoveRunBooksShrinks(c, w, listed[..|listed| - 1]);
    }
  }

  lemma RowStaysBeforeItsBook(c: Ctx, w: Work, front: seq<Id>, k: Key, b: Id)
    requires k in w.s.prov && KeepsRow(c, w, front, k, b) && b !in w.deleted
    ensures b !in front ==> k in RemoveRunBooks(c, w, front).0.s.prov && b !in RemoveRunBooks(c, w, front).0.deleted
  {
    UnlistedStay(c, w, front, k, b);
    if w.s.prov[k].local == 0 {
      RowOfNoBookStays(c, w, front, k);
    } else {
      ListingTakesRow(c, w, front, k);
    }
  }

  /** The author's own step deletes the book. */
  predicate AuthorTakes(c: Ctx, w: Work, e: Entity, b: Id) {
    && e.key.kind == AuthorKind && e.outcome == Created && Owned(w.s, c.run, e)
    && Takes(c, w, BooksOf(w.s, e.local, c.bookOrder), b)
  }

  /** What being taken means for the tables: the book is filed under the author, and the run owns its created row. */
  lemma TakesMeans(c: Ctx, w: Work, e: Entity, b: Id)
    requires AuthorTakes(c, w, e, b)
    ensures b in w.s.books && w.s.books[b].authorId == e.local && RunOwnsBook(c, w.s, b)
  {
    var listed := BooksOf(w.s, e.local, c.bookOrder);
    var m :| 0 <= m < |listed| && TakesAt(c, w, listed, m) && listed[m] == b;
    BooksOfLists(w.s, e.local, c.bookOrder, b);
    RemoveRunBooksShrinks(c, w, listed[..m]);
  }

  /** One of these steps does. */
  predicate Taken(norm: string -> string, c: Ctx, w: Work, es: seq<Entity>, b: Id) {
    es != [] &&
    var front := es[..|es| - 1];
    Taken(norm, c, w, front, b) || AuthorTakes(c, Steps(norm, c, w, front), es[|es| - 1], b)
  }

  // ----- one step -----

  lemma AuthorStepTakesRow(c: Ctx, w: Work, e: Entity, k: Key)
    requires Foreign(w.s, c.run, k) && e.key.kind == AuthorKind && w.s.prov[k].local != 0
    ensures k !in AuthorStep(c, w, e).s.prov <==> k.kind == BookKind && AuthorTakes(c, w, e, w.s.prov[k].local)
  {
    if e.outcome == Created {
      AuthorCreatedTakesRow(c, w, e, k);
    } else if e.snapshot.OfAuthor? {
      AuthorRestoredTakesOwnRow(c, w, e);
    }
  }

  lemma AuthorCreatedTakesRow(c: Ctx, w: Work, e: Entity, k: Key)
    requires Foreign(w.s, c.run, k) && e.key.kind == AuthorKind && e.outcome == Created && w.s.prov[k].local != 0
    ensures k !in AuthorCreated(c, w, e).s.prov <==> k.kind == BookKind && AuthorTakes(c, w, e, w.s.prov[k].local)
  {
    var listed := BooksOf(w.s, e.local, c.bookOrder);
    var w1 := RemoveRunBooks(c, w, listed).0;
    RemoveRunBooksShrinks(c, w, listed);
    if k.kind == BookKind {
      ListingTakesRow(c, w, listed, k);
    } else {
      RemovingBooksKeepsAuthorRows(c, w, listed, k);
      assert k.kind == AuthorKind && w.s.prov[k].local == e.local ==> k in RowsByLocal(w1.s, AuthorKind, e.local);
    }
  }

  lemma StepTakesRow(norm: string -> string, c: Ctx, w: Work, e: Entity, k: Key)
    requires Foreign(w.s, c.run, k) && w.s.prov[k].local != 0 && (w.deleted == {} || e.key.kind != EditionKind)
    ensures k !in Step(norm, c, w, e).s.prov <==>
              || SharesEdition(w.s, c.run, e, k)
              || (k.kind == BookKind && AuthorTakes(c, w, e, w.s.prov[k].local))
  {
    if e.key.kind == AuthorKind {
      if Matches(w.s, e) { AuthorStepTakesRow(c, w, e, k); }
    } else {
      StepKeepsForeignRow(norm, c, w, e, k);
    }
  }

  // ----- a whole rollback -----

  lemma {:induction false} PassTakesRow(norm: string -> string, c: Ctx, s: Shelf, es: seq<Entity>, k: Key)
    requires RankSorted(es) && Foreign(s, c.run, k) && s.prov[k].local != 0
    requires forall e :: e in es ==> !SharesEdition(s, c.run, e, k)
    ensures k !in Steps(norm, c, Begin(s), es).s.prov <==>
              k.kind == BookKind && Taken(norm, c, Begin(s), es, s.prov[k].local)
  {
    if es != [] {
      var front, last := es[..|es| - 1], es[|es| - 1];
      var w := Steps(norm, c, Begin(s), front);
      assert last in es && forall e :: e in front ==> e in es;
      PassTakesRow(norm, c, s, front, k);
      StepShrinks(norm, c, w, last);
      StepsShrink(norm, c, Begin(s), front);
      if k in w.s.prov {
        if last.key.kind == EditionKind { NothingDeletedBeforeEditions(norm, c, s, es, |es| - 1); }
        NextStepTakesRow(norm, c, s, w, last, k);
      }
    }
  }

  lemma NextStepTakesRow(norm: string -> string, c: Ctx, s: Shelf, w: Work, e: Entity, k: Key)
    requires Foreign(s, c.run, k) && s.prov[k].local != 0 && (e.key.kind == EditionKind ==> w.deleted == {})
    requires k in w.s.prov && w.s.prov[k] == s.prov[k] && !SharesEdition(w.s, c.run, e, k)
    ensures k !in Step(norm, c, w, e).s.prov <==> k.kind == BookKind && AuthorTakes(c, w, e, s.prov[k].local)
  {
    StepTakesRow(norm, c, w, e, k);
  }

  /** The created author that takes the book, if any does. */
  predicate TakenByAuthor(norm: string -> string, s: Shelf, run: Id, es: seq<Entity>, order: seq<Id>, b: Id) {
    var sorted := SortByRank(es);
    Taken(norm, Ctx(run, PlanOf(sorted), order), Begin(s), sorted, b)
  }

  /**
   * Main result: a committed rollback removes another run's provenance row exactly when the row names an edition this
   * run created and still owns, or a book that a created author takes.
   */
  lemma ForeignRowGoesExactlyWhen(norm: string -> string, s: Shelf, run: Id, es: seq<Entity>, order: seq<Id>, k: Key)
    requires DistinctEntities(es) && Foreign(s, run, k) && s.prov[k].local != 0
    ensures k !in Rollback(norm, s, run, es, order).s.prov <==>
              || SharedByEdition(s, run, es, k)
              || (k.kind == BookKind && TakenByAuthor(norm, s, run, es, order, s.prov[k].local))
  {
    var sorted := SortByRank(es);
    var c := Ctx(run, PlanOf(sorted), order);
    SortByRankSorts(es);
    SortKeepsPairwise(es, SameEntity);
    if SharedByEdition(s, run, es, k) {
      var j :| 0 <= j < |es| && SharesEdition(s, run, es[j], k);
      assert es[j] in sorted;
      var i :| 0 <= i < |sorted| && sorted[i] == es[j];
      SharedRowIsRemoved(norm, c, s, sorted, k, i);
    } else {
      forall e | e in sorted ensures !SharesEdition(s, run, e, k) {
        assert e in es;
        var j :| 0 <= j < |es| && es[j] == e;
      }
      PassTakesRow(norm, c, s, sorted, k);
    }
  }

  // ----- the rows that foreign provenance names -----

  lemma AuthorStepKeepsUntaken(c: Ctx, w: Work, e: Entity, k: Key)
    requires Foreign(w.s, c.run, k) && NamesLiveRow(w.s, k) && e.key.kind == AuthorKind && Sane(c, w)
    requires !(k.kind == BookKind && AuthorTakes(c, w, e, w.s.prov[k].local))
    ensures NamesLiveRow(AuthorStep(c, w, e).s, k)
  {
    AuthorStepTakesRow(c, w, e, k);
    AuthorStepShrinks(c, w, e);
    if e.outcome == Created {
      match k.kind
      case BookKind => UntakenBookStays(c, w, e, w.s.prov[k].local);
      case _ => NamedParentStays(c, w, e, k);
    }
  }

  lemma UntakenBookStays(c: Ctx, w: Work, e: Entity, b: Id)
    requires b in w.s.books && Sane(c, w) && e.key.kind == AuthorKind && e.outcome == Created
    requires !AuthorTakes(c, w, e, b)
    ensures b in AuthorCreated(c, w, e).s.books
  {
    if Owned(w.s, c.run, e) {
      var listed := BooksOf(w.s, e.local, c.bookOrder);
      var (w1, remaining) := RemoveRunBooks(c, w, listed);
      ListingTakesBook(c, w, listed, b);
      RemoveRunBooksRemoves(c, w, listed);
      BooksOfLists(w.s, e.local, c.bookOrder, b);
    }
  }

  lemma NamedParentStays(c: Ctx, w: Work, e: Entity, k: Key)
    requires Foreign(w.s, c.run, k) && NamesLiveRow(w.s, k) && k.kind != BookKind && Sane(c, w)
    requires e.key.kind == AuthorKind && e.outcome == Created
    ensures NamesLiveRow(AuthorCreated(c, w, e).s, k)
  {
    var listed := BooksOf(w.s, e.local, c.bookOrder);
    var w1 := RemoveRunBooks(c, w, listed).0;
    RemoveRunBooksRemoves(c, w, listed);
    RemoveRunBooksShrinks(c, w, listed);
    RemovingBooksKeepsAuthorRows(c, w, listed, k);
    assert k.kind == AuthorKind && w.s.prov[k].local == e.local ==> k in RowsByLocal(w1.s, AuthorKind, e.local);
  }

  lemma StepKeepsUntaken(norm: string -> string, c: Ctx, w: Work, e: Entity, k: Key)
    requires Foreign(w.s, c.run, k) && NamesLiveRow(w.s, k) && Sane(c, w)
    requires w.deleted == {} || e.key.kind != EditionKind
    requires !(k.kind == BookKind && AuthorTakes(c, w, e, w.s.prov[k].local))
    ensures Foreign(Step(norm, c, w, e).s, c.run, k) && NamesLiveRow(Step(norm, c, w, e).s, k)
  {
    StepTakesRow(norm, c, w, e, k);
    StepShrinks(norm, c, w, e);
    if Matches(w.s, e) {
      match e.key.kind
      case BookKind => BookStepKeepsNamed(norm, c, w, e, k);
      case AuthorKind => AuthorStepKeepsUntaken(c, w, e, k);
      case SeriesKind => SeriesStepKeepsNamed(c, w, e, k);
      case _ => OtherStepKeepsNamed(norm, c, w, e, k);
    }
  }

  lemma {:induction false} PassKeepsUntaken(norm: string -> string, c: Ctx, s: Shelf, es: seq<Entity>, k: Key)
    requires RankSorted(es) && StartsSane(s, c.bookOrder) && forall e :: e in es ==> Known(c.plan, e)
    requires Foreign(s, c.run, k) && NamesLiveRow(s, k)
    requires !(k.kind == BookKind && Taken(norm, c, Begin(s), es, s.prov[k].local))
    ensures Foreign(Steps(norm, c, Begin(s), es).s, c.run, k) && NamesLiveRow(Steps(norm, c, Begin(s), es).s, k)
    ensures Steps(norm, c, Begin(s), es).s.prov[k] == s.prov[k]
  {
    if es != [] {
      var front, last := es[..|es| - 1], es[|es| - 1];
      assert forall e :: e in front ==> e in es;
      PassKeepsUntaken(norm, c, s, front, k);
      StepsDeleteOnlyOwn(norm, c, Begin(s), front);
      if last.key.kind == EditionKind { NothingDeletedBeforeEditions(norm, c, s, es, |es| - 1); }
      StepKeepsUntaken(norm, c, Steps(norm, c, Begin(s), front), last, k);
      StepShrinks(norm, c, Steps(norm, c, Begin(s), front), last);
    }
  }

  lemma {:induction false} TakenBookGoes(norm: string -> string, c: Ctx, w: Work, es: seq<Entity>, b: Id)
    requires Taken(norm, c, w, es, b)
    ensures b !in Steps(norm, c, w, es).s.books
  {
    var front, last := es[..|es| - 1], es[|es| - 1];
    var w1 := Steps(norm, c, w, front);
    if Taken(norm, c, w, front, b) {
      TakenBookGoes(norm, c, w, front, b);
      if b in Step(norm, c, w1, last).s.books { StepNeverAddsBook(norm, c, w1, last, b); }
    } else {
      TakingStepRemoves(norm, c, w1, last, b);
    }
  }

  lemma TakingStepRemoves(norm: string -> string, c: Ctx, w: Work, e: Entity, b: Id)
    requires AuthorTakes(c, w, e, b)
    ensures b !in Step(norm, c, w, e).s.books
  {
    var listed := BooksOf(w.s, e.local, c.bookOrder);
    if b in w.s.books { ListingTakesBook(c, w, listed, b); }
    RemoveRunBooksKeepsRows(c, w, listed, b);
    assert b !in AuthorCreated(c, w, e).s.books;
  }

  /**
   * Main result: a book, author or series that another run's provenance row names is deleted exactly when it is a book
   * that a created author takes; otherwise the row survives with it.
   */
  lemma NamedRowGoesExactlyWhenTaken(norm: string -> string, s: Shelf, run: Id, es: seq<Entity>, order: seq<Id>, k: Key)
    requires StartsSane(s, order) && Foreign(s, run, k) && NamesLiveRow(s, k)
    ensures var s' := Rollback(norm, s, run, es, order).s;
            if k.kind == BookKind && TakenByAuthor(norm, s, run, es, order, s.prov[k].local)
            then s.prov[k].local !in s'.books
            else Foreign(s', run, k) && NamesLiveRow(s', k) && s'.prov[k] == s.prov[k]
  {
    var sorted := SortByRank(es);
    var c := Ctx(run, PlanOf(sorted), order);
    SortByRankSorts(es);
    if k.kind == BookKind && TakenByAuthor(norm, s, run, es, order, s.prov[k].local) {
      TakenBookGoes(norm, c, Begin(s), sorted, s.prov[k].local);
    } else {
      forall e | e in sorted ensures Known(c.plan, e) { PlanKnows(sorted, e); }
      PassKeepsUntaken(norm, c, s, sorted, k);
    }
  }

  /**
   * What being taken means when the authors are reached: the run created both, the book is still filed under the
   * author, and the run owns the row it recorded for the book, which by then names another one.
   */
  lemma TakenRowNamesAnother(norm: string -> string, c: Ctx, s: Shelf, es: seq<Entity>, i: nat, b: Id)
    requires i < |es| && RankSorted(es) && c.plan == PlanOf(es) && AuthorTakes(c, At(norm, c, s, es, i), es[i], b)
    ensures b in At(norm, c, s, es, i).s.books && At(norm, c, s, es, i).s.books[b].authorId == es[i].local
    ensures RunOwnsBook(c, At(norm, c, s, es, i).s, b) && RunOwnsBook(c, s, b)
    ensures s.prov[c.plan.created[b].key].local != b && !OwnRowsAgree(c, s)
  {
    TakesMeans(c, At(norm, c, s, es, i), es[i], b);
    StepsShrink(norm, c, Begin(s), es[..i]);
    PlanCreated(es, b);
    CreatedBooksAreProcessed(norm, c, s, es, i, b);
    assert RunOwnsBook(c, s, b);
  }

  lemma {:induction false} WhoTakes(norm: string -> string, c: Ctx, s: Shelf, es: seq<Entity>, b: Id) returns (i: nat)
    requires Taken(norm, c, Begin(s), es, b)
    ensures i < |es| && AuthorTakes(c, At(norm, c, s, es, i), es[i], b)
  {
    var front := es[..|es| - 1];
    if Taken(norm, c, Begin(s), front, b) {
      i := WhoTakes(norm, c, s, front, b);
      assert front[..i] == es[..i];
    } else {
      i := |es| - 1;
    }
  }

  /**
   * Main result: where the rows the run owns name what it created, a committed rollback deletes no book, author or
   * series that another run's provenance row names.
   */
  lemma ForeignNamedRowsSurvive(norm: string -> string, s: Shelf, run: Id, es: seq<Entity>, order: seq<Id>, k: Key)
    requires StartsSane(s, order) && OwnRowsAgree(Ctx(run, PlanOf(SortByRank(es)), order), s)
    requires Foreign(s, run, k) && NamesLiveRow(s, k)
    ensures var s' := Rollback(norm, s, run, es, order).s;
            Foreign(s', run, k) && NamesLiveRow(s', k) && s'.prov[k] == s.prov[k]
  {
    var sorted := SortByRank(es);
    SortByRankSorts(es);
    NamedRowGoesExactlyWhenTaken(norm, s, run, es, order, k);
    if k.kind == BookKind && TakenByAuthor(norm, s, run, es, order, s.prov[k].local) {
      var i := WhoTakes(norm, Ctx(run, PlanOf(sorted), order), s, sorted, s.prov[k].local);
      TakenRowNamesAnother(norm, Ctx(run, PlanOf(sorted), order), s, sorted, i, s.prov[k].local);
    }
  }

  lemma CreatedBooksAreProcessed(norm: string -> string, c: Ctx, s: Shelf, es: seq<Entity>, n: nat, b: Id)
    requires n < |es| && RankSorted(es) && c.plan == PlanOf(es) && es[n].key.kind == AuthorKind && b in c.plan.created
    ensures !Owned(At(norm, c, s, es, n).s, c.run, c.plan.created[b])
  {
    PlanCreated(es, b);
    var e := c.plan.created[b];
    var i :| 0 <= i < |es| && es[i] == e;
    if n <= i { RanksRise(es, n, i); }
    assert es[..n][i] == e;
    ProcessedBookIsNotOwned(norm, c, Begin(s), es[..n], e);
  }
}
