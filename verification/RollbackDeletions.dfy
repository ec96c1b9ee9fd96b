// What a committed rollback may delete: only rows the run itself created, and never through a cascade.

module RollbackDeletions {
  import opened RollbackModel
  import opened RollbackProofs

  /**
   * Every live book is listed somewhere in the store's order and was not deleted by this pass; memberships join live
   * rows; ids are not 0.
   */
  ghost predicate Sane(c: Ctx, w: Work) {
    && 0 !in w.s.books && 0 !in w.s.series && 0 !in w.s.authors
    && (forall b :: b in w.s.books ==> b in c.bookOrder && b !in w.deleted)
    && (forall m :: m in w.s.members ==> m.0 in w.s.series && m.1 in w.s.books)
  }

  /** The plan knows this entity. */
  predicate Known(p: Plan, e: Entity) {
    && (e.key.kind == BookKind && e.outcome == Created && e.local != 0 ==> e.local in p.created)
    && (e.key.kind == SeriesKind && e.local != 0 ==>
          && (e.outcome == Created ==> e.local in p.createdSeries)
          && (e.bookId > 0 ==> (e.local, e.bookId) in p.memberships))
  }

  lemma {:induction false} PlanKnows(es: seq<Entity>, e: Entity)
    requires e in es
    ensures Known(PlanOf(es), e)
  {
    var front, last := es[..|es| - 1], es[|es| - 1];
    if e != last { PlanKnows(front, e); }
  }

  // ----- the author branch -----

  lemma {:induction false} BooksOfLists(s: Shelf, author: Id, order: seq<Id>, b: Id)
    ensures b in BooksOf(s, author, order) <==> b in order && b in s.books && s.books[b].authorId == author
  {
    if order != [] {
      var front := order[..|order| - 1];
      BooksOfLists(s, author, front, b);
      assert order == front + [order[|order| - 1]];
    }
  }

  /** What deleting run-owned books of a listing leaves: fewer books, all of the missing ones created by the run. */
  ghost predicate RemovedRunBooks(c: Ctx, w: Work, w': Work) {
    && w'.s.books.Keys <= w.s.books.Keys
    && (forall b :: b in w'.s.books ==> w'.s.books[b] == w.s.books[b])
    && (forall b :: b in w.s.books && b !in w'.s.books ==> b in c.plan.created && b in w'.deleted)
    && (forall m :: m in w.s.members && m !in w'.s.members ==> m.1 !in w'.s.books)
    && w'.s.members <= w.s.members && (forall m :: m in w'.s.members ==> m.1 in w.s.books)
    && w'.s.authors == w.s.authors && w'.s.series == w.s.series
  }

  lemma {:induction false} RemoveRunBooksRemoves(c: Ctx, w: Work, listed: seq<Id>)
    requires Sane(c, w)
    ensures var (w', remaining) := RemoveRunBooks(c, w, listed);
            && Sane(c, w') && RemovedRunBooks(c, w, w')
            && (remaining == 0 ==> forall b :: b in listed ==> b !in w'.s.books)
  {
    if listed != [] {
      var front, b := listed[..|listed| - 1], listed[|listed| - 1];
      RemoveRunBooksRemoves(c, w, front);
      var (w1, _) := RemoveRunBooks(c, w, front);
    }
  }

  /** The state in which a created author is deleted, if it is. */
  function BeforeAuthorDelete(c: Ctx, w: Work, e: Entity): (Work, nat) {
    RemoveRunBooks(c, w, BooksOf(w.s, e.local, c.bookOrder))
  }

  lemma BookStepKeepsOtherTables(norm: string -> string, c: Ctx, w: Work, e: Entity)
    ensures BookStep(norm, c, w, e).s.authors == w.s.authors && BookStep(norm, c, w, e).s.series == w.s.series
  {
    if e.outcome != Created && e.snapshot.OfBook? { BookRestoredKeepsOtherTables(norm, c, w, e); }
  }

  lemma BookRestoredKeepsOtherTables(norm: string -> string, c: Ctx, w: Work, e: Entity)
    requires e.snapshot.OfBook?
    ensures BookRestored(norm, c, w, e).s.authors == w.s.authors
    ensures BookRestored(norm, c, w, e).s.series == w.s.series
  {
    BookRestoredRewrites(norm, c, w, e);
  }

  lemma SeriesStepKeepsAuthors(c: Ctx, w: Work, e: Entity)
    ensures SeriesStep(c, w, e).s.authors == w.s.authors && SeriesStep(c, w, e).s.books == w.s.books
  {
    if Owned(w.s, c.run, e) && e.bookId > 0 { MembershipKeepsAuthors(c, w, e); }
  }

  lemma MembershipKeepsAuthors(c: Ctx, w: Work, e: Entity)
    requires Owned(w.s, c.run, e) && e.bookId > 0
    ensures SeriesMembership(c, w, e).s.authors == w.s.authors && SeriesMembership(c, w, e).s.books == w.s.books
  {
    RemoveSeriesKeepsRows(w.(s := UnlinkMember(w.s, e.local, e.bookId)), e.local);
  }

  lemma RemoveSeriesKeepsRows(w: Work, id: Id)
    ensures RemoveSeries(w, id).s.authors == w.s.authors && RemoveSeries(w, id).s.books == w.s.books
  {
  }

  lemma AuthorStepTables(c: Ctx, w: Work, e: Entity, a: Id)
    requires Sane(c, w)
    ensures AuthorStep(c, w, e).s.series == w.s.series
    ensures a in w.s.authors && a !in AuthorStep(c, w, e).s.authors ==>
              e.outcome == Created && e.local == a && BeforeAuthorDelete(c, w, e).1 == 0
  {
    if e.outcome == Created { RemoveRunBooksRemoves(c, w, BooksOf(w.s, e.local, c.bookOrder)); }
  }

  lemma OnlyAuthorStepsDeleteAuthors(norm: string -> string, c: Ctx, w: Work, e: Entity, a: Id)
    requires Sane(c, w) && a in w.s.authors && a !in Step(norm, c, w, e).s.authors
    ensures e.key.kind == AuthorKind && e.outcome == Created && e.local == a
    ensures BeforeAuthorDelete(c, w, e).1 == 0 && Step(norm, c, w, e) == AuthorCreated(c, w, e)
  {
    match e.key.kind
    case BookKind => BookStepKeepsOtherTables(norm, c, w, e);
    case SeriesKind => SeriesStepKeepsAuthors(c, w, e);
    case AuthorKind => AuthorStepTables(c, w, e, a);
    case _ =>
  }

  /** Without run-owned books a created author's own branch deletes no book at all. */
  lemma AuthorCreatedKeepsBooks(c: Ctx, w: Work, e: Entity)
    requires Sane(c, w) && NoRunBooks(c, w.s)
    ensures AuthorCreated(c, w, e).s.books == w.s.books
  {
    var listed := BooksOf(w.s, e.local, c.bookOrder);
    NothingToRemove(c, w, listed);
    forall b | b in w.s.books && w.s.books[b].authorId == e.local ensures b in listed {
      BooksOfLists(w.s, e.local, c.bookOrder, b);
    }
    if RemoveRunBooks(c, w, listed).1 == 0 {
      assert forall b :: b in w.s.books ==> w.s.books[b].authorId != e.local;
      CascadeOfNothing(w.s, e.local);
    }
  }

  lemma CascadeOfNothing(s: Shelf, a: Id)
    requires forall b :: b in s.books ==> s.books[b].authorId != a
    ensures DeleteAuthor(s, a).books == s.books && DeleteAuthor(s, a).members == s.members
  {
    var gone := set b | b in s.books && s.books[b].authorId == a;
    assert gone == {};
    assert s.books - gone == s.books;
  }

  // ----- one step deletes only what the run created -----

  ghost predicate DeletesOnlyOwn(c: Ctx, s: Shelf, s': Shelf) {
    && s'.books.Keys <= s.books.Keys && s'.series <= s.series
    && s'.authors.Keys <= s.authors.Keys && s'.members <= s.members
    && (forall b :: b in s.books && b !in s'.books ==> b in c.plan.created)
    && (forall i :: i in s.series && i !in s'.series ==> i in c.plan.createdSeries)
    && (forall m :: m in s.members && m !in s'.members ==> m in c.plan.memberships || m.1 !in s'.books)
  }

  lemma BookRestoredDeletesNothing(norm: string -> string, c: Ctx, w: Work, e: Entity)
    requires Sane(c, w) && e.snapshot.OfBook?
    ensures DeletesOnlyOwn(c, w.s, BookRestored(norm, c, w, e).s) && Sane(c, BookRestored(norm, c, w, e))
  {
  }

  lemma BookStepDeletesOnlyOwn(norm: string -> string, c: Ctx, w: Work, e: Entity)
    requires Sane(c, w) && Known(c.plan, e) && e.key.kind == BookKind
    ensures DeletesOnlyOwn(c, w.s, BookStep(norm, c, w, e).s) && Sane(c, BookStep(norm, c, w, e))
  {
    if e.outcome != Created && e.snapshot.OfBook? { BookRestoredDeletesNothing(norm, c, w, e); }
  }

  lemma SeriesStepDeletesOnlyOwn(c: Ctx, w: Work, e: Entity)
    requires Sane(c, w) && Known(c.plan, e) && e.key.kind == SeriesKind
    ensures DeletesOnlyOwn(c, w.s, SeriesStep(c, w, e).s) && Sane(c, SeriesStep(c, w, e))
  {
    if Owned(w.s, c.run, e) {
      if e.bookId > 0 {
        SeriesMembershipDeletesOnlyOwn(c, w, e);
      } else {
        RemoveSeriesDeletesOnlyOwn(c, w, e);
      }
    }
  }

  lemma SeriesMembershipDeletesOnlyOwn(c: Ctx, w: Work, e: Entity)
    requires Sane(c, w) && Known(c.plan, e) && e.key.kind == SeriesKind && Owned(w.s, c.run, e) && e.bookId > 0
    ensures DeletesOnlyOwn(c, w.s, SeriesMembership(c, w, e).s) && Sane(c, SeriesMembership(c, w, e))
  {
    var w1 := w.(s := UnlinkMember(w.s, e.local, e.bookId));
    RemoveSeriesDeletesOnlyOwn(c, w1, e);
    if DeletesOnlyOwn(c, w1.s, RemoveSeries(w1, e.local).s) {
      DeletesOnlyOwnTransitive(c, w.s, w1.s, RemoveSeries(w1, e.local).s);
    }
  }

  lemma RemoveSeriesDeletesOnlyOwn(c: Ctx, w: Work, e: Entity)
    requires Sane(c, w) && Known(c.plan, e) && e.key.kind == SeriesKind
    ensures !KeepsOtherBooks(c, w.s, e.local) && e.local in c.plan.createdSeries ==>
              DeletesOnlyOwn(c, w.s, RemoveSeries(w, e.local).s) && Sane(c, RemoveSeries(w, e.local))
  {
  }

  lemma AuthorCreatedDeletesOnlyOwn(c: Ctx, w: Work, e: Entity)
    requires Sane(c, w)
    ensures DeletesOnlyOwn(c, w.s, AuthorCreated(c, w, e).s) && Sane(c, AuthorCreated(c, w, e))
  {
    var listed := BooksOf(w.s, e.local, c.bookOrder);
    RemoveRunBooksRemoves(c, w, listed);
    var (w1, remaining) := RemoveRunBooks(c, w, listed);
    if remaining == 0 {
      forall b | b in w1.s.books ensures w1.s.books[b].authorId != e.local {
        BooksOfLists(w.s, e.local, c.bookOrder, b);
      }
      BarrenAuthorGoesAlone(c, w1, e);
    }
    if Owned(w.s, c.run, e) { RemovedIsOwn(c, w, w1, AuthorCreated(c, w, e)); }
  }

  /** Run-owned books went, and then at most an author. */
  lemma RemovedIsOwn(c: Ctx, w: Work, w1: Work, w': Work)
    requires RemovedRunBooks(c, w, w1)
    requires w'.s.books == w1.s.books && w'.s.members == w1.s.members && w'.s.series == w1.s.series
    requires w'.s.authors.Keys <= w1.s.authors.Keys
    ensures DeletesOnlyOwn(c, w.s, w'.s)
  {
  }

  lemma BarrenAuthorGoesAlone(c: Ctx, w: Work, e: Entity)
    requires Sane(c, w) && forall b :: b in w.s.books ==> w.s.books[b].authorId != e.local
    ensures var w' := UnlinkAll(w.(s := DeleteAuthor(w.s, e.local)), AuthorKind, e.local);
            && Sane(c, w') && w'.s.books == w.s.books && w'.s.members == w.s.members && w'.s.series == w.s.series
            && w'.s.authors.Keys <= w.s.authors.Keys
  {
    CascadeOfNothing(w.s, e.local);
  }

  lemma AuthorStepDeletesOnlyOwn(c: Ctx, w: Work, e: Entity)
    requires Sane(c, w)
    ensures DeletesOnlyOwn(c, w.s, AuthorStep(c, w, e).s) && Sane(c, AuthorStep(c, w, e))
  {
    if e.outcome == Created {
      AuthorCreatedDeletesOnlyOwn(c, w, e);
    } else if e.snapshot.OfAuthor? {
      AuthorRestoredDeletesNothing(c, w, e);
    }
  }

  lemma AuthorRestoredDeletesNothing(c: Ctx, w: Work, e: Entity)
    requires Sane(c, w) && e.snapshot.OfAuthor?
    ensures DeletesOnlyOwn(c, w.s, AuthorRestored(c, w, e).s) && Sane(c, AuthorRestored(c, w, e))
  {
  }

  lemma StepDeletesOnlyOwn(norm: string -> string, c: Ctx, w: Work, e: Entity)
    requires Sane(c, w) && Known(c.plan, e)
    ensures DeletesOnlyOwn(c, w.s, Step(norm, c, w, e).s) && Sane(c, Step(norm, c, w, e))
  {
    match e.key.kind
    case BookKind => BookStepDeletesOnlyOwn(norm, c, w, e);
    case SeriesKind => SeriesStepDeletesOnlyOwn(c, w, e);
    case AuthorKind => AuthorStepDeletesOnlyOwn(c, w, e);
    case _ =>
  }

  lemma DeletesOnlyOwnTransitive(c: Ctx, s: Shelf, s1: Shelf, s2: Shelf)
    requires DeletesOnlyOwn(c, s, s1) && DeletesOnlyOwn(c, s1, s2)
    ensures DeletesOnlyOwn(c, s, s2)
  {
  }

  lemma {:induction false} StepsDeleteOnlyOwn(norm: string -> string, c: Ctx, w: Work, es: seq<Entity>)
    requires Sane(c, w) && forall e :: e in es ==> Known(c.plan, e)
    ensures DeletesOnlyOwn(c, w.s, Steps(norm, c, w, es).s) && Sane(c, Steps(norm, c, w, es))
  {
    if es != [] {
      var front := es[..|es| - 1];
      StepsDeleteOnlyOwn(norm, c, w, front);
      StepDeletesOnlyOwn(norm, c, Steps(norm, c, w, front), es[|es| - 1]);
      DeletesOnlyOwnTransitive(c, w.s, Steps(norm, c, w, front).s, Steps(norm, c, w, es).s);
    }
  }

  lemma {:induction false} AuthorsGoByTheirEntities(norm: string -> string, c: Ctx, w: Work, es: seq<Entity>, a: Id)
    returns (e: Entity)
    requires Sane(c, w) && (forall f :: f in es ==> Known(c.plan, f))
    requires a in w.s.authors && a !in Steps(norm, c, w, es).s.authors
    ensures e in es && e.key.kind == AuthorKind && e.outcome == Created && e.local == a
  {
    var front, last := es[..|es| - 1], es[|es| - 1];
    assert forall f :: f in front ==> f in es;
    if a in Steps(norm, c, w, front).s.authors {
      StepsDeleteOnlyOwn(norm, c, w, front);
      OnlyAuthorStepsDeleteAuthors(norm, c, Steps(norm, c, w, front), last, a);
      e := last;
    } else {
      e := AuthorsGoByTheirEntities(norm, c, w, front, a);
    }
  }

  lemma {:induction false} PlanSeriesCreated(es: seq<Entity>, i: Id)
    requires i in PlanOf(es).createdSeries
    ensures exists e :: e in es && e.key.kind == SeriesKind && e.outcome == Created && e.local == i
  {
    var front, last := es[..|es| - 1], es[|es| - 1];
    if last.key.kind == SeriesKind && last.outcome == Created && last.local == i {
      assert last in es;
    } else {
      PlanSeriesCreated(front, i);
      var e :| e in front && e.key.kind == SeriesKind && e.outcome == Created && e.local == i;
      assert e in es;
    }
  }

  lemma {:induction false} PlanMembershipRecorded(es: seq<Entity>, m: (Id, Id))
    requires m in PlanOf(es).memberships
    ensures exists e :: e in es && e.key.kind == SeriesKind && e.local == m.0 && e.bookId == m.1
  {
    var front, last := es[..|es| - 1], es[|es| - 1];
    if last.key.kind == SeriesKind && last.local == m.0 && last.bookId == m.1 {
      assert last in es;
    } else {
      PlanMembershipRecorded(front, m);
      var e :| e in front && e.key.kind == SeriesKind && e.local == m.0 && e.bookId == m.1;
      assert e in es;
    }
  }

  /** The store before a rollback: no row has id 0, and the order the store lists books in covers them all. */
  ghost predicate StartsSane(s: Shelf, order: seq<Id>) {
    && 0 !in s.books && 0 !in s.series && 0 !in s.authors
    && (forall b :: b in s.books ==> b in order)
    && (forall m :: m in s.members ==> m.0 in s.series && m.1 in s.books)
  }

  /**
   * Main result: whatever the entities, every book, author, series or membership missing after a committed rollback
   * was created, or recorded, by the run; a membership may also go with its deleted book. No row appears.
   */
  lemma OnlyOwnRowsAreDeleted(norm: string -> string, s: Shelf, run: Id, es: seq<Entity>, order: seq<Id>)
    requires StartsSane(s, order)
    ensures var s' := Rollback(norm, s, run, es, order).s;
            && s'.books.Keys <= s.books.Keys && s'.series <= s.series && s'.members <= s.members
            && s'.authors.Keys <= s.authors.Keys
            && (forall a :: a in s.authors && a !in s'.authors ==>
                  exists e :: e in es && e.key.kind == AuthorKind && e.outcome == Created && e.local == a)
            && (forall b :: b in s.books && b !in s'.books ==>
                  exists e :: e in es && e.key.kind == BookKind && e.outcome == Created && e.local == b)
            && (forall i :: i in s.series && i !in s'.series ==>
                  exists e :: e in es && e.key.kind == SeriesKind && e.outcome == Created && e.local == i)
            && (forall m :: m in s.members && m !in s'.members ==>
                  || m.1 !in s'.books
                  || exists e :: e in es && e.key.kind == SeriesKind && e.local == m.0 && e.bookId == m.1)
  {
    var sorted := SortByRank(es);
    var c := Ctx(run, PlanOf(sorted), order);
    SortByRankSorts(es);
    forall e | e in sorted ensures Known(c.plan, e) { PlanKnows(sorted, e); }
    StepsDeleteOnlyOwn(norm, c, Begin(s), sorted);
    var s' := Rollback(norm, s, run, es, order).s;
    forall a | a in s.authors && a !in s'.authors
      ensures exists e :: e in es && e.key.kind == AuthorKind && e.outcome == Created && e.local == a
    {
      var e := AuthorsGoByTheirEntities(norm, c, Begin(s), sorted, a);
      assert e in es;
    }
    forall b | b in s.books && b !in s'.books
      ensures exists e :: e in es && e.key.kind == BookKind && e.outcome == Created && e.local == b
    {
      PlanCreated(sorted, b);
      assert c.plan.created[b] in es;
    }
    forall i | i in s.series && i !in s'.series
      ensures exists e :: e in es && e.key.kind == SeriesKind && e.outcome == Created && e.local == i
    {
      PlanSeriesCreated(sorted, i);
      var e :| e in sorted && e.key.kind == SeriesKind && e.outcome == Created && e.local == i;
      assert e in es;
    }
    forall m | m in s.members && m !in s'.members && m.1 in s'.books
      ensures exists e :: e in es && e.key.kind == SeriesKind && e.local == m.0 && e.bookId == m.1
    {
      PlanMembershipRecorded(sorted, m);
      var e :| e in sorted && e.key.kind == SeriesKind && e.local == m.0 && e.bookId == m.1;
      assert e in es;
    }
  }

  lemma SeriesStepDeletes(c: Ctx, w: Work, e: Entity, i: Id)
    requires i in w.s.series && i !in SeriesStep(c, w, e).s.series
    ensures e.local == i && Owned(w.s, c.run, e)
    ensures !KeepsOtherBooks(c, w.s, i) && !HasOutside(w.s, SeriesKind, i, c.run)
  {
    if Owned(w.s, c.run, e) && e.bookId > 0 { MembershipDeletes(c, w, e, i); }
  }

  lemma MembershipDeletes(c: Ctx, w: Work, e: Entity, i: Id)
    requires Owned(w.s, c.run, e) && e.bookId > 0
    requires i in w.s.series && i !in SeriesMembership(c, w, e).s.series
    ensures e.local == i && !KeepsOtherBooks(c, w.s, i) && !HasOutside(w.s, SeriesKind, i, c.run)
  {
  }

  // ----- rows that another run's provenance names -----

  /** The book, author or series the foreign row k names is in the store. */
  predicate NamesLiveRow(s: Shelf, k: Key) {
    && k in s.prov && s.prov[k].local != 0
    && match k.kind
       case BookKind => s.prov[k].local in s.books
       case AuthorKind => s.prov[k].local in s.authors
       case SeriesKind => s.prov[k].local in s.series
       case _ => false
  }

  lemma BookStepKeepsNamed(norm: string -> string, c: Ctx, w: Work, e: Entity, k: Key)
    requires Foreign(w.s, c.run, k) && NamesLiveRow(w.s, k) && e.key.kind == BookKind
    ensures NamesLiveRow(BookStep(norm, c, w, e).s, k)
  {
    if e.outcome == Created {
      BookCreatedKeepsNamed(c, w, e, k);
    } else if e.snapshot.OfBook? {
      BookRestoredRewrites(norm, c, w, e);
    }
  }

  lemma BookCreatedKeepsNamed(c: Ctx, w: Work, e: Entity, k: Key)
    requires Foreign(w.s, c.run, k) && NamesLiveRow(w.s, k) && e.key.kind == BookKind
    ensures NamesLiveRow(BookCreated(c, w, e).s, k)
  {
    assert e.local == w.s.prov[k].local && k.kind == BookKind ==> k in RowsByLocal(w.s, BookKind, e.local);
  }

  /** A series another run's row names is not deleted. */
  lemma NamedSeriesStays(c: Ctx, w: Work, e: Entity, k: Key)
    requires Foreign(w.s, c.run, k) && NamesLiveRow(w.s, k)
    ensures k.kind == SeriesKind ==> w.s.prov[k].local in SeriesStep(c, w, e).s.series
  {
    var i := w.s.prov[k].local;
    if k.kind == SeriesKind {
      assert k in RowsByLocal(w.s, SeriesKind, i);
      assert HasOutside(w.s, SeriesKind, i, c.run);
      if i !in SeriesStep(c, w, e).s.series { SeriesStepDeletes(c, w, e, i); }
    }
  }

  lemma SeriesStepKeepsNamed(c: Ctx, w: Work, e: Entity, k: Key)
    requires Foreign(w.s, c.run, k) && NamesLiveRow(w.s, k) && e.key.kind == SeriesKind
    ensures NamesLiveRow(SeriesStep(c, w, e).s, k)
  {
    SeriesStepKeepsForeignRow(c, w, e, k);
    SeriesStepShrinks(c, w, e);
    SeriesStepKeepsAuthors(c, w, e);
    NamedSeriesStays(c, w, e, k);
  }

  lemma OtherStepKeepsNamed(norm: string -> string, c: Ctx, w: Work, e: Entity, k: Key)
    requires Foreign(w.s, c.run, k) && NamesLiveRow(w.s, k) && (e.key.kind == OtherKind || e.key.kind == EditionKind)
    requires w.deleted == {} || e.key.kind != EditionKind
    ensures NamesLiveRow(Step(norm, c, w, e).s, k)
  {
    StepKeepsForeignRow(norm, c, w, e, k);
    StepShrinks(norm, c, w, e);
  }

  lemma SaneAt(norm: string -> string, c: Ctx, s: Shelf, es: seq<Entity>, n: nat)
    requires n <= |es| && c.plan == PlanOf(es) && StartsSane(s, c.bookOrder)
    ensures Sane(c, Steps(norm, c, Begin(s), es[..n]))
  {
    forall e | e in es[..n] ensures Known(c.plan, e) { PlanKnows(es, e); }
    StepsDeleteOnlyOwn(norm, c, Begin(s), es[..n]);
  }
}
