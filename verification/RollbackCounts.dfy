// What the counters of a rollback add up to.

module RollbackCounts {
  import opened Common
  import opened RollbackModel
  import opened RollbackProofs
  import opened RollbackRepeat

  lemma UnlinkCounts(w: Work, k: Key)
    requires k in w.s.prov
    ensures |Unlink(w, k).s.prov| + Unlink(w, k).unlinked == |w.s.prov| + w.unlinked
  {
    SmallerWithout(w.s.prov, k);
  }

  lemma UnlinkAllCounts(w: Work, kind: Kind, local: Id)
    ensures |UnlinkAll(w, kind, local).s.prov| + UnlinkAll(w, kind, local).unlinked == |w.s.prov| + w.unlinked
  {
    var rows := RowsByLocal(w.s, kind, local);
    assert rows <= w.s.prov.Keys;
    assert (w.s.prov - rows).Keys == w.s.prov.Keys - rows;
    assert |(w.s.prov - rows).Keys| == |w.s.prov - rows| && |w.s.prov.Keys| == |w.s.prov|;
  }

  /** The rows left plus the rows counted as unlinked. */
  function Accounted(w: Work): nat { |w.s.prov| + w.unlinked }

  lemma {:induction false} RemoveRunBooksCounts(c: Ctx, w: Work, listed: seq<Id>)
    ensures Accounted(RemoveRunBooks(c, w, listed).0) == Accounted(w)
  {
    if listed != [] {
      RemoveRunBooksCounts(c, w, listed[..|listed| - 1]);
      var w1 := RemoveRunBooks(c, w, listed[..|listed| - 1]).0;
      UnlinkAllCounts(w1.(s := DeleteBook(w1.s, listed[|listed| - 1])), BookKind, listed[|listed| - 1]);
    }
  }

  lemma BookStepCounts(norm: string -> string, c: Ctx, w: Work, e: Entity)
    ensures Accounted(BookStep(norm, c, w, e)) == Accounted(w)
  {
    if e.outcome == Created {
      BookCreatedCounts(c, w, e);
    } else if e.snapshot.OfBook? {
      BookRestoredCounts(norm, c, w, e);
    } else if e.key in w.s.prov {
      UnlinkCounts(w, e.key);
    }
  }

  lemma BookCreatedCounts(c: Ctx, w: Work, e: Entity)
    ensures Accounted(BookCreated(c, w, e)) == Accounted(w)
  {
    if e.key in w.s.prov { UnlinkCounts(w, e.key); }
    UnlinkAllCounts(w.(s := DeleteBook(w.s, e.local)), BookKind, e.local);
  }

  lemma BookRestoredCounts(norm: string -> string, c: Ctx, w: Work, e: Entity)
    requires e.snapshot.OfBook?
    ensures Accounted(BookRestored(norm, c, w, e)) == Accounted(w)
  {
    if e.local in w.s.books {
      WriteBackCounts(norm, c, w, e, RestoreBook(norm, w.s.books[e.local], e.snapshot.before, e.snapshot.after));
    }
  }

  lemma WriteBackCounts(norm: string -> string, c: Ctx, w: Work, e: Entity, b: Book)
    requires e.local in w.s.books
    ensures Accounted(WriteBack(norm, c, w, e, b)) == Accounted(w)
  {
    if e.key in w.s.prov { SmallerWithout(w.s.prov, e.key); }
  }

  lemma AuthorCreatedCounts(c: Ctx, w: Work, e: Entity)
    requires e.key.kind == AuthorKind
    ensures Accounted(AuthorCreated(c, w, e)) == Accounted(w)
  {
    var listed := BooksOf(w.s, e.local, c.bookOrder);
    var w1 := RemoveRunBooks(c, w, listed).0;
    RemoveRunBooksCounts(c, w, listed);
    if e.key in w.s.prov {
      RemovingBooksKeepsAuthorRows(c, w, listed, e.key);
      UnlinkCounts(w1, e.key);
    }
    UnlinkAllCounts(w1.(s := DeleteAuthor(w1.s, e.local)), AuthorKind, e.local);
  }

  lemma AuthorRestoredCounts(c: Ctx, w: Work, e: Entity)
    requires e.snapshot.OfAuthor?
    ensures Accounted(AuthorRestored(c, w, e)) == Accounted(w)
  {
    if e.key in w.s.prov { SmallerWithout(w.s.prov, e.key); }
  }

  lemma SeriesStepCounts(c: Ctx, w: Work, e: Entity)
    ensures Accounted(SeriesStep(c, w, e)) == Accounted(w)
  {
    if Owned(w.s, c.run, e) {
      UnlinkCounts(w, e.key);
      UnlinkAllCounts(w.(s := DeleteSeries(w.s, e.local)), SeriesKind, e.local);
      if e.bookId > 0 {
        var w1 := w.(s := UnlinkMember(w.s, e.local, e.bookId));
        UnlinkCounts(w1, e.key);
        UnlinkAllCounts(w1.(s := DeleteSeries(w1.s, e.local)), SeriesKind, e.local);
      }
    }
  }

  lemma StepCounts(norm: string -> string, c: Ctx, w: Work, e: Entity)
    ensures Accounted(Step(norm, c, w, e)) == Accounted(w)
  {
    if e.key in w.s.prov { UnlinkCounts(w, e.key); }
    match e.key.kind
    case BookKind => BookStepCounts(norm, c, w, e);
    case SeriesKind => SeriesStepCounts(c, w, e);
    case EditionKind => UnlinkAllCounts(w.(s := DeleteEdition(w.s, e.local)), EditionKind, e.local);
    case AuthorKind =>
      if e.outcome == Created {
        AuthorCreatedCounts(c, w, e);
      } else if e.snapshot.OfAuthor? {
        AuthorRestoredCounts(c, w, e);
      }
    case OtherKind =>
  }

  lemma {:induction false} StepsCount(norm: string -> string, c: Ctx, w: Work, es: seq<Entity>)
    ensures Accounted(Steps(norm, c, w, es)) == Accounted(w)
  {
    if es != [] {
      StepsCount(norm, c, w, es[..|es| - 1]);
      StepCounts(norm, c, Steps(norm, c, w, es[..|es| - 1]), es[|es| - 1]);
    }
  }

  /** The unlinked count a rollback reports is exactly the number of provenance rows it removed. */
  lemma UnlinkedCountIsRowsRemoved(norm: string -> string, s: Shelf, run: Id, es: seq<Entity>, order: seq<Id>)
    ensures var w := Rollback(norm, s, run, es, order);
            w.unlinked == |s.prov.Keys - w.s.prov.Keys|
  {
    var sorted := SortByRank(es);
    var c := Ctx(run, PlanOf(sorted), order);
    StepsCount(norm, c, Begin(s), sorted);
    StepsShrink(norm, c, Begin(s), sorted);
    var s' := Steps(norm, c, Begin(s), sorted).s;
    assert s'.prov.Keys <= s.prov.Keys;
    assert |s.prov.Keys| == |s.prov| && |s'.prov.Keys| == |s'.prov|;
    assert |s.prov.Keys - s'.prov.Keys| == |s.prov.Keys| - |s'.prov.Keys|;
  }
}
