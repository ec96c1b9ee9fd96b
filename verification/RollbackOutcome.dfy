// A whole committed rollback and the parents: which authors and series go, and what is left under them.

module RollbackOutcome {
  import opened Common
  import opened RollbackModel
  import opened RollbackProofs
  import opened RollbackDeletions
  import opened RollbackRepeat
  import opened RollbackCompleteness
  import opened RollbackLinks

  /** Every book is filed under an author of the store, as the foreign key demands. */
  ghost predicate Filed(s: Shelf) { forall b :: b in s.books ==> s.books[b].authorId in s.authors }

  lemma BookRestoredKeepsFiled(norm: string -> string, c: Ctx, w: Work, e: Entity)
    requires Filed(w.s) && e.snapshot.OfBook?
    ensures Filed(BookRestored(norm, c, w, e).s)
  {
  }

  lemma AuthorCreatedKeepsFiled(c: Ctx, w: Work, e: Entity)
    requires Filed(w.s) && Sane(c, w)
    ensures Filed(AuthorCreated(c, w, e).s)
  {
    var listed := BooksOf(w.s, e.local, c.bookOrder);
    RemoveRunBooksRemoves(c, w, listed);
    var (w1, remaining) := RemoveRunBooks(c, w, listed);
    if remaining == 0 {
      forall b | b in w1.s.books ensures w1.s.books[b].authorId != e.local {
        BooksOfLists(w.s, e.local, c.bookOrder, b);
      }
      CascadeOfNothing(w1.s, e.local);
    }
  }

  lemma StepKeepsFiled(norm: string -> string, c: Ctx, w: Work, e: Entity)
    requires Filed(w.s) && Sane(c, w)
    ensures Filed(Step(norm, c, w, e).s)
  {
    match e.key.kind
    case BookKind =>
      BookStepKeepsOtherTables(norm, c, w, e);
      if RestoresBook(e) { BookRestoredKeepsFiled(norm, c, w, e); }
    case SeriesKind => SeriesStepKeepsAuthors(c, w, e);
    case AuthorKind => if e.outcome == Created { AuthorCreatedKeepsFiled(c, w, e); }
    case _ =>
  }

  lemma {:induction false} StepsKeepFiled(norm: string -> string, c: Ctx, w: Work, es: seq<Entity>)
    requires Filed(w.s) && Sane(c, w) && forall e :: e in es ==> Known(c.plan, e)
    ensures Filed(Steps(norm, c, w, es).s) && Sane(c, Steps(norm, c, w, es))
  {
    if es != [] {
      var front, last := es[..|es| - 1], es[|es| - 1];
      assert last in es && forall e :: e in front ==> e in es;
      StepsKeepFiled(norm, c, w, front);
      StepKeepsFiled(norm, c, Steps(norm, c, w, front), last);
      StepDeletesOnlyOwn(norm, c, Steps(norm, c, w, front), last);
    }
  }

  /** After a committed rollback the store is as sane as before, and every book is filed under an author. */
  lemma RollbackKeepsFiled(norm: string -> string, s: Shelf, run: Id, es: seq<Entity>, order: seq<Id>)
    requires StartsSane(s, order) && Filed(s)
    ensures Filed(Rollback(norm, s, run, es, order).s) && StartsSane(Rollback(norm, s, run, es, order).s, order)
  {
    var sorted := SortByRank(es);
    forall e | e in sorted ensures Known(PlanOf(sorted), e) { PlanKnows(sorted, e); }
    StepsKeepFiled(norm, Ctx(run, PlanOf(sorted), order), Begin(s), sorted);
  }

  /**
   * Main result: an author missing after a committed rollback was created by the run, and no book in the store is
   * filed under it.
   */
  lemma DeletedAuthorLeavesNoBook(norm: string -> string, s: Shelf, run: Id, es: seq<Entity>, order: seq<Id>, a: Id)
    requires StartsSane(s, order) && Filed(s) && a in s.authors
    requires a !in Rollback(norm, s, run, es, order).s.authors
    ensures exists e :: e in es && e.key.kind == AuthorKind && e.outcome == Created && e.local == a
    ensures var s' := Rollback(norm, s, run, es, order).s; forall b :: b in s'.books ==> s'.books[b].authorId != a
  {
    RollbackKeepsFiled(norm, s, run, es, order);
    OnlyOwnRowsAreDeleted(norm, s, run, es, order);
  }

  /**
   * Main result: a series missing after a committed rollback was created by the run, and each book that was in it is
   * gone or was put there by a membership the run recorded.
   */
  lemma DeletedSeriesHeldOnlyRecordedBooks(norm: string -> string, s: Shelf, run: Id, es: seq<Entity>, order: seq<Id>,
                                           i: Id)
    requires StartsSane(s, order) && Filed(s) && i in s.series && i !in Rollback(norm, s, run, es, order).s.series
    ensures exists e :: e in es && e.key.kind == SeriesKind && e.outcome == Created && e.local == i
    ensures forall m :: m in s.members && m.0 == i ==>
              || m.1 !in Rollback(norm, s, run, es, order).s.books
              || exists e :: e in es && e.key.kind == SeriesKind && e.local == i && e.bookId == m.1
  {
    RollbackKeepsFiled(norm, s, run, es, order);
    OnlyOwnRowsAreDeleted(norm, s, run, es, order);
  }

  // ----- exactly when a created author goes -----

  /** Until its own step, the author's row still names it, or the author is gone. */
  lemma {:induction false} OtherStepsKeepAuthorLink(norm: string -> string, c: Ctx, w: Work, es: seq<Entity>, e: Entity)
    requires e.key.kind == AuthorKind && Matches(w.s, e) && e.local in Steps(norm, c, w, es).s.authors
    requires forall f :: f in es ==> !SameEntity(e, f)
    ensures Matches(Steps(norm, c, w, es).s, e)
  {
    if es != [] {
      var front, last := es[..|es| - 1], es[|es| - 1];
      var w1 := Steps(norm, c, w, front);
      assert last in es;
      StepNeverAddsAuthor(norm, c, w1, last, e.local);
      OtherStepsKeepAuthorLink(norm, c, w, front, e);
      StepKeepsAuthorLink(norm, c, w1, last, e.key, e.local);
      StepShrinks(norm, c, w1, last);
    }
  }

  /** The pass over es stands before its nth entity. */
  function At(norm: string -> string, c: Ctx, s: Shelf, es: seq<Entity>, n: nat): Work
    requires n <= |es|
  {
    Steps(norm, c, Begin(s), es[..n])
  }

  /** What a rollback whose own rows agree starts from. */
  ghost predicate Orderly(c: Ctx, s: Shelf, es: seq<Entity>) {
    RankSorted(es) && c.plan == PlanOf(es) && OwnRowsAgree(c, s) && StartsSane(s, c.bookOrder)
  }

  lemma RanksRise(es: seq<Entity>, i: nat, j: nat)
    requires RankSorted(es) && i <= j < |es|
    ensures Rank(es[i]) <= Rank(es[j])
  {
  }

  /** Only authors, and kinds that come after them. */
  predicate Late(es: seq<Entity>) { forall e :: e in es ==> Rank(e) >= 4 }

  /** Without run-owned books left, these touch no book. */
  lemma {:induction false} LateStepsKeepBooks(norm: string -> string, c: Ctx, w: Work, es: seq<Entity>)
    requires Late(es) && Sane(c, w) && NoRunBooks(c, w.s) && forall e :: e in es ==> Known(c.plan, e)
    ensures Steps(norm, c, w, es).s.books == w.s.books
  {
    if es != [] {
      var front, last := es[..|es| - 1], es[|es| - 1];
      assert last in es && forall e :: e in front ==> e in es;
      LateStepsKeepBooks(norm, c, w, front);
      StepsDeleteOnlyOwn(norm, c, w, front);
      StepsShrink(norm, c, w, front);
      StillNoRunBooks(c, w.s, Steps(norm, c, w, front).s);
      LateStepKeepsBooks(norm, c, Steps(norm, c, w, front), last);
    }
  }

  lemma StillNoRunBooks(c: Ctx, s: Shelf, s': Shelf)
    requires Shrinks(s, s') && NoRunBooks(c, s)
    ensures NoRunBooks(c, s')
  {
    forall b | b in c.plan.created ensures !RunOwnsBook(c, s', b) { assert !RunOwnsBook(c, s, b); }
  }

  lemma LateBetween(es: seq<Entity>, n: nat, m: nat)
    requires RankSorted(es) && n <= m <= |es| && n < |es| && Rank(es[n]) >= 4
    ensures Late(es[n..m]) && forall e :: e in es[n..m] ==> e in es
  {
    forall e | e in es[n..m] ensures Rank(e) >= 4 && e in es {
      var i :| n <= i < m && es[i] == e;
      RanksRise(es, n, i);
    }
  }

  /** From the first author on, no step touches a book. */
  lemma BooksRestAfterAuthors(norm: string -> string, c: Ctx, s: Shelf, es: seq<Entity>, n: nat, m: nat)
    requires Orderly(c, s, es) && n <= m <= |es| && n < |es| && es[n].key.kind == AuthorKind
    ensures At(norm, c, s, es, m).s.books == At(norm, c, s, es, n).s.books
  {
    var some := es[..m];
    assert some[..n] == es[..n] && some[n..] == es[n..m];
    StepsSplit(norm, c, Begin(s), some, n);
    AuthorsFindNoRunBooks(norm, c, s, es, n);
    LateBetween(es, n, m);
    forall e | e in es ensures Known(c.plan, e) { PlanKnows(es, e); }
    LateStepsKeepBooks(norm, c, At(norm, c, s, es, n), es[n..m]);
  }

  lemma AuthorsFindNoRunBooks(norm: string -> string, c: Ctx, s: Shelf, es: seq<Entity>, m: nat)
    requires Orderly(c, s, es) && m < |es| && es[m].key.kind == AuthorKind
    ensures Sane(c, At(norm, c, s, es, m)) && NoRunBooks(c, At(norm, c, s, es, m).s)
  {
    AuthorsComeAfterBooks(norm, c, Begin(s), es, m);
    SaneAt(norm, c, s, es, m);
  }

  lemma LateStepKeepsBooks(norm: string -> string, c: Ctx, w: Work, e: Entity)
    requires Rank(e) >= 4 && (e.key.kind == AuthorKind ==> Sane(c, w) && NoRunBooks(c, w.s))
    ensures Step(norm, c, w, e).s.books == w.s.books
  {
    if e.key.kind == AuthorKind && e.outcome == Created { AuthorCreatedKeepsBooks(c, w, e); }
  }

  /** Other runs' rows of an author survive every step. */
  lemma OutsideStaysOutside(norm: string -> string, c: Ctx, s: Shelf, es: seq<Entity>, n: nat, a: Id)
    requires Orderly(c, s, es) && n <= |es|
    ensures HasOutside(At(norm, c, s, es, n).s, AuthorKind, a, c.run) <==> HasOutside(s, AuthorKind, a, c.run)
  {
    StepsShrink(norm, c, Begin(s), es[..n]);
    if HasOutside(s, AuthorKind, a, c.run) {
      var k :| k in RowsByLocal(s, AuthorKind, a) && s.prov[k].run != Some(c.run);
      ForeignRowSurvives(norm, c, s, es, k, n);
      assert k in RowsByLocal(At(norm, c, s, es, n).s, AuthorKind, a);
    } else {
      ShrinkingKeepsNoOutside(s, At(norm, c, s, es, n).s, AuthorKind, a, c.run);
    }
  }

  ghost predicate Barren(s: Shelf, a: Id) { forall b :: b in s.books ==> s.books[b].authorId != a }

  /** The step after which the author was gone. */
  lemma LastSeen(norm: string -> string, c: Ctx, s: Shelf, es: seq<Entity>, n: nat, a: Id) returns (m: nat)
    requires n <= |es| && a in s.authors && a !in At(norm, c, s, es, n).s.authors
    ensures m < n && a in At(norm, c, s, es, m).s.authors && a !in At(norm, c, s, es, m + 1).s.authors
  {
    var gone := (i: nat) => i <= |es| && a !in At(norm, c, s, es, i).s.authors;
    var first := FirstPlace(gone, n);
    assert es[..0] == [] && !gone(0);
    assert !gone(first - 1);
    m := first - 1;
  }

  /** An author that is gone after n steps went at an author's step, with no book under it and no other run's row. */
  lemma WhyAuthorWent(norm: string -> string, c: Ctx, s: Shelf, es: seq<Entity>, n: nat, a: Id) returns (m: nat)
    requires Orderly(c, s, es) && n <= |es| && a in s.authors && a !in At(norm, c, s, es, n).s.authors
    ensures m < n && es[m].key.kind == AuthorKind && Barren(At(norm, c, s, es, m).s, a)
    ensures !HasOutside(s, AuthorKind, a, c.run)
  {
    m := LastSeen(norm, c, s, es, n, a);
    StepsOneMore(norm, c, Begin(s), es, m + 1);
    AuthorWentHere(norm, c, s, es, m, a);
  }

  lemma AuthorWentHere(norm: string -> string, c: Ctx, s: Shelf, es: seq<Entity>, n: nat, a: Id)
    requires Orderly(c, s, es) && n < |es| && a in At(norm, c, s, es, n).s.authors
    requires a !in Step(norm, c, At(norm, c, s, es, n), es[n]).s.authors
    ensures es[n].key.kind == AuthorKind && Barren(At(norm, c, s, es, n).s, a) && !HasOutside(s, AuthorKind, a, c.run)
  {
    var w, e := At(norm, c, s, es, n), es[n];
    SaneAt(norm, c, s, es, n);
    OnlyAuthorStepsDeleteAuthors(norm, c, w, e, a);
    AuthorsComeAfterBooks(norm, c, Begin(s), es, n);
    assert Owned(w.s, c.run, e);
    AuthorStepDeletesWhenBarren(norm, c, w, e);
    OutsideStaysOutside(norm, c, s, es, n, a);
  }

  lemma BarrenAuthorGoes(norm: string -> string, c: Ctx, s: Shelf, es: seq<Entity>, n: nat)
    requires Orderly(c, s, es) && DistinctEntities(es) && n < |es| && es[n].local in s.authors
    requires es[n].key.kind == AuthorKind && es[n].outcome == Created && Owned(s, c.run, es[n])
    requires Barren(At(norm, c, s, es, n).s, es[n].local) && !HasOutside(s, AuthorKind, es[n].local, c.run)
    ensures es[n].local !in Steps(norm, c, Begin(s), es).s.authors
  {
    var w, e := At(norm, c, s, es, n), es[n];
    StepsOneMore(norm, c, Begin(s), es, n + 1);
    StepsSplit(norm, c, Begin(s), es, n + 1);
    if e.local in w.s.authors {
      OthersDiffer(es, n);
      OtherStepsKeepAuthorLink(norm, c, Begin(s), es[..n], e);
      StepsShrink(norm, c, Begin(s), es[..n]);
      SaneAt(norm, c, s, es, n);
      AuthorsComeAfterBooks(norm, c, Begin(s), es, n);
      OutsideStaysOutside(norm, c, s, es, n, e.local);
      AuthorStepDeletesWhenBarren(norm, c, w, e);
    }
    AuthorStaysGone(norm, c, s, es, n, e.local);
  }

  lemma AuthorStaysGone(norm: string -> string, c: Ctx, s: Shelf, es: seq<Entity>, n: nat, a: Id)
    requires n < |es| && (a !in At(norm, c, s, es, n).s.authors || a !in At(norm, c, s, es, n + 1).s.authors)
    ensures a !in Steps(norm, c, Begin(s), es).s.authors
  {
    StepsOneMore(norm, c, Begin(s), es, n + 1);
    StepsSplit(norm, c, Begin(s), es, n + 1);
    if a in Steps(norm, c, Begin(s), es).s.authors {
      StepsNeverAddAuthor(norm, c, At(norm, c, s, es, n + 1), es[n + 1..], a);
      StepNeverAddsAuthor(norm, c, At(norm, c, s, es, n), es[n], a);
    }
  }

  /**
   * Main result: after a committed rollback, an author the run created and owned is gone exactly when no book in the
   * store is filed under it and no other run's row named it.
   */
  lemma AuthorGoesExactlyWhenBarren(norm: string -> string, s: Shelf, run: Id, es: seq<Entity>, order: seq<Id>,
                                    e: Entity)
    requires StartsSane(s, order) && DistinctEntities(es) && OwnRowsAgree(Ctx(run, PlanOf(SortByRank(es)), order), s)
    requires e in es && e.key.kind == AuthorKind && e.outcome == Created && Owned(s, run, e) && e.local in s.authors
    ensures var s' := Rollback(norm, s, run, es, order).s;
            e.local !in s'.authors <==> Barren(s', e.local) && !HasOutside(s, AuthorKind, e.local, run)
  {
    var sorted := SortByRank(es);
    var c, s' := Ctx(run, PlanOf(sorted), order), Rollback(norm, s, run, es, order).s;
    SortByRankSorts(es);
    SortKeepsPairwise(es, SameEntity);
    assert sorted[..|sorted|] == sorted && e in sorted;
    var n :| 0 <= n < |sorted| && sorted[n] == e;
    BooksRestAfterAuthors(norm, c, s, sorted, n, |sorted|);
    if e.local !in s'.authors {
      var m := WhyAuthorWent(norm, c, s, sorted, |sorted|, e.local);
      BooksRestAfterAuthors(norm, c, s, sorted, m, |sorted|);
    } else if Barren(s', e.local) && !HasOutside(s, AuthorKind, e.local, run) {
      BarrenAuthorGoes(norm, c, s, sorted, n);
    }
  }
}
