// What a committed rollback does to series memberships and editions: exactly which of them go.

module RollbackMembers {
  import opened Common
  import opened RollbackModel
  import opened RollbackProofs
  import opened RollbackDeletions
  import opened RollbackRepeat
  import opened RollbackLinks
  import opened RollbackRows
  import opened RollbackCompleteness
  import opened RollbackOutcome
  import opened RollbackSeries

  // ----- memberships -----

  /** The run recorded the membership, owns its row, and no other run's link holds it. */
  predicate Releases(s: Shelf, run: Id, e: Entity, m: (Id, Id)) {
    e.key.kind == SeriesKind && e.local == m.0 && e.bookId == m.1 && Owned(s, run, e) && Unretained(s, run, e)
  }

  lemma {:induction false} RemovingBooksKeepsMember(c: Ctx, w: Work, listed: seq<Id>, m: (Id, Id))
    requires m in w.s.members && m.1 in w.s.books && m.1 in RemoveRunBooks(c, w, listed).0.s.books
    ensures m in RemoveRunBooks(c, w, listed).0.s.members
  {
    if listed != [] {
      var front := listed[..|listed| - 1];
      RemoveRunBooksKeepsRows(c, w, front, m.1);
      if m.1 in RemoveRunBooks(c, w, front).0.s.books { RemovingBooksKeepsMember(c, w, front, m); }
    }
  }

  lemma AuthorStepKeepsMember(c: Ctx, w: Work, f: Entity, m: (Id, Id))
    requires f.key.kind == AuthorKind && m in w.s.members && m.1 in w.s.books && m.1 in AuthorStep(c, w, f).s.books
    ensures m in AuthorStep(c, w, f).s.members
  {
    if f.outcome == Created {
      AuthorCreatedKeepsMember(c, w, f, m);
    } else if f.snapshot.OfAuthor? {
      AuthorRestoredKeepsBooks(c, w, f);
    }
  }

  lemma AuthorCreatedKeepsMember(c: Ctx, w: Work, f: Entity, m: (Id, Id))
    requires m in w.s.members && m.1 in w.s.books && m.1 in AuthorCreated(c, w, f).s.books
    ensures m in AuthorCreated(c, w, f).s.members
  {
    var listed := BooksOf(w.s, f.local, c.bookOrder);
    if m.1 in RemoveRunBooks(c, w, listed).0.s.books { RemovingBooksKeepsMember(c, w, listed, m); }
  }

  /** While its book and its series live, a membership goes only by an entity that releases it. */
  lemma StepTakesMember(norm: string -> string, c: Ctx, w: Work, f: Entity, m: (Id, Id))
    requires m in w.s.members && m.1 in w.s.books && m !in Step(norm, c, w, f).s.members
    requires m.0 in Step(norm, c, w, f).s.series && m.1 in Step(norm, c, w, f).s.books
    ensures Releases(w.s, c.run, f, m)
  {
    match f.key.kind
    case BookKind => if f.outcome != Created && f.snapshot.OfBook? { BookRestoredRewrites(norm, c, w, f); }
    case AuthorKind => AuthorStepKeepsMember(c, w, f, m);
    case SeriesKind => SeriesStepTakesMember(c, w, f, m);
    case _ =>
  }

  lemma SeriesStepTakesMember(c: Ctx, w: Work, f: Entity, m: (Id, Id))
    requires f.key.kind == SeriesKind && m in w.s.members && m !in SeriesStep(c, w, f).s.members
    requires m.0 in SeriesStep(c, w, f).s.series
    ensures Releases(w.s, c.run, f, m)
  {
    if Owned(w.s, c.run, f) && f.bookId > 0 { MembershipTakesMember(c, w, f, m); }
  }

  lemma MembershipTakesMember(c: Ctx, w: Work, f: Entity, m: (Id, Id))
    requires f.key.kind == SeriesKind && Owned(w.s, c.run, f) && f.bookId > 0
    requires m in w.s.members && m !in SeriesMembership(c, w, f).s.members
    requires m.0 in SeriesMembership(c, w, f).s.series
    ensures Releases(w.s, c.run, f, m)
  {
  }

  /** What holds a membership back at the start still does while its book and its series live. */
  lemma ReleasedFromTheStart(norm: string -> string, c: Ctx, s: Shelf, es: seq<Entity>, e: Entity, m: (Id, Id))
    requires m.0 in Steps(norm, c, Begin(s), es).s.series && m.1 in Steps(norm, c, Begin(s), es).s.books
    requires Releases(Steps(norm, c, Begin(s), es).s, c.run, e, m)
    ensures Releases(s, c.run, e, m)
  {
    var s' := Steps(norm, c, Begin(s), es).s;
    StepsShrink(norm, c, Begin(s), es);
    OutsideStays(norm, c, Begin(s), es, m.0);
    BookOutsideStays(norm, c, Begin(s), es, m.1);
    if HasMatchingOutside(s, e, c.run) {
      var k :| k in RowsByLocal(s, SeriesKind, e.local) && k.external == e.key.external && s.prov[k].run != Some(c.run);
      StepsKeepSeriesRow(norm, c, Begin(s), es, k, m.0);
    }
  }

  lemma {:induction false} PassTakesMember(norm: string -> string, c: Ctx, s: Shelf, es: seq<Entity>, m: (Id, Id))
    requires m in s.members && m.1 in s.books && m !in Steps(norm, c, Begin(s), es).s.members
    requires m.0 in Steps(norm, c, Begin(s), es).s.series && m.1 in Steps(norm, c, Begin(s), es).s.books
    ensures exists e :: e in es && Releases(s, c.run, e, m)
  {
    if es != [] {
      var front, last := es[..|es| - 1], es[|es| - 1];
      var w := Steps(norm, c, Begin(s), front);
      assert last in es && forall e :: e in front ==> e in es;
      StepNeverAddsBook(norm, c, w, last, m.1);
      StepAddsNoSeries(norm, c, w, last);
      if m in w.s.members {
        StepTakesMember(norm, c, w, last, m);
        ReleasedFromTheStart(norm, c, s, front, last, m);
      } else {
        PassTakesMember(norm, c, s, front, m);
      }
    }
  }

  /**
   * Main result: a membership is gone after a committed rollback exactly when its series or its book is, or the run
   * recorded it, owns its row, and no other run's link holds it.
   */
  lemma MembershipGoesExactlyWhenReleased(norm: string -> string, s: Shelf, run: Id, es: seq<Entity>, order: seq<Id>,
                                          m: (Id, Id))
    requires StartsSane(s, order) && Filed(s) && DistinctEntities(es) && m in s.members
    ensures var s' := Rollback(norm, s, run, es, order).s;
            m !in s'.members <==>
            m.0 !in s'.series || m.1 !in s'.books || exists e :: e in es && Releases(s, run, e, m)
  {
    var sorted := SortByRank(es);
    var s' := Rollback(norm, s, run, es, order).s;
    SortByRankSorts(es);
    RollbackKeepsFiled(norm, s, run, es, order);
    if m !in s'.members && m.0 in s'.series && m.1 in s'.books {
      PassTakesMember(norm, Ctx(run, PlanOf(sorted), order), s, sorted, m);
    }
    if e :| e in es && Releases(s, run, e, m) { UnretainedMembershipIsRemoved(norm, s, run, es, order, e); }
  }

  // ----- editions -----

  /** Every edition belongs to a book of the store. */
  ghost predicate Bound(s: Shelf) { forall ed :: ed in s.editions ==> s.editions[ed] in s.books }

  /** Editions only go, and those of a book that is gone are gone. */
  ghost predicate EditionsKept(s: Shelf, s': Shelf) {
    && Bound(s') && forall ed :: ed in s'.editions ==> ed in s.editions && s'.editions[ed] == s.editions[ed]
  }

  predicate MakesEdition(s: Shelf, run: Id, e: Entity, ed: Id) {
    e.key.kind == EditionKind && e.outcome == Created && e.local == ed && Owned(s, run, e)
  }

  lemma {:induction false} RemovingBooksKeepsEditions(c: Ctx, w: Work, listed: seq<Id>)
    requires Bound(w.s)
    ensures EditionsKept(w.s, RemoveRunBooks(c, w, listed).0.s)
    ensures forall ed :: ed in w.s.editions && w.s.editions[ed] in RemoveRunBooks(c, w, listed).0.s.books ==>
              ed in RemoveRunBooks(c, w, listed).0.s.editions
  {
    if listed != [] {
      var front := listed[..|listed| - 1];
      RemovingBooksKeepsEditions(c, w, front);
      OneBookLess(RemoveRunBooks(c, w, front).0, listed[|listed| - 1]);
    }
  }

  lemma OneBookLess(w: Work, b: Id)
    requires Bound(w.s)
    ensures EditionsKept(w.s, RemoveBook(w, b).s)
    ensures forall ed :: ed in w.s.editions && w.s.editions[ed] in RemoveBook(w, b).s.books ==>
              ed in RemoveBook(w, b).s.editions
  {
  }

  /** Steps of other kinds take an edition exactly with its book. */
  ghost predicate EditionsFollow(s: Shelf, s': Shelf) {
    && EditionsKept(s, s')
    && forall ed :: ed in s.editions && s.editions[ed] in s'.books ==> ed in s'.editions
  }

  lemma BookStepKeepsEditions(norm: string -> string, c: Ctx, w: Work, f: Entity)
    requires Bound(w.s) && f.key.kind == BookKind
    ensures EditionsFollow(w.s, BookStep(norm, c, w, f).s)
  {
    if f.outcome == Created {
      OneBookLess(w, f.local);
    } else if f.snapshot.OfBook? {
      BookRestoredRewrites(norm, c, w, f);
    }
  }

  lemma AuthorStepKeepsEditions(c: Ctx, w: Work, f: Entity)
    requires Bound(w.s) && f.key.kind == AuthorKind
    ensures EditionsFollow(w.s, AuthorStep(c, w, f).s)
  {
    if f.outcome == Created {
      AuthorCreatedKeepsEditions(c, w, f);
    } else if f.snapshot.OfAuthor? {
      AuthorRestoredKeepsBooks(c, w, f);
      AuthorRestoredKeepsEditions(c, w, f);
    }
  }

  lemma AuthorRestoredKeepsEditions(c: Ctx, w: Work, f: Entity)
    requires f.snapshot.OfAuthor?
    ensures AuthorRestored(c, w, f).s.editions == w.s.editions
  {
  }

  lemma AuthorCreatedKeepsEditions(c: Ctx, w: Work, f: Entity)
    requires Bound(w.s)
    ensures EditionsFollow(w.s, AuthorCreated(c, w, f).s)
  {
    var listed := BooksOf(w.s, f.local, c.bookOrder);
    RemovingBooksKeepsEditions(c, w, listed);
    RemoveRunBooksKeepsRows(c, w, listed, 0);
  }

  lemma SeriesStepKeepsEditions(c: Ctx, w: Work, f: Entity)
    ensures SeriesStep(c, w, f).s.editions == w.s.editions && SeriesStep(c, w, f).s.books == w.s.books
  {
    SeriesStepKeepsRows(c, w, f);
    if Owned(w.s, c.run, f) && f.bookId > 0 { MembershipKeepsEditions(c, w, f); }
  }

  lemma MembershipKeepsEditions(c: Ctx, w: Work, f: Entity)
    requires Owned(w.s, c.run, f) && f.bookId > 0
    ensures SeriesMembership(c, w, f).s.editions == w.s.editions
  {
  }

  lemma OtherStepKeepsEditions(norm: string -> string, c: Ctx, w: Work, f: Entity)
    requires Bound(w.s) && f.key.kind != EditionKind
    ensures EditionsFollow(w.s, Step(norm, c, w, f).s)
  {
    match f.key.kind
    case BookKind => BookStepKeepsEditions(norm, c, w, f);
    case AuthorKind => AuthorStepKeepsEditions(c, w, f);
    case SeriesKind => SeriesStepKeepsEditions(c, w, f);
    case _ =>
  }

  /** An edition step deletes an edition exactly when it made it and owns it, and touches no book. */
  lemma EditionStepDeletes(norm: string -> string, c: Ctx, w: Work, f: Entity)
    requires Bound(w.s) && f.key.kind == EditionKind && w.deleted == {}
    ensures var w' := Step(norm, c, w, f);
            && w'.s.books == w.s.books && EditionsKept(w.s, w'.s)
            && forall ed :: ed in w.s.editions ==> (ed !in w'.s.editions <==> MakesEdition(w.s, c.run, f, ed))
  {
  }

  /** While the edition lives, an entity's row for it goes only by the entity's own turn. */
  lemma {:induction false} EditionStepsKeepRow(norm: string -> string, c: Ctx, s: Shelf, es: seq<Entity>, e: Entity)
    requires OnlyEditions(es) && e.key.kind == EditionKind && Owned(s, c.run, e) && Bound(s)
    requires e.local in Steps(norm, c, Begin(s), es).s.editions && forall f :: f in es ==> !SameEntity(f, e)
    ensures Owned(Steps(norm, c, Begin(s), es).s, c.run, e)
  {
    if es != [] {
      var front, last := es[..|es| - 1], es[|es| - 1];
      var w := Steps(norm, c, Begin(s), front);
      assert last in es && forall f :: f in front ==> f in es;
      EditionsAtStart(norm, c, s, front);
      EditionStepDeletes(norm, c, w, last);
      EditionStepsKeepRow(norm, c, s, front, e);
      EditionStepKeepsRow(norm, c, w, last, e);
    }
  }

  lemma EditionStepKeepsRow(norm: string -> string, c: Ctx, w: Work, f: Entity, e: Entity)
    requires f.key.kind == EditionKind && e.key.kind == EditionKind && Owned(w.s, c.run, e) && !SameEntity(f, e)
    requires w.deleted == {} && e.local in w.s.editions && e.local in Step(norm, c, w, f).s.editions
    ensures Owned(Step(norm, c, w, f).s, c.run, e)
  {
    if Matches(w.s, f) { EditionStepKeepsOther(c, w, f, e); }
  }

  lemma EditionStepKeepsOther(c: Ctx, w: Work, f: Entity, e: Entity)
    requires f.key.kind == EditionKind && e.key.kind == EditionKind && Owned(w.s, c.run, e) && !SameEntity(f, e)
    requires w.deleted == {} && e.local in EditionStep(c, w, f).s.editions && Matches(w.s, f)
    ensures Owned(EditionStep(c, w, f).s, c.run, e)
  {
  }

  predicate OnlyEditions(es: seq<Entity>) { forall e :: e in es ==> e.key.kind == EditionKind }

  lemma {:induction false} EditionsAtStart(norm: string -> string, c: Ctx, s: Shelf, es: seq<Entity>)
    requires OnlyEditions(es) && Bound(s)
    ensures var w := Steps(norm, c, Begin(s), es);
            w.deleted == {} && w.s.books == s.books && EditionsKept(s, w.s)
  {
    if es != [] {
      var front, last := es[..|es| - 1], es[|es| - 1];
      assert last in es && forall f :: f in front ==> f in es;
      EditionsAtStart(norm, c, s, front);
      EditionStepDeletes(norm, c, Steps(norm, c, Begin(s), front), last);
    }
  }

  lemma {:induction false} EditionPhase(norm: string -> string, c: Ctx, s: Shelf, es: seq<Entity>, ed: Id)
    requires OnlyEditions(es) && DistinctEntities(es) && Bound(s) && ed in s.editions
    ensures ed !in Steps(norm, c, Begin(s), es).s.editions <==> exists e :: e in es && MakesEdition(s, c.run, e, ed)
  {
    if es != [] {
      var front, last := es[..|es| - 1], es[|es| - 1];
      var w := Steps(norm, c, Begin(s), front);
      assert es == front + [last];
      assert forall e :: e in es <==> e in front || e == last;
      FrontIsDistinct(front, last);
      EditionPhase(norm, c, s, front, ed);
      EditionsAtStart(norm, c, s, front);
      EditionStepDeletes(norm, c, w, last);
      StepsShrink(norm, c, Begin(s), front);
      if ed in w.s.editions && MakesEdition(s, c.run, last, ed) { EditionStepsKeepRow(norm, c, s, front, last); }
    }
  }

  predicate NoEditions(es: seq<Entity>) { forall e :: e in es ==> e.key.kind != EditionKind }

  lemma {:induction false} LaterPhases(norm: string -> string, c: Ctx, w: Work, es: seq<Entity>)
    requires NoEditions(es) && Bound(w.s)
    ensures EditionsFollow(w.s, Steps(norm, c, w, es).s)
  {
    if es != [] {
      var front, last := es[..|es| - 1], es[|es| - 1];
      var w1 := Steps(norm, c, w, front);
      assert last in es && forall f :: f in front ==> f in es;
      LaterPhases(norm, c, w, front);
      OtherStepKeepsEditions(norm, c, w1, last);
      forall ed | ed in w.s.editions && w.s.editions[ed] in Step(norm, c, w1, last).s.books
        ensures ed in Step(norm, c, w1, last).s.editions
      {
        StepNeverAddsBook(norm, c, w1, last, w.s.editions[ed]);
      }
    }
  }

  /** How many of the sorted entities are editions: they come first. */
  lemma {:induction false} EditionsComeFirst(es: seq<Entity>) returns (n: nat)
    requires RankSorted(es)
    ensures n <= |es| && OnlyEditions(es[..n]) && NoEditions(es[n..])
  {
    if es == [] || es[|es| - 1].key.kind == EditionKind {
      n := |es|;
      forall e | e in es[..n] ensures e.key.kind == EditionKind {
        var i :| 0 <= i < |es| && es[i] == e;
        RanksRise(es, i, |es| - 1);
      }
    } else {
      n := EditionsComeFirst(es[..|es| - 1]);
      assert es[..|es| - 1][..n] == es[..n] && es[n..] == es[..|es| - 1][n..] + [es[|es| - 1]];
    }
  }

  lemma PassTakesEdition(norm: string -> string, c: Ctx, s: Shelf, es: seq<Entity>, n: nat, ed: Id)
    requires n <= |es| && OnlyEditions(es[..n]) && NoEditions(es[n..])
    requires DistinctEntities(es[..n]) && Bound(s) && ed in s.editions
    ensures var s' := Steps(norm, c, Begin(s), es).s;
            ed !in s'.editions <==>
            s.editions[ed] !in s'.books || exists e :: e in es[..n] && MakesEdition(s, c.run, e, ed)
  {
    EditionPhase(norm, c, s, es[..n], ed);
    EditionsAtStart(norm, c, s, es[..n]);
    StepsSplit(norm, c, Begin(s), es, n);
    LaterPhases(norm, c, Steps(norm, c, Begin(s), es[..n]), es[n..]);
  }

  lemma MakersComeFirst(s: Shelf, run: Id, es: seq<Entity>, n: nat, ed: Id)
    requires n <= |es| && NoEditions(es[n..])
    ensures (exists e :: e in es[..n] && MakesEdition(s, run, e, ed)) <==>
            exists e :: e in es && MakesEdition(s, run, e, ed)
  {
    assert es == es[..n] + es[n..];
    if e :| e in es && MakesEdition(s, run, e, ed) { assert e in es[..n]; }
    if e :| e in es[..n] && MakesEdition(s, run, e, ed) { assert e in es; }
  }

  /**
   * Main result: an edition is gone after a committed rollback exactly when its book is, or the run made it and owns
   * its row.
   */
  lemma EditionGoesExactlyWhenMade(norm: string -> string, s: Shelf, run: Id, es: seq<Entity>, order: seq<Id>, ed: Id)
    requires DistinctEntities(es) && Bound(s) && ed in s.editions
    ensures var s' := Rollback(norm, s, run, es, order).s;
            ed !in s'.editions <==>
            s.editions[ed] !in s'.books || exists e :: e in es && MakesEdition(s, run, e, ed)
  {
    var sorted := SortByRank(es);
    SortByRankSorts(es);
    SortKeepsPairwise(es, SameEntity);
    var n := EditionsComeFirst(sorted);
    DistinctPrefix(sorted, n);
    PassTakesEdition(norm, Ctx(run, PlanOf(sorted), order), s, sorted, n, ed);
    MakersComeFirst(s, run, sorted, n, ed);
    assert forall e :: e in es <==> e in sorted;
  }
}
