// What a committed rollback does remove: the books it created and may delete, and the memberships it recorded and
// need not keep.

module RollbackCompleteness {
  import opened Common
  import opened RollbackModel
  import opened RollbackProofs
  import opened RollbackDeletions
  import opened RollbackRepeat
  import opened RollbackLinks

  lemma ShrinkingKeepsNoOutside(s: Shelf, s': Shelf, kind: Kind, local: Id, run: Id)
    requires Shrinks(s, s') && !HasOutside(s, kind, local, run)
    ensures !HasOutside(s', kind, local, run)
  {
    forall k | k in RowsByLocal(s', kind, local) ensures s'.prov[k].run == Some(run) {
      assert k in RowsByLocal(s, kind, local);
    }
  }

  // ----- created books -----

  lemma {:induction false} OtherStepsKeepLink(norm: string -> string, c: Ctx, w: Work, es: seq<Entity>, e: Entity)
    requires e.key.kind == BookKind && Matches(w.s, e) && e.local in Steps(norm, c, w, es).s.books
    requires forall f :: f in es ==> !SameEntity(e, f)
    ensures Matches(Steps(norm, c, w, es).s, e)
  {
    if es != [] {
      var front, last := es[..|es| - 1], es[|es| - 1];
      var w1 := Steps(norm, c, w, front);
      assert last in es;
      StepNeverAddsBook(norm, c, w1, last, e.local);
      OtherStepsKeepLink(norm, c, w, front, e);
      StepKeepsLink(norm, c, w1, last, e.key, e.local);
      StepShrinks(norm, c, w1, last);
    }
  }

  /** A book the run created and owns, and that no other run's row names, is deleted. */
  lemma UnretainedBookIsDeleted(norm: string -> string, s: Shelf, run: Id, es: seq<Entity>, order: seq<Id>, e: Entity)
    requires DistinctEntities(es) && e in es && e.key.kind == BookKind && e.outcome == Created
    requires Owned(s, run, e) && !HasOutside(s, BookKind, e.local, run)
    ensures e.local !in Rollback(norm, s, run, es, order).s.books
  {
    var sorted := SortByRank(es);
    var c, w0 := Ctx(run, PlanOf(sorted), order), Begin(s);
    SortByRankSorts(es);
    SortKeepsPairwise(es, SameEntity);
    assert e in sorted;
    var n :| 0 <= n < |sorted| && sorted[n] == e;
    var w1 := Steps(norm, c, w0, sorted[..n]);
    OthersDiffer(sorted, n);
    StepsShrink(norm, c, w0, sorted[..n]);
    StepsOneMore(norm, c, w0, sorted, n + 1);
    if e.local in w1.s.books {
      OtherStepsKeepLink(norm, c, w0, sorted[..n], e);
      ShrinkingKeepsNoOutside(s, w1.s, BookKind, e.local, run);
    }
    BookStaysGone(norm, c, w0, sorted, n, e.local);
  }

  lemma BookStaysGone(norm: string -> string, c: Ctx, w: Work, es: seq<Entity>, n: nat, b: Id)
    requires n < |es|
    requires b !in Steps(norm, c, w, es[..n]).s.books || b !in Steps(norm, c, w, es[..n + 1]).s.books
    ensures b !in Steps(norm, c, w, es).s.books
  {
    StepsSplit(norm, c, w, es, n + 1);
    StepsOneMore(norm, c, w, es, n + 1);
    if b in Steps(norm, c, w, es).s.books {
      StepsNeverAddBook(norm, c, Steps(norm, c, w, es[..n + 1]), es[n + 1..], b);
      StepNeverAddsBook(norm, c, Steps(norm, c, w, es[..n]), es[n], b);
    }
  }

  // ----- recorded memberships -----

  lemma {:induction false} RemoveRunBooksMembers(c: Ctx, w: Work, listed: seq<Id>)
    ensures RemoveRunBooks(c, w, listed).0.s.members <= w.s.members
    ensures forall k :: k in w.s.prov && k.kind == SeriesKind ==> k in RemoveRunBooks(c, w, listed).0.s.prov
  {
    if listed != [] { RemoveRunBooksMembers(c, w, listed[..|listed| - 1]); }
  }

  /** A step adds no membership, and takes a series row only with the memberships of its series, or as its own row. */
  ghost predicate MembersKept(s: Shelf, s': Shelf, e: Entity) {
    && s'.members <= s.members
    && (e.key in s.prov && e.key !in s'.prov && s.prov[e.key].local == e.local ==>
          forall m :: m in s'.members ==> m.0 != e.local)
  }

  lemma BookStepMembers(norm: string -> string, c: Ctx, w: Work, f: Entity, e: Entity)
    requires e.key.kind == SeriesKind && f.key.kind == BookKind
    ensures MembersKept(w.s, BookStep(norm, c, w, f).s, e)
  {
    if f.outcome == Created {
      BookCreatedMembers(c, w, f, e);
    } else if f.snapshot.OfBook? {
      BookRestoredRewrites(norm, c, w, f);
    }
  }

  lemma BookCreatedMembers(c: Ctx, w: Work, f: Entity, e: Entity)
    requires e.key.kind == SeriesKind && f.key.kind == BookKind
    ensures MembersKept(w.s, BookCreated(c, w, f).s, e)
  {
  }

  lemma AuthorStepMembers(c: Ctx, w: Work, f: Entity, e: Entity)
    requires e.key.kind == SeriesKind && f.key.kind == AuthorKind
    ensures MembersKept(w.s, AuthorStep(c, w, f).s, e)
  {
    if f.outcome == Created {
      AuthorCreatedMembers(c, w, f, e);
    } else if f.snapshot.OfAuthor? {
      AuthorRestoredTakesOwnRow(c, w, f);
      AuthorRestoredKeepsBooks(c, w, f);
    }
  }

  lemma AuthorCreatedMembers(c: Ctx, w: Work, f: Entity, e: Entity)
    requires e.key.kind == SeriesKind && f.key.kind == AuthorKind
    ensures MembersKept(w.s, AuthorCreated(c, w, f).s, e)
  {
    RemoveRunBooksMembers(c, w, BooksOf(w.s, f.local, c.bookOrder));
  }

  lemma RemoveSeriesMembers(w: Work, id: Id, e: Entity)
    requires e.key.kind == SeriesKind
    ensures MembersKept(w.s, RemoveSeries(w, id).s, e)
  {
  }

  lemma SeriesStepMembers(c: Ctx, w: Work, f: Entity, e: Entity)
    requires e.key.kind == SeriesKind && f.key.kind == SeriesKind && !SameEntity(e, f)
    ensures MembersKept(w.s, SeriesStep(c, w, f).s, e)
  {
    if Owned(w.s, c.run, f) {
      RemoveSeriesMembers(w, f.local, e);
      if f.bookId > 0 { RemoveSeriesMembers(w.(s := UnlinkMember(w.s, f.local, f.bookId)), f.local, e); }
    }
  }

  lemma StepMembers(norm: string -> string, c: Ctx, w: Work, f: Entity, e: Entity)
    requires e.key.kind == SeriesKind && !SameEntity(e, f)
    ensures MembersKept(w.s, Step(norm, c, w, f).s, e)
  {
    if Matches(w.s, f) {
      match f.key.kind
      case BookKind => BookStepMembers(norm, c, w, f, e);
      case AuthorKind => AuthorStepMembers(c, w, f, e);
      case SeriesKind => SeriesStepMembers(c, w, f, e);
      case _ =>
    }
  }

  /** The membership is gone, or the entity's row still names its series. */
  ghost predicate GoneOrMatches(s: Shelf, e: Entity, m: (Id, Id)) { m !in s.members || Matches(s, e) }

  lemma {:induction false} OtherStepsKeepMembership(norm: string -> string, c: Ctx, w: Work, es: seq<Entity>,
                                                    e: Entity, m: (Id, Id))
    requires e.key.kind == SeriesKind && m.0 == e.local && GoneOrMatches(w.s, e, m)
    requires forall f :: f in es ==> !SameEntity(e, f)
    ensures GoneOrMatches(Steps(norm, c, w, es).s, e, m)
    ensures m !in w.s.members ==> m !in Steps(norm, c, w, es).s.members
  {
    if es != [] {
      var front, last := es[..|es| - 1], es[|es| - 1];
      assert last in es;
      OtherStepsKeepMembership(norm, c, w, front, e, m);
      StepMembers(norm, c, Steps(norm, c, w, front), last, e);
      StepShrinks(norm, c, Steps(norm, c, w, front), last);
    }
  }

  /** The run recorded this membership, and no other run's link holds it. */
  predicate Unretained(s: Shelf, run: Id, e: Entity) {
    && !HasMatchingOutside(s, e, run) && e.bookId > 0
    && !(HasOutside(s, BookKind, e.bookId, run) && HasOutside(s, SeriesKind, e.local, run))
  }

  lemma UnretainedStays(s: Shelf, s': Shelf, run: Id, e: Entity)
    requires Shrinks(s, s') && Unretained(s, run, e)
    ensures Unretained(s', run, e)
  {
    forall k | k in RowsByLocal(s', e.key.kind, e.local) ensures k in RowsByLocal(s, e.key.kind, e.local) {}
    if !HasOutside(s, BookKind, e.bookId, run) { ShrinkingKeepsNoOutside(s, s', BookKind, e.bookId, run); }
    if !HasOutside(s, SeriesKind, e.local, run) { ShrinkingKeepsNoOutside(s, s', SeriesKind, e.local, run); }
  }

  /** The entity's own step, with its row still there or its membership gone already. */
  lemma OwnStepRemovesMembership(norm: string -> string, c: Ctx, s: Shelf, w: Work, e: Entity)
    requires e.key.kind == SeriesKind && Owned(s, c.run, e) && Unretained(s, c.run, e) && Shrinks(s, w.s)
    requires GoneOrMatches(w.s, e, (e.local, e.bookId))
    ensures (e.local, e.bookId) !in Step(norm, c, w, e).s.members
  {
    if Matches(w.s, e) {
      UnretainedStays(s, w.s, c.run, e);
    }
  }

  lemma PassRemovesMembership(norm: string -> string, c: Ctx, s: Shelf, es: seq<Entity>, e: Entity, n: nat)
    requires DistinctEntities(es) && n < |es| && es[n] == e && e.key.kind == SeriesKind
    requires Owned(s, c.run, e) && Unretained(s, c.run, e)
    ensures (e.local, e.bookId) !in Steps(norm, c, Begin(s), es).s.members
  {
    var m: (Id, Id) := (e.local, e.bookId);
    var w1, w2 := Steps(norm, c, Begin(s), es[..n]), Steps(norm, c, Begin(s), es[..n + 1]);
    OthersDiffer(es, n);
    OtherStepsKeepMembership(norm, c, Begin(s), es[..n], e, m);
    StepsShrink(norm, c, Begin(s), es[..n]);
    StepsOneMore(norm, c, Begin(s), es, n + 1);
    OwnStepRemovesMembership(norm, c, s, w1, e);
    StepsSplit(norm, c, Begin(s), es, n + 1);
    OtherStepsKeepMembership(norm, c, w2, es[n + 1..], e, m);
  }

  lemma OthersDiffer(es: seq<Entity>, n: nat)
    requires DistinctEntities(es) && n < |es|
    ensures forall f :: f in es[..n] ==> !SameEntity(es[n], f)
    ensures forall f :: f in es[n + 1..] ==> !SameEntity(es[n], f)
  {
    forall f | f in es[..n] ensures !SameEntity(es[n], f) {
      var i :| 0 <= i < n && es[i] == f;
      assert !SameEntity(es[i], es[n]);
    }
    forall f | f in es[n + 1..] ensures !SameEntity(es[n], f) {
      var i :| n + 1 <= i < |es| && es[i] == f;
      assert !SameEntity(es[n], es[i]);
    }
  }

  /** A membership the run recorded and owns, and that no other run's link holds, is removed. */
  lemma UnretainedMembershipIsRemoved(norm: string -> string, s: Shelf, run: Id, es: seq<Entity>, order: seq<Id>,
                                      e: Entity)
    requires DistinctEntities(es) && e in es && e.key.kind == SeriesKind
    requires Owned(s, run, e) && Unretained(s, run, e)
    ensures (e.local, e.bookId) !in Rollback(norm, s, run, es, order).s.members
  {
    var sorted := SortByRank(es);
    SortByRankSorts(es);
    SortKeepsPairwise(es, SameEntity);
    assert e in sorted;
    var n :| 0 <= n < |sorted| && sorted[n] == e;
    PassRemovesMembership(norm, Ctx(run, PlanOf(sorted), order), s, sorted, e, n);
  }

  // ----- created authors -----

  /**
   * Once the books are dealt with, the step of an author the run created and owns deletes it exactly when no book is
   * left under it and no other run's row names it.
   */
  lemma AuthorStepDeletesWhenBarren(norm: string -> string, c: Ctx, w: Work, e: Entity)
    requires Sane(c, w) && NoRunBooks(c, w.s) && e.local in w.s.authors
    requires e.key.kind == AuthorKind && e.outcome == Created && Owned(w.s, c.run, e)
    ensures e.local !in Step(norm, c, w, e).s.authors <==>
            && (forall b :: b in w.s.books ==> w.s.books[b].authorId != e.local)
            && !HasOutside(w.s, AuthorKind, e.local, c.run)
  {
    var listed := BooksOf(w.s, e.local, c.bookOrder);
    NothingToRemove(c, w, listed);
    forall b ensures b in listed <==> b in c.bookOrder && b in w.s.books && w.s.books[b].authorId == e.local {
      BooksOfLists(w.s, e.local, c.bookOrder, b);
    }
    NoneRemain(c, w, listed);
  }

  lemma NoneRemain(c: Ctx, w: Work, listed: seq<Id>)
    requires NoRunBooks(c, w.s) && forall b :: b in listed ==> b !in w.deleted
    ensures RemoveRunBooks(c, w, listed).1 == 0 <==> forall b :: b !in listed
  {
    NothingToRemove(c, w, listed);
    if listed != [] { assert listed[0] in listed; }
  }
}
