// What a committed rollback does to the series: exactly which of them go, which memberships, and which editions.

module RollbackSeries {
  import opened Common
  import opened RollbackModel
  import opened RollbackProofs
  import opened RollbackDeletions
  import opened RollbackRepeat
  import opened RollbackLinks
  import opened RollbackRows
  import opened RollbackCompleteness
  import opened RollbackOutcome

  // ----- what the plan says, in terms of the entities -----

  /** The run has an entity for the series itself, without a book. */
  predicate HasIdentity(es: seq<Entity>, sid: Id) {
    exists e :: e in es && e.key.kind == SeriesKind && e.local == sid && e.bookId <= 0
  }

  predicate CreatesMember(e: Entity, sid: Id) {
    e.key.kind == SeriesKind && e.outcome == Created && e.local == sid && e.bookId > 0
  }

  predicate RecordsMember(es: seq<Entity>, m: (Id, Id)) {
    exists e :: e in es && e.key.kind == SeriesKind && e.local == m.0 && e.bookId == m.1
  }

  /** Ids of recorded entities are those of the table: positive, and each used once. */
  ghost predicate Numbered(es: seq<Entity>) {
    (forall e :: e in es ==> e.id > 0) && forall e, f :: e in es && f in es && e.id == f.id ==> e == f
  }

  lemma {:induction false} PlanIdentity(es: seq<Entity>, sid: Id)
    requires sid != 0
    ensures sid in PlanOf(es).identitySeries <==> HasIdentity(es, sid)
  {
    if es != [] {
      var front, last := es[..|es| - 1], es[|es| - 1];
      assert es == front + [last];
      PlanIdentity(front, sid);
      assert forall e :: e in es <==> e in front || e == last;
    }
  }

  lemma {:induction false} PlanMemberships(es: seq<Entity>, m: (Id, Id))
    requires m.0 != 0 && m.1 != 0
    ensures m in PlanOf(es).memberships <==> RecordsMember(es, m)
  {
    if es != [] {
      var front, last := es[..|es| - 1], es[|es| - 1];
      assert es == front + [last];
      PlanMemberships(front, m);
      assert forall e :: e in es <==> e in front || e == last;
    }
  }

  /** The last created membership of a series is the one with the highest id. */
  lemma {:induction false} PlanLast(es: seq<Entity>, sid: Id)
    requires sid != 0
    ensures forall e :: e in es && CreatesMember(e, sid) ==> e.id <= LastMembership(PlanOf(es), sid)
    ensures LastMembership(PlanOf(es), sid) != 0 ==>
              exists e :: e in es && CreatesMember(e, sid) && e.id == LastMembership(PlanOf(es), sid)
  {
    if es != [] {
      var front, last := es[..|es| - 1], es[|es| - 1];
      assert es == front + [last];
      PlanLast(front, sid);
      assert forall e :: e in es <==> e in front || e == last;
      NotedLast(PlanOf(front), last, sid);
      assert last in es;
    }
  }

  lemma NotedLast(p: Plan, e: Entity, sid: Id)
    requires sid != 0
    ensures LastMembership(Noted(p, e), sid) ==
            if CreatesMember(e, sid) && e.id > LastMembership(p, sid) then e.id else LastMembership(p, sid)
  {
  }

  // ----- series rows while the series lives -----

  lemma RemovingBooksKeepsSeries(c: Ctx, w: Work, listed: seq<Id>)
    ensures RemoveRunBooks(c, w, listed).0.s.series == w.s.series
    ensures forall k :: k in w.s.prov && k.kind == SeriesKind ==> k in RemoveRunBooks(c, w, listed).0.s.prov
  {
    RemoveRunBooksMembers(c, w, listed);
    RemovingBooksKeepsSeriesTable(c, w, listed);
  }

  lemma {:induction false} RemovingBooksKeepsSeriesTable(c: Ctx, w: Work, listed: seq<Id>)
    ensures RemoveRunBooks(c, w, listed).0.s.series == w.s.series
  {
    if listed != [] { RemovingBooksKeepsSeriesTable(c, w, listed[..|listed| - 1]); }
  }

  /** Entities of other kinds leave the series and their provenance rows alone. */
  ghost predicate SeriesUntouched(s: Shelf, s': Shelf) {
    s'.series == s.series && forall k :: k in s.prov && k.kind == SeriesKind ==> k in s'.prov
  }

  lemma BookStepKeepsSeries(norm: string -> string, c: Ctx, w: Work, f: Entity)
    requires f.key.kind == BookKind
    ensures SeriesUntouched(w.s, BookStep(norm, c, w, f).s)
  {
    BookStepKeepsOtherTables(norm, c, w, f);
    if f.outcome != Created && f.snapshot.OfBook? { BookRestoredTakesOwnRow(norm, c, w, f); }
  }

  lemma AuthorStepKeepsSeries(c: Ctx, w: Work, f: Entity)
    requires f.key.kind == AuthorKind
    ensures SeriesUntouched(w.s, AuthorStep(c, w, f).s)
  {
    if f.outcome == Created {
      RemovingBooksKeepsSeries(c, w, BooksOf(w.s, f.local, c.bookOrder));
    } else if f.snapshot.OfAuthor? {
      AuthorRestoredTakesOwnRow(c, w, f);
      AuthorRestoredKeepsSeriesTable(c, w, f);
    }
  }

  lemma AuthorRestoredKeepsSeriesTable(c: Ctx, w: Work, f: Entity)
    requires f.snapshot.OfAuthor?
    ensures AuthorRestored(c, w, f).s.series == w.s.series
  {
  }

  lemma OtherStepKeepsSeries(norm: string -> string, c: Ctx, w: Work, f: Entity)
    requires f.key.kind != SeriesKind
    ensures SeriesUntouched(w.s, Step(norm, c, w, f).s)
  {
    match f.key.kind
    case BookKind => BookStepKeepsSeries(norm, c, w, f);
    case AuthorKind => AuthorStepKeepsSeries(c, w, f);
    case _ =>
  }

  /** A series step deletes its own series or none, and takes rows of a series that lives only as its own row. */
  lemma SeriesStepTakesOwn(c: Ctx, w: Work, f: Entity)
    requires f.key.kind == SeriesKind
    ensures SeriesStep(c, w, f).s.series in {w.s.series, w.s.series - {f.local}}
    ensures Owned(w.s, c.run, f) || SeriesStep(c, w, f) == w
    ensures forall k :: k in w.s.prov && k !in SeriesStep(c, w, f).s.prov ==>
              k == f.key || (w.s.prov[k].local == f.local && f.local !in SeriesStep(c, w, f).s.series)
  {
    if Owned(w.s, c.run, f) && f.bookId > 0 { MembershipTakesOwn(c, w, f); }
  }

  lemma MembershipTakesOwn(c: Ctx, w: Work, f: Entity)
    requires f.key.kind == SeriesKind && Owned(w.s, c.run, f) && f.bookId > 0
    ensures SeriesMembership(c, w, f).s.series in {w.s.series, w.s.series - {f.local}}
    ensures forall k :: k in w.s.prov && k !in SeriesMembership(c, w, f).s.prov ==>
              k == f.key || (w.s.prov[k].local == f.local && f.local !in SeriesMembership(c, w, f).s.series)
  {
  }

  /** While a series lives, its rows go only by the run's own entity for them. */
  lemma StepKeepsSeriesRow(norm: string -> string, c: Ctx, w: Work, f: Entity, k: Key, sid: Id)
    requires k.kind == SeriesKind && Links(w.s, k, sid) && sid in Step(norm, c, w, f).s.series
    requires !(f.key == k && f.local == sid && Owned(w.s, c.run, f))
    ensures Links(Step(norm, c, w, f).s, k, sid)
  {
    StepShrinks(norm, c, w, f);
    if f.key.kind == SeriesKind {
      if Matches(w.s, f) { SeriesStepTakesOwn(c, w, f); }
    } else {
      OtherStepKeepsSeries(norm, c, w, f);
    }
  }

  lemma StepAddsNoSeries(norm: string -> string, c: Ctx, w: Work, f: Entity)
    ensures Step(norm, c, w, f).s.series <= w.s.series
  {
    if f.key.kind == SeriesKind { SeriesStepTakesOwn(c, w, f); } else { OtherStepKeepsSeries(norm, c, w, f); }
  }

  lemma {:induction false} StepsKeepSeriesRow(norm: string -> string, c: Ctx, w: Work, es: seq<Entity>, k: Key, sid: Id)
    requires k.kind == SeriesKind && Links(w.s, k, sid) && sid in Steps(norm, c, w, es).s.series
    requires w.s.prov[k].run != Some(c.run) || forall f :: f in es ==> !(f.key == k && f.local == sid)
    ensures Links(Steps(norm, c, w, es).s, k, sid)
  {
    if es != [] {
      var front, last := es[..|es| - 1], es[|es| - 1];
      assert last in es;
      StepAddsNoSeries(norm, c, Steps(norm, c, w, front), last);
      StepsKeepSeriesRow(norm, c, w, front, k, sid);
      StepsShrink(norm, c, w, front);
      StepKeepsSeriesRow(norm, c, Steps(norm, c, w, front), last, k, sid);
    }
  }

  lemma OutsideStays(norm: string -> string, c: Ctx, w: Work, es: seq<Entity>, sid: Id)
    requires sid in Steps(norm, c, w, es).s.series
    ensures HasOutside(Steps(norm, c, w, es).s, SeriesKind, sid, c.run) <==> HasOutside(w.s, SeriesKind, sid, c.run)
  {
    var s' := Steps(norm, c, w, es).s;
    StepsShrink(norm, c, w, es);
    if HasOutside(w.s, SeriesKind, sid, c.run) {
      var k :| k in RowsByLocal(w.s, SeriesKind, sid) && w.s.prov[k].run != Some(c.run);
      StepsKeepSeriesRow(norm, c, w, es, k, sid);
      assert k in RowsByLocal(s', SeriesKind, sid);
    } else {
      ShrinkingKeepsNoOutside(w.s, s', SeriesKind, sid, c.run);
    }
  }

  // ----- the books that go before the series are reached -----

  /** The run created the book and owns a row of it, and no other run's row names it. */
  predicate Unclaimed(s: Shelf, run: Id, es: seq<Entity>, b: Id) {
    && !HasOutside(s, BookKind, b, run)
    && exists e :: e in es && CreatesBook(s, run, e, b)
  }

  predicate CreatesBook(s: Shelf, run: Id, e: Entity, b: Id) {
    e.key.kind == BookKind && e.outcome == Created && e.local == b && Owned(s, run, e)
  }

  /** No author is among them. */
  predicate BeforeAuthors(es: seq<Entity>) { forall e :: e in es ==> e.key.kind != AuthorKind }

  lemma BookOutsideStays(norm: string -> string, c: Ctx, w: Work, es: seq<Entity>, b: Id)
    requires b in Steps(norm, c, w, es).s.books
    ensures HasOutside(Steps(norm, c, w, es).s, BookKind, b, c.run) <==> HasOutside(w.s, BookKind, b, c.run)
  {
    var s' := Steps(norm, c, w, es).s;
    StepsShrink(norm, c, w, es);
    if HasOutside(w.s, BookKind, b, c.run) {
      var k :| k in RowsByLocal(w.s, BookKind, b) && w.s.prov[k].run != Some(c.run);
      StepsKeepForeignLink(norm, c, w, es, k, b);
      assert k in RowsByLocal(s', BookKind, b);
    } else {
      ShrinkingKeepsNoOutside(w.s, s', BookKind, b, c.run);
    }
  }

  /** A step other than an author's deletes a book exactly when it created and owns it and nobody else names it. */
  lemma StepDeletesBook(norm: string -> string, c: Ctx, w: Work, f: Entity, b: Id)
    requires f.key.kind != AuthorKind && b in w.s.books
    ensures b !in Step(norm, c, w, f).s.books <==>
            CreatesBook(w.s, c.run, f, b) && !HasOutside(w.s, BookKind, b, c.run)
  {
    match f.key.kind
    case BookKind => if f.outcome != Created && f.snapshot.OfBook? { BookRestoredRewrites(norm, c, w, f); }
    case SeriesKind => SeriesStepKeepsRows(c, w, f);
    case _ =>
  }

  lemma {:induction false} BooksBeforeAuthors(norm: string -> string, c: Ctx, s: Shelf, es: seq<Entity>, b: Id)
    requires BeforeAuthors(es) && DistinctEntities(es) && b in s.books
    ensures b !in Steps(norm, c, Begin(s), es).s.books <==> Unclaimed(s, c.run, es, b)
  {
    if es != [] {
      var front, last := es[..|es| - 1], es[|es| - 1];
      var w := Steps(norm, c, Begin(s), front);
      assert es == front + [last] && last in es;
      assert forall e :: e in es <==> e in front || e == last;
      FrontIsDistinct(front, last);
      BooksBeforeAuthors(norm, c, s, front, b);
      if b in w.s.books {
        StepDeletesBook(norm, c, w, last, b);
        BookOutsideStays(norm, c, Begin(s), front, b);
        StepsShrink(norm, c, Begin(s), front);
        if CreatesBook(s, c.run, last, b) { LastOwnsStill(norm, c, s, front, last); }
      } else if b in Steps(norm, c, Begin(s), es).s.books {
        StepNeverAddsBook(norm, c, w, last, b);
      }
    }
  }

  lemma LastOwnsStill(norm: string -> string, c: Ctx, s: Shelf, front: seq<Entity>, last: Entity)
    requires last.key.kind == BookKind && Owned(s, c.run, last) && forall f :: f in front ==> !SameEntity(f, last)
    requires last.local in Steps(norm, c, Begin(s), front).s.books
    ensures Owned(Steps(norm, c, Begin(s), front).s, c.run, last)
  {
    OtherStepsKeepLink(norm, c, Begin(s), front, last);
    StepsShrink(norm, c, Begin(s), front);
  }

  // ----- the series -----

  /** Nobody else names the series, and what keeps a book in it was recorded by the run, or the book goes first. */
  ghost predicate Forsaken(s: Shelf, run: Id, es: seq<Entity>, sid: Id) {
    && !HasOutside(s, SeriesKind, sid, run)
    && forall m :: m in s.members && m.0 == sid ==> RecordsMember(es, m) || Unclaimed(s, run, es, m.1)
  }

  /**
   * The run created the series and owns this row of it: the row of the series itself or, where the run has none, that
   * of the last membership it created.
   */
  predicate Concludes(s: Shelf, run: Id, es: seq<Entity>, e: Entity, sid: Id) {
    && e.key.kind == SeriesKind && e.outcome == Created && e.local == sid && Owned(s, run, e)
    && (e.bookId > 0 ==> !HasIdentity(es, sid) && forall f :: f in es && CreatesMember(f, sid) ==> f.id <= e.id)
  }

  /** The same, as the step asks it of the plan. */
  predicate Finishes(c: Ctx, s: Shelf, e: Entity, sid: Id) {
    && e.key.kind == SeriesKind && e.local == sid && Owned(s, c.run, e)
    && if e.bookId > 0 then
         sid in c.plan.createdSeries && sid !in c.plan.identitySeries && LastMembership(c.plan, sid) == e.id
       else e.outcome == Created
  }

  lemma FinishesConcludes(c: Ctx, s: Shelf, es: seq<Entity>, e: Entity, sid: Id)
    requires c.plan == PlanOf(es) && Numbered(es) && e in es && sid != 0
    ensures Finishes(c, s, e, sid) <==> Concludes(s, c.run, es, e, sid)
  {
    PlanIdentity(es, sid);
    PlanLast(es, sid);
    PlanKnows(es, e);
    if e.bookId > 0 && Finishes(c, s, e, sid) {
      PlanSeriesCreated(es, sid);
      var f :| f in es && f.key.kind == SeriesKind && f.outcome == Created && f.local == sid;
      assert CreatesMember(f, sid);
      var g :| g in es && CreatesMember(g, sid) && g.id == LastMembership(c.plan, sid);
    }
  }

  lemma SeriesStepDeletesExactly(c: Ctx, w: Work, f: Entity, sid: Id)
    requires f.key.kind == SeriesKind && sid in w.s.series
    ensures sid !in SeriesStep(c, w, f).s.series <==>
            && Finishes(c, w.s, f, sid) && !HasOutside(w.s, SeriesKind, sid, c.run)
            && !KeepsOtherBooks(c, w.s, sid)
  {
    if Owned(w.s, c.run, f) && f.bookId > 0 { MembershipDeletesExactly(c, w, f, sid); }
  }

  lemma MembershipDeletesExactly(c: Ctx, w: Work, f: Entity, sid: Id)
    requires f.key.kind == SeriesKind && sid in w.s.series && Owned(w.s, c.run, f) && f.bookId > 0
    ensures sid !in SeriesMembership(c, w, f).s.series <==>
            && Finishes(c, w.s, f, sid) && !HasOutside(w.s, SeriesKind, sid, c.run)
            && !KeepsOtherBooks(c, w.s, sid)
  {
    assert HasMatchingOutside(w.s, f, c.run) ==> HasOutside(w.s, SeriesKind, f.local, c.run);
  }

  // ----- memberships the run did not record -----

  /** A membership the run did not record goes only with its book or its series. */
  lemma StepKeepsUnrecorded(norm: string -> string, c: Ctx, w: Work, f: Entity, m: (Id, Id))
    requires f.key.kind != AuthorKind && Known(c.plan, f) && m !in c.plan.memberships && m.0 != 0
    requires m in w.s.members && m.1 in Step(norm, c, w, f).s.books && m.0 in Step(norm, c, w, f).s.series
    ensures m in Step(norm, c, w, f).s.members
  {
    match f.key.kind
    case BookKind => if f.outcome != Created && f.snapshot.OfBook? { BookRestoredRewrites(norm, c, w, f); }
    case SeriesKind => if Matches(w.s, f) { SeriesStepKeepsUnrecorded(c, w, f, m); }
    case _ =>
  }

  lemma SeriesStepKeepsUnrecorded(c: Ctx, w: Work, f: Entity, m: (Id, Id))
    requires f.key.kind == SeriesKind && Known(c.plan, f) && m !in c.plan.memberships && m.0 != 0
    requires m in w.s.members && m.0 in SeriesStep(c, w, f).s.series
    ensures m in SeriesStep(c, w, f).s.members
  {
    if Owned(w.s, c.run, f) && f.bookId > 0 { MembershipKeepsUnrecorded(c, w, f, m); }
  }

  lemma MembershipKeepsUnrecorded(c: Ctx, w: Work, f: Entity, m: (Id, Id))
    requires f.key.kind == SeriesKind && Known(c.plan, f) && m !in c.plan.memberships && m.0 != 0
    requires Owned(w.s, c.run, f) && f.bookId > 0
    requires m in w.s.members && m.0 in SeriesMembership(c, w, f).s.series
    ensures m in SeriesMembership(c, w, f).s.members
  {
    assert f.local != 0 ==> (f.local, f.bookId) in c.plan.memberships;
  }

  lemma {:induction false} UnrecordedBeforeAuthors(norm: string -> string, c: Ctx, w: Work, es: seq<Entity>,
                                                   m: (Id, Id))
    requires BeforeAuthors(es) && (forall f :: f in es ==> Known(c.plan, f)) && m !in c.plan.memberships && m.0 != 0
    requires m in w.s.members && m.1 in Steps(norm, c, w, es).s.books && m.0 in Steps(norm, c, w, es).s.series
    ensures m in Steps(norm, c, w, es).s.members
  {
    if es != [] {
      var front, last := es[..|es| - 1], es[|es| - 1];
      var w1 := Steps(norm, c, w, front);
      assert last in es && forall f :: f in front ==> f in es;
      StepNeverAddsBook(norm, c, w1, last, m.1);
      StepAddsNoSeries(norm, c, w1, last);
      UnrecordedBeforeAuthors(norm, c, w, front, m);
      StepKeepsUnrecorded(norm, c, w1, last, m);
    }
  }

  // ----- the turn of a series entity -----

  /** Where the pass reaches a series, every book entity is behind it, and every author is ahead. */
  lemma BooksAreBehind(es: seq<Entity>, n: nat)
    requires RankSorted(es) && n < |es| && es[n].key.kind == SeriesKind
    ensures BeforeAuthors(es[..n])
    ensures forall s, run, b :: Unclaimed(s, run, es[..n], b) <==> Unclaimed(s, run, es, b)
  {
    forall e | e in es[..n] ensures e.key.kind != AuthorKind {
      var i :| 0 <= i < n && es[i] == e;
      RanksRise(es, i, n);
    }
    forall e | e in es && e.key.kind == BookKind ensures e in es[..n] {
      var i :| 0 <= i < |es| && es[i] == e;
      if n <= i { RanksRise(es, n, i); }
    }
    forall s, run, b ensures Unclaimed(s, run, es[..n], b) <==> Unclaimed(s, run, es, b) {
      if e :| e in es && CreatesBook(s, run, e, b) { assert e in es[..n]; }
      if e :| e in es[..n] && CreatesBook(s, run, e, b) { assert e in es; }
    }
  }

  /** What else is in the series then. */
  lemma OthersInSeries(norm: string -> string, c: Ctx, s: Shelf, es: seq<Entity>, n: nat, sid: Id)
    requires RankSorted(es) && DistinctEntities(es) && c.plan == PlanOf(es) && StartsSane(s, c.bookOrder)
    requires n < |es| && es[n].key.kind == SeriesKind && sid != 0 && sid in At(norm, c, s, es, n).s.series
    ensures KeepsOtherBooks(c, At(norm, c, s, es, n).s, sid) <==>
            exists m :: m in s.members && m.0 == sid && !RecordsMember(es, m) && !Unclaimed(s, c.run, es, m.1)
  {
    var w := At(norm, c, s, es, n);
    BooksAreBehind(es, n);
    DistinctPrefix(es, n);
    forall f | f in es ensures Known(c.plan, f) { PlanKnows(es, f); }
    StepsDeleteOnlyOwn(norm, c, Begin(s), es[..n]);
    forall m | m in s.members && m.0 == sid && !RecordsMember(es, m) && !Unclaimed(s, c.run, es, m.1)
      ensures m in w.s.members && m !in c.plan.memberships
    {
      PlanMemberships(es, m);
      BooksBeforeAuthors(norm, c, s, es[..n], m.1);
      UnrecordedBeforeAuthors(norm, c, Begin(s), es[..n], m);
    }
    forall m | m in w.s.members && m.0 == sid && m !in c.plan.memberships
      ensures m in s.members && !RecordsMember(es, m) && !Unclaimed(s, c.run, es, m.1)
    {
      PlanMemberships(es, m);
      BooksBeforeAuthors(norm, c, s, es[..n], m.1);
    }
  }

  lemma DistinctPrefix(es: seq<Entity>, n: nat)
    requires DistinctEntities(es) && n <= |es|
    ensures DistinctEntities(es[..n])
    ensures n < |es| ==> forall f :: f in es[..n] ==> !SameEntity(f, es[n])
  {
    forall i, j | 0 <= i < j < n ensures !SameEntity(es[..n][i], es[..n][j]) { assert !SameEntity(es[i], es[j]); }
    if n < |es| {
      forall f | f in es[..n] ensures !SameEntity(f, es[n]) {
        var i :| 0 <= i < n && es[i] == f;
        assert !SameEntity(es[i], es[n]);
      }
    }
  }

  lemma OwnedUntilItsTurn(norm: string -> string, c: Ctx, s: Shelf, es: seq<Entity>, n: nat)
    requires DistinctEntities(es) && n < |es| && es[n].key.kind == SeriesKind
    requires es[n].local in At(norm, c, s, es, n).s.series
    ensures Owned(At(norm, c, s, es, n).s, c.run, es[n]) <==> Owned(s, c.run, es[n])
  {
    StepsShrink(norm, c, Begin(s), es[..n]);
    DistinctPrefix(es, n);
    if Owned(s, c.run, es[n]) {
      StepsKeepSeriesRow(norm, c, Begin(s), es[..n], es[n].key, es[n].local);
    }
  }

  /** A step of the pass deletes a series exactly when it concludes one that is forsaken. */
  lemma TurnDeletesSeries(norm: string -> string, c: Ctx, s: Shelf, es: seq<Entity>, n: nat, sid: Id)
    requires RankSorted(es) && DistinctEntities(es) && c.plan == PlanOf(es) && StartsSane(s, c.bookOrder)
    requires n < |es| && Numbered(es) && sid != 0 && sid in At(norm, c, s, es, n).s.series
    ensures sid !in At(norm, c, s, es, n + 1).s.series <==>
            Concludes(s, c.run, es, es[n], sid) && Forsaken(s, c.run, es, sid)
  {
    var w, f := At(norm, c, s, es, n), es[n];
    StepsOneMore(norm, c, Begin(s), es, n + 1);
    if f.key.kind == SeriesKind {
      SeriesTurn(norm, c, s, es, n, sid);
    } else {
      OtherStepKeepsSeries(norm, c, w, f);
    }
  }

  lemma SeriesTurn(norm: string -> string, c: Ctx, s: Shelf, es: seq<Entity>, n: nat, sid: Id)
    requires RankSorted(es) && DistinctEntities(es) && c.plan == PlanOf(es) && StartsSane(s, c.bookOrder)
    requires n < |es| && Numbered(es) && sid != 0 && sid in At(norm, c, s, es, n).s.series
    requires es[n].key.kind == SeriesKind
    ensures sid !in Step(norm, c, At(norm, c, s, es, n), es[n]).s.series <==>
            Concludes(s, c.run, es, es[n], sid) && Forsaken(s, c.run, es, sid)
  {
    var w, f := At(norm, c, s, es, n), es[n];
    FinishesConcludes(c, s, es, f, sid);
    if Matches(w.s, f) { SeriesStepDeletesExactly(c, w, f, sid); }
    if f.local == sid { OwnedUntilItsTurn(norm, c, s, es, n); }
    OutsideStays(norm, c, Begin(s), es[..n], sid);
    OthersInSeries(norm, c, s, es, n, sid);
  }

  lemma {:induction false} PassDeletesSeries(norm: string -> string, c: Ctx, s: Shelf, es: seq<Entity>, n: nat, sid: Id)
    requires RankSorted(es) && DistinctEntities(es) && c.plan == PlanOf(es) && StartsSane(s, c.bookOrder)
    requires n <= |es| && Numbered(es) && sid in s.series
    ensures sid !in At(norm, c, s, es, n).s.series <==>
            exists e :: e in es[..n] && Concludes(s, c.run, es, e, sid) && Forsaken(s, c.run, es, sid)
  {
    if n > 0 {
      PassDeletesSeries(norm, c, s, es, n - 1, sid);
      assert es[..n] == es[..n - 1] + [es[n - 1]];
      if sid in At(norm, c, s, es, n - 1).s.series {
        TurnDeletesSeries(norm, c, s, es, n - 1, sid);
      } else {
        StepsOneMore(norm, c, Begin(s), es, n);
        StepAddsNoSeries(norm, c, At(norm, c, s, es, n - 1), es[n - 1]);
      }
    }
  }

  /**
   * Main result: a series is gone after a committed rollback exactly when the run created it and owns its row (or,
   * where it recorded only memberships, the row of the last one it created), no other run's row names it, and each book
   * in it was put there by a membership the run recorded or is one the rollback deletes as its own before.
   */
  lemma SeriesGoesExactlyWhenForsaken(norm: string -> string, s: Shelf, run: Id, es: seq<Entity>, order: seq<Id>,
                                      sid: Id)
    requires StartsSane(s, order) && DistinctEntities(es) && Numbered(es) && sid in s.series
    ensures sid !in Rollback(norm, s, run, es, order).s.series <==>
            exists e :: e in es && Concludes(s, run, es, e, sid) && Forsaken(s, run, es, sid)
  {
    var sorted := SortByRank(es);
    SortByRankSorts(es);
    SortKeepsPairwise(es, SameEntity);
    PassDeletesSeries(norm, Ctx(run, PlanOf(sorted), order), s, sorted, |sorted|, sid);
    assert sorted[..|sorted|] == sorted;
    SameEntitiesConclude(s, run, es, sorted, sid);
  }

  lemma SameEntitiesConclude(s: Shelf, run: Id, es: seq<Entity>, es': seq<Entity>, sid: Id)
    requires forall e :: e in es <==> e in es'
    ensures Forsaken(s, run, es, sid) <==> Forsaken(s, run, es', sid)
    ensures forall e :: Concludes(s, run, es, e, sid) <==> Concludes(s, run, es', e, sid)
  {
    assert forall m :: RecordsMember(es, m) <==> RecordsMember(es', m);
    assert forall b :: Unclaimed(s, run, es, b) <==> Unclaimed(s, run, es', b);
    assert HasIdentity(es, sid) <==> HasIdentity(es', sid);
  }
}
