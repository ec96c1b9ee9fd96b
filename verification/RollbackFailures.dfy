// When a write of a rollback is not refused: no foreign id it may need is held, or put back, by another row, and the
// author it files a book under exists. What is asked is asked of the tables and the recorded entities, before the pass.

module RollbackFailures {
  import opened Text
  import opened RollbackModel
  import opened RollbackProofs
  import opened RollbackDeletions
  import opened RollbackRepeat
  import opened RollbackOutcome

  /** Book b may hold the foreign id p during the pass: it does at the start, or an entity may put it back. */
  predicate BookIdOf(s: Shelf, es: seq<Entity>, b: Id, p: string) {
    && b in s.books
    && (s.books[b].foreignId == p || exists i :: 0 <= i < |es| && PutsBackBookId(s, es[i], b, p))
  }

  predicate PutsBackBookId(s: Shelf, e: Entity, b: Id, p: string) {
    RestoresBook(e) && Matches(s, e) && e.local == b && e.snapshot.before.foreignId == p
  }

  /** The same for authors, whose ids are also recorded as identifiers, trimmed. */
  predicate AuthorIdOf(s: Shelf, es: seq<Entity>, a: Id, p: string) {
    || (a in s.authors && Trim(s.authors[a].foreignId) == p)
    || (p in s.identifiers && s.identifiers[p] == a)
    || exists i :: 0 <= i < |es| && PutsBackAuthorId(s, es[i], a, p)
  }

  predicate PutsBackAuthorId(s: Shelf, e: Entity, a: Id, p: string) {
    RestoresAuthor(e) && Matches(s, e) && e.local == a && Trim(e.snapshot.was.author.foreignId) == p
  }

  /** No two books have one foreign id, as the unique key demands. */
  ghost predicate UniqueBookIds(s: Shelf) {
    forall b, c :: b in s.books && c in s.books && s.books[b].foreignId == s.books[c].foreignId ==> b == c
  }

  /** No other author may hold an id that this one may hold. */
  ghost predicate AuthorApart(s: Shelf, es: seq<Entity>, a: Id) {
    forall c, p :: AuthorIdOf(s, es, a, p) && AuthorIdOf(s, es, c, p) ==> c == a
  }

  /** Nothing may stand in the way of putting e's snapshot back: an id it needs is free, and its author is there. */
  ghost predicate WriteFree(s: Shelf, es: seq<Entity>, e: Entity) {
    Matches(s, e) ==>
      && (RestoresBook(e) ==>
            && e.snapshot.before.authorId in s.authors
            && forall c :: c != e.local ==> !BookIdOf(s, es, c, e.snapshot.before.foreignId))
      && (RestoresAuthor(e) ==> AuthorApart(s, es, e.local))
  }

  // ----- ids stay with the rows that may hold them -----

  ghost predicate Traced(s: Shelf, es: seq<Entity>, s': Shelf) {
    && Shrinks(s, s')
    && (forall b :: b in s'.books ==> BookIdOf(s, es, b, s'.books[b].foreignId))
    && (forall a :: a in s'.authors ==> AuthorIdOf(s, es, a, Trim(s'.authors[a].foreignId)))
    && (forall f :: f in s'.identifiers ==> AuthorIdOf(s, es, s'.identifiers[f], f))
  }

  lemma RestoredBookIsTraced(norm: string -> string, s: Shelf, es: seq<Entity>, c: Ctx, w: Work, e: Entity)
    requires Traced(s, es, w.s) && e in es && RestoresBook(e) && Matches(w.s, e)
    requires e.local in Step(norm, c, w, e).s.books
    ensures BookIdOf(s, es, e.local, Step(norm, c, w, e).s.books[e.local].foreignId)
  {
    var i :| 0 <= i < |es| && es[i] == e;
    var p := e.snapshot.before.foreignId;
    assert PutsBackBookId(s, es[i], e.local, p);
    assert e.local in w.s.books;
    assert BookIdOf(s, es, e.local, w.s.books[e.local].foreignId);
    RestoredBookId(norm, c, w, e);
  }

  lemma RestoredBookId(norm: string -> string, c: Ctx, w: Work, e: Entity)
    requires RestoresBook(e) && e.local in w.s.books && e.local in BookRestored(norm, c, w, e).s.books
    ensures BookRestored(norm, c, w, e).s.books[e.local].foreignId in
            {w.s.books[e.local].foreignId, e.snapshot.before.foreignId}
  {
  }

  lemma BooksTraced(norm: string -> string, s: Shelf, es: seq<Entity>, c: Ctx, w: Work, e: Entity, b: Id)
    requires Traced(s, es, w.s) && e in es && b in Step(norm, c, w, e).s.books
    ensures BookIdOf(s, es, b, Step(norm, c, w, e).s.books[b].foreignId)
  {
    if RestoresBook(e) && e.local == b && Matches(w.s, e) {
      RestoredBookIsTraced(norm, s, es, c, w, e);
    } else if !(RestoresBook(e) && e.local == b) {
      StepKeepsBookRow(norm, c, w, e, b);
    }
  }

  lemma OtherAuthorRowsStay(c: Ctx, w: Work, e: Entity, a: Id)
    requires RestoresAuthor(e) && a != e.local && a in AuthorRestored(c, w, e).s.authors
    ensures a in w.s.authors && AuthorRestored(c, w, e).s.authors[a] == w.s.authors[a]
  {
  }

  lemma RestoredAuthorId(c: Ctx, w: Work, e: Entity)
    requires RestoresAuthor(e) && e.local in AuthorRestored(c, w, e).s.authors
    ensures e.local in w.s.authors
    ensures AuthorRestored(c, w, e).s.authors[e.local].foreignId in
            {w.s.authors[e.local].foreignId, e.snapshot.was.author.foreignId}
  {
  }

  lemma RestoredIdentifier(c: Ctx, w: Work, e: Entity, f: string)
    requires RestoresAuthor(e) && f in AuthorRestored(c, w, e).s.identifiers
    ensures var s' := AuthorRestored(c, w, e).s;
            || (f in w.s.identifiers && s'.identifiers[f] == w.s.identifiers[f])
            || (e.local in s'.authors && f == Trim(s'.authors[e.local].foreignId) && s'.identifiers[f] == e.local)
  {
    if e.local in w.s.authors {
      var a := RestoreAuthor(w.s.authors[e.local], e.snapshot.was.author, e.snapshot.became.author);
      WrittenIdentifier(w.s, e.local, a, f);
      DroppingAddsNone(w.s.identifiers, e, a.foreignId);
      DroppingAddsNone(WriteAuthor(w.s, e.local, a).identifiers, e, a.foreignId);
    }
  }

  lemma WrittenIdentifier(s: Shelf, id: Id, a: Author, f: string)
    requires f in WriteAuthor(s, id, a).identifiers
    ensures (f in s.identifiers && WriteAuthor(s, id, a).identifiers[f] == s.identifiers[f]) ||
            (f == Trim(a.foreignId) && WriteAuthor(s, id, a).identifiers[f] == id)
  {
  }

  lemma DroppingAddsNone(ids: map<string, Id>, e: Entity, primary: string)
    requires e.snapshot.OfAuthor?
    ensures var kept := DropIdentifiers(ids, e.local, primary, e);
            forall f :: f in kept ==> f in ids && kept[f] == ids[f]
  {
  }

  lemma RestoredAuthorIsTraced(norm: string -> string, s: Shelf, es: seq<Entity>, c: Ctx, w: Work, e: Entity)
    requires Traced(s, es, w.s) && e in es && RestoresAuthor(e) && Matches(w.s, e)
    ensures var s' := AuthorRestored(c, w, e).s;
            && (forall a :: a in s'.authors ==> AuthorIdOf(s, es, a, Trim(s'.authors[a].foreignId)))
            && (forall f :: f in s'.identifiers ==> AuthorIdOf(s, es, s'.identifiers[f], f))
  {
    var s' := AuthorRestored(c, w, e).s;
    var i :| 0 <= i < |es| && es[i] == e;
    assert PutsBackAuthorId(s, es[i], e.local, Trim(e.snapshot.was.author.foreignId));
    forall a | a in s'.authors ensures AuthorIdOf(s, es, a, Trim(s'.authors[a].foreignId)) {
      if a == e.local { RestoredAuthorId(c, w, e); } else { OtherAuthorRowsStay(c, w, e, a); }
      assert AuthorIdOf(s, es, a, Trim(w.s.authors[a].foreignId));
    }
    forall f | f in s'.identifiers ensures AuthorIdOf(s, es, s'.identifiers[f], f) { RestoredIdentifier(c, w, e, f); }
  }

  lemma OtherStepTracesAuthors(norm: string -> string, s: Shelf, es: seq<Entity>, c: Ctx, w: Work, e: Entity)
    requires Traced(s, es, w.s) && !(RestoresAuthor(e) && Matches(w.s, e))
    ensures var s' := Step(norm, c, w, e).s;
            && (forall a :: a in s'.authors ==> AuthorIdOf(s, es, a, Trim(s'.authors[a].foreignId)))
            && (forall f :: f in s'.identifiers ==> AuthorIdOf(s, es, s'.identifiers[f], f))
  {
    var s' := Step(norm, c, w, e).s;
    if Matches(w.s, e) {
      forall a | a in s'.authors ensures AuthorIdOf(s, es, a, Trim(s'.authors[a].foreignId)) {
        StepKeepsAuthorRow(norm, c, w, e, a);
      }
      forall f | f in s'.identifiers ensures AuthorIdOf(s, es, s'.identifiers[f], f) {
        StepKeepsAuthorRow(norm, c, w, e, s'.identifiers[f]);
      }
    }
  }

  lemma StepTraces(norm: string -> string, s: Shelf, es: seq<Entity>, c: Ctx, w: Work, e: Entity)
    requires Traced(s, es, w.s) && e in es
    ensures Traced(s, es, Step(norm, c, w, e).s)
  {
    var s' := Step(norm, c, w, e).s;
    StepShrinks(norm, c, w, e);
    forall b | b in s'.books ensures BookIdOf(s, es, b, s'.books[b].foreignId) { BooksTraced(norm, s, es, c, w, e, b); }
    if RestoresAuthor(e) && Matches(w.s, e) {
      RestoredAuthorIsTraced(norm, s, es, c, w, e);
    } else {
      OtherStepTracesAuthors(norm, s, es, c, w, e);
    }
  }

  lemma {:induction false} StepsTrace(norm: string -> string, s: Shelf, all: seq<Entity>, c: Ctx, w: Work,
                                      es: seq<Entity>)
    requires Traced(s, all, w.s) && forall e :: e in es ==> e in all
    ensures Traced(s, all, Steps(norm, c, w, es).s)
  {
    if es != [] {
      var front, last := es[..|es| - 1], es[|es| - 1];
      assert last in es && forall e :: e in front ==> e in es;
      StepsTrace(norm, s, all, c, w, front);
      StepTraces(norm, s, all, c, Steps(norm, c, w, front), last);
    }
  }

  // ----- so no write is refused -----

  lemma StepKeepsUnique(norm: string -> string, c: Ctx, w: Work, e: Entity)
    requires UniqueBookIds(w.s)
    ensures UniqueBookIds(Step(norm, c, w, e).s)
  {
    var s' := Step(norm, c, w, e).s;
    if RestoresBook(e) {
      if Matches(w.s, e) { RestoringKeepsUnique(norm, c, w, e); }
    } else {
      forall b | b in s'.books ensures b in w.s.books && s'.books[b] == w.s.books[b] {
        StepKeepsBookRow(norm, c, w, e, b);
      }
    }
  }

  lemma RestoringKeepsUnique(norm: string -> string, c: Ctx, w: Work, e: Entity)
    requires UniqueBookIds(w.s) && RestoresBook(e)
    ensures UniqueBookIds(BookRestored(norm, c, w, e).s)
  {
  }

  lemma {:induction false} StepsKeepUnique(norm: string -> string, c: Ctx, w: Work, es: seq<Entity>)
    requires UniqueBookIds(w.s)
    ensures UniqueBookIds(Steps(norm, c, w, es).s)
  {
    if es != [] {
      StepsKeepUnique(norm, c, w, es[..|es| - 1]);
      StepKeepsUnique(norm, c, Steps(norm, c, w, es[..|es| - 1]), es[|es| - 1]);
    }
  }

  lemma TracedBookPasses(norm: string -> string, s: Shelf, es: seq<Entity>, w: Shelf, e: Entity)
    requires Traced(s, es, w) && UniqueBookIds(w) && Filed(w) && w.authors.Keys == s.authors.Keys
    requires RestoresBook(e) && WriteFree(s, es, e)
    ensures !Blocked(norm, w, e)
  {
    if Unfinished(norm, w, e) {
      var b := RestoreBook(norm, w.books[e.local], e.snapshot.before, e.snapshot.after);
      forall other | other in w.books && other != e.local ensures w.books[other].foreignId != b.foreignId {
        assert BookIdOf(s, es, other, w.books[other].foreignId);
      }
      assert b.authorId in w.authors;
    }
  }

  /** The id an author ends with, its own or the snapshot's, is one it may hold. */
  lemma RestoredIdIsTraced(s: Shelf, es: seq<Entity>, w: Shelf, e: Entity, p: string)
    requires Traced(s, es, w) && e in es && RestoresAuthor(e) && Matches(w, e) && e.local in w.authors
    requires p == w.authors[e.local].foreignId || p == e.snapshot.was.author.foreignId
    ensures AuthorIdOf(s, es, e.local, Trim(p))
  {
    var i :| 0 <= i < |es| && es[i] == e;
    assert Matches(s, e) && (p == e.snapshot.was.author.foreignId ==> PutsBackAuthorId(s, es[i], e.local, Trim(p)));
  }

  lemma TracedAuthorPasses(norm: string -> string, s: Shelf, es: seq<Entity>, w: Shelf, e: Entity)
    requires Traced(s, es, w) && e in es && RestoresAuthor(e) && WriteFree(s, es, e)
    ensures !Blocked(norm, w, e)
  {
    if Unfinished(norm, w, e) {
      var a := RestoreAuthor(w.authors[e.local], e.snapshot.was.author, e.snapshot.became.author);
      RestoredIdIsTraced(s, es, w, e, a.foreignId);
      forall other | other in w.authors && other != e.local ensures w.authors[other].foreignId != a.foreignId {
        assert AuthorIdOf(s, es, other, Trim(w.authors[other].foreignId));
      }
    }
  }

  /** Editions and books come before the first author is deleted. */
  lemma {:induction false} AuthorsStandForBooks(norm: string -> string, c: Ctx, s: Shelf, es: seq<Entity>, n: nat)
    requires RankSorted(es) && n < |es| && es[n].key.kind == BookKind
    ensures Steps(norm, c, Begin(s), es[..n]).s.authors == s.authors
  {
    if n > 0 {
      assert Rank(es[n - 1]) <= Rank(es[n]);
      StepsOneMore(norm, c, Begin(s), es, n);
      var w := Steps(norm, c, Begin(s), es[..n - 1]);
      EarlyStepKeepsAuthors(norm, c, w, es[n - 1]);
      if es[n - 1].key.kind == BookKind {
        AuthorsStandForBooks(norm, c, s, es, n - 1);
      } else {
        AuthorsStandForEditions(norm, c, s, es, n - 1);
      }
    }
  }

  lemma {:induction false} AuthorsStandForEditions(norm: string -> string, c: Ctx, s: Shelf, es: seq<Entity>, n: nat)
    requires RankSorted(es) && n < |es| && es[n].key.kind == EditionKind
    ensures Steps(norm, c, Begin(s), es[..n]).s.authors == s.authors
  {
    if n > 0 {
      assert Rank(es[n - 1]) <= Rank(es[n]);
      StepsOneMore(norm, c, Begin(s), es, n);
      EarlyStepKeepsAuthors(norm, c, Steps(norm, c, Begin(s), es[..n - 1]), es[n - 1]);
      AuthorsStandForEditions(norm, c, s, es, n - 1);
    }
  }

  lemma EarlyStepKeepsAuthors(norm: string -> string, c: Ctx, w: Work, e: Entity)
    requires e.key.kind == BookKind || e.key.kind == EditionKind
    ensures Step(norm, c, w, e).s.authors == w.s.authors
  {
    if e.key.kind == BookKind { BookStepKeepsOtherTables(norm, c, w, e); }
  }

  lemma NextPasses(norm: string -> string, c: Ctx, s: Shelf, es: seq<Entity>, n: nat)
    requires n < |es| && RankSorted(es) && c.plan == PlanOf(es) && StartsSane(s, c.bookOrder) && Filed(s)
    requires UniqueBookIds(s) && WriteFree(s, es, es[n])
    ensures !Blocked(norm, Steps(norm, c, Begin(s), es[..n]).s, es[n])
  {
    var w := Steps(norm, c, Begin(s), es[..n]);
    StepsTrace(norm, s, es, c, Begin(s), es[..n]);
    if RestoresBook(es[n]) {
      AuthorsStandForBooks(norm, c, s, es, n);
      forall f | f in es[..n] ensures Known(c.plan, f) { PlanKnows(es, f); }
      StepsKeepFiled(norm, c, Begin(s), es[..n]);
      StepsKeepUnique(norm, c, Begin(s), es[..n]);
      TracedBookPasses(norm, s, es, w.s, es[n]);
    } else if RestoresAuthor(es[n]) {
      TracedAuthorPasses(norm, s, es, w.s, es[n]);
    }
  }

  /** An entity whose write is free at the start is not refused, whatever happens to the others. */
  lemma FreeWritePasses(norm: string -> string, s: Shelf, run: Id, es: seq<Entity>, order: seq<Id>, e: Entity)
    requires StartsSane(s, order) && Filed(s) && UniqueBookIds(s) && e in es && WriteFree(s, es, e)
    ensures Passes(norm, s, run, es, order, e)
  {
    var sorted := SortByRank(es);
    SortByRankSorts(es);
    FreeAmongTheSame(s, es, sorted, e);
    forall n | 0 <= n < |sorted| && sorted[n] == e
      ensures !Blocked(norm, Steps(norm, Ctx(run, PlanOf(sorted), order), Begin(s), sorted[..n]).s, e)
    {
      NextPasses(norm, Ctx(run, PlanOf(sorted), order), s, sorted, n);
    }
  }

  lemma FreeAmongTheSame(s: Shelf, es: seq<Entity>, es': seq<Entity>, e: Entity)
    requires WriteFree(s, es, e) && forall f :: f in es' ==> f in es
    ensures WriteFree(s, es', e)
  {
    SameEntitiesSameIds(s, es, es');
  }

  lemma {:induction false} UnblockedPassNeverFails(norm: string -> string, c: Ctx, s: Shelf, es: seq<Entity>, n: nat)
    requires n <= |es|
    requires forall i :: 0 <= i < n ==> !Blocked(norm, Steps(norm, c, Begin(s), es[..i]).s, es[i])
    ensures Steps(norm, c, Begin(s), es[..n]).failed == 0
  {
    if n > 0 {
      UnblockedPassNeverFails(norm, c, s, es, n - 1);
      StepsOneMore(norm, c, Begin(s), es, n);
      FailsWhenBlocked(norm, c, Steps(norm, c, Begin(s), es[..n - 1]), es[n - 1]);
    }
  }

  lemma SameEntitiesSameIds(s: Shelf, es: seq<Entity>, es': seq<Entity>)
    requires forall e :: e in es' ==> e in es
    ensures forall b, p :: BookIdOf(s, es', b, p) ==> BookIdOf(s, es, b, p)
    ensures forall a, p :: AuthorIdOf(s, es', a, p) ==> AuthorIdOf(s, es, a, p)
  {
    forall b, p | BookIdOf(s, es', b, p) ensures BookIdOf(s, es, b, p) {
      if i :| 0 <= i < |es'| && PutsBackBookId(s, es'[i], b, p) {
        assert es'[i] in es';
        var j :| 0 <= j < |es| && es[j] == es'[i];
      }
    }
    forall a, p | AuthorIdOf(s, es', a, p) ensures AuthorIdOf(s, es, a, p) {
      if i :| 0 <= i < |es'| && PutsBackAuthorId(s, es'[i], a, p) {
        assert es'[i] in es';
        var j :| 0 <= j < |es| && es[j] == es'[i];
      }
    }
  }

  /** Main result: a committed rollback of a run whose writes are all free reports no failure. */
  lemma RollbackNeverFails(norm: string -> string, s: Shelf, run: Id, es: seq<Entity>, order: seq<Id>)
    requires StartsSane(s, order) && Filed(s) && UniqueBookIds(s) && forall e :: e in es ==> WriteFree(s, es, e)
    ensures Rollback(norm, s, run, es, order).failed == 0
  {
    var sorted := SortByRank(es);
    SortedWritesAreFree(s, es);
    FreePassNeverFails(norm, Ctx(run, PlanOf(sorted), order), s, sorted);
  }

  lemma SortedWritesAreFree(s: Shelf, es: seq<Entity>)
    requires forall e :: e in es ==> WriteFree(s, es, e)
    ensures RankSorted(SortByRank(es)) && forall e :: e in SortByRank(es) ==> WriteFree(s, SortByRank(es), e)
  {
    SortByRankSorts(es);
    forall e | e in SortByRank(es) ensures WriteFree(s, SortByRank(es), e) {
      FreeAmongTheSame(s, es, SortByRank(es), e);
    }
  }

  lemma FreePassNeverFails(norm: string -> string, c: Ctx, s: Shelf, es: seq<Entity>)
    requires RankSorted(es) && c.plan == PlanOf(es) && StartsSane(s, c.bookOrder) && Filed(s) && UniqueBookIds(s)
    requires forall e :: e in es ==> WriteFree(s, es, e)
    ensures Steps(norm, c, Begin(s), es).failed == 0
  {
    forall i | 0 <= i < |es| ensures !Blocked(norm, Steps(norm, c, Begin(s), es[..i]).s, es[i]) {
      NextPasses(norm, c, s, es, i);
    }
    UnblockedPassNeverFails(norm, c, s, es, |es|);
    assert es[..|es|] == es;
  }

  /** Hence a second rollback changes nothing, whatever books and authors the run touched. */
  lemma SecondRollbackIsIdle(norm: string -> string, s: Shelf, run: Id, es: seq<Entity>, order: seq<Id>, again: seq<Id>)
    requires Idempotent(norm) && MediaFilled(s) && RivalsOwned(s, run, es) && forall e :: e in es ==> e.local != 0
    requires StartsSane(s, order) && Filed(s) && UniqueBookIds(s) && forall e :: e in es ==> WriteFree(s, es, e)
    ensures var s1 := Rollback(norm, s, run, es, order).s; Rollback(norm, s1, run, es, again).s == s1
  {
    RollbackNeverFails(norm, s, run, es, order);
    forall e | e in es ensures !Retried(norm, Rollback(norm, s, run, es, order).s, run, e) {
      QuietRollbackPasses(norm, s, run, es, order, e);
      PassingEntityIsSettled(norm, s, run, es, order, e);
    }
    StepsShrink(norm, Ctx(run, PlanOf(SortByRank(es)), order), Begin(s), SortByRank(es));
    OwnedRivalsAreNotForeign(s, Rollback(norm, s, run, es, order).s, run, es);
    SecondRollbackChangesNothing(norm, s, run, es, order, again);
  }

  /** After the pass every row holds an id it might have held. */
  lemma RollbackTraces(norm: string -> string, s: Shelf, run: Id, es: seq<Entity>, order: seq<Id>, all: seq<Entity>)
    requires forall e :: e in es ==> e in all
    ensures Traced(s, all, Rollback(norm, s, run, es, order).s)
  {
    var sorted := SortByRank(es);
    SortByRankSorts(es);
    StepsTrace(norm, s, all, Ctx(run, PlanOf(sorted), order), Begin(s), sorted);
  }
}
