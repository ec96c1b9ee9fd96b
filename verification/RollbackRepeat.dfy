// Rolling the same run back twice: after a pass each entity of the run is settled or could not be written, and another
// pass changes something exactly when one of those writes is no longer refused.

module RollbackRepeat {
  import opened RollbackModel
  import opened RollbackProofs
  import opened RollbackDeletions

  // ----- putting a snapshot back twice -----

  ghost predicate Idempotent(norm: string -> string) { forall s :: norm(norm(s)) == norm(s) }

  lemma PutBackTwice(norm: string -> string, row: Book, before: Book, after: Book)
    requires Idempotent(norm) && row.mediaType != ""
    ensures var once := PutBack(norm, row, before, after); PutBack(norm, once, before, after) == once
  {
    var b := RestoreBook(norm, row, before, after);
    assert norm(norm(before.language)) == norm(before.language);
    assert norm(norm(row.language)) == norm(row.language);
  }

  /** Every stored row has a media type, as every write fills it in. */
  ghost predicate MediaFilled(s: Shelf) { forall b :: b in s.books ==> s.books[b].mediaType != "" }

  lemma RestoreAuthorTwice(a: Author, before: Author, after: Author)
    ensures var once := RestoreAuthor(a, before, after); RestoreAuthor(once, before, after) == once
  {
  }

  // ----- settled entities -----

  predicate Matches(s: Shelf, e: Entity) { e.key in s.prov && s.prov[e.key].local == e.local }

  predicate RestoresBook(e: Entity) { e.key.kind == BookKind && e.outcome != Created && e.snapshot.OfBook? }

  predicate RestoresAuthor(e: Entity) { e.key.kind == AuthorKind && e.outcome != Created && e.snapshot.OfAuthor? }

  ghost predicate NothingToDrop(ids: map<string, Id>, author: Id, primary: string, e: Entity)
    requires e.snapshot.OfAuthor?
  {
    e.snapshot.was.identifiers.Some? && e.snapshot.became.identifiers.Some? ==>
      forall f :: f in ids && ids[f] == author ==>
        !Dropped(f, e.snapshot.was.identifiers.value, e.snapshot.became.identifiers.value, primary)
  }

  ghost predicate BookSettled(norm: string -> string, s: Shelf, e: Entity)
    requires RestoresBook(e)
  {
    e.local in s.books ==> PutBack(norm, s.books[e.local], e.snapshot.before, e.snapshot.after) == s.books[e.local]
  }

  ghost predicate AuthorSettled(s: Shelf, e: Entity)
    requires RestoresAuthor(e)
  {
    e.local in s.authors ==>
      var a := s.authors[e.local];
      && RestoreAuthor(a, e.snapshot.was.author, e.snapshot.became.author) == a
      && NothingToDrop(s.identifiers, e.local, a.foreignId, e)
  }

  /** The row a snapshot entity restores is gone. */
  predicate RowGone(s: Shelf, e: Entity) {
    || (RestoresBook(e) && e.local !in s.books)
    || (RestoresAuthor(e) && e.local !in s.authors)
  }

  /** The pass is through with this entity. */
  ghost predicate Settled(norm: string -> string, s: Shelf, run: Id, e: Entity) {
    Matches(s, e) ==>
      && (RestoresBook(e) ==> BookSettled(norm, s, e))
      && (RestoresAuthor(e) ==> AuthorSettled(s, e))
      && (Owned(s, run, e) ==> RowGone(s, e))
  }

  lemma SettledBookIdle(norm: string -> string, c: Ctx, w: Work, e: Entity)
    requires Settled(norm, w.s, c.run, e) && e.key.kind == BookKind
    ensures Step(norm, c, w, e).s == w.s && Step(norm, c, w, e).unlinked == w.unlinked
  {
    if RestoresBook(e) && Matches(w.s, e) && e.local in w.s.books {
      var row := w.s.books[e.local];
      assert w.s.books[e.local := row] == w.s.books;
    }
  }

  lemma SettledAuthorIdle(norm: string -> string, c: Ctx, w: Work, e: Entity)
    requires Settled(norm, w.s, c.run, e) && e.key.kind == AuthorKind
    ensures Step(norm, c, w, e).s == w.s && Step(norm, c, w, e).unlinked == w.unlinked
  {
    if RestoresAuthor(e) && Matches(w.s, e) && e.local in w.s.authors {
      assert DropIdentifiers(w.s.identifiers, e.local, w.s.authors[e.local].foreignId, e) == w.s.identifiers;
    }
  }

  /** Processing a settled entity changes no row. */
  lemma SettledIsIdle(norm: string -> string, c: Ctx, w: Work, e: Entity)
    requires Settled(norm, w.s, c.run, e)
    ensures Step(norm, c, w, e).s == w.s && Step(norm, c, w, e).unlinked == w.unlinked
  {
    match e.key.kind
    case BookKind => SettledBookIdle(norm, c, w, e);
    case AuthorKind => SettledAuthorIdle(norm, c, w, e);
    case _ =>
  }

  // ----- processing an entity settles it -----

  lemma BookStepSettles(norm: string -> string, c: Ctx, w: Work, e: Entity)
    requires Idempotent(norm) && MediaFilled(w.s) && e.local != 0 && e.key.kind == BookKind && Matches(w.s, e)
    requires BookStep(norm, c, w, e).failed == w.failed
    ensures Settled(norm, BookStep(norm, c, w, e).s, c.run, e)
  {
    if RestoresBook(e) { BookRestoredSettles(norm, c, w, e); }
  }

  lemma BookRestoredSettles(norm: string -> string, c: Ctx, w: Work, e: Entity)
    requires Idempotent(norm) && MediaFilled(w.s) && RestoresBook(e) && Matches(w.s, e)
    requires BookRestored(norm, c, w, e).failed == w.failed
    ensures Settled(norm, BookRestored(norm, c, w, e).s, c.run, e)
  {
    if e.local in w.s.books {
      PutBackTwice(norm, w.s.books[e.local], e.snapshot.before, e.snapshot.after);
      BookRestoredWrites(norm, c, w, e);
    }
  }

  lemma BookRestoredWrites(norm: string -> string, c: Ctx, w: Work, e: Entity)
    requires RestoresBook(e) && Matches(w.s, e) && e.local in w.s.books
    requires BookRestored(norm, c, w, e).failed == w.failed
    ensures var s' := BookRestored(norm, c, w, e).s;
            && s'.books == w.s.books[e.local := PutBack(norm, w.s.books[e.local], e.snapshot.before, e.snapshot.after)]
            && !Owned(s', c.run, e)
  {
    var row := w.s.books[e.local];
    assert w.s.books[e.local := row] == w.s.books;
  }

  lemma AuthorRestoredSettles(norm: string -> string, c: Ctx, w: Work, e: Entity)
    requires RestoresAuthor(e) && Matches(w.s, e)
    requires AuthorRestored(c, w, e).failed == w.failed
    ensures Settled(norm, AuthorRestored(c, w, e).s, c.run, e)
  {
    if e.local in w.s.authors {
      RestoreAuthorTwice(w.s.authors[e.local], e.snapshot.was.author, e.snapshot.became.author);
    }
  }

  lemma {:induction false} RemovingBooksKeepsAuthorRows(c: Ctx, w: Work, listed: seq<Id>, k: Key)
    requires k in w.s.prov && k.kind != BookKind
    ensures k in RemoveRunBooks(c, w, listed).0.s.prov
  {
    if listed != [] { RemovingBooksKeepsAuthorRows(c, w, listed[..|listed| - 1], k); }
  }

  lemma AuthorCreatedSettles(norm: string -> string, c: Ctx, w: Work, e: Entity)
    requires e.key.kind == AuthorKind && e.outcome == Created && e.local != 0
    ensures Settled(norm, AuthorCreated(c, w, e).s, c.run, e)
  {
    var listed := BooksOf(w.s, e.local, c.bookOrder);
    RemoveRunBooksShrinks(c, w, listed);
    if e.key in w.s.prov { RemovingBooksKeepsAuthorRows(c, w, listed, e.key); }
  }

  lemma SeriesStepSettles(norm: string -> string, c: Ctx, w: Work, e: Entity)
    requires e.key.kind == SeriesKind && e.local != 0
    ensures Settled(norm, SeriesStep(c, w, e).s, c.run, e)
  {
  }

  lemma EditionStepSettles(norm: string -> string, c: Ctx, w: Work, e: Entity)
    requires e.key.kind == EditionKind && e.local != 0 && w.deleted == {}
    ensures Settled(norm, EditionStep(c, w, e).s, c.run, e)
  {
  }

  lemma StepSettles(norm: string -> string, c: Ctx, w: Work, e: Entity)
    requires Idempotent(norm) && MediaFilled(w.s) && e.local != 0 && (e.key.kind == EditionKind ==> w.deleted == {})
    requires Step(norm, c, w, e).failed == w.failed
    ensures Settled(norm, Step(norm, c, w, e).s, c.run, e)
  {
    if Matches(w.s, e) {
      match e.key.kind
      case BookKind => BookStepSettles(norm, c, w, e);
      case AuthorKind =>
        if e.outcome == Created {
          AuthorCreatedSettles(norm, c, w, e);
        } else if e.snapshot.OfAuthor? {
          AuthorRestoredSettles(norm, c, w, e);
        }
      case SeriesKind => SeriesStepSettles(norm, c, w, e);
      case EditionKind => EditionStepSettles(norm, c, w, e);
      case OtherKind =>
    }
  }

  // ----- and it stays settled -----

  /** Both entities put a snapshot back on the same row. */
  predicate Rivals(e: Entity, f: Entity) {
    e.local == f.local && ((RestoresBook(e) && RestoresBook(f)) || (RestoresAuthor(e) && RestoresAuthor(f)))
  }

  /** A book row only goes away, or is one whose snapshot the step put back. */
  ghost predicate BookRowKept(s: Shelf, s': Shelf, b: Id) {
    b in s'.books ==> b in s.books && s'.books[b] == s.books[b]
  }

  lemma {:induction false} RemoveRunBooksKeepsRows(c: Ctx, w: Work, listed: seq<Id>, b: Id)
    ensures BookRowKept(w.s, RemoveRunBooks(c, w, listed).0.s, b)
    ensures RemoveRunBooks(c, w, listed).0.s.authors == w.s.authors
    ensures RemoveRunBooks(c, w, listed).0.s.identifiers == w.s.identifiers
  {
    if listed != [] { RemoveRunBooksKeepsRows(c, w, listed[..|listed| - 1], b); }
  }

  lemma BookStepKeepsRow(norm: string -> string, c: Ctx, w: Work, f: Entity, b: Id)
    requires !(RestoresBook(f) && f.local == b) && f.key.kind == BookKind
    ensures BookRowKept(w.s, BookStep(norm, c, w, f).s, b)
  {
    if f.outcome == Created {
      BookCreatedKeepsRows(c, w, f, b);
    } else if f.snapshot.OfBook? {
      BookRestoredRewrites(norm, c, w, f);
    }
  }

  lemma BookCreatedKeepsRows(c: Ctx, w: Work, f: Entity, b: Id)
    ensures BookRowKept(w.s, BookCreated(c, w, f).s, b) && BookCreated(c, w, f).s.authors == w.s.authors
    ensures BookCreated(c, w, f).s.identifiers == w.s.identifiers
  {
  }

  lemma AuthorStepKeepsRow(c: Ctx, w: Work, f: Entity, b: Id)
    ensures BookRowKept(w.s, AuthorStep(c, w, f).s, b)
  {
    if f.outcome == Created {
      AuthorCreatedKeepsRow(c, w, f, b);
    } else if f.snapshot.OfAuthor? {
      AuthorRestoredKeepsBooks(c, w, f);
    }
  }

  lemma AuthorCreatedKeepsRow(c: Ctx, w: Work, f: Entity, b: Id)
    ensures BookRowKept(w.s, AuthorCreated(c, w, f).s, b)
  {
    RemoveRunBooksKeepsRows(c, w, BooksOf(w.s, f.local, c.bookOrder), b);
  }

  lemma AuthorRestoredKeepsBooks(c: Ctx, w: Work, f: Entity)
    requires f.snapshot.OfAuthor?
    ensures AuthorRestored(c, w, f).s.books == w.s.books && AuthorRestored(c, w, f).s.members == w.s.members
  {
  }

  lemma SeriesStepKeepsRows(c: Ctx, w: Work, f: Entity)
    ensures SeriesStep(c, w, f).s.books == w.s.books && SeriesStep(c, w, f).s.authors == w.s.authors
    ensures SeriesStep(c, w, f).s.identifiers == w.s.identifiers
  {
    SeriesStepKeepsAuthors(c, w, f);
  }

  lemma StepKeepsBookRow(norm: string -> string, c: Ctx, w: Work, f: Entity, b: Id)
    requires !(RestoresBook(f) && f.local == b)
    ensures BookRowKept(w.s, Step(norm, c, w, f).s, b)
  {
    match f.key.kind
    case BookKind => BookStepKeepsRow(norm, c, w, f, b);
    case AuthorKind => AuthorStepKeepsRow(c, w, f, b);
    case SeriesKind => SeriesStepKeepsRows(c, w, f);
    case _ =>
  }

  /** An author's row and identifiers only go away. */
  ghost predicate AuthorRowKept(s: Shelf, s': Shelf, a: Id) {
    && (a in s'.authors ==> a in s.authors && s'.authors[a] == s.authors[a])
    && forall f :: f in s'.identifiers && s'.identifiers[f] == a ==> f in s.identifiers && s.identifiers[f] == a
  }

  lemma AuthorCreatedKeepsAuthor(c: Ctx, w: Work, f: Entity, a: Id)
    ensures AuthorRowKept(w.s, AuthorCreated(c, w, f).s, a)
  {
    RemoveRunBooksKeepsRows(c, w, BooksOf(w.s, f.local, c.bookOrder), 0);
  }

  lemma AuthorRestoredKeepsOther(c: Ctx, w: Work, f: Entity, a: Id)
    requires RestoresAuthor(f) && f.local != a
    ensures AuthorRowKept(w.s, AuthorRestored(c, w, f).s, a)
  {
  }

  lemma BookStepKeepsAuthors(norm: string -> string, c: Ctx, w: Work, f: Entity)
    requires f.key.kind == BookKind
    ensures BookStep(norm, c, w, f).s.authors == w.s.authors
    ensures BookStep(norm, c, w, f).s.identifiers == w.s.identifiers
  {
    if f.outcome == Created {
      BookCreatedKeepsRows(c, w, f, f.local);
    } else if f.snapshot.OfBook? {
      BookRestoredRewrites(norm, c, w, f);
    }
  }

  lemma StepKeepsAuthorRow(norm: string -> string, c: Ctx, w: Work, f: Entity, a: Id)
    requires !(RestoresAuthor(f) && f.local == a)
    ensures AuthorRowKept(w.s, Step(norm, c, w, f).s, a)
  {
    match f.key.kind
    case BookKind => BookStepKeepsAuthors(norm, c, w, f);
    case AuthorKind =>
      if f.outcome == Created {
        AuthorCreatedKeepsAuthor(c, w, f, a);
      } else if f.snapshot.OfAuthor? {
        AuthorRestoredKeepsOther(c, w, f, a);
      }
    case SeriesKind => SeriesStepKeepsRows(c, w, f);
    case _ =>
  }

  lemma StepKeepsSettled(norm: string -> string, c: Ctx, w: Work, f: Entity, e: Entity)
    requires Settled(norm, w.s, c.run, e) && !Rivals(e, f)
    ensures Settled(norm, Step(norm, c, w, f).s, c.run, e)
  {
    StepShrinks(norm, c, w, f);
    if RestoresBook(e) { StepKeepsBookRow(norm, c, w, f, e.local); }
    if RestoresAuthor(e) { StepKeepsAuthorRow(norm, c, w, f, e.local); }
  }

  // ----- the whole pass, twice -----

  lemma StepKeepsMedia(norm: string -> string, c: Ctx, w: Work, e: Entity)
    requires MediaFilled(w.s)
    ensures MediaFilled(Step(norm, c, w, e).s)
  {
    if RestoresBook(e) {
      RestoringKeepsMedia(norm, c, w, e);
    } else {
      forall b | b in Step(norm, c, w, e).s.books ensures Step(norm, c, w, e).s.books[b].mediaType != "" {
        StepKeepsBookRow(norm, c, w, e, b);
      }
    }
  }

  lemma RestoringKeepsMedia(norm: string -> string, c: Ctx, w: Work, e: Entity)
    requires MediaFilled(w.s) && RestoresBook(e)
    ensures MediaFilled(BookRestored(norm, c, w, e).s)
  {
  }

  lemma {:induction false} StepsKeepMedia(norm: string -> string, c: Ctx, w: Work, es: seq<Entity>)
    requires MediaFilled(w.s)
    ensures MediaFilled(Steps(norm, c, w, es).s)
  {
    if es != [] {
      StepsKeepMedia(norm, c, w, es[..|es| - 1]);
      StepKeepsMedia(norm, c, Steps(norm, c, w, es[..|es| - 1]), es[|es| - 1]);
    }
  }

  lemma BookStepFailures(norm: string -> string, c: Ctx, w: Work, e: Entity)
    ensures BookStep(norm, c, w, e).failed >= w.failed
  {
  }

  lemma {:induction false} RemoveRunBooksFailures(c: Ctx, w: Work, listed: seq<Id>)
    ensures RemoveRunBooks(c, w, listed).0.failed == w.failed
  {
    if listed != [] { RemoveRunBooksFailures(c, w, listed[..|listed| - 1]); }
  }

  lemma AuthorStepFailures(c: Ctx, w: Work, e: Entity)
    ensures AuthorStep(c, w, e).failed >= w.failed
  {
    if e.outcome == Created { RemoveRunBooksFailures(c, w, BooksOf(w.s, e.local, c.bookOrder)); }
  }

  lemma StepFailures(norm: string -> string, c: Ctx, w: Work, e: Entity)
    ensures Step(norm, c, w, e).failed >= w.failed
  {
    match e.key.kind
    case BookKind => BookStepFailures(norm, c, w, e);
    case AuthorKind => AuthorStepFailures(c, w, e);
    case _ =>
  }

  lemma {:induction false} NoFailureSoFar(norm: string -> string, c: Ctx, w: Work, es: seq<Entity>, n: nat)
    requires n <= |es| && Steps(norm, c, w, es).failed == w.failed
    ensures Steps(norm, c, w, es[..n]).failed == w.failed
    decreases |es|
  {
    if n < |es| {
      var front := es[..|es| - 1];
      StepsFailures(norm, c, w, front);
      StepFailures(norm, c, Steps(norm, c, w, front), es[|es| - 1]);
      NoFailureSoFar(norm, c, w, front, n);
      assert front[..n] == es[..n];
    } else {
      assert es[..n] == es;
    }
  }

  lemma {:induction false} StepsFailures(norm: string -> string, c: Ctx, w: Work, es: seq<Entity>)
    ensures Steps(norm, c, w, es).failed >= w.failed
  {
    if es != [] {
      StepsFailures(norm, c, w, es[..|es| - 1]);
      StepFailures(norm, c, Steps(norm, c, w, es[..|es| - 1]), es[|es| - 1]);
    }
  }

  // ----- after any pass: each entity is settled, or its write failed -----

  /** A snapshot entity whose row still holds something to put back. */
  predicate Unfinished(norm: string -> string, s: Shelf, e: Entity) {
    && Matches(s, e)
    && (RestoresBook(e) ==>
          e.local in s.books &&
          RestoreBook(norm, s.books[e.local], e.snapshot.before, e.snapshot.after) != s.books[e.local])
    && (RestoresAuthor(e) ==>
          e.local in s.authors &&
          RestoreAuthor(s.authors[e.local], e.snapshot.was.author, e.snapshot.became.author) != s.authors[e.local])
    && (RestoresBook(e) || RestoresAuthor(e))
  }

  /** The write that would put the snapshot back is refused by a unique or foreign key. */
  predicate Blocked(norm: string -> string, s: Shelf, e: Entity) {
    && Unfinished(norm, s, e)
    && (RestoresBook(e) ==>
          BookWriteConflicts(s, e.local, RestoreBook(norm, s.books[e.local], e.snapshot.before, e.snapshot.after)))
    && (RestoresAuthor(e) ==>
          AuthorWriteConflicts(
            s, e.local, RestoreAuthor(s.authors[e.local], e.snapshot.was.author, e.snapshot.became.author)))
  }

  /** A step fails exactly when it is blocked, and then it changes no row. */
  lemma FailsWhenBlocked(norm: string -> string, c: Ctx, w: Work, e: Entity)
    ensures Step(norm, c, w, e).failed == w.failed + (if Blocked(norm, w.s, e) then 1 else 0)
    ensures Blocked(norm, w.s, e) ==> Step(norm, c, w, e).s == w.s && Step(norm, c, w, e).unlinked == w.unlinked
  {
    if Matches(w.s, e) && e.key.kind == AuthorKind && e.outcome == Created {
      RemoveRunBooksFailures(c, w, BooksOf(w.s, e.local, c.bookOrder));
    }
  }

  // ----- entities to retry -----

  /** The second pass has something to do for this entity, and its write now passes. */
  ghost predicate Retried(norm: string -> string, s: Shelf, run: Id, e: Entity) {
    !Settled(norm, s, run, e) && !Blocked(norm, s, e)
  }

  lemma {:induction false} IdleSteps(norm: string -> string, c: Ctx, w: Work, es: seq<Entity>)
    requires forall e :: e in es ==> !Retried(norm, w.s, c.run, e)
    ensures Steps(norm, c, w, es).s == w.s && Steps(norm, c, w, es).unlinked == w.unlinked
  {
    if es != [] {
      var front, last := es[..|es| - 1], es[|es| - 1];
      assert last in es && forall e :: e in front ==> e in es;
      IdleSteps(norm, c, w, front);
      if Settled(norm, w.s, c.run, last) {
        SettledIsIdle(norm, c, Steps(norm, c, w, front), last);
      } else {
        FailsWhenBlocked(norm, c, Steps(norm, c, w, front), last);
      }
    }
  }

  /** The first place where p holds. */
  lemma FirstPlace(p: nat -> bool, j: nat) returns (n: nat)
    requires p(j)
    ensures n <= j && p(n) && forall i :: 0 <= i < n ==> !p(i)
  {
    n := 0;
    while !p(n)
      invariant n <= j && forall i :: 0 <= i < n ==> !p(i)
      decreases j - n
    {
      n := n + 1;
    }
  }

  // ----- rivals -----

  /** Both entities put a snapshot back on one row, by links that stand and belong to other runs. */
  predicate BothForeign(s: Shelf, run: Id, e: Entity, f: Entity) {
    Rivals(e, f) && Matches(s, e) && Matches(s, f) && !Owned(s, run, e) && !Owned(s, run, f)
  }

  /** The same, but for one of the links at least. */
  predicate OneForeign(s: Shelf, run: Id, e: Entity, f: Entity) {
    Rivals(e, f) && Matches(s, e) && Matches(s, f) && !(Owned(s, run, e) && Owned(s, run, f))
  }

  ghost predicate NoForeignRivals(s: Shelf, run: Id, es: seq<Entity>) {
    Pairwise(es, (e, f) => BothForeign(s, run, e, f))
  }

  ghost predicate RivalsOwned(s: Shelf, run: Id, es: seq<Entity>) { Pairwise(es, (e, f) => OneForeign(s, run, e, f)) }

  lemma SortKeepsRivals(s: Shelf, run: Id, es: seq<Entity>)
    ensures NoForeignRivals(s, run, es) ==> NoForeignRivals(s, run, SortByRank(es))
    ensures RivalsOwned(s, run, es) ==> RivalsOwned(s, run, SortByRank(es))
  {
    if NoForeignRivals(s, run, es) { SortKeepsPairwise(es, (e, f) => BothForeign(s, run, e, f)); }
    if RivalsOwned(s, run, es) { SortKeepsPairwise(es, (e, f) => OneForeign(s, run, e, f)); }
  }

  lemma OwnedRivalsAreNotForeign(s: Shelf, s': Shelf, run: Id, es: seq<Entity>)
    requires RivalsOwned(s, run, es) && Shrinks(s, s')
    ensures NoForeignRivals(s', run, es)
  {
    forall i, j | 0 <= i < j < |es| ensures !BothForeign(s', run, es[i], es[j]) {
      assert !OneForeign(s, run, es[i], es[j]);
    }
  }

  // ----- the second pass -----

  /** The entity stays settled, or a provenance row has gone. */
  ghost predicate Held(norm: string -> string, s: Shelf, s': Shelf, run: Id, e: Entity) {
    Settled(norm, s', run, e) || s'.prov != s.prov
  }

  lemma ProvStaysLess(s: Shelf, s1: Shelf, s2: Shelf)
    requires Shrinks(s, s1) && Shrinks(s1, s2) && s1.prov != s.prov
    ensures s2.prov != s.prov
  {
    assert s2.prov == s.prov ==> forall k :: k in s.prov ==> k in s1.prov && s1.prov[k] == s.prov[k];
  }

  lemma StepHolds(norm: string -> string, c: Ctx, s: Shelf, w: Work, f: Entity, e: Entity)
    requires Idempotent(norm) && MediaFilled(w.s) && f.local != 0 && Shrinks(s, w.s)
    requires Matches(s, e) && !Owned(s, c.run, e) && !BothForeign(s, c.run, e, f) && Held(norm, s, w.s, c.run, e)
    ensures Held(norm, s, Step(norm, c, w, f).s, c.run, e)
  {
    StepShrinks(norm, c, w, f);
    if w.s.prov != s.prov {
      ProvStaysLess(s, w.s, Step(norm, c, w, f).s);
    } else if !Rivals(e, f) {
      StepKeepsSettled(norm, c, w, f, e);
    } else if Matches(w.s, f) {
      RivalStepHolds(norm, c, s, w, f, e);
    }
  }

  /** An owned rival is refused, or takes its link away. */
  lemma RivalStepHolds(norm: string -> string, c: Ctx, s: Shelf, w: Work, f: Entity, e: Entity)
    requires Idempotent(norm) && MediaFilled(w.s) && f.local != 0 && w.s.prov == s.prov && Rivals(e, f)
    requires Matches(s, e) && !Owned(s, c.run, e) && Owned(s, c.run, f) && Settled(norm, w.s, c.run, e)
    ensures Held(norm, s, Step(norm, c, w, f).s, c.run, e)
  {
    FailsWhenBlocked(norm, c, w, f);
    if !Blocked(norm, w.s, f) {
      StepSettles(norm, c, w, f);
      StepShrinks(norm, c, w, f);
    }
  }

  lemma {:induction false} StepsHold(norm: string -> string, c: Ctx, s: Shelf, w: Work, es: seq<Entity>, e: Entity)
    requires Idempotent(norm) && MediaFilled(w.s) && Shrinks(s, w.s)
    requires Matches(s, e) && !Owned(s, c.run, e) && Held(norm, s, w.s, c.run, e)
    requires forall f :: f in es ==> f.local != 0 && !BothForeign(s, c.run, e, f)
    ensures Held(norm, s, Steps(norm, c, w, es).s, c.run, e)
  {
    if es != [] {
      var front, last := es[..|es| - 1], es[|es| - 1];
      assert last in es && forall f :: f in front ==> f in es;
      StepsHold(norm, c, s, w, front, e);
      StepsShrink(norm, c, w, front);
      StepsKeepMedia(norm, c, w, front);
      StepHolds(norm, c, s, Steps(norm, c, w, front), last, e);
    }
  }

  /** A retried entity of the run's own gives up its link. */
  lemma OwnRetriedLosesLink(norm: string -> string, c: Ctx, w: Work, e: Entity)
    requires Idempotent(norm) && MediaFilled(w.s) && e.local != 0 && (e.key.kind == EditionKind ==> w.deleted == {})
    requires Retried(norm, w.s, c.run, e) && Owned(w.s, c.run, e)
    ensures Step(norm, c, w, e).s.prov != w.s.prov
  {
    FailsWhenBlocked(norm, c, w, e);
    StepSettles(norm, c, w, e);
    if RestoresBook(e) { BookRestoredWrites(norm, c, w, e); }
    if RestoresAuthor(e) { AuthorRestoredKeepsRow(c, w, e); }
  }

  lemma AuthorRestoredKeepsRow(c: Ctx, w: Work, e: Entity)
    requires RestoresAuthor(e) && e.local in w.s.authors
    ensures e.local in AuthorRestored(c, w, e).s.authors
  {
  }

  /** The first entity that is retried leaves its mark. */
  lemma FirstRetriedTells(norm: string -> string, c: Ctx, s: Shelf, es: seq<Entity>, n: nat)
    requires n < |es| && RankSorted(es) && NoForeignRivals(s, c.run, es) && Idempotent(norm) && MediaFilled(s)
    requires Retried(norm, s, c.run, es[n]) && forall i :: 0 <= i < n ==> !Retried(norm, s, c.run, es[i])
    requires forall e :: e in es ==> e.local != 0
    ensures Steps(norm, c, Begin(s), es).s != s
  {
    var w, w1, e := Steps(norm, c, Begin(s), es[..n]), Steps(norm, c, Begin(s), es[..n + 1]), es[n];
    IdleSteps(norm, c, Begin(s), es[..n]);
    StepsOneMore(norm, c, Begin(s), es, n + 1);
    StepsSplit(norm, c, Begin(s), es, n + 1);
    StepsShrink(norm, c, Begin(s), es[..n + 1]);
    StepsShrink(norm, c, w1, es[n + 1..]);
    if e.key.kind == EditionKind { NothingDeletedBeforeEditions(norm, c, s, es, n); }
    if Owned(s, c.run, e) {
      OwnRetriedLosesLink(norm, c, w, e);
      ProvStaysLess(s, w1.s, Steps(norm, c, Begin(s), es).s);
    } else {
      FailsWhenBlocked(norm, c, w, e);
      StepSettles(norm, c, w, e);
      StepsKeepMedia(norm, c, Begin(s), es[..n + 1]);
      forall f | f in es[n + 1..] ensures f.local != 0 && !BothForeign(s, c.run, e, f) {
        var i :| n + 1 <= i < |es| && es[i] == f;
      }
      StepsHold(norm, c, s, w1, es[n + 1..], e);
    }
  }

  /**
   * Main result: after any rollback, failures included, rolling the same run back again changes no row of any table
   * exactly when no entity is retried: one that is not settled and whose write the keys do not refuse. It holds unless
   * two entities of the run put a snapshot back on one row and the links of both belong to other runs by then.
   */
  lemma SecondRollbackChangesNothing(norm: string -> string, s: Shelf, run: Id, es: seq<Entity>,
                                     order: seq<Id>, again: seq<Id>)
    requires Idempotent(norm) && MediaFilled(s) && forall e :: e in es ==> e.local != 0
    requires NoForeignRivals(Rollback(norm, s, run, es, order).s, run, es)
    ensures var s1 := Rollback(norm, s, run, es, order).s;
            Rollback(norm, s1, run, es, again).s == s1 <==> forall e :: e in es ==> !Retried(norm, s1, run, e)
  {
    var sorted := SortByRank(es);
    var c, s1 := Ctx(run, PlanOf(sorted), order), Rollback(norm, s, run, es, order).s;
    SortByRankSorts(es);
    SortKeepsRivals(s1, run, es);
    StepsKeepMedia(norm, c, Begin(s), sorted);
    SecondPass(norm, Ctx(run, PlanOf(sorted), again), s1, sorted);
    assert forall e :: e in sorted <==> e in es;
  }

  lemma SecondPass(norm: string -> string, c: Ctx, s: Shelf, es: seq<Entity>)
    requires Idempotent(norm) && MediaFilled(s) && RankSorted(es) && forall e :: e in es ==> e.local != 0
    requires NoForeignRivals(s, c.run, es)
    ensures Steps(norm, c, Begin(s), es).s == s <==> forall e :: e in es ==> !Retried(norm, s, c.run, e)
  {
    if e :| e in es && Retried(norm, s, c.run, e) {
      var j :| 0 <= j < |es| && es[j] == e;
      var due := (i: nat) => i < |es| && Retried(norm, s, c.run, es[i]);
      var n := FirstPlace(due, j);
      forall i | 0 <= i < n ensures !Retried(norm, s, c.run, es[i]) { assert !due(i); }
      FirstRetriedTells(norm, c, s, es, n);
    } else {
      IdleSteps(norm, c, Begin(s), es);
    }
  }

  // ----- one entity of a committed rollback -----

  /** When the entity's turn comes, no key refuses the write of its snapshot. */
  ghost predicate Passes(norm: string -> string, s: Shelf, run: Id, es: seq<Entity>, order: seq<Id>, e: Entity) {
    var sorted := SortByRank(es);
    forall n :: 0 <= n < |sorted| && sorted[n] == e ==>
      !Blocked(norm, Steps(norm, Ctx(run, PlanOf(sorted), order), Begin(s), sorted[..n]).s, e)
  }

  /** In a rollback without failures every entity passes. */
  lemma QuietRollbackPasses(norm: string -> string, s: Shelf, run: Id, es: seq<Entity>, order: seq<Id>, e: Entity)
    requires Rollback(norm, s, run, es, order).failed == 0
    ensures Passes(norm, s, run, es, order, e)
  {
    var sorted := SortByRank(es);
    var c := Ctx(run, PlanOf(sorted), order);
    forall n | 0 <= n < |sorted| && sorted[n] == e
      ensures !Blocked(norm, Steps(norm, c, Begin(s), sorted[..n]).s, e)
    {
      NoFailureSoFar(norm, c, Begin(s), sorted, n);
      NoFailureSoFar(norm, c, Begin(s), sorted, n + 1);
      StepsOneMore(norm, c, Begin(s), sorted, n + 1);
      FailsWhenBlocked(norm, c, Steps(norm, c, Begin(s), sorted[..n]), e);
    }
  }

  /** Where the pass comes to e. */
  lemma TurnOf(norm: string -> string, s: Shelf, run: Id, es: seq<Entity>, order: seq<Id>, e: Entity) returns (n: nat)
    requires e in es && Passes(norm, s, run, es, order, e)
    ensures n < |SortByRank(es)| && SortByRank(es)[n] == e
    ensures var sorted := SortByRank(es);
            !Blocked(norm, Steps(norm, Ctx(run, PlanOf(sorted), order), Begin(s), sorted[..n]).s, e)
  {
    var sorted := SortByRank(es);
    SortByRankSorts(es);
    assert e in sorted;
    n :| 0 <= n < |sorted| && sorted[n] == e;
  }

  lemma StepKeepsSettledAmongOwned(norm: string -> string, c: Ctx, s: Shelf, w: Work, f: Entity, e: Entity)
    requires Shrinks(s, w.s) && Matches(s, e) && !OneForeign(s, c.run, e, f) && Settled(norm, w.s, c.run, e)
    ensures Settled(norm, Step(norm, c, w, f).s, c.run, e)
  {
    StepShrinks(norm, c, w, f);
    if !Rivals(e, f) {
      StepKeepsSettled(norm, c, w, f, e);
    } else if Matches(w.s, f) && Matches(w.s, e) {
      assert RowGone(w.s, e);
    }
  }

  lemma {:induction false} StepsKeepSettled(norm: string -> string, c: Ctx, s: Shelf, w: Work, es: seq<Entity>,
                                            e: Entity)
    requires Shrinks(s, w.s) && Matches(s, e) && Settled(norm, w.s, c.run, e)
    requires forall f :: f in es ==> !OneForeign(s, c.run, e, f)
    ensures Settled(norm, Steps(norm, c, w, es).s, c.run, e)
  {
    if es != [] {
      var front, last := es[..|es| - 1], es[|es| - 1];
      assert last in es && forall f :: f in front ==> f in es;
      StepsKeepSettled(norm, c, s, w, front, e);
      StepsShrink(norm, c, w, front);
      StepKeepsSettledAmongOwned(norm, c, s, Steps(norm, c, w, front), last, e);
    }
  }

  /** An entity whose write is not refused when its turn comes is settled by the pass. */
  lemma UnblockedSettles(norm: string -> string, c: Ctx, s: Shelf, es: seq<Entity>, n: nat)
    requires n < |es| && RankSorted(es) && RivalsOwned(s, c.run, es) && Idempotent(norm) && MediaFilled(s)
    requires es[n].local != 0 && Matches(s, es[n]) && !Blocked(norm, Steps(norm, c, Begin(s), es[..n]).s, es[n])
    ensures Settled(norm, Steps(norm, c, Begin(s), es).s, c.run, es[n])
  {
    var w, w1 := Steps(norm, c, Begin(s), es[..n]), Steps(norm, c, Begin(s), es[..n + 1]);
    StepsKeepMedia(norm, c, Begin(s), es[..n]);
    if es[n].key.kind == EditionKind { NothingDeletedBeforeEditions(norm, c, s, es, n); }
    FailsWhenBlocked(norm, c, w, es[n]);
    StepSettles(norm, c, w, es[n]);
    StepsOneMore(norm, c, Begin(s), es, n + 1);
    StepsSplit(norm, c, Begin(s), es, n + 1);
    StepsShrink(norm, c, Begin(s), es[..n + 1]);
    forall f | f in es[n + 1..] ensures !OneForeign(s, c.run, es[n], f) {
      var i :| n + 1 <= i < |es| && es[i] == f;
    }
    StepsKeepSettled(norm, c, s, w1, es[n + 1..], es[n]);
  }

  /**
   * An entity that passes is left with nothing to retry, whatever became of the others, when rivals are restored under
   * links of the run's own.
   */
  lemma PassingEntityIsSettled(norm: string -> string, s: Shelf, run: Id, es: seq<Entity>, order: seq<Id>, e: Entity)
    requires Idempotent(norm) && MediaFilled(s) && RivalsOwned(s, run, es) && e in es && e.local != 0
    requires Passes(norm, s, run, es, order, e)
    ensures Settled(norm, Rollback(norm, s, run, es, order).s, run, e)
  {
    var sorted := SortByRank(es);
    SortByRankSorts(es);
    SortKeepsRivals(s, run, es);
    StepsShrink(norm, Ctx(run, PlanOf(sorted), order), Begin(s), sorted);
    if Matches(s, e) {
      var n := TurnOf(norm, s, run, es, order, e);
      UnblockedSettles(norm, Ctx(run, PlanOf(sorted), order), s, sorted, n);
    }
  }
}
