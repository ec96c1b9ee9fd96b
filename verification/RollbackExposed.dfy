// When a book that another run names goes, read off the tables as they are when the pass reaches the authors: it is
// filed under a created author, and the run owns the row it recorded for the book, which names another one.

module RollbackExposed {
  import opened RollbackModel
  import opened RollbackProofs
  import opened RollbackDeletions
  import opened RollbackRepeat
  import opened RollbackCompleteness
  import opened RollbackLinks
  import opened RollbackOutcome
  import opened RollbackTaken

  /** A created author that the run still owns, and under which the book is filed. */
  predicate Claims(s: Shelf, run: Id, e: Entity, b: Id)
    requires b in s.books
  {
    e.key.kind == AuthorKind && e.outcome == Created && Owned(s, run, e) && s.books[b].authorId == e.local
  }

  /** The book is filed under such an author, and the run owns the row it recorded for the book. */
  predicate Exposed(c: Ctx, s: Shelf, es: seq<Entity>, b: Id) {
    b in s.books && RunOwnsBook(c, s, b) && exists e :: e in es && Claims(s, c.run, e, b)
  }

  /** The book that the run's row for b names. */
  function NamedInstead(s: Shelf, c: Ctx, b: Id): Id
    requires RunOwnsBook(c, s, b)
  {
    s.prov[c.plan.created[b].key].local
  }

  // ----- the steps from the first author on -----

  /** What the steps are taken from: a sane store in which every book is filed. */
  ghost predicate Ready(c: Ctx, w: Work, es: seq<Entity>) {
    && Sane(c, w) && Filed(w.s) && Late(es) && (forall e :: e in es ==> Known(c.plan, e))
    && forall b :: b in c.plan.created ==> c.plan.created[b].key.kind == BookKind
  }

  lemma ReadyFront(c: Ctx, w: Work, es: seq<Entity>, n: nat)
    requires Ready(c, w, es) && n <= |es|
    ensures Ready(c, w, es[..n])
  {
    assert forall e :: e in es[..n] ==> e in es;
  }

  /** What is in the tables later was there, unchanged, at the start. */
  lemma {:induction false} LateTables(norm: string -> string, c: Ctx, w: Work, es: seq<Entity>, b: Id)
    requires Late(es)
    ensures BookRowKept(w.s, Steps(norm, c, w, es).s, b)
  {
    if es != [] {
      var front, last := es[..|es| - 1], es[|es| - 1];
      assert last in es && forall e :: e in front ==> e in es;
      LateTables(norm, c, w, front, b);
      StepKeepsBookRow(norm, c, Steps(norm, c, w, front), last, b);
    }
  }

  /** Only what is exposed at the start is ever taken. */
  lemma {:induction false} TakenIsExposed(norm: string -> string, c: Ctx, w: Work, es: seq<Entity>, b: Id)
    requires Late(es) && Taken(norm, c, w, es, b)
    ensures Exposed(c, w.s, es, b)
  {
    var front, last := es[..|es| - 1], es[|es| - 1];
    assert last in es && forall e :: e in front ==> e in es;
    if Taken(norm, c, w, front, b) {
      TakenIsExposed(norm, c, w, front, b);
    } else {
      TakesMeans(c, Steps(norm, c, w, front), last, b);
      LateTables(norm, c, w, front, b);
      StepsShrink(norm, c, w, front);
      assert Claims(w.s, c.run, last, b);
    }
  }

  lemma LateStepKeepsBookRow(norm: string -> string, c: Ctx, w: Work, e: Entity, k: Key)
    requires Rank(e) >= 4 && k.kind == BookKind && k in w.s.prov && !AuthorTakes(c, w, e, w.s.prov[k].local)
    ensures k in Step(norm, c, w, e).s.prov
  {
    if e.key.kind == AuthorKind && Matches(w.s, e) {
      if e.outcome == Created {
        CreatedAuthorKeepsBookRow(c, w, e, k);
      } else if e.snapshot.OfAuthor? {
        AuthorRestoredTakesOwnRow(c, w, e);
      }
    }
  }

  lemma CreatedAuthorKeepsBookRow(c: Ctx, w: Work, e: Entity, k: Key)
    requires k.kind == BookKind && k in w.s.prov && !AuthorTakes(c, w, e, w.s.prov[k].local)
    requires e.key.kind == AuthorKind && e.outcome == Created
    ensures k in AuthorCreated(c, w, e).s.prov
  {
    var listed := BooksOf(w.s, e.local, c.bookOrder);
    if w.s.prov[k].local == 0 { RowOfNoBookStays(c, w, listed, k); } else { ListingTakesRow(c, w, listed, k); }
  }

  lemma LateStepKeepsUntakenBook(norm: string -> string, c: Ctx, w: Work, e: Entity, b: Id)
    requires Rank(e) >= 4 && Sane(c, w) && b in w.s.books && !AuthorTakes(c, w, e, b)
    ensures b in Step(norm, c, w, e).s.books
  {
    if e.key.kind == AuthorKind && e.outcome == Created && Matches(w.s, e) { UntakenBookStays(c, w, e, b); }
  }

  /** The book is exposed by e. */
  predicate ExposedBy(c: Ctx, s: Shelf, e: Entity, b: Id) {
    b in s.books && RunOwnsBook(c, s, b) && Claims(s, c.run, e, b)
  }

  lemma NextStepKeepsExposed(norm: string -> string, c: Ctx, w: Work, f: Entity, e: Entity, b: Id)
    requires Rank(f) >= 4 && Sane(c, w) && Filed(w.s) && Known(c.plan, f) && !SameEntity(e, f)
    requires ExposedBy(c, w.s, e, b) && c.plan.created[b].key.kind == BookKind
    requires !AuthorTakes(c, w, f, b) && !AuthorTakes(c, w, f, NamedInstead(w.s, c, b))
    ensures ExposedBy(c, Step(norm, c, w, f).s, e, b)
  {
    StepShrinks(norm, c, w, f);
    LateStepKeepsBookRow(norm, c, w, f, c.plan.created[b].key);
    LateStepKeepsUntakenBook(norm, c, w, f, b);
    StepKeepsBookRow(norm, c, w, f, b);
    StepKeepsFiled(norm, c, w, f);
    StepKeepsAuthorLink(norm, c, w, f, e.key, e.local);
  }

  /** The claiming author stays, and so does its row, while neither the book nor the one its row names is taken. */
  lemma {:induction false} ExposedStays(norm: string -> string, c: Ctx, w: Work, es: seq<Entity>, e: Entity, b: Id)
    requires Ready(c, w, es) && ExposedBy(c, w.s, e, b) && forall f :: f in es ==> !SameEntity(e, f)
    requires !Taken(norm, c, w, es, b) && !Taken(norm, c, w, es, NamedInstead(w.s, c, b))
    ensures ExposedBy(c, Steps(norm, c, w, es).s, e, b)
    ensures NamedInstead(Steps(norm, c, w, es).s, c, b) == NamedInstead(w.s, c, b)
  {
    if es != [] {
      var front, last := es[..|es| - 1], es[|es| - 1];
      assert last in es && forall f :: f in front ==> f in es;
      ReadyFront(c, w, es, |es| - 1);
      ExposedStays(norm, c, w, front, e, b);
      StepsKeepFiled(norm, c, w, front);
      NextStepKeepsExposed(norm, c, Steps(norm, c, w, front), last, e, b);
      StepShrinks(norm, c, Steps(norm, c, w, front), last);
    }
  }

  lemma ClaimedIsTaken(c: Ctx, w: Work, e: Entity, b: Id)
    requires Sane(c, w) && ExposedBy(c, w.s, e, b) && c.plan.created[b].key.kind == BookKind
    requires !AuthorTakes(c, w, e, NamedInstead(w.s, c, b))
    ensures AuthorTakes(c, w, e, b)
  {
    BooksOfLists(w.s, e.local, c.bookOrder, b);
    TakesExactlyOwned(c, w, BooksOf(w.s, e.local, c.bookOrder), b);
  }

  lemma {:induction false} TakenEarlier(norm: string -> string, c: Ctx, w: Work, es: seq<Entity>, n: nat, b: Id)
    requires n <= |es| && Taken(norm, c, w, es[..n], b)
    ensures Taken(norm, c, w, es, b)
    decreases |es|
  {
    if n < |es| {
      assert es[..|es| - 1][..n] == es[..n];
      TakenEarlier(norm, c, w, es[..|es| - 1], n, b);
    } else {
      assert es[..n] == es;
    }
  }

  lemma TakenAtLast(norm: string -> string, c: Ctx, w: Work, es: seq<Entity>, m: nat, b: Id)
    requires m < |es|
    ensures Taken(norm, c, w, es[..m + 1], b) <==>
              Taken(norm, c, w, es[..m], b) || AuthorTakes(c, Steps(norm, c, w, es[..m]), es[m], b)
  {
    assert es[..m + 1][..m] == es[..m];
  }

  /** An exposed book whose row names no exposed book is taken by its author's step, if not before. */
  lemma ExposedIsTaken(norm: string -> string, c: Ctx, w: Work, es: seq<Entity>, m: nat, b: Id)
    requires Ready(c, w, es) && m < |es| && ExposedBy(c, w.s, es[m], b)
    requires forall f :: f in es[..m] ==> !SameEntity(es[m], f)
    requires !Taken(norm, c, w, es, NamedInstead(w.s, c, b))
    ensures Taken(norm, c, w, es, b)
  {
    var named := NamedInstead(w.s, c, b);
    TakenAtLast(norm, c, w, es, m, b);
    TakenAtLast(norm, c, w, es, m, named);
    if Taken(norm, c, w, es[..m + 1], named) { TakenEarlier(norm, c, w, es, m + 1, named); }
    if !Taken(norm, c, w, es[..m], b) {
      ReadyFront(c, w, es, m);
      ExposedStays(norm, c, w, es[..m], es[m], b);
      StepsKeepFiled(norm, c, w, es[..m]);
      ClaimedIsTaken(c, Steps(norm, c, w, es[..m]), es[m], b);
    }
    TakenEarlier(norm, c, w, es, m + 1, b);
  }

  // ----- a whole rollback -----

  /** How many entities come before the first author. */
  function BeforeAuthors(es: seq<Entity>): (n: nat)
    ensures n <= |es| && (forall i :: 0 <= i < n ==> Rank(es[i]) < 4) && (n < |es| ==> Rank(es[n]) >= 4)
  {
    if es == [] || Rank(es[0]) >= 4 then 0 else 1 + BeforeAuthors(es[1..])
  }

  lemma {:induction false} NoneTakenBefore(norm: string -> string, c: Ctx, w: Work, es: seq<Entity>, b: Id)
    requires forall i :: 0 <= i < |es| ==> Rank(es[i]) < 4
    ensures !Taken(norm, c, w, es, b)
  {
    if es != [] { NoneTakenBefore(norm, c, w, es[..|es| - 1], b); }
  }

  /** Being taken in a pass is being taken in its first or its second part. */
  lemma {:induction false} TakenSplit(norm: string -> string, c: Ctx, w: Work, es: seq<Entity>, n: nat, b: Id)
    requires n <= |es|
    ensures Taken(norm, c, w, es, b) <==>
              Taken(norm, c, w, es[..n], b) || Taken(norm, c, Steps(norm, c, w, es[..n]), es[n..], b)
  {
    if n < |es| {
      var front, rest := es[..|es| - 1], es[n..];
      TakenSplit(norm, c, w, front, n, b);
      assert front[..n] == es[..n] && front[n..] == rest[..|rest| - 1] && rest[|rest| - 1] == es[|es| - 1];
      StepsSplit(norm, c, w, front, n);
    } else {
      assert es[..n] == es && es[n..] == [];
    }
  }

  /** The work when the pass reaches the authors, and the entities from there on. */
  function Reached(norm: string -> string, c: Ctx, s: Shelf, es: seq<Entity>): Work {
    Steps(norm, c, Begin(s), es[..BeforeAuthors(es)])
  }

  function FromAuthors(es: seq<Entity>): seq<Entity> { es[BeforeAuthors(es)..] }

  lemma ReachedIsReady(norm: string -> string, c: Ctx, s: Shelf, es: seq<Entity>)
    requires RankSorted(es) && c.plan == PlanOf(es) && StartsSane(s, c.bookOrder) && Filed(s)
    ensures Ready(c, Reached(norm, c, s, es), FromAuthors(es))
  {
    var n := BeforeAuthors(es);
    forall f | f in es ensures Known(c.plan, f) { PlanKnows(es, f); }
    assert (forall f :: f in es[..n] ==> f in es) && forall f :: f in es[n..] ==> f in es;
    StepsKeepFiled(norm, c, Begin(s), es[..n]);
    forall f | f in es[n..] ensures Rank(f) >= 4 {
      var i :| n <= i < |es| && es[i] == f;
      RanksRise(es, n, i);
    }
    forall b | b in c.plan.created ensures c.plan.created[b].key.kind == BookKind { PlanCreated(es, b); }
  }

  /** By then the row the run recorded for an exposed book names another one. */
  lemma ExposedNamesAnother(norm: string -> string, c: Ctx, s: Shelf, es: seq<Entity>, b: Id)
    requires RankSorted(es) && c.plan == PlanOf(es) && Exposed(c, Reached(norm, c, s, es).s, FromAuthors(es), b)
    ensures NamedInstead(Reached(norm, c, s, es).s, c, b) != b
  {
    var n, s0 := BeforeAuthors(es), Reached(norm, c, s, es).s;
    var e :| e in es[n..] && Claims(s0, c.run, e, b);
    FirstLateIsAuthor(es, n, e);
    OwnedRowNamesAnother(norm, c, s, es, n, b);
  }

  lemma FirstLateIsAuthor(es: seq<Entity>, n: nat, e: Entity)
    requires RankSorted(es) && n <= |es| && (n < |es| ==> Rank(es[n]) >= 4) && e in es[n..] && e.key.kind == AuthorKind
    ensures n < |es| && es[n].key.kind == AuthorKind
  {
    var m :| n <= m < |es| && es[m] == e;
    RanksRise(es, n, m);
  }

  lemma OwnedRowNamesAnother(norm: string -> string, c: Ctx, s: Shelf, es: seq<Entity>, n: nat, b: Id)
    requires RankSorted(es) && c.plan == PlanOf(es) && n < |es| && es[n].key.kind == AuthorKind
    requires RunOwnsBook(c, At(norm, c, s, es, n).s, b)
    ensures NamedInstead(At(norm, c, s, es, n).s, c, b) != b
  {
    CreatedBooksAreProcessed(norm, c, s, es, n, b);
    PlanCreated(es, b);
  }

  lemma TakenExactlyWhenExposed(norm: string -> string, c: Ctx, s: Shelf, es: seq<Entity>, b: Id)
    requires RankSorted(es) && c.plan == PlanOf(es) && StartsSane(s, c.bookOrder) && Filed(s) && DistinctEntities(es)
    requires var s0, late := Reached(norm, c, s, es).s, FromAuthors(es);
             Exposed(c, s0, late, b) ==> !Exposed(c, s0, late, NamedInstead(s0, c, b))
    ensures Taken(norm, c, Begin(s), es, b) <==> Exposed(c, Reached(norm, c, s, es).s, FromAuthors(es), b)
  {
    var n, w, late := BeforeAuthors(es), Reached(norm, c, s, es), FromAuthors(es);
    NoneTakenBefore(norm, c, Begin(s), es[..n], b);
    TakenSplit(norm, c, Begin(s), es, n, b);
    ReachedIsReady(norm, c, s, es);
    LateAreDistinct(es, n);
    LateTakenExactly(norm, c, w, late, b);
  }

  lemma LateTakenExactly(norm: string -> string, c: Ctx, w: Work, es: seq<Entity>, b: Id)
    requires Ready(c, w, es) && DistinctEntities(es)
    requires Exposed(c, w.s, es, b) ==> !Exposed(c, w.s, es, NamedInstead(w.s, c, b))
    ensures Taken(norm, c, w, es, b) <==> Exposed(c, w.s, es, b)
  {
    if Exposed(c, w.s, es, b) {
      var e :| e in es && Claims(w.s, c.run, e, b);
      var m :| 0 <= m < |es| && es[m] == e;
      var named := NamedInstead(w.s, c, b);
      if Taken(norm, c, w, es, named) { TakenIsExposed(norm, c, w, es, named); }
      OthersDiffer(es, m);
      ExposedIsTaken(norm, c, w, es, m, b);
    } else if Taken(norm, c, w, es, b) {
      TakenIsExposed(norm, c, w, es, b);
    }
  }

  lemma LateAreDistinct(es: seq<Entity>, n: nat)
    requires DistinctEntities(es) && n <= |es|
    ensures DistinctEntities(es[n..])
  {
    forall i, j | 0 <= i < j < |es[n..]| ensures !SameEntity(es[n..][i], es[n..][j]) {
      assert !SameEntity(es[n + i], es[n + j]);
    }
  }

  /** The tables when a rollback reaches the authors. */
  function AuthorsReached(norm: string -> string, s: Shelf, run: Id, es: seq<Entity>, order: seq<Id>): Shelf {
    Reached(norm, Ctx(run, PlanOf(SortByRank(es)), order), s, SortByRank(es)).s
  }

  /** A created author the run owns exposes the book when the rollback reaches the authors. */
  predicate ExposedThen(norm: string -> string, s: Shelf, run: Id, es: seq<Entity>, order: seq<Id>, b: Id) {
    Exposed(Ctx(run, PlanOf(SortByRank(es)), order), AuthorsReached(norm, s, run, es, order),
            FromAuthors(SortByRank(es)), b)
  }

  /**
   * Main result: a book that another run's provenance row names is gone after a committed rollback exactly when, as the
   * pass reaches the authors, it is filed under a created author the run owns and the run owns the row it recorded
   * for the book; that row then names another book. Said where that other book is not itself in this position.
   */
  lemma NamedBookGoesExactlyWhenExposed(norm: string -> string, s: Shelf, run: Id, es: seq<Entity>, order: seq<Id>,
                                        k: Key)
    requires StartsSane(s, order) && Filed(s) && DistinctEntities(es)
    requires Foreign(s, run, k) && NamesLiveRow(s, k) && k.kind == BookKind
    requires var c, s0 := Ctx(run, PlanOf(SortByRank(es)), order), AuthorsReached(norm, s, run, es, order);
             ExposedThen(norm, s, run, es, order, s.prov[k].local) ==>
               !ExposedThen(norm, s, run, es, order, NamedInstead(s0, c, s.prov[k].local))
    ensures var c, s0 := Ctx(run, PlanOf(SortByRank(es)), order), AuthorsReached(norm, s, run, es, order);
            var b, goes := s.prov[k].local, ExposedThen(norm, s, run, es, order, s.prov[k].local);
            && (b !in Rollback(norm, s, run, es, order).s.books <==> goes)
            && (goes ==> NamedInstead(s0, c, b) != b)
  {
    var sorted, b := SortByRank(es), s.prov[k].local;
    var c := Ctx(run, PlanOf(sorted), order);
    SortByRankSorts(es);
    SortKeepsPairwise(es, SameEntity);
    NamedRowGoesExactlyWhenTaken(norm, s, run, es, order, k);
    TakenExactlyWhenExposed(norm, c, s, sorted, b);
    if ExposedThen(norm, s, run, es, order, b) { ExposedNamesAnother(norm, c, s, sorted, b); }
  }
}
