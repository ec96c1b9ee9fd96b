// The order of the pass, and what it does to provenance: rows are only ever removed, and where the rows a run owns name
// what it created, another run's row goes exactly when it shares an edition.

module RollbackProofs {
  import opened Common
  import opened RollbackModel

  // ----- provenance only shrinks -----

  ghost predicate Shrinks(s: Shelf, s': Shelf) {
    forall k :: k in s'.prov ==> k in s.prov && s'.prov[k] == s.prov[k]
  }

  lemma {:induction false} RemoveRunBooksShrinks(c: Ctx, w: Work, listed: seq<Id>)
    ensures Shrinks(w.s, RemoveRunBooks(c, w, listed).0.s)
  {
    if listed != [] { RemoveRunBooksShrinks(c, w, listed[..|listed| - 1]); }
  }

  /** Putting a snapshot back takes at most the entity's own row. */
  ghost predicate TakesOwnRow(c: Ctx, w: Work, e: Entity, w': Work) {
    w'.s.prov == w.s.prov || (Owned(w.s, c.run, e) && w'.s.prov == w.s.prov - {e.key})
  }

  lemma BookRestoredTakesOwnRow(norm: string -> string, c: Ctx, w: Work, e: Entity)
    requires e.snapshot.OfBook?
    ensures TakesOwnRow(c, w, e, BookRestored(norm, c, w, e))
  {
    BookRestoredRewrites(norm, c, w, e);
  }

  /** Putting a book's snapshot back touches that book, and the entity's own row. */
  ghost predicate Rewrites(c: Ctx, w: Work, e: Entity, w': Work) {
    && w'.s == w.s.(books := w'.s.books, prov := w'.s.prov) && w'.s.books.Keys == w.s.books.Keys
    && (forall b :: b in w.s.books && b != e.local ==> w'.s.books[b] == w.s.books[b])
    && TakesOwnRow(c, w, e, w')
  }

  lemma BookRestoredRewrites(norm: string -> string, c: Ctx, w: Work, e: Entity)
    requires e.snapshot.OfBook?
    ensures Rewrites(c, w, e, BookRestored(norm, c, w, e))
  {
    if e.local in w.s.books {
      WriteBackRewrites(norm, c, w, e, RestoreBook(norm, w.s.books[e.local], e.snapshot.before, e.snapshot.after));
    }
  }

  lemma WriteBackRewrites(norm: string -> string, c: Ctx, w: Work, e: Entity, b: Book)
    requires e.local in w.s.books
    ensures Rewrites(c, w, e, WriteBack(norm, c, w, e, b))
  {
  }

  lemma AuthorRestoredTakesOwnRow(c: Ctx, w: Work, e: Entity)
    requires e.snapshot.OfAuthor?
    ensures TakesOwnRow(c, w, e, AuthorRestored(c, w, e))
  {
  }

  lemma BookStepShrinks(norm: string -> string, c: Ctx, w: Work, e: Entity)
    ensures Shrinks(w.s, BookStep(norm, c, w, e).s)
  {
    if e.outcome != Created && e.snapshot.OfBook? { BookRestoredTakesOwnRow(norm, c, w, e); }
  }

  lemma AuthorCreatedShrinks(c: Ctx, w: Work, e: Entity)
    ensures Shrinks(w.s, AuthorCreated(c, w, e).s)
  {
    RemoveRunBooksShrinks(c, w, BooksOf(w.s, e.local, c.bookOrder));
  }

  lemma AuthorStepShrinks(c: Ctx, w: Work, e: Entity)
    ensures Shrinks(w.s, AuthorStep(c, w, e).s)
  {
    if e.outcome == Created {
      AuthorCreatedShrinks(c, w, e);
    } else if e.snapshot.OfAuthor? {
      AuthorRestoredTakesOwnRow(c, w, e);
    }
  }

  lemma SeriesStepShrinks(c: Ctx, w: Work, e: Entity)
    ensures Shrinks(w.s, SeriesStep(c, w, e).s)
  {
  }

  lemma StepShrinks(norm: string -> string, c: Ctx, w: Work, e: Entity)
    ensures Shrinks(w.s, Step(norm, c, w, e).s)
  {
    match e.key.kind
    case BookKind => BookStepShrinks(norm, c, w, e);
    case AuthorKind => AuthorStepShrinks(c, w, e);
    case SeriesKind => SeriesStepShrinks(c, w, e);
    case _ =>
  }

  lemma {:induction false} StepsShrink(norm: string -> string, c: Ctx, w: Work, es: seq<Entity>)
    ensures Shrinks(w.s, Steps(norm, c, w, es).s)
  {
    if es != [] {
      StepsShrink(norm, c, w, es[..|es| - 1]);
      StepShrinks(norm, c, Steps(norm, c, w, es[..|es| - 1]), es[|es| - 1]);
    }
  }

  lemma {:induction false} StepsSplit(norm: string -> string, c: Ctx, w: Work, es: seq<Entity>, n: nat)
    requires n <= |es|
    ensures Steps(norm, c, w, es) == Steps(norm, c, Steps(norm, c, w, es[..n]), es[n..])
  {
    var rest := es[n..];
    if n < |es| {
      var front := es[..|es| - 1];
      StepsSplit(norm, c, w, front, n);
      assert front[..n] == es[..n];
      assert front[n..] == rest[..|rest| - 1];
      assert rest[|rest| - 1] == es[|es| - 1];
    } else {
      assert es[..n] == es;
      assert rest == [];
    }
  }

  lemma StepsOneMore(norm: string -> string, c: Ctx, w: Work, es: seq<Entity>, n: nat)
    requires 0 < n <= |es|
    ensures Steps(norm, c, w, es[..n]) == Step(norm, c, Steps(norm, c, w, es[..n - 1]), es[n - 1])
  {
    assert es[..n][..n - 1] == es[..n - 1];
  }

  // ----- the order of the pass -----

  predicate RankSorted(es: seq<Entity>) {
    forall i, j :: 0 <= i < j < |es| ==> Rank(es[i]) <= Rank(es[j])
  }

  lemma {:induction false} InsertKeepsAll(es: seq<Entity>, e: Entity)
    ensures multiset(InsertByRank(es, e)) == multiset(es) + multiset{e}
  {
    if es != [] && Rank(es[|es| - 1]) > Rank(e) {
      var front, last := es[..|es| - 1], es[|es| - 1];
      assert es == front + [last];
      InsertKeepsAll(front, e);
    }
  }

  lemma {:induction false} InsertSorts(es: seq<Entity>, e: Entity)
    requires RankSorted(es)
    ensures RankSorted(InsertByRank(es, e))
    ensures forall i :: 0 <= i < |InsertByRank(es, e)| ==>
              Rank(InsertByRank(es, e)[i]) <= (if es == [] then Rank(e) else Max(Rank(e), Rank(es[|es| - 1])))
  {
    if es != [] && Rank(es[|es| - 1]) > Rank(e) {
      InsertSorts(es[..|es| - 1], e);
    }
  }

  lemma {:induction false} SortKeepsAll(es: seq<Entity>)
    ensures multiset(SortByRank(es)) == multiset(es)
  {
    if es != [] {
      var front, last := es[..|es| - 1], es[|es| - 1];
      SortKeepsAll(front);
      InsertKeepsAll(SortByRank(front), last);
      assert es == front + [last];
    }
  }

  lemma {:induction false} SortSorts(es: seq<Entity>)
    ensures RankSorted(SortByRank(es))
  {
    if es != [] {
      SortSorts(es[..|es| - 1]);
      InsertSorts(SortByRank(es[..|es| - 1]), es[|es| - 1]);
    }
  }

  /** The pass visits every entity once, children before parents. */
  lemma SortByRankSorts(es: seq<Entity>)
    ensures RankSorted(SortByRank(es))
    ensures multiset(SortByRank(es)) == multiset(es)
    ensures forall e :: e in SortByRank(es) <==> e in es
  {
    SortSorts(es);
    SortKeepsAll(es);
    forall e ensures e in SortByRank(es) <==> e in es {
      assert e in SortByRank(es) <==> e in multiset(SortByRank(es));
      assert e in es <==> e in multiset(es);
    }
  }

  /** The entities of one rank, in order. */
  function OfRank(es: seq<Entity>, r: nat): seq<Entity> {
    if es == [] then []
    else OfRank(es[..|es| - 1], r) + (if Rank(es[|es| - 1]) == r then [es[|es| - 1]] else [])
  }

  lemma {:induction false} InsertIsStable(es: seq<Entity>, e: Entity, r: nat)
    ensures OfRank(InsertByRank(es, e), r) == OfRank(es, r) + (if Rank(e) == r then [e] else [])
  {
    if es == [] || Rank(es[|es| - 1]) <= Rank(e) {
      assert (es + [e])[..|es|] == es;
    } else {
      var rest := InsertByRank(es[..|es| - 1], e);
      InsertIsStable(es[..|es| - 1], e, r);
      assert (rest + [es[|es| - 1]])[..|rest|] == rest;
    }
  }

  /** Within a rank the pass keeps the order in which the run recorded its entities. */
  lemma {:induction false} SortIsStable(es: seq<Entity>, r: nat)
    ensures OfRank(SortByRank(es), r) == OfRank(es, r)
  {
    if es != [] {
      SortIsStable(es[..|es| - 1], r);
      InsertIsStable(SortByRank(es[..|es| - 1]), es[|es| - 1], r);
    }
  }

  /** No two different positions clash. */
  ghost predicate Pairwise(es: seq<Entity>, clash: (Entity, Entity) -> bool) {
    forall i, j :: 0 <= i < j < |es| ==> !clash(es[i], es[j])
  }

  lemma {:induction false} InsertKeepsPairwise(es: seq<Entity>, e: Entity, clash: (Entity, Entity) -> bool)
    requires Pairwise(es, clash) && forall f :: f in es ==> !clash(f, e) && !clash(e, f)
    ensures Pairwise(InsertByRank(es, e), clash)
    ensures forall f :: f in InsertByRank(es, e) ==> f == e || f in es
  {
    if es != [] && Rank(es[|es| - 1]) > Rank(e) {
      var front, last := es[..|es| - 1], es[|es| - 1];
      InsertKeepsPairwise(front, e, clash);
      forall f | f in InsertByRank(front, e) ensures !clash(f, last) && (f == e || f in es) {
        if f != e {
          var i :| 0 <= i < |front| && front[i] == f;
          assert es[i] == f && es[|es| - 1] == last;
        }
      }
    }
  }

  lemma {:induction false} SortKeepsPairwise(es: seq<Entity>, clash: (Entity, Entity) -> bool)
    requires Pairwise(es, clash) && forall e, f :: clash(e, f) ==> clash(f, e)
    ensures Pairwise(SortByRank(es), clash)
  {
    if es != [] {
      var front, last := es[..|es| - 1], es[|es| - 1];
      SortKeepsPairwise(front, clash);
      forall f | f in SortByRank(front) ensures !clash(f, last) && !clash(last, f) {
        SortByRankSorts(front);
        var i :| 0 <= i < |front| && front[i] == f;
        assert !clash(es[i], last);
      }
      InsertKeepsPairwise(SortByRank(front), last, clash);
    }
  }

  lemma NotedCreated(p: Plan, e: Entity)
    ensures Noted(p, e).created ==
            if e.key.kind == BookKind && e.outcome == Created && e.local != 0 then p.created[e.local := e]
            else p.created
  {
  }

  lemma {:induction false} PlanCreated(es: seq<Entity>, b: Id)
    requires b in PlanOf(es).created
    ensures var e := PlanOf(es).created[b];
            e in es && e.key.kind == BookKind && e.outcome == Created && e.local == b && b != 0
  {
    var front, last := es[..|es| - 1], es[|es| - 1];
    NotedCreated(PlanOf(front), last);
    if !(last.key.kind == BookKind && last.outcome == Created && last.local == b && b != 0) {
      PlanCreated(front, b);
    }
  }

  // ----- other runs' provenance rows -----

  predicate Foreign(s: Shelf, run: Id, k: Key) { k in s.prov && s.prov[k].run != Some(run) }

  /** Where a row the run wrote belongs to one of the books it created, it still names that book. */
  ghost predicate OwnRowsAgree(c: Ctx, s: Shelf) {
    forall b :: b in c.plan.created && RunOwnsBook(c, s, b) ==> s.prov[c.plan.created[b].key].local == b
  }

  /** Every provenance row the run owns was recorded by one of its entities. */
  ghost predicate OwnRowsRecorded(s: Shelf, run: Id, es: seq<Entity>) {
    forall k :: k in s.prov && s.prov[k].run == Some(run) ==>
               exists e :: e in es && e.key == k && e.local == s.prov[k].local
  }

  predicate SameExternal(e: Entity, f: Entity) { e.key == f.key }

  lemma SamePosition(es: seq<Entity>, i: nat, j: nat)
    requires i < |es| && j < |es| && Pairwise(es, SameExternal) && es[i].key == es[j].key
    ensures i == j
  {
    assert SameExternal(es[i], es[j]) && SameExternal(es[j], es[i]);
  }

  /** With one entity per external id, the rows a run owns name the books it created under those ids. */
  lemma OneEntityPerExternalIdAgrees(c: Ctx, s: Shelf, es: seq<Entity>)
    requires c.plan == PlanOf(es) && OwnRowsRecorded(s, c.run, es) && Pairwise(es, SameExternal)
    ensures OwnRowsAgree(c, s)
  {
    forall b | b in c.plan.created && RunOwnsBook(c, s, b) ensures s.prov[c.plan.created[b].key].local == b {
      PlanCreated(es, b);
      var e := c.plan.created[b];
      var f :| f in es && f.key == e.key && f.local == s.prov[e.key].local;
      var i :| 0 <= i < |es| && es[i] == e;
      var j :| 0 <= j < |es| && es[j] == f;
      SamePosition(es, i, j);
    }
  }

  ghost predicate NoRunBooks(c: Ctx, s: Shelf) {
    forall b :: b in c.plan.created ==> !RunOwnsBook(c, s, b)
  }

  /** The one way a foreign row goes: this entity is an edition the run created and owns, and the row shares it. */
  predicate SharesEdition(s: Shelf, run: Id, e: Entity, k: Key) {
    && e.key.kind == EditionKind && e.outcome == Created && Owned(s, run, e)
    && k in RowsByLocal(s, EditionKind, e.local)
  }

  lemma {:induction false} NothingToRemove(c: Ctx, w: Work, listed: seq<Id>)
    requires NoRunBooks(c, w.s)
    ensures RemoveRunBooks(c, w, listed).0 == w
    ensures RemoveRunBooks(c, w, listed).1 == 0 ==> forall b :: b in listed ==> b in w.deleted
  {
    if listed != [] { NothingToRemove(c, w, listed[..|listed| - 1]); }
  }

  lemma BookStepKeepsForeignRow(norm: string -> string, c: Ctx, w: Work, e: Entity, k: Key)
    requires Foreign(w.s, c.run, k)
    ensures k in BookStep(norm, c, w, e).s.prov
  {
    if e.outcome != Created && e.snapshot.OfBook? { BookRestoredTakesOwnRow(norm, c, w, e); }
  }

  lemma AuthorStepKeepsForeignRow(c: Ctx, w: Work, e: Entity, k: Key)
    requires Foreign(w.s, c.run, k) && NoRunBooks(c, w.s)
    ensures k in AuthorStep(c, w, e).s.prov
  {
    if e.outcome == Created {
      AuthorCreatedKeepsForeignRow(c, w, e, k);
    } else if e.snapshot.OfAuthor? {
      AuthorRestoredTakesOwnRow(c, w, e);
    }
  }

  lemma AuthorCreatedKeepsForeignRow(c: Ctx, w: Work, e: Entity, k: Key)
    requires Foreign(w.s, c.run, k) && NoRunBooks(c, w.s)
    ensures k in AuthorCreated(c, w, e).s.prov
  {
    NothingToRemove(c, w, BooksOf(w.s, e.local, c.bookOrder));
  }

  lemma SeriesStepKeepsForeignRow(c: Ctx, w: Work, e: Entity, k: Key)
    requires Foreign(w.s, c.run, k)
    ensures k in SeriesStep(c, w, e).s.prov
  {
    if Owned(w.s, c.run, e) && e.bookId > 0 { MembershipKeepsForeignRow(c, w, e, k); }
  }

  lemma MembershipKeepsForeignRow(c: Ctx, w: Work, e: Entity, k: Key)
    requires Foreign(w.s, c.run, k) && Owned(w.s, c.run, e) && e.bookId > 0
    ensures k in SeriesMembership(c, w, e).s.prov
  {
  }

  lemma StepKeepsForeignRow(norm: string -> string, c: Ctx, w: Work, e: Entity, k: Key)
    requires Foreign(w.s, c.run, k)
    requires e.key.kind == AuthorKind ==> NoRunBooks(c, w.s)
    requires w.deleted == {} || e.key.kind != EditionKind
    ensures k in Step(norm, c, w, e).s.prov <==> !SharesEdition(w.s, c.run, e, k)
  {
    match e.key.kind
    case BookKind => BookStepKeepsForeignRow(norm, c, w, e, k);
    case AuthorKind => AuthorStepKeepsForeignRow(c, w, e, k);
    case SeriesKind => SeriesStepKeepsForeignRow(c, w, e, k);
    case _ =>
  }

  /** Once a book the run created has been processed, the run no longer owns its row. */
  lemma {:induction false} ProcessedBookIsNotOwned(norm: string -> string, c: Ctx, w: Work, es: seq<Entity>, e: Entity)
    requires e in es && e.key.kind == BookKind && e.outcome == Created && e.local != 0
    ensures !Owned(Steps(norm, c, w, es).s, c.run, e)
  {
    var front, last := es[..|es| - 1], es[|es| - 1];
    StepShrinks(norm, c, Steps(norm, c, w, front), last);
    if e in front {
      ProcessedBookIsNotOwned(norm, c, w, front, e);
    } else {
      assert e == last;
    }
  }

  /** When the pass reaches the authors, every book the run created has been dealt with. */
  lemma AuthorsComeAfterBooks(norm: string -> string, c: Ctx, w: Work, es: seq<Entity>, n: nat)
    requires RankSorted(es) && c.plan == PlanOf(es) && n < |es| && es[n].key.kind == AuthorKind
    requires OwnRowsAgree(c, w.s)
    ensures NoRunBooks(c, Steps(norm, c, w, es[..n]).s)
  {
    var s := Steps(norm, c, w, es[..n]).s;
    StepsShrink(norm, c, w, es[..n]);
    forall b | b in c.plan.created ensures !RunOwnsBook(c, s, b) {
      PlanCreated(es, b);
      var e := c.plan.created[b];
      var i :| 0 <= i < |es| && es[i] == e;
      assert es[..n][i] == e;
      ProcessedBookIsNotOwned(norm, c, w, es[..n], e);
      if RunOwnsBook(c, s, b) { assert RunOwnsBook(c, w.s, b); }
    }
  }

  /** Editions come first, so no edition is skipped because its book was deleted. */
  lemma {:induction false} NothingDeletedBeforeEditions(norm: string -> string, c: Ctx, s: Shelf, es: seq<Entity>,
                                                        n: nat)
    requires RankSorted(es) && n < |es| && es[n].key.kind == EditionKind
    ensures Steps(norm, c, Begin(s), es[..n]).deleted == {}
  {
    if n > 0 {
      assert Rank(es[n - 1]) <= Rank(es[n]);
      NothingDeletedBeforeEditions(norm, c, s, es, n - 1);
      assert es[..n][..n - 1] == es[..n - 1];
    }
  }

  predicate SameEntity(e: Entity, f: Entity) { e.key == f.key && e.local == f.local }

  /** The run tracks each (external entity, local row) pair once. */
  ghost predicate DistinctEntities(es: seq<Entity>) { Pairwise(es, SameEntity) }

  ghost predicate SharedByEdition(s: Shelf, run: Id, es: seq<Entity>, k: Key) {
    exists i :: 0 <= i < |es| && SharesEdition(s, run, es[i], k)
  }

  /** One step of the pass keeps a foreign row unless it shares the edition the step deletes. */
  lemma NextStepKeepsForeignRow(norm: string -> string, c: Ctx, s: Shelf, es: seq<Entity>, k: Key, n: nat)
    requires n < |es| && RankSorted(es) && c.plan == PlanOf(es) && OwnRowsAgree(c, s)
    requires Foreign(Steps(norm, c, Begin(s), es[..n]).s, c.run, k) && !SharesEdition(s, c.run, es[n], k)
    ensures k in Step(norm, c, Steps(norm, c, Begin(s), es[..n]), es[n]).s.prov
  {
    StepsShrink(norm, c, Begin(s), es[..n]);
    if es[n].key.kind == AuthorKind { AuthorsComeAfterBooks(norm, c, Begin(s), es, n); }
    if es[n].key.kind == EditionKind { NothingDeletedBeforeEditions(norm, c, s, es, n); }
    StepKeepsForeignRow(norm, c, Steps(norm, c, Begin(s), es[..n]), es[n], k);
  }

  /** A foreign row survives the first n steps as long as none of them shares its edition. */
  lemma {:induction false} ForeignRowSurvives(norm: string -> string, c: Ctx, s: Shelf, es: seq<Entity>, k: Key, n: nat)
    requires n <= |es| && RankSorted(es) && c.plan == PlanOf(es) && OwnRowsAgree(c, s) && Foreign(s, c.run, k)
    requires forall i :: 0 <= i < n ==> !SharesEdition(s, c.run, es[i], k)
    ensures Foreign(Steps(norm, c, Begin(s), es[..n]).s, c.run, k)
  {
    if n > 0 {
      ForeignRowSurvives(norm, c, s, es, k, n - 1);
      NextStepKeepsForeignRow(norm, c, s, es, k, n - 1);
      StepShrinks(norm, c, Steps(norm, c, Begin(s), es[..n - 1]), es[n - 1]);
      StepsOneMore(norm, c, Begin(s), es, n);
    }
  }

  /** An edition row the run owns stays owned until its own entity, or one sharing the edition, is processed. */
  lemma {:induction false} SharedRowIsRemoved(norm: string -> string, c: Ctx, s: Shelf, es: seq<Entity>, k: Key, i: nat)
    requires i < |es| && RankSorted(es) && DistinctEntities(es) && Foreign(s, c.run, k)
    requires SharesEdition(s, c.run, es[i], k)
    ensures k !in Steps(norm, c, Begin(s), es).s.prov
  {
    RowOrEntityGone(norm, c, s, es, k, i, i);
    var w := Steps(norm, c, Begin(s), es[..i]);
    NothingDeletedBeforeEditions(norm, c, s, es, i);
    assert es[..i + 1][..i] == es[..i];
    StepsShrink(norm, c, Begin(s), es[..i]);
    assert k !in Steps(norm, c, Begin(s), es[..i + 1]).s.prov;
    StepsSplit(norm, c, Begin(s), es, i + 1);
    StepsShrink(norm, c, Steps(norm, c, Begin(s), es[..i + 1]), es[i + 1..]);
  }

  lemma {:induction false} RowOrEntityGone(norm: string -> string, c: Ctx, s: Shelf, es: seq<Entity>, k: Key, i: nat,
                                           n: nat)
    requires n <= i < |es| && RankSorted(es) && DistinctEntities(es)
    requires SharesEdition(s, c.run, es[i], k)
    ensures var w := Steps(norm, c, Begin(s), es[..n]);
            k !in w.s.prov || (es[i].key in w.s.prov && k in w.s.prov)
  {
    if n > 0 {
      RowOrEntityGone(norm, c, s, es, k, i, n - 1);
      var w, e := Steps(norm, c, Begin(s), es[..n - 1]), es[n - 1];
      assert es[..n][..n - 1] == es[..n - 1];
      StepsShrink(norm, c, Begin(s), es[..n - 1]);
      StepShrinks(norm, c, w, e);
      assert Rank(e) <= Rank(es[i]);
      EditionStepRemovesByLocal(norm, c, w, e, es[i], k);
    }
  }

  lemma EditionStepRemovesByLocal(norm: string -> string, c: Ctx, w: Work, e: Entity, f: Entity, k: Key)
    requires e.key.kind == EditionKind && f.key.kind == EditionKind && !(e.key == f.key && e.local == f.local)
    requires f.local != 0 && k.kind == EditionKind
    requires k in w.s.prov ==> w.s.prov[k].local == f.local
    requires f.key in w.s.prov ==> w.s.prov[f.key].local == f.local
    requires k !in w.s.prov || f.key in w.s.prov
    ensures k !in Step(norm, c, w, e).s.prov || f.key in Step(norm, c, w, e).s.prov
  {
  }

  /**
   * Main result: a committed rollback removes another run's provenance row exactly when that row names an edition
   * this run created and still owns.
   */
  lemma ForeignRowsAreKeptUnlessShared(norm: string -> string, s: Shelf, run: Id, es: seq<Entity>, order: seq<Id>,
                                       k: Key)
    requires DistinctEntities(es) && Foreign(s, run, k)
    requires OwnRowsAgree(Ctx(run, PlanOf(SortByRank(es)), order), s)
    ensures k in Rollback(norm, s, run, es, order).s.prov <==> !SharedByEdition(s, run, es, k)
  {
    var sorted := SortByRank(es);
    var c := Ctx(run, PlanOf(sorted), order);
    SortByRankSorts(es);
    SortKeepsPairwise(es, SameEntity);
    if SharedByEdition(s, run, es, k) {
      var j :| 0 <= j < |es| && SharesEdition(s, run, es[j], k);
      assert es[j] in sorted;
      var i :| 0 <= i < |sorted| && sorted[i] == es[j];
      SharedRowIsRemoved(norm, c, s, sorted, k, i);
    } else {
      forall i | 0 <= i < |sorted| ensures !SharesEdition(s, run, sorted[i], k) {
        assert sorted[i] in es;
        var j :| 0 <= j < |es| && es[j] == sorted[i];
      }
      ForeignRowSurvives(norm, c, s, sorted, k, |sorted|);
      assert sorted[..|sorted|] == sorted;
    }
  }
}
