// Where a committed rollback does not keep its promises: concrete runs that break them.

module RollbackLimits {
  import opened Common
  import opened RollbackModel
  import opened RollbackProofs
  import opened RollbackDeletions
  import opened RollbackRepeat
  import opened RollbackRows
  import opened RollbackStack

  function SameSpelling(s: string): string { s }

  function BookNamed(foreignId: string, title: string): Book {
    Book(foreignId, 1, title, "", "", "", "", None, [], 0.0, 0, true, "imported", true, None, "eng", "ebook", "", 0, "",
         None, "audiobookshelf", None)
  }

  function BookTitled(title: string): Book { BookNamed("b", title) }

  const AUTHOR := Author("a", "Ann", "Ann", "", "", "", "audiobookshelf", None)

  function BookKey(external: string): Key { Key("default", "lib", BookKind, external) }

  /** A store with one author, these books and these provenance rows. */
  function Store(books: map<Id, Book>, prov: map<Key, Link>): Shelf {
    Shelf(books, map[1 := AUTHOR], {}, {}, map[], map[], prov)
  }

  lemma {:induction false} SortedStays(es: seq<Entity>)
    requires RankSorted(es)
    ensures SortByRank(es) == es
  {
    if es != [] { SortedStays(es[..|es| - 1]); }
  }

  lemma StepsPair(norm: string -> string, c: Ctx, w: Work, e: Entity, f: Entity)
    ensures Steps(norm, c, w, [e, f]) == Step(norm, c, Step(norm, c, w, e), f)
  {
    assert [e, f][..1] == [e] && [e][..0] == [];
    assert Steps(norm, c, w, [e]) == Step(norm, c, Steps(norm, c, w, []), e);
  }

  lemma RollbackOfOne(norm: string -> string, s: Shelf, run: Id, e: Entity, order: seq<Id>)
    ensures Rollback(norm, s, run, [e], order) == Step(norm, Ctx(run, PlanOf([e]), order), Begin(s), e)
  {
    var c := Ctx(run, PlanOf([e]), order);
    SortedStays([e]);
    assert [e][..0] == [];
    assert Steps(norm, c, Begin(s), [e]) == Step(norm, c, Steps(norm, c, Begin(s), []), e);
  }

  lemma RollbackOfTwo(norm: string -> string, s: Shelf, run: Id, e: Entity, f: Entity, order: seq<Id>)
    requires Rank(e) <= Rank(f)
    ensures var c := Ctx(run, PlanOf([e, f]), order);
            Rollback(norm, s, run, [e, f], order) == Step(norm, c, Step(norm, c, Begin(s), e), f)
  {
    SortedStays([e, f]);
    StepsPair(norm, Ctx(run, PlanOf([e, f]), order), Begin(s), e, f);
  }

  /** A restore of book id, from the copy b to the copy `now`, that no key refuses. */
  lemma Restoring(c: Ctx, w: Work, e: Entity, now: Book)
    requires RestoresBook(e) && Matches(w.s, e) && e.local in w.s.books
    requires RestoreBook(SameSpelling, w.s.books[e.local], e.snapshot.before, e.snapshot.after) == now
    requires now.mediaType != "" && now.calibreId == w.s.books[e.local].calibreId
    requires !BookWriteConflicts(w.s, e.local, now)
    ensures var w' := Step(SameSpelling, c, w, e);
            && w'.failed == w.failed && w'.s.books == w.s.books[e.local := now] && w'.s.authors == w.s.authors
            && w'.s.prov == if Owned(w.s, c.run, e) then w.s.prov - {e.key} else w.s.prov
  {
    var row := w.s.books[e.local];
    assert Stored(SameSpelling, row, now) == now;
    assert w.s.books[e.local := row] == w.s.books;
  }

  // ----- two snapshots of one row -----

  /** Items x and y both wrote book 5: x from A to B, then y from B to C. A later run owns both links. */
  function TwiceWritten(): Shelf {
    Store(map[5 := BookTitled("C")], map[BookKey("x") := Link(5, Some(8)), BookKey("y") := Link(5, Some(8))])
  }

  function WroteX(): Entity { Entity(1, BookKey("x"), 5, Updated, 0, OfBook(BookTitled("A"), BookTitled("B"))) }

  function WroteY(): Entity { Entity(2, BookKey("y"), 5, Updated, 0, OfBook(BookTitled("B"), BookTitled("C"))) }

  lemma RestoringTitle(c: Ctx, w: Work, e: Entity, t: string, b: string, a: string)
    requires RestoresBook(e) && Matches(w.s, e) && !Owned(w.s, c.run, e)
    requires e.local == 5 && w.s.books == map[5 := BookTitled(t)] && w.s.authors == map[1 := AUTHOR]
    requires e.snapshot == OfBook(BookTitled(b), BookTitled(a))
    ensures Step(SameSpelling, c, w, e) == w.(s := w.s.(books := map[5 := BookTitled(if t == a then b else t)]))
  {
    var was := BookTitled(t);
    var now := RestoreBook(SameSpelling, was, BookTitled(b), BookTitled(a));
    assert now == BookTitled(if t == a then b else t);
    assert Stored(SameSpelling, was, now) == now;
    assert !BookWriteConflicts(w.s, 5, now);
    assert map[5 := was][5 := now] == map[5 := now];
  }

  /**
   * When two entities of the run put a snapshot back on one row, a second rollback can still change it: x is skipped
   * the first time because y's value is there, and applies the second time.
   */
  lemma RivalsUndoFurther()
    ensures var es := [WroteX(), WroteY()];
            var once := Rollback(SameSpelling, TwiceWritten(), 7, es, [5]);
            && once.failed == 0 && once.s.books == map[5 := BookTitled("B")]
            && Rollback(SameSpelling, once.s, 7, es, [5]).s.books == map[5 := BookTitled("A")]
  {
    var es := [WroteX(), WroteY()];
    var c := Ctx(7, PlanOf(es), [5]);
    var w := Begin(TwiceWritten());
    RollbackOfTwo(SameSpelling, TwiceWritten(), 7, WroteX(), WroteY(), [5]);
    RestoringTitle(c, w, WroteX(), "C", "A", "B");
    RestoringTitle(c, w, WroteY(), "C", "B", "C");
    var s1 := TwiceWritten().(books := map[5 := BookTitled("B")]);
    assert Rollback(SameSpelling, TwiceWritten(), 7, es, [5]).s == s1;
    RollbackOfTwo(SameSpelling, s1, 7, WroteX(), WroteY(), [5]);
    RestoringTitle(c, Begin(s1), WroteX(), "B", "A", "B");
    RestoringTitle(c, Begin(s1).(s := s1.(books := map[5 := BookTitled("A")])), WroteY(), "A", "B", "C");
  }

  /** Items x and y wrote book 5, x from A to B and y back from B to A; a later run owns both links. */
  function WrittenBack(): Shelf {
    Store(map[5 := BookTitled("B")], map[BookKey("x") := Link(5, Some(8)), BookKey("y") := Link(5, Some(8))])
  }

  function WroteBack(): Entity { Entity(2, BookKey("y"), 5, Updated, 0, OfBook(BookTitled("B"), BookTitled("A"))) }

  /** Such rivals can cancel each other out: x is retried by every rollback, and none changes a row. */
  lemma RivalsCancelOut()
    ensures var s, es := WrittenBack(), [WroteX(), WroteBack()];
            && Rollback(SameSpelling, s, 7, es, [5]).s == s
            && Retried(SameSpelling, s, 7, WroteX()) && !NoForeignRivals(s, 7, es)
  {
    var s, es := WrittenBack(), [WroteX(), WroteBack()];
    var c := Ctx(7, PlanOf(es), [5]);
    RollbackOfTwo(SameSpelling, s, 7, WroteX(), WroteBack(), [5]);
    RestoringTitle(c, Begin(s), WroteX(), "B", "A", "B");
    RestoringTitle(c, Begin(s.(books := map[5 := BookTitled("A")])), WroteBack(), "A", "B", "A");
    FirstIsRetried();
    assert BothForeign(s, 7, es[0], es[1]);
  }

  lemma FirstIsRetried()
    ensures Retried(SameSpelling, WrittenBack(), 7, WroteX())
  {
    var s, e := WrittenBack(), WroteX();
    assert RestoreBook(SameSpelling, s.books[5], BookTitled("A"), BookTitled("B")) == BookTitled("A");
    assert !BookWriteConflicts(s, 5, BookTitled("A"));
    assert PutBack(SameSpelling, s.books[5], BookTitled("A"), BookTitled("B")).title == "A";
    assert "A"[0] == 'A' && "B"[0] == 'B';
  }

  // ----- two items, one run -----

  /** Items x and y both wrote book 5 in run 7, x from A to B and then y from B to C, and nobody edited it since. */
  function WrittenByTwoItems(): Shelf {
    Store(map[5 := BookTitled("C")], map[BookKey("x") := Link(5, Some(7)), BookKey("y") := Link(5, Some(7))])
  }

  function TwoItems(): RunBack { RunBack(7, [WroteX(), WroteY()], [5]) }

  /**
   * Rolling the run back ends at B and not at A, without a failure: x was recorded first, so its turn comes while y's
   * value is still there. Both links are gone, so no later rollback gets further.
   */
  lemma FirstItemIsNotUndone()
    ensures var w := RolledBack(SameSpelling, WrittenByTwoItems(), TwoItems());
            w.failed == 0 && w.s.books == map[5 := BookTitled("B")] && w.s.prov == map[]
  {
    var c, s := Ctx(7, PlanOf(TwoItems().es), [5]), WrittenByTwoItems();
    RollbackOfTwo(SameSpelling, s, 7, WroteX(), WroteY(), [5]);
    FirstItemGivesUpItsLink(c);
    SecondItemGoesBack(c, Step(SameSpelling, c, Begin(s), WroteX()));
  }

  lemma FirstItemGivesUpItsLink(c: Ctx)
    requires c.run == 7
    ensures var w := Step(SameSpelling, c, Begin(WrittenByTwoItems()), WroteX());
            && w.failed == 0 && w.s.books == map[5 := BookTitled("C")] && w.s.authors == map[1 := AUTHOR]
            && w.s.prov == map[BookKey("y") := Link(5, Some(7))]
  {
    Restoring(c, Begin(WrittenByTwoItems()), WroteX(), BookTitled("C"));
  }

  lemma SecondItemGoesBack(c: Ctx, w: Work)
    requires c.run == 7 && w.s.books == map[5 := BookTitled("C")] && w.s.authors == map[1 := AUTHOR]
    requires w.s.prov == map[BookKey("y") := Link(5, Some(7))]
    ensures var w' := Step(SameSpelling, c, w, WroteY());
            w'.failed == w.failed && w'.s.books == map[5 := BookTitled("B")] && w'.s.prov == map[]
  {
    Restoring(c, w, WroteY(), BookTitled("B"));
  }

  /** The run owns both links, and nothing stands in the way of its rollback. */
  lemma TwoItemsAreUndoable()
    ensures Undoable(WrittenByTwoItems(), [TwoItems()], BookKind, 5)
    ensures OwnItems(WrittenByTwoItems(), [TwoItems()], BookKind, 5)
  {
    TwoItemsAreReady();
    TwoItemsAreRecorded();
    TwoItemsStand();
    TwoItemsAreOwned();
  }

  lemma TwoItemsAreReady()
    ensures Ready(WrittenByTwoItems(), [TwoItems()], BookKind, 5)
  {
    assert !CreatesRow(TwoItems(), AuthorKind, 1);
    LoneBookIsReady(WrittenByTwoItems(), [TwoItems()], 0);
  }

  lemma TwoItemsAreOwned()
    ensures OwnItems(WrittenByTwoItems(), [TwoItems()], BookKind, 5)
  {
    assert OwnsItems(WrittenByTwoItems(), TwoItems(), BookKind, 5);
  }

  lemma TwoItemsStand()
    ensures Stays(WrittenByTwoItems(), [TwoItems()], BookKind, 5)
  {
    assert !CreatesRow(TwoItems(), BookKind, 5);
  }

  lemma TwoItemsAreRecorded()
    ensures RecordsAt(WrittenByTwoItems(), [TwoItems()], 0, BookKind, 5)
  {
    assert TwoItems().es[0] in TwoItems().es && TwoItems().es[1] in TwoItems().es;
  }

  // ----- one item, two runs -----

  /** Runs 7 and 8 wrote book 5 by the same item: from A to B, then from B to C. The row belongs to run 8. */
  function WrittenByTwoRuns(): Shelf { Store(map[5 := BookTitled("C")], map[BookKey("x") := Link(5, Some(8))]) }

  function WroteAgain(): Entity { Entity(2, BookKey("x"), 5, Updated, 0, OfBook(BookTitled("B"), BookTitled("C"))) }

  function OlderRun(): RunBack { RunBack(7, [WroteX()], [5]) }

  function NewerRun(): RunBack { RunBack(8, [WroteAgain()], [5]) }

  function TwoRuns(): seq<RunBack> { [OlderRun(), NewerRun()] }

  /**
   * Rolling back both, newest first, ends at B and not at A: undoing run 8 takes the row away, and run 7 is skipped.
   */
  lemma OlderRunIsSkipped()
    ensures RollbackAll(SameSpelling, WrittenByTwoRuns(), TwoRuns()).books == map[5 := BookTitled("B")]
  {
    NewerRunTakesTheRow();
    OlderRunFindsNoRow(RolledBack(SameSpelling, WrittenByTwoRuns(), NewerRun()).s);
    RollbackAllOfTwo(SameSpelling, WrittenByTwoRuns(), OlderRun(), NewerRun());
  }

  lemma TwoRunsShareTheItem()
    ensures SameItem(WrittenByTwoRuns(), TwoRuns(), BookKey("x"), 5)
  {
    OnlyWriter(WroteX());
    OnlyWriter(WroteAgain());
  }

  lemma OnlyWriter(e: Entity)
    requires RestoresAt(e, BookKind, 5)
    ensures RestoringAt([e], BookKind, 5) == [e]
  {
    assert [e][..0] == [];
  }

  lemma RollbackAllOfTwo(norm: string -> string, s: Shelf, older: RunBack, newer: RunBack)
    ensures RollbackAll(norm, s, [older, newer]) == RolledBack(norm, RolledBack(norm, s, newer).s, older).s
  {
    var s1 := RolledBack(norm, s, newer).s;
    assert [older, newer][..1] == [older] && [older][..0] == [];
    assert RollbackAll(norm, s1, [older]) == RollbackAll(norm, RolledBack(norm, s1, older).s, []);
  }

  lemma NewerRunTakesTheRow()
    ensures var s1 := RolledBack(SameSpelling, WrittenByTwoRuns(), NewerRun()).s;
            s1.books == map[5 := BookTitled("B")] && BookKey("x") !in s1.prov
  {
    RollbackOfOne(SameSpelling, WrittenByTwoRuns(), 8, WroteAgain(), [5]);
    Restoring(Ctx(8, PlanOf([WroteAgain()]), [5]), Begin(WrittenByTwoRuns()), WroteAgain(), BookTitled("B"));
  }

  lemma OlderRunFindsNoRow(s: Shelf)
    requires BookKey("x") !in s.prov
    ensures RolledBack(SameSpelling, s, OlderRun()).s == s
  {
    RollbackOfOne(SameSpelling, s, 7, WroteX(), [5]);
  }

  /** With one book and one author in the store and no run creating either, nothing stands in the way. */
  lemma LoneBookIsReady(s: Shelf, stack: seq<RunBack>, i: nat)
    requires i < |stack| && s.books.Keys == {5} && s.authors == map[1 := AUTHOR]
    requires forall j :: 0 <= j < |stack| ==> stack[j].order == [5] && !CreatesRow(stack[j], AuthorKind, 1)
    requires s.books[5].authorId == 1 && s.series == {} && s.members == {} && s.editions == map[]
    requires forall e :: e in stack[i].es && RestoresAt(e, BookKind, 5) ==> e.snapshot.before.authorId == 1
    ensures ReadyAt(s, stack, i, BookKind, 5)
  {
    var newer := stack[i + 1..];
    forall j | 0 <= j < |newer| ensures !CreatesRow(newer[j], AuthorKind, 1) { assert newer[j] == stack[i + 1 + j]; }
    assert Lasts(s, newer, 1);
  }

  lemma TwoRunsAreRecorded()
    ensures RecordsAll(WrittenByTwoRuns(), TwoRuns(), BookKind, 5)
  {
    var s, stack := WrittenByTwoRuns(), TwoRuns();
    forall i | 0 <= i < |stack| ensures RecordsAt(s, stack, i, BookKind, 5) {
      assert NewerRun().es[0] in NewerRun().es;
    }
  }

  lemma TwoRunsStand()
    ensures Stays(WrittenByTwoRuns(), TwoRuns(), BookKind, 5)
  {
    forall i | 0 <= i < |TwoRuns()| ensures !CreatesRowAt(TwoRuns(), i, BookKind, 5) {}
  }

  /** Nothing stands in the way of these two rollbacks. */
  lemma TwoRunsAreUndoable()
    ensures Undoable(WrittenByTwoRuns(), TwoRuns(), BookKind, 5)
    ensures SameItem(WrittenByTwoRuns(), TwoRuns(), BookKey("x"), 5)
  {
    TwoRunsShareTheItem();
    TwoRunsAreRecorded();
    TwoRunsStand();
    forall i | 0 <= i < |TwoRuns()| ensures ReadyAt(WrittenByTwoRuns(), TwoRuns(), i, BookKind, 5) {
      LoneBookIsReady(WrittenByTwoRuns(), TwoRuns(), i);
    }
  }

  // ----- a write refused by a key -----

  /** The run gave book 5 the id q in place of p, and book 6 the id p in place of r. */
  function PassedOn(): Shelf {
    Store(map[5 := BookNamed("q", "T"), 6 := BookNamed("p", "U")],
          map[BookKey("x") := Link(5, Some(7)), BookKey("y") := Link(6, Some(7))])
  }

  function GaveUpP(): Entity {
    Entity(1, BookKey("x"), 5, Updated, 0, OfBook(BookNamed("p", "T"), BookNamed("q", "T")))
  }

  function TookP(): Entity {
    Entity(2, BookKey("y"), 6, Updated, 0, OfBook(BookNamed("r", "U"), BookNamed("p", "U")))
  }

  lemma RefusedAtFirst(c: Ctx)
    requires c.run == 7
    ensures Step(SameSpelling, c, Begin(PassedOn()), GaveUpP()) == Begin(PassedOn()).(failed := 1)
  {
    var s := PassedOn();
    assert RestoreBook(SameSpelling, s.books[5], BookNamed("p", "T"), BookNamed("q", "T")) == BookNamed("p", "T");
    assert 6 in s.books && s.books[6].foreignId == "p";
    assert BookWriteConflicts(s, 5, BookNamed("p", "T"));
  }

  lemma FirstPass(c: Ctx)
    requires c.run == 7
    ensures var w := Step(SameSpelling, c, Step(SameSpelling, c, Begin(PassedOn()), GaveUpP()), TookP());
            && w.failed == 1 && w.s.books == Halfway() && w.s.authors == map[1 := AUTHOR]
            && w.s.prov == map[BookKey("x") := Link(5, Some(7))]
  {
    RefusedAtFirst(c);
    assert !BookWriteConflicts(PassedOn(), 6, BookNamed("r", "U"));
    Restoring(c, Begin(PassedOn()).(failed := 1), TookP(), BookNamed("r", "U"));
  }

  function Halfway(): map<Id, Book> { map[5 := BookNamed("q", "T"), 6 := BookNamed("r", "U")] }

  lemma SecondPass(c: Ctx, s: Shelf)
    requires c.run == 7 && s.books == Halfway() && s.authors == map[1 := AUTHOR]
    requires s.prov == map[BookKey("x") := Link(5, Some(7))]
    ensures Step(SameSpelling, c, Step(SameSpelling, c, Begin(s), GaveUpP()), TookP()).s.books ==
            map[5 := BookNamed("p", "T"), 6 := BookNamed("r", "U")]
  {
    assert !BookWriteConflicts(s, 5, BookNamed("p", "T"));
    Restoring(c, Begin(s), GaveUpP(), BookNamed("p", "T"));
    assert BookKey("y") !in s.prov;
  }

  /**
   * Book 5 cannot have p back while book 6 still has it, so that entity fails. Book 6 then gives p up, and a second
   * rollback of the same run puts p back on book 5: after a failure another pass may still change rows.
   */
  lemma RefusedThenRetried()
    ensures var es := [GaveUpP(), TookP()];
            var once := Rollback(SameSpelling, PassedOn(), 7, es, [5, 6]);
            && RivalsOwned(PassedOn(), 7, es) && once.failed == 1 && once.s.books == Halfway()
            && Rollback(SameSpelling, once.s, 7, es, [5, 6]).s.books ==
               map[5 := BookNamed("p", "T"), 6 := BookNamed("r", "U")]
  {
    var c := Ctx(7, PlanOf([GaveUpP(), TookP()]), [5, 6]);
    RollbackOfTwo(SameSpelling, PassedOn(), 7, GaveUpP(), TookP(), [5, 6]);
    FirstPass(c);
    SecondRollback(Rollback(SameSpelling, PassedOn(), 7, [GaveUpP(), TookP()], [5, 6]).s);
  }

  lemma SecondRollback(s: Shelf)
    requires s.books == Halfway() && s.authors == map[1 := AUTHOR] && s.prov == map[BookKey("x") := Link(5, Some(7))]
    ensures Rollback(SameSpelling, s, 7, [GaveUpP(), TookP()], [5, 6]).s.books ==
            map[5 := BookNamed("p", "T"), 6 := BookNamed("r", "U")]
  {
    RollbackOfTwo(SameSpelling, s, 7, GaveUpP(), TookP(), [5, 6]);
    SecondPass(Ctx(7, PlanOf([GaveUpP(), TookP()]), [5, 6]), s);
  }

  // ----- one edition, two runs -----

  function EditionKey(external: string): Key { Key("default", "lib", EditionKind, external) }

  /** Run 7 created edition 3 under item x; run 8 found it there under item y. */
  function SharedEdition(): Shelf {
    Store(map[5 := BookTitled("T")], map[EditionKey("x") := Link(3, Some(7)), EditionKey("y") := Link(3, Some(8))])
      .(editions := map[3 := 5])
  }

  function MadeEdition(): Entity { Entity(1, EditionKey("x"), 3, Created, 5, NoSnapshot) }

  /** Rolling back run 7 deletes the edition and the row of run 8 with it. */
  lemma SharedEditionGoes()
    ensures var s, s' := SharedEdition(), Rollback(SameSpelling, SharedEdition(), 7, [MadeEdition()], [5]).s;
            && Foreign(s, 7, EditionKey("y")) && 3 in s.editions
            && EditionKey("y") !in s'.prov && 3 !in s'.editions
  {
    RollbackOfOne(SameSpelling, SharedEdition(), 7, MadeEdition(), [5]);
    assert EditionKey("y") in RowsByLocal(DeleteEdition(SharedEdition(), 3), EditionKind, 3);
  }

  // ----- one external id, two local books -----

  /** Run 7 created book 5 under item x, then found x at book 6, which is gone by now; run 8 names book 5 by item y. */
  function Repointed(): Shelf {
    Store(map[5 := BookTitled("T")],
          map[BookKey("x") := Link(6, Some(7)), BookKey("y") := Link(5, Some(8)), AuthorKey() := Link(1, Some(7))])
  }

  function AuthorKey(): Key { Key("default", "lib", AuthorKind, "a") }

  function MadeBook(): Entity { Entity(1, BookKey("x"), 5, Created, 0, NoSnapshot) }

  function FoundElsewhere(): Entity {
    Entity(2, BookKey("x"), 6, Updated, 0, OfBook(BookNamed("c", "U"), BookNamed("c", "V")))
  }

  function MadeAuthor(): Entity { Entity(3, AuthorKey(), 1, Created, 0, NoSnapshot) }

  function RepointingRun(): seq<Entity> { [MadeBook(), FoundElsewhere(), MadeAuthor()] }

  lemma MadeAuthorRemovesBook(c: Ctx)
    requires c.run == 7 && c.bookOrder == [5] && 5 in c.plan.created && c.plan.created[5] == MadeBook()
    ensures BookKey("y") !in AuthorStep(c, Begin(Repointed()), MadeAuthor()).s.prov
    ensures 5 !in AuthorStep(c, Begin(Repointed()), MadeAuthor()).s.books
  {
    var s, w := Repointed(), Begin(Repointed());
    assert [5][..0] == [];
    assert BooksOf(s, 1, [5]) == BooksOf(s, 1, []) + [5];
    assert RunOwnsBook(c, s, 5);
    var w1 := RemoveBook(w, 5);
    assert RemoveRunBooks(c, w, [5]) == (w1, 0);
    MadeBookRowsGo();
  }

  lemma MadeBookRowsGo()
    ensures var s := RemoveBook(Begin(Repointed()), 5).s; 5 !in s.books && BookKey("y") !in s.prov
  {
    assert BookKey("y") in RowsByLocal(DeleteBook(Repointed(), 5), BookKind, 5);
  }

  lemma PlanOfRepointed()
    ensures var p := PlanOf(RepointingRun()); 5 in p.created && p.created[5] == MadeBook()
  {
    var es := RepointingRun();
    assert es[..2] == [MadeBook(), FoundElsewhere()] && es[..2][..1] == [MadeBook()] && [MadeBook()][..0] == [];
    assert PlanOf([MadeBook()]) == Noted(NO_PLAN, MadeBook());
    assert PlanOf(es[..2]) == Noted(PlanOf([MadeBook()]), FoundElsewhere());
  }

  lemma RepointedIsRecorded()
    ensures OwnRowsRecorded(Repointed(), 7, RepointingRun()) && DistinctEntities(RepointingRun())
    ensures StartsSane(Repointed(), [5])
  {
    var es := RepointingRun();
    forall k | k in Repointed().prov && Repointed().prov[k].run == Some(7)
      ensures exists e :: e in es && e.key == k && e.local == Repointed().prov[k].local
    {
      assert es[1] in es && es[2] in es;
    }
  }

  lemma BooksAreSkipped(c: Ctx)
    requires c.run == 7
    ensures Steps(SameSpelling, c, Begin(Repointed()), RepointingRun()) ==
            Step(SameSpelling, c, Begin(Repointed()), MadeAuthor())
  {
    var w := Begin(Repointed());
    assert RepointingRun()[..2] == [MadeBook(), FoundElsewhere()];
    StepsPair(SameSpelling, c, w, MadeBook(), FoundElsewhere());
    assert Step(SameSpelling, c, w, MadeBook()) == w;
    assert Step(SameSpelling, c, w, FoundElsewhere()) == w;
  }

  /**
   * The author branch deletes a book by asking only whether the run owns the row its entity recorded. With the row
   * pointed at a second book, which is gone, it deletes a book, and a provenance row, of another run, although the run
   * recorded every row it owns.
   */
  lemma AuthorBranchDeletesForeignBook()
    ensures var s, es := Repointed(), RepointingRun();
            && Foreign(s, 7, BookKey("y")) && NamesLiveRow(s, BookKey("y"))
            && OwnRowsRecorded(s, 7, es) && DistinctEntities(es) && StartsSane(s, [5])
            && BookKey("y") !in Rollback(SameSpelling, s, 7, es, [5]).s.prov
            && 5 !in Rollback(SameSpelling, s, 7, es, [5]).s.books
  {
    var es := RepointingRun();
    var c := Ctx(7, PlanOf(es), [5]);
    PlanOfRepointed();
    RepointedIsRecorded();
    SortedStays(es);
    BooksAreSkipped(c);
    MadeAuthorRemovesBook(c);
  }
}
