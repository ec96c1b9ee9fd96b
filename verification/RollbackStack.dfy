// Rolling back several runs, newest first: what one field of a row ends up as. An item keeps one provenance row, owned
// by the newest run that wrote it, so a rollback takes away the row that older runs of the same item would need; their
// snapshots are then skipped. Items of one run that wrote the same row are undone in the order they were recorded.

module RollbackStack {
  import opened Common
  import opened RollbackModel
  import opened RollbackProofs
  import opened RollbackDeletions
  import opened RollbackRepeat
  import opened RollbackFields
  import opened RollbackRows
  import opened RollbackUnwind
  import opened RollbackOutcome
  import opened RollbackFailures
  import opened RollbackCompleteness

  // ----- a stack of rollbacks -----

  /** A run to roll back: its entities and the order in which the store lists books by then. */
  datatype RunBack = RunBack(run: Id, es: seq<Entity>, order: seq<Id>)

  function RolledBack(norm: string -> string, s: Shelf, r: RunBack): Work { Rollback(norm, s, r.run, r.es, r.order) }

  /** The newest (last) run is rolled back first. */
  function RollbackAll(norm: string -> string, s: Shelf, stack: seq<RunBack>): Shelf
    decreases |stack|
  {
    if stack == [] then s else RollbackAll(norm, RolledBack(norm, s, stack[|stack| - 1]).s, stack[..|stack| - 1])
  }

  /** Every entity of every run. */
  function EntitiesOf(stack: seq<RunBack>): seq<Entity> {
    if stack == [] then [] else EntitiesOf(stack[..|stack| - 1]) + stack[|stack| - 1].es
  }

  /** The run recorded what it did to the row, each item once, and every link of the row it owns. */
  ghost predicate Records(s: Shelf, r: RunBack, kind: Kind, id: Id) {
    && DistinctEntities(r.es) && Tracked(s, r.run, r.es, kind, id)
    && forall e :: e in r.es && RestoresAt(e, kind, id) ==> HasMedia(BeforeOf(e))
  }

  ghost predicate RecordsAll(s: Shelf, stack: seq<RunBack>, kind: Kind, id: Id) {
    forall i :: 0 <= i < |stack| ==> RecordsAt(s, stack, i, kind, id)
  }

  ghost predicate RecordsAt(s: Shelf, stack: seq<RunBack>, i: nat, kind: Kind, id: Id)
    requires i < |stack|
  {
    Records(s, stack[i], kind, id)
  }

  predicate CreatesRow(r: RunBack, kind: Kind, id: Id) {
    exists e :: e in r.es && e.key.kind == kind && e.outcome == Created && e.local == id
  }

  /** The author is in the store, and none of these runs created it. */
  ghost predicate Lasts(s: Shelf, newer: seq<RunBack>, a: Id) {
    a in s.authors && forall i :: 0 <= i < |newer| ==> !CreatesRow(newer[i], AuthorKind, a)
  }

  /** The jth run created this book and still owns its row, nobody else names it, so rolling the run back deletes it. */
  ghost predicate Doomed(s: Shelf, stack: seq<RunBack>, j: nat, b: Id)
    requires j < |stack|
  {
    var r := stack[j];
    && DistinctEntities(r.es) && !HasOutside(s, BookKind, b, r.run)
    && (forall i :: j < i < |stack| ==> stack[i].run != r.run)
    && exists e :: e in r.es && e.key.kind == BookKind && e.outcome == Created && e.local == b && Owned(s, r.run, e)
  }

  /**
   * Nothing may stand in the way of what the ith run's entity e puts back: a book's author lasts until then, and of the
   * other books that may have the foreign id to put back each is deleted before.
   */
  ghost predicate WriteReady(s: Shelf, stack: seq<RunBack>, i: nat, e: Entity)
    requires i < |stack|
  {
    var since := EntitiesOf(stack[i..]);
    Matches(s, e) ==>
      && (RestoresBook(e) ==>
            && Lasts(s, stack[i + 1..], e.snapshot.before.authorId)
            && forall c :: c != e.local && BookIdOf(s, since, c, e.snapshot.before.foreignId) ==>
                 DoomedByNewer(s, stack, i, c))
      && (RestoresAuthor(e) ==> AuthorApart(s, since, e.local))
  }

  ghost predicate DoomedByNewer(s: Shelf, stack: seq<RunBack>, i: nat, b: Id) {
    exists j :: i < j < |stack| && Doomed(s, stack, j, b)
  }

  /** What the store and the runs satisfy before the first rollback; nothing is asked of what a rollback returns. */
  ghost predicate Ready(s: Shelf, stack: seq<RunBack>, kind: Kind, id: Id) {
    && MediaFilled(s) && Filed(s) && UniqueBookIds(s)
    && forall i :: 0 <= i < |stack| ==> ReadyAt(s, stack, i, kind, id)
  }

  ghost predicate ReadyAt(s: Shelf, stack: seq<RunBack>, i: nat, kind: Kind, id: Id)
    requires i < |stack|
  {
    && StartsSane(s, stack[i].order)
    && forall e :: e in RestoringAt(stack[i].es, kind, id) ==> WriteReady(s, stack, i, e)
  }

  /** The row is there, and no run of the stack created it. */
  ghost predicate Stays(s: Shelf, stack: seq<RunBack>, kind: Kind, id: Id) {
    && HasRows(kind) && id != 0 && RowAt(s, kind, id).Some?
    && forall i :: 0 <= i < |stack| ==> !CreatesRowAt(stack, i, kind, id)
  }

  predicate CreatesRowAt(stack: seq<RunBack>, i: nat, kind: Kind, id: Id)
    requires i < |stack|
  {
    CreatesRow(stack[i], kind, id)
  }

  /** The field belongs to rows of this kind. */
  predicate OfKind(f: RowField, kind: Kind) { HasRows(kind) && (f.BookField? <==> kind == BookKind) }

  ghost predicate Undoable(s: Shelf, stack: seq<RunBack>, kind: Kind, id: Id) {
    Ready(s, stack, kind, id) && RecordsAll(s, stack, kind, id) && Stays(s, stack, kind, id)
  }

  // ----- what the runs did to a field -----

  /** The entity's provenance row names the row at the start, and belongs to none of these newer runs. */
  predicate Honoured(s: Shelf, newer: seq<RunBack>, e: Entity) {
    Matches(s, e) && forall j :: 0 <= j < |newer| ==> s.prov[e.key].run != Some(newer[j].run)
  }

  function ChangeOf(norm: string -> string, e: Entity, f: RowField, honoured: bool): Change
    requires Restores(e) && FieldFits(f, BeforeOf(e))
  {
    Change(Shows(norm, BeforeOf(e), f), Shows(norm, AfterOf(e), f), honoured)
  }

  /** What entities of the row did to the field, in the order they were recorded. */
  function ChangesBy(norm: string -> string, s: Shelf, es: seq<Entity>, newer: seq<RunBack>, kind: Kind, id: Id,
                     f: RowField): (changes: seq<Change>)
    requires OfKind(f, kind) && forall e :: e in es ==> RestoresAt(e, kind, id)
    ensures |changes| == |es|
  {
    seq(|es|, j requires 0 <= j < |es| =>
      assert RestoresAt(es[j], kind, id);
      ChangeOf(norm, es[j], f, Stores(f) && Honoured(s, newer, es[j])))
  }

  /** The changes the stack made to the field, run by run. */
  function Changes(norm: string -> string, s: Shelf, stack: seq<RunBack>, kind: Kind, id: Id, f: RowField)
    : (changes: seq<seq<Change>>)
    requires OfKind(f, kind)
    ensures |changes| == |stack|
  {
    seq(|stack|, i requires 0 <= i < |stack| =>
      ChangesBy(norm, s, RestoringAt(stack[i].es, kind, id), stack[i + 1..], kind, id, f))
  }

  /** The entities that wrote the row, oldest run first. */
  function Writers(stack: seq<RunBack>, kind: Kind, id: Id): (writers: seq<Entity>)
    ensures forall e :: e in writers ==> RestoresAt(e, kind, id)
  {
    if stack == [] then [] else Writers(stack[..|stack| - 1], kind, id) + RestoringAt(stack[|stack| - 1].es, kind, id)
  }

  /** The value the field had before the oldest run that wrote the row. */
  function Original(norm: string -> string, stack: seq<RunBack>, kind: Kind, id: Id, f: RowField): Value
    requires OfKind(f, kind) && Writers(stack, kind, id) != []
  {
    assert Writers(stack, kind, id)[0] in Writers(stack, kind, id);
    Shows(norm, BeforeOf(Writers(stack, kind, id)[0]), f)
  }

  /** The changes are those of these runs, as far as the values go. */
  predicate ChangedFrom(norm: string -> string, changes: seq<seq<Change>>, stack: seq<RunBack>, kind: Kind, id: Id,
                        f: RowField)
    requires OfKind(f, kind)
  {
    && |changes| == |stack|
    && forall i :: 0 <= i < |stack| ==> StartsFrom(norm, changes[i], RestoringAt(stack[i].es, kind, id), kind, id, f)
  }

  predicate StartsFrom(norm: string -> string, run: seq<Change>, es: seq<Entity>, kind: Kind, id: Id, f: RowField)
    requires OfKind(f, kind) && forall e :: e in es ==> RestoresAt(e, kind, id)
  {
    |run| == |es| && (es != [] ==> RestoresAt(es[0], kind, id) && run[0].before == Shows(norm, BeforeOf(es[0]), f))
  }

  lemma {:induction false} HistoryStartsFrom(norm: string -> string, changes: seq<seq<Change>>, stack: seq<RunBack>,
                                             kind: Kind, id: Id, f: RowField)
    requires OfKind(f, kind) && ChangedFrom(norm, changes, stack, kind, id, f)
    ensures StartsFrom(norm, History(changes), Writers(stack, kind, id), kind, id, f)
    decreases |stack|
  {
    if stack != [] {
      var older, before := stack[..|stack| - 1], changes[..|stack| - 1];
      OlderChangedFrom(norm, changes, stack, kind, id, f);
      HistoryStartsFrom(norm, before, older, kind, id, f);
      JoinedStartsFrom(norm, History(before), changes[|stack| - 1], Writers(older, kind, id),
                       RestoringAt(stack[|stack| - 1].es, kind, id), kind, id, f);
    }
  }

  lemma OlderChangedFrom(norm: string -> string, changes: seq<seq<Change>>, stack: seq<RunBack>, kind: Kind, id: Id,
                         f: RowField)
    requires OfKind(f, kind) && stack != [] && ChangedFrom(norm, changes, stack, kind, id, f)
    ensures ChangedFrom(norm, changes[..|stack| - 1], stack[..|stack| - 1], kind, id, f)
    ensures StartsFrom(norm, changes[|stack| - 1], RestoringAt(stack[|stack| - 1].es, kind, id), kind, id, f)
  {
    var older, before := stack[..|stack| - 1], changes[..|stack| - 1];
    forall i | 0 <= i < |older| ensures StartsFrom(norm, before[i], RestoringAt(older[i].es, kind, id), kind, id, f) {
      assert older[i] == stack[i] && before[i] == changes[i];
    }
  }

  lemma JoinedStartsFrom(norm: string -> string, older: seq<Change>, newer: seq<Change>, es: seq<Entity>,
                         fs: seq<Entity>, kind: Kind, id: Id, f: RowField)
    requires OfKind(f, kind) && forall e :: e in es + fs ==> RestoresAt(e, kind, id)
    requires (forall e :: e in es ==> RestoresAt(e, kind, id)) && (forall e :: e in fs ==> RestoresAt(e, kind, id))
    requires StartsFrom(norm, older, es, kind, id, f) && StartsFrom(norm, newer, fs, kind, id, f)
    ensures StartsFrom(norm, older + newer, es + fs, kind, id, f)
  {
    if es == [] {
      assert older + newer == newer && es + fs == fs;
    } else {
      assert (es + fs)[0] == es[0] && (older + newer)[0] == older[0];
    }
  }

  lemma HistoryStartsAtTheOriginal(norm: string -> string, s: Shelf, stack: seq<RunBack>, kind: Kind, id: Id,
                                   f: RowField, v: Value)
    requires OfKind(f, kind) && Writers(stack, kind, id) != []
    ensures Start(History(Changes(norm, s, stack, kind, id, f)), v) == Original(norm, stack, kind, id, f)
  {
    var changes := Changes(norm, s, stack, kind, id, f);
    forall i | 0 <= i < |stack| ensures StartsFrom(norm, changes[i], RestoringAt(stack[i].es, kind, id), kind, id, f) {
      ChangesByStarts(norm, s, RestoringAt(stack[i].es, kind, id), stack[i + 1..], kind, id, f);
    }
    HistoryStartsFrom(norm, changes, stack, kind, id, f);
  }

  lemma ChangesByStarts(norm: string -> string, s: Shelf, es: seq<Entity>, newer: seq<RunBack>, kind: Kind, id: Id,
                        f: RowField)
    requires OfKind(f, kind) && forall e :: e in es ==> RestoresAt(e, kind, id)
    ensures StartsFrom(norm, ChangesBy(norm, s, es, newer, kind, id, f), es, kind, id, f)
  {
    assert es != [] ==> es[0] in es;
  }

  // ----- rolling back the newest run -----

  lemma EntitiesOfNewest(stack: seq<RunBack>)
    requires stack != []
    ensures EntitiesOf(stack[|stack| - 1..]) == stack[|stack| - 1].es
  {
    assert stack[|stack| - 1..][..0] == [];
  }

  lemma NewestPasses(norm: string -> string, s: Shelf, stack: seq<RunBack>, kind: Kind, id: Id)
    requires stack != [] && Ready(s, stack, kind, id)
    ensures var r := stack[|stack| - 1]; RowPasses(norm, s, r.run, r.es, r.order, kind, id)
  {
    var r := stack[|stack| - 1];
    assert ReadyAt(s, stack, |stack| - 1, kind, id);
    EntitiesOfNewest(stack);
    forall e | e in r.es && RestoresAt(e, kind, id) ensures Passes(norm, s, r.run, r.es, r.order, e) {
      assert WriteReady(s, stack, |stack| - 1, e);
      FreeWritePasses(norm, s, r.run, r.es, r.order, e);
    }
  }

  lemma NewestKeepsRow(norm: string -> string, s: Shelf, stack: seq<RunBack>, kind: Kind, id: Id)
    requires stack != [] && Ready(s, stack, kind, id) && Stays(s, stack, kind, id)
    ensures Stays(RolledBack(norm, s, stack[|stack| - 1]).s, stack[..|stack| - 1], kind, id)
  {
    var r, older := stack[|stack| - 1], stack[..|stack| - 1];
    assert ReadyAt(s, stack, |stack| - 1, kind, id) && !CreatesRowAt(stack, |stack| - 1, kind, id);
    forall i | 0 <= i < |older| ensures !CreatesRowAt(older, i, kind, id) {
      assert !CreatesRowAt(stack, i, kind, id);
    }
    OnlyOwnRowsAreDeleted(norm, s, r.run, r.es, r.order);
  }

  /** A book that rolling back an older run deletes is gone after the newest, or still to be deleted. */
  lemma DoomedStays(norm: string -> string, s: Shelf, stack: seq<RunBack>, i: nat, c: Id)
    requires stack != [] && i + 1 < |stack| && DoomedByNewer(s, stack, i, c)
    requires c in RolledBack(norm, s, stack[|stack| - 1]).s.books
    ensures DoomedByNewer(RolledBack(norm, s, stack[|stack| - 1]).s, stack[..|stack| - 1], i, c)
  {
    var r, older := stack[|stack| - 1], stack[..|stack| - 1];
    var j :| i < j < |stack| && Doomed(s, stack, j, c);
    var e :| e in stack[j].es && e.key.kind == BookKind && e.outcome == Created && e.local == c
             && Owned(s, stack[j].run, e);
    if j == |older| {
      UnretainedBookIsDeleted(norm, s, r.run, r.es, r.order, e);
    } else {
      var c' := Ctx(r.run, PlanOf(SortByRank(r.es)), r.order);
      StepsKeepForeignLink(norm, c', Begin(s), SortByRank(r.es), e.key, c);
      StepsShrink(norm, c', Begin(s), SortByRank(r.es));
      ShrinkingKeepsNoOutside(s, RolledBack(norm, s, r).s, BookKind, c, stack[j].run);
      assert older[j] == stack[j] && Doomed(RolledBack(norm, s, r).s, older, j, c);
    }
  }

  /** Whatever the older runs and the ids of the rows have to do with each other, it was so before. */
  lemma NewestTraces(norm: string -> string, s: Shelf, stack: seq<RunBack>, i: nat)
    requires i + 1 < |stack|
    ensures var s', older := RolledBack(norm, s, stack[|stack| - 1]).s, EntitiesOf(stack[..|stack| - 1][i..]);
            && Shrinks(s, s')
            && (forall b, p :: BookIdOf(s', older, b, p) ==> BookIdOf(s, EntitiesOf(stack[i..]), b, p))
            && (forall a, p :: AuthorIdOf(s', older, a, p) ==> AuthorIdOf(s, EntitiesOf(stack[i..]), a, p))
  {
    var r, all := stack[|stack| - 1], EntitiesOf(stack[i..]);
    var s' := RolledBack(norm, s, r).s;
    assert stack[i..][..|stack| - i - 1] == stack[..|stack| - 1][i..];
    assert all == EntitiesOf(stack[..|stack| - 1][i..]) + r.es;
    RollbackTraces(norm, s, r.run, r.es, r.order, all);
    TracedIds(s, all, s');
    SameEntitiesSameIds(s', all, EntitiesOf(stack[..|stack| - 1][i..]));
  }

  lemma TracedIds(s: Shelf, all: seq<Entity>, s': Shelf)
    requires Traced(s, all, s')
    ensures forall b, p :: BookIdOf(s', all, b, p) ==> BookIdOf(s, all, b, p)
    ensures forall a, p :: AuthorIdOf(s', all, a, p) ==> AuthorIdOf(s, all, a, p)
  {
    forall b, p | BookIdOf(s', all, b, p) ensures BookIdOf(s, all, b, p) {
      if i :| 0 <= i < |all| && PutsBackBookId(s', all[i], b, p) { assert PutsBackBookId(s, all[i], b, p); }
    }
    forall a, p | AuthorIdOf(s', all, a, p) ensures AuthorIdOf(s, all, a, p) {
      if i :| 0 <= i < |all| && PutsBackAuthorId(s', all[i], a, p) { assert PutsBackAuthorId(s, all[i], a, p); }
    }
  }

  lemma NewestKeepsLasting(norm: string -> string, s: Shelf, stack: seq<RunBack>, i: nat, a: Id)
    requires i + 1 < |stack| && StartsSane(s, stack[|stack| - 1].order) && Lasts(s, stack[i + 1..], a)
    ensures Lasts(RolledBack(norm, s, stack[|stack| - 1]).s, stack[..|stack| - 1][i + 1..], a)
  {
    var r, newer := stack[|stack| - 1], stack[i + 1..];
    OnlyOwnRowsAreDeleted(norm, s, r.run, r.es, r.order);
    assert newer[|newer| - 1] == r && !CreatesRow(newer[|newer| - 1], AuthorKind, a);
    assert newer[..|newer| - 1] == stack[..|stack| - 1][i + 1..];
  }

  lemma NewestKeepsWriteReady(norm: string -> string, s: Shelf, stack: seq<RunBack>, i: nat, e: Entity)
    requires i + 1 < |stack| && StartsSane(s, stack[|stack| - 1].order) && WriteReady(s, stack, i, e)
    ensures WriteReady(RolledBack(norm, s, stack[|stack| - 1]).s, stack[..|stack| - 1], i, e)
  {
    var s', older := RolledBack(norm, s, stack[|stack| - 1]).s, stack[..|stack| - 1];
    NewestTraces(norm, s, stack, i);
    if Matches(s', e) && RestoresBook(e) {
      var p := e.snapshot.before.foreignId;
      NewestKeepsLasting(norm, s, stack, i, e.snapshot.before.authorId);
      forall c | c != e.local && BookIdOf(s', EntitiesOf(older[i..]), c, p) ensures DoomedByNewer(s', older, i, c) {
        DoomedStays(norm, s, stack, i, c);
      }
    }
    if Matches(s', e) && RestoresAuthor(e) {
      assert AuthorApart(s, EntitiesOf(stack[i..]), e.local);
      assert AuthorApart(s', EntitiesOf(older[i..]), e.local);
    }
  }

  lemma NewestKeepsReady(norm: string -> string, s: Shelf, stack: seq<RunBack>, kind: Kind, id: Id)
    requires stack != [] && Ready(s, stack, kind, id)
    ensures Ready(RolledBack(norm, s, stack[|stack| - 1]).s, stack[..|stack| - 1], kind, id)
  {
    var r, older := stack[|stack| - 1], stack[..|stack| - 1];
    var s' := RolledBack(norm, s, r).s;
    assert ReadyAt(s, stack, |stack| - 1, kind, id);
    RollbackKeepsFiled(norm, s, r.run, r.es, r.order);
    OnlyOwnRowsAreDeleted(norm, s, r.run, r.es, r.order);
    StepsKeepMedia(norm, Ctx(r.run, PlanOf(SortByRank(r.es)), r.order), Begin(s), SortByRank(r.es));
    StepsKeepUnique(norm, Ctx(r.run, PlanOf(SortByRank(r.es)), r.order), Begin(s), SortByRank(r.es));
    forall i | 0 <= i < |older| ensures ReadyAt(s', older, i, kind, id) {
      assert ReadyAt(s, stack, i, kind, id) && older[i] == stack[i];
      forall e | e in RestoringAt(older[i].es, kind, id) ensures WriteReady(s', older, i, e) {
        NewestKeepsWriteReady(norm, s, stack, i, e);
      }
    }
  }

  /** The older runs look at the rows that the newest did not own. */
  lemma OlderAreHonoured(s: Shelf, s': Shelf, newer: seq<RunBack>, newest: RunBack, e: Entity, kind: Kind, id: Id)
    requires RestoresAt(e, kind, id) && Shrinks(s, s') && LosesRunLinks(s, s', newest.run, kind, id)
    ensures Honoured(s', newer, e) <==> Honoured(s, newer + [newest], e)
  {
    var k, all := e.key, newer + [newest];
    assert Links(s', k, id) <==> Links(s, k, id) && s.prov[k].run != Some(newest.run);
    if Matches(s, e) {
      assert (forall j :: 0 <= j < |all| ==> s.prov[k].run != Some(all[j].run)) <==>
             (forall j :: 0 <= j < |newer| ==> s.prov[k].run != Some(newer[j].run)) &&
             s.prov[k].run != Some(newest.run) by {
        assert all[|newer|] == newest;
        assert forall j :: 0 <= j < |newer| ==> all[j] == newer[j];
      }
    }
  }

  lemma TrackedStays(s: Shelf, s': Shelf, r: RunBack, kind: Kind, id: Id)
    requires Shrinks(s, s') && Tracked(s, r.run, r.es, kind, id)
    ensures Tracked(s', r.run, r.es, kind, id)
  {
    forall k: Key | k.kind == kind && Links(s', k, id) && s'.prov[k].run == Some(r.run)
      ensures exists e :: e in r.es && e.key == k && e.local == id
    {
      assert Links(s, k, id);
    }
  }

  /** One rollback, one field: the run's changes are undone in the order they were recorded. */
  lemma {:induction false} FoldedField(norm: string -> string, s: Shelf, row: Row, es: seq<Entity>, kind: Kind, id: Id,
                                       f: RowField)
    requires Idempotent(norm) && OfKind(f, kind) && (row.BookRow? <==> kind == BookKind) && HasMedia(row)
    requires forall e :: e in es ==> RestoresAt(e, kind, id) && HasMedia(BeforeOf(e))
    ensures HasMedia(Folded(norm, s, row, es, kind, id))
    ensures Shows(norm, Folded(norm, s, row, es, kind, id), f) ==
            UndoRun(Shows(norm, row, f), ChangesBy(norm, s, es, [], kind, id, f))
  {
    if es != [] {
      var front, last := es[..|es| - 1], es[|es| - 1];
      assert last in es && forall e :: e in front ==> e in es;
      FoldedField(norm, s, row, front, kind, id, f);
      ChangesByFront(norm, s, es, kind, id, f);
      RestoredOnce(norm, s, Folded(norm, s, row, front, kind, id), last, kind, id, f);
    }
  }

  lemma ChangesByFront(norm: string -> string, s: Shelf, es: seq<Entity>, kind: Kind, id: Id, f: RowField)
    requires OfKind(f, kind) && es != [] && forall e :: e in es ==> RestoresAt(e, kind, id)
    ensures forall e :: e in es[..|es| - 1] ==> RestoresAt(e, kind, id)
    ensures RestoresAt(es[|es| - 1], kind, id)
    ensures var changes := ChangesBy(norm, s, es, [], kind, id, f);
            && changes[..|es| - 1] == ChangesBy(norm, s, es[..|es| - 1], [], kind, id, f)
            && changes[|es| - 1] == ChangeOf(norm, es[|es| - 1], f, Stores(f) && Matches(s, es[|es| - 1]))
  {
    assert es[|es| - 1] in es && forall e :: e in es[..|es| - 1] ==> e in es;
  }

  lemma RestoredOnce(norm: string -> string, s: Shelf, row: Row, e: Entity, kind: Kind, id: Id, f: RowField)
    requires Idempotent(norm) && OfKind(f, kind) && (row.BookRow? <==> kind == BookKind) && HasMedia(row)
    requires RestoresAt(e, kind, id) && HasMedia(BeforeOf(e))
    ensures var after := if Matches(s, e) then RestoredRow(norm, row, e) else row;
            && HasMedia(after)
            && Shows(norm, after, f) ==
               Undone(Shows(norm, row, f), ChangeOf(norm, e, f, Stores(f) && Matches(s, e)))
  {
    RestoredField(norm, row, e, f);
  }

  lemma NewestChangesRow(norm: string -> string, s: Shelf, stack: seq<RunBack>, kind: Kind, id: Id, f: RowField)
    requires Idempotent(norm) && stack != [] && Undoable(s, stack, kind, id) && OfKind(f, kind)
    ensures var r := stack[|stack| - 1];
            var s' := RolledBack(norm, s, r).s;
            && RowAt(s', kind, id).Some?
            && Now(norm, s', kind, id, f) ==
               UndoRun(Now(norm, s, kind, id, f), Changes(norm, s, stack, kind, id, f)[|stack| - 1])
  {
    var r := stack[|stack| - 1];
    assert RecordsAt(s, stack, |stack| - 1, kind, id) && stack[|stack|..] == [];
    NewestKeepsRow(norm, s, stack, kind, id);
    NewestPasses(norm, s, stack, kind, id);
    RollbackRestoresRow(norm, s, r.run, r.es, r.order, kind, id);
    FoldedField(norm, s, RowAt(s, kind, id).value, RestoringAt(r.es, kind, id), kind, id, f);
  }

  lemma NewestLeavesTheRest(norm: string -> string, s: Shelf, stack: seq<RunBack>, kind: Kind, id: Id, f: RowField)
    requires Idempotent(norm) && stack != [] && Undoable(s, stack, kind, id) && OfKind(f, kind)
    ensures var older, s' := stack[..|stack| - 1], RolledBack(norm, s, stack[|stack| - 1]).s;
            && Undoable(s', older, kind, id)
            && Changes(norm, s', older, kind, id, f) == Changes(norm, s, stack, kind, id, f)[..|stack| - 1]
  {
    var r, older := stack[|stack| - 1], stack[..|stack| - 1];
    var s' := RolledBack(norm, s, r).s;
    assert RecordsAt(s, stack, |stack| - 1, kind, id);
    NewestPasses(norm, s, stack, kind, id);
    NewestKeepsReady(norm, s, stack, kind, id);
    NewestKeepsRow(norm, s, stack, kind, id);
    RollbackRemovesOwnLinks(norm, s, r.run, r.es, r.order, kind, id);
    forall i | 0 <= i < |older| ensures RecordsAt(s', older, i, kind, id) {
      assert RecordsAt(s, stack, i, kind, id) && older[i] == stack[i];
      TrackedStays(s, s', stack[i], kind, id);
    }
    OlderChanges(norm, s, s', stack, kind, id, f);
  }

  lemma OlderChanges(norm: string -> string, s: Shelf, s': Shelf, stack: seq<RunBack>, kind: Kind, id: Id, f: RowField)
    requires stack != [] && OfKind(f, kind) && Shrinks(s, s')
    requires LosesRunLinks(s, s', stack[|stack| - 1].run, kind, id)
    ensures Changes(norm, s', stack[..|stack| - 1], kind, id, f) ==
            Changes(norm, s, stack, kind, id, f)[..|stack| - 1]
  {
    var r, older := stack[|stack| - 1], stack[..|stack| - 1];
    forall i | 0 <= i < |older|
      ensures Changes(norm, s', older, kind, id, f)[i] == Changes(norm, s, stack, kind, id, f)[i]
    {
      assert stack[i + 1..] == older[i + 1..] + [r];
      OlderRunChanges(norm, s, s', RestoringAt(stack[i].es, kind, id), older[i + 1..], r, kind, id, f);
    }
  }

  lemma OlderRunChanges(norm: string -> string, s: Shelf, s': Shelf, es: seq<Entity>, newer: seq<RunBack>,
                        newest: RunBack, kind: Kind, id: Id, f: RowField)
    requires OfKind(f, kind) && Shrinks(s, s') && LosesRunLinks(s, s', newest.run, kind, id)
    requires forall e :: e in es ==> RestoresAt(e, kind, id)
    ensures ChangesBy(norm, s', es, newer, kind, id, f) == ChangesBy(norm, s, es, newer + [newest], kind, id, f)
  {
    forall j | 0 <= j < |es| ensures Honoured(s', newer, es[j]) <==> Honoured(s, newer + [newest], es[j]) {
      OlderAreHonoured(s, s', newer, newest, es[j], kind, id);
    }
  }

  /** What the row shows in the field after the whole stack is rolled back. */
  function Final(norm: string -> string, s: Shelf, stack: seq<RunBack>, kind: Kind, id: Id,
                 f: RowField): Option<Value> {
    match RowAt(RollbackAll(norm, s, stack), kind, id)
    case None => None
    case Some(row) => if FieldFits(f, row) then Some(Shows(norm, row, f)) else None
  }

  /** What it shows now. */
  function Now(norm: string -> string, s: Shelf, kind: Kind, id: Id, f: RowField): Value
    requires RowAt(s, kind, id).Some? && OfKind(f, kind)
  {
    Shows(norm, RowAt(s, kind, id).value, f)
  }

  /**
   * Main result: rolling a stack of runs back newest first leaves the row in the store, and unwinds in each field the
   * changes whose provenance row does not belong to a newer run of the stack, those of one run first recorded first.
   */
  lemma {:induction false} StackOfRollbacks(norm: string -> string, s: Shelf, stack: seq<RunBack>, kind: Kind, id: Id,
                                            f: RowField)
    requires Idempotent(norm) && Undoable(s, stack, kind, id) && OfKind(f, kind)
    ensures Final(norm, s, stack, kind, id, f) ==
            Some(Unwind(Now(norm, s, kind, id, f), Changes(norm, s, stack, kind, id, f)))
    decreases |stack|
  {
    if stack != [] {
      NewestLeavesTheRest(norm, s, stack, kind, id, f);
      NewestChangesRow(norm, s, stack, kind, id, f);
      StackOfRollbacks(norm, RolledBack(norm, s, stack[|stack| - 1]).s, stack[..|stack| - 1], kind, id, f);
      FinalAfterNewest(norm, s, stack, kind, id, f);
      UnwindNewest(Now(norm, s, kind, id, f), Changes(norm, s, stack, kind, id, f));
    }
  }

  lemma FinalAfterNewest(norm: string -> string, s: Shelf, stack: seq<RunBack>, kind: Kind, id: Id, f: RowField)
    requires stack != []
    ensures Final(norm, s, stack, kind, id, f) ==
            Final(norm, RolledBack(norm, s, stack[|stack| - 1]).s, stack[..|stack| - 1], kind, id, f)
  {
  }

  lemma UnwindNewest(v: Value, changes: seq<seq<Change>>)
    requires changes != []
    ensures Unwind(v, changes) == Unwind(UndoRun(v, changes[|changes| - 1]), changes[..|changes| - 1])
  {
  }

  // ----- when the original comes back -----

  /**
   * Main result: a field nobody edited gets its original value back when every change without a row of its own did
   * nothing to it and no run changed it by two of its items; and only then, unless a run brought back a value that an
   * earlier change had replaced.
   */
  lemma UneditedComesBack(norm: string -> string, s: Shelf, stack: seq<RunBack>, kind: Kind, id: Id, f: RowField)
    requires Idempotent(norm) && Undoable(s, stack, kind, id) && OfKind(f, kind) && Writers(stack, kind, id) != []
    requires Unedited(Now(norm, s, kind, id, f), History(Changes(norm, s, stack, kind, id, f)))
    ensures var changes, original := Changes(norm, s, stack, kind, id, f), Original(norm, stack, kind, id, f);
            && (DroppedAreIdle(History(changes)) && ChangedOnceEach(changes) ==>
                  Final(norm, s, stack, kind, id, f) == Some(original))
            && (NeverReturns(History(changes)) ==>
                  (Final(norm, s, stack, kind, id, f) == Some(original) <==>
                   DroppedAreIdle(History(changes)) && ChangedOnceEach(changes)))
  {
    var v, changes := Now(norm, s, kind, id, f), Changes(norm, s, stack, kind, id, f);
    StackOfRollbacks(norm, s, stack, kind, id, f);
    HistoryStartsAtTheOriginal(norm, s, stack, kind, id, f, v);
    UneditedUnwinds(v, changes);
  }

  /** Every run still owns the provenance rows of its own items, and they are different runs. */
  predicate OwnItems(s: Shelf, stack: seq<RunBack>, kind: Kind, id: Id) {
    && (forall i :: 0 <= i < |stack| ==> OwnsItems(s, stack[i], kind, id))
    && (forall i, j :: 0 <= i < j < |stack| ==> stack[i].run != stack[j].run)
  }

  predicate OwnsItems(s: Shelf, r: RunBack, kind: Kind, id: Id) {
    forall e :: e in RestoringAt(r.es, kind, id) ==> Owned(s, r.run, e)
  }

  /** Runs that came to the row by different items are undone to the start unless two items of one run changed it. */
  lemma OwnItemsComeBack(norm: string -> string, s: Shelf, stack: seq<RunBack>, kind: Kind, id: Id, f: RowField)
    requires Idempotent(norm) && Undoable(s, stack, kind, id) && OfKind(f, kind) && Writers(stack, kind, id) != []
    requires Stores(f) && OwnItems(s, stack, kind, id)
    requires Unedited(Now(norm, s, kind, id, f), History(Changes(norm, s, stack, kind, id, f)))
    ensures var changes, original := Changes(norm, s, stack, kind, id, f), Original(norm, stack, kind, id, f);
            && (ChangedOnceEach(changes) ==> Final(norm, s, stack, kind, id, f) == Some(original))
            && (NeverReturns(History(changes)) ==>
                  (Final(norm, s, stack, kind, id, f) == Some(original) <==> ChangedOnceEach(changes)))
  {
    var changes := Changes(norm, s, stack, kind, id, f);
    forall i | 0 <= i < |changes| ensures AllHonoured(changes[i]) {
      OwnChangesAreHonoured(norm, s, stack, kind, id, f, i);
    }
    HonouredHistory(changes);
    HonouredIsNotDropped(History(changes));
    UneditedComesBack(norm, s, stack, kind, id, f);
  }

  lemma OwnChangesAreHonoured(norm: string -> string, s: Shelf, stack: seq<RunBack>, kind: Kind, id: Id, f: RowField,
                              i: nat)
    requires i < |stack| && OfKind(f, kind) && Stores(f) && OwnItems(s, stack, kind, id)
    ensures AllHonoured(Changes(norm, s, stack, kind, id, f)[i])
  {
    var es := RestoringAt(stack[i].es, kind, id);
    forall j | 0 <= j < |es| ensures Honoured(s, stack[i + 1..], es[j]) {
      assert es[j] in es;
      OwnItemIsHonoured(s, stack, kind, id, i, es[j]);
    }
  }

  lemma OwnItemIsHonoured(s: Shelf, stack: seq<RunBack>, kind: Kind, id: Id, i: nat, e: Entity)
    requires i < |stack| && OwnItems(s, stack, kind, id) && e in RestoringAt(stack[i].es, kind, id)
    ensures Honoured(s, stack[i + 1..], e)
  {
    var newer := stack[i + 1..];
    assert OwnsItems(s, stack[i], kind, id);
    forall j | 0 <= j < |newer| ensures s.prov[e.key].run != Some(newer[j].run) {
      assert newer[j] == stack[i + 1 + j];
    }
  }

  /** Every run came to the row by the same item, once, and its provenance row belongs to the newest. */
  predicate SameItem(s: Shelf, stack: seq<RunBack>, k: Key, id: Id)
    requires stack != []
  {
    && k in s.prov && s.prov[k] == Link(id, Some(stack[|stack| - 1].run))
    && forall i :: 0 <= i < |stack| ==> OnlyItem(stack[i], k, id)
  }

  predicate OnlyItem(r: RunBack, k: Key, id: Id) {
    var es := RestoringAt(r.es, k.kind, id);
    |es| == 1 && es[0].key == k
  }

  /**
   * Main result: runs of one item are undone by one run only. A field nobody edited ends as it was before the newest
   * run, so it gets its original value back exactly when the older runs had left it as they found it.
   */
  lemma SameItemGoesBackOneRun(norm: string -> string, s: Shelf, stack: seq<RunBack>, k: Key, id: Id, f: RowField)
    requires Idempotent(norm) && stack != [] && Undoable(s, stack, k.kind, id) && OfKind(f, k.kind) && Stores(f)
    requires SameItem(s, stack, k, id)
    requires Unedited(Now(norm, s, k.kind, id, f), History(Changes(norm, s, stack, k.kind, id, f)))
    ensures OnlyItem(stack[|stack| - 1], k, id) && Writers(stack, k.kind, id) != []
    ensures var newest := RestoringAt(stack[|stack| - 1].es, k.kind, id)[0];
            && RestoresAt(newest, k.kind, id)
            && Final(norm, s, stack, k.kind, id, f) == Some(Shows(norm, BeforeOf(newest), f))
            && (Final(norm, s, stack, k.kind, id, f) == Some(Original(norm, stack, k.kind, id, f)) <==>
                Shows(norm, BeforeOf(newest), f) == Original(norm, stack, k.kind, id, f))
  {
    var v, changes := Now(norm, s, k.kind, id, f), Changes(norm, s, stack, k.kind, id, f);
    StackOfRollbacks(norm, s, stack, k.kind, id, f);
    NewestItem(norm, s, stack, k, id, f);
    OlderItemsAreDropped(norm, s, stack, k, id, f);
    OnlyNewestUnwinds(v, changes, changes[|stack| - 1][0]);
  }

  lemma OlderItemsAreDropped(norm: string -> string, s: Shelf, stack: seq<RunBack>, k: Key, id: Id, f: RowField)
    requires stack != [] && SameItem(s, stack, k, id) && OfKind(f, k.kind)
    ensures var changes := Changes(norm, s, stack, k.kind, id, f);
            forall i, j :: 0 <= i < |stack| - 1 && 0 <= j < |changes[i]| ==> !changes[i][j].honoured
  {
    var changes: seq<seq<Change>> := Changes(norm, s, stack, k.kind, id, f);
    forall i: nat, j: nat | i < |stack| - 1 && j < |changes[i]| ensures !changes[i][j].honoured {
      OlderItemIsDropped(s, stack, k, id, i);
      assert RestoringAt(stack[i].es, k.kind, id)[j] in RestoringAt(stack[i].es, k.kind, id);
    }
  }

  lemma NewestItem(norm: string -> string, s: Shelf, stack: seq<RunBack>, k: Key, id: Id, f: RowField)
    requires stack != [] && SameItem(s, stack, k, id) && OfKind(f, k.kind) && Stores(f)
    ensures OnlyItem(stack[|stack| - 1], k, id) && Writers(stack, k.kind, id) != []
    ensures var e := RestoringAt(stack[|stack| - 1].es, k.kind, id)[0];
            && RestoresAt(e, k.kind, id)
            && Changes(norm, s, stack, k.kind, id, f)[|stack| - 1] == [ChangeOf(norm, e, f, true)]
  {
    var es := RestoringAt(stack[|stack| - 1].es, k.kind, id);
    assert OnlyItem(stack[|stack| - 1], k, id) && es[0] in es && stack[|stack|..] == [];
  }

  lemma OlderItemIsDropped(s: Shelf, stack: seq<RunBack>, k: Key, id: Id, i: nat)
    requires i + 1 < |stack| && SameItem(s, stack, k, id)
    ensures forall e :: e in RestoringAt(stack[i].es, k.kind, id) ==> !Honoured(s, stack[i + 1..], e)
  {
    var newer := stack[i + 1..];
    assert newer[|newer| - 1] == stack[|stack| - 1] && OnlyItem(stack[i], k, id);
  }

  /** An edited value stays in place. */
  lemma EditedStays(norm: string -> string, s: Shelf, stack: seq<RunBack>, kind: Kind, id: Id, f: RowField)
    requires Idempotent(norm) && Undoable(s, stack, kind, id) && OfKind(f, kind)
    requires Edited(Now(norm, s, kind, id, f), History(Changes(norm, s, stack, kind, id, f)))
    ensures Final(norm, s, stack, kind, id, f) == Some(Now(norm, s, kind, id, f))
  {
    StackOfRollbacks(norm, s, stack, kind, id, f);
    UnwindKeepsEdited(Now(norm, s, kind, id, f), Changes(norm, s, stack, kind, id, f));
  }

  /** The Calibre id never changes, so it is the original one exactly when no run had changed it. */
  lemma CalibreIdStays(norm: string -> string, s: Shelf, stack: seq<RunBack>, id: Id)
    requires Idempotent(norm) && Undoable(s, stack, BookKind, id) && Writers(stack, BookKind, id) != []
    ensures var f, first := BookField(CalibreId), Writers(stack, BookKind, id)[0];
            && RestoresBook(first)
            && Final(norm, s, stack, BookKind, id, f) == Some(Ref(s.books[id].calibreId))
            && (Final(norm, s, stack, BookKind, id, f) == Some(Original(norm, stack, BookKind, id, f)) <==>
                first.snapshot.before.calibreId == s.books[id].calibreId)
  {
    UnstoredStays(norm, s, stack, BookKind, id, BookField(CalibreId));
    CalibreIdShows(norm, s, stack, id);
  }

  lemma CalibreIdShows(norm: string -> string, s: Shelf, stack: seq<RunBack>, id: Id)
    requires Writers(stack, BookKind, id) != [] && id in s.books
    ensures RestoresBook(Writers(stack, BookKind, id)[0])
    ensures Now(norm, s, BookKind, id, BookField(CalibreId)) == Ref(s.books[id].calibreId)
    ensures Original(norm, stack, BookKind, id, BookField(CalibreId)) ==
            Ref(Writers(stack, BookKind, id)[0].snapshot.before.calibreId)
  {
    var e := Writers(stack, BookKind, id)[0];
    assert e in Writers(stack, BookKind, id) && RestoresAt(e, BookKind, id);
    ShowsCalibreId(norm, e.snapshot.before);
    ShowsCalibreId(norm, s.books[id]);
  }

  lemma ShowsCalibreId(norm: string -> string, b: Book)
    ensures Shows(norm, BookRow(b), BookField(CalibreId)) == Ref(b.calibreId)
  {
  }

  /** A field no row write stores keeps its value. */
  lemma UnstoredStays(norm: string -> string, s: Shelf, stack: seq<RunBack>, kind: Kind, id: Id, f: RowField)
    requires Idempotent(norm) && Undoable(s, stack, kind, id) && OfKind(f, kind) && !Stores(f)
    ensures Final(norm, s, stack, kind, id, f) == Some(Now(norm, s, kind, id, f))
  {
    StackOfRollbacks(norm, s, stack, kind, id, f);
    NothingStored(norm, s, stack, kind, id, f);
    NothingToUnwind(Now(norm, s, kind, id, f), Changes(norm, s, stack, kind, id, f));
  }

  lemma NothingStored(norm: string -> string, s: Shelf, stack: seq<RunBack>, kind: Kind, id: Id, f: RowField)
    requires OfKind(f, kind) && !Stores(f)
    ensures var changes := Changes(norm, s, stack, kind, id, f);
            forall i, j :: 0 <= i < |stack| && 0 <= j < |changes[i]| ==> !changes[i][j].honoured
  {
  }
}
