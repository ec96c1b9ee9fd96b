// One rollback and one book or author row: the snapshots recorded for it are put back in recorded order, and of the
// provenance rows that name it exactly the run's own go.

module RollbackRows {
  import opened Common
  import opened RollbackModel
  import opened RollbackProofs
  import opened RollbackRepeat
  import opened RollbackLinks
  import opened RollbackFields

  /** The kinds of row that snapshots are taken of. */
  predicate HasRows(kind: Kind) { kind == BookKind || kind == AuthorKind }

  /** The row is as it was, or gone. */
  ghost predicate RowKept(s: Shelf, s': Shelf, kind: Kind, id: Id) {
    RowAt(s', kind, id).Some? ==> RowAt(s', kind, id) == RowAt(s, kind, id)
  }

  predicate RestoresAt(e: Entity, kind: Kind, id: Id) { Restores(e) && e.key.kind == kind && e.local == id }

  lemma StepKeepsRow(norm: string -> string, c: Ctx, w: Work, f: Entity, kind: Kind, id: Id)
    requires HasRows(kind) && !RestoresAt(f, kind, id)
    ensures RowKept(w.s, Step(norm, c, w, f).s, kind, id)
  {
    if kind == BookKind { StepKeepsBookRow(norm, c, w, f, id); } else { StepKeepsAuthorRow(norm, c, w, f, id); }
  }

  lemma StepNeverAddsRow(norm: string -> string, c: Ctx, w: Work, f: Entity, kind: Kind, id: Id)
    requires HasRows(kind) && RowAt(Step(norm, c, w, f).s, kind, id).Some?
    ensures RowAt(w.s, kind, id).Some?
  {
    if kind == BookKind { StepNeverAddsBook(norm, c, w, f, id); } else { StepNeverAddsAuthor(norm, c, w, f, id); }
  }

  lemma {:induction false} StepsNeverAddRow(norm: string -> string, c: Ctx, w: Work, es: seq<Entity>, kind: Kind,
                                            id: Id)
    requires HasRows(kind) && RowAt(Steps(norm, c, w, es).s, kind, id).Some?
    ensures RowAt(w.s, kind, id).Some?
  {
    if es != [] {
      StepNeverAddsRow(norm, c, Steps(norm, c, w, es[..|es| - 1]), es[|es| - 1], kind, id);
      StepsNeverAddRow(norm, c, w, es[..|es| - 1], kind, id);
    }
  }

  /** The provenance row k names the row id of its kind. */
  predicate Links(s: Shelf, k: Key, id: Id) { k in s.prov && s.prov[k].local == id }

  /** While a row lives, only an entity of the same external id and row takes away one of its provenance rows. */
  lemma StepKeepsRowLink(norm: string -> string, c: Ctx, w: Work, f: Entity, k: Key, id: Id)
    requires HasRows(k.kind) && Links(w.s, k, id) && RowAt(w.s, k.kind, id).Some?
    requires RowAt(Step(norm, c, w, f).s, k.kind, id).Some? && !(f.key == k && f.local == id)
    ensures Links(Step(norm, c, w, f).s, k, id)
  {
    StepShrinks(norm, c, w, f);
    if k.kind == BookKind { StepKeepsLink(norm, c, w, f, k, id); } else { StepKeepsAuthorLink(norm, c, w, f, k, id); }
  }

  // ----- the row -----

  /** The entities that put a snapshot back on the row, in this order. */
  function RestoringAt(es: seq<Entity>, kind: Kind, id: Id): (found: seq<Entity>)
    ensures forall e :: e in found <==> e in es && RestoresAt(e, kind, id)
  {
    if es == [] then []
    else
      var last := es[|es| - 1];
      assert es == es[..|es| - 1] + [last];
      RestoringAt(es[..|es| - 1], kind, id) + (if RestoresAt(last, kind, id) then [last] else [])
  }

  /** One after the other, their snapshots are put back on a copy of the row, unless their link is gone. */
  function Folded(norm: string -> string, s: Shelf, row: Row, es: seq<Entity>, kind: Kind, id: Id): (folded: Row)
    requires (row.BookRow? <==> kind == BookKind) && forall e :: e in es ==> RestoresAt(e, kind, id)
    ensures folded.BookRow? <==> kind == BookKind
  {
    if es == [] then row
    else
      var last := es[|es| - 1];
      assert last in es && RestoresAt(last, kind, id);
      var before := Folded(norm, s, row, es[..|es| - 1], kind, id);
      if Matches(s, last) then RestoredRow(norm, before, last) else before
  }

  /** The pass comes to them in the recorded order: they all have one rank. */
  lemma SortKeepsRestoring(es: seq<Entity>, kind: Kind, id: Id)
    requires HasRows(kind)
    ensures RestoringAt(SortByRank(es), kind, id) == RestoringAt(es, kind, id)
  {
    SortIsStable(es, RankOf(kind));
    RestoringHasOneRank(es, kind, id);
    RestoringHasOneRank(SortByRank(es), kind, id);
  }

  function RankOf(kind: Kind): nat
    requires HasRows(kind)
  {
    if kind == BookKind then 1 else 4
  }

  lemma {:induction false} RestoringHasOneRank(es: seq<Entity>, kind: Kind, id: Id)
    requires HasRows(kind)
    ensures RestoringAt(OfRank(es, RankOf(kind)), kind, id) == RestoringAt(es, kind, id)
  {
    if es != [] {
      var front, last := es[..|es| - 1], es[|es| - 1];
      RestoringHasOneRank(front, kind, id);
      if Rank(last) == RankOf(kind) {
        RestoringOneMore(OfRank(front, RankOf(kind)), last, kind, id);
      } else {
        assert !RestoresAt(last, kind, id);
        assert OfRank(es, RankOf(kind)) == OfRank(front, RankOf(kind));
        assert RestoringAt(es, kind, id) == RestoringAt(front, kind, id);
      }
    }
  }

  lemma RestoringOneMore(es: seq<Entity>, e: Entity, kind: Kind, id: Id)
    ensures RestoringAt(es + [e], kind, id) ==
            RestoringAt(es, kind, id) + (if RestoresAt(e, kind, id) then [e] else [])
  {
    assert (es + [e])[..|es|] == es;
  }

  /** Other entities leave an entity's link alone while its row lives. */
  lemma {:induction false} OtherStepsKeepMatch(norm: string -> string, c: Ctx, w: Work, es: seq<Entity>, e: Entity)
    requires HasRows(e.key.kind) && Matches(w.s, e) && forall f :: f in es ==> !SameEntity(f, e)
    requires RowAt(Steps(norm, c, w, es).s, e.key.kind, e.local).Some?
    ensures Matches(Steps(norm, c, w, es).s, e)
  {
    if es != [] {
      var front, last := es[..|es| - 1], es[|es| - 1];
      var w1 := Steps(norm, c, w, front);
      assert last in es;
      StepNeverAddsRow(norm, c, w1, last, e.key.kind, e.local);
      OtherStepsKeepMatch(norm, c, w, front, e);
      StepKeepsRowLink(norm, c, w1, last, e.key, e.local);
    }
  }

  lemma RestoringStepWrites(norm: string -> string, c: Ctx, w: Work, e: Entity)
    requires Restores(e) && Matches(w.s, e) && !Blocked(norm, w.s, e)
    requires RowAt(w.s, e.key.kind, e.local).Some?
    ensures RowAt(Step(norm, c, w, e).s, e.key.kind, e.local) ==
            Some(RestoredRow(norm, RowAt(w.s, e.key.kind, e.local).value, e))
  {
    FailsWhenBlocked(norm, c, w, e);
    if RestoresBook(e) { BookRestoredWrites(norm, c, w, e); }
  }

  /** No restore of the row is refused when its turn comes. */
  ghost predicate NoneBlocked(norm: string -> string, c: Ctx, w: Work, es: seq<Entity>, kind: Kind, id: Id) {
    forall n :: 0 <= n < |es| && RestoresAt(es[n], kind, id) ==> !Blocked(norm, Steps(norm, c, w, es[..n]).s, es[n])
  }

  /** A pass writes a surviving row at the step of each entity that restores it, and only there. */
  lemma {:induction false} PassFoldsRow(norm: string -> string, c: Ctx, w: Work, es: seq<Entity>, kind: Kind, id: Id)
    requires HasRows(kind) && DistinctEntities(es) && NoneBlocked(norm, c, w, es, kind, id)
    requires RowAt(Steps(norm, c, w, es).s, kind, id).Some?
    ensures RowAt(w.s, kind, id).Some?
    ensures RowAt(Steps(norm, c, w, es).s, kind, id) ==
            Some(Folded(norm, w.s, RowAt(w.s, kind, id).value, RestoringAt(es, kind, id), kind, id))
  {
    if es != [] {
      var front, last := es[..|es| - 1], es[|es| - 1];
      StepNeverAddsRow(norm, c, Steps(norm, c, w, front), last, kind, id);
      assert front + [last] == es;
      FrontIsDistinct(front, last);
      FrontIsUnblocked(norm, c, w, es, kind, id);
      PassFoldsRow(norm, c, w, front, kind, id);
      LastFoldsRow(norm, c, w, front, last, RowAt(w.s, kind, id).value, kind, id);
    }
  }

  lemma FrontIsDistinct(es: seq<Entity>, last: Entity)
    requires DistinctEntities(es + [last])
    ensures DistinctEntities(es) && forall f :: f in es ==> !SameEntity(f, last)
  {
    forall i, j | 0 <= i < j < |es| ensures !SameEntity(es[i], es[j]) {
      assert !SameEntity((es + [last])[i], (es + [last])[j]);
    }
    forall f | f in es ensures !SameEntity(f, last) {
      var i :| 0 <= i < |es| && es[i] == f;
      assert !SameEntity((es + [last])[i], (es + [last])[|es|]);
    }
  }

  lemma FrontIsUnblocked(norm: string -> string, c: Ctx, w: Work, es: seq<Entity>, kind: Kind, id: Id)
    requires es != [] && NoneBlocked(norm, c, w, es, kind, id)
    ensures NoneBlocked(norm, c, w, es[..|es| - 1], kind, id)
    ensures RestoresAt(es[|es| - 1], kind, id) ==>
              !Blocked(norm, Steps(norm, c, w, es[..|es| - 1]).s, es[|es| - 1])
  {
    var front := es[..|es| - 1];
    forall n | 0 <= n < |front| && RestoresAt(front[n], kind, id)
      ensures !Blocked(norm, Steps(norm, c, w, front[..n]).s, front[n])
    {
      assert front[..n] == es[..n] && front[n] == es[n];
    }
  }

  lemma LastFoldsRow(norm: string -> string, c: Ctx, w: Work, front: seq<Entity>, last: Entity, row: Row, kind: Kind,
                     id: Id)
    requires HasRows(kind) && (row.BookRow? <==> kind == BookKind) && forall f :: f in front ==> !SameEntity(f, last)
    requires RestoresAt(last, kind, id) ==> !Blocked(norm, Steps(norm, c, w, front).s, last)
    requires RowAt(Step(norm, c, Steps(norm, c, w, front), last).s, kind, id).Some?
    requires RowAt(Steps(norm, c, w, front).s, kind, id) ==
             Some(Folded(norm, w.s, row, RestoringAt(front, kind, id), kind, id))
    ensures RowAt(Step(norm, c, Steps(norm, c, w, front), last).s, kind, id) ==
            Some(Folded(norm, w.s, row, RestoringAt(front + [last], kind, id), kind, id))
  {
    var found := RestoringAt(front, kind, id);
    RestoringOneMore(front, last, kind, id);
    if RestoresAt(last, kind, id) {
      assert RestoringAt(front + [last], kind, id) == found + [last];
      RestoringLastWrites(norm, c, w, front, last);
      FoldedOneMore(norm, w.s, row, found, last, kind, id);
    } else {
      assert RestoringAt(front + [last], kind, id) == found;
      StepKeepsRow(norm, c, Steps(norm, c, w, front), last, kind, id);
    }
  }

  lemma FoldedOneMore(norm: string -> string, s: Shelf, row: Row, es: seq<Entity>, e: Entity, kind: Kind, id: Id)
    requires (row.BookRow? <==> kind == BookKind) && RestoresAt(e, kind, id)
    requires (forall f :: f in es ==> RestoresAt(f, kind, id)) && forall f :: f in es + [e] ==> RestoresAt(f, kind, id)
    ensures var before := Folded(norm, s, row, es, kind, id);
            Folded(norm, s, row, es + [e], kind, id) ==
            if Matches(s, e) then RestoredRow(norm, before, e) else before
  {
    assert (es + [e])[..|es|] == es;
  }

  /** An entity restores the row when its link stood at the start, and is skipped otherwise. */
  lemma RestoringLastWrites(norm: string -> string, c: Ctx, w: Work, front: seq<Entity>, last: Entity)
    requires Restores(last) && forall f :: f in front ==> !SameEntity(f, last)
    requires !Blocked(norm, Steps(norm, c, w, front).s, last)
    requires RowAt(Steps(norm, c, w, front).s, last.key.kind, last.local).Some?
    ensures var row := RowAt(Steps(norm, c, w, front).s, last.key.kind, last.local).value;
            RowAt(Step(norm, c, Steps(norm, c, w, front), last).s, last.key.kind, last.local) ==
            Some(if Matches(w.s, last) then RestoredRow(norm, row, last) else row)
  {
    StepsShrink(norm, c, w, front);
    if Matches(w.s, last) {
      OtherStepsKeepMatch(norm, c, w, front, last);
      RestoringStepWrites(norm, c, Steps(norm, c, w, front), last);
    }
  }

  /** No restore of the row is refused. */
  ghost predicate RowPasses(norm: string -> string, s: Shelf, run: Id, es: seq<Entity>, order: seq<Id>, kind: Kind,
                            id: Id) {
    forall e :: e in es && RestoresAt(e, kind, id) ==> Passes(norm, s, run, es, order, e)
  }

  /**
   * A rollback puts back on a surviving row the snapshots of all its entities that still have their link, in the order
   * the run recorded them, whatever else the run touched.
   */
  lemma RollbackRestoresRow(norm: string -> string, s: Shelf, run: Id, es: seq<Entity>, order: seq<Id>, kind: Kind,
                            id: Id)
    requires HasRows(kind) && DistinctEntities(es) && RowPasses(norm, s, run, es, order, kind, id)
    requires RowAt(Rollback(norm, s, run, es, order).s, kind, id).Some?
    ensures RowAt(s, kind, id).Some?
    ensures RowAt(Rollback(norm, s, run, es, order).s, kind, id) ==
            Some(Folded(norm, s, RowAt(s, kind, id).value, RestoringAt(es, kind, id), kind, id))
  {
    var sorted := SortByRank(es);
    SortByRankSorts(es);
    SortKeepsPairwise(es, SameEntity);
    SortKeepsRestoring(es, kind, id);
    forall n | 0 <= n < |sorted| && RestoresAt(sorted[n], kind, id)
      ensures !Blocked(norm, Steps(norm, Ctx(run, PlanOf(sorted), order), Begin(s), sorted[..n]).s, sorted[n])
    {
      assert sorted[n] in es && Passes(norm, s, run, es, order, sorted[n]);
    }
    PassFoldsRow(norm, Ctx(run, PlanOf(sorted), order), Begin(s), sorted, kind, id);
  }

  // ----- the provenance rows that name it -----

  lemma StepKeepsForeignLink(norm: string -> string, c: Ctx, w: Work, f: Entity, k: Key, id: Id)
    requires Foreign(w.s, c.run, k) && HasRows(k.kind) && Links(w.s, k, id) && RowAt(w.s, k.kind, id).Some?
    requires RowAt(Step(norm, c, w, f).s, k.kind, id).Some?
    ensures Foreign(Step(norm, c, w, f).s, c.run, k) && Links(Step(norm, c, w, f).s, k, id)
  {
    StepShrinks(norm, c, w, f);
    if !(f.key == k && f.local == id) { StepKeepsRowLink(norm, c, w, f, k, id); }
  }

  lemma {:induction false} StepsKeepForeignLink(norm: string -> string, c: Ctx, w: Work, es: seq<Entity>, k: Key,
                                                id: Id)
    requires Foreign(w.s, c.run, k) && HasRows(k.kind) && Links(w.s, k, id)
    requires RowAt(Steps(norm, c, w, es).s, k.kind, id).Some?
    ensures Foreign(Steps(norm, c, w, es).s, c.run, k) && Links(Steps(norm, c, w, es).s, k, id)
  {
    if es != [] {
      var front, last := es[..|es| - 1], es[|es| - 1];
      StepNeverAddsRow(norm, c, Steps(norm, c, w, front), last, k.kind, id);
      StepsKeepForeignLink(norm, c, w, front, k, id);
      StepKeepsForeignLink(norm, c, Steps(norm, c, w, front), last, k, id);
    }
  }

  /** Every provenance row of the row that the run owns is one of its entities. */
  ghost predicate Tracked(s: Shelf, run: Id, es: seq<Entity>, kind: Kind, id: Id) {
    forall k: Key :: k.kind == kind && Links(s, k, id) && s.prov[k].run == Some(run) ==>
                exists e :: e in es && e.key == k && e.local == id
  }

  /** Of the provenance rows that name the row, exactly those of one run went. */
  ghost predicate LosesRunLinks(s: Shelf, s': Shelf, run: Id, kind: Kind, id: Id) {
    forall k: Key :: k.kind == kind ==> (Links(s', k, id) <==> Links(s, k, id) && s.prov[k].run != Some(run))
  }

  /** An entity that is not refused gives up the run's link, or the link is gone by then. */
  lemma OwnLinkGoesAtItsTurn(norm: string -> string, c: Ctx, s: Shelf, es: seq<Entity>, n: nat)
    requires n < |es| && RankSorted(es) && Idempotent(norm) && MediaFilled(s) && es[n].local != 0
    requires HasRows(es[n].key.kind) && !Blocked(norm, Steps(norm, c, Begin(s), es[..n]).s, es[n])
    requires RowAt(Steps(norm, c, Begin(s), es).s, es[n].key.kind, es[n].local).Some?
    ensures !Owned(Steps(norm, c, Begin(s), es).s, c.run, es[n])
  {
    var w, e := Steps(norm, c, Begin(s), es[..n]), es[n];
    StepsKeepMedia(norm, c, Begin(s), es[..n]);
    FailsWhenBlocked(norm, c, w, e);
    StepSettles(norm, c, w, e);
    StepsOneMore(norm, c, Begin(s), es, n + 1);
    StepsSplit(norm, c, Begin(s), es, n + 1);
    StepsNeverAddRow(norm, c, Steps(norm, c, Begin(s), es[..n + 1]), es[n + 1..], e.key.kind, e.local);
    StepsShrink(norm, c, Steps(norm, c, Begin(s), es[..n + 1]), es[n + 1..]);
  }

  lemma OwnLinkIsRemoved(norm: string -> string, s: Shelf, run: Id, es: seq<Entity>, order: seq<Id>, e: Entity)
    requires Idempotent(norm) && MediaFilled(s) && e.local != 0
    requires e in es && HasRows(e.key.kind) && Owned(s, run, e) && Passes(norm, s, run, es, order, e)
    requires RowAt(Rollback(norm, s, run, es, order).s, e.key.kind, e.local).Some?
    ensures e.key !in Rollback(norm, s, run, es, order).s.prov
  {
    var sorted := SortByRank(es);
    SortByRankSorts(es);
    var n := TurnOf(norm, s, run, es, order, e);
    OwnLinkGoesAtItsTurn(norm, Ctx(run, PlanOf(sorted), order), s, sorted, n);
    StepsShrink(norm, Ctx(run, PlanOf(sorted), order), Begin(s), sorted);
  }

  /** Where the row survives and no restore of it is refused, exactly the run's own provenance rows of it are gone. */
  lemma RollbackRemovesOwnLinks(norm: string -> string, s: Shelf, run: Id, es: seq<Entity>, order: seq<Id>, kind: Kind,
                                id: Id)
    requires Idempotent(norm) && MediaFilled(s) && id != 0
    requires HasRows(kind) && Tracked(s, run, es, kind, id) && RowPasses(norm, s, run, es, order, kind, id)
    requires RowAt(Rollback(norm, s, run, es, order).s, kind, id).Some?
    ensures LosesRunLinks(s, Rollback(norm, s, run, es, order).s, run, kind, id)
    ensures Shrinks(s, Rollback(norm, s, run, es, order).s)
  {
    var sorted := SortByRank(es);
    var c, s' := Ctx(run, PlanOf(sorted), order), Rollback(norm, s, run, es, order).s;
    StepsShrink(norm, c, Begin(s), sorted);
    forall k: Key | k.kind == kind ensures Links(s', k, id) <==> Links(s, k, id) && s.prov[k].run != Some(run) {
      if Links(s, k, id) {
        if s.prov[k].run == Some(run) {
          var e :| e in es && e.key == k && e.local == id;
          assert !Restores(e) ==> Passes(norm, s, run, es, order, e);
          OwnLinkIsRemoved(norm, s, run, es, order, e);
        } else {
          StepsKeepForeignLink(norm, c, Begin(s), sorted, k, id);
        }
      }
    }
  }
}
