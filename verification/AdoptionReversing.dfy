// Reversing, undoing and recovering keep the invariant.

module AdoptionReversing {
  import opened Common
  import opened AdoptionStore
  import opened AdoptionReversal
  import opened AdoptionMachine
  import opened AdoptionFrames
  import opened AdoptionSteps

  // ----- reversing -----

  /** Untracking the next row only advances the request that untracks it. */
  lemma UntrackNextKeeps(m: Machine, t: Token)
    requires Inv(m) && t in m.requests && m.requests[t].phase.Reversing?
    requires m.requests[t].phase.done < |m.requests[t].rec.registered|
    ensures Inv(NextUntracked(m, t))
  {
    var r := m.requests[t];
    var row := r.rec.registered[r.phase.done];
    var m1 := WithWorld(m, Untrack(m.world, row));
    UntrackKeeps(m, row);
    Advance(m1, t, row);
  }

  lemma UntrackKeeps(m: Machine, row: Registered)
    requires Inv(m)
    ensures var m1 := WithWorld(m, Untrack(m.world, row));
            && Inv(m1) && m1.requests == m.requests
            && forall p :: p in m1.origin ==> RowOk(m1, p) && Registered(p, m1.world.files[p].book) != row
  {
    var m1 := WithWorld(m, Untrack(m.world, row));
    WorldStep(m, Untrack(m.world, row));
    forall p | p in m1.origin ensures RowOk(m1, p) && Registered(p, m1.world.files[p].book) != row {
      assert RowOk(m1, p);
    }
  }

  lemma AheadNext(rows: seq<Registered>, done: nat, r: Registered)
    requires done < |rows| && Ahead(rows, done, r) && r != rows[done]
    ensures Ahead(rows, done + 1, r)
  {
    assert rows[done..] == [rows[done]] + rows[done + 1..];
  }

  /** The request moves past a row nobody's origin names any more. */
  lemma Advance(m: Machine, t: Token, row: Registered)
    requires Inv(m) && t in m.requests && m.requests[t].phase.Reversing?
    requires m.requests[t].phase.done < |m.requests[t].rec.registered|
    requires row == m.requests[t].rec.registered[m.requests[t].phase.done]
    requires forall p :: p in m.origin ==> RowOk(m, p) && Registered(p, m.world.files[p].book) != row
    ensures Inv(Advanced(m, t))
  {
    assert RequestOk(m, t);
    if AdoptRequestOk(m, t) {
      AdvanceAdopt(m, t, row);
    } else {
      AdvanceUndo(m, t, row);
    }
    OneRequestChanged(m, Advanced(m, t), t);
  }

  /** Only request t changed, and it is in order, or it is gone. */
  lemma OneRequestChanged(m: Machine, m': Machine, t: Token)
    requires Inv(m) && m' == m.(requests := m'.requests) && m'.requests.Keys <= m.requests.Keys
    requires forall t2 :: t2 in m'.requests && t2 != t ==> m'.requests[t2] == m.requests[t2]
    requires t in m'.requests ==> RequestOk(m', t)
    ensures Inv(m')
  {
    forall p | p in m'.origin ensures RowOk(m', p) { assert RowOk(m, p); }
    forall t2 | t2 in m'.requests ensures RequestOk(m', t2) { if t2 != t { SameRequestOk(m, m', t2); } }
    forall v | v in m'.world.units ensures UnitOk(m', v) { assert UnitOk(m, v); }
  }

  lemma AdvanceAdopt(m: Machine, t: Token, row: Registered)
    requires t in m.requests && m.requests[t].phase.Reversing? && AdoptRequestOk(m, t)
    requires m.requests[t].phase.done < |m.requests[t].rec.registered|
    requires row == m.requests[t].rec.registered[m.requests[t].phase.done]
    requires forall p :: p in m.origin ==> RowOk(m, p) && Registered(p, m.world.files[p].book) != row
    ensures AdoptRequestOk(Advanced(m, t), t)
  {
    var r := m.requests[t];
    forall p | p in m.origin && m.origin[p] == t && !Loose(m, t, p)
      ensures Ahead(r.rec.registered, r.phase.done + 1, Registered(p, m.target[t]))
    {
      assert RowOk(m, p);
      AheadNext(r.rec.registered, r.phase.done, Registered(p, m.target[t]));
    }
  }

  lemma AdvanceUndo(m: Machine, t: Token, row: Registered)
    requires t in m.requests && m.requests[t].phase.Reversing? && UndoRequestOk(m, t)
    requires m.requests[t].phase.done < |m.requests[t].rec.registered|
    requires row == m.requests[t].rec.registered[m.requests[t].phase.done]
    requires forall p :: p in m.origin ==> RowOk(m, p) && Registered(p, m.world.files[p].book) != row
    ensures UndoRequestOk(Advanced(m, t), t)
  {
    var r := m.requests[t];
    var m' := Advanced(m, t);
    forall p | p in m.origin && m.origin[p] in m.owner && m.owner[m.origin[p]] == r.unit && Live(m', m.origin[p])
      ensures m.origin[p] in m.target
      ensures Ahead(r.rec.registered, r.phase.done + 1, Registered(p, m.target[m.origin[p]]))
    {
      assert RowOk(m, p) && Live(m, m.origin[p]);
      AheadNext(r.rec.registered, r.phase.done, Registered(p, m.target[m.origin[p]]));
    }
  }

  /** Machines that differ only in other requests. */
  lemma SameRequestOk(m: Machine, m': Machine, t: Token)
    requires t in m.requests && t in m'.requests && m'.requests[t] == m.requests[t] && m' == m.(requests := m'.requests)
    requires RequestOk(m, t)
    ensures RequestOk(m', t)
  {
    if AdoptRequestOk(m, t) {
      assert AdoptRequestOk(m', t);
    } else {
      SameUndoOk(m, m', t);
    }
  }

  lemma SameUndoOk(m: Machine, m': Machine, t: Token)
    requires t in m.requests && t in m'.requests && m'.requests[t] == m.requests[t] && m' == m.(requests := m'.requests)
    requires UndoRequestOk(m, t)
    ensures UndoRequestOk(m', t)
  {
    forall p | p in m'.origin && m'.origin[p] in m'.owner && Live(m', m'.origin[p]) ensures Live(m, m'.origin[p]) {}
  }

  lemma CrashKeeps(m: Machine, t: Token)
    requires Inv(m)
    ensures Inv(Drop(m, t))
  {
    OneRequestChanged(m, Drop(m, t), t);
  }

  /** When a reversal has untracked every recorded row, only loose rows of the unit are left. */
  lemma FinishedReversalLeavesLoose(m: Machine, t: Token, p: Path)
    requires Inv(m) && (Adopts(m, t) || Undoes(m, t)) && p in m.origin
    requires m.requests[t].phase.Reversing? && m.requests[t].phase.done == |m.requests[t].rec.registered|
    requires m.origin[p] in m.owner && m.owner[m.origin[p]] == m.requests[t].unit
    ensures Loose(m, m.origin[p], p)
  {
    assert RowOk(m, p) && RequestOk(m, t);
    var r := m.requests[t];
    assert r.rec.registered[r.phase.done..] == [];
  }

  lemma ResetKeeps(m: Machine, t: Token)
    requires Inv(m) && (Adopts(m, t) || Undoes(m, t))
    requires m.requests[t].phase.Reversing? && m.requests[t].phase.done == |m.requests[t].rec.registered|
    ensures Inv(BackToPending(m, t))
  {
    var u, m' := m.requests[t].unit, BackToPending(m, t);
    RequestFrame(m, m', t, u);
    forall p | p in m.origin && m.origin[p] in m.owner && m.owner[m.origin[p]] == u ensures RowOk(m', p) {
      assert RowOk(m, p);
      FinishedReversalLeavesLoose(m, t, p);
    }
    forall p | p in m'.origin && m'.origin[p] == t ensures RowOk(m', p) {
      assert RowOk(m, p) && RequestOk(m, t);
      UndoTokenHasNoRows(m, t);
    }
    RequestStep(m, m', t, u);
  }

  lemma UndoTokenHasNoRows(m: Machine, t: Token)
    requires Inv(m) && (Adopts(m, t) || Undoes(m, t))
    ensures t in m.owner ==> m.owner[t] == m.requests[t].unit
  {
    assert RequestOk(m, t) && UnitOk(m, m.requests[t].unit);
  }

  // ----- undo and recovery -----

  lemma StartUndoKeeps(m: Machine, u: Id)
    requires Inv(m) && u in m.world.units && m.world.units[u].state == Adopted
    ensures Inv(UndoStarted(m, u))
  {
    var t, m' := m.next, UndoStarted(m, u);
    FreshToken(m);
    assert UnitOk(m, u);
    StartUndoFrame(m, u);
    StartUndoRequestOk(m, u);
    forall p | p in m.origin && m.origin[p] in m.owner && m.owner[m.origin[p]] == u ensures RowOk(m', p) {
      assert RowOk(m, p);
    }
    RequestStep(m, m', t, u);
  }

  lemma StartUndoFrame(m: Machine, u: Id)
    requires Inv(m) && u in m.world.units
    ensures Frame(m, UndoStarted(m, u), m.next, u)
  {
    FreshToken(m);
    UpdatedElsewhere(m.requests, m.next, Request(u, m.world.units[u].record, Reversing(0)));
    UpdatedElsewhere(m.world.units, u, m.world.units[u].(state := Undoing, token := Some(m.next)));
  }

  lemma StartUndoRequestOk(m: Machine, u: Id)
    requires Inv(m) && u in m.world.units && m.world.units[u].state == Adopted
    ensures UndoRequestOk(UndoStarted(m, u), m.next)
  {
    var m' := UndoStarted(m, u);
    var rows := m.world.units[u].record.registered;
    assert rows[0..] == rows;
    assert UnitOk(m, u);
    forall p | p in m'.origin && m'.origin[p] in m'.owner && m'.owner[m'.origin[p]] == u && Live(m', m'.origin[p])
      ensures m'.origin[p] in m'.target && Ahead(rows, 0, Registered(p, m'.target[m'.origin[p]]))
    {
      assert RowOk(m, p);
    }
  }

  lemma ReleaseUndoKeeps(m: Machine, t: Token)
    requires Inv(m) && Undoes(m, t)
    ensures Inv(UndoReleased(m, t))
  {
    var u, m' := m.requests[t].unit, UndoReleased(m, t);
    assert RequestOk(m, t) && UnitOk(m, u);
    RequestFrame(m, m', t, u);
    forall p | p in m.origin && m.origin[p] in m.owner && m.owner[m.origin[p]] == u ensures RowOk(m', p) {
      assert RowOk(m, p);
    }
    forall p | p in m.origin ensures m.origin[p] != t { assert RowOk(m, p); }
    RequestStep(m, m', t, u);
  }

  /** Recovering a dead request's unit leaves no row of it but a loose one. */
  lemma RecoverKeeps(m: Machine, u: Id)
    requires Inv(m) && Abandoned(m, u)
    ensures Inv(Recovered(m, u))
  {
    var rows := m.world.units[u].record.registered;
    var m1 := WithWorld(m, UntrackAll(m.world, rows));
    UntrackAllFiles(m.world, rows);
    WorldStep(m, UntrackAll(m.world, rows));
    ClearedKeeps(m1, u);
    assert Recovered(m, u) == m1.(world := SetUnit(m1.world, u, Unit(Pending, None, NO_RECORD)));
  }

  /** An abandoned unit none of whose recorded rows is left may be set back to pending. */
  lemma ClearedKeeps(m: Machine, u: Id)
    requires Inv(m) && Abandoned(m, u)
    requires forall p :: p in m.world.files ==>
               Registered(p, m.world.files[p].book) !in m.world.units[u].record.registered
    ensures Inv(m.(world := SetUnit(m.world, u, Unit(Pending, None, NO_RECORD))))
  {
    var t := m.world.units[u].token.value;
    var m' := m.(world := SetUnit(m.world, u, Unit(Pending, None, NO_RECORD)));
    assert UnitOk(m, u);
    RecoverFrame(m, m', t, u);
    forall p | p in m.origin && m.origin[p] in m.owner && m.owner[m.origin[p]] == u ensures RowOk(m', p) {
      assert RowOk(m, p);
    }
    forall p | p in m'.origin && m'.origin[p] == t ensures RowOk(m', p) { assert RowOk(m, p); }
    RequestStep(m, m', t, u);
  }

  lemma RecoverFrame(m: Machine, m': Machine, t: Token, u: Id)
    requires Inv(m) && Abandoned(m, u) && m.world.units[u].token == Some(t)
    requires m' == m.(world := SetUnit(m.world, u, Unit(Pending, None, NO_RECORD)))
    ensures Frame(m, m', t, u)
  {
    FreshToken(m);
    assert UnitOk(m, u);
    assert m'.world.units - {u} == m.world.units - {u};
  }

  lemma IgnoreKeeps(m: Machine, u: Id, state: UnitState)
    requires Inv(m) && u in m.world.units && m.world.units[u].state in {Pending, Ignored} && state in {Pending, Ignored}
    ensures Inv(StateSet(m, u, state))
  {
    var m', t := StateSet(m, u, state), m.next;
    FreshToken(m);
    assert UnitOk(m, u);
    assert m'.world.units - {u} == m.world.units - {u};
    assert Frame(m, m', t, u);
    forall p | p in m.origin && m.origin[p] in m.owner && m.owner[m.origin[p]] == u ensures RowOk(m', p) {
      assert RowOk(m, p);
    }
    RequestStep(m, m', t, u);
  }
}
