// Each step of an adopt request keeps the invariant.

module AdoptionSteps {
  import opened Common
  import opened AdoptionStore
  import opened AdoptionMachine
  import opened AdoptionFrames

  // ----- the steps of an adopt -----

  lemma FreshToken(m: Machine)
    requires Inv(m)
    ensures m.next !in m.owner && m.next !in m.requests && m.next !in m.loose && m.next !in m.target
    ensures forall p :: p in m.origin ==> m.origin[p] != m.next
    ensures forall p :: p in m.origin ==> p in m.world.files
  {
    forall p | p in m.origin ensures m.origin[p] != m.next && p in m.world.files { assert RowOk(m, p); }
    forall t | t in m.requests ensures t != m.next { assert RequestOk(m, t); }
  }

  lemma StartAdoptKeeps(m: Machine, u: Id)
    requires Inv(m) && u in m.world.units && m.world.units[u].state == Pending
    ensures Inv(Claimed(m, u))
  {
    var t, m' := m.next, Claimed(m, u);
    assert UnitOk(m, u);
    FreshToken(m);
    StartAdoptFrame(m, u);
    assert AdoptRequestOk(m', t);
    AdoptStep(m, m', t, u);
  }

  lemma StartAdoptFrame(m: Machine, u: Id)
    requires Inv(m) && u in m.world.units && m.world.units[u].state == Pending
    ensures Frame(m, Claimed(m, u), m.next, u)
  {
    FreshToken(m);
    UpdatedElsewhere(m.requests, m.next, Request(u, NO_RECORD, Starting));
    UpdatedElsewhere(m.owner, m.next, u);
    UpdatedElsewhere(m.claimOf, u, m.next);
    UpdatedElsewhere(m.world.units, u, m.world.units[u].(state := Adopting, token := Some(m.next)));
  }

  lemma AdoptRequestIs(m: Machine, t: Token)
    requires Inv(m) && Adopts(m, t)
    ensures AdoptRequestOk(m, t) && UnitOk(m, m.requests[t].unit)
  {
    assert RequestOk(m, t);
  }

  /** A step that inserts no row. */
  lemma RequestFrame(m: Machine, m': Machine, t: Token, u: Id)
    requires Inv(m) && u in m.world.units && t in m.requests && m.requests[t].unit == u
    requires m'.requests - {t} == m.requests - {t} && m'.loose - {t} == m.loose - {t}
             && m'.target - {t} == m.target - {t}
    requires m'.owner == m.owner && m'.claimOf == m.claimOf && m'.next == m.next
    requires m'.origin == m.origin && m'.world.files == m.world.files
    requires u in m'.world.units && m'.world.units - {u} == m.world.units - {u}
    ensures Frame(m, m', t, u)
  {
    FreshToken(m);
    assert RequestOk(m, t);
    assert UnitOk(m, u);
  }

  lemma FirstProgressKeeps(m: Machine, t: Token, rec: Record)
    requires Inv(m) && Adopts(m, t) && m.requests[t].phase == Starting && rec.registered == []
    ensures Inv(Progressed(m, t, rec))
  {
    var u, m' := m.requests[t].unit, Progressed(m, t, rec);
    AdoptRequestIs(m, t);
    RequestFrame(m, m', t, u);
    assert AdoptRequestOk(m', t);
    AdoptStep(m, m', t, u);
  }

  lemma RecordRowKeeps(m: Machine, t: Token)
    requires Inv(m) && Adopts(m, t) && m.requests[t].phase.Recording?
    ensures Inv(RowRecorded(m, t))
  {
    var u, m' := m.requests[t].unit, RowRecorded(m, t);
    AdoptRequestIs(m, t);
    RequestFrame(m, m', t, u);
    forall p | p in m'.origin && m'.origin[p] == t ensures RowOk(m', p) { RecordedRowOk(m, t, p); }
    assert AdoptRequestOk(m', t);
    AdoptStep(m, m', t, u);
  }

  lemma RecordedRowOk(m: Machine, t: Token, p: Path)
    requires Inv(m) && Adopts(m, t) && m.requests[t].phase.Recording? && AdoptRequestOk(m, t) && p in m.origin
             && m.origin[p] == t
    ensures RowOk(RowRecorded(m, t), p)
  {
    assert RowOk(m, p);
    var r, q := m.requests[t], m.requests[t].phase.path;
    assert r.rec.registered[|r.rec.registered| - 1] == Registered(q, m.target[t]);
    assert Named(m, t, p) ==> Registered(p, m.target[t]) in r.rec.registered;
  }

  lemma RebuildKeeps(m: Machine, t: Token, rows: seq<Registered>)
    requires Inv(m) && Adopts(m, t) && m.requests[t].phase == Ready && t in m.target
    requires ListsBook(m.world.files, m.target[t], rows)
    ensures Inv(RowsRebuilt(m, t, rows))
  {
    var u, m' := m.requests[t].unit, RowsRebuilt(m, t, rows);
    AdoptRequestIs(m, t);
    RequestFrame(m, m', t, u);
    forall p | p in m'.origin && m'.origin[p] == t ensures RowOk(m', p) { assert RowOk(m, p); }
    assert AdoptRequestOk(m', t);
    AdoptStep(m, m', t, u);
  }

  /** The record in memory names every row of a claim that is ready to complete. */
  lemma CompleteKeeps(m: Machine, t: Token)
    requires Inv(m) && Adopts(m, t) && (m.requests[t].phase == Rebuilt || m.requests[t].phase == Ready)
    ensures Inv(Completed(m, t))
  {
    var u, m' := m.requests[t].unit, Completed(m, t);
    AdoptRequestIs(m, t);
    RequestFrame(m, m', t, u);
    forall p | p in m'.origin && m'.origin[p] == t ensures RowOk(m', p) { assert RowOk(m, p); }
    AdoptStep(m, m', t, u);
  }

  lemma FailKeeps(m: Machine, t: Token)
    requires Inv(m) && Adopts(m, t) && !m.requests[t].phase.Reversing?
    ensures Inv(Failing(m, t))
  {
    var u, m' := m.requests[t].unit, Failing(m, t);
    AdoptRequestIs(m, t);
    RequestFrame(m, m', t, u);
    forall p | p in m'.origin && m'.origin[p] == t
      ensures RowOk(m', p) && (Loose(m', t, p) || Ahead(m'.requests[t].rec.registered, 0, Registered(p, m'.target[t])))
    {
      assert RowOk(m, p);
      var rows := m.requests[t].rec.registered;
      assert rows[0..] == rows;
    }
    assert AdoptRequestOk(m', t);
    AdoptStep(m, m', t, u);
  }

  /** A step of adopt claim t that puts row p in the table. */
  lemma InsertFrame(m: Machine, m': Machine, t: Token, u: Id, p: Path)
    requires Inv(m) && u in m.world.units && t in m.requests && m.requests[t].unit == u && t in m.owner
             && m.owner[t] == u
    requires m'.requests - {t} == m.requests - {t} && m'.loose == m.loose[t := p] && m'.target == m.target
    requires m'.owner == m.owner && m'.claimOf == m.claimOf && m'.next == m.next
    requires m'.origin == m.origin[p := t] && m'.world.units == m.world.units
    requires forall q :: q in m.world.files && q != p ==> q in m'.world.files && m'.world.files[q] == m.world.files[q]
    ensures Frame(m, m', t, u)
  {
    FreshToken(m);
    assert m'.loose - {t} == m.loose - {t};
  }

  lemma InsertedRowsOk(m: Machine, m': Machine, t: Token, p: Path)
    requires Inv(m) && AdoptRequestAt(m, t) && m.requests[t].phase == Ready && t in m.target
    requires m'.owner == m.owner && m'.claimOf == m.claimOf && m'.target == m.target && m'.next == m.next
    requires m'.loose == m.loose[t := p] && m'.origin == m.origin[p := t] && m'.world.units == m.world.units
    requires forall q :: q in m.world.files && q != p ==> q in m'.world.files && m'.world.files[q] == m.world.files[q]
    requires p in m'.world.files && m'.world.files[p].book == m.target[t]
    ensures forall q :: q in m'.origin && m'.origin[q] == t ==> RowOk(m', q)
  {
    FreshToken(m);
    forall q | q in m'.origin && m'.origin[q] == t ensures RowOk(m', q) {
      if q != p { assert RowOk(m, q); }
    }
  }

  ghost predicate AdoptRequestAt(m: Machine, t: Token) { t in m.requests && AdoptRequestOk(m, t) }

  lemma RegisterRowKeeps(m: Machine, t: Token, p: Path, f: Format)
    requires Inv(m) && Adopts(m, t) && m.requests[t].phase == Ready && t in m.target
    requires Creates(TrackOutcome(m.world, m.target[t], p))
    ensures Inv(RowInserted(m, t, p, f))
  {
    var u, m' := m.requests[t].unit, RowInserted(m, t, p, f);
    AdoptRequestIs(m, t);
    InsertFrame(m, m', t, u, p);
    InsertedRowsOk(m, m', t, p);
    assert AdoptRequestOk(m', t);
    AdoptStep(m, m', t, u);
  }

  lemma RegisterTornKeeps(m: Machine, t: Token, p: Path, f: Format)
    requires Inv(m) && Adopts(m, t) && m.requests[t].phase == Ready && t in m.target
    requires Creates(TrackOutcome(m.world, m.target[t], p))
    ensures Inv(RowTorn(m, t, p, f))
  {
    var u, m' := m.requests[t].unit, RowTorn(m, t, p, f);
    AdoptRequestIs(m, t);
    InsertFrame(m, m', t, u, p);
    InsertedRowsOk(m, m', t, p);
    forall q | q in m'.origin && m'.origin[q] == t
      ensures Loose(m', t, q) || Ahead(m'.requests[t].rec.registered, 0, Registered(q, m'.target[t]))
    {
      assert RowOk(m', q);
      var rows := m.requests[t].rec.registered;
      assert rows[0..] == rows;
    }
    assert AdoptRequestOk(m', t);
    AdoptStep(m, m', t, u);
  }

  /** The request for a created book reads all its rows before it completes: its record lists them, and no others. */
  lemma CreatedBookIsRecordedWhole(m: Machine, t: Token, rows: seq<Registered>)
    requires Enabled(m, RebuildRows(t, rows))
    ensures Enabled(Apply(m, RebuildRows(t, rows)), Complete(t))
    ensures var u, b := m.requests[t].unit, m.target[t];
            var w := Apply(Apply(m, RebuildRows(t, rows)), Complete(t)).world;
            && u in w.units && w.units[u].state == Adopted && w.files == m.world.files
            && (forall p :: p in w.files ==>
                  (w.files[p].book == b <==> Registered(p, b) in w.units[u].record.registered))
            && forall r :: r in w.units[u].record.registered ==> r.book == b
  {
  }

  /** An undo that is given up leaves the unit adopted, with its record. */
  lemma ReleasedUndoIsAdopted(m: Machine, t: Token)
    requires Enabled(m, ReleaseUndo(t))
    ensures var u := m.requests[t].unit;
            Apply(m, ReleaseUndo(t)).world == SetUnit(m.world, u, Unit(Adopted, None, m.world.units[u].record))
  {
  }
}
