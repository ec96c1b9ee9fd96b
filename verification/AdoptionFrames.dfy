// What a step of one request, or of anybody else, leaves alone: the frame the step lemmas rest on.

module AdoptionFrames {
  import opened Common
  import opened AdoptionStore
  import opened AdoptionReversal
  import opened AdoptionMachine

  // ----- everybody else's steps -----

  ghost predicate UnitsAlike(w: World, w': World) {
    && w'.units.Keys == w.units.Keys
    && forall u :: u in w.units ==>
         && w'.units[u].state == w.units[u].state && w'.units[u].token == w.units[u].token
         && w'.units[u].record.registered == w.units[u].record.registered
  }

  lemma RowStaysOk(m: Machine, w: World, p: Path)
    requires Inv(m) && UnitsAlike(m.world, w) && p in WithWorld(m, w).origin
    ensures RowOk(WithWorld(m, w), p)
  {
    assert RowOk(m, p);
  }

  lemma RequestStaysOk(m: Machine, w: World, t: Token)
    requires Inv(m) && UnitsAlike(m.world, w) && t in m.requests
    ensures RequestOk(WithWorld(m, w), t)
  {
    assert RequestOk(m, t);
    if AdoptRequestOk(m, t) { AdoptRequestStaysOk(m, w, t); } else { UndoRequestStaysOk(m, w, t); }
  }

  lemma AdoptRequestStaysOk(m: Machine, w: World, t: Token)
    requires Inv(m) && UnitsAlike(m.world, w) && t in m.requests && AdoptRequestOk(m, t)
    ensures AdoptRequestOk(WithWorld(m, w), t)
  {
  }

  lemma UndoRequestStaysOk(m: Machine, w: World, t: Token)
    requires Inv(m) && UnitsAlike(m.world, w) && t in m.requests && UndoRequestOk(m, t)
    ensures UndoRequestOk(WithWorld(m, w), t)
  {
    var m' := WithWorld(m, w);
    forall p | p in m'.origin && m'.origin[p] in m'.owner && m'.owner[m'.origin[p]] == m.requests[t].unit
               && Live(m', m'.origin[p])
      ensures Live(m, m.origin[p])
    {
    }
  }

  /** Rows may go or change hands, and books may change, as long as no unit does. */
  lemma WorldStep(m: Machine, w: World)
    requires Inv(m) && UnitsAlike(m.world, w)
    ensures Inv(WithWorld(m, w))
  {
    var m' := WithWorld(m, w);
    forall p | p in m'.origin ensures RowOk(m', p) { RowStaysOk(m, w, p); }
    forall t | t in m'.requests ensures RequestOk(m', t) { RequestStaysOk(m, w, t); }
    forall u | u in m'.world.units ensures UnitOk(m', u) { assert UnitOk(m, u); }
  }

  lemma ImportFileKeeps(m: Machine, p: Path, file: File)
    requires Inv(m)
    ensures Inv(WithWorld(Disowned(m, p), m.world.(files := m.world.files[p := file])))
  {
    DisownedKeeps(m, p);
    WorldStep(Disowned(m, p), m.world.(files := m.world.files[p := file]));
  }

  lemma DisownedKeeps(m: Machine, p: Path)
    requires Inv(m)
    ensures Inv(Disowned(m, p))
  {
    var m' := Disowned(m, p);
    forall q | q in m'.origin ensures RowOk(m', q) { assert RowOk(m, q); }
    forall t | t in m'.requests ensures RequestOk(m', t) { DisownedRequestOk(m, p, t); }
    forall u | u in m'.world.units ensures UnitOk(m', u) { assert UnitOk(m, u); }
  }

  lemma DisownedRequestOk(m: Machine, p: Path, t: Token)
    requires t in m.requests && RequestOk(m, t)
    ensures RequestOk(Disowned(m, p), t)
  {
    if !AdoptRequestOk(m, t) { DisownedUndoOk(m, p, t); }
  }

  lemma DisownedUndoOk(m: Machine, p: Path, t: Token)
    requires t in m.requests && UndoRequestOk(m, t)
    ensures UndoRequestOk(Disowned(m, p), t)
  {
    var m' := Disowned(m, p);
    forall q | q in m'.origin && m'.origin[q] in m'.owner && m'.owner[m'.origin[q]] == m.requests[t].unit
               && Live(m', m'.origin[q])
      ensures Live(m, m.origin[q])
    {
    }
  }

  lemma RemoveBookKeeps(m: Machine, b: Id)
    requires Inv(m)
    ensures Inv(WithWorld(m, DeleteBook(m.world, b)))
  {
    WorldStep(m, DeleteBook(m.world, b));
  }

  lemma RemoveAuthorKeeps(m: Machine, a: Id)
    requires Inv(m)
    ensures Inv(WithWorld(m, DeleteAuthor(m.world, a)))
  {
    WorldStep(m, DeleteAuthor(m.world, a));
  }

  lemma RecoverPartlyKeeps(m: Machine, rows: seq<Registered>)
    requires Inv(m)
    ensures Inv(WithWorld(m, UntrackAll(m.world, rows)))
  {
    UntrackAllFiles(m.world, rows);
    WorldStep(m, UntrackAll(m.world, rows));
  }

  lemma FilesOrBooksKeep(m: Machine, w: World)
    requires Inv(m) && w.units == m.world.units
    ensures Inv(WithWorld(m, w))
  {
    WorldStep(m, w);
  }

  lemma TablesKeep(m: Machine, s: Step)
    requires Inv(m) && Enabled(m, s) && (s.RemoveRow? || s.MoveRow? || s.AddBook? || s.EditBook?)
    ensures Inv(Apply(m, s))
  {
    match s
    case RemoveRow(p) => FilesOrBooksKeep(m, m.world.(files := m.world.files - {p}));
    case MoveRow(p, b) => FilesOrBooksKeep(m, m.world.(files := m.world.files[p := m.world.files[p].(book := b)]));
    case AddBook(b, row) => FilesOrBooksKeep(m, m.world.(books := m.world.books[b := row]));
    case EditBook(b, row) => FilesOrBooksKeep(m, m.world.(books := m.world.books[b := row]));
  }

  // ----- steps of one request on one unit -----

  /** Only request t, unit u and what belongs to claim t differ; rows keep their origin or are new rows of t. */
  ghost predicate Frame(m: Machine, m': Machine, t: Token, u: Id) {
    && m'.requests - {t} == m.requests - {t} && m'.loose - {t} == m.loose - {t}
    && m'.owner - {t} == m.owner - {t} && m'.target - {t} == m.target - {t}
    && m'.world.units - {u} == m.world.units - {u} && m'.claimOf - {u} == m.claimOf - {u}
    && u in m'.world.units && (t in m'.owner ==> m'.owner[t] == u && (t in m.owner || t >= m.next))
    && (t in m.owner ==> m.owner[t] == u)
    && (forall p :: p in m'.origin && m'.origin[p] != t ==>
          p in m.origin && m'.origin[p] == m.origin[p] && p in m'.world.files && p in m.world.files
          && m'.world.files[p] == m.world.files[p])
    && m'.next >= m.next
  }

  lemma OtherRowKept(m: Machine, m': Machine, t: Token, u: Id, p: Path)
    requires Inv(m) && Frame(m, m', t, u) && p in m'.origin && m'.origin[p] != t
    requires m.origin[p] in m.owner && (m.owner[m.origin[p]] != u || Loose(m, m.origin[p], p))
    ensures RowOk(m', p)
  {
    assert RowOk(m, p);
    var t2 := m.origin[p];
    assert t2 in m.owner - {t} && t2 in m.target - {t};
    assert t2 in m'.owner - {t} && m'.owner[t2] == m.owner[t2] && m'.target[t2] == m.target[t2];
    if Loose(m, t2, p) {
      assert t2 in m.loose - {t};
      assert (m'.loose - {t})[t2] == m.loose[t2];
    }
    if m.owner[t2] != u {
      var v := m.owner[t2];
      assert v in m.world.units - {u};
      assert (m'.world.units - {u})[v] == m.world.units[v];
      if v in m.claimOf {
        assert v in m.claimOf - {u};
        assert (m'.claimOf - {u})[v] == m.claimOf[v];
      }
    }
  }

  lemma OtherUnitKept(m: Machine, m': Machine, t: Token, u: Id, v: Id)
    requires Inv(m) && Frame(m, m', t, u) && v != u && v in m'.world.units
    ensures UnitOk(m', v)
  {
    assert v in m'.world.units - {u};
    assert v in m.world.units && (m.world.units - {u})[v] == m'.world.units[v];
    assert UnitOk(m, v);
    if m.world.units[v].state in {Adopting, Adopted, Undoing} {
      var t2 := m.claimOf[v];
      assert v in m.claimOf - {u};
      assert (m'.claimOf - {u})[v] == t2;
      assert t2 != t && t2 in m.owner - {t};
      assert (m'.owner - {t})[t2] == v;
      assert t2 in m'.loose - {t} <==> t2 in m.loose - {t};
    }
    if m.world.units[v].state == Undoing {
      var t3 := m.world.units[v].token.value;
      assert t3 in m'.owner - {t} <==> t3 in m.owner - {t};
    }
  }

  /** A request on another unit does not notice. */
  lemma OtherRequestKept(m: Machine, m': Machine, t: Token, u: Id, t2: Token)
    requires Inv(m) && Frame(m, m', t, u) && t2 != t && t2 in m'.requests
    requires t2 in m.requests && m.requests[t2].unit != u
    ensures RequestOk(m', t2)
  {
    assert RequestOk(m, t2);
    assert t2 in m'.requests - {t} && (m.requests - {t})[t2] == m'.requests[t2];
    var v := m.requests[t2].unit;
    assert v in m.world.units - {u};
    assert (m'.world.units - {u})[v] == m.world.units[v];
    if AdoptRequestOk(m, t2) {
      OtherAdoptKept(m, m', t, u, t2);
    } else {
      OtherUndoKept(m, m', t, u, t2);
    }
  }

  lemma OtherAdoptKept(m: Machine, m': Machine, t: Token, u: Id, t2: Token)
    requires Inv(m) && Frame(m, m', t, u) && t2 != t && t2 in m'.requests && t2 in m.requests
    requires m.requests[t2] == m'.requests[t2] && m.requests[t2].unit != u && AdoptRequestOk(m, t2)
    requires var v := m.requests[t2].unit; v in m'.world.units && m'.world.units[v] == m.world.units[v]
    ensures AdoptRequestOk(m', t2)
  {
    var v := m.requests[t2].unit;
    assert t2 in m.owner - {t};
    assert (m'.owner - {t})[t2] == v;
    assert v in m.claimOf - {u};
    assert (m'.claimOf - {u})[v] == t2;
    assert t2 in m'.loose - {t} <==> t2 in m.loose - {t};
    assert t2 in m'.target - {t} <==> t2 in m.target - {t};
    assert t2 in m.target ==> (m'.target - {t})[t2] == (m.target - {t})[t2];
    assert t2 in m.loose ==> (m'.loose - {t})[t2] == (m.loose - {t})[t2];
  }

  lemma OtherUndoKept(m: Machine, m': Machine, t: Token, u: Id, t2: Token)
    requires Inv(m) && Frame(m, m', t, u) && t2 != t && t2 in m'.requests && t2 in m.requests
    requires m.requests[t2] == m'.requests[t2] && m.requests[t2].unit != u && UndoRequestOk(m, t2)
    requires var v := m.requests[t2].unit; v in m'.world.units && m'.world.units[v] == m.world.units[v]
    ensures UndoRequestOk(m', t2)
  {
    var r := m.requests[t2];
    forall p | p in m'.origin && m'.origin[p] in m'.owner && m'.owner[m'.origin[p]] == r.unit && Live(m', m'.origin[p])
      ensures m'.origin[p] in m'.target
              && Ahead(r.rec.registered, r.phase.done, Registered(p, m'.target[m'.origin[p]]))
    {
      var t3 := m'.origin[p];
      assert t3 != t && t3 in m'.owner - {t};
      assert (m.owner - {t})[t3] == r.unit;
      assert r.unit in m'.claimOf - {u};
      assert (m.claimOf - {u})[r.unit] == t3;
      assert Live(m, t3);
      assert t3 in m.target - {t};
      assert (m'.target - {t})[t3] == m.target[t3];
    }
  }

  /** A row of an earlier claim of the unit that is not that claim's loose row. */
  predicate SameUnitsRow(m: Machine, m': Machine, t: Token, u: Id, p: Path)
    requires p in m.origin && p in m'.origin
  {
    && m'.origin[p] != t && m.origin[p] in m.owner && m.owner[m.origin[p]] == u && !Loose(m, m.origin[p], p)
  }

  /** Two live requests never hold one unit. */
  lemma HeldByOne(m: Machine, t: Token, t2: Token, u: Id)
    requires Inv(m) && t2 in m.requests && t2 != t && u in m.world.units
    requires m.world.units[u].token == Some(t) || m.world.units[u].state in {Pending, Adopted, Ignored}
    ensures m.requests[t2].unit != u
  {
    assert RequestOk(m, t2);
  }

  /** What is left to check for a step of request t on unit u: its rows, its request and its unit. */
  lemma RequestStep(m: Machine, m': Machine, t: Token, u: Id)
    requires Inv(m) && Frame(m, m', t, u) && TokensOk(m') && u in m.world.units
    requires m.world.units[u].token == Some(t) || m.world.units[u].state in {Pending, Adopted, Ignored}
    requires t in m'.requests ==> RequestOk(m', t)
    requires UnitOk(m', u)
    requires forall p :: p in m'.origin && m'.origin[p] == t ==> RowOk(m', p)
    requires forall p :: p in m.origin && p in m'.origin && SameUnitsRow(m, m', t, u, p) ==> RowOk(m', p)
    ensures Inv(m')
  {
    forall p | p in m'.origin ensures RowOk(m', p) {
      if m'.origin[p] != t {
        assert RowOk(m, p);
        if m.owner[m.origin[p]] != u || Loose(m, m.origin[p], p) { OtherRowKept(m, m', t, u, p); }
      }
    }
    forall t2 | t2 in m'.requests ensures RequestOk(m', t2) {
      if t2 != t {
        assert t2 in m'.requests - {t};
        assert t2 in m.requests;
        HeldByOne(m, t, t2, u);
        OtherRequestKept(m, m', t, u, t2);
      }
    }
    forall v | v in m'.world.units ensures UnitOk(m', v) {
      if v != u { OtherUnitKept(m, m', t, u, v); }
    }
  }

  /** Claims of the unit other than its last have at most their loose row left. */
  lemma EarlierClaimIsLoose(m: Machine, t: Token, u: Id, p: Path)
    requires p in m.origin && RowOk(m, p) && m.origin[p] != t && m.owner[m.origin[p]] == u && u in m.world.units
    requires m.world.units[u].state in {Pending, Ignored} || (u in m.claimOf && m.claimOf[u] == t)
    ensures Loose(m, m.origin[p], p)
  {
  }

  /** What is left to check for a step of an adopt claim. */
  lemma AdoptStep(m: Machine, m': Machine, t: Token, u: Id)
    requires Inv(m) && Frame(m, m', t, u) && TokensOk(m') && u in m.world.units
    requires m.world.units[u].state == Pending
             || (m.world.units[u].token == Some(t) && u in m.claimOf && m.claimOf[u] == t)
    requires t in m'.requests ==> RequestOk(m', t)
    requires UnitOk(m', u)
    requires forall p :: p in m'.origin && m'.origin[p] == t ==> RowOk(m', p)
    ensures Inv(m')
  {
    forall p | p in m.origin && p in m'.origin ensures !SameUnitsRow(m, m', t, u, p) {
      assert RowOk(m, p);
      if m.origin[p] != t && m.owner[m.origin[p]] == u { EarlierClaimIsLoose(m, t, u, p); }
    }
    RequestStep(m, m', t, u);
  }
}
