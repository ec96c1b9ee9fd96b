// Adoption requests, undo requests, crashes, recoveries and everybody else, interleaved step by step.
// Each request's in-memory record and each unit's stored record are kept apart, and every book_files row remembers
// which claim inserted it.

module AdoptionMachine {
  import opened Common
  import opened AdoptionStore
  import opened AdoptionReversal

  /** How far a live request has got. */
  datatype Phase =
    | Starting
    | Ready
    | Recording(path: Path)
    | Rebuilt
    | Reversing(done: nat)

  /** The unit a request holds, and the record in its memory. */
  datatype Request = Request(unit: Id, rec: Record, phase: Phase)

  /**
   * The tables, the live requests by claim token, and what history adds: the claim that inserted each row, the unit
   * and the book of each adopt claim, the last adopt claim of each unit, and for a claim the one row it inserted but
   * has not recorded.
   */
  datatype Machine = Machine(
    world: World, requests: map<Token, Request>, origin: map<Path, Token>, owner: map<Token, Id>,
    target: map<Token, Id>, claimOf: map<Id, Token>, loose: map<Token, Path>, next: Token)

  datatype Step =
    | StartAdopt(unit: Id)
    | FirstProgress(token: Token, rec: Record)
    | RegisterRow(token: Token, path: Path, format: Format)
    | RegisterTorn(token: Token, path: Path, format: Format)
    | RecordRow(token: Token)
    | RebuildRows(token: Token, rows: seq<Registered>)
    | Complete(token: Token)
    | FailRequest(token: Token)
    | UntrackNext(token: Token)
    | Reset(token: Token)
    | StartUndo(unit: Id)
    | ReleaseUndo(token: Token)
    | Crash(token: Token)
    | RecoverPartly(unit: Id, done: nat)
    | Recover(unit: Id)
    | ImportFile(path: Path, file: File)
    | RemoveRow(path: Path)
    | MoveRow(path: Path, book: Id)
    | AddBook(book: Id, row: Book)
    | EditBook(book: Id, row: Book)
    | RemoveBook(book: Id)
    | RemoveAuthor(author: Id)
    | Ignore(unit: Id)
    | Unignore(unit: Id)

  // ----- the steps -----

  function Put(m: Machine, t: Token, r: Request): Machine { m.(requests := m.requests[t := r]) }

  function Drop(m: Machine, t: Token): Machine { m.(requests := m.requests - {t}) }

  /** After rows went or changed hands, only the rows still there as they were keep their origin. */
  function OriginKept(origin: map<Path, Token>, before: map<Path, File>, after: map<Path, File>): map<Path, Token> {
    map p | p in origin && p in before && p in after && after[p] == before[p] :: origin[p]
  }

  function WithWorld(m: Machine, w: World): Machine {
    m.(world := w, origin := OriginKept(m.origin, m.world.files, w.files))
  }

  predicate Adopts(m: Machine, t: Token) { t in m.requests && Holds(m.world, m.requests[t].unit, Adopting, t) }

  predicate Undoes(m: Machine, t: Token) { t in m.requests && Holds(m.world, m.requests[t].unit, Undoing, t) }

  /** A claim whose request is gone. */
  predicate Abandoned(m: Machine, u: Id) {
    && u in m.world.units && m.world.units[u].state in {Adopting, Undoing}
    && m.world.units[u].token.Some? && m.world.units[u].token.value !in m.requests
  }

  predicate ListsBook(files: map<Path, File>, b: Id, rows: seq<Registered>) {
    && (forall p :: p in files && files[p].book == b ==> Registered(p, b) in rows)
    && (forall r :: r in rows ==> r.book == b && Owns(files, r))
  }

  predicate Enabled(m: Machine, s: Step) {
    match s
    case StartAdopt(u) => u in m.world.units && m.world.units[u].state == Pending
    case FirstProgress(t, rec) =>
      && Adopts(m, t) && m.requests[t].phase == Starting
      && rec.registered == [] && rec.bookId in m.world.books
    case RegisterRow(t, p, f) =>
      && Adopts(m, t) && m.requests[t].phase == Ready
      && t in m.target && Creates(TrackOutcome(m.world, m.target[t], p))
    case RegisterTorn(t, p, f) =>
      && Adopts(m, t) && m.requests[t].phase == Ready
      && t in m.target && Creates(TrackOutcome(m.world, m.target[t], p))
    case RecordRow(t) => Adopts(m, t) && m.requests[t].phase.Recording?
    case RebuildRows(t, rows) =>
      && Adopts(m, t) && m.requests[t].phase == Ready && t in m.target
      && m.requests[t].rec.createdBook > 0 && ListsBook(m.world.files, m.target[t], rows)
    case Complete(t) =>
      && Adopts(m, t)
      && (m.requests[t].phase == Rebuilt || (m.requests[t].phase == Ready && m.requests[t].rec.createdBook == 0))
    case FailRequest(t) => Adopts(m, t) && !m.requests[t].phase.Reversing?
    case UntrackNext(t) =>
      t in m.requests && m.requests[t].phase.Reversing? && m.requests[t].phase.done < |m.requests[t].rec.registered|
    case Reset(t) =>
      && (Adopts(m, t) || Undoes(m, t))
      && m.requests[t].phase.Reversing? && m.requests[t].phase.done == |m.requests[t].rec.registered|
    case StartUndo(u) => u in m.world.units && m.world.units[u].state == Adopted
    case ReleaseUndo(t) => Undoes(m, t) && m.requests[t].phase == Reversing(0)
    case Crash(t) => t in m.requests
    case RecoverPartly(u, done) => Abandoned(m, u) && done <= |m.world.units[u].record.registered|
    case Recover(u) => Abandoned(m, u)
    case ImportFile(p, f) => p in m.world.files ==> m.world.files[p].book !in m.world.books
    case RemoveRow(p) => p in m.world.files
    case MoveRow(p, b) => p in m.world.files && m.world.files[p].book != b
    case AddBook(b, row) => b !in m.world.books
    case EditBook(b, row) => b in m.world.books
    case RemoveBook(b) => b in m.world.books
    case RemoveAuthor(a) => a in m.world.authors
    case Ignore(u) => u in m.world.units && m.world.units[u].state == Pending
    case Unignore(u) => u in m.world.units && m.world.units[u].state == Ignored
  }

  function Apply(m: Machine, s: Step): Machine
    requires Enabled(m, s)
  {
    match s
    case StartAdopt(u) => Claimed(m, u)
    case FirstProgress(t, rec) => Progressed(m, t, rec)
    case RegisterRow(t, p, f) => RowInserted(m, t, p, f)
    case RegisterTorn(t, p, f) => RowTorn(m, t, p, f)
    case RecordRow(t) => RowRecorded(m, t)
    case RebuildRows(t, rows) => RowsRebuilt(m, t, rows)
    case Complete(t) => Completed(m, t)
    case FailRequest(t) => Failing(m, t)
    case UntrackNext(t) => NextUntracked(m, t)
    case Reset(t) => BackToPending(m, t)
    case StartUndo(u) => UndoStarted(m, u)
    case ReleaseUndo(t) => UndoReleased(m, t)
    case Crash(t) => Drop(m, t)
    case RecoverPartly(u, done) => WithWorld(m, UntrackAll(m.world, m.world.units[u].record.registered[..done]))
    case Recover(u) => Recovered(m, u)
    case ImportFile(p, f) => WithWorld(Disowned(m, p), m.world.(files := m.world.files[p := f]))
    case RemoveRow(p) => WithWorld(m, m.world.(files := m.world.files - {p}))
    case MoveRow(p, b) => WithWorld(m, m.world.(files := m.world.files[p := m.world.files[p].(book := b)]))
    case AddBook(b, row) => WithWorld(m, m.world.(books := m.world.books[b := row]))
    case EditBook(b, row) => WithWorld(m, m.world.(books := m.world.books[b := row]))
    case RemoveBook(b) => WithWorld(m, DeleteBook(m.world, b))
    case RemoveAuthor(a) => WithWorld(m, DeleteAuthor(m.world, a))
    case Ignore(u) => StateSet(m, u, Ignored)
    case Unignore(u) => StateSet(m, u, Pending)
  }

  function Claimed(m: Machine, u: Id): Machine
    requires u in m.world.units
  {
    var t := m.next;
    Put(m, t, Request(u, NO_RECORD, Starting)).(
      world := SetUnit(m.world, u, m.world.units[u].(state := Adopting, token := Some(t))),
      owner := m.owner[t := u], claimOf := m.claimOf[u := t], next := t + 1)
  }

  function Progressed(m: Machine, t: Token, rec: Record): Machine
    requires Adopts(m, t)
  {
    Put(StoreRecord(m, t, rec), t, m.requests[t].(rec := rec, phase := Ready)).(target := m.target[t := rec.bookId])
  }

  /** The row is inserted and the book refreshed; the record in memory names it, the stored one does not yet. */
  function RowInserted(m: Machine, t: Token, p: Path, f: Format): Machine
    requires t in m.requests && t in m.target
  {
    var r := m.requests[t];
    Put(InsertRow(m, t, p, Refresh(Track(m.world, m.target[t], f, p), m.target[t])), t,
        r.(rec := r.rec.(registered := r.rec.registered + [Registered(p, m.target[t])]), phase := Recording(p)))
  }

  /** The row is inserted but the status refresh fails, so the request fails without recording it. */
  function RowTorn(m: Machine, t: Token, p: Path, f: Format): Machine
    requires t in m.requests && t in m.target
  {
    Put(InsertRow(m, t, p, Track(m.world, m.target[t], f, p)), t, m.requests[t].(phase := Reversing(0)))
  }

  function RowRecorded(m: Machine, t: Token): Machine
    requires Adopts(m, t)
  {
    Put(StoreRecord(m, t, m.requests[t].rec), t, m.requests[t].(phase := Ready)).(loose := m.loose - {t})
  }

  function RowsRebuilt(m: Machine, t: Token, rows: seq<Registered>): Machine
    requires t in m.requests
  {
    Put(m, t, m.requests[t].(rec := m.requests[t].rec.(registered := rows), phase := Rebuilt))
  }

  function Completed(m: Machine, t: Token): Machine
    requires t in m.requests
  {
    Drop(m, t).(world := SetUnit(m.world, m.requests[t].unit, Unit(Adopted, None, m.requests[t].rec)))
  }

  function Failing(m: Machine, t: Token): Machine
    requires t in m.requests
  {
    Put(m, t, m.requests[t].(phase := Reversing(0)))
  }

  function NextUntracked(m: Machine, t: Token): Machine
    requires t in m.requests && m.requests[t].phase.Reversing?
             && m.requests[t].phase.done < |m.requests[t].rec.registered|
  {
    Advanced(WithWorld(m, Untrack(m.world, m.requests[t].rec.registered[m.requests[t].phase.done])), t)
  }

  function Advanced(m: Machine, t: Token): Machine
    requires t in m.requests && m.requests[t].phase.Reversing?
  {
    Put(m, t, m.requests[t].(phase := Reversing(m.requests[t].phase.done + 1)))
  }

  function BackToPending(m: Machine, t: Token): Machine
    requires t in m.requests
  {
    Drop(m, t).(world := SetUnit(m.world, m.requests[t].unit, Unit(Pending, None, NO_RECORD)))
  }

  function UndoStarted(m: Machine, u: Id): Machine
    requires u in m.world.units
  {
    var t := m.next;
    Put(m, t, Request(u, m.world.units[u].record, Reversing(0))).(
      world := SetUnit(m.world, u, m.world.units[u].(state := Undoing, token := Some(t))), next := t + 1)
  }

  function UndoReleased(m: Machine, t: Token): Machine
    requires Undoes(m, t)
  {
    var u := m.requests[t].unit;
    Drop(m, t).(world := SetUnit(m.world, u, m.world.units[u].(state := Adopted, token := None)))
  }

  function Recovered(m: Machine, u: Id): Machine
    requires u in m.world.units
  {
    var w := UntrackAll(m.world, m.world.units[u].record.registered);
    WithWorld(m, w.(units := w.units[u := Unit(Pending, None, NO_RECORD)]))
  }

  function StateSet(m: Machine, u: Id, state: UnitState): Machine
    requires u in m.world.units
  {
    m.(world := SetUnit(m.world, u, m.world.units[u].(state := state)))
  }

  function Disowned(m: Machine, p: Path): Machine { m.(origin := m.origin - {p}) }

  function StoreRecord(m: Machine, t: Token, rec: Record): Machine
    requires t in m.requests && m.requests[t].unit in m.world.units
  {
    var u := m.requests[t].unit;
    m.(world := SetUnit(m.world, u, m.world.units[u].(record := rec)))
  }

  function InsertRow(m: Machine, t: Token, p: Path, w: World): Machine {
    m.(world := w, origin := m.origin[p := t], loose := m.loose[t := p])
  }

  // ----- the invariant -----

  predicate Live(m: Machine, t: Token) {
    && t in m.owner && m.owner[t] in m.world.units && m.owner[t] in m.claimOf && m.claimOf[m.owner[t]] == t
    && m.world.units[m.owner[t]].state in {Adopting, Adopted, Undoing}
  }

  /** The stored record of the claim's unit names the row. */
  predicate Named(m: Machine, t: Token, p: Path)
    requires t in m.owner && m.owner[t] in m.world.units && t in m.target
  {
    Registered(p, m.target[t]) in m.world.units[m.owner[t]].record.registered
  }

  predicate Loose(m: Machine, t: Token, p: Path) { t in m.loose && m.loose[t] == p }

  /**
   * Every row a claim inserted and still owns is named in the stored record while the claim lives, or is its loose row.
   */
  ghost predicate RowOk(m: Machine, p: Path)
    requires p in m.origin
  {
    var t := m.origin[p];
    && p in m.world.files && t in m.target && t in m.owner && t < m.next && m.world.files[p].book == m.target[t]
    && m.owner[t] in m.world.units
    && (Loose(m, t, p) || (Live(m, t) && Named(m, t, p)))
  }

  /** The row is still to be untracked by a reversal that has done this many. */
  predicate Ahead(rows: seq<Registered>, done: nat, r: Registered)
    requires done <= |rows|
  {
    r in rows[done..]
  }

  ghost predicate AdoptRequestOk(m: Machine, t: Token)
    requires t in m.requests
  {
    var r := m.requests[t];
    && t in m.owner && m.owner[t] == r.unit && Live(m, t) && Holds(m.world, r.unit, Adopting, t)
    && match r.phase
       case Starting => t !in m.loose && (forall p :: p in m.origin ==> m.origin[p] != t)
       case Ready => t !in m.loose && t in m.target && r.rec.registered == m.world.units[r.unit].record.registered
       case Recording(p) =>
         && t in m.target && Loose(m, t, p)
         && r.rec.registered == m.world.units[r.unit].record.registered + [Registered(p, m.target[t])]
       case Rebuilt =>
         && t !in m.loose && t in m.target
         && (forall p :: p in m.origin && m.origin[p] == t ==> Registered(p, m.target[t]) in r.rec.registered)
       case Reversing(done) =>
         && done <= |r.rec.registered|
         && (forall p :: p in m.origin && m.origin[p] == t ==>
               Loose(m, t, p) || (t in m.target && Ahead(r.rec.registered, done, Registered(p, m.target[t]))))
  }

  ghost predicate UndoRequestOk(m: Machine, t: Token)
    requires t in m.requests
  {
    var r := m.requests[t];
    && Holds(m.world, r.unit, Undoing, t)
    && r.phase.Reversing? && r.phase.done <= |r.rec.registered|
    && (forall p :: p in m.origin && m.origin[p] in m.owner && m.owner[m.origin[p]] == r.unit &&
                    Live(m, m.origin[p]) ==>
          m.origin[p] in m.target && Ahead(r.rec.registered, r.phase.done, Registered(p, m.target[m.origin[p]])))
  }

  ghost predicate RequestOk(m: Machine, t: Token)
    requires t in m.requests
  {
    t < m.next && (AdoptRequestOk(m, t) || UndoRequestOk(m, t))
  }

  /** An adopting unit is held by the claim it was last adopted under; an adopted or undoing one has no loose row. */
  ghost predicate UnitOk(m: Machine, u: Id)
    requires u in m.world.units
  {
    var unit := m.world.units[u];
    && (unit.state in {Adopting, Adopted, Undoing} ==>
          && u in m.claimOf && m.claimOf[u] < m.next && m.claimOf[u] in m.owner && m.owner[m.claimOf[u]] == u)
    && (unit.state == Adopting ==> unit.token == Some(m.claimOf[u]))
    && (unit.state in {Adopted, Undoing} ==> m.claimOf[u] !in m.loose)
    && (unit.state == Undoing ==> unit.token.Some? && unit.token.value < m.next && unit.token.value !in m.owner)
    && (unit.state in {Pending, Ignored} ==> unit.record.registered == [])
  }

  ghost predicate Inv(m: Machine) {
    && (forall p :: p in m.origin ==> RowOk(m, p))
    && (forall t :: t in m.requests ==> RequestOk(m, t))
    && (forall u :: u in m.world.units ==> UnitOk(m, u))
    && TokensOk(m)
  }

  ghost predicate TokensOk(m: Machine) {
    && (forall t :: t in m.owner ==> t < m.next)
    && (forall t :: t in m.loose ==> t < m.next)
    && (forall t :: t in m.target ==> t < m.next)
  }
}
