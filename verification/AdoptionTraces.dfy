// Every run of the adoption machine: what its invariant says about the rows that claims inserted.

module AdoptionTraces {
  import opened Common
  import opened AdoptionStore
  import opened AdoptionMachine
  import opened AdoptionFrames
  import opened AdoptionSteps
  import opened AdoptionReversing

  // ----- every run -----

  lemma StepKeeps(m: Machine, s: Step)
    requires Inv(m) && Enabled(m, s)
    ensures Inv(Apply(m, s))
  {
    match s
    case StartAdopt(u) => StartAdoptKeeps(m, u);
    case FirstProgress(t, rec) => FirstProgressKeeps(m, t, rec);
    case RegisterRow(t, p, f) => RegisterRowKeeps(m, t, p, f);
    case RegisterTorn(t, p, f) => RegisterTornKeeps(m, t, p, f);
    case RecordRow(t) => RecordRowKeeps(m, t);
    case RebuildRows(t, rows) => RebuildKeeps(m, t, rows);
    case Complete(t) => CompleteKeeps(m, t);
    case FailRequest(t) => FailKeeps(m, t);
    case UntrackNext(t) => UntrackNextKeeps(m, t);
    case Reset(t) => ResetKeeps(m, t);
    case StartUndo(u) => StartUndoKeeps(m, u);
    case ReleaseUndo(t) => ReleaseUndoKeeps(m, t);
    case Crash(t) => CrashKeeps(m, t);
    case Recover(u) => RecoverKeeps(m, u);
    case Ignore(u) => IgnoreKeeps(m, u, Ignored);
    case Unignore(u) => IgnoreKeeps(m, u, Pending);
    case ImportFile(p, f) => ImportFileKeeps(m, p, f);
    case RemoveBook(b) => RemoveBookKeeps(m, b);
    case RemoveAuthor(a) => RemoveAuthorKeeps(m, a);
    case RecoverPartly(u, done) => RecoverPartlyKeeps(m, m.world.units[u].record.registered[..done]);
    case _ => TablesKeep(m, s);
  }

  predicate PossibleRun(m: Machine, run: seq<Step>)
    decreases |run|
  {
    run == [] || (Enabled(m, run[0]) && PossibleRun(Apply(m, run[0]), run[1..]))
  }

  function After(m: Machine, run: seq<Step>): Machine
    requires PossibleRun(m, run)
    decreases |run|
  {
    if run == [] then m else After(Apply(m, run[0]), run[1..])
  }

  /** A library with units nobody has decided on yet. */
  ghost predicate Initial(m: Machine) {
    && m.requests == map[] && m.origin == map[] && m.owner == map[] && m.target == map[] && m.claimOf == map[]
    && m.loose == map[]
    && forall u :: u in m.world.units ==> m.world.units[u] == Unit(Pending, None, NO_RECORD)
  }

  lemma {:induction false} RunKeeps(m: Machine, run: seq<Step>)
    requires Inv(m) && PossibleRun(m, run)
    ensures Inv(After(m, run))
    decreases |run|
  {
    if run != [] {
      StepKeeps(m, run[0]);
      RunKeeps(Apply(m, run[0]), run[1..]);
    }
  }

  /**
   * Main result: in every run, a row that a claim inserted and that still belongs to its book is named in the stored
   * record of the unit as long as the claim is adopting, adopted or undoing, with at most one exception, the row whose
   * recording has not happened; once the unit is adopted or undoing there is no exception, and once the claim is over
   * no row of it is left but that one.
   */
  lemma EveryRowIsRecorded(m: Machine, run: seq<Step>, p: Path)
    requires Initial(m) && PossibleRun(m, run) && p in After(m, run).origin
    ensures var m' := After(m, run); var t := m'.origin[p];
            && t in m'.owner && m'.owner[t] in m'.world.units && t in m'.target
            && p in m'.world.files && m'.world.files[p].book == m'.target[t]
            && (Loose(m', t, p) || (Live(m', t) && Named(m', t, p)))
            && (Live(m', t) && m'.world.units[m'.owner[t]].state != Adopting ==> Named(m', t, p))
  {
    assert Inv(m);
    RunKeeps(m, run);
    var m' := After(m, run);
    assert RowOk(m', p);
    assert UnitOk(m', m'.owner[m'.origin[p]]);
  }

  /** A live adopt between two registrations has recorded everything it inserted. */
  lemma ReadyRequestIsRecorded(m: Machine, run: seq<Step>, t: Token, p: Path)
    requires Initial(m) && PossibleRun(m, run)
    requires var m' := After(m, run);
             t in m'.requests && m'.requests[t].phase == Ready && p in m'.origin && m'.origin[p] == t
    ensures var m' := After(m, run); t in m'.owner && m'.owner[t] in m'.world.units && t in m'.target && Named(m', t, p)
  {
    assert Inv(m);
    RunKeeps(m, run);
    var m' := After(m, run);
    assert RowOk(m', p) && RequestOk(m', t);
  }

  // ----- the exception happens -----

  /** One wanted book, and unit 7 that nobody has decided on. */
  function OnePending(): Machine {
    Machine(World(map[7 := Unit(Pending, None, NO_RECORD)], map[1 := Book(3, Wanted, EbookOnly, 0)], {3}, map[], {}),
            map[], map[], map[], map[], map[], map[], 0)
  }

  /** The unit is adopted into the book; the status refresh fails after its file was inserted, and that is reversed. */
  function TornRun(): seq<Step> {
    [StartAdopt(7), FirstProgress(0, NO_RECORD.(bookId := 1)), RegisterTorn(0, "dune.epub", Ebook), Reset(0)]
  }

  lemma RunOfFour(m: Machine, a: Step, b: Step, c: Step, d: Step)
    requires Enabled(m, a) && Enabled(Apply(m, a), b) && Enabled(Apply(Apply(m, a), b), c)
    requires Enabled(Apply(Apply(Apply(m, a), b), c), d)
    ensures PossibleRun(m, [a, b, c, d])
    ensures After(m, [a, b, c, d]) == Apply(Apply(Apply(Apply(m, a), b), c), d)
  {
    assert [a, b, c, d][1..] == [b, c, d] && [b, c, d][1..] == [c, d] && [c, d][1..] == [d] && [d][1..] == [];
    var m1 := Apply(m, a);
    var m2 := Apply(m1, b);
    var m3 := Apply(m2, c);
    assert PossibleRun(m3, [d]) && After(m3, [d]) == After(Apply(m3, d), []);
    assert PossibleRun(m2, [c, d]) && After(m2, [c, d]) == After(m3, [d]);
    assert PossibleRun(m1, [b, c, d]) && After(m1, [b, c, d]) == After(m2, [c, d]);
  }

  lemma TornTail(m: Machine)
    requires Adopts(m, 0) && m.requests == map[0 := Request(7, NO_RECORD.(bookId := 1), Ready)]
    requires m.target == map[0 := 1] && m.world.units.Keys == {7} && 1 in m.world.books
    requires m.world.files == map[] && m.origin == map[]
    ensures Enabled(m, TornRun()[2]) && Enabled(Apply(m, TornRun()[2]), TornRun()[3])
    ensures var m' := Apply(Apply(m, TornRun()[2]), TornRun()[3]);
            && m'.requests == map[] && m'.world.units == map[7 := Unit(Pending, None, NO_RECORD)]
            && m'.world.files == map["dune.epub" := File(1, Ebook)] && m'.origin == map["dune.epub" := 0]
  {
  }

  /** The request is over and the unit pending again, and the row it inserted is still tracked. */
  lemma TornRunLeavesARow()
    ensures Initial(OnePending()) && PossibleRun(OnePending(), TornRun())
    ensures var m' := After(OnePending(), TornRun());
            && m'.requests == map[] && m'.world.units == map[7 := Unit(Pending, None, NO_RECORD)]
            && m'.world.files == map["dune.epub" := File(1, Ebook)] && m'.origin == map["dune.epub" := 0]
  {
    TornTail(Progressed(Claimed(OnePending(), 7), 0, NO_RECORD.(bookId := 1)));
    RunOfFour(OnePending(), TornRun()[0], TornRun()[1], TornRun()[2], TornRun()[3]);
  }
}
