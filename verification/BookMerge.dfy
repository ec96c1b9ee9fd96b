// The plan of a book merge: relink, merged fields and conflict rows, as the guarded merge writes and records them.

module BookMerge {
  import opened Common
  import opened Text
  import opened ConflictValues
  import opened MergeFields
  import GuardedMerge

  /** What a plan reads beside the row: the conflict rows, and whether another book has the upstream id. */
  datatype Seen = Seen(known: Known, taken: bool)

  predicate Relinks(b: Book, full: Book) { full.foreignId != "" && b.foreignId != full.foreignId }

  function Relinked(b: Book, full: Book): Book {
    b.(foreignId := full.foreignId, provider := if full.provider != "" then full.provider else b.provider)
  }

  /** The copy whose fields a plan merges. */
  function Start(b: Book, full: Book): Book { if Relinks(b, full) then Relinked(b, full) else b }

  /** One attempt at merging full into b. */
  function PlanBook(k: Forms, item: Item, full: Book, b: Book, seen: Seen): GuardedMerge.Plan<Book, Row>
    requires Inputs(k, b, item, full)
  {
    if Relinks(b, full) && seen.taken then GuardedMerge.Plan(b, false, None, [])
    else
      var start := Start(b, full);
      var d := Merged(k, start, item, full, seen.known);
      GuardedMerge.Plan(d.book, Relinks(b, full) || d.decided,
                        if Relinks(b, full) then Some(Trim(b.foreignId)) else None, d.rows)
  }

  lemma {:induction false} RowsNeedDecisions(k: Forms, b: Book, item: Item, full: Book, known: Known,
                                             fields: seq<Field>)
    requires Inputs(k, b, item, full)
    ensures var d := MergeFields.MergeFields(k, b, item, full, known, fields); d.rows != [] ==> d.decided
  {
    if fields != [] { RowsNeedDecisions(k, b, item, full, known, fields[..|fields| - 1]); }
  }

  /** A plan that writes nothing records nothing, so no conflict row is ever recorded without a write. */
  lemma NoWriteNoRows(k: Forms, item: Item, full: Book, b: Book, seen: Seen)
    requires Inputs(k, b, item, full) && !PlanBook(k, item, full, b, seen).write
    ensures PlanBook(k, item, full, b, seen).records == []
  {
    var start := Start(b, full);
    RowsNeedDecisions(k, start, item, full, seen.known, FIELDS);
  }

  lemma {:induction false} MergingKeepsIdentity(k: Forms, b: Book, item: Item, full: Book, known: Known,
                                                fields: seq<Field>)
    requires Inputs(k, b, item, full)
    ensures var d := MergeFields.MergeFields(k, b, item, full, known, fields);
            d.book.foreignId == b.foreignId && d.book.provider == b.provider
  {
    if fields != [] { MergingKeepsIdentity(k, b, item, full, known, fields[..|fields| - 1]); }
  }

  /**
   * Under which identity a plan leaves the book: upstream's where it has one that no other book has taken, with its
   * provider if it names one; where another book has taken it, the plan does nothing at all.
   */
  lemma PlanDecidesIdentity(k: Forms, item: Item, full: Book, b: Book, seen: Seen)
    requires Inputs(k, b, item, full)
    ensures var p := PlanBook(k, item, full, b, seen);
            if full.foreignId == "" || full.foreignId == b.foreignId then
              p.row.foreignId == b.foreignId && p.row.provider == b.provider
            else if seen.taken then
              p == GuardedMerge.Plan(b, false, None, [])
            else
              && p.write && p.row.foreignId == full.foreignId
              && (full.provider != "" ==> p.row.provider == full.provider)
              && (full.provider == "" ==> p.row.provider == b.provider)
  {
    MergingKeepsIdentity(k, Start(b, full), item, full, seen.known, FIELDS);
  }

  /** A plan that does not write would have changed nothing. */
  lemma UnwrittenPlanKeepsTheBook(k: Forms, item: Item, full: Book, b: Book, seen: Seen)
    requires Inputs(k, b, item, full) && !PlanBook(k, item, full, b, seen).write
    ensures PlanBook(k, item, full, b, seen).row == b
  {
    UndecidedKeepsTheBook(k, Start(b, full), item, full, seen.known, FIELDS);
  }

  lemma {:induction false} UndecidedKeepsTheBook(k: Forms, b: Book, item: Item, full: Book, known: Known,
                                                 fields: seq<Field>)
    requires Inputs(k, b, item, full)
    ensures var d := MergeFields.MergeFields(k, b, item, full, known, fields); !d.decided ==> d.book == b
  {
    if fields != [] { UndecidedKeepsTheBook(k, b, item, full, known, fields[..|fields| - 1]); }
  }

  /** A plan sets an id aside exactly when the row it writes has another one, and then it is the id the row had. */
  lemma SetsAsideTheReplacedId(k: Forms, item: Item, full: Book, b: Book, seen: Seen)
    requires Inputs(k, b, item, full)
    ensures var p := PlanBook(k, item, full, b, seen);
            && (p.previous.Some? <==> p.row.foreignId != b.foreignId)
            && (p.previous.Some? ==> p.write && p.previous.value == Trim(b.foreignId))
            && p.row.foreignId in {b.foreignId, full.foreignId}
  {
    MergingKeepsIdentity(k, Start(b, full), item, full, seen.known, FIELDS);
  }

  /**
   * Main result: when a guarded merge relinked a book and attaching the replaced id did not fail,
       that id found the book
   * before it was written.
   */
  lemma RelinkedBookKeepsItsKey(m: GuardedMerge.Importer<Book, Seen, Row>, k: Forms, item: Item, full: Book,
                                mine: seq<GuardedMerge.Event<Book, Seen, Row>>, id: GuardedMerge.Id)
    requires m.plan == PlanFor(k, item, full) && (forall b, at :: m.stamp(b, at) == b) && m.SoundMerge(mine, id)
    requires mine != [] && mine[0].Write? && m.KeepsReplaced(mine, id)
    ensures mine[0].after.foreignId in {mine[0].before.foreignId, full.foreignId}
    ensures mine[0].after.foreignId != mine[0].before.foreignId ==>
              GuardedMerge.Finds(mine[0].attached, id, Trim(mine[0].before.foreignId))
  {
    var b, seen := mine[0].before, mine[0].seen;
    if Inputs(k, b, item, full) { SetsAsideTheReplacedId(k, item, full, b, seen); }
  }

  /** Row r says of `stored` what it holds: the value of the applied source, or nothing where that is a lost date. */
  predicate Describes(k: Forms, b: Book, full: Book, stored: Book, r: Row)
    requires RealDates(b) && RealDates(stored)
  {
    var v := ValueOf(r, r.applied);
    Current(k, stored, r.field) == if Loses(k, Start(b, full), r.field, v) then "" else Normalize(k, r.field, v)
  }

  /** Each row a plan records describes the row it writes. */
  lemma PlannedRowsDescribe(k: Forms, item: Item, full: Book, b: Book, seen: Seen, r: Row)
    requires Fit(k, b, item, full) && r in PlanBook(k, item, full, b, seen).records
    ensures RealDates(PlanBook(k, item, full, b, seen).row)
    ensures Describes(k, b, full, PlanBook(k, item, full, b, seen).row, r)
  {
    RowsDescribeTheStoredBook(k, Start(b, full), item, full, seen.known, r);
  }

  /**
   * Planning the same record again on the row written, with its conflict rows stored, changes no field and relinks
   * nothing.
   */
  lemma PlanningAgainChangesNothing(k: Forms, item: Item, full: Book, b: Book, seen: Seen, takenLater: bool)
    requires Fit(k, b, item, full) && (Relinks(b, full) ==> !seen.taken)
    ensures var once := PlanBook(k, item, full, b, seen);
            var again := PlanBook(k, item, full, once.row, Seen(Recorded(seen.known, once.records), takenLater));
            again.row == once.row && again.previous == None
  {
    var start := Start(b, full);
    MergingKeepsIdentity(k, start, item, full, seen.known, FIELDS);
    MergingAgainChangesNothing(k, start, item, full, seen.known);
  }

  // ----- what a guarded merge leaves -----

  /** The plan as the guarded merge runs it, on any copy of the row. */
  function PlanFor(k: Forms, item: Item, full: Book): (Book, Seen) -> GuardedMerge.Plan<Book, Row> {
    (b: Book, seen: Seen) =>
      if Inputs(k, b, item, full) then PlanBook(k, item, full, b, seen) else GuardedMerge.Plan(b, false, None, [])
  }

  /**
   * Main result: with others writing all the while, every conflict row a guarded merge recorded follows a write, and
   * describes the row that write left.
   */
  lemma RecordedRowsDescribe(m: GuardedMerge.Importer<Book, Seen, Row>, k: Forms, item: Item, full: Book,
                             mine: seq<GuardedMerge.Event<Book, Seen, Row>>, id: GuardedMerge.Id, i: nat)
    requires Lawful(k) && m.plan == PlanFor(k, item, full) && forall b, at :: m.stamp(b, at) == b
    requires m.SoundMerge(mine, id) && i < |mine| && mine[i].Record?
    ensures mine[0].Write? && mine[0].id == id && RealDates(mine[0].before) && RealDates(mine[0].after)
    ensures Describes(k, mine[0].before, full, mine[0].after, mine[i].record)
  {
    if m.FreshWrite(mine[0], id) && m.RecordsOf(mine[1..], m.plan(mine[0].before, mine[0].seen)) {
      assert mine[1..][i - 1] == mine[i];
      RecordsComeFromThePlan(m, mine[1..], m.plan(mine[0].before, mine[0].seen), i - 1);
      PlannedRowsDescribe(k, item, full, mine[0].before, mine[0].seen, mine[i].record);
    } else {
      var row, seen :| !m.plan(row, seen).write && m.RecordsOf(mine, m.plan(row, seen));
      RecordsNeedWrites(k, item, full, row, seen);
    }
  }

  lemma RecordsComeFromThePlan(m: GuardedMerge.Importer<Book, Seen, Row>,
                               es: seq<GuardedMerge.Event<Book, Seen, Row>>, p: GuardedMerge.Plan<Book, Row>, i: nat)
    requires m.RecordsOf(es, p) && i < |es|
    ensures es[i].Record? && es[i].record in p.records
  {
    var n: nat :| n <= |p.records| && es == GuardedMerge.AllRecords(p.records[..n]);
    assert es[i] == GuardedMerge.Record(p.records[..n][i]);
  }

  lemma RecordsNeedWrites(k: Forms, item: Item, full: Book, b: Book, seen: Seen)
    requires !PlanFor(k, item, full)(b, seen).write
    ensures PlanFor(k, item, full)(b, seen).records == []
  {
    if Inputs(k, b, item, full) { NoWriteNoRows(k, item, full, b, seen); }
  }

  // ----- the planning loop -----

  /** The conflict rows that wait for somebody to choose. */
  function Unresolved(rows: seq<Row>): nat {
    if rows == [] then 0 else Unresolved(rows[..|rows| - 1]) + (if rows[|rows| - 1].resolved then 0 else 1)
  }

  lemma UnresolvedOneMore(rows: seq<Row>, r: Row)
    ensures Unresolved(rows + [r]) == Unresolved(rows) + (if r.resolved then 0 else 1)
  {
    assert (rows + [r])[..|rows|] == rows;
  }

  /** The in-memory copy a merge works on, the conflict rows to record, and the counters that decide about the write. */
  class BookDraft {
    const forms: Forms
    var book: Book
    var conflicts: seq<Row>
    var autoResolved: nat
    var unresolved: nat
    var changed: bool

    constructor (k: Forms, b: Book)
      ensures forms == k && book == b && conflicts == [] && autoResolved == 0 && unresolved == 0 && !changed
    {
      forms, book := k, b;
      conflicts, autoResolved, unresolved, changed := [], 0, 0, false;
    }

    /** The counter of open conflicts agrees with the rows. */
    ghost predicate Tallied() reads this { unresolved == Unresolved(conflicts) }

    ghost function Contents(): Draft reads this { Draft(book, conflicts, autoResolved > 0 || unresolved > 0) }

    /** Decide one field: apply the chosen value if it differs, and keep the conflict row for after the write. */
    method PlanConflictField(item: Item, full: Book, known: Known, f: Field) returns (choice: Option<Decision>)
      requires Inputs(forms, book, item, full)
      modifies this
      ensures Contents() == MergeField(forms, old(Contents()), item, full, known, f)
      ensures choice == Decide(forms, f, Candidate(forms, old(book), item, f), Serialize(forms, full, f), known)
      ensures unresolved == old(unresolved) + (if choice.Some? && choice.value.contested then 1 else 0)
      ensures autoResolved == old(autoResolved) + (if choice.Some? && !choice.value.contested then 1 else 0)
      ensures old(Tallied()) ==> Tallied()
      ensures changed ==> old(changed) || autoResolved > 0 || unresolved > 0
      ensures old(changed) ==> changed
    {
      var absValue, upstreamValue;
      absValue, upstreamValue, choice := Weigh(item, full, known, f);
      if choice.Some? { Adopt(f, absValue, upstreamValue, choice.value); }
    }

    /** The two values of a field, and the decision between them. */
    method Weigh(item: Item, full: Book, known: Known, f: Field)
      returns (absValue: string, upstreamValue: string, choice: Option<Decision>)
      requires Inputs(forms, book, item, full)
      ensures absValue == Candidate(forms, book, item, f) && upstreamValue == Serialize(forms, full, f)
      ensures choice == Decide(forms, f, absValue, upstreamValue, known)
      ensures choice.Some? && choice.value.contested ==> choice.value.record
    {
      absValue, upstreamValue := Candidate(forms, book, item, f), Serialize(forms, full, f);
      var preferred := if f in known then known[f].preferred else None;
      choice := Choose(v => Normalize(forms, f, v), absValue, upstreamValue, preferred, f in known);
      assert choice == Decide(forms, f, absValue, upstreamValue, known);
    }

    /** Pick the source by presence, equality, and remembered preference. */
    method Choose(n: string -> string, absValue: string, upstreamValue: string, preferred: Option<Source>,
                  existing: bool)
      returns (choice: Option<Decision>)
      ensures choice == DecideBy(n, absValue, upstreamValue, preferred, existing)
      ensures choice.Some? && choice.value.contested ==> choice.value.record
    {
      var normAbs, normUpstream := n(absValue), n(upstreamValue);
      var source, value := Upstream, upstreamValue;
      var persist, contested := existing, false;
      if normAbs == "" && normUpstream == "" { return None; }
      if normUpstream == "" {
        source, value := Abs, absValue;
      } else if normAbs == normUpstream {
        if Trim(value) == "" { source, value := Abs, absValue; }
      } else if normAbs != "" {
        persist := true;
        if preferred.Some? {
          source := preferred.value;
          if source == Abs { value := absValue; }
        } else {
          contested := true;
        }
      }
      choice := Some(Decision(source, value, preferred, contested, persist));
    }

    method Adopt(f: Field, absValue: string, upstreamValue: string, c: Decision)
      requires RealDates(book)
      modifies this
      ensures Contents() == Take(forms, old(Contents()), f, absValue, upstreamValue, Some(c))
      ensures unresolved == old(unresolved) + (if c.contested then 1 else 0)
      ensures autoResolved == old(autoResolved) + (if c.contested then 0 else 1)
      ensures old(Tallied()) && (c.contested ==> c.record) ==> Tallied()
      ensures changed ==> old(changed) || autoResolved > 0 || unresolved > 0
      ensures old(changed) ==> changed
    {
      if c.contested { unresolved := unresolved + 1; } else { autoResolved := autoResolved + 1; }
      if Normalize(forms, f, Serialize(forms, book, f)) != Normalize(forms, f, c.value) {
        book := ApplyValue(forms, book, f, c.value);
        changed := true;
      }
      if c.record { Note(Row(f, absValue, upstreamValue, c.source, c.preferred, !c.contested)); }
    }

    /** Keep a conflict row for after the write. */
    method Note(r: Row)
      modifies this`conflicts
      ensures conflicts == old(conflicts) + [r]
      ensures Unresolved(conflicts) == old(Unresolved(conflicts)) + (if r.resolved then 0 else 1)
    {
      UnresolvedOneMore(conflicts, r);
      conflicts := conflicts + [r];
    }

    /** Plan a whole merge; taken says that another book already has the upstream id. */
    method Plan(item: Item, full: Book, known: Known, taken: bool) returns (write: bool, previous: Option<string>)
      requires Inputs(forms, book, item, full)
      requires conflicts == [] && autoResolved == 0 && unresolved == 0 && !changed
      modifies this
      ensures PlanBook(forms, item, full, old(book), Seen(known, taken)) ==
              GuardedMerge.Plan(book, write, previous, conflicts)
      ensures Tallied()
    {
      previous := None;
      if full.foreignId != "" && book.foreignId != full.foreignId {
        if taken { return false, None; }
        previous := Some(Trim(book.foreignId));
        book := Relinked(book, full);
        changed := true;
      }
      write := PlanFields(FIELDS, item, full, known, changed);
    }

    /** Plan the fields of the copy one by one. */
    method PlanFields(fields: seq<Field>, item: Item, full: Book, known: Known, relinked: bool) returns (write: bool)
      requires Inputs(forms, book, item, full) && changed == relinked
      requires conflicts == [] && autoResolved == 0 && unresolved == 0
      modifies this
      ensures var d := MergeFields.MergeFields(forms, old(book), item, full, known, fields);
              book == d.book && conflicts == d.rows && write == (relinked || d.decided)
      ensures Tallied()
    {
      ghost var start := book;
      for n := 0 to |fields|
        invariant Inputs(forms, book, item, full) && Inputs(forms, start, item, full)
        invariant Contents() == MergeFields.MergeFields(forms, start, item, full, known, fields[..n])
        invariant relinked ==> changed
        invariant Tallied()
        invariant changed ==> relinked || autoResolved > 0 || unresolved > 0
      {
        assert fields[..n + 1][..n] == fields[..n];
        var _ := PlanConflictField(item, full, known, fields[n]);
      }
      assert fields[..|fields|] == fields;
      write := changed || unresolved != 0 || autoResolved != 0;
    }
  }
}
