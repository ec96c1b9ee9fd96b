// Merging an upstream record into a book, field by field: which source is applied, which conflict rows are recorded,
// and what merging the same record again does.

module MergeFields {
  import opened Common
  import opened Text
  import opened ConflictValues

  datatype Source = Abs | Upstream

  /** A conflict row; a source the user once chose is its preference. */
  datatype Row = Row(
    field: Field, absValue: string, upstreamValue: string, applied: Source, preferred: Option<Source>, resolved: bool)

  function ValueOf(r: Row, s: Source): string { if s == Abs then r.absValue else r.upstreamValue }

  /** The conflict rows stored for the book. */
  type Known = map<Field, Row>

  function Preferred(known: Known, f: Field): Option<Source> { if f in known then known[f].preferred else None }

  /** What the imported item says about the book. */
  datatype Item = Item(description: string, date: Option<Date>, language: string)

  /** The value the item offers: its own where it has one, otherwise what the book holds. */
  function Candidate(k: Forms, b: Book, item: Item, f: Field): string
    requires RealDates(b) && (item.date.Some? ==> RealDate(item.date.value))
  {
    if f == Description && k.clean(item.description) != "" then k.clean(item.description)
    else if f == ReleaseDate && FormatDate(item.date) != "" then FormatDate(item.date)
    else if f == Language && k.lang(item.language) != "" then k.lang(item.language)
    else Serialize(k, b, f)
  }

  /** The source and value chosen; contested when the sources disagree and nobody has chosen yet. */
  datatype Decision = Decision(source: Source, value: string, preferred: Option<Source>, contested: bool, record: bool)

  function Decide(k: Forms, f: Field, abs: string, up: string, known: Known): Option<Decision> {
    DecideBy(v => Normalize(k, f, v), abs, up, Preferred(known, f), f in known)
  }

  /** With n the normal form, p the remembered preference, and stored whether the field has a conflict row. */
  function DecideBy(n: string -> string, abs: string, up: string, p: Option<Source>, stored: bool): Option<Decision> {
    if n(abs) == "" && n(up) == "" then None
    else if n(abs) == "" then Some(Decision(Upstream, up, p, false, stored))
    else if n(up) == "" then Some(Decision(Abs, abs, p, false, stored))
    else if n(abs) == n(up) then
      Some(if Trim(up) == "" then Decision(Abs, abs, p, false, stored) else Decision(Upstream, up, p, false, stored))
    else if p == Some(Abs) then Some(Decision(Abs, abs, p, false, true))
    else Some(Decision(Upstream, up, p, p.None?, true))
  }

  /** When a decision is recorded, and when it is left open. */
  lemma DecisionRecords(n: string -> string, abs: string, up: string, p: Option<Source>, stored: bool)
    ensures var d, disagree := DecideBy(n, abs, up, p, stored), n(abs) != "" && n(up) != "" && n(abs) != n(up);
            && (d.Some? <==> n(abs) != "" || n(up) != "")
            && (d.Some? ==> (d.value.record <==> disagree || stored))
            && (d.Some? ==> (d.value.contested <==> disagree && p.None?))
  {
  }

  function RowOf(f: Field, abs: string, up: string, d: Decision): Row {
    Row(f, abs, up, d.source, d.preferred, !d.contested)
  }

  // ----- one merge -----

  /** A merge in progress: the copy of the row, the rows to record, and whether anything was decided. */
  datatype Draft = Draft(book: Book, rows: seq<Row>, decided: bool)

  predicate Inputs(k: Forms, b: Book, item: Item, full: Book) {
    RealDates(b) && RealDates(full) && (item.date.Some? ==> RealDate(item.date.value))
  }

  function MergeField(k: Forms, d: Draft, item: Item, full: Book, known: Known, f: Field): (r: Draft)
    requires Inputs(k, d.book, item, full)
    ensures RealDates(r.book)
  {
    var abs, up := Candidate(k, d.book, item, f), Serialize(k, full, f);
    Take(k, d, f, abs, up, Decide(k, f, abs, up, known))
  }

  /** Apply the chosen value if it differs from what is stored, and note the row to record. */
  function Take(k: Forms, d: Draft, f: Field, abs: string, up: string, choice: Option<Decision>): (r: Draft)
    requires RealDates(d.book)
    ensures RealDates(r.book)
  {
    match choice
    case None => d
    case Some(c) =>
      var book := if Current(k, d.book, f) != Normalize(k, f, c.value) then ApplyValue(k, d.book, f, c.value)
                  else d.book;
      Draft(book, if c.record then d.rows + [RowOf(f, abs, up, c)] else d.rows, true)
  }

  /** Applying this value loses it: its date does not read back, and it is not what the book already holds. */
  predicate Loses(k: Forms, b: Book, f: Field, v: string)
    requires RealDates(b)
  {
    TooLong(f, v) && Current(k, b, f) != Normalize(k, f, v)
  }

  lemma TakeStores(k: Forms, d: Draft, f: Field, abs: string, up: string, choice: Option<Decision>)
    requires Lawful(k) && RealDates(d.book)
    requires choice.Some? ==> Offered(k, f, choice.value.value) && Normalize(k, f, choice.value.value) != ""
    ensures var b' := Take(k, d, f, abs, up, choice).book;
            && Current(k, b', f) == Resulting(k, d.book, f, choice)
            && (choice.Some? && Loses(k, d.book, f, choice.value.value) ==> b'.releaseDate == None)
            && forall g :: g != f ==> Untouched(k, d.book, b', g)
  {
    if choice.Some? {
      AppliedIsStored(k, d.book, f, choice.value.value);
      forall g | g != f ensures Untouched(k, d.book, Take(k, d, f, abs, up, choice).book, g) {
        ApplyKeepsOtherFields(k, d.book, f, choice.value.value, g);
      }
    }
  }

  /** What a field holds once the decision about it is carried out. */
  function Resulting(k: Forms, b: Book, f: Field, choice: Option<Decision>): string
    requires RealDates(b)
  {
    match choice
    case None => Current(k, b, f)
    case Some(d) => if Loses(k, b, f, d.value) then "" else Normalize(k, f, d.value)
  }

  lemma DecisionNamesItsValue(k: Forms, f: Field, abs: string, up: string, known: Known)
    ensures var d := Decide(k, f, abs, up, known);
            d.Some? ==>
              && d.value.value == (if d.value.source == Abs then abs else up) && Normalize(k, f, d.value.value) != ""
              && d.value.preferred == Preferred(known, f)
  {
  }

  function MergeFields(k: Forms, b: Book, item: Item, full: Book, known: Known, fields: seq<Field>): (r: Draft)
    requires Inputs(k, b, item, full)
    ensures RealDates(r.book)
  {
    if fields == [] then Draft(b, [], false)
    else MergeField(k, MergeFields(k, b, item, full, known, fields[..|fields| - 1]), item, full, known,
                    fields[|fields| - 1])
  }

  const FIELDS: seq<Field> :=
    [Description, ImageUrl, OriginalTitle, ReleaseDate, Language, AverageRating, RatingsCount]

  function Merged(k: Forms, b: Book, item: Item, full: Book, known: Known): Draft
    requires Inputs(k, b, item, full)
  {
    MergeFields(k, b, item, full, known, FIELDS)
  }

  // ----- each field on its own -----

  /** The decision about a field, taken from the book the merge started with. */
  function DecisionFor(k: Forms, b: Book, item: Item, full: Book, known: Known, f: Field): Option<Decision>
    requires Inputs(k, b, item, full)
  {
    Decide(k, f, Candidate(k, b, item, f), Serialize(k, full, f), known)
  }

  ghost predicate Fit(k: Forms, b: Book, item: Item, full: Book) { Lawful(k) && Inputs(k, b, item, full) }

  lemma CandidateIsOffered(k: Forms, b: Book, item: Item, f: Field)
    requires RealDates(b) && (item.date.Some? ==> RealDate(item.date.value))
    ensures Offered(k, f, Candidate(k, b, item, f))
  {
  }

  lemma DecidedIsOffered(k: Forms, b: Book, item: Item, full: Book, known: Known, f: Field)
    requires Fit(k, b, item, full) && DecisionFor(k, b, item, full, known, f).Some?
    ensures var d := DecisionFor(k, b, item, full, known, f).value;
            Offered(k, f, d.value) && Normalize(k, f, d.value) != ""
  {
    DecisionNamesItsValue(k, f, Candidate(k, b, item, f), Serialize(k, full, f), known);
    CandidateIsOffered(k, b, item, f);
  }

  /** What a field holds after the merge. */
  function Outcome(k: Forms, b: Book, item: Item, full: Book, known: Known, f: Field): string
    requires Inputs(k, b, item, full)
  {
    Resulting(k, b, f, DecisionFor(k, b, item, full, known, f))
  }

  /** The field ends without its date: the value chosen for it is lost. */
  predicate LosesItsDate(k: Forms, b: Book, item: Item, full: Book, known: Known, f: Field)
    requires Inputs(k, b, item, full)
  {
    var d := DecisionFor(k, b, item, full, known, f);
    d.Some? && Loses(k, b, f, d.value.value)
  }

  /** Merging a field depends on, and changes, that field alone. */
  ghost predicate Untouched(k: Forms, b: Book, b': Book, f: Field) {
    && RealDates(b) && RealDates(b') && Serialize(k, b', f) == Serialize(k, b, f)
    && (f == ReleaseDate ==> b'.releaseDate == b.releaseDate)
  }

  /** The book holds what a merge of b leaves in the field. */
  ghost predicate Merges(k: Forms, b: Book, b': Book, item: Item, full: Book, known: Known, f: Field)
    requires Inputs(k, b, item, full)
  {
    && RealDates(b') && Current(k, b', f) == Outcome(k, b, item, full, known, f)
    && (LosesItsDate(k, b, item, full, known, f) ==> b'.releaseDate == None)
  }

  lemma MergeFieldIsTake(k: Forms, b: Book, d: Draft, item: Item, full: Book, known: Known, f: Field)
    requires Inputs(k, b, item, full) && RealDates(d.book) && Untouched(k, b, d.book, f)
    ensures var c := DecisionFor(k, b, item, full, known, f);
            && MergeField(k, d, item, full, known, f) ==
               Take(k, d, f, Candidate(k, b, item, f), Serialize(k, full, f), c)
            && Resulting(k, d.book, f, c) == Outcome(k, b, item, full, known, f)
  {
    CandidateStays(k, b, d.book, item, f);
  }

  lemma CandidateStays(k: Forms, b: Book, b': Book, item: Item, f: Field)
    requires Untouched(k, b, b', f) && (item.date.Some? ==> RealDate(item.date.value))
    ensures Candidate(k, b', item, f) == Candidate(k, b, item, f) && Current(k, b', f) == Current(k, b, f)
  {
  }

  lemma MergeFieldStep(k: Forms, b: Book, d: Draft, item: Item, full: Book, known: Known, f: Field)
    requires Fit(k, b, item, full) && RealDates(d.book) && Untouched(k, b, d.book, f)
    ensures Merges(k, b, MergeField(k, d, item, full, known, f).book, item, full, known, f)
    ensures forall g :: g != f ==> Untouched(k, d.book, MergeField(k, d, item, full, known, f).book, g)
  {
    var c := DecisionFor(k, b, item, full, known, f);
    if c.Some? { DecidedIsOffered(k, b, item, full, known, f); }
    MergeFieldIsTake(k, b, d, item, full, known, f);
    TakeStores(k, d, f, Candidate(k, b, item, f), Serialize(k, full, f), c);
  }

  lemma MergeFieldRows(k: Forms, b: Book, d: Draft, item: Item, full: Book, known: Known, f: Field, r: Row)
    requires Inputs(k, b, item, full) && RealDates(d.book) && Untouched(k, b, d.book, f)
    requires r in MergeField(k, d, item, full, known, f).rows && r !in d.rows
    ensures var c := DecisionFor(k, b, item, full, known, f);
            c.Some? && c.value.record && r == RowOf(f, Candidate(k, b, item, f), Serialize(k, full, f), c.value)
  {
    assert Candidate(k, d.book, item, f) == Candidate(k, b, item, f);
  }

  predicate Distinct(fields: seq<Field>) { forall i, j :: 0 <= i < j < |fields| ==> fields[i] != fields[j] }

  lemma {:induction false} MergeFieldsOutcome(k: Forms, b: Book, item: Item, full: Book, known: Known,
                                              fields: seq<Field>, f: Field)
    requires Fit(k, b, item, full) && Distinct(fields)
    ensures var b' := MergeFields(k, b, item, full, known, fields).book;
            if f in fields then Merges(k, b, b', item, full, known, f) else Untouched(k, b, b', f)
  {
    if fields != [] {
      var front, last := fields[..|fields| - 1], fields[|fields| - 1];
      assert fields == front + [last];
      var d := MergeFields(k, b, item, full, known, front);
      MergeFieldsOutcome(k, b, item, full, known, front, f);
      MergeFieldsOutcome(k, b, item, full, known, front, last);
      MergeFieldStep(k, b, d, item, full, known, last);
      assert f != last ==> Untouched(k, d.book, MergeField(k, d, item, full, known, last).book, f);
    }
  }

  lemma EveryFieldIsMerged(f: Field)
    ensures f in FIELDS && Distinct(FIELDS)
  {
    assert FIELDS[0] == Description && FIELDS[1] == ImageUrl && FIELDS[2] == OriginalTitle && FIELDS[3] == ReleaseDate
           && FIELDS[4] == Language && FIELDS[5] == AverageRating && FIELDS[6] == RatingsCount;
  }

  /** After a merge each field holds, in normal form, what was decided for it, unless that loses the date. */
  lemma MergedHolds(k: Forms, b: Book, item: Item, full: Book, known: Known, f: Field)
    requires Fit(k, b, item, full)
    ensures Merges(k, b, Merged(k, b, item, full, known).book, item, full, known, f)
    ensures var d := DecisionFor(k, b, item, full, known, f);
            d.Some? ==>
              (Current(k, Merged(k, b, item, full, known).book, f) == Normalize(k, f, d.value.value) <==>
               !Loses(k, b, f, d.value.value))
  {
    EveryFieldIsMerged(f);
    MergeFieldsOutcome(k, b, item, full, known, FIELDS, f);
    if DecisionFor(k, b, item, full, known, f).Some? { DecidedIsOffered(k, b, item, full, known, f); }
  }

  // ----- the rows -----

  lemma {:induction false} RowsOfMerge(k: Forms, b: Book, item: Item, full: Book, known: Known, fields: seq<Field>,
                                       r: Row)
    requires Fit(k, b, item, full) && Distinct(fields)
    requires r in MergeFields(k, b, item, full, known, fields).rows
    ensures r.field in fields
    ensures var d := DecisionFor(k, b, item, full, known, r.field);
            d.Some? && d.value.record
            && r == RowOf(r.field, Candidate(k, b, item, r.field), Serialize(k, full, r.field), d.value)
  {
    var front, last := fields[..|fields| - 1], fields[|fields| - 1];
    assert fields == front + [last];
    if r in MergeFields(k, b, item, full, known, front).rows {
      RowsOfMerge(k, b, item, full, known, front, r);
    } else {
      MergeFieldsOutcome(k, b, item, full, known, front, last);
      MergeFieldRows(k, b, MergeFields(k, b, item, full, known, front), item, full, known, last, r);
    }
  }

  ghost predicate HasRow(rows: seq<Row>, f: Field) { exists i :: 0 <= i < |rows| && rows[i].field == f }

  lemma {:induction false} DecidedIsRecorded(k: Forms, b: Book, item: Item, full: Book, known: Known,
                                             fields: seq<Field>, f: Field)
    requires Fit(k, b, item, full) && Distinct(fields) && f in fields
    requires DecisionFor(k, b, item, full, known, f).Some? && DecisionFor(k, b, item, full, known, f).value.record
    ensures HasRow(MergeFields(k, b, item, full, known, fields).rows, f)
  {
    var front, last := fields[..|fields| - 1], fields[|fields| - 1];
    assert fields == front + [last];
    var d := MergeFields(k, b, item, full, known, front);
    if last == f {
      MergeFieldsOutcome(k, b, item, full, known, front, last);
      MergeFieldIsTake(k, b, d, item, full, known, f);
      var rows := MergeField(k, d, item, full, known, f).rows;
      assert rows[|rows| - 1].field == f;
    } else {
      DecidedIsRecorded(k, b, item, full, known, front, f);
      RowsOnlyGrow(k, d, item, full, known, last, f);
    }
  }

  lemma RowsOnlyGrow(k: Forms, d: Draft, item: Item, full: Book, known: Known, last: Field, f: Field)
    requires Inputs(k, d.book, item, full) && HasRow(d.rows, f)
    ensures HasRow(MergeField(k, d, item, full, known, last).rows, f)
  {
    var i :| 0 <= i < |d.rows| && d.rows[i].field == f;
    assert MergeField(k, d, item, full, known, last).rows[i] == d.rows[i];
  }

  /** Both sources have a value for the field, and not the same. */
  predicate Disagree(k: Forms, b: Book, item: Item, full: Book, f: Field)
    requires Inputs(k, b, item, full)
  {
    var abs, up := Normalize(k, f, Candidate(k, b, item, f)), Normalize(k, f, Serialize(k, full, f));
    abs != "" && up != "" && abs != up
  }

  /**
   * A merge records a row for a field exactly when the sources disagree about it, or some source has a value and the
   * field has a row already; the row is open exactly when they disagree and nobody has chosen.
   */
  lemma RowsAreForDisagreements(k: Forms, b: Book, item: Item, full: Book, known: Known, f: Field)
    requires Fit(k, b, item, full)
    ensures HasRow(Merged(k, b, item, full, known).rows, f) <==>
            Disagree(k, b, item, full, f) ||
            (f in known &&
             !(Normalize(k, f, Candidate(k, b, item, f)) == "" && Normalize(k, f, Serialize(k, full, f)) == ""))
    ensures forall r :: r in Merged(k, b, item, full, known).rows && r.field == f ==>
              (r.resolved <==> !Disagree(k, b, item, full, f) || (f in known && known[f].preferred.Some?))
  {
    var rows, c := Merged(k, b, item, full, known).rows, DecisionFor(k, b, item, full, known, f);
    EveryFieldIsMerged(f);
    DecisionRecords(v => Normalize(k, f, v), Candidate(k, b, item, f), Serialize(k, full, f), Preferred(known, f),
                    f in known);
    if c.Some? && c.value.record { DecidedIsRecorded(k, b, item, full, known, FIELDS, f); }
    if HasRow(rows, f) {
      var i :| 0 <= i < |rows| && rows[i].field == f;
      RowsOfMerge(k, b, item, full, known, FIELDS, rows[i]);
    }
    forall r | r in rows && r.field == f
      ensures r.resolved <==> !Disagree(k, b, item, full, f) || (f in known && known[f].preferred.Some?)
    {
      RowsOfMerge(k, b, item, full, known, FIELDS, r);
    }
  }

  /**
   * Every conflict row a merge records names a source whose value is, in normal form, the stored field, exactly when
   * that value was not lost; a lost one leaves no date.
   */
  lemma RowsDescribeTheStoredBook(k: Forms, b: Book, item: Item, full: Book, known: Known, r: Row)
    requires Fit(k, b, item, full) && r in Merged(k, b, item, full, known).rows
    ensures var stored, v := Current(k, Merged(k, b, item, full, known).book, r.field), ValueOf(r, r.applied);
            if Loses(k, b, r.field, v) then stored == "" && Normalize(k, r.field, v) != ""
            else stored == Normalize(k, r.field, v)
  {
    EveryFieldIsMerged(r.field);
    RowsOfMerge(k, b, item, full, known, FIELDS, r);
    MergedHolds(k, b, item, full, known, r.field);
    DecisionNamesItsValue(k, r.field, Candidate(k, b, item, r.field), Serialize(k, full, r.field), known);
  }

  /** Where both sources have a value and they differ, a remembered preference decides what is stored. */
  lemma PreferenceWins(k: Forms, b: Book, item: Item, full: Book, known: Known, f: Field)
    requires Fit(k, b, item, full) && f in known && known[f].preferred.Some?
    requires Normalize(k, f, Candidate(k, b, item, f)) != "" && Normalize(k, f, Serialize(k, full, f)) != ""
    ensures var v := if known[f].preferred == Some(Abs) then Candidate(k, b, item, f) else Serialize(k, full, f);
            Current(k, Merged(k, b, item, full, known).book, f) == if Loses(k, b, f, v) then "" else Normalize(k, f, v)
  {
    MergedHolds(k, b, item, full, known, f);
  }

  /** Where upstream says nothing about a field, what the item offers is stored, unless it is a lost date. */
  lemma OfferIsStored(k: Forms, b: Book, item: Item, full: Book, known: Known, f: Field)
    requires Fit(k, b, item, full) && Current(k, full, f) == "" && Normalize(k, f, Candidate(k, b, item, f)) != ""
    ensures var v := Candidate(k, b, item, f);
            Current(k, Merged(k, b, item, full, known).book, f) == if Loses(k, b, f, v) then "" else Normalize(k, f, v)
  {
    MergedHolds(k, b, item, full, known, f);
  }

  /** So the book ends up with what the item says of it, its description, its language, its date. */
  lemma ItemFillsWhereUpstreamIsSilent(k: Forms, b: Book, item: Item, full: Book, known: Known, f: Field, v: string)
    requires Fit(k, b, item, full) && Current(k, full, f) == ""
    requires (f == Description && v == k.clean(item.description)) || (f == Language && v == k.lang(item.language))
             || (f == ReleaseDate && v == FormatDate(item.date) && v != "" && item.date.value.year < 10000)
    requires Normalize(k, f, v) != ""
    ensures Current(k, Merged(k, b, item, full, known).book, f) == Normalize(k, f, v)
  {
    OfferHolds(k, b, item, f, v);
    OfferIsStored(k, b, item, full, known, f);
    if f == ReleaseDate { ShortDateReadsBack(item.date.value); }
  }

  lemma OfferHolds(k: Forms, b: Book, item: Item, f: Field, v: string)
    requires Lawful(k) && RealDates(b) && (item.date.Some? ==> RealDate(item.date.value)) && Normalize(k, f, v) != ""
    requires (f == Description && v == k.clean(item.description)) || (f == Language && v == k.lang(item.language))
             || (f == ReleaseDate && v == FormatDate(item.date) && v != "")
    ensures Candidate(k, b, item, f) == v
  {
  }

  /** A field on which neither the item nor upstream has a say stays as it is. */
  lemma SilenceKeepsTheField(k: Forms, b: Book, item: Item, full: Book, known: Known, f: Field)
    requires Fit(k, b, item, full) && Current(k, full, f) == ""
    requires k.clean(item.description) == "" && k.lang(item.language) == "" && FormatDate(item.date) == ""
    ensures Current(k, Merged(k, b, item, full, known).book, f) == Current(k, b, f)
  {
    MergedHolds(k, b, item, full, known, f);
  }

  /** A merge empties a field exactly when the value chosen for it is a date with too long a year. */
  lemma MergeEmptiesOnlyLostDates(k: Forms, b: Book, item: Item, full: Book, known: Known, f: Field)
    requires Fit(k, b, item, full) && Current(k, b, f) != ""
    ensures Current(k, Merged(k, b, item, full, known).book, f) == "" <==> LosesItsDate(k, b, item, full, known, f)
  {
    MergedHolds(k, b, item, full, known, f);
    if DecisionFor(k, b, item, full, known, f).Some? { DecidedIsOffered(k, b, item, full, known, f); }
  }

  // ----- merging the same record again -----

  /** The stored rows after a merge recorded its own. */
  function Recorded(known: Known, rows: seq<Row>): Known {
    if rows == [] then known else Recorded(known, rows[..|rows| - 1])[rows[|rows| - 1].field := rows[|rows| - 1]]
  }

  lemma {:induction false} RecordingKeepsPreference(known: Known, rows: seq<Row>, f: Field)
    requires forall r :: r in rows ==> r.preferred == Preferred(known, r.field)
    ensures Preferred(Recorded(known, rows), f) == Preferred(known, f)
  {
    if rows != [] {
      var front, last := rows[..|rows| - 1], rows[|rows| - 1];
      assert last in rows && forall r :: r in front ==> r in rows;
      RecordingKeepsPreference(known, front, f);
    }
  }

  /** The item's own value, where it has one, compares as itself; otherwise the candidate is what the book holds. */
  lemma CandidateAgain(k: Forms, b: Book, b': Book, item: Item, f: Field)
    requires RealDates(b) && RealDates(b') && (item.date.Some? ==> RealDate(item.date.value))
    ensures || Candidate(k, b', item, f) == Candidate(k, b, item, f)
            || (Candidate(k, b', item, f) == Serialize(k, b', f) && Candidate(k, b, item, f) == Serialize(k, b, f))
  {
  }

  /** Offered the same value, or what the first decision left, the second decision is the same. */
  lemma DecideAgain(n: string -> string, abs: string, abs2: string, up: string, p: Option<Source>, stored: bool,
                    stored2: bool,
                    was: string)
    requires var d := DecideBy(n, abs, up, p, stored);
             abs2 == abs || (n(abs2) == (if d.Some? then n(d.value.value) else was) && n(abs) == was)
    ensures var d, d2 := DecideBy(n, abs, up, p, stored), DecideBy(n, abs2, up, p, stored2);
            d2.Some? ==> n(d2.value.value) == if d.Some? then n(d.value.value) else was
  {
  }

  /** Where the first decision was not what the field held, and is gone again, the second one is the same. */
  lemma DecideAgainWhenLost(n: string -> string, abs: string, abs2: string, up: string, p: Option<Source>,
                            stored: bool, stored2: bool, was: string)
    requires var d := DecideBy(n, abs, up, p, stored);
             d.Some? && n(d.value.value) != was && (abs2 == abs || (n(abs2) == "" && n(abs) == was))
    ensures var d, d2 := DecideBy(n, abs, up, p, stored), DecideBy(n, abs2, up, p, stored2);
            d2.Some? ==> d2.value.value == d.value.value
  {
  }

  /** Carrying out the decision leaves the book as it is. */
  predicate Idle(k: Forms, b: Book, f: Field, d: Option<Decision>)
    requires RealDates(b)
  {
    d.Some? ==> Normalize(k, f, d.value.value) == Current(k, b, f)
                || (TooLong(f, d.value.value) && b.releaseDate == None)
  }

  /** The second merge decides, for every field, what the field already holds, or loses the same date again. */
  lemma DecidesTheSameAgain(k: Forms, b: Book, b': Book, item: Item, full: Book, known: Known, known': Known, f: Field)
    requires Fit(k, b, item, full) && RealDates(b') && Preferred(known', f) == Preferred(known, f)
    requires Merges(k, b, b', item, full, known, f)
    ensures Idle(k, b', f, DecisionFor(k, b', item, full, known', f))
  {
    var n := (v: string) => Normalize(k, f, v);
    var abs, abs2, up := Candidate(k, b, item, f), Candidate(k, b', item, f), Serialize(k, full, f);
    CandidateAgain(k, b, b', item, f);
    if LosesItsDate(k, b, item, full, known, f) {
      DecideAgainWhenLost(n, abs, abs2, up, Preferred(known, f), f in known, f in known', Current(k, b, f));
    } else {
      DecideAgain(n, abs, abs2, up, Preferred(known, f), f in known, f in known', Current(k, b, f));
    }
  }

  lemma TooLongIsNoDate(k: Forms, b: Book, f: Field, v: string)
    requires TooLong(f, v) && Offered(k, f, v) && b.releaseDate == None
    ensures ApplyValue(k, b, f, v) == b
  {
    var d :| RealDate(d) && d != ZERO_DATE && v == FormatDate(Some(d));
    ParseOfFormat(d);
    LengthOfDate(d);
  }

  lemma IdleDecision(k: Forms, d: Draft, item: Item, full: Book, known: Known, f: Field)
    requires Fit(k, d.book, item, full) && Idle(k, d.book, f, DecisionFor(k, d.book, item, full, known, f))
    ensures MergeField(k, d, item, full, known, f).book == d.book
  {
    var c := DecisionFor(k, d.book, item, full, known, f);
    if c.Some? && TooLong(f, c.value.value) && d.book.releaseDate == None {
      DecidedIsOffered(k, d.book, item, full, known, f);
      TooLongIsNoDate(k, d.book, f, c.value.value);
    }
  }

  lemma {:induction false} NothingToApply(k: Forms, b: Book, item: Item, full: Book, known: Known, fields: seq<Field>)
    requires Fit(k, b, item, full)
    requires forall f :: f in fields ==> Idle(k, b, f, DecisionFor(k, b, item, full, known, f))
    ensures MergeFields(k, b, item, full, known, fields).book == b
  {
    if fields != [] {
      var front, last := fields[..|fields| - 1], fields[|fields| - 1];
      assert last in fields && forall f :: f in front ==> f in fields;
      NothingToApply(k, b, item, full, known, front);
      IdleDecision(k, MergeFields(k, b, item, full, known, front), item, full, known, last);
    }
  }

  lemma RowKeepsPreference(k: Forms, b: Book, item: Item, full: Book, known: Known, r: Row)
    requires Fit(k, b, item, full) && r in Merged(k, b, item, full, known).rows
    ensures r.preferred == Preferred(known, r.field)
  {
    EveryFieldIsMerged(r.field);
    RowsOfMerge(k, b, item, full, known, FIELDS, r);
    DecisionNamesItsValue(k, r.field, Candidate(k, b, item, r.field), Serialize(k, full, r.field), known);
  }

  /** Main result: once a merge and its conflict rows are stored, merging the same record again changes no field. */
  lemma MergingAgainChangesNothing(k: Forms, b: Book, item: Item, full: Book, known: Known)
    requires Fit(k, b, item, full)
    ensures var once := Merged(k, b, item, full, known);
            Merged(k, once.book, item, full, Recorded(known, once.rows)).book == once.book
  {
    var once := Merged(k, b, item, full, known);
    var known' := Recorded(known, once.rows);
    forall r | r in once.rows ensures r.preferred == Preferred(known, r.field) {
      RowKeepsPreference(k, b, item, full, known, r);
    }
    forall f | f in FIELDS ensures Idle(k, once.book, f, DecisionFor(k, once.book, item, full, known', f)) {
      RecordingKeepsPreference(known, once.rows, f);
      MergedHolds(k, b, item, full, known, f);
      DecidesTheSameAgain(k, b, once.book, item, full, known, known', f);
    }
    NothingToApply(k, once.book, item, full, known', FIELDS);
  }

  // ----- years that do not fit -----

  function BookWithDate(d: Date): Book { Book("", "", "", "", "", Some(d), "", 0.0, 0) }

  /**
   * A date whose year has more than four digits is lost when it is applied: with a remembered preference for the
   * item, a book that had a release date has none after the merge.
   */
  lemma LongYearEmptiesTheDate(k: Forms, item: Item, stored: Date, known: Known)
    requires Lawful(k) && RealDate(stored) && stored != ZERO_DATE && stored.year < 10000
    requires item.date.Some? && RealDate(item.date.value) && item.date.value.year >= 10000
    requires Preferred(known, ReleaseDate) == Some(Abs)
    ensures var b := BookWithDate(stored);
            && Current(k, b, ReleaseDate) != ""
            && Current(k, MergeField(k, Draft(b, [], false), item, b, known, ReleaseDate).book, ReleaseDate) == ""
  {
    var b, d := BookWithDate(stored), item.date.value;
    FormattedIsTrimmed(d);
    FormattedIsTrimmed(stored);
    ParseOfFormat(d);
    ParseOfFormat(stored);
    TrimKeepsTrimmed("");
  }
}
