// The plan of an author merge, as the guarded merge writes and records it: rename, relink, merged fields, the upstream
// id attached where the identity is not replaceable, and the conflict rows.

module AuthorPlan {
  import opened Common
  import opened Text
  import opened ConflictValues
  import opened AuthorMerge
  import GuardedMerge

  /**
   * What a plan reads beside the row: the preferences, whether the author still has the item's name, and who has the
   * id.
   */
  datatype Seen = Seen(known: KnownPreferences, matches: bool, taken: bool)

  /** What is recorded once the author is written, or needed no write. */
  datatype Entry = Attached(foreignId: string) | ConflictRow(row: Conflict)

  predicate HasPrefix(s: string, p: string) { |s| >= |p| && s[..|p|] == p }

  /** Ids made from an Audiobookshelf or Calibre author give way to an upstream one. */
  predicate Replaceable(a: Author) {
    var provider, id := Trim(Lower(a.provider)), Trim(Lower(a.foreignId));
    || id == "" || HasPrefix(id, "abs:") || HasPrefix(id, "calibre:")
    || provider == "audiobookshelf" || provider == "calibre"
  }

  predicate WantsRelink(a: Author, full: Author, seen: Seen) {
    full.foreignId != "" && a.foreignId != full.foreignId && !seen.taken
  }

  /** The author under its upstream identity; an upstream record without a provider is placed by its id. */
  function RelinkedAuthor(a: Author, full: Author, providerOf: string -> string): Author {
    a.(foreignId := full.foreignId,
       provider := if full.provider != "" then full.provider else providerOf(full.foreignId))
  }

  function StartAuthor(a: Author, full: Author, providerOf: string -> string, seen: Seen): Author {
    if WantsRelink(a, full, seen) && Replaceable(a) then RelinkedAuthor(a, full, providerOf) else a
  }

  /** Planning the field changed it, or decided between two sides that nobody credits. */
  predicate Touches(k: Forms, a: Author, full: Author, known: KnownPreferences, f: AuthorField) {
    if Credited(a, full, f) then MergeProfile(ProfileOf(a, f), FreshProfile(k, full, f)) != ProfileOf(a, f)
    else Choice(k, a, full, known, f).Some?
  }

  function Rows(conflicts: seq<Conflict>): (entries: seq<Entry>)
    ensures |entries| == |conflicts| && forall i :: 0 <= i < |entries| ==> entries[i] == ConflictRow(conflicts[i])
  {
    seq(|conflicts|, i requires 0 <= i < |conflicts| => ConflictRow(conflicts[i]))
  }

  /** One attempt at merging full into a. */
  function PlanAuthor(k: Forms, full: Author, providerOf: string -> string, a: Author, seen: Seen)
    : GuardedMerge.Plan<Author, Entry>
  {
    if !seen.matches then GuardedMerge.Plan(a, false, None, [])
    else
      var start := StartAuthor(a, full, providerOf, seen);
      var a0 := Renamed(start, full);
      var touched := exists f :: Touches(k, a0, full, seen.known, f);
      GuardedMerge.Plan(
        MergedAuthor(k, start, full, seen.known), a0 != a || touched, None,
        (if WantsRelink(a, full, seen) && !Replaceable(a) then [Attached(full.foreignId)] else []) +
        Rows(AuthorRows(k, start, full, seen.known)))
  }

  /** Which identities give way: those made from an Audiobookshelf or Calibre author, told by id or by provider. */
  lemma MadeIdentitiesGiveWay(a: Author)
    ensures var provider, id := Trim(Lower(a.provider)), Trim(Lower(a.foreignId));
            Replaceable(a) <==>
              || id == "" || provider in {"audiobookshelf", "calibre"}
              || exists rest :: id == "abs:" + rest || id == "calibre:" + rest
  {
    var id := Trim(Lower(a.foreignId));
    if HasPrefix(id, "abs:") { assert id == "abs:" + id[4..]; }
    if HasPrefix(id, "calibre:") { assert id == "calibre:" + id[8..]; }
    if rest :| id == "abs:" + rest { assert HasPrefix(id, "abs:"); }
    if rest :| id == "calibre:" + rest { assert HasPrefix(id, "calibre:"); }
  }

  /**
   * Under which identity a plan leaves the author: upstream's where it is free and the author's own gives way; where
   * the author keeps its own, a free one of upstream is attached to it.
   */
  lemma PlanDecidesIdentity(k: Forms, full: Author, providerOf: string -> string, a: Author, seen: Seen)
    requires seen.matches
    ensures var p := PlanAuthor(k, full, providerOf, a, seen);
            if full.foreignId == "" || full.foreignId == a.foreignId || seen.taken then
              && p.row.foreignId == a.foreignId && p.row.provider == a.provider
              && (forall f :: Attached(f) !in p.records)
            else if Replaceable(a) then
              && p.write && p.row.foreignId == full.foreignId && (forall f :: Attached(f) !in p.records)
              && (full.provider != "" ==> p.row.provider == full.provider)
              && (full.provider == "" ==> p.row.provider == providerOf(full.foreignId))
            else
              && p.row.foreignId == a.foreignId && p.row.provider == a.provider && Attached(full.foreignId) in p.records
  {
    var start := StartAuthor(a, full, providerOf, seen);
    var rows := AuthorRows(k, start, full, seen.known);
    MergingKeepsAuthorIdentity(k, start, full, seen.known);
    forall f ensures Attached(f) !in Rows(rows) { AttachedIsNoRow(rows, f); }
  }

  /** A plan that does not write would have changed nothing; one for an author without the item's name does nothing. */
  lemma UnwrittenPlanKeepsTheAuthor(k: Forms, full: Author, providerOf: string -> string, a: Author, seen: Seen)
    ensures !seen.matches ==> PlanAuthor(k, full, providerOf, a, seen) == GuardedMerge.Plan(a, false, None, [])
    ensures !PlanAuthor(k, full, providerOf, a, seen).write ==> PlanAuthor(k, full, providerOf, a, seen).row == a
  {
    if seen.matches && !PlanAuthor(k, full, providerOf, a, seen).write {
      forall f ensures MergeAuthorField(k, a, full, seen.known, f) == a {
        assert !Touches(k, a, full, seen.known, f);
        UntouchedFieldStays(k, a, full, seen.known, f);
      }
    }
  }

  lemma UntouchedFieldStays(k: Forms, a: Author, full: Author, known: KnownPreferences, f: AuthorField)
    requires !Touches(k, a, full, known, f)
    ensures MergeAuthorField(k, a, full, known, f) == a
  {
  }

  /** A plan writes only to change the author or to settle a field that nobody credits. */
  lemma PlanWritesForAReason(k: Forms, full: Author, providerOf: string -> string, a: Author, seen: Seen)
    requires PlanAuthor(k, full, providerOf, a, seen).write
    ensures var a0 := Renamed(StartAuthor(a, full, providerOf, seen), full);
            a0 != a || exists f :: if Credited(a0, full, f) then MergeAuthorField(k, a0, full, seen.known, f) != a0
                                   else Choice(k, a0, full, seen.known, f).Some?
  {
    var a0 := Renamed(StartAuthor(a, full, providerOf, seen), full);
    if a0 == a {
      var f :| Touches(k, a0, full, seen.known, f);
      assert Credited(a0, full, f) ==> MergeAuthorField(k, a0, full, seen.known, f) != a0;
    }
  }

  /** A plan that writes nothing records no conflict row. */
  lemma NoAuthorWriteNoRows(k: Forms, full: Author, providerOf: string -> string, a: Author, seen: Seen, r: Conflict)
    requires ConflictRow(r) in PlanAuthor(k, full, providerOf, a, seen).records
    ensures PlanAuthor(k, full, providerOf, a, seen).write
    ensures r in AuthorRows(k, StartAuthor(a, full, providerOf, seen), full, seen.known)
  {
    var start := StartAuthor(a, full, providerOf, seen);
    var rows := AuthorRows(k, start, full, seen.known);
    assert ConflictRow(r) in Rows(rows);
    var i :| 0 <= i < |rows| && Rows(rows)[i] == ConflictRow(r);
    assert r in rows;
    RowsAreByField(k, start, full, seen.known, r);
    RowSaysTheChoice(k, Renamed(start, full), full, seen.known, r.field, r);
    assert Touches(k, Renamed(start, full), full, seen.known, r.field);
  }

  lemma MergingKeepsAuthorIdentity(k: Forms, a: Author, full: Author, known: KnownPreferences)
    ensures MergedAuthor(k, a, full, known).foreignId == a.foreignId
    ensures MergedAuthor(k, a, full, known).provider == a.provider
  {
    var a0 := Renamed(a, full);
    var a1 := MergeAuthorField(k, a0, full, known, Bio);
    var a2 := MergeAuthorField(k, a1, full, known, Photo);
    var a3 := MergeAuthorField(k, a2, full, known, Disambiguation);
    FieldKeepsAuthorIdentity(k, a0, full, known, Bio);
    FieldKeepsAuthorIdentity(k, a1, full, known, Photo);
    FieldKeepsAuthorIdentity(k, a2, full, known, Disambiguation);
    FieldKeepsAuthorIdentity(k, a3, full, known, SortName);
  }

  lemma FieldKeepsAuthorIdentity(k: Forms, a: Author, full: Author, known: KnownPreferences, f: AuthorField)
    ensures MergeAuthorField(k, a, full, known, f).foreignId == a.foreignId
    ensures MergeAuthorField(k, a, full, known, f).provider == a.provider
  {
  }

  /** The plan as the guarded merge runs it. */
  function AuthorPlanFor(k: Forms, full: Author, providerOf: string -> string)
    : (Author, Seen) -> GuardedMerge.Plan<Author, Entry>
  {
    (a: Author, seen: Seen) => PlanAuthor(k, full, providerOf, a, seen)
  }

  /** Row r says of the stored author what it holds. */
  predicate DescribesAuthor(k: Forms, stored: Author, r: Conflict) {
    CurrentAuthor(k, stored, r.field) == NormalizeAuthor(k, r.field, AppliedValue(r))
  }

  lemma EntryOfThePlan(m: GuardedMerge.Importer<Author, Seen, Entry>,
                       es: seq<GuardedMerge.Event<Author, Seen, Entry>>, p: GuardedMerge.Plan<Author, Entry>, i: nat)
    requires m.RecordsOf(es, p) && i < |es|
    ensures es[i].Record? && es[i].record in p.records
  {
    var n: nat :| n <= |p.records| && es == GuardedMerge.AllRecords(p.records[..n]);
    assert es[i] == GuardedMerge.Record(p.records[..n][i]);
  }

  /**
   * Main result: with others writing all the while, every conflict row a guarded author merge recorded follows a write
   * and describes the author that write left, under the identity the write left it.
   */
  lemma RecordedAuthorRowsDescribe(m: GuardedMerge.Importer<Author, Seen, Entry>, k: Forms, full: Author,
                                   providerOf: string -> string,
                                   mine: seq<GuardedMerge.Event<Author, Seen, Entry>>, id: GuardedMerge.Id, i: nat)
    requires Lawful(k) && m.plan == AuthorPlanFor(k, full, providerOf) && forall a, at :: m.stamp(a, at) == a
    requires m.SoundMerge(mine, id) && i < |mine| && mine[i].Record? && mine[i].record.ConflictRow?
    ensures mine[0].Write? && mine[0].id == id && DescribesAuthor(k, mine[0].after, mine[i].record.row)
    ensures mine[0].after.foreignId in {mine[0].before.foreignId, full.foreignId}
  {
    var r := mine[i].record.row;
    if m.FreshWrite(mine[0], id) && m.RecordsOf(mine[1..], m.plan(mine[0].before, mine[0].seen)) {
      var a, seen := mine[0].before, mine[0].seen;
      assert mine[1..][i - 1] == mine[i];
      EntryOfThePlan(m, mine[1..], m.plan(a, seen), i - 1);
      PlannedAuthorRowDescribes(k, full, providerOf, a, seen, r);
    } else {
      var row, seen :| !m.plan(row, seen).write && m.RecordsOf(mine, m.plan(row, seen));
      EntryOfThePlan(m, mine, m.plan(row, seen), i);
      NoAuthorWriteNoRows(k, full, providerOf, row, seen, r);
    }
  }

  lemma PlannedAuthorRowDescribes(k: Forms, full: Author, providerOf: string -> string, a: Author, seen: Seen,
                                  r: Conflict)
    requires Lawful(k) && ConflictRow(r) in PlanAuthor(k, full, providerOf, a, seen).records
    ensures DescribesAuthor(k, PlanAuthor(k, full, providerOf, a, seen).row, r)
    ensures PlanAuthor(k, full, providerOf, a, seen).row.foreignId in {a.foreignId, full.foreignId}
  {
    var start := StartAuthor(a, full, providerOf, seen);
    NoAuthorWriteNoRows(k, full, providerOf, a, seen, r);
    AuthorRowsDescribe(k, start, full, seen.known, r);
    MergingKeepsAuthorIdentity(k, start, full, seen.known);
  }

  /** An upstream id is attached only to an author that keeps its own. */
  lemma AttachedKeepsItsIdentity(k: Forms, full: Author, providerOf: string -> string, a: Author, seen: Seen,
                                 f: string)
    requires Attached(f) in PlanAuthor(k, full, providerOf, a, seen).records
    ensures f == full.foreignId && !Replaceable(a)
    ensures PlanAuthor(k, full, providerOf, a, seen).row.foreignId == a.foreignId != f
  {
    assert seen.matches;
    var rows := AuthorRows(k, StartAuthor(a, full, providerOf, seen), full, seen.known);
    AttachedIsNoRow(rows, f);
    assert WantsRelink(a, full, seen) && !Replaceable(a);
    MergingKeepsAuthorIdentity(k, a, full, seen.known);
  }

  lemma AttachedIsNoRow(conflicts: seq<Conflict>, f: string)
    ensures Attached(f) !in Rows(conflicts)
  {
  }

  /** The merged author keeps what decides whether it is relinked. */
  lemma StartsAgain(k: Forms, full: Author, providerOf: string -> string, a: Author, seen: Seen, seen': Seen)
    requires seen.matches && (seen.taken ==> seen'.taken)
    ensures var row := PlanAuthor(k, full, providerOf, a, seen).row;
            StartAuthor(row, full, providerOf, seen') == row
  {
    MergingKeepsAuthorIdentity(k, StartAuthor(a, full, providerOf, seen), full, seen.known);
  }

  /**
   * Main result: planning the same upstream author for the row that the plan writes, with the same preferences
   * remembered, leaves that row as it is, unless the author has got the item's name since, or an id that another author
   * had has become free.
   */
  lemma PlanningAgainChangesNothing(k: Forms, full: Author, providerOf: string -> string, a: Author, seen: Seen,
                                    seen': Seen)
    requires Lawful(k) && (seen'.matches ==> seen.matches) && (seen.taken ==> seen'.taken)
    requires forall f :: PreferenceFor(seen'.known, f) == PreferenceFor(seen.known, f)
    ensures var row := PlanAuthor(k, full, providerOf, a, seen).row;
            PlanAuthor(k, full, providerOf, row, seen').row == row
  {
    if seen.matches {
      StartsAgain(k, full, providerOf, a, seen, seen');
      AuthorMergeAgainChangesNothing(k, StartAuthor(a, full, providerOf, seen), full, seen.known, seen'.known);
    }
  }
}
