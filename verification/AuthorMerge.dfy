// Merging an upstream author: profile fields that carry a credit follow the refresh rule, the others are planned like
// the fields of a book, with the author's own value as the library's side.

module AuthorMerge {
  import opened Common
  import opened Text
  import opened ConflictValues
  import opened MergeFields

  /** Where a photo or a bio came from. */
  datatype Credit = Credit(provider: string, page: string, creator: string, licence: string)

  const USER := "user"

  datatype Author = Author(
    foreignId: string, provider: string, name: string, sortName: string, bio: string, bioCredit: Option<Credit>,
    photo: string, photoCredit: Option<Credit>, disambiguation: string)

  datatype AuthorField = Bio | Photo | Disambiguation | SortName

  // ----- credited values -----

  /** A photo or bio with its credit. */
  datatype Profile = Profile(value: string, credit: Option<Credit>)

  /** One refreshed profile value against the stored one. */
  function MergeProfile(cur: Profile, found: Profile): Profile {
    if found.value == "" || (cur.credit.Some? && cur.credit.value.provider == USER) then cur
    else if found.credit.Some? && cur.value != "" && cur.credit.None? then cur
    else found
  }

  /**
   * A refresh never empties a profile field, never replaces what the user set, and a credited value never displaces
   * an uncredited one; otherwise the value found is taken; refreshing again changes nothing.
   */
  lemma ProfileRefreshRules(cur: Profile, found: Profile)
    ensures cur.value != "" ==> MergeProfile(cur, found).value != ""
    ensures cur.credit.Some? && cur.credit.value.provider == USER ==> MergeProfile(cur, found) == cur
    ensures cur.value != "" && cur.credit.None? && found.credit.Some? ==> MergeProfile(cur, found) == cur
    ensures MergeProfile(MergeProfile(cur, found), found) == MergeProfile(cur, found)
    ensures MergeProfile(cur, found) in {cur, found}
    ensures (&& found.value != "" && !(cur.credit.Some? && cur.credit.value.provider == USER)
             && (cur.value == "" || cur.credit.Some? || found.credit.None?)) ==> MergeProfile(cur, found) == found
  {
  }

  // ----- fields -----

  function SerializeAuthor(k: Forms, a: Author, f: AuthorField): string {
    match f
    case Bio => k.clean(a.bio)
    case Photo => Trim(a.photo)
    case Disambiguation => Trim(a.disambiguation)
    case SortName => Trim(a.sortName)
  }

  function ProfileOf(a: Author, f: AuthorField): Profile {
    match f
    case Bio => Profile(a.bio, a.bioCredit)
    case Photo => Profile(a.photo, a.photoCredit)
    case Disambiguation => Profile(a.disambiguation, None)
    case SortName => Profile(a.sortName, None)
  }

  function WithProfile(a: Author, f: AuthorField, p: Profile): Author {
    match f
    case Bio => a.(bio := p.value, bioCredit := p.credit)
    case Photo => a.(photo := p.value, photoCredit := p.credit)
    case Disambiguation => a.(disambiguation := p.value)
    case SortName => a.(sortName := p.value)
  }

  function NormalizeAuthor(k: Forms, f: AuthorField, v: string): string {
    match f
    case Bio => k.clean(Trim(v))
    case Photo => Lower(Trim(v))
    case _ => Trim(v)
  }

  /** A conflict choice is uncredited, so a changed value drops the credit the old one carried. */
  function ApplyAuthor(k: Forms, a: Author, f: AuthorField, v: string): Author {
    var p := ProfileOf(a, f);
    var value := if f == Bio then k.clean(v) else Trim(v);
    WithProfile(a, f, Profile(value, if value == p.value then p.credit else None))
  }

  function CurrentAuthor(k: Forms, a: Author, f: AuthorField): string {
    NormalizeAuthor(k, f, SerializeAuthor(k, a, f))
  }

  type KnownPreferences = map<AuthorField, Option<Source>>

  /** The upstream side of a credited merge: the value as it would be stored, with its credit. */
  function FreshProfile(k: Forms, full: Author, f: AuthorField): Profile {
    Profile(SerializeAuthor(k, full, f), ProfileOf(full, f).credit)
  }

  predicate Credited(a: Author, full: Author, f: AuthorField) {
    f in {Bio, Photo} && (ProfileOf(a, f).credit.Some? || ProfileOf(full, f).credit.Some?)
  }

  function PreferenceFor(known: KnownPreferences, f: AuthorField): Option<Source> {
    if f in known then known[f] else None
  }

  /** The choice between the author's own value and the upstream one. */
  function Choice(k: Forms, a: Author, full: Author, known: KnownPreferences, f: AuthorField): Option<Decision> {
    DecideBy(v => NormalizeAuthor(k, f, v), SerializeAuthor(k, a, f), SerializeAuthor(k, full, f),
             PreferenceFor(known, f), f in known)
  }

  function MergeAuthorField(k: Forms, a: Author, full: Author, known: KnownPreferences, f: AuthorField): Author {
    if Credited(a, full, f) then WithProfile(a, f, MergeProfile(ProfileOf(a, f), FreshProfile(k, full, f)))
    else CarryOut(k, a, f, Choice(k, a, full, known, f))
  }

  function CarryOut(k: Forms, a: Author, f: AuthorField, choice: Option<Decision>): Author {
    match choice
    case None => a
    case Some(c) =>
      if CurrentAuthor(k, a, f) != NormalizeAuthor(k, f, c.value) then ApplyAuthor(k, a, f, c.value) else a
  }

  /** An upstream name replaces the local one, and brings its sort name along. */
  function Renamed(a: Author, full: Author): Author {
    if Trim(full.name) != "" && Trim(a.name) != Trim(full.name)
    then a.(name := Trim(full.name), sortName := if full.sortName != "" then full.sortName else a.sortName)
    else a
  }

  function MergedAuthor(k: Forms, a: Author, full: Author, known: KnownPreferences): Author {
    var a1 := MergeAuthorField(k, Renamed(a, full), full, known, Bio);
    var a2 := MergeAuthorField(k, a1, full, known, Photo);
    var a3 := MergeAuthorField(k, a2, full, known, Disambiguation);
    MergeAuthorField(k, a3, full, known, SortName)
  }

  // ----- one field -----

  lemma OtherFieldsStay(k: Forms, a: Author, full: Author, known: KnownPreferences, f: AuthorField, g: AuthorField)
    requires f != g
    ensures ProfileOf(MergeAuthorField(k, a, full, known, f), g) == ProfileOf(a, g)
    ensures MergeAuthorField(k, a, full, known, f).name == a.name
  {
  }

  /** A field's profile after the merge depends on its profile before alone. */
  function MergedProfile(k: Forms, p: Profile, full: Author, known: KnownPreferences, f: AuthorField): Profile {
    var blank := Author("", "", "", "", "", None, "", None, "");
    ProfileOf(MergeAuthorField(k, WithProfile(blank, f, p), full, known, f), f)
  }

  lemma MergeIsByProfile(k: Forms, a: Author, full: Author, known: KnownPreferences, f: AuthorField)
    ensures ProfileOf(MergeAuthorField(k, a, full, known, f), f) == MergedProfile(k, ProfileOf(a, f), full, known, f)
    ensures MergeAuthorField(k, a, full, known, f) ==
            WithProfile(a, f, MergedProfile(k, ProfileOf(a, f), full, known, f))
  {
    var blank := WithProfile(Author("", "", "", "", "", None, "", None, ""), f, ProfileOf(a, f));
    assert SerializeAuthor(k, a, f) == SerializeAuthor(k, blank, f);
    assert Credited(a, full, f) == Credited(blank, full, f);
    if Credited(a, full, f) { CreditedByProfile(k, a, blank, full, known, f); }
    else { ChosenByProfile(k, a, blank, full, known, f); }
  }

  lemma CreditedByProfile(k: Forms, a: Author, b: Author, full: Author, known: KnownPreferences, f: AuthorField)
    requires Credited(a, full, f) && Credited(b, full, f) && ProfileOf(a, f) == ProfileOf(b, f)
    ensures MergeAuthorField(k, a, full, known, f) ==
            WithProfile(a, f, ProfileOf(MergeAuthorField(k, b, full, known, f), f))
  {
  }

  lemma ChosenByProfile(k: Forms, a: Author, b: Author, full: Author, known: KnownPreferences, f: AuthorField)
    requires !Credited(a, full, f) && !Credited(b, full, f) && ProfileOf(a, f) == ProfileOf(b, f)
    ensures MergeAuthorField(k, a, full, known, f) ==
            WithProfile(a, f, ProfileOf(MergeAuthorField(k, b, full, known, f), f))
  {
    ChoiceByProfile(k, a, b, full, known, f);
    CarriedByProfile(k, a, b, f, Choice(k, a, full, known, f));
  }

  lemma CarriedByProfile(k: Forms, a: Author, b: Author, f: AuthorField, choice: Option<Decision>)
    requires ProfileOf(a, f) == ProfileOf(b, f)
    ensures CarryOut(k, a, f, choice) == WithProfile(a, f, ProfileOf(CarryOut(k, b, f, choice), f))
  {
    assert SerializeAuthor(k, a, f) == SerializeAuthor(k, b, f);
    if choice.Some? { ApplyByProfile(k, a, b, f, choice.value.value); }
    assert WithProfile(a, f, ProfileOf(a, f)) == a;
  }

  lemma ChoiceByProfile(k: Forms, a: Author, b: Author, full: Author, known: KnownPreferences, f: AuthorField)
    requires ProfileOf(a, f) == ProfileOf(b, f)
    ensures SerializeAuthor(k, a, f) == SerializeAuthor(k, b, f)
    ensures Choice(k, a, full, known, f) == Choice(k, b, full, known, f)
  {
    assert SerializeAuthor(k, a, f) == SerializeAuthor(k, b, f);
  }

  lemma ApplyByProfile(k: Forms, a: Author, b: Author, f: AuthorField, v: string)
    requires ProfileOf(a, f) == ProfileOf(b, f)
    ensures ApplyAuthor(k, a, f, v) == WithProfile(a, f, ProfileOf(ApplyAuthor(k, b, f, v), f))
  {
  }

  /** Storing a value keeps what it compares as. */
  lemma StoredOnce(k: Forms, f: AuthorField, v: string)
    requires Lawful(k)
    ensures NormalizeAuthor(k, f, if f == Bio then k.clean(v) else Trim(v)) == NormalizeAuthor(k, f, v)
  {
    TrimIdempotent(v);
    assert NormalAt(k.clean, v) && NormalAt(k.clean, k.clean(v));
  }

  /** After an uncredited choice the stored field compares equal to the chosen value. */
  lemma AppliedAuthorIsStored(k: Forms, a: Author, f: AuthorField, v: string)
    requires Lawful(k)
    ensures CurrentAuthor(k, ApplyAuthor(k, a, f, v), f) == NormalizeAuthor(k, f, v)
  {
    StoredOnce(k, f, v);
    StoredOnce(k, f, if f == Bio then k.clean(v) else Trim(v));
  }

  /** Merging one field of the same upstream author again changes nothing. */
  lemma FieldAgain(k: Forms, a: Author, full: Author, known: KnownPreferences, known': KnownPreferences, f: AuthorField)
    requires Lawful(k) && PreferenceFor(known', f) == PreferenceFor(known, f)
    ensures var once := MergeAuthorField(k, a, full, known, f); MergeAuthorField(k, once, full, known', f) == once
  {
    var once := MergeAuthorField(k, a, full, known, f);
    if Credited(a, full, f) {
      ProfileRefreshRules(ProfileOf(a, f), FreshProfile(k, full, f));
      if !Credited(once, full, f) { UncreditedFreshStays(k, once, full, known', f); }
    } else {
      ChoiceAgain(k, a, full, known, known', f);
    }
  }

  /** A field that holds exactly the upstream value is left alone. */
  lemma UncreditedFreshStays(k: Forms, a: Author, full: Author, known: KnownPreferences, f: AuthorField)
    requires Lawful(k) && !Credited(a, full, f) && ProfileOf(a, f).value == SerializeAuthor(k, full, f)
    ensures MergeAuthorField(k, a, full, known, f) == a
  {
    StoredOnce(k, f, SerializeAuthor(k, full, f));
  }

  lemma ChoiceAgain(k: Forms, a: Author, full: Author, known: KnownPreferences, known': KnownPreferences,
                    f: AuthorField)
    requires Lawful(k) && PreferenceFor(known', f) == PreferenceFor(known, f) && !Credited(a, full, f)
    ensures var once := MergeAuthorField(k, a, full, known, f); MergeAuthorField(k, once, full, known', f) == once
  {
    var once := MergeAuthorField(k, a, full, known, f);
    var c := Choice(k, a, full, known, f);
    if c.Some? { AppliedAuthorIsStored(k, a, f, c.value.value); }
    DecideAgain(v => NormalizeAuthor(k, f, v), SerializeAuthor(k, a, f), SerializeAuthor(k, once, f),
                SerializeAuthor(k, full, f), PreferenceFor(known, f), f in known, f in known', CurrentAuthor(k, a, f));
  }

  // ----- the whole merge -----

  lemma MergedProfiles(k: Forms, a: Author, full: Author, known: KnownPreferences, f: AuthorField)
    ensures ProfileOf(MergedAuthor(k, a, full, known), f) ==
            MergedProfile(k, ProfileOf(Renamed(a, full), f), full, known, f)
    ensures MergedAuthor(k, a, full, known).name == Renamed(a, full).name
  {
    var a0 := Renamed(a, full);
    var a1 := MergeAuthorField(k, a0, full, known, Bio);
    var a2 := MergeAuthorField(k, a1, full, known, Photo);
    var a3 := MergeAuthorField(k, a2, full, known, Disambiguation);
    OneFieldMerged(k, a0, full, known, Bio, f);
    OneFieldMerged(k, a1, full, known, Photo, f);
    OneFieldMerged(k, a2, full, known, Disambiguation, f);
    OneFieldMerged(k, a3, full, known, SortName, f);
  }

  lemma OneFieldMerged(k: Forms, a: Author, full: Author, known: KnownPreferences, f: AuthorField, g: AuthorField)
    ensures var b := MergeAuthorField(k, a, full, known, f);
            && b.name == a.name
            && ProfileOf(b, g) == if f == g then MergedProfile(k, ProfileOf(a, f), full, known, f) else ProfileOf(a, g)
  {
    if f == g { MergeIsByProfile(k, a, full, known, f); } else { OtherFieldsStay(k, a, full, known, f, g); }
    MergeIsByProfile(k, a, full, known, f);
  }

  lemma ProfileAgain(k: Forms, p: Profile, full: Author, known: KnownPreferences, known': KnownPreferences,
                     f: AuthorField)
    requires Lawful(k) && PreferenceFor(known', f) == PreferenceFor(known, f)
    ensures var once := MergedProfile(k, p, full, known, f); MergedProfile(k, once, full, known', f) == once
  {
    var a := WithProfile(Author("", "", "", "", "", None, "", None, ""), f, p);
    FieldAgain(k, a, full, known, known', f);
    MergeIsByProfile(k, a, full, known, f);
    MergeIsByProfile(k, MergeAuthorField(k, a, full, known, f), full, known', f);
  }

  lemma RenamedAgain(k: Forms, a: Author, full: Author, known: KnownPreferences)
    ensures var once := MergedAuthor(k, a, full, known); Renamed(once, full) == once
  {
    MergedProfiles(k, a, full, known, Bio);
    TrimIdempotent(full.name);
  }

  /** Merging the same upstream author again, with the same preferences remembered, changes no field. */
  lemma AuthorMergeAgainChangesNothing(k: Forms, a: Author, full: Author, known: KnownPreferences,
                                       known': KnownPreferences)
    requires Lawful(k) && forall f :: PreferenceFor(known', f) == PreferenceFor(known, f)
    ensures var once := MergedAuthor(k, a, full, known); MergedAuthor(k, once, full, known') == once
  {
    var once := MergedAuthor(k, a, full, known);
    RenamedAgain(k, a, full, known);
    forall f ensures MergeAuthorField(k, once, full, known', f) == once {
      MergedFieldAgain(k, a, full, known, known', f);
    }
  }

  lemma MergedFieldAgain(k: Forms, a: Author, full: Author, known: KnownPreferences, known': KnownPreferences,
                         f: AuthorField)
    requires Lawful(k) && PreferenceFor(known', f) == PreferenceFor(known, f)
    ensures var once := MergedAuthor(k, a, full, known); MergeAuthorField(k, once, full, known', f) == once
  {
    var once := MergedAuthor(k, a, full, known);
    MergedProfiles(k, a, full, known, f);
    ProfileAgain(k, ProfileOf(Renamed(a, full), f), full, known, known', f);
    MergeIsByProfile(k, once, full, known', f);
    assert WithProfile(once, f, ProfileOf(once, f)) == once;
  }

  // ----- what a whole merge leaves -----

  /** What an author's conflict row says; the field's own value is the library's side. */
  datatype Conflict = Conflict(
    field: AuthorField, absValue: string, upstreamValue: string, applied: Source, preferred: Option<Source>,
    resolved: bool)

  function AppliedValue(r: Conflict): string { if r.applied == Abs then r.absValue else r.upstreamValue }

  /** The row planning one field records: none for a credited field, which is never a conflict. */
  function RowFor(k: Forms, a: Author, full: Author, known: KnownPreferences, f: AuthorField): seq<Conflict> {
    var c := Choice(k, a, full, known, f);
    if Credited(a, full, f) || c.None? || !c.value.record then []
    else
      [Conflict(f, SerializeAuthor(k, a, f), SerializeAuthor(k, full, f), c.value.source, c.value.preferred,
                !c.value.contested)]
  }

  /** The rows a whole merge records, each planned on the copy the fields before it left. */
  function AuthorRows(k: Forms, a: Author, full: Author, known: KnownPreferences): seq<Conflict> {
    var a0 := Renamed(a, full);
    var a1 := MergeAuthorField(k, a0, full, known, Bio);
    var a2 := MergeAuthorField(k, a1, full, known, Photo);
    var a3 := MergeAuthorField(k, a2, full, known, Disambiguation);
    RowFor(k, a0, full, known, Bio) + RowFor(k, a1, full, known, Photo) + RowFor(k, a2, full, known, Disambiguation) +
    RowFor(k, a3, full, known, SortName)
  }

  lemma RowIsByProfile(k: Forms, a: Author, b: Author, full: Author, known: KnownPreferences, f: AuthorField)
    requires ProfileOf(a, f) == ProfileOf(b, f)
    ensures RowFor(k, a, full, known, f) == RowFor(k, b, full, known, f)
    ensures CurrentAuthor(k, a, f) == CurrentAuthor(k, b, f)
  {
    assert SerializeAuthor(k, a, f) == SerializeAuthor(k, b, f);
  }

  lemma RowsAreByField(k: Forms, a: Author, full: Author, known: KnownPreferences, r: Conflict)
    requires r in AuthorRows(k, a, full, known)
    ensures r in RowFor(k, Renamed(a, full), full, known, r.field)
  {
    var a0 := Renamed(a, full);
    var a1 := MergeAuthorField(k, a0, full, known, Bio);
    var a2 := MergeAuthorField(k, a1, full, known, Photo);
    var a3 := MergeAuthorField(k, a2, full, known, Disambiguation);
    if r in RowFor(k, a1, full, known, Photo) {
      StageKeepsRow(k, a0, a0, full, known, Bio, Photo);
    } else if r in RowFor(k, a2, full, known, Disambiguation) {
      StageKeepsRow(k, a0, a0, full, known, Bio, Disambiguation);
      StageKeepsRow(k, a0, a1, full, known, Photo, Disambiguation);
    } else if r in RowFor(k, a3, full, known, SortName) {
      StageKeepsRow(k, a0, a0, full, known, Bio, SortName);
      StageKeepsRow(k, a0, a1, full, known, Photo, SortName);
      StageKeepsRow(k, a0, a2, full, known, Disambiguation, SortName);
    }
  }

  /** Merging f leaves what is planned for g as it was. */
  lemma StageKeepsRow(k: Forms, a0: Author, a: Author, full: Author, known: KnownPreferences, f: AuthorField,
                      g: AuthorField)
    requires f != g && ProfileOf(a, g) == ProfileOf(a0, g)
    ensures ProfileOf(MergeAuthorField(k, a, full, known, f), g) == ProfileOf(a0, g)
    ensures RowFor(k, MergeAuthorField(k, a, full, known, f), full, known, g) == RowFor(k, a0, full, known, g)
  {
    OtherFieldsStay(k, a, full, known, f, g);
    RowIsByProfile(k, a0, MergeAuthorField(k, a, full, known, f), full, known, g);
  }

  lemma RowSaysTheChoice(k: Forms, a: Author, full: Author, known: KnownPreferences, f: AuthorField, r: Conflict)
    requires r in RowFor(k, a, full, known, f)
    ensures r.field == f && !Credited(a, full, f) && r.preferred == PreferenceFor(known, f)
    ensures Choice(k, a, full, known, f).Some? && Choice(k, a, full, known, f).value.value == AppliedValue(r)
  {
    DecisionIsNotEmpty(v => NormalizeAuthor(k, f, v), SerializeAuthor(k, a, f), SerializeAuthor(k, full, f),
                       PreferenceFor(known, f), f in known);
  }

  /** A field nobody credits holds the choice made for it. */
  lemma ChosenIsHeld(k: Forms, a: Author, full: Author, known: KnownPreferences, f: AuthorField)
    requires Lawful(k) && !Credited(Renamed(a, full), full, f)
    ensures var c := Choice(k, Renamed(a, full), full, known, f);
            CurrentAuthor(k, MergedAuthor(k, a, full, known), f) ==
            if c.Some? then NormalizeAuthor(k, f, c.value.value) else CurrentAuthor(k, Renamed(a, full), f)
  {
    var a0 := Renamed(a, full);
    var c := Choice(k, a0, full, known, f);
    MergedProfiles(k, a, full, known, f);
    MergeIsByProfile(k, a0, full, known, f);
    RowIsByProfile(k, MergedAuthor(k, a, full, known), MergeAuthorField(k, a0, full, known, f), full, known, f);
    if c.Some? { AppliedAuthorIsStored(k, a0, f, c.value.value); }
  }

  /** Neither value carries a credit, both sides have one, and not the same. */
  predicate Disagree(k: Forms, a: Author, full: Author, f: AuthorField) {
    && !Credited(a, full, f) && CurrentAuthor(k, a, f) != "" && CurrentAuthor(k, full, f) != ""
    && CurrentAuthor(k, a, f) != CurrentAuthor(k, full, f)
  }

  /**
   * An author merge records a row for a field exactly when the sides disagree about it, or nobody credits it, one side
   * has a value, and the field has a row already; the row is open exactly when they disagree and nobody has chosen.
   */
  lemma AuthorRowsAreForDisagreements(k: Forms, a: Author, full: Author, known: KnownPreferences, f: AuthorField)
    ensures var a0 := Renamed(a, full);
            (exists r :: r in AuthorRows(k, a, full, known) && r.field == f) <==>
            Disagree(k, a0, full, f) ||
            (f in known && !Credited(a0, full, f) &&
             !(CurrentAuthor(k, a0, f) == "" && CurrentAuthor(k, full, f) == ""))
    ensures var a0 := Renamed(a, full);
            forall r :: r in AuthorRows(k, a, full, known) && r.field == f ==>
              (r.resolved <==> !Disagree(k, a0, full, f) || (f in known && known[f].Some?))
  {
    var a0, rows := Renamed(a, full), AuthorRows(k, a, full, known);
    RowForDisagreement(k, a0, full, known, f);
    forall r | r in rows && r.field == f ensures r in RowFor(k, a0, full, known, f) {
      RowsAreByField(k, a, full, known, r);
    }
    if RowFor(k, a0, full, known, f) != [] {
      FieldRowIsKept(k, a, full, known, f);
      assert RowFor(k, a0, full, known, f)[0] in rows;
    }
  }

  lemma RowForDisagreement(k: Forms, a: Author, full: Author, known: KnownPreferences, f: AuthorField)
    ensures var rows := RowFor(k, a, full, known, f);
            && |rows| <= 1 && (rows != [] ==> rows[0].field == f)
            && (rows != [] <==>
                  Disagree(k, a, full, f) ||
                  (f in known && !Credited(a, full, f) &&
                   !(CurrentAuthor(k, a, f) == "" && CurrentAuthor(k, full, f) == "")))
            && (rows != [] ==>
                  (rows[0].resolved <==> !Disagree(k, a, full, f) || (f in known && known[f].Some?)))
  {
    DecisionRecords(v => NormalizeAuthor(k, f, v), SerializeAuthor(k, a, f), SerializeAuthor(k, full, f),
                    PreferenceFor(known, f), f in known);
  }

  lemma FieldRowIsKept(k: Forms, a: Author, full: Author, known: KnownPreferences, f: AuthorField)
    ensures forall r :: r in RowFor(k, Renamed(a, full), full, known, f) ==> r in AuthorRows(k, a, full, known)
  {
    var a0 := Renamed(a, full);
    var a1 := MergeAuthorField(k, a0, full, known, Bio);
    var a2 := MergeAuthorField(k, a1, full, known, Photo);
    match f
    case Bio =>
    case Photo => StageKeepsRow(k, a0, a0, full, known, Bio, Photo);
    case Disambiguation =>
      StageKeepsRow(k, a0, a0, full, known, Bio, Disambiguation);
      StageKeepsRow(k, a0, a1, full, known, Photo, Disambiguation);
    case SortName =>
      StageKeepsRow(k, a0, a0, full, known, Bio, SortName);
      StageKeepsRow(k, a0, a1, full, known, Photo, SortName);
      StageKeepsRow(k, a0, a2, full, known, Disambiguation, SortName);
  }

  /** Every conflict row of an author merge names a source whose value is, in normal form, the stored field. */
  lemma AuthorRowsDescribe(k: Forms, a: Author, full: Author, known: KnownPreferences, r: Conflict)
    requires Lawful(k) && r in AuthorRows(k, a, full, known)
    ensures CurrentAuthor(k, MergedAuthor(k, a, full, known), r.field) == NormalizeAuthor(k, r.field, AppliedValue(r))
    ensures r.preferred == PreferenceFor(known, r.field)
  {
    RowsAreByField(k, a, full, known, r);
    RowSaysTheChoice(k, Renamed(a, full), full, known, r.field, r);
    ChosenIsHeld(k, a, full, known, r.field);
  }

  /** What the user set by hand stays, whatever upstream has and whatever is preferred. */
  lemma UserValueStays(k: Forms, a: Author, full: Author, known: KnownPreferences, f: AuthorField)
    requires ProfileOf(a, f).credit.Some? && ProfileOf(a, f).credit.value.provider == USER
    ensures ProfileOf(MergedAuthor(k, a, full, known), f) == ProfileOf(a, f)
  {
    CreditedIsRefreshed(k, a, full, known, f);
  }

  /** A credited photo or bio never takes the place of one that carries no credit. */
  lemma CreditedNeverDisplacesUncredited(k: Forms, a: Author, full: Author, known: KnownPreferences, f: AuthorField)
    requires ProfileOf(a, f).credit.None? && ProfileOf(a, f).value != "" && ProfileOf(full, f).credit.Some?
    ensures ProfileOf(MergedAuthor(k, a, full, known), f) == ProfileOf(a, f)
  {
    CreditedIsRefreshed(k, a, full, known, f);
  }

  /** Where either value carries a credit the whole merge refreshes the field, with upstream's value as it is stored. */
  lemma CreditedIsRefreshed(k: Forms, a: Author, full: Author, known: KnownPreferences, f: AuthorField)
    requires ProfileOf(a, f).credit.Some? || ProfileOf(full, f).credit.Some?
    ensures f in {Bio, Photo}
    ensures ProfileOf(MergedAuthor(k, a, full, known), f) ==
            MergeProfile(ProfileOf(a, f), Profile(SerializeAuthor(k, full, f), ProfileOf(full, f).credit))
  {
    MergedProfiles(k, a, full, known, f);
    MergeIsByProfile(k, Renamed(a, full), full, known, f);
    assert ProfileOf(Renamed(a, full), f) == ProfileOf(a, f);
  }

  /** Where neither value carries a credit and they differ, a remembered preference decides; upstream otherwise. */
  lemma AuthorPreferenceWins(k: Forms, a: Author, full: Author, known: KnownPreferences, f: AuthorField)
    requires Lawful(k) && !Credited(Renamed(a, full), full, f)
    requires CurrentAuthor(k, Renamed(a, full), f) != "" && CurrentAuthor(k, full, f) != ""
    ensures CurrentAuthor(k, MergedAuthor(k, a, full, known), f) ==
            CurrentAuthor(k, if f in known && known[f] == Some(Abs) then Renamed(a, full) else full, f)
  {
    PreferredSideIsHeld(k, a, full, known, f);
  }

  lemma PreferredSideIsHeld(k: Forms, a: Author, full: Author, known: KnownPreferences, f: AuthorField)
    requires Lawful(k) && !Credited(Renamed(a, full), full, f)
    requires CurrentAuthor(k, Renamed(a, full), f) != "" && CurrentAuthor(k, full, f) != ""
    ensures CurrentAuthor(k, MergedAuthor(k, a, full, known), f) ==
            CurrentAuthor(k, if PreferenceFor(known, f) == Some(Abs) then Renamed(a, full) else full, f)
  {
    ChosenIsHeld(k, a, full, known, f);
  }

  /** The rename brings along a sort name that is all space. */
  predicate BlankSortName(a: Author, full: Author) {
    Trim(full.name) != "" && Trim(a.name) != Trim(full.name) && full.sortName != "" && Trim(full.sortName) == ""
  }

  /** A merge empties no author field, credited or not, but for the sort name that comes with such a rename. */
  lemma AuthorMergeEmptiesOnlyBlankSortNames(k: Forms, a: Author, full: Author, known: KnownPreferences, f: AuthorField)
    requires Lawful(k) && CurrentAuthor(k, a, f) != ""
    ensures CurrentAuthor(k, MergedAuthor(k, a, full, known), f) == "" <==> f == SortName && BlankSortName(a, full)
  {
    var a0 := Renamed(a, full);
    if Credited(a0, full, f) {
      CreditedIsHeld(k, a, full, known, f);
      RenamedShows(k, a, full, f);
    } else {
      ChosenIsHeld(k, a, full, known, f);
      RenamedShows(k, a, full, f);
      ChoiceShows(k, a0, full, known, f);
    }
  }

  /** A choice is empty only where both sides are. */
  lemma ChoiceShows(k: Forms, a: Author, full: Author, known: KnownPreferences, f: AuthorField)
    ensures var c := Choice(k, a, full, known, f);
            if c.Some? then NormalizeAuthor(k, f, c.value.value) != ""
            else CurrentAuthor(k, a, f) == "" && CurrentAuthor(k, full, f) == ""
  {
    DecisionIsNotEmpty(v => NormalizeAuthor(k, f, v), SerializeAuthor(k, a, f), SerializeAuthor(k, full, f),
                       PreferenceFor(known, f), f in known);
  }

  lemma DecisionIsNotEmpty(n: string -> string, abs: string, up: string, p: Option<Source>, stored: bool)
    ensures var d := DecideBy(n, abs, up, p, stored);
            && (if d.Some? then n(d.value.value) != "" else n(abs) == "" && n(up) == "")
            && (d.Some? ==> d.value.value == (if d.value.source == Abs then abs else up) && d.value.preferred == p)
  {
  }

  lemma RenamedShows(k: Forms, a: Author, full: Author, f: AuthorField)
    requires Lawful(k) && CurrentAuthor(k, a, f) != ""
    ensures CurrentAuthor(k, Renamed(a, full), f) == "" <==> f == SortName && BlankSortName(a, full)
    ensures f == SortName && BlankSortName(a, full) ==> CurrentAuthor(k, full, f) == ""
  {
    TrimIdempotent(full.sortName);
    TrimKeepsTrimmed("");
  }

  lemma CreditedIsHeld(k: Forms, a: Author, full: Author, known: KnownPreferences, f: AuthorField)
    requires Lawful(k) && Credited(Renamed(a, full), full, f) && CurrentAuthor(k, a, f) != ""
    ensures CurrentAuthor(k, MergedAuthor(k, a, full, known), f) != "" && f != SortName
  {
    var a0 := Renamed(a, full);
    MergedProfiles(k, a, full, known, f);
    MergeIsByProfile(k, a0, full, known, f);
    RowIsByProfile(k, MergedAuthor(k, a, full, known), MergeAuthorField(k, a0, full, known, f), full, known, f);
    StoredOnce(k, f, SerializeAuthor(k, full, f));
    assert NormalAt(k.clean, full.bio);
    TrimIdempotent(full.photo);
  }

  /** Ann, sorted as "Ann", becomes Anne and brings along a sort name of one space: it ends up with none. */
  lemma BlankSortNameEmpties(k: Forms)
    requires Lawful(k)
    ensures var a := Author("abs:ann", "audiobookshelf", "Ann", "Ann", "", None, "", None, "");
            var full := Author("OL1A", "openlibrary", "Anne", " ", "", None, "", None, "");
            && BlankSortName(a, full) && CurrentAuthor(k, a, SortName) == "Ann"
            && CurrentAuthor(k, MergedAuthor(k, a, full, map[]), SortName) == ""
  {
    var a := Author("abs:ann", "audiobookshelf", "Ann", "Ann", "", None, "", None, "");
    var full := Author("OL1A", "openlibrary", "Anne", " ", "", None, "", None, "");
    TrimKeepsTrimmed("Ann");
    TrimKeepsTrimmed("Anne");
    TrimKeepsTrimmed("");
    assert Trim(" ") == "" by { assert TrimLeft(" ") == TrimLeft(" "[1..]); }
    AuthorMergeEmptiesOnlyBlankSortNames(k, a, full, map[], SortName);
  }
}
