// Which book an imported item belongs to: the match ladder, and how an item keeps finding the book made for it.

module BookIdentity {
  import opened Common

  type Id = nat

  datatype ItemKey = ItemKey(library: string, item: string)

  /** A book's own id: the key of the item it was made from, or an upstream provider's id. */
  datatype ForeignId = FromItem(key: ItemKey) | Upstream(id: string)

  /** Books by id with their own foreign id, further ids attached to books, and the provenance link of each item. */
  datatype Shelf = Shelf(books: map<Id, ForeignId>, identifiers: map<ForeignId, Id>, links: map<ItemKey, Id>, next: Id)

  datatype TitleMatch = NoTitle | OneTitle(book: Id) | AmbiguousTitle

  datatype Answer = Bound(book: Id) | Created(book: Id) | NeedsReview

  // ----- the ladder -----

  predicate IsPrimary(s: Shelf, f: ForeignId, b: Id) { b in s.books && s.books[b] == f }

  ghost predicate Unique(s: Shelf) {
    && (forall b, c :: b in s.books && c in s.books && s.books[b] == s.books[c] ==> b == c)
    && (forall b :: b in s.books ==> b < s.next)
    && (forall f :: f in s.identifiers ==> s.identifiers[f] in s.books)
  }

  /** The book with this id as its own, or else attached. */
  ghost function FindAny(s: Shelf, f: ForeignId): Option<Id> {
    if exists b :: IsPrimary(s, f, b) then
      var b :| IsPrimary(s, f, b); Some(b)
    else if f in s.identifiers && s.identifiers[f] in s.books then Some(s.identifiers[f])
    else None
  }

  predicate LinkLives(s: Shelf, key: ItemKey) { key in s.links && s.links[key] in s.books }

  /** The book a non-manual import of the item binds to, given what its files and its title match; None means none. */
  ghost function Ladder(s: Shelf, key: ItemKey, files: Option<Id>, title: TitleMatch): Option<Id> {
    if LinkLives(s, key) then Some(s.links[key])
    else if FindAny(s, FromItem(key)).Some? then FindAny(s, FromItem(key))
    else if files.Some? then files
    else if title.OneTitle? then Some(title.book)
    else None
  }

  lemma FindAnyIs(s: Shelf, f: ForeignId, b: Id)
    requires Unique(s)
    ensures IsPrimary(s, f, b) ==> FindAny(s, f) == Some(b)
  {
  }

  /** The item finds the book by its link or, with no live link, by its key. */
  ghost predicate Findable(s: Shelf, key: ItemKey, b: Id) {
    && b in s.books
    && if LinkLives(s, key) then s.links[key] == b else FindAny(s, FromItem(key)) == Some(b)
  }

  /** An import binds the item to the book whatever its files and title match exactly when it is findable. */
  lemma BindsWhateverElseMatches(s: Shelf, key: ItemKey, b: Id)
    requires b in s.books
    ensures (forall files, title :: Ladder(s, key, files, title) == Some(b)) <==> Findable(s, key, b)
  {
    if forall files, title :: Ladder(s, key, files, title) == Some(b) {
      assert Ladder(s, key, None, NoTitle) == Some(b);
    }
  }

  // ----- one import -----

  function Attach(s: Shelf, f: ForeignId, b: Id): Shelf {
    if f in s.identifiers && s.identifiers[f] != b then s else s.(identifiers := s.identifiers[f := b])
  }

  function Link(s: Shelf, key: ItemKey, b: Id): Shelf { s.(links := s.links[key := b]) }

  /** A new book under the item's key; recording the key as an identifier may fail. */
  function Create(s: Shelf, key: ItemKey, attached: bool): Shelf {
    var s1 := s.(books := s.books[s.next := FromItem(key)], next := s.next + 1);
    if attached then Attach(s1, FromItem(key), s.next) else s1
  }

  /** What an import did: which book, and how far its writes got. */
  ghost function Imported(s: Shelf, key: ItemKey, files: Option<Id>, title: TitleMatch, attached: bool,
                          linked: bool): Shelf {
    match Ladder(s, key, files, title)
    case Some(b) => if linked then Link(s, key, b) else s
    case None =>
      var s1 := Create(s, key, attached);
      if linked then Link(s1, key, s.next) else s1
  }

  /** Neither a live link nor the item's key leads to a book. */
  ghost predicate Unknown(s: Shelf, key: ItemKey) { !LinkLives(s, key) && FindAny(s, FromItem(key)) == None }

  /** One book was made under the item's key; attaching the key and linking the item may have failed. */
  ghost predicate Made(s: Shelf, s': Shelf, key: ItemKey) {
    && s'.books == s.books[s.next := FromItem(key)] && s'.next == s.next + 1
    && s'.identifiers in {s.identifiers, s.identifiers[FromItem(key) := s.next]}
    && s'.links in {s.links, s.links[key := s.next]}
  }

  /** The item's files come before its title, and both after the link and the key. */
  lemma FilesComeBeforeTitle(s: Shelf, key: ItemKey, files: Option<Id>, title: TitleMatch)
    requires Unknown(s, key)
    ensures files.Some? ==> Ladder(s, key, files, title) == files
    ensures files.None? && title.OneTitle? ==> Ladder(s, key, files, title) == Some(title.book)
    ensures files.None? && !title.OneTitle? ==> Ladder(s, key, files, title) == None
  {
  }

  /** The importer's step for one item. */
  class BookImporter {
    var shelf: Shelf

    constructor (s: Shelf)
      ensures shelf == s
    {
      shelf := s;
    }

    method ByAnyForeignId(f: ForeignId) returns (found: Option<Id>)
      requires Unique(shelf)
      ensures found == FindAny(shelf, f)
    {
      var owners := set b | b in shelf.books && shelf.books[b] == f;
      if owners != {} {
        var b :| b in owners;
        FindAnyIs(shelf, f, b);
        return Some(b);
      }
      assert forall b :: !(b in owners);
      assert forall b :: IsPrimary(shelf, f, b) ==> b in owners;
      found := if f in shelf.identifiers && shelf.identifiers[f] in shelf.books then Some(shelf.identifiers[f])
               else None;
    }

    /** Find the item's book, or make one; an import may stop before its link is written. */
    method Upsert(key: ItemKey, files: Option<Id>, title: TitleMatch, allowCreate: bool) returns (answer: Answer)
      requires Unique(shelf)
      modifies this
      ensures LinkLives(old(shelf), key) ==> answer == Bound(old(shelf).links[key])
      ensures !LinkLives(old(shelf), key) && FindAny(old(shelf), FromItem(key)).Some? ==>
                answer == Bound(FindAny(old(shelf), FromItem(key)).value)
      ensures Unknown(old(shelf), key) && files.Some? ==> answer == Bound(files.value)
      ensures Unknown(old(shelf), key) && files.None? && title.OneTitle? ==> answer == Bound(title.book)
      ensures Unknown(old(shelf), key) && files.None? && !title.OneTitle? ==>
                answer == if title.AmbiguousTitle? && !allowCreate then NeedsReview else Created(old(shelf).next)
      ensures answer.NeedsReview? ==> shelf == old(shelf)
      ensures answer.Bound? ==> shelf == old(shelf) || shelf == Link(old(shelf), key, answer.book)
      ensures answer.Created? ==> Made(old(shelf), shelf, key)
      ensures !answer.NeedsReview? ==>
                exists attached, linked :: shelf == Imported(old(shelf), key, files, title, attached, linked)
    {
      var found: Option<Id> := None;
      if key in shelf.links && shelf.links[key] in shelf.books { found := Some(shelf.links[key]); }
      if found.None? { found := ByAnyForeignId(FromItem(key)); }
      if found.None? { found := files; }
      if found.None? {
        match title
        case OneTitle(b) => found := Some(b);
        case AmbiguousTitle => if !allowCreate { return NeedsReview; }
        case NoTitle =>
      }
      var linked: bool := *;
      if found.Some? {
        if linked { shelf := Link(shelf, key, found.value); }
        assert shelf == Imported(old(shelf), key, files, title, false, linked);
        return Bound(found.value);
      }
      var b := shelf.next;
      var attached: bool := *;
      shelf := Create(shelf, key, attached);
      if linked { shelf := Link(shelf, key, b); }
      assert shelf == Imported(old(shelf), key, files, title, attached, linked);
      answer := Created(b);
    }
  }

  // ----- histories -----

  datatype Step =
    | Import(key: ItemKey, files: Option<Id>, title: TitleMatch, attached: bool, linked: bool)
    | ManualImport(key: ItemKey, book: Id)
    | PreserveId(book: Id)
    | Relink(book: Id, upstream: string)
    | LoseLink(key: ItemKey)
    | AddBook(upstream: string)
    | AttachOther(book: Id, upstream: string)
    | RemoveBook(book: Id)
    | RestoreId(book: Id, former: ForeignId)

  /** A retitle changes none of these tables; it only changes what later imports find by title. */
  ghost predicate Enabled(s: Shelf, step: Step) {
    match step
    case Import(key, files, title, attached, linked) =>
      (files.Some? ==> files.value in s.books) && (title.OneTitle? ==> title.book in s.books)
    case ManualImport(key, b) => b in s.books
    case PreserveId(b) => b in s.books
    case Relink(b, u) => b in s.books && forall c :: c in s.books && c != b ==> s.books[c] != Upstream(u)
    case LoseLink(key) => true
    case AddBook(u) => forall c :: c in s.books ==> s.books[c] != Upstream(u)
    case AttachOther(b, u) => b in s.books
    case RemoveBook(b) => b in s.books
    case RestoreId(b, f) => b in s.books && forall c :: c in s.books && c != b ==> s.books[c] != f
  }

  ghost function Apply(s: Shelf, step: Step): Shelf
    requires Enabled(s, step)
  {
    match step
    case Import(key, files, title, attached, linked) => Imported(s, key, files, title, attached, linked)
    case ManualImport(key, b) => Link(s, key, b)
    case PreserveId(b) => Attach(s, s.books[b], b)
    case Relink(b, u) => s.(books := s.books[b := Upstream(u)])
    case LoseLink(key) => s.(links := s.links - {key})
    case AddBook(u) => s.(books := s.books[s.next := Upstream(u)], next := s.next + 1)
    case AttachOther(b, u) => Attach(s, Upstream(u), b)
    case RestoreId(b, f) => s.(books := s.books[b := f])
    case RemoveBook(b) =>
      s.(books := s.books - {b}, identifiers := map f | f in s.identifiers && s.identifiers[f] != b :: s.identifiers[f])
  }

  /** The book still answers to the item's key, by its own id or an attached one, and no live link leads elsewhere. */
  ghost predicate Anchored(s: Shelf, key: ItemKey, b: Id) {
    && b in s.books
    && (forall c :: IsPrimary(s, FromItem(key), c) ==> c == b)
    && (s.books[b] == FromItem(key) || (FromItem(key) in s.identifiers && s.identifiers[FromItem(key)] == b))
    && (FromItem(key) in s.identifiers ==> s.identifiers[FromItem(key)] == b)
    && (LinkLives(s, key) ==> s.links[key] == b)
    && (key in s.links ==> s.links[key] < s.next)
  }

  /** The step gives the book another id of its own. */
  predicate Rekeys(key: ItemKey, b: Id, step: Step) {
    (step.Relink? && step.book == b) || (step.RestoreId? && step.book == b && step.former != FromItem(key))
  }

  /** The book gives up the item's key for another id, and the key was not attached to it. */
  predicate Drifts(s: Shelf, key: ItemKey, b: Id, step: Step) {
    && Rekeys(key, b, step) && IsPrimary(s, FromItem(key), b)
    && !(FromItem(key) in s.identifiers && s.identifiers[FromItem(key)] == b)
  }

  /** A rollback puts the item's key back on the book. */
  predicate Returns(key: ItemKey, b: Id, step: Step) { step == RestoreId(b, FromItem(key)) }

  /** A rollback puts the item's key back on another book, which then comes before one the key is attached to. */
  predicate Eclipses(key: ItemKey, b: Id, step: Step) {
    step.RestoreId? && step.former == FromItem(key) && step.book != b
  }

  /** The book with the item's key as its own gives it up or goes. */
  predicate Uncovers(s: Shelf, key: ItemKey, step: Step) {
    match step
    case Relink(c, _) => IsPrimary(s, FromItem(key), c)
    case RestoreId(c, f) => IsPrimary(s, FromItem(key), c) && f != FromItem(key)
    case RemoveBook(c) => IsPrimary(s, FromItem(key), c)
    case _ => false
  }

  /** A manual import points the item at another book. */
  predicate Redirects(key: ItemKey, b: Id, step: Step) { step.ManualImport? && step.key == key && step.book != b }

  /** The step may part the item from the book. */
  predicate Parts(s: Shelf, key: ItemKey, b: Id, step: Step) {
    Drifts(s, key, b, step) || Eclipses(key, b, step) || Redirects(key, b, step) || step == RemoveBook(b)
  }

  /** The book answers to the item's key, wherever the item's link leads. */
  ghost predicate Answers(s: Shelf, key: ItemKey, b: Id) {
    && b in s.books
    && (forall c :: IsPrimary(s, FromItem(key), c) ==> c == b)
    && (s.books[b] == FromItem(key) || (FromItem(key) in s.identifiers && s.identifiers[FromItem(key)] == b))
  }

  /** The book no longer answers to the item's key. */
  predicate Drifted(s: Shelf, key: ItemKey, b: Id) {
    && b in s.books && s.books[b] != FromItem(key) && b < s.next
    && !(FromItem(key) in s.identifiers && s.identifiers[FromItem(key)] == b)
  }

  /** The key is attached to the book, and another book has it as its own. */
  ghost predicate Eclipsed(s: Shelf, key: ItemKey, b: Id) {
    && b in s.books && FromItem(key) in s.identifiers && s.identifiers[FromItem(key)] == b
    && exists c :: c != b && IsPrimary(s, FromItem(key), c)
  }

  /** How the book stands to the item's key. */
  datatype Standing = Answering | Adrift | Covered | Gone

  ghost predicate Stands(s: Shelf, key: ItemKey, b: Id, standing: Standing) {
    match standing
    case Answering => Answers(s, key, b)
    case Adrift => Drifted(s, key, b)
    case Covered => Eclipsed(s, key, b)
    case Gone => b !in s.books && b < s.next
  }

  /** What a step makes of it. */
  function NextStanding(s: Shelf, key: ItemKey, b: Id, standing: Standing, step: Step): Standing {
    if step == RemoveBook(b) then Gone
    else
      match standing
      case Answering =>
        if Drifts(s, key, b, step) then Adrift else if Eclipses(key, b, step) then Covered else Answering
      case Adrift => if Returns(key, b, step) then Answering else Adrift
      case Covered => if Uncovers(s, key, step) then Answering else Covered
      case Gone => Gone
  }

  lemma StepKeepsUnique(s: Shelf, step: Step)
    requires Unique(s) && Enabled(s, step)
    ensures Unique(Apply(s, step))
  {
    match step
    case Import(key, files, title, attached, linked) => ImportKeepsUnique(s, key, files, title, attached, linked);
    case _ =>
  }

  lemma ImportKeepsUnique(s: Shelf, key: ItemKey, files: Option<Id>, title: TitleMatch, attached: bool, linked: bool)
    requires Unique(s)
    ensures Unique(Imported(s, key, files, title, attached, linked))
  {
    if Ladder(s, key, files, title) == None {
      UnfoundKeyIsFree(s, FromItem(key));
      CreationKeepsUnique(s, key, attached);
    }
  }

  lemma UnfoundKeyIsFree(s: Shelf, f: ForeignId)
    requires FindAny(s, f) == None
    ensures forall b :: b in s.books ==> s.books[b] != f
  {
    forall b | b in s.books ensures s.books[b] != f { assert !IsPrimary(s, f, b); }
  }

  lemma CreationKeepsUnique(s: Shelf, key: ItemKey, attached: bool)
    requires Unique(s) && forall b :: b in s.books ==> s.books[b] != FromItem(key)
    ensures Unique(Create(s, key, attached))
  {
  }

  lemma AnchoredIsFindable(s: Shelf, key: ItemKey, b: Id)
    requires Unique(s) && Anchored(s, key, b)
    ensures Findable(s, key, b)
  {
    FindAnyIs(s, FromItem(key), b);
  }

  lemma ImportKeepsAnchor(s: Shelf, key: ItemKey, b: Id, k: ItemKey, files: Option<Id>, title: TitleMatch,
                          attached: bool, linked: bool)
    requires Unique(s) && Anchored(s, key, b) && Enabled(s, Import(k, files, title, attached, linked))
    ensures Anchored(Imported(s, k, files, title, attached, linked), key, b)
  {
    AnchoredIsFindable(s, key, b);
    BindsWhateverElseMatches(s, key, b);
    assert k == key ==> Ladder(s, key, files, title) == Some(b);
    match Ladder(s, k, files, title)
    case Some(c) => LinkKeepsAnchor(s, key, b, k, c);
    case None =>
      CreationKeepsAnchor(s, key, b, k, attached);
      LinkKeepsAnchor(Create(s, k, attached), key, b, k, s.next);
  }

  lemma LinkKeepsAnchor(s: Shelf, key: ItemKey, b: Id, k: ItemKey, c: Id)
    requires Anchored(s, key, b) && (k == key ==> c == b && b < s.next)
    ensures Anchored(Link(s, k, c), key, b)
  {
    forall d | IsPrimary(Link(s, k, c), FromItem(key), d) ensures d == b { assert IsPrimary(s, FromItem(key), d); }
  }

  lemma CreationKeepsAnchor(s: Shelf, key: ItemKey, b: Id, k: ItemKey, attached: bool)
    requires Unique(s) && Anchored(s, key, b) && k != key
    ensures Anchored(Create(s, k, attached), key, b)
  {
    forall c | IsPrimary(Create(s, k, attached), FromItem(key), c) ensures c == b {
      assert IsPrimary(s, FromItem(key), c);
    }
  }

  lemma StepKeepsAnchor(s: Shelf, key: ItemKey, b: Id, step: Step)
    requires Unique(s) && Anchored(s, key, b) && Enabled(s, step)
    requires !Parts(s, key, b, step)
    ensures Anchored(Apply(s, step), key, b)
  {
    match step
    case Import(k, files, title, attached, linked) => ImportKeepsAnchor(s, key, b, k, files, title, attached, linked);
    case PreserveId(c) =>
      assert s.books[c] == FromItem(key) ==> IsPrimary(s, FromItem(key), c);
      AttachKeepsAnchor(s, key, b, s.books[c], c);
    case AttachOther(c, u) => AttachKeepsAnchor(s, key, b, Upstream(u), c);
    case RemoveBook(c) => RemovalKeepsAnchor(s, key, b, c);
    case ManualImport(_, _) => OtherIdsStay(s, key, b, step);
    case LoseLink(_) => OtherIdsStay(s, key, b, step);
    case _ => RowKeepsAnchor(s, key, b, step);
  }

  lemma AttachKeepsAnchor(s: Shelf, key: ItemKey, b: Id, f: ForeignId, c: Id)
    requires Unique(s) && Anchored(s, key, b) && c in s.books && (f == FromItem(key) ==> c == b)
    ensures Anchored(Attach(s, f, c), key, b)
  {
    forall d | IsPrimary(Attach(s, f, c), FromItem(key), d) ensures d == b { assert IsPrimary(s, FromItem(key), d); }
  }

  lemma RemovalKeepsAnchor(s: Shelf, key: ItemKey, b: Id, c: Id)
    requires Unique(s) && Anchored(s, key, b) && c in s.books && c != b
    ensures Anchored(Apply(s, RemoveBook(c)), key, b)
  {
    OtherIdsStay(s, key, b, RemoveBook(c));
  }

  /** No other book comes to have the item's key as its own. */
  lemma OtherIdsStay(s: Shelf, key: ItemKey, b: Id, step: Step)
    requires Anchored(s, key, b) && Enabled(s, step) && !Parts(s, key, b, step) && !step.Import?
    ensures forall c :: IsPrimary(Apply(s, step), FromItem(key), c) ==> c == b
  {
    forall c | IsPrimary(Apply(s, step), FromItem(key), c) ensures c == b {
      assert c != b ==> IsPrimary(s, FromItem(key), c);
    }
  }

  lemma RowKeepsAnchor(s: Shelf, key: ItemKey, b: Id, step: Step)
    requires Unique(s) && Anchored(s, key, b) && Enabled(s, step) && !Parts(s, key, b, step)
    requires (step.Relink? || step.RestoreId? || step.AddBook?)
    ensures Anchored(Apply(s, step), key, b)
  {
    OtherIdsStay(s, key, b, step);
  }

  lemma StepDrifts(s: Shelf, key: ItemKey, b: Id, step: Step)
    requires Unique(s) && Enabled(s, step) && step != RemoveBook(b) && !Returns(key, b, step)
    requires Drifted(s, key, b) || (Answers(s, key, b) && Drifts(s, key, b, step))
    ensures Drifted(Apply(s, step), key, b)
  {
  }

  lemma StepAnswers(s: Shelf, key: ItemKey, b: Id, step: Step)
    requires Unique(s) && Enabled(s, step) && step != RemoveBook(b) && Answers(s, key, b)
    requires !Drifts(s, key, b, step) && !Eclipses(key, b, step)
    ensures Answers(Apply(s, step), key, b)
  {
    match step
    case Import(k, files, title, attached, linked) => ImportAnswers(s, key, b, k, files, title, attached, linked);
    case _ =>
      var s' := Apply(s, step);
      forall c | IsPrimary(s', FromItem(key), c) ensures c == b { assert c != b ==> IsPrimary(s, FromItem(key), c); }
  }

  lemma StepReturns(s: Shelf, key: ItemKey, b: Id, step: Step)
    requires Enabled(s, step) && Returns(key, b, step)
    ensures Answers(Apply(s, step), key, b)
  {
    var s' := Apply(s, step);
    assert forall c :: c in s'.books && c != b ==> c in s.books && s'.books[c] == s.books[c] != FromItem(key);
  }

  lemma StepEclipses(s: Shelf, key: ItemKey, b: Id, step: Step)
    requires Enabled(s, step) && Eclipses(key, b, step) && Answers(s, key, b)
    ensures Eclipsed(Apply(s, step), key, b)
  {
    assert IsPrimary(Apply(s, step), FromItem(key), step.book);
  }

  lemma StepUncovers(s: Shelf, key: ItemKey, b: Id, step: Step)
    requires Unique(s) && Enabled(s, step) && Eclipsed(s, key, b) && Uncovers(s, key, step)
    ensures Answers(Apply(s, step), key, b)
  {
    var s', c := Apply(s, step), step.book;
    assert forall d :: d in s'.books && d != c ==> d in s.books && s'.books[d] == s.books[d];
    assert forall d :: d in s.books && d != c ==> s.books[d] != FromItem(key);
  }

  lemma StepStaysCovered(s: Shelf, key: ItemKey, b: Id, step: Step)
    requires Unique(s) && Enabled(s, step) && step != RemoveBook(b) && Eclipsed(s, key, b) && !Uncovers(s, key, step)
    ensures Eclipsed(Apply(s, step), key, b)
  {
    var c :| c != b && IsPrimary(s, FromItem(key), c);
    assert IsPrimary(Apply(s, step), FromItem(key), c);
  }

  /** Each step leaves the book standing to the key as its kind says. */
  lemma StepStands(s: Shelf, key: ItemKey, b: Id, standing: Standing, step: Step)
    requires Unique(s) && Enabled(s, step) && Stands(s, key, b, standing)
    ensures Stands(Apply(s, step), key, b, NextStanding(s, key, b, standing, step))
  {
    if step != RemoveBook(b) {
      match standing
      case Answering =>
        if Drifts(s, key, b, step) {
          StepDrifts(s, key, b, step);
        } else if Eclipses(key, b, step) {
          StepEclipses(s, key, b, step);
        } else {
          StepAnswers(s, key, b, step);
        }
      case Adrift => if Returns(key, b, step) { StepReturns(s, key, b, step); } else { StepDrifts(s, key, b, step); }
      case Covered =>
        if Uncovers(s, key, step) { StepUncovers(s, key, b, step); } else { StepStaysCovered(s, key, b, step); }
      case Gone =>
    }
  }

  lemma ImportAnswers(s: Shelf, key: ItemKey, b: Id, k: ItemKey, files: Option<Id>, title: TitleMatch,
                      attached: bool, linked: bool)
    requires Unique(s) && Answers(s, key, b) && Enabled(s, Import(k, files, title, attached, linked))
    ensures Answers(Imported(s, k, files, title, attached, linked), key, b)
  {
    AnsweringBookIsFound(s, key, b);
    var s' := Imported(s, k, files, title, attached, linked);
    forall c | IsPrimary(s', FromItem(key), c) ensures c == b {
      if c in s.books { assert IsPrimary(s, FromItem(key), c); }
    }
  }

  lemma AnsweringBookIsFound(s: Shelf, key: ItemKey, b: Id)
    requires Unique(s) && Answers(s, key, b)
    ensures FindAny(s, FromItem(key)) == Some(b)
  {
    FindAnyIs(s, FromItem(key), b);
  }

  /** A drifted book is found by the item's link alone. */
  lemma DriftedIsFoundByItsLink(s: Shelf, key: ItemKey, b: Id)
    requires Drifted(s, key, b)
    ensures Findable(s, key, b) <==> LinkLives(s, key) && s.links[key] == b
  {
  }

  ghost predicate PossibleRun(s: Shelf, run: seq<Step>)
    decreases |run|
  {
    run == [] || (Enabled(s, run[0]) && PossibleRun(Apply(s, run[0]), run[1..]))
  }

  ghost function After(s: Shelf, run: seq<Step>): Shelf
    requires PossibleRun(s, run)
    decreases |run|
  {
    if run == [] then s else After(Apply(s, run[0]), run[1..])
  }

  /** Some step of the run may have parted the item from the book. */
  ghost predicate EverParts(s: Shelf, key: ItemKey, b: Id, run: seq<Step>)
    requires PossibleRun(s, run)
    decreases |run|
  {
    run != [] && (Parts(s, key, b, run[0]) || EverParts(Apply(s, run[0]), key, b, run[1..]))
  }

  /** How the book stands to the key after the run, read off its steps. */
  ghost function StandingAfter(s: Shelf, key: ItemKey, b: Id, run: seq<Step>, standing: Standing): Standing
    requires PossibleRun(s, run)
    decreases |run|
  {
    if run == [] then standing
    else StandingAfter(Apply(s, run[0]), key, b, run[1..], NextStanding(s, key, b, standing, run[0]))
  }

  /** Over any history the book answers to the item's key exactly as its steps say. */
  lemma {:induction false} RunStands(s: Shelf, key: ItemKey, b: Id, run: seq<Step>, standing: Standing)
    requires Unique(s) && PossibleRun(s, run) && Stands(s, key, b, standing)
    ensures Unique(After(s, run)) && Stands(After(s, run), key, b, StandingAfter(s, key, b, run, standing))
    decreases |run|
  {
    if run != [] {
      StepKeepsUnique(s, run[0]);
      StepStands(s, key, b, standing, run[0]);
      RunStands(Apply(s, run[0]), key, b, run[1..], NextStanding(s, key, b, standing, run[0]));
    }
  }

  /** While nothing parted the item from the book, no live link of the item leads elsewhere either. */
  lemma {:induction false} RunKeepsAnchor(s: Shelf, key: ItemKey, b: Id, run: seq<Step>)
    requires Unique(s) && Anchored(s, key, b) && PossibleRun(s, run) && !EverParts(s, key, b, run)
    ensures Anchored(After(s, run), key, b)
    decreases |run|
  {
    if run != [] {
      StepKeepsUnique(s, run[0]);
      StepKeepsAnchor(s, key, b, run[0]);
      RunKeepsAnchor(Apply(s, run[0]), key, b, run[1..]);
    }
  }

  /** The next import of the item binds to the book and creates none, whatever its files and title match. */
  ghost predicate FoundAgain(s: Shelf, key: ItemKey, b: Id) {
    forall files, title, a, l ::
      Ladder(s, key, files, title) == Some(b) && Imported(s, key, files, title, a, l).books == s.books
  }

  /**
   * Main result: after a book was created for an item, and whatever followed (imports, retitles, relinks, rollbacks,
   * lost links, an identifier written without its row), the next import of the item binds to that book and creates
   * none, whatever its files and title match, exactly when no step parted the two (the key given up unattached or put
   * on another book, the item pointed at another book by hand, the book deleted), or the item's live link names the
   * book, or no link lives and the book answers to the key by now: a key given up has been put back, and another book
   * that was given it has lost it again.
   */
  lemma CreatedBookIsFoundAgain(s: Shelf, key: ItemKey, title: TitleMatch, attached: bool, linked: bool, run: seq<Step>)
    requires Unique(s) && Ladder(s, key, None, title) == None && !title.OneTitle?
    requires key in s.links ==> s.links[key] < s.next
    requires PossibleRun(Imported(s, key, None, title, attached, linked), run)
    ensures var s1 := Imported(s, key, None, title, attached, linked);
            var s' := After(s1, run);
            FoundAgain(s', key, s.next) <==>
              || !EverParts(s1, key, s.next, run)
              || (if LinkLives(s', key) then s'.links[key] == s.next
                  else StandingAfter(s1, key, s.next, run, Answering) == Answering)
  {
    var b, s1 := s.next, Imported(s, key, None, title, attached, linked);
    ImportKeepsUnique(s, key, None, title, attached, linked);
    CreationAnchors(s, key, title, attached, linked);
    RunStands(s1, key, b, run, Answering);
    var s' := After(s1, run);
    StandingTells(s', key, b, StandingAfter(s1, key, b, run, Answering));
    if !EverParts(s1, key, b, run) {
      RunKeepsAnchor(s1, key, b, run);
      AnchoredIsFindable(s', key, b);
    }
    FoundAgainWhenFindable(s', key, b);
  }

  /** With no live link of the item, the book is found exactly when it answers to the key. */
  lemma StandingTells(s: Shelf, key: ItemKey, b: Id, standing: Standing)
    requires Unique(s) && Stands(s, key, b, standing)
    ensures Findable(s, key, b) <==> if LinkLives(s, key) then s.links[key] == b else standing == Answering
  {
    match standing
    case Answering => AnsweringBookIsFound(s, key, b);
    case Adrift => DriftedIsFoundByItsLink(s, key, b);
    case Covered =>
      var c :| c != b && IsPrimary(s, FromItem(key), c);
      FindAnyIs(s, FromItem(key), c);
    case Gone =>
  }

  lemma FoundAgainWhenFindable(s: Shelf, key: ItemKey, b: Id)
    ensures FoundAgain(s, key, b) <==> Findable(s, key, b)
  {
    if b in s.books { BindsWhateverElseMatches(s, key, b); }
    if FoundAgain(s, key, b) {
      forall files, title ensures Ladder(s, key, files, title) == Some(b) {
        assert Imported(s, key, files, title, false, false).books == s.books;
      }
      assert Ladder(s, key, None, NoTitle) == Some(b);
    }
  }

  lemma CreationAnchors(s: Shelf, key: ItemKey, title: TitleMatch, attached: bool, linked: bool)
    requires Unique(s) && Ladder(s, key, None, title) == None && !title.OneTitle?
    requires key in s.links ==> s.links[key] < s.next
    ensures Anchored(Imported(s, key, None, title, attached, linked), key, s.next)
  {
    var s' := Imported(s, key, None, title, attached, linked);
    forall c | IsPrimary(s', FromItem(key), c) ensures c == s.next {
      assert c in s.books ==> !IsPrimary(s, FromItem(key), c);
    }
    assert FromItem(key) !in s.identifiers;
  }

  /** A relink away from an unattached key loses the book once its link is lost: the next import makes a second row. */
  lemma UnattachedRelinkMakesASecondBook(s: Shelf, key: ItemKey, b: Id, upstream: string)
    requires Unique(s) && Anchored(s, key, b) && s.books[b] == FromItem(key) && FromItem(key) !in s.identifiers
    requires Enabled(s, Relink(b, upstream))
    ensures var s1 := Apply(s, Relink(b, upstream));
            var s2 := Apply(s1, LoseLink(key));
            && b in s2.books && Ladder(s2, key, None, NoTitle) == None
            && Imported(s2, key, None, NoTitle, false, false).books.Keys == s2.books.Keys + {s2.next}
  {
    var s2 := Apply(Apply(s, Relink(b, upstream)), LoseLink(key));
    forall c ensures !IsPrimary(s2, FromItem(key), c) { assert IsPrimary(s, FromItem(key), c) ==> c == b; }
  }

  /** A rollback puts the item's key on another book: once the link is lost, the next import binds to that one. */
  lemma RestoredKeyTakesTheItem(s: Shelf, key: ItemKey, b: Id, c: Id, files: Option<Id>, title: TitleMatch)
    requires Unique(s) && Anchored(s, key, b) && c != b && Enabled(s, RestoreId(c, FromItem(key)))
    ensures var s1 := Apply(s, RestoreId(c, FromItem(key)));
            Eclipsed(s1, key, b) && Ladder(Apply(s1, LoseLink(key)), key, files, title) == Some(c)
  {
    var s2 := Apply(Apply(s, RestoreId(c, FromItem(key))), LoseLink(key));
    StepEclipses(s, key, b, RestoreId(c, FromItem(key)));
    StepKeepsUnique(s, RestoreId(c, FromItem(key)));
    FindAnyIs(s2, FromItem(key), c);
  }

  /** An import whose link was written binds the item to the same book next time, whatever its files and title match. */
  lemma LinkedItemBindsAgain(s: Shelf, key: ItemKey, files: Option<Id>, title: TitleMatch, attached: bool,
                             files': Option<Id>, title': TitleMatch)
    requires Enabled(s, Import(key, files, title, attached, true))
    ensures var s' := Imported(s, key, files, title, attached, true);
            Ladder(s', key, files', title') ==
            match Ladder(s, key, files, title) case Some(b) => Some(b) case None => Some(s.next)
  {
  }

  /** A created book whose key was attached is found by it after a relink, even when the item's link is lost. */
  lemma AttachedKeySurvivesRelink(s: Shelf, key: ItemKey, upstream: string, linked: bool)
    requires Unique(s) && Ladder(s, key, None, NoTitle) == None
    requires Enabled(Imported(s, key, None, NoTitle, true, linked), Relink(s.next, upstream))
    ensures var s1 := Imported(s, key, None, NoTitle, true, linked);
            var s2 := Apply(Apply(s1, Relink(s.next, upstream)), LoseLink(key));
            Ladder(s2, key, None, NoTitle) == Some(s.next)
  {
    var s1 := Imported(s, key, None, NoTitle, true, linked);
    UnfoundKeyIsFree(s, FromItem(key));
    PreservedKeyFinds(s1, key, s.next, upstream);
  }

  /** So does a key set aside just before the relink, unless it is attached to another book. */
  lemma PreservedKeySurvivesRelink(s: Shelf, key: ItemKey, b: Id, upstream: string)
    requires Unique(s) && IsPrimary(s, FromItem(key), b) && Enabled(s, Relink(b, upstream))
    requires FromItem(key) in s.identifiers ==> s.identifiers[FromItem(key)] == b
    ensures var s1 := Apply(Apply(s, PreserveId(b)), Relink(b, upstream));
            Ladder(Apply(s1, LoseLink(key)), key, None, NoTitle) == Some(b)
  {
    PreservedKeyFinds(Apply(s, PreserveId(b)), key, b, upstream);
  }

  lemma PreservedKeyFinds(s: Shelf, key: ItemKey, b: Id, upstream: string)
    requires Enabled(s, Relink(b, upstream)) && FromItem(key) in s.identifiers && s.identifiers[FromItem(key)] == b
    requires forall c :: IsPrimary(s, FromItem(key), c) ==> c == b
    ensures Ladder(Apply(Apply(s, Relink(b, upstream)), LoseLink(key)), key, None, NoTitle) == Some(b)
  {
    var s2 := Apply(Apply(s, Relink(b, upstream)), LoseLink(key));
    forall c ensures !IsPrimary(s2, FromItem(key), c) { assert IsPrimary(s, FromItem(key), c) ==> c == b; }
  }
}
