// While a book or an author lives, what may take its provenance rows away; no step brings a row back.

module RollbackLinks {
  import opened RollbackModel
  import opened RollbackProofs
  import opened RollbackRepeat

  // ----- books -----

  lemma {:induction false} RemovingBooksKeepsLink(c: Ctx, w: Work, listed: seq<Id>, k: Key, b: Id)
    requires k in w.s.prov && w.s.prov[k].local == b && k.kind == BookKind && b in w.s.books
    requires b in RemoveRunBooks(c, w, listed).0.s.books
    ensures k in RemoveRunBooks(c, w, listed).0.s.prov
  {
    if listed != [] {
      var front := listed[..|listed| - 1];
      RemoveRunBooksKeepsRows(c, w, listed, b);
      RemoveRunBooksShrinks(c, w, front);
      if b in RemoveRunBooks(c, w, front).0.s.books { RemovingBooksKeepsLink(c, w, front, k, b); }
    }
  }

  lemma BookStepKeepsLink(norm: string -> string, c: Ctx, w: Work, f: Entity, k: Key, b: Id)
    requires k in w.s.prov && w.s.prov[k].local == b && k.kind == BookKind && b in w.s.books
    requires f.key.kind == BookKind && b in BookStep(norm, c, w, f).s.books
    requires !(f.key == k && f.local == b) && Matches(w.s, f)
    ensures k in BookStep(norm, c, w, f).s.prov
  {
    if f.outcome != Created && f.snapshot.OfBook? { BookRestoredTakesOwnRow(norm, c, w, f); }
  }

  lemma AuthorStepKeepsLink(c: Ctx, w: Work, f: Entity, k: Key, b: Id)
    requires k in w.s.prov && w.s.prov[k].local == b && k.kind == BookKind && b in w.s.books
    requires f.key.kind == AuthorKind && b in AuthorStep(c, w, f).s.books
    ensures k in AuthorStep(c, w, f).s.prov
  {
    if f.outcome == Created {
      AuthorCreatedKeepsBookLink(c, w, f, k, b);
    } else if f.snapshot.OfAuthor? {
      AuthorRestoredTakesOwnRow(c, w, f);
    }
  }

  lemma AuthorCreatedKeepsBookLink(c: Ctx, w: Work, f: Entity, k: Key, b: Id)
    requires k in w.s.prov && w.s.prov[k].local == b && k.kind == BookKind && b in w.s.books
    requires f.key.kind == AuthorKind && b in AuthorCreated(c, w, f).s.books
    ensures k in AuthorCreated(c, w, f).s.prov
  {
    var listed := BooksOf(w.s, f.local, c.bookOrder);
    if b in RemoveRunBooks(c, w, listed).0.s.books { RemovingBooksKeepsLink(c, w, listed, k, b); }
  }

  lemma SeriesStepKeepsBookLink(c: Ctx, w: Work, f: Entity, k: Key)
    requires k in w.s.prov && k.kind == BookKind && f.key.kind == SeriesKind
    ensures k in SeriesStep(c, w, f).s.prov
  {
    if Owned(w.s, c.run, f) && f.bookId > 0 { MembershipKeepsBookLink(c, w, f, k); }
  }

  lemma MembershipKeepsBookLink(c: Ctx, w: Work, f: Entity, k: Key)
    requires k in w.s.prov && k.kind == BookKind && f.key.kind == SeriesKind && Owned(w.s, c.run, f) && f.bookId > 0
    ensures k in SeriesMembership(c, w, f).s.prov
  {
  }

  /** While book b lives, only an entity of the same external id and row takes away one of its provenance rows. */
  lemma StepKeepsLink(norm: string -> string, c: Ctx, w: Work, f: Entity, k: Key, b: Id)
    requires k in w.s.prov && w.s.prov[k].local == b && k.kind == BookKind && b in w.s.books
    requires b in Step(norm, c, w, f).s.books && !(f.key == k && f.local == b)
    ensures k in Step(norm, c, w, f).s.prov
  {
    match f.key.kind
    case BookKind => if Matches(w.s, f) { BookStepKeepsLink(norm, c, w, f, k, b); }
    case AuthorKind => AuthorStepKeepsLink(c, w, f, k, b);
    case SeriesKind => SeriesStepKeepsBookLink(c, w, f, k);
    case _ =>
  }

  lemma StepNeverAddsBook(norm: string -> string, c: Ctx, w: Work, f: Entity, b: Id)
    requires b in Step(norm, c, w, f).s.books
    ensures b in w.s.books
  {
    if !RestoresBook(f) { StepKeepsBookRow(norm, c, w, f, b); }
  }

  lemma {:induction false} StepsNeverAddBook(norm: string -> string, c: Ctx, w: Work, es: seq<Entity>, b: Id)
    requires b in Steps(norm, c, w, es).s.books
    ensures b in w.s.books
  {
    if es != [] {
      StepNeverAddsBook(norm, c, Steps(norm, c, w, es[..|es| - 1]), es[|es| - 1], b);
      StepsNeverAddBook(norm, c, w, es[..|es| - 1], b);
    }
  }

  // ----- authors -----

  lemma AuthorStepKeepsAuthorLink(c: Ctx, w: Work, f: Entity, k: Key, a: Id)
    requires k in w.s.prov && w.s.prov[k].local == a && k.kind == AuthorKind && a in w.s.authors && Matches(w.s, f)
    requires f.key.kind == AuthorKind && a in AuthorStep(c, w, f).s.authors && !(f.key == k && f.local == a)
    ensures k in AuthorStep(c, w, f).s.prov
  {
    if f.outcome == Created {
      AuthorCreatedKeepsAuthorLink(c, w, f, k, a);
    } else if f.snapshot.OfAuthor? {
      AuthorRestoredKeepsAuthorLink(c, w, f, k);
    }
  }

  lemma AuthorCreatedKeepsAuthorLink(c: Ctx, w: Work, f: Entity, k: Key, a: Id)
    requires k in w.s.prov && w.s.prov[k].local == a && k.kind == AuthorKind && a in w.s.authors && Matches(w.s, f)
    requires f.key.kind == AuthorKind && a in AuthorCreated(c, w, f).s.authors && !(f.key == k && f.local == a)
    ensures k in AuthorCreated(c, w, f).s.prov
  {
    var listed := BooksOf(w.s, f.local, c.bookOrder);
    RemovingBooksKeepsAuthorRows(c, w, listed, k);
    RemoveRunBooksShrinks(c, w, listed);
    RemoveRunBooksKeepsRows(c, w, listed, 0);
  }

  lemma AuthorRestoredKeepsAuthorLink(c: Ctx, w: Work, f: Entity, k: Key)
    requires k in w.s.prov && RestoresAuthor(f) && f.key != k
    ensures k in AuthorRestored(c, w, f).s.prov
  {
    AuthorRestoredTakesOwnRow(c, w, f);
  }

  /** While author a lives, only an entity of the same external id and row takes away one of its provenance rows. */
  lemma StepKeepsAuthorLink(norm: string -> string, c: Ctx, w: Work, f: Entity, k: Key, a: Id)
    requires k in w.s.prov && w.s.prov[k].local == a && k.kind == AuthorKind && a in w.s.authors
    requires a in Step(norm, c, w, f).s.authors && !(f.key == k && f.local == a)
    ensures k in Step(norm, c, w, f).s.prov
  {
    if Matches(w.s, f) {
      match f.key.kind
      case BookKind => BookStepKeepsAuthorLink(norm, c, w, f, k);
      case AuthorKind => AuthorStepKeepsAuthorLink(c, w, f, k, a);
      case SeriesKind => SeriesStepKeepsAuthorLink(c, w, f, k);
      case _ =>
    }
  }

  lemma BookStepKeepsAuthorLink(norm: string -> string, c: Ctx, w: Work, f: Entity, k: Key)
    requires k in w.s.prov && k.kind == AuthorKind && f.key.kind == BookKind
    ensures k in BookStep(norm, c, w, f).s.prov
  {
    if f.outcome != Created && f.snapshot.OfBook? { BookRestoredTakesOwnRow(norm, c, w, f); }
  }

  lemma SeriesStepKeepsAuthorLink(c: Ctx, w: Work, f: Entity, k: Key)
    requires k in w.s.prov && k.kind == AuthorKind && f.key.kind == SeriesKind
    ensures k in SeriesStep(c, w, f).s.prov
  {
    if Owned(w.s, c.run, f) && f.bookId > 0 { MembershipKeepsAuthorLink(c, w, f, k); }
  }

  lemma MembershipKeepsAuthorLink(c: Ctx, w: Work, f: Entity, k: Key)
    requires k in w.s.prov && k.kind == AuthorKind && f.key.kind == SeriesKind && Owned(w.s, c.run, f) && f.bookId > 0
    ensures k in SeriesMembership(c, w, f).s.prov
  {
  }

  lemma StepNeverAddsAuthor(norm: string -> string, c: Ctx, w: Work, f: Entity, a: Id)
    requires a in Step(norm, c, w, f).s.authors
    ensures a in w.s.authors
  {
    if RestoresAuthor(f) && f.local == a {
      RestoredAuthorWasThere(c, w, f);
    } else {
      StepKeepsAuthorRow(norm, c, w, f, a);
    }
  }

  lemma RestoredAuthorWasThere(c: Ctx, w: Work, f: Entity)
    requires RestoresAuthor(f) && f.local in AuthorRestored(c, w, f).s.authors
    ensures f.local in w.s.authors
  {
  }

  lemma {:induction false} StepsNeverAddAuthor(norm: string -> string, c: Ctx, w: Work, es: seq<Entity>, a: Id)
    requires a in Steps(norm, c, w, es).s.authors
    ensures a in w.s.authors
  {
    if es != [] {
      StepNeverAddsAuthor(norm, c, Steps(norm, c, w, es[..|es| - 1]), es[|es| - 1], a);
      StepsNeverAddAuthor(norm, c, w, es[..|es| - 1], a);
    }
  }
}
