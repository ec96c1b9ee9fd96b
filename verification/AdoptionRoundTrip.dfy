// Adopting files into a book and undoing it again, with nobody in between: when the book's status comes back.

module AdoptionRoundTrip {
  import opened Common
  import opened AdoptionStore
  import opened AdoptionReversal

  /** What a refresh makes of a media type and status, given the formats on file. */
  function Derive(media: Media, status: Status, ebook: bool, audio: bool): (Media, Status) {
    var m := if ebook && audio then BothMedia else media;
    var complete := (m != AudiobookOnly ==> ebook) && (m != EbookOnly ==> audio);
    (m, if complete then Imported else if status == Imported then Wanted else status)
  }

  /** The book's media type and status, and what a refresh would make of them. */
  function Shown(w: World, b: Id): (Media, Status)
    requires b in w.books
  {
    (w.books[b].media, w.books[b].status)
  }

  function Derived(w: World, b: Id, shown: (Media, Status)): (Media, Status) {
    Derive(shown.0, shown.1, HasFormat(w.files, b, Ebook), HasFormat(w.files, b, Audiobook))
  }

  /** A refresh would change nothing. */
  predicate UpToDate(w: World, b: Id) { b in w.books && Derived(w, b, Shown(w, b)) == Shown(w, b) }

  function Other(f: Format): Format { if f == Ebook then Audiobook else Ebook }

  /** Register new paths of one format for a book, one by one. */
  function RowsAdopted(w: World, b: Id, f: Format, paths: seq<Path>): World {
    if paths == [] then w
    else Refresh(Track(RowsAdopted(w, b, f, paths[..|paths| - 1]), b, f, paths[|paths| - 1]), b)
  }

  function RowsOf(b: Id, paths: seq<Path>): (rows: seq<Registered>)
    ensures |rows| == |paths|
    ensures forall i :: 0 <= i < |paths| ==> rows[i] == Registered(paths[i], b)
  {
    if paths == [] then [] else RowsOf(b, paths[..|paths| - 1]) + [Registered(paths[|paths| - 1], b)]
  }

  ghost predicate NewPaths(w: World, paths: seq<Path>) { forall p :: p in paths ==> p !in w.files }

  /** The table with the new rows. */
  ghost predicate RowsInserted(files: map<Path, File>, after: map<Path, File>, b: Id, f: Format, paths: seq<Path>) {
    && (forall p :: p in paths ==> p in after && after[p] == File(b, f))
    && (forall p :: p in files && p !in paths ==> p in after && after[p] == files[p])
    && (forall p :: p in after ==> p in files || p in paths)
  }

  lemma FormatsAfterInsert(files: map<Path, File>, after: map<Path, File>, b: Id, f: Format, paths: seq<Path>)
    requires RowsInserted(files, after, b, f, paths) && forall p :: p in paths ==> p !in files
    ensures HasFormat(after, b, Other(f)) == HasFormat(files, b, Other(f))
    ensures paths != [] ==> HasFormat(after, b, f)
  {
    if HasFormat(files, b, Other(f)) {
      var p :| p in files && files[p] == File(b, Other(f));
      assert p in after && after[p] == File(b, Other(f));
    }
    if paths != [] { assert paths[0] in after && after[paths[0]] == File(b, f); }
  }

  /** Adopting shows what one refresh with the adopted format on file shows. */
  lemma {:induction false} AdoptingShows(w: World, b: Id, f: Format, paths: seq<Path>)
    requires UpToDate(w, b) && NewPaths(w, paths)
    ensures var w1 := RowsAdopted(w, b, f, paths);
            && b in w1.books && RowsInserted(w.files, w1.files, b, f, paths)
            && Shown(w1, b) == if paths == [] then Shown(w, b) else Derived(w1, b, Shown(w, b))
  {
    if paths != [] {
      var front, p := paths[..|paths| - 1], paths[|paths| - 1];
      var w1 := RowsAdopted(w, b, f, front);
      assert paths == front + [p];
      AdoptingShows(w, b, f, front);
      InsertOneMore(w, w1, b, f, front, p);
      var w2 := Track(w1, b, f, p);
      FormatsAfterInsert(w.files, w1.files, b, f, front);
      FormatsAfterInsert(w.files, w2.files, b, f, paths);
    }
  }

  lemma InsertOneMore(w: World, w1: World, b: Id, f: Format, front: seq<Path>, p: Path)
    requires RowsInserted(w.files, w1.files, b, f, front) && NewPaths(w, front + [p]) && b in w1.books
    ensures RowsInserted(w.files, Track(w1, b, f, p).files, b, f, front + [p])
    ensures Track(w1, b, f, p).books == w1.books
  {
    assert p in front + [p] && forall q :: q in front ==> q in front + [p];
  }

  /** Untracking rows of one format shows the same until the last is gone, then what one more refresh shows. */
  lemma {:induction false} UntrackingShows(w: World, b: Id, f: Format, rows: seq<Registered>)
    requires UpToDate(w, b) && HasFormat(w.files, b, f)
    requires forall r :: r in rows ==>
               r.book == b && (r.path in w.files && w.files[r.path].book == b ==> w.files[r.path].format == f)
    ensures var w1 := UntrackAll(w, rows);
            && b in w1.books && HasFormat(w1.files, b, Other(f)) == HasFormat(w.files, b, Other(f))
            && (forall p :: p in w1.files ==> p in w.files && w1.files[p] == w.files[p])
            && Shown(w1, b) == if HasFormat(w1.files, b, f) then Shown(w, b) else Derived(w1, b, Shown(w, b))
  {
    if rows != [] {
      var front, last := rows[..|rows| - 1], rows[|rows| - 1];
      assert last in rows && forall r :: r in front ==> r in rows;
      UntrackingShows(w, b, f, front);
      var w1 := UntrackAll(w, front);
      if Owns(w1.files, last) {
        OneRowLess(w1, b, f, last);
      }
    }
  }

  lemma OneRowLess(w: World, b: Id, f: Format, r: Registered)
    requires Owns(w.files, r) && w.files[r.path] == File(b, f)
    ensures HasFormat(DropRow(w, r).files, b, Other(f)) == HasFormat(w.files, b, Other(f))
    ensures HasFormat(DropRow(w, r).files, b, f) ==> HasFormat(w.files, b, f)
  {
    if HasFormat(w.files, b, Other(f)) {
      var p :| p in w.files && w.files[p] == File(b, Other(f));
      assert p in DropRow(w, r).files && DropRow(w, r).files[p] == File(b, Other(f));
    }
  }

  /** The record of that adoption. */
  function AdoptionOf(w: World, b: Id, paths: seq<Path>): Record
    requires b in w.books
  {
    NO_RECORD.(bookId := b, prior := Some(w.books[b].status), registered := RowsOf(b, paths))
  }

  /** With the formats on file before (the adopted one, the other one): the status after adopting and untracking. */
  function StatusAfterUndo(media: Media, status: Status, f: Format, had: bool, other: bool, readable: bool)
    : (Media, Status)
  {
    var adopted := if f == Ebook then Derive(media, status, true, other) else Derive(media, status, other, true);
    var back := if had then adopted
                else if f == Ebook then Derive(adopted.0, adopted.1, false, other)
                else Derive(adopted.0, adopted.1, other, false);
    if status == Skipped && readable && adopted.1 == Imported && back.1 == Wanted then (back.0, Skipped) else back
  }

  lemma StatusComesBack(media: Media, status: Status, f: Format, had: bool, other: bool, readable: bool)
    requires (if f == Ebook then Derive(media, status, had, other) else Derive(media, status, other, had)) ==
             (media, status)
    ensures var back := StatusAfterUndo(media, status, f, had, other, readable);
            var adopted :=
              if f == Ebook then Derive(media, status, true, other) else Derive(media, status, other, true);
            && (back.1 == status <==>
                && !(status == Imported && other && !had)
                && !(status == Skipped && adopted.1 == Imported && !readable))
            && (status == Imported && other && !had ==> back == (BothMedia, Wanted))
            && (status == Skipped && adopted.1 == Imported && !readable ==> back.1 == Wanted)
  {
  }

  /** The book was complete with the other format only, and adopting widens what it is expected to have. */
  predicate Widens(w: World, b: Id, f: Format)
    requires b in w.books
  {
    w.books[b].status == Imported && HasFormat(w.files, b, Other(f)) && !HasFormat(w.files, b, f)
  }

  lemma RowsNameThePaths(b: Id, paths: seq<Path>)
    ensures forall p :: p in paths ==> Registered(p, b) in RowsOf(b, paths)
    ensures forall r :: r in RowsOf(b, paths) ==> r.path in paths && r.book == b
  {
    var rows := RowsOf(b, paths);
    forall p | p in paths ensures Registered(p, b) in rows {
      var i :| 0 <= i < |paths| && paths[i] == p;
      assert rows[i] == Registered(p, b);
    }
    forall r | r in rows ensures r.path in paths && r.book == b {
      var i :| 0 <= i < |paths| && rows[i] == r;
    }
  }

  lemma FilesComeBack(w: World, b: Id, f: Format, paths: seq<Path>)
    requires UpToDate(w, b) && NewPaths(w, paths)
    ensures WithoutRows(RowsAdopted(w, b, f, paths).files, RowsOf(b, paths)) == w.files
  {
    AdoptingShows(w, b, f, paths);
    var after, rows := RowsAdopted(w, b, f, paths).files, RowsOf(b, paths);
    RowsNameThePaths(b, paths);
    forall p | p in w.files ensures Registered(p, w.files[p].book) !in rows && p !in paths {}
  }

  /** The book was skipped, and adopting completes it. */
  predicate Completes(w: World, b: Id, f: Format)
    requires b in w.books
  {
    w.books[b].status == Skipped && Adopted(w, b, f).1 == Imported
  }

  /** What one refresh shows with the adopted format on file. */
  function Adopted(w: World, b: Id, f: Format): (Media, Status)
    requires b in w.books
  {
    var other := HasFormat(w.files, b, Other(f));
    if f == Ebook then Derive(w.books[b].media, w.books[b].status, true, other)
    else Derive(w.books[b].media, w.books[b].status, other, true)
  }

  /**
   * Undoing an adoption gives the tracked rows back exactly, and the status exactly unless the adoption widened a
   * complete book, which is left wanted in the format nobody asked for, or completed a skipped one whose status could
   * not be read before the rows were untracked, which is left wanted too.
   */
  lemma UndoRestoresStatusUnlessWidened(w: World, unit: Id, b: Id, f: Format, paths: seq<Path>, readable: bool)
    requires b > 0 && paths != [] && UpToDate(w, b) && NewPaths(w, paths)
    ensures var w1 := Reversed(RowsAdopted(w, b, f, paths), unit, AdoptionOf(w, b, paths), readable);
            && w1.files == w.files && b in w1.books
            && (w1.books[b].status == w.books[b].status <==> !Widens(w, b, f) && (readable || !Completes(w, b, f)))
            && (Widens(w, b, f) ==> w1.books[b].status == Wanted && w1.books[b].media == BothMedia)
            && (Completes(w, b, f) && !readable ==> w1.books[b].status == Wanted)
  {
    var r, adopted := AdoptionOf(w, b, paths), RowsAdopted(w, b, f, paths);
    AdoptingShows(w, b, f, paths);
    FormatsAfterInsert(w.files, adopted.files, b, f, paths);
    FilesComeBack(w, b, f, paths);
    ReversalUntracksExactlyTheRecord(adopted, unit, r, readable);
    RecordedRowsAreOfFormat(w, b, f, paths);
    UntrackingShows(adopted, b, f, r.registered);
    UntrackAllFiles(adopted, r.registered);
    ShownAfterUndo(w, adopted, unit, b, f, r, readable);
    StatusComesBack(w.books[b].media, w.books[b].status, f, HasFormat(w.files, b, f),
                    HasFormat(w.files, b, Other(f)), readable);
  }

  lemma RecordedRowsAreOfFormat(w: World, b: Id, f: Format, paths: seq<Path>)
    requires UpToDate(w, b) && NewPaths(w, paths)
    ensures var adopted := RowsAdopted(w, b, f, paths);
            forall r :: r in RowsOf(b, paths) ==>
              r.book == b && r.path in adopted.files && adopted.files[r.path] == File(b, f)
  {
    AdoptingShows(w, b, f, paths);
    RowsNameThePaths(b, paths);
  }

  lemma ShownAfterUndo(w: World, adopted: World, unit: Id, b: Id, f: Format, r: Record, readable: bool)
    requires b > 0 && b in w.books && b in adopted.books && r.bookId == b && r.link.None?
    requires r.createdBook == 0 && r.createdAuthor == 0 && r.prior == Some(w.books[b].status)
    requires HasFormat(adopted.files, b, f) && HasFormat(adopted.files, b, Other(f)) == HasFormat(w.files, b, Other(f))
    requires Shown(adopted, b) == Derived(adopted, b, Shown(w, b))
    requires var w1 := UntrackAll(adopted, r.registered);
             && w1.files == w.files && b in w1.books
             && Shown(w1, b) == if HasFormat(w.files, b, f) then Shown(adopted, b) else Derived(w, b, Shown(adopted, b))
    ensures b in Reversed(adopted, unit, r, readable).books
    ensures Shown(Reversed(adopted, unit, r, readable), b) ==
            StatusAfterUndo(w.books[b].media, w.books[b].status, f, HasFormat(w.files, b, f),
                            HasFormat(w.files, b, Other(f)), readable)
  {
    assert FilesReversed(adopted, r) == UntrackAll(adopted, r.registered);
  }

  /** A complete ebook, tracked by one file. */
  function CompleteEbook(): World {
    World(map[], map[1 := Book(3, Imported, EbookOnly, 0)], {3}, map["dune.epub" := File(1, Ebook)], {})
  }

  /** Adopting an audiobook into it and undoing that leaves the book wanted in both formats. */
  lemma UndoLeavesTheWidenedBookWanted(unit: Id)
    ensures var w := CompleteEbook();
            var w1 := Reversed(RowsAdopted(w, 1, Audiobook, ["dune.m4b"]), unit, AdoptionOf(w, 1, ["dune.m4b"]), true);
            && w1.files == w.files && w.books[1].status == Imported
            && 1 in w1.books && w1.books[1].status == Wanted && w1.books[1].media == BothMedia
  {
    var w := CompleteEbook();
    assert HasFormat(w.files, 1, Ebook) && !HasFormat(w.files, 1, Audiobook) by {
      assert w.files["dune.epub"] == File(1, Ebook);
    }
    UndoRestoresStatusUnlessWidened(w, unit, 1, Audiobook, ["dune.m4b"], true);
  }

  /**
   * A skipped book without files: adopting its ebook completes it, and an undo that cannot read it leaves it wanted.
   */
  lemma UnreadStatusLeavesTheSkippedBookWanted(unit: Id)
    ensures var w := World(map[], map[1 := Book(3, Skipped, EbookOnly, 0)], {3}, map[], {});
            var w1 := Reversed(RowsAdopted(w, 1, Ebook, ["dune.epub"]), unit, AdoptionOf(w, 1, ["dune.epub"]), false);
            && w1.files == w.files && w.books[1].status == Skipped
            && 1 in w1.books && w1.books[1].status == Wanted
  {
    var w := World(map[], map[1 := Book(3, Skipped, EbookOnly, 0)], {3}, map[], {});
    UndoRestoresStatusUnlessWidened(w, unit, 1, Ebook, ["dune.epub"], false);
  }
}
