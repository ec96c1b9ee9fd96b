// The resumable enumeration of Audiobookshelf libraries: a debounced checkpoint over pages and libraries.
// A method may stop wherever the original can be cut: Fails() stands for a crash, a cancel or a failing call.

module Enumerator {
  import opened Common
  import opened Text

  // ----- what the server lists -----

  datatype Library = Library(id: string, items: seq<string>)

  datatype Checkpoint = Checkpoint(library: string, page: nat, lastItem: string)

  /** Page p of a listing cut into pages of the given size. */
  function PageStart(items: seq<string>, size: nat, p: nat): nat {
    if p * size < |items| then p * size else |items|
  }

  function Page(items: seq<string>, size: nat, p: nat): seq<string> {
    items[PageStart(items, size, p)..Max(PageStart(items, size, p), PageStart(items, size, p + 1))]
  }

  lemma PageBounds(items: seq<string>, size: nat, p: nat)
    requires size > 0
    ensures PageStart(items, size, p) <= PageStart(items, size, p + 1) <= PageStart(items, size, p) + size
    ensures |Page(items, size, p)| == PageStart(items, size, p + 1) - PageStart(items, size, p)
    ensures |Page(items, size, p)| < size || (p + 1) * size >= |items| ==> PageStart(items, size, p + 1) == |items|
    ensures |Page(items, size, p)| == 0 ==> PageStart(items, size, p) == |items|
    ensures forall i :: 0 <= i < |Page(items, size, p)| ==>
              Page(items, size, p)[i] == items[PageStart(items, size, p) + i]
  {
    assert (p + 1) * size == p * size + size;
  }

  /** Where to start in a page whose checkpoint names lastItem: after its first occurrence, or at the top. */
  function SkipTo(page: seq<string>, lastItem: string): (n: nat)
    ensures n <= |page|
    ensures n > 0 ==> lastItem != "" && page[n - 1] == lastItem
  {
    if lastItem == "" then 0 else FirstAfter(page, lastItem, 0)
  }

  function FirstAfter(page: seq<string>, lastItem: string, from: nat): (n: nat)
    requires from <= |page|
    ensures n <= |page|
    ensures n > 0 ==> n > from && page[n - 1] == lastItem
    ensures forall i :: from <= i < |page| && page[i] == lastItem ==> 0 < n <= i + 1
    decreases |page| - from
  {
    if from == |page| then 0
    else if page[from] == lastItem then from + 1
    else FirstAfter(page, lastItem, from + 1)
  }

  /** The position a resume from cp starts at. */
  function ResumeAt(items: seq<string>, size: nat, cp: Checkpoint): (n: nat)
    ensures n <= |items|
  {
    PageStart(items, size, cp.page) + SkipTo(Page(items, size, cp.page), cp.lastItem)
  }

  // ----- what has been accepted -----

  type Accepted = set<(string, nat)>

  predicate AcceptedUpTo(acc: Accepted, id: string, n: nat) {
    forall i :: 0 <= i < n ==> (id, i) in acc
  }

  predicate Complete(acc: Accepted, lib: Library) { AcceptedUpTo(acc, lib.id, |lib.items|) }

  /** Fixed listings, the server's page size, and the library a run without checkpoint starts from. */
  datatype Source = Source(libs: seq<Library>, size: nat, start: nat) {
    predicate Valid() {
      && size > 0 && start < |libs|
      && (forall i, j :: 0 <= i < j < |libs| ==> libs[i].id != libs[j].id)
    }

    predicate CompleteBefore(acc: Accepted, k: nat)
      requires k <= |libs|
    {
      forall j :: start <= j < k ==> Complete(acc, libs[j])
    }

    /** cp stands for a prefix of accepted items of one library, with the libraries before it complete. */
    predicate DenotesAt(acc: Accepted, cp: Checkpoint, j: nat) {
      && start <= j < |libs| && libs[j].id == cp.library
      && AcceptedUpTo(acc, cp.library, ResumeAt(libs[j].items, size, cp))
      && CompleteBefore(acc, j)
    }

    ghost predicate Denotes(acc: Accepted, cp: Checkpoint) { exists j: nat :: DenotesAt(acc, cp, j) }

    /** Only items of the libraries from start on are ever accepted. */
    predicate Within(acc: Accepted) {
      forall p :: p in acc ==>
        exists j :: start <= j < |libs| && libs[j].id == p.0 && p.1 < |libs[j].items|
    }

    lemma DenotesMonotone(acc: Accepted, acc': Accepted, cp: Checkpoint)
      requires Denotes(acc, cp) && acc <= acc'
      ensures Denotes(acc', cp)
    {
      var j: nat :| DenotesAt(acc, cp, j);
      assert DenotesAt(acc', cp, j);
    }

    lemma DenotesOwn(acc: Accepted, cp: Checkpoint, j: nat)
      requires Valid() && Denotes(acc, cp) && j < |libs| && libs[j].id == cp.library
      ensures DenotesAt(acc, cp, j)
    {
      var i: nat :| DenotesAt(acc, cp, i);
    }
  }

  predicate DistinctIds(lib: Library) {
    && (forall i :: 0 <= i < |lib.items| ==> lib.items[i] != "")
    && (forall i, j :: 0 <= i < j < |lib.items| ==> lib.items[i] != lib.items[j])
  }

  /** The checkpoint offered after the item at offset idx of a page resumes no later than the next item. */
  lemma ItemCheckpoint(lib: Library, size: nat, page: nat, idx: nat)
    requires size > 0 && idx < |Page(lib.items, size, page)|
    ensures var at := ResumeAt(lib.items, size, Checkpoint(lib.id, page, Page(lib.items, size, page)[idx]));
            && at <= PageStart(lib.items, size, page) + idx + 1
            && (DistinctIds(lib) ==> at == PageStart(lib.items, size, page) + idx + 1)
  {
    var p := Page(lib.items, size, page);
    PageBounds(lib.items, size, page);
    if p[idx] != "" {
      var n := SkipTo(p, p[idx]);
      assert n == FirstAfter(p, p[idx], 0);
      assert 0 < n <= idx + 1;
      assert p[n - 1] == lib.items[PageStart(lib.items, size, page) + n - 1];
      assert p[idx] == lib.items[PageStart(lib.items, size, page) + idx];
    } else {
      assert lib.items[PageStart(lib.items, size, page) + idx] == "";
    }
  }

  // ----- the stored state -----

  datatype Outcome = Completed | Stopped | Crashed

  class Store {
    var checkpoint: Option<Checkpoint>
    /** Checkpoints held by rows of the runs table, any of which ResumeInterrupted may restore. */
    var runCopies: set<Checkpoint>
    ghost var accepted: Accepted
    /** How often something was cut or failed. */
    ghost var cuts: nat

    constructor ()
      ensures checkpoint == None && runCopies == {} && accepted == {} && cuts == 0
    {
      checkpoint, runCopies, accepted, cuts := None, {}, {}, 0;
    }

    /** Whether things are cut here. */
    method Fails() returns (cut: bool)
      modifies this`cuts
      ensures cuts == old(cuts) + (if cut then 1 else 0)
    {
      cut := *;
      if cut { cuts := cuts + 1; }
    }

    ghost predicate Valid(src: Source)
      reads this
    {
      && src.Valid() && src.Within(accepted)
      && (checkpoint.Some? ==> src.Denotes(accepted, checkpoint.value))
      && (forall cp :: cp in runCopies ==> src.Denotes(accepted, cp))
    }

    /** Where a resume of this library would start: 0 unless the stored checkpoint is this library's. */
    function StoredPosition(lib: Library, size: nat): (n: nat)
      reads this
      ensures n <= |lib.items|
    {
      if checkpoint.Some? && checkpoint.value.library == lib.id then ResumeAt(lib.items, size, checkpoint.value) else 0
    }

    /** The settings write, then the run row's copy, which may fail unnoticed. */
    method Save(cp: Checkpoint, ghost src: Source) returns (ok: bool)
      requires Valid(src) && src.Denotes(accepted, cp)
      modifies this
      ensures Valid(src) && accepted == old(accepted)
      ensures checkpoint == if ok then Some(cp) else old(checkpoint)
      ensures cuts >= old(cuts) && (!ok ==> cuts > old(cuts)) && runCopies <= old(runCopies) + {cp}
      ensures old(runCopies) <= runCopies && (cuts == old(cuts) ==> cp in runCopies)
    {
      var cut := Fails();
      ok := !cut;
      if ok {
        checkpoint := Some(cp);
        cut := Fails();
        if !cut { runCopies := runCopies + {cp}; }
      }
    }

    method Clear(ghost src: Source) returns (ok: bool)
      requires Valid(src)
      modifies this
      ensures Valid(src) && accepted == old(accepted)
      ensures checkpoint == if ok then None else old(checkpoint)
      ensures cuts >= old(cuts) && (!ok ==> cuts > old(cuts)) && runCopies == old(runCopies)
    {
      var cut := Fails();
      ok := !cut;
      if ok { checkpoint := None; }
    }

    ghost method Accept(id: string, i: nat, src: Source, j: nat)
      requires Valid(src) && src.start <= j < |src.libs| && src.libs[j].id == id && i < |src.libs[j].items|
      modifies this`accepted
      ensures Valid(src) && accepted == old(accepted) + {(id, i)}
    {
      AcceptKeeps(src, accepted, id, i, j);
      if checkpoint.Some? { src.DenotesMonotone(accepted, accepted + {(id, i)}, checkpoint.value); }
      forall cp | cp in runCopies ensures src.Denotes(accepted + {(id, i)}, cp) {
        src.DenotesMonotone(accepted, accepted + {(id, i)}, cp);
      }
      accepted := accepted + {(id, i)};
    }
  }

  lemma AcceptKeeps(src: Source, acc: Accepted, id: string, i: nat, j: nat)
    requires src.Within(acc) && src.start <= j < |src.libs| && src.libs[j].id == id && i < |src.libs[j].items|
    ensures src.Within(acc + {(id, i)})
  {
  }

  // ----- the debounced writer -----

  class Checkpointer {
    const store: Store
    const minItems: nat
    var pending: Option<Checkpoint>
    var itemsSinceWrite: nat

    constructor (store: Store, minItems: nat)
      ensures this.store == store && this.minItems == minItems && pending == None && itemsSinceWrite == 0
    {
      this.store, this.minItems, pending, itemsSinceWrite := store, minItems, None, 0;
    }

    /** Write the pending candidate, if any, and reset the counter. */
    method Flush(ghost src: Source) returns (ok: bool)
      requires store.Valid(src) && (pending.Some? ==> src.Denotes(store.accepted, pending.value))
      modifies this, store
      ensures store.Valid(src) && store.accepted == old(store.accepted)
      ensures old(pending).None? ==> ok && itemsSinceWrite == old(itemsSinceWrite)
      ensures store.checkpoint == if ok && old(pending).Some? then old(pending) else old(store.checkpoint)
      ensures ok ==> pending == None
      ensures ok && old(pending).Some? ==> itemsSinceWrite == 0
      ensures !ok ==> pending == old(pending) && itemsSinceWrite == old(itemsSinceWrite)
      ensures store.cuts >= old(store.cuts) && (!ok ==> store.cuts > old(store.cuts))
      ensures old(store.runCopies) <= store.runCopies
    {
      if pending.None? { return true; }
      ok := store.Save(pending.value, src);
      if !ok { return; }
      pending, itemsSinceWrite := None, 0;
    }

    /** Record a candidate; write it when minItems were offered since the last write, or that was long ago (late). */
    method Offer(cp: Checkpoint, late: bool, ghost src: Source) returns (ok: bool)
      requires store.Valid(src) && src.Denotes(store.accepted, cp)
      requires minItems > 0 && itemsSinceWrite < minItems
      modifies this, store
      ensures store.Valid(src) && store.accepted == old(store.accepted)
      ensures ok ==> itemsSinceWrite < minItems
      ensures pending == None ==> ok && store.checkpoint == Some(cp) && itemsSinceWrite == 0
      ensures pending != None ==>
                pending == Some(cp) && store.checkpoint == old(store.checkpoint) &&
                itemsSinceWrite == old(itemsSinceWrite) + 1
      ensures old(itemsSinceWrite) + 1 < minItems && !late ==> ok && pending == Some(cp)
      ensures old(itemsSinceWrite) + 1 >= minItems || late ==> (ok <==> pending == None)
      ensures store.cuts >= old(store.cuts) && (!ok ==> store.cuts > old(store.cuts))
      ensures old(store.runCopies) <= store.runCopies
    {
      pending := Some(cp);
      itemsSinceWrite := itemsSinceWrite + 1;
      if itemsSinceWrite < minItems && !late { return true; }
      ok := Flush(src);
    }
  }

  // ----- one pass over one library -----

  /** acc' is acc plus items of one library at positions from..n. */
  ghost predicate Grown(acc: Accepted, acc': Accepted, id: string, from: nat, n: nat) {
    && acc <= acc' && from <= n
    && (forall i :: from <= i < n ==> (id, i) in acc')
    && (forall p :: p in acc' && p !in acc ==> p.0 == id && from <= p.1 < n)
  }

  lemma GrowOne(acc: Accepted, acc': Accepted, id: string, from: nat, n: nat)
    requires Grown(acc, acc', id, from, n)
    ensures Grown(acc, acc' + {(id, n)}, id, from, n + 1)
  {
  }

  /** What one turn came to. */
  datatype Progress = GoOn | LastPage | Leave(outcome: Outcome, flushed: bool)

  class Enumerator {
    const store: Store
    const source: Source
    const minItems: nat
    /** The page size asked for, and the limit the server says it used (zero or less when it says nothing). */
    const pageSize: nat
    const reportedLimit: int

    constructor (store: Store, source: Source, minItems: nat, pageSize: nat, reportedLimit: int)
      ensures this.store == store && this.source == source && this.minItems == minItems
      ensures this.pageSize == pageSize && this.reportedLimit == reportedLimit
    {
      this.store, this.source, this.minItems := store, source, minItems;
      this.pageSize, this.reportedLimit := pageSize, reportedLimit;
    }

    /** The limit the page loop works with is the size the server cuts pages by. */
    predicate Configured() {
      minItems > 0 && source.Valid() && source.size == if reportedLimit <= 0 then pageSize else reportedLimit
    }

    /** At most minItems accepted items lie beyond the stored checkpoint, and none after a flushed stop. */
    ghost predicate Bounded(lib: Library, n: nat, flushed: bool)
      reads store
    {
      DistinctIds(lib) ==>
        && store.StoredPosition(lib, source.size) <= n <= store.StoredPosition(lib, source.size) + minItems
        && (flushed ==> n == store.StoredPosition(lib, source.size))
    }

    /** Between two items: everything before n is accepted, and the candidate or the stored checkpoint stands at n. */
    ghost predicate InPass(cp: Checkpointer, j: nat, n: nat)
      reads store, cp
    {
      && cp.store == store && cp.minItems == minItems > 0 && cp.itemsSinceWrite < minItems
      && store.Valid(source) && j < |source.libs| && source.start <= j && n <= |source.libs[j].items|
      && source.CompleteBefore(store.accepted, j)
      && AcceptedUpTo(store.accepted, source.libs[j].id, n)
      && (cp.pending.Some? ==>
            cp.pending.value.library == source.libs[j].id && source.Denotes(store.accepted, cp.pending.value))
      && (DistinctIds(source.libs[j]) ==> Tracks(cp, source.libs[j], n))
    }

    ghost predicate Tracks(cp: Checkpointer, lib: Library, n: nat)
      reads store, cp
    {
      var stored := store.StoredPosition(lib, source.size);
      && n == (if cp.pending.Some? then ResumeAt(lib.items, source.size, cp.pending.value) else stored)
      && stored <= n <= stored + cp.itemsSinceWrite
    }

    /** Flush on the way out; the write may fail, and is then only logged. */
    method FlushOnReturn(cp: Checkpointer, ghost j: nat, ghost n: nat) returns (flushed: bool)
      requires InPass(cp, j, n)
      modifies cp, store
      ensures store.Valid(source) && store.accepted == old(store.accepted)
      ensures Bounded(source.libs[j], n, flushed) && store.cuts >= old(store.cuts)
      ensures old(store.runCopies) <= store.runCopies
    {
      flushed := cp.Flush(source);
    }

    /** Offer the candidate standing at n, the items before n being accepted. */
    method OfferAt(cp: Checkpointer, candidate: Checkpoint, j: nat, ghost before: nat, ghost n: nat) returns (ok: bool)
      requires InPass(cp, j, before) && before <= n <= before + 1 && n <= |source.libs[j].items|
      requires AcceptedUpTo(store.accepted, source.libs[j].id, n)
      requires candidate.library == source.libs[j].id
      requires ResumeAt(source.libs[j].items, source.size, candidate) <= n
      requires DistinctIds(source.libs[j]) ==> ResumeAt(source.libs[j].items, source.size, candidate) == n
      modifies cp, store
      ensures store.accepted == old(store.accepted) && store.Valid(source)
      ensures ok ==> InPass(cp, j, n)
      ensures !ok ==> Bounded(source.libs[j], n, false)
      ensures store.cuts >= old(store.cuts) && (!ok ==> store.cuts > old(store.cuts))
      ensures old(store.runCopies) <= store.runCopies
    {
      assert source.DenotesAt(store.accepted, candidate, j);
      var late: bool := *;
      ok := cp.Offer(candidate, late, source);
    }

    /** One item of a page: fetch its detail, hand it to the callback, offer a checkpoint. */
    method ProcessItem(cp: Checkpointer, j: nat, page: nat, idx: nat, ghost from: nat, ghost acc0: Accepted)
      returns (r: Progress, ghost n: nat)
      requires j < |source.libs|
      requires InPass(cp, j, PageStart(source.libs[j].items, source.size, page) + idx)
      requires idx < |Page(source.libs[j].items, source.size, page)|
      requires Grown(acc0, store.accepted, source.libs[j].id, from,
                     PageStart(source.libs[j].items, source.size, page) + idx)
      modifies cp, store
      ensures !r.LastPage?
      ensures r == GoOn ==>
                n == PageStart(source.libs[j].items, source.size, page) + idx + 1 && InPass(cp, j, n)
      ensures r.Leave? ==> r.outcome != Completed && store.Valid(source) && Bounded(source.libs[j], n, r.flushed)
      ensures Grown(acc0, store.accepted, source.libs[j].id, from, n)
      ensures store.cuts >= old(store.cuts) && (r.Leave? ==> store.cuts > old(store.cuts))
      ensures old(store.runCopies) <= store.runCopies
    {
      var lib := source.libs[j];
      var at := PageStart(lib.items, source.size, page) + idx;
      PageBounds(lib.items, source.size, page);
      n := at;
      var cut := store.Fails();
      if cut { return Leave(Crashed, false), n; }
      cut := store.Fails();
      if cut {
        var flushed := FlushOnReturn(cp, j, at);
        return Leave(Stopped, flushed), n;
      }
      r, n := TakeItem(cp, j, page, idx, from, acc0);
    }

    /** The callback has taken the item: offer a checkpoint that stands behind it. */
    method TakeItem(cp: Checkpointer, j: nat, page: nat, idx: nat, ghost from: nat, ghost acc0: Accepted)
      returns (r: Progress, ghost n: nat)
      requires j < |source.libs|
      requires InPass(cp, j, PageStart(source.libs[j].items, source.size, page) + idx)
      requires idx < |Page(source.libs[j].items, source.size, page)|
      requires Grown(acc0, store.accepted, source.libs[j].id, from,
                     PageStart(source.libs[j].items, source.size, page) + idx)
      modifies cp, store
      ensures !r.LastPage? && n == PageStart(source.libs[j].items, source.size, page) + idx + 1
      ensures r == GoOn ==> InPass(cp, j, n)
      ensures r.Leave? ==> r.outcome != Completed && store.Valid(source) && Bounded(source.libs[j], n, r.flushed)
      ensures Grown(acc0, store.accepted, source.libs[j].id, from, n)
      ensures store.cuts >= old(store.cuts) && (r.Leave? ==> store.cuts > old(store.cuts))
      ensures old(store.runCopies) <= store.runCopies
    {
      var lib := source.libs[j];
      var at := PageStart(lib.items, source.size, page) + idx;
      n := at + 1;
      PageBounds(lib.items, source.size, page);
      store.Accept(lib.id, at, source, j);
      GrowOne(acc0, old(store.accepted), lib.id, from, at);
      if cp.pending.Some? { source.DenotesMonotone(old(store.accepted), store.accepted, cp.pending.value); }
      var cut := store.Fails();
      if cut { return Leave(Crashed, false), n; }
      ItemCheckpoint(lib, source.size, page, idx);
      var ok := OfferAt(cp, Checkpoint(lib.id, page, Page(lib.items, source.size, page)[idx]), j, at, n);
      if !ok { return Leave(Stopped, false), n; }
      return GoOn, n;
    }

    /** The items of one page from offset on. */
    method ProcessPage(cp: Checkpointer, j: nat, page: nat, startIndex: nat, ghost from: nat, ghost acc0: Accepted)
      returns (r: Progress, ghost n: nat)
      requires j < |source.libs| && startIndex <= |Page(source.libs[j].items, source.size, page)|
      requires InPass(cp, j, PageStart(source.libs[j].items, source.size, page) + startIndex)
      requires Grown(acc0, store.accepted, source.libs[j].id, from,
                     PageStart(source.libs[j].items, source.size, page) + startIndex)
      modifies cp, store
      ensures !r.LastPage?
      ensures r == GoOn ==> n == PageStart(source.libs[j].items, source.size, page + 1) && InPass(cp, j, n)
      ensures r.Leave? ==> r.outcome != Completed && store.Valid(source) && Bounded(source.libs[j], n, r.flushed)
      ensures Grown(acc0, store.accepted, source.libs[j].id, from, n)
      ensures store.cuts >= old(store.cuts) && (r.Leave? ==> store.cuts > old(store.cuts))
      ensures old(store.runCopies) <= store.runCopies
    {
      ghost var items := source.libs[j].items;
      var idx := startIndex;
      n := PageStart(items, source.size, page) + idx;
      while idx < |Page(source.libs[j].items, source.size, page)|
        invariant startIndex <= idx <= |Page(items, source.size, page)|
        invariant n == PageStart(items, source.size, page) + idx && InPass(cp, j, n)
        invariant store.cuts >= old(store.cuts) && old(store.runCopies) <= store.runCopies
        invariant Grown(acc0, store.accepted, source.libs[j].id, from, n)
      {
        r, n := ProcessItem(cp, j, page, idx, from, acc0);
        if r != GoOn { return; }
        idx := idx + 1;
      }
      PageBounds(items, source.size, page);
      return GoOn, n;
    }

    /** The page boundary: offer the top of the next page. */
    method OfferNextPage(cp: Checkpointer, j: nat, page: nat) returns (ok: bool)
      requires j < |source.libs| && InPass(cp, j, PageStart(source.libs[j].items, source.size, page))
      modifies cp, store
      ensures store.accepted == old(store.accepted) && store.Valid(source)
      ensures ok ==> InPass(cp, j, PageStart(source.libs[j].items, source.size, page))
      ensures !ok ==> Bounded(source.libs[j], PageStart(source.libs[j].items, source.size, page), false)
      ensures store.cuts >= old(store.cuts) && (!ok ==> store.cuts > old(store.cuts))
      ensures old(store.runCopies) <= store.runCopies
    {
      ghost var n := PageStart(source.libs[j].items, source.size, page);
      ok := OfferAt(cp, Checkpoint(source.libs[j].id, page, ""), j, n, n);
    }

    /** One turn of the page loop; more pages follow only after GoOn. */
    method OneTurn(cp: Checkpointer, j: nat, page: nat, skipUntil: string, ghost from: nat, ghost acc0: Accepted)
      returns (r: Progress, ghost n: nat)
      requires Configured() && j < |source.libs|
      requires var items := source.libs[j].items;
               var at := PageStart(items, source.size, page) + SkipTo(Page(items, source.size, page), skipUntil);
               InPass(cp, j, at) && Grown(acc0, store.accepted, source.libs[j].id, from, at)
      modifies cp, store
      ensures r.GoOn? || r.LastPage? ==> InPass(cp, j, n)
      ensures r.GoOn? ==> n == PageStart(source.libs[j].items, source.size, page + 1)
      ensures r.GoOn? ==> PageStart(source.libs[j].items, source.size, page) < n
      ensures r.LastPage? ==> n == |source.libs[j].items|
      ensures r.Leave? ==> r.outcome != Completed && store.Valid(source) && Bounded(source.libs[j], n, r.flushed)
      ensures Grown(acc0, store.accepted, source.libs[j].id, from, n)
      ensures store.cuts >= old(store.cuts) && (r.Leave? ==> store.cuts > old(store.cuts))
      ensures old(store.runCopies) <= store.runCopies
    {
      var lib := source.libs[j];
      var results := Page(lib.items, source.size, page);
      var startIndex := SkipTo(results, skipUntil);
      PageBounds(lib.items, source.size, page);
      n := PageStart(lib.items, source.size, page) + startIndex;
      var cut := store.Fails();
      if cut { return Leave(Crashed, false), n; }
      cut := store.Fails();
      if cut {
        var flushed := FlushOnReturn(cp, j, n);
        return Leave(Stopped, flushed), n;
      }
      if |results| == 0 { return LastPage, n; }
      r, n := ProcessPage(cp, j, page, startIndex, from, acc0);
      if r.Leave? { return; }
      var ok := OfferNextPage(cp, j, page + 1);
      if !ok { return Leave(Stopped, false), n; }
      var limit := if reportedLimit <= 0 then pageSize else reportedLimit;
      if |results| < limit || (page + 1) * limit >= |lib.items| { return LastPage, n; }
      return GoOn, n;
    }

    /** After the last page: clear the checkpoint. */
    method EndPass(cp: Checkpointer, j: nat, ghost n: nat) returns (outcome: Outcome, flushed: bool)
      requires j < |source.libs| && InPass(cp, j, n)
      modifies cp, store
      ensures store.Valid(source) && store.accepted == old(store.accepted)
      ensures outcome == Completed ==> store.checkpoint == None
      ensures outcome != Completed ==> Bounded(source.libs[j], n, flushed)
      ensures store.cuts >= old(store.cuts) && (outcome != Completed ==> store.cuts > old(store.cuts))
      ensures old(store.runCopies) <= store.runCopies
    {
      var cut := store.Fails();
      if cut { return Crashed, false; }
      var cleared := store.Clear(source);
      if !cleared {
        flushed := FlushOnReturn(cp, j, n);
        return Stopped, flushed;
      }
      cp.pending := None;
      return Completed, true;
    }

    /**
     * Enumerate one library from its stored checkpoint. A completed pass has accepted every item; an interrupted one
     * has accepted positions from..n of which at most minItems will be replayed.
     */
    method Enumerate(j: nat) returns (outcome: Outcome, flushed: bool, ghost from: nat, ghost n: nat)
      requires Configured() && source.start <= j < |source.libs|
      requires store.Valid(source) && source.CompleteBefore(store.accepted, j)
      modifies store
      ensures store.Valid(source) && from == old(store.StoredPosition(source.libs[j], source.size))
      ensures Grown(old(store.accepted), store.accepted, source.libs[j].id, from, n)
      ensures outcome == Completed ==> Complete(store.accepted, source.libs[j]) && store.checkpoint == None
      ensures outcome != Completed ==> Bounded(source.libs[j], n, flushed)
      ensures store.cuts >= old(store.cuts) && (outcome != Completed ==> store.cuts > old(store.cuts))
      ensures old(store.runCopies) <= store.runCopies
    {
      var lib := source.libs[j];
      from := store.StoredPosition(lib, source.size);
      n := from;
      var cut := store.Fails();
      if cut { return Stopped, true, from, n; }
      var page: nat, skipUntil := 0, "";
      if store.checkpoint.Some? && store.checkpoint.value.library == lib.id {
        page, skipUntil := store.checkpoint.value.page, store.checkpoint.value.lastItem;
        source.DenotesOwn(store.accepted, store.checkpoint.value, j);
      }
      var cp := new Checkpointer(store, minItems);
      ghost var acc0 := store.accepted;
      var r := GoOn;
      while r.GoOn?
        invariant fresh(cp) && !r.Leave? && InPass(cp, j, n)
        invariant store.cuts >= old(store.cuts) && old(store.runCopies) <= store.runCopies
        invariant r.GoOn? ==>
          n == PageStart(lib.items, source.size, page) + SkipTo(Page(lib.items, source.size, page), skipUntil)
        invariant r.LastPage? ==> n == |lib.items|
        invariant Grown(acc0, store.accepted, lib.id, from, n)
        decreases r.GoOn?, |lib.items| - PageStart(lib.items, source.size, page)
      {
        r, n := OneTurn(cp, j, page, skipUntil, from, acc0);
        if r.Leave? { return r.outcome, r.flushed, from, n; }
        page, skipUntil := page + 1, "";
      }
      outcome, flushed := EndPass(cp, j, n);
    }
  }

  // ----- a run over the configured libraries -----

  function IdsOf(libs: seq<Library>): (ids: seq<string>)
    ensures |ids| == |libs| && forall i :: 0 <= i < |libs| ==> ids[i] == libs[i].id
  {
    seq(|libs|, i requires 0 <= i < |libs| => libs[i].id)
  }

  /** The index of current among the ids, and 0 when it is empty or not one of them. */
  function LibraryStartIndex(ids: seq<string>, current: string): (n: nat)
    ensures n < |ids| || n == 0
    ensures current in ids && current != "" ==> n < |ids| && ids[n] == current && current !in ids[..n]
    ensures current == "" || current !in ids ==> n == 0
  {
    if current == "" || current !in ids then 0
    else if ids[0] == current then 0
    else 1 + LibraryStartIndex(ids[1..], current)
  }

  function ResumeLibrary(checkpoint: Option<Checkpoint>, ids: seq<string>, fallback: string): string {
    if checkpoint.Some? && checkpoint.value.library != "" && checkpoint.value.library in ids
    then checkpoint.value.library else fallback
  }

  /** A library id list as the configuration normalizes it: trimmed, distinct, the primary library among them. */
  function DistinctTrimmed(values: seq<string>): seq<string> {
    if values == [] then []
    else
      var kept, value := DistinctTrimmed(values[..|values| - 1]), Trim(values[|values| - 1]);
      if value == "" || value in kept then kept else kept + [value]
  }

  function NormalizeLibraryIds(primary: string, values: seq<string>): seq<string> {
    var ids, p := DistinctTrimmed(values), Trim(primary);
    if p != "" && p !in ids then [p] + ids else ids
  }

  predicate IsIdList(ids: seq<string>) {
    "" !in ids && forall i, j :: 0 <= i < j < |ids| ==> ids[i] != ids[j]
  }

  lemma {:induction false} DistinctTrimmedIsIdList(values: seq<string>)
    ensures IsIdList(DistinctTrimmed(values))
  {
    if values != [] { DistinctTrimmedIsIdList(values[..|values| - 1]); }
  }

  /** The normalized list holds the primary library and every listed one, trimmed, and no other. */
  lemma NormalizedIdsHold(primary: string, values: seq<string>, id: string)
    ensures id in NormalizeLibraryIds(primary, values) <==>
            id != "" && (id == Trim(primary) || exists v :: v in values && Trim(v) == id)
  {
    DistinctTrimmedHolds(values, id);
  }

  lemma {:induction false} DistinctTrimmedHolds(values: seq<string>, id: string)
    ensures id in DistinctTrimmed(values) <==> id != "" && exists v :: v in values && Trim(v) == id
  {
    if values != [] {
      var front, last := values[..|values| - 1], values[|values| - 1];
      assert values == front + [last];
      DistinctTrimmedHolds(front, id);
      assert forall v :: v in values <==> v in front || v == last;
      if Trim(last) in DistinctTrimmed(front) { DistinctTrimmedHolds(front, Trim(last)); }
    }
  }

  /** The library a run without a checkpoint starts from: the configured one, or the first. */
  function ConfiguredStart(primary: string, values: seq<string>): nat {
    var ids := NormalizeLibraryIds(primary, values);
    LibraryStartIndex(ids, if Trim(primary) == "" && ids != [] then ids[0] else Trim(primary))
  }

  /**
   * A run without a checkpoint starts at the first library exactly when the primary library is not listed behind
   * another one. Otherwise it starts in the middle of its own list.
   */
  lemma StartsAtFirstLibrary(primary: string, values: seq<string>)
    ensures IsIdList(NormalizeLibraryIds(primary, values))
    ensures ConfiguredStart(primary, values) == 0 <==>
            Trim(primary) !in DistinctTrimmed(values) || DistinctTrimmed(values)[0] == Trim(primary)
  {
    DistinctTrimmedIsIdList(values);
    var ids := NormalizeLibraryIds(primary, values);
    if Trim(primary) !in DistinctTrimmed(values) {
      if Trim(primary) == "" && ids != [] {
        assert ids[0] in ids;
        assert LibraryStartIndex(ids, ids[0]) == 0;
      }
    } else if ids[0] != Trim(primary) {
      assert ids[LibraryStartIndex(ids, Trim(primary))] == Trim(primary);
    }
  }

  /** With libraries a and b configured and b primary, an import that finds no checkpoint never visits a. */
  lemma SkipsEarlierLibraries()
    ensures NormalizeLibraryIds("b", ["a", "b"]) == ["a", "b"] && ConfiguredStart("b", ["a", "b"]) == 1
  {
    assert ["a", "b"][..1] == ["a"] && ["a"][..0] == [];
    assert DistinctTrimmed([]) == [];
    TrimKeepsTrimmed("a");
    TrimKeepsTrimmed("b");
    assert DistinctTrimmed(["a"]) == ["a"];
    assert DistinctTrimmed(["a", "b"]) == ["a", "b"];
    assert NormalizeLibraryIds("b", ["a", "b"]) == ["a", "b"];
    assert LibraryStartIndex(["a", "b"], "b") == 1;
  }

  class Importer {
    const enumerator: Enumerator
    const store: Store
    const source: Source

    constructor (store: Store, source: Source, minItems: nat, pageSize: nat, reportedLimit: int)
      ensures this.store == store && this.source == source && enumerator.store == store && enumerator.source == source
      ensures enumerator.minItems == minItems
      ensures enumerator.pageSize == pageSize && enumerator.reportedLimit == reportedLimit
    {
      this.store, this.source := store, source;
      enumerator := new Enumerator(store, source, minItems, pageSize, reportedLimit);
    }

    predicate Ready() {
      && enumerator.store == store && enumerator.source == source && enumerator.Configured()
      && IsIdList(IdsOf(source.libs))
    }

    /** Create the run row, which copies a checkpoint of its own library, and enumerate. */
    method RunLibrary(j: nat) returns (outcome: Outcome)
      requires Ready() && source.start <= j < |source.libs|
      requires store.Valid(source) && source.CompleteBefore(store.accepted, j)
      modifies store
      ensures store.Valid(source) && old(store.accepted) <= store.accepted
      ensures outcome == Completed ==> Complete(store.accepted, source.libs[j])
      ensures OnlyFrom(source, old(store.accepted), store.accepted, j,
                       old(store.StoredPosition(source.libs[j], source.size)))
      ensures store.cuts >= old(store.cuts) && (outcome != Completed ==> store.cuts > old(store.cuts))
      ensures old(store.runCopies) <= store.runCopies
      ensures store.cuts == old(store.cuts) && old(store.checkpoint).Some? &&
              old(store.checkpoint).value.library == source.libs[j].id ==>
                old(store.checkpoint).value in store.runCopies
    {
      var cut := store.Fails();
      if cut { return Stopped; }
      if store.checkpoint.Some? && store.checkpoint.value.library == source.libs[j].id {
        store.runCopies := store.runCopies + {store.checkpoint.value};
      }
      var flushed;
      ghost var from, n;
      outcome, flushed, from, n := enumerator.Enumerate(j);
    }

    /**
     * One attempt: start at the library of the readable checkpoint, else at fallback, and go on to the last library.
     */
    method Run(fallback: string) returns (outcome: Outcome, ghost first: nat)
      requires Ready() && store.Valid(source)
      requires var k := LibraryStartIndex(IdsOf(source.libs), fallback);
               source.start <= k && source.CompleteBefore(store.accepted, k)
      modifies store
      ensures store.Valid(source) && old(store.accepted) <= store.accepted
      ensures outcome == Completed ==> source.CompleteBefore(store.accepted, |source.libs|)
      ensures store.cuts >= old(store.cuts) && (outcome != Completed ==> store.cuts > old(store.cuts))
      ensures store.cuts == old(store.cuts) ==>
                match old(store.checkpoint)
                case Some(cp) => first < |source.libs| && source.libs[first].id == cp.library
                case None => first == LibraryStartIndex(IdsOf(source.libs), fallback)
      ensures forall p :: p in store.accepted && p !in old(store.accepted) ==> OfLibraries(source, first, p)
    {
      var ids := IdsOf(source.libs);
      var unreadable := store.Fails();
      var idx := LibraryStartIndex(ids, ResumeLibrary(if unreadable then None else store.checkpoint, ids, fallback));
      first := idx;
      ResumesAtCompleted(source, store.accepted, if unreadable then None else store.checkpoint, fallback);
      while idx < |source.libs|
        invariant source.start <= idx <= |source.libs|
        invariant store.Valid(source) && old(store.accepted) <= store.accepted
        invariant source.CompleteBefore(store.accepted, idx)
        invariant first <= idx && store.cuts >= old(store.cuts) && (unreadable ==> store.cuts > old(store.cuts))
        invariant forall p :: p in store.accepted && p !in old(store.accepted) ==> OfLibraries(source, first, p)
      {
        ghost var before := store.accepted;
        outcome := RunLibrary(idx);
        if outcome != Completed { return; }
        forall k | source.start <= k <= idx ensures Complete(store.accepted, source.libs[k]) {
          if k < idx { assert Complete(before, source.libs[k]); }
        }
        idx := idx + 1;
      }
      outcome := Completed;
    }

    /**
     * Attempts over fixed listings, each cut anywhere by a crash, a cancel or a failing call, or resumed from any
     * run row's copy of a checkpoint; once one finishes, the accepted items are exactly those of the libraries from
     * the configured start on.
     */
    method History(attempts: nat, configured: string) returns (finished: bool)
      requires Ready() && store.accepted == {} && store.checkpoint == None && store.runCopies == {}
      requires source.start == LibraryStartIndex(IdsOf(source.libs), configured)
      modifies store
      ensures store.Valid(source)
      ensures finished ==> forall p :: p in store.accepted <==> OfLibraries(source, source.start, p)
      ensures attempts > 0 && store.cuts == old(store.cuts) ==> finished
    {
      var i := 0;
      finished := false;
      assert store.Valid(source);
      while i < attempts && !finished
        invariant store.Valid(source)
        invariant finished ==> source.CompleteBefore(store.accepted, |source.libs|)
        invariant store.cuts >= old(store.cuts) && (i > 0 && store.cuts == old(store.cuts) ==> finished)
      {
        var fallback := configured;
        var resume: bool := *;
        if resume && store.runCopies != {} {
          var cp :| cp in store.runCopies;
          store.checkpoint := Some(cp);
          CheckpointStart(source, store.accepted, cp);
          fallback := cp.library;
        }
        var outcome;
        ghost var first;
        outcome, first := Run(fallback);
        finished := outcome == Completed;
        i := i + 1;
      }
      if finished { CoveredExactly(source, store.accepted); }
    }
  }

  /** What was accepted since is of the jth library, from this position on. */
  ghost predicate OnlyFrom(source: Source, acc: Accepted, acc': Accepted, j: nat, from: nat)
    requires j < |source.libs|
  {
    forall p :: p in acc' && p !in acc ==> p.0 == source.libs[j].id && from <= p.1 < |source.libs[j].items|
  }

  /** A stored checkpoint names a library at or after the start, with everything before it complete. */
  lemma CheckpointStart(source: Source, acc: Accepted, cp: Checkpoint)
    requires source.Valid() && IsIdList(IdsOf(source.libs)) && source.Denotes(acc, cp)
    ensures var k := LibraryStartIndex(IdsOf(source.libs), cp.library);
            && source.start <= k < |source.libs| && source.CompleteBefore(acc, k)
            && cp.library in IdsOf(source.libs) && cp.library != ""
  {
    var ids := IdsOf(source.libs);
    var j: nat :| source.DenotesAt(acc, cp, j);
    assert ids[j] == cp.library && ids[j] in ids;
    var k := LibraryStartIndex(ids, cp.library);
    assert k == j by { assert ids[k] == ids[j]; }
  }

  /** So does a run that falls back to such a library. */
  lemma ResumesAtCompleted(source: Source, acc: Accepted, cp: Option<Checkpoint>, fallback: string)
    requires source.Valid() && IsIdList(IdsOf(source.libs)) && (cp.Some? ==> source.Denotes(acc, cp.value))
    requires var k := LibraryStartIndex(IdsOf(source.libs), fallback);
             source.start <= k && source.CompleteBefore(acc, k)
    ensures var k := LibraryStartIndex(IdsOf(source.libs), ResumeLibrary(cp, IdsOf(source.libs), fallback));
            && source.start <= k <= |source.libs| && source.CompleteBefore(acc, k)
            && match cp
               case Some(at) => k < |source.libs| && source.libs[k].id == at.library
               case None => k == LibraryStartIndex(IdsOf(source.libs), fallback)
  {
    if cp.Some? { CheckpointStart(source, acc, cp.value); }
  }

  /** The item position p belongs to a library from index start on. */
  ghost predicate OfLibraries(source: Source, start: nat, p: (string, nat)) {
    exists j :: start <= j < |source.libs| && source.libs[j].id == p.0 && p.1 < |source.libs[j].items|
  }

  lemma CoveredExactly(source: Source, acc: Accepted)
    requires source.Valid() && source.Within(acc) && source.CompleteBefore(acc, |source.libs|)
    ensures forall p :: p in acc <==> OfLibraries(source, source.start, p)
  {
    forall p: (string, nat) | OfLibraries(source, source.start, p) ensures p in acc {
      var j :| source.start <= j < |source.libs| && source.libs[j].id == p.0 && p.1 < |source.libs[j].items|;
      assert Complete(acc, source.libs[j]);
      assert (p.0, p.1) in acc;
    }
  }

  /** Hence every item of every configured library is covered exactly when no library before the start holds one. */
  lemma EveryLibraryCovered(source: Source, acc: Accepted)
    requires source.Valid() && forall p :: p in acc <==> OfLibraries(source, source.start, p)
    ensures (forall p :: OfLibraries(source, 0, p) ==> p in acc) <==>
            (forall j :: 0 <= j < source.start ==> source.libs[j].items == [])
  {
    if j :| 0 <= j < source.start && source.libs[j].items != [] {
      var p := (source.libs[j].id, 0);
      assert OfLibraries(source, 0, p);
      assert !OfLibraries(source, source.start, p);
    }
  }
}
