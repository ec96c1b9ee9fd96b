// Writing a merge while everybody else keeps writing: guarded writes with one retry, and what is recorded afterwards.

module GuardedMerge {
  import opened Common

  type Id = nat

  /** A stored row and the version its last write left. */
  datatype Version<T> = Version(row: T, version: nat)

  /** What one attempt would write, the id a relink replaces, and what to record once the row is written. */
  datatype Plan<T, R> = Plan(row: T, write: bool, previous: Option<string>, records: seq<R>)

  /**
   * What this import did to the tables; a write carries the row it replaced, what its plan had read elsewhere, and the
   * ids that were attached by then.
   */
  datatype Event<T, S, R> =
    | Write(id: Id, before: T, after: T, seen: S, at: int, attached: map<string, Id>)
    | Record(record: R)

  datatype Outcome = Written | NoWriteNeeded | KeptChanging | Deleted | Failed

  function AllRecords<T, S, R>(rs: seq<R>): (es: seq<Event<T, S, R>>)
    ensures |es| == |rs| && forall i :: 0 <= i < |rs| ==> es[i] == Record(rs[i])
  {
    if rs == [] then [] else AllRecords(rs[..|rs| - 1]) + [Record(rs[|rs| - 1])]
  }

  /** Rows are never reused, and a row that changed has a later version. */
  predicate Evolves<T(==)>(rows: map<Id, Version<T>>, next: Id, rows': map<Id, Version<T>>, next': Id) {
    && next' >= next
    && (forall id :: id in rows' && id in rows ==>
          rows'[id].version >= rows[id].version && (rows'[id].version == rows[id].version ==> rows'[id] == rows[id]))
    && (forall id :: id in rows' && id !in rows ==> id >= next)
  }

  /** The id finds the row, or it is blank. */
  predicate Finds(attached: map<string, Id>, id: Id, previous: string) {
    previous != "" ==> previous in attached && attached[previous] == id
  }

  class Importer<T(==,!new), S(0,!new), R> {
    const plan: (T, S) -> Plan<T, R>
    const stamp: (T, int) -> T

    var rows: map<Id, Version<T>>
    var next: Id
    /** Guarded writes tried, and everything this import did. */
    var tries: nat
    /** Ids that still find a row after a relink replaced its own. */
    var identifiers: map<string, Id>
    ghost var log: seq<Event<T, S, R>>
    /** How many calls have failed. */
    ghost var faults: nat

    constructor (plan: (T, S) -> Plan<T, R>, stamp: (T, int) -> T, rows: map<Id, Version<T>>, next: Id)
      requires forall id :: id in rows ==> id < next
      ensures Valid() && this.plan == plan && this.stamp == stamp && this.rows == rows && log == []
    {
      this.plan, this.stamp, this.rows, this.next := plan, stamp, rows, next;
      tries, identifiers, log, faults := 0, map[], [], 0;
    }

    /** Whether the next call fails. */
    method Fails() returns (fault: bool)
      modifies this`faults
      ensures faults == old(faults) + (if fault then 1 else 0)
    {
      fault := *;
      if fault { faults := faults + 1; }
    }

    ghost predicate Valid() reads this { forall id :: id in rows ==> id < next }

    /** The copy was read from the table, now or at an earlier version. */
    ghost predicate Snapshot(id: Id, copy: Version<T>)
      reads this
    {
      && id < next
      && (id in rows ==>
            rows[id].version >= copy.version && (rows[id].version == copy.version ==> rows[id] == copy))
    }

    // ----- everybody else -----

    /** Other writers change, add and delete rows as they like. */
    method Others()
      requires Valid()
      modifies this`rows, this`next
      ensures Valid() && Evolves(old(rows), old(next), rows, next)
    {
      var rows': map<Id, Version<T>>, next': Id := *, *;
      if Evolves(rows, next, rows', next') && forall id :: id in rows' ==> id < next' { rows, next := rows', next'; }
    }

    // ----- the store -----

    method Read(id: Id) returns (found: Option<Version<T>>)
      requires Valid()
      ensures found == if id in rows then Some(rows[id]) else None
      ensures found.Some? ==> Snapshot(id, found.value)
    {
      found := if id in rows then Some(rows[id]) else None;
    }

    /** Write the row only if its version is still the expected one. */
    method UpdateIfUnchanged(id: Id, row: T, expected: nat, ghost seen: S, ghost at: int) returns (written: bool)
      requires Valid()
      modifies this`rows, this`tries, this`log
      ensures Valid() && tries == old(tries) + 1
      ensures written == (id in old(rows) && old(rows)[id].version == expected)
      ensures rows == if written then old(rows)[id := Version(row, expected + 1)] else old(rows)
      ensures log == if written then old(log) + [Write(id, old(rows)[id].row, row, seen, at, identifiers)] else old(log)
    {
      tries := tries + 1;
      written := id in rows && rows[id].version == expected;
      if written {
        log := log + [Write(id, rows[id].row, row, seen, at, identifiers)];
        rows := rows[id := Version(row, expected + 1)];
      }
    }

    /** Attach the id a relink is about to replace; a failure is only logged, and an id of another row is one. */
    method PreserveIdentifier(id: Id, previous: Option<string>) returns (ghost failed: bool)
      modifies this`identifiers, this`faults
      ensures faults >= old(faults)
      ensures failed && faults == old(faults) ==>
                previous.Some? && previous.value in old(identifiers) && old(identifiers)[previous.value] != id
      ensures forall f :: f in old(identifiers) ==> f in identifiers && identifiers[f] == old(identifiers)[f]
      ensures forall f :: f in identifiers && f !in old(identifiers) ==> previous == Some(f) && identifiers[f] == id
      ensures !failed && previous.Some? ==> Finds(identifiers, id, previous.value)
    {
      failed := false;
      if previous.None? || previous.value == "" { return; }
      if previous.value in identifiers { return identifiers[previous.value] != id; }
      var fault := Fails();
      if fault { return true; }
      identifiers := identifiers[previous.value := id];
    }

    /** Record what belongs to a merge; each row may fail to be written. */
    method RecordAll(records: seq<R>) returns (ok: bool, ghost done: nat)
      requires Valid()
      modifies this`rows, this`next, this`log, this`faults
      ensures faults >= old(faults) && (!ok ==> faults > old(faults))
      ensures Valid() && done <= |records| && (ok ==> done == |records|)
      ensures log == old(log) + AllRecords(records[..done])
      ensures Evolves(old(rows), old(next), rows, next)
    {
      done := 0;
      for n := 0 to |records|
        invariant Valid() && done == n && log == old(log) + AllRecords(records[..n])
        invariant Evolves(old(rows), old(next), rows, next) && faults >= old(faults)
      {
        Others();
        var fault := Fails();
        if fault { return false, n; }
        assert records[..n + 1][..n] == records[..n];
        log := log + [Record(records[n])];
        done := n + 1;
      }
      ok := true;
    }

    // ----- the guarded merge -----

    /** The write an attempt lands: computed from the very row it replaces. */
    ghost predicate FreshWrite(e: Event<T, S, R>, id: Id) {
      e.Write? && e.id == id && plan(e.before, e.seen).write && e.after == stamp(plan(e.before, e.seen).row, e.at)
    }

    /** The records of the plan the write, or the decision not to write, came from. */
    ghost predicate RecordsOf(es: seq<Event<T, S, R>>, p: Plan<T, R>) {
      exists n: nat :: n <= |p.records| && es == AllRecords(p.records[..n])
    }

    /** Everything a merge did: nothing; one fresh write followed by its records; or, with no write needed, records. */
    ghost predicate SoundMerge(es: seq<Event<T, S, R>>, id: Id) {
      || es == []
      || (FreshWrite(es[0], id) && RecordsOf(es[1..], plan(es[0].before, es[0].seen)))
      || (exists row, seen :: !plan(row, seen).write && RecordsOf(es, plan(row, seen)))
    }

    lemma WriteThenRecords(e: Event<T, S, R>, id: Id, p: Plan<T, R>, n: nat)
      requires FreshWrite(e, id) && p == plan(e.before, e.seen) && n <= |p.records|
      ensures SoundMerge([e] + AllRecords(p.records[..n]), id)
    {
      assert ([e] + AllRecords(p.records[..n]))[1..] == AllRecords(p.records[..n]);
    }

    /** Ids stay attached as they were, and each new one is an id that a plan of this merge replaces, on its row. */
    twostate predicate AttachesOnlyReplaced(id: Id)
      reads this`identifiers
    {
      && (forall f :: f in old(identifiers) ==> f in identifiers && identifiers[f] == old(identifiers)[f])
      && forall f :: f in identifiers && f !in old(identifiers) ==> identifiers[f] == id && ReplacedByAPlan(f)
    }

    ghost predicate ReplacedByAPlan(f: string) { exists row, seen :: Replaces(row, seen, f) }

    ghost predicate Replaces(row: T, seen: S, f: string) {
      plan(row, seen).write && plan(row, seen).previous == Some(f)
    }

    lemma AnyPlanWill(row: T, seen: S, f: string)
      requires Replaces(row, seen, f)
      ensures ReplacedByAPlan(f)
    {
    }

    /** The id that the merge's write replaced found the row before it was written. */
    ghost predicate KeepsReplaced(mine: seq<Event<T, S, R>>, id: Id) {
      mine != [] && mine[0].Write? && plan(mine[0].before, mine[0].seen).previous.Some? ==>
        Finds(mine[0].attached, id, plan(mine[0].before, mine[0].seen).previous.value)
    }

    /** One attempt: plan from the copy, write guarded on its version; None asks for another attempt on a fresh read. */
    method Attempt(id: Id, first: Version<T>)
      returns (outcome: Option<Outcome>, copy: Version<T>, ghost mine: seq<Event<T, S, R>>, ghost unattached: bool)
      requires Valid() && Snapshot(id, first)
      modifies this`rows, this`next, this`tries, this`log, this`identifiers, this`faults
      ensures Valid() && tries <= old(tries) + 1 && log == old(log) + mine && SoundMerge(mine, id)
      ensures AttachesOnlyReplaced(id) && (!unattached ==> KeepsReplaced(mine, id))
      ensures Snapshot(id, copy) && (mine != [] && mine[0].Write? ==> copy.row == mine[0].after)
      ensures outcome.None? ==> mine == [] && tries == old(tries) + 1
      ensures outcome.Some? ==> outcome.value != KeptChanging
      ensures faults >= old(faults) && (outcome == Some(Failed) ==> faults > old(faults))
      ensures outcome == Some(Deleted) ==> mine == [] && id !in rows
      ensures outcome == Some(Written) ==>
                mine != [] && mine[0].Write? && |mine| == 1 + |plan(mine[0].before, mine[0].seen).records|
    {
      copy, mine, unattached := first, [], false;
      Others();
      var seen: S := *;
      var p := plan(copy.row, seen);
      var fault := Fails();
      if fault { return Some(Failed), copy, mine, unattached; }
      if !p.write {
        outcome, mine := RecordUnwritten(p, copy.row, seen, id);
        return;
      }
      unattached := PreserveIdentifier(id, p.previous);
      forall f | f in identifiers && f !in old(identifiers) ensures identifiers[f] == id && ReplacedByAPlan(f) {
        AnyPlanWill(first.row, seen, f);
      }
      outcome, copy, mine := Land(id, first, p, seen);
    }

    /** Write what was planned, if the row is still the copy the plan was made from. */
    method Land(id: Id, first: Version<T>, p: Plan<T, R>, ghost seen: S)
      returns (outcome: Option<Outcome>, copy: Version<T>, ghost mine: seq<Event<T, S, R>>)
      requires Valid() && Snapshot(id, first) && p == plan(first.row, seen) && p.write
      modifies this`rows, this`next, this`tries, this`log, this`faults
      ensures Valid() && tries <= old(tries) + 1 && log == old(log) + mine && SoundMerge(mine, id)
      ensures mine != [] ==> mine[0].Write? && mine[0].before == first.row && mine[0].seen == seen
      ensures mine != [] ==> mine[0].attached == identifiers
      ensures Snapshot(id, copy) && (mine != [] && mine[0].Write? ==> copy.row == mine[0].after)
      ensures outcome.None? ==> mine == [] && tries == old(tries) + 1
      ensures outcome.Some? ==> outcome.value != KeptChanging
      ensures faults >= old(faults) && (outcome == Some(Failed) ==> faults > old(faults))
      ensures outcome == Some(Deleted) ==> mine == [] && id !in rows
      ensures outcome == Some(Written) ==> |mine| == 1 + |p.records|
    {
      copy, mine := first, [];
      Others();
      var at: int := *;
      var fault := Fails();
      if fault { return Some(Failed), copy, mine; }
      var written := UpdateIfUnchanged(id, stamp(p.row, at), copy.version, seen, at);
      if written {
        copy := Version(stamp(p.row, at), copy.version + 1);
        outcome, mine := RecordWritten(Write(id, first.row, copy.row, seen, at, identifiers), p, id);
        return;
      }
      Others();
      fault := Fails();
      if fault { return Some(Failed), copy, mine; }
      var current := Read(id);
      if current.None? { return Some(Deleted), copy, mine; }
      outcome, copy := None, current.value;
    }

    method RecordUnwritten(p: Plan<T, R>, ghost row: T, ghost seen: S, ghost id: Id)
      returns (outcome: Option<Outcome>, ghost mine: seq<Event<T, S, R>>)
      requires Valid() && p == plan(row, seen) && !p.write
      modifies this`rows, this`next, this`log, this`faults
      ensures faults >= old(faults) && (outcome == Some(Failed) ==> faults > old(faults))
      ensures Valid() && log == old(log) + mine && SoundMerge(mine, id)
      ensures outcome == Some(NoWriteNeeded) || outcome == Some(Failed)
      ensures mine != [] ==> mine[0].Record?
      ensures Evolves(old(rows), old(next), rows, next)
    {
      var ok;
      ghost var done;
      ok, done := RecordAll(p.records);
      mine := AllRecords(p.records[..done]);
      outcome := Some(if ok then NoWriteNeeded else Failed);
    }

    method RecordWritten(ghost e: Event<T, S, R>, p: Plan<T, R>, ghost id: Id)
      returns (outcome: Option<Outcome>, ghost mine: seq<Event<T, S, R>>)
      requires Valid() && FreshWrite(e, id) && p == plan(e.before, e.seen)
      requires log != [] && log[|log| - 1] == e
      modifies this`rows, this`next, this`log, this`faults
      ensures faults >= old(faults) && (outcome == Some(Failed) ==> faults > old(faults))
      ensures Valid() && log == old(log)[..|old(log)| - 1] + mine && SoundMerge(mine, id)
      ensures outcome == Some(Written) || outcome == Some(Failed)
      ensures Evolves(old(rows), old(next), rows, next)
      ensures mine != [] && mine[0] == e && (outcome == Some(Written) ==> |mine| == 1 + |p.records|)
    {
      var ok;
      ghost var done;
      ok, done := RecordAll(p.records);
      mine := [e] + AllRecords(p.records[..done]);
      WriteThenRecords(e, id, p, done);
      outcome := Some(if ok then Written else Failed);
    }

    /**
     * Merge an upstream record into a row read earlier, while others write. The write is guarded on the version of the
     * copy the plan was made from; a lost guard is retried once on a fresh read, a second loss drops the merge.
     */
    method MergeUpstream(id: Id, first: Version<T>)
      returns (outcome: Outcome, copy: Version<T>, ghost mine: seq<Event<T, S, R>>, ghost unattached: bool)
      requires Valid() && Snapshot(id, first)
      modifies this`rows, this`next, this`tries, this`log, this`identifiers, this`faults
      ensures Valid() && tries <= old(tries) + 2
      ensures log == old(log) + mine && SoundMerge(mine, id)
      ensures AttachesOnlyReplaced(id) && (!unattached ==> KeepsReplaced(mine, id))
      ensures Snapshot(id, copy) && (mine != [] && mine[0].Write? ==> copy.row == mine[0].after)
      ensures outcome in {KeptChanging, Deleted} ==> mine == []
      ensures outcome == Deleted ==> id !in rows
      ensures outcome == KeptChanging ==> tries == old(tries) + 2
      ensures faults >= old(faults) && (outcome == Failed ==> faults > old(faults))
      ensures outcome == Written ==> mine != [] && mine[0].Write?
      ensures outcome == Written ==> |mine| == 1 + |plan(mine[0].before, mine[0].seen).records|
    {
      copy, mine, unattached := first, [], false;
      for attempt := 1 to 3
        invariant Valid() && Snapshot(id, copy) && tries == old(tries) + (attempt - 1)
        invariant log == old(log) && mine == [] && AttachesOnlyReplaced(id) && faults >= old(faults)
      {
        var outcome';
        outcome', copy, mine, unattached := Attempt(id, copy);
        if outcome'.Some? { return outcome'.value, copy, mine, unattached; }
      }
      outcome := KeptChanging;
    }

    // ----- replacing an author's identity -----

    /**
     * Point the row at another identity, re-reading it before every guarded write, three times at most. The row written
     * is the row current at the write with its identity replaced, and only a replaceable one.
     */
    method ReplaceIdentity(id: Id, canReplace: T -> bool, replaced: T -> T)
      returns (outcome: Outcome, copy: Option<Version<T>>, ghost mine: seq<Event<T, S, R>>)
      requires Valid()
      modifies this`rows, this`next, this`tries, this`log, this`faults
      ensures faults >= old(faults) && (outcome == Failed ==> faults > old(faults))
      ensures Valid() && tries <= old(tries) + 3 && log == old(log) + mine
      ensures outcome == Written ==> |mine| == 1 && mine[0].Write? && mine[0].id == id
      ensures outcome == Written ==> canReplace(mine[0].before) && mine[0].after == replaced(mine[0].before)
      ensures outcome != Written ==> mine == []
      ensures outcome == Written ==> copy.Some? && copy.value.row == mine[0].after && Snapshot(id, copy.value)
      ensures outcome == Deleted ==> id !in rows
      ensures outcome == KeptChanging ==> tries == old(tries) + 3
      ensures outcome == NoWriteNeeded ==> copy.Some? && !canReplace(copy.value.row)
    {
      copy, mine := None, [];
      for attempt := 0 to 3
        invariant faults >= old(faults) && Valid() && tries == old(tries) + attempt && log == old(log) && mine == []
      {
        Others();
        var fault := Fails();
        if fault { return Failed, copy, mine; }
        copy := Read(id);
        if copy.None? { return Deleted, copy, mine; }
        if !canReplace(copy.value.row) { return NoWriteNeeded, copy, mine; }
        var row := replaced(copy.value.row);
        Others();
        fault := Fails();
        if fault { return Failed, copy, mine; }
        ghost var seen: S := *;
        var written := UpdateIfUnchanged(id, row, copy.value.version, seen, 0);
        if written {
          mine := [Write(id, copy.value.row, row, seen, 0, identifiers)];
          copy := Some(Version(row, copy.value.version + 1));
          return Written, copy, mine;
        }
      }
      outcome := KeptChanging;
    }
  }
}
