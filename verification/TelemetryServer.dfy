// The server that owns the tables: each handler updates them in place, and its contract equates the new tables
// with the matching operation of Telemetry on the old ones.

module TelemetryServer {
  import opened Common
  import opened Telemetry

  class Server {
    var installs: map<string, Install>
    var ledger: map<Day, map<string, string>>
    var global: map<Day, GlobalRow>
    var versions: map<Day, map<string, nat>>
    var epoch: Option<Day>
    var backfillDone: Option<nat>

    function State(): Tables
      reads this
    {
      Tables(installs, ledger, global, versions, epoch, backfillDone)
    }

    constructor ()
      ensures State() == EMPTY
    {
      installs, ledger, global, versions, epoch, backfillDone := map[], map[], map[], map[], None, None;
    }

    method HandlePing(now: Instant, id: string, version: string)
      modifies this
      ensures State() == RecordPing(old(State()), now, id, version)
    {
      if !IsUuid(id) || |version| > 64 { return; }
      var v := NormalizeVersion(version);
      if !IsReleaseVersion(v) { return; }
      if id in installs {
        installs := installs[id := installs[id].(version := v, lastSeen := now)];
      } else {
        installs := installs[id := Install(v, now, now)];
      }
      var day := DayOf(now);
      var rows := if day in ledger then ledger[day] else map[];
      ledger := ledger[day := rows[id := v]];
    }

    /** The second DELETE runs only when the first succeeded; ledgerFails says it then failed. */
    method SweepStaleAndDev(now: Instant, ledgerFails: bool)
      modifies this
      ensures State() == Apply(old(State()), Sweep(now, !ledgerFails))
    {
      installs := map id | id in installs && !SweptInstall(now, id, installs[id]) :: installs[id];
      if ledgerFails { return; }
      var cutoff := DayOf(now - LEDGER_RETENTION_DAYS * DAY);
      ledger := map d | d in ledger && d >= cutoff :: ledger[d];
    }

    method SeedActivityLedger(now: Instant)
      modifies this
      ensures State() == SeedLedger(old(State()), now)
    {
      if exists d :: d in ledger && ledger[d] != map[] { return; }
      var days := set id | id in installs :: DayOf(installs[id].lastSeen);
      ledger := map d | d in days ::
        map id | id in installs && DayOf(installs[id].lastSeen) == d :: installs[id].version;
      if epoch.None? { epoch := Some(DayOf(now)); }
    }

    method ReadVersionCounts(day: Day) returns (out: map<string, nat>)
      ensures out == VersionCounts(LedgerOf(State(), day))
    {
      var rows := LedgerOf(State(), day);
      var pending := rows.Values;
      out := map[];
      while pending != {}
        invariant pending <= rows.Values
        invariant out.Keys == rows.Values - pending
        invariant forall v :: v in out ==> out[v] == CountOf(rows, v)
        decreases |pending|
      {
        var v :| v in pending;
        out := out[v := CountOf(rows, v)];
        pending := pending - {v};
      }
    }

    method SnapshotDayRows(day: Day)
      modifies this
      ensures State() == SnapshotDay(old(State()), day)
    {
      var activeDay := |LedgerOf(State(), day)|;
      var newInstalls := FirstSeenOn(State(), day);
      var total := |installs|;
      var row := if day in global then GlobalRow(activeDay, Max(global[day].newInstalls, newInstalls), total)
                 else GlobalRow(activeDay, newInstalls, total);
      var counts := ReadVersionCounts(day);
      var inserted := InsertVersionRows(counts);
      global, versions := global[day := row], versions[day := inserted];
    }

    /** The INSERT of one row per version, after the day's earlier rows were deleted. */
    method InsertVersionRows(counts: map<string, nat>) returns (inserted: map<string, nat>)
      ensures inserted == counts
    {
      var pending := counts.Keys;
      inserted := map[];
      while pending != {}
        invariant pending <= counts.Keys && inserted.Keys == counts.Keys - pending
        invariant forall v :: v in inserted ==> inserted[v] == counts[v]
        decreases |pending|
      {
        var v :| v in pending;
        inserted := inserted[v := counts[v]];
        pending := pending - {v};
      }
    }

    /** One tick of the aggregate loop; ok[i] says whether the snapshot of i days ago committed. */
    method AggregateTick(now: Instant, ok: seq<bool>)
      requires |ok| == HEAL_DAYS + 1
      modifies this
      ensures State() == Tick(old(State()), now, ok, |ok|)
    {
      var i := 0;
      while i <= HEAL_DAYS
        invariant 0 <= i <= HEAL_DAYS + 1
        invariant State() == Tick(old(State()), now, ok, i)
      {
        if ok[i] { SnapshotDayRows(DayOf(now) - i); }
        i := i + 1;
      }
    }

    method BackfillInstalls()
      modifies this
      ensures State() == BackfillNewInstalls(old(State()))
    {
      global := RaiseNewInstalls(global, FirstSeenCounts(State()));
    }

    method ReconcileNewInstallsSeed(seed: SeedFile) returns (raised: nat)
      modifies this
      ensures State() == ReconcileSeed(old(State()), seed)
      ensures raised == |RaisedAmong(old(global), SeededCounts(seed.days))|
    {
      var tx;
      tx, raised := RaiseSeededDays(seed.days);
      global := tx;
    }

    /** The upserts, in one transaction over an unordered map of seeded days. */
    method RaiseSeededDays(days: map<Day, int>) returns (tx: map<Day, GlobalRow>, raised: nat)
      ensures tx == RaiseNewInstalls(global, SeededCounts(days))
      ensures raised == |RaisedAmong(global, SeededCounts(days))|
    {
      var pending := days.Keys;
      tx, raised := global, 0;
      ghost var done: map<Day, int> := map[];
      assert RaiseNewInstalls(global, SeededCounts(done)) == global;
      while pending != {}
        invariant Partway(days, done, pending)
        invariant tx == RaiseNewInstalls(global, SeededCounts(done))
        invariant raised == |RaisedAmong(global, SeededCounts(done))|
        decreases |pending|
      {
        EmptyOrInhabited(pending);
        var d :| d in pending;
        OneMoreDone(days, done, pending, d);
        SeededOneMore(done, d, days[d]);
        if days[d] >= 0 {
          RaiseOneMore(global, SeededCounts(done), d, days[d]);
          RaisedAmongOneMore(global, SeededCounts(done), d, days[d]);
          if d !in tx {
            tx, raised := tx[d := GlobalRow(0, days[d], 0)], raised + 1;
          } else if days[d] > tx[d].newInstalls {
            tx, raised := tx[d := tx[d].(newInstalls := days[d])], raised + 1;
          }
        }
        done := done[d := days[d]];
        pending := pending - {d};
      }
      AllDone(days, done);
    }

    /** The whole import is one transaction. */
    method LoadLedgerBackfill(recs: seq<CsvRow>) returns (inserted: nat)
      modifies this
      ensures State() == LoadBackfill(old(State()), recs)
      ensures inserted == if old(backfillDone) == Some(|recs|) then 0 else InsertedCount(old(ledger), recs)
    {
      if backfillDone == Some(|recs|) { return 0; }
      var tx, days, minDay;
      tx, days, minDay, inserted := ImportRows(recs);
      var g, vs := Reaggregate(DayRows(tx, days));
      if minDay.Some? && epoch.Some? && epoch.value > minDay.value {
        epoch := minDay;
      }
      ledger, global, versions, backfillDone := tx, g, vs, Some(|recs|);
    }

    method ImportRows(recs: seq<CsvRow>)
      returns (tx: map<Day, map<string, string>>, days: set<Day>, minDay: Option<Day>, inserted: nat)
      ensures tx == ImportLedger(ledger, recs) && days == ImportedDays(recs)
      ensures minDay == if |days| == 0 then None else Some(LeastOf(days))
      ensures inserted == InsertedCount(ledger, recs)
    {
      tx, days, minDay, inserted := ledger, {}, None, 0;
      var i := 0;
      while i < |recs|
        invariant 0 <= i <= |recs|
        invariant tx == ImportLedger(ledger, recs[..i]) && days == ImportedDays(recs[..i])
        invariant inserted == InsertedCount(ledger, recs[..i])
        invariant IsMinimum(minDay, days)
      {
        var r := recs[i];
        assert recs[..i + 1][..i] == recs[..i];
        if RowAccepted(r) {
          var d := r.day.day;
          var rows := if d in tx then tx[d] else map[];
          if r.id !in rows {
            rows := rows[r.id := NormalizeVersion(r.version)];
            inserted := inserted + 1;
          }
          tx := tx[d := rows];
          MinimumOneMore(minDay, days, d);
          if minDay.None? || d < minDay.value { minDay := Some(d); }
          days := days + {d};
        }
        i := i + 1;
      }
      assert recs[..|recs|] == recs;
      MinimumIsLeast(minDay, days);
    }

    /** Re-derive active_day and the version split of each imported day. */
    method Reaggregate(rows: map<Day, map<string, string>>)
      returns (g: map<Day, GlobalRow>, vs: map<Day, map<string, nat>>)
      ensures g == Recounted(global, RowCounts(rows))
      ensures vs == versions + Splits(rows)
    {
      var pending := rows.Keys;
      ghost var done: map<Day, map<string, string>> := map[];
      g, vs := global, versions;
      assert g == Recounted(global, RowCounts(done));
      while pending != {}
        invariant Partway(rows, done, pending)
        invariant g == Recounted(global, RowCounts(done))
        invariant vs == versions + Splits(done)
        decreases |pending|
      {
        EmptyOrInhabited(pending);
        var d :| d in pending;
        OneMoreDone(rows, done, pending, d);
        RecountedOneMore(global, RowCounts(done), d, |rows[d]|);
        SplitsOneMore(done, d, rows[d]);
        UnionOneMore(versions, Splits(done), d, VersionCounts(rows[d]));
        RowCountsReplaced(done, d, rows[d]);
        g := g[d := RecountedRow(g, d, |rows[d]|)];
        vs := vs[d := VersionCounts(rows[d])];
        done := done[d := rows[d]];
        pending := pending - {d};
      }
      AllDone(rows, done);
    }
  }

  lemma RecountedOneMore(global: map<Day, GlobalRow>, done: map<Day, nat>, d: Day, n: nat)
    requires d !in done
    ensures Recounted(global, done[d := n]) == Recounted(global, done)[d := RecountedRow(Recounted(global, done), d, n)]
  {
  }

  lemma SplitsOneMore(done: map<Day, map<string, string>>, d: Day, rows: map<string, string>)
    ensures Splits(done[d := rows]) == Splits(done)[d := VersionCounts(rows)]
  {
  }

  lemma UnionOneMore<K, V>(a: map<K, V>, b: map<K, V>, k: K, v: V)
    ensures a + b[k := v] == (a + b)[k := v]
  {
  }

  function RaisedAmong(global: map<Day, GlobalRow>, counts: map<Day, nat>): set<Day> {
    set d | d in counts && (d in global ==> counts[d] > global[d].newInstalls)
  }

  lemma SeededOneMore(done: map<Day, int>, d: Day, n: int)
    requires d !in done
    ensures SeededCounts(done[d := n]) == if n >= 0 then SeededCounts(done)[d := n] else SeededCounts(done)
  {
  }

  /** What the upsert of one seeded day makes of the table. */
  lemma RaiseOneMore(global: map<Day, GlobalRow>, done: map<Day, nat>, d: Day, count: nat)
    requires d !in done
    ensures var tx := RaiseNewInstalls(global, done);
            RaiseNewInstalls(global, done[d := count]) ==
            if d !in tx then tx[d := GlobalRow(0, count, 0)]
            else if count > tx[d].newInstalls then tx[d := tx[d].(newInstalls := count)]
            else tx
  {
    assert d in RaiseNewInstalls(global, done) <==> d in global;
  }

  lemma RaisedAmongOneMore(global: map<Day, GlobalRow>, done: map<Day, nat>, d: Day, count: nat)
    requires d !in done
    ensures |RaisedAmong(global, done[d := count])| ==
            |RaisedAmong(global, done)| + (if d in global && count <= global[d].newInstalls then 0 else 1)
  {
    var before, after := RaisedAmong(global, done), RaisedAmong(global, done[d := count]);
    assert d !in before;
    if d in global && count <= global[d].newInstalls {
      assert after == before;
    } else {
      assert after == before + {d};
    }
  }

  ghost predicate IsMinimum(m: Option<Day>, days: set<Day>) {
    if m.None? then days == {} else IsLeast(m.value, days)
  }

  lemma MinimumOneMore(m: Option<Day>, days: set<Day>, d: Day)
    requires IsMinimum(m, days)
    ensures IsMinimum(if m.None? || d < m.value then Some(d) else m, days + {d})
  {
  }

  lemma MinimumIsLeast(m: Option<Day>, days: set<Day>)
    requires IsMinimum(m, days)
    ensures m == if |days| == 0 then None else Some(LeastOf(days))
  {
  }
}
