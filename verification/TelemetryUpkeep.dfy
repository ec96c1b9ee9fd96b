// What the telemetry server's maintenance means for its numbers: the two backfills of new installs, the seeding of the
// ledger, the sweep, and imports that come after retention.

module TelemetryUpkeep {
  import opened Common
  import opened Telemetry
  import opened TelemetryServer

  // ----- new installs -----

  /** Backfilling raises each day to the installs first seen on it, lowers none, and leaves the other columns alone. */
  lemma BackfillRaisesEachDay(t: Tables, d: Day)
    ensures var t' := BackfillNewInstalls(t);
            && NewInstallsOf(t', d) == Max(NewInstallsOf(t, d), FirstSeenOn(t, d))
            && ActiveOn(t', d) == ActiveOn(t, d)
            && (d in t'.global <==> d in t.global || FirstSeenOn(t, d) > 0)
  {
    var seen := set id | id in t.installs && DayOf(t.installs[id].firstSeen) == d;
    forall id | id in seen ensures d in FirstSeenCounts(t) {}
    if d !in FirstSeenCounts(t) {
      assert seen == {};
    } else {
      var id :| id in t.installs && DayOf(t.installs[id].firstSeen) == d;
      assert id in seen;
    }
  }

  /** Every install is first seen on one day. */
  lemma FirstSeenCountsSum(t: Tables)
    ensures SumValues(FirstSeenCounts(t)) == |t.installs|
  {
    var days: map<string, Day> := map id | id in t.installs :: DayOf(t.installs[id].firstSeen);
    assert days.Keys == t.installs.Keys;
    assert |days.Keys| == |days| && |t.installs.Keys| == |t.installs|;
    VersionCountsSum(days);
    FirstSeenCountsAre(t, days);
  }

  lemma FirstSeenCountsAre(t: Tables, days: map<string, Day>)
    requires days == map id | id in t.installs :: DayOf(t.installs[id].firstSeen)
    ensures FirstSeenCounts(t) == VersionCounts(days)
  {
    forall d | d in days.Values ensures VersionCounts(days)[d] == FirstSeenOn(t, d) { FirstSeenIsCount(t, days, d); }
    forall d ensures d in days.Values <==> d in FirstSeenCounts(t) {
      if d in FirstSeenCounts(t) {
        var id :| id in t.installs && DayOf(t.installs[id].firstSeen) == d;
        assert days[id] == d;
      }
    }
  }

  lemma FirstSeenIsCount(t: Tables, days: map<string, Day>, d: Day)
    requires days == map id | id in t.installs :: DayOf(t.installs[id].firstSeen)
    ensures CountOf(days, d) == FirstSeenOn(t, d)
  {
    var counted := set id | id in days && days[id] == d;
    CountIs(days, d, counted);
    assert counted == (set id | id in t.installs && DayOf(t.installs[id].firstSeen) == d);
  }

  lemma CountIs<V>(rows: map<string, V>, v: V, ids: set<string>)
    requires forall id :: id in ids <==> id in rows && rows[id] == v
    ensures CountOf(rows, v) == |ids|
  {
    assert ids == (set id | id in rows && rows[id] == v);
  }

  /** After a backfill the all-time total covers every install there is. */
  lemma BackfillCoversEveryInstall(t: Tables)
    ensures Cumulative(BackfillNewInstalls(t)) >= |t.installs|
  {
    var t' := BackfillNewInstalls(t);
    FirstSeenCountsSum(t);
    SumMonotone(FirstSeenCounts(t), map d | d in t'.global :: t'.global[d].newInstalls);
  }

  /**
   * Reconciling a seed counts a day as raised when its value rises, and also when a day without a row is seeded
   * with 0: that day gets a row, and its value stays 0.
   */
  lemma RaisedDays(t: Tables, seed: SeedFile, d: Day)
    ensures var counts := SeededCounts(seed.days);
            d in RaisedAmong(t.global, counts) <==>
              || NewInstallsOf(ReconcileSeed(t, seed), d) > NewInstallsOf(t, d)
              || (d !in t.global && d in seed.days && seed.days[d] == 0)
  {
  }

  /** One absent day seeded with 0 is reported as raised. */
  lemma SeededZeroCountsAsRaised(t: Tables, d: Day)
    requires d !in t.global
    ensures var seed := SeedFile(map[d := 0], map[]);
            && RaisedAmong(t.global, SeededCounts(seed.days)) == {d}
            && NewInstallsOf(ReconcileSeed(t, seed), d) == NewInstallsOf(t, d) == 0
  {
  }

  // ----- the ledger -----

  predicate NoRows(t: Tables) { forall d :: d in t.ledger ==> t.ledger[d] == map[] }

  /**
   * Seeding an empty ledger gives every install one row, with its version, on the day it was last seen, and no other
   * row; a ledger that has a row is left alone.
   */
  lemma SeedingCoversEveryInstall(t: Tables, now: Instant, d: Day, id: string)
    ensures var rows := LedgerOf(SeedLedger(t, now), d);
            if NoRows(t) then
              && (id in rows <==> id in t.installs && DayOf(t.installs[id].lastSeen) == d)
              && (id in rows ==> rows[id] == t.installs[id].version)
            else rows == LedgerOf(t, d)
  {
  }

  /**
   * A sweep keeps every ledger row of the last 400 days and drops the older ones; it removes an install only if it has
   * been silent for 60 days, runs a dev build, or has a misshapen id; the aggregates stay.
   */
  lemma SweepKeepsWhatIsRecent(t: Tables, now: Instant, d: Day, id: string)
    ensures var t' := Apply(t, Sweep(now, true));
            && LedgerOf(t', d) == (if DayOf(now) - d <= LEDGER_RETENTION_DAYS then LedgerOf(t, d) else map[])
            && (id in t.installs ==>
                  (id !in t'.installs <==>
                     now - t.installs[id].lastSeen > RETENTION_DAYS * DAY || t.installs[id].version == "dev" ||
                     !HasIdShape(id)))
            && t'.global == t.global && t'.versions == t.versions
  {
    DayOfShift(now, LEDGER_RETENTION_DAYS);
  }

  // ----- an import after retention -----

  /** One install pings on day 0; 401 days later its row is swept, and an import names another install for that day. */
  function LateHistory(a: string, b: string, v: string): seq<Event> {
    [Ping(0, a, v), Sweep(401 * DAY, true), Load(401 * DAY, [CsvRow(Calendar(0), b, v)])]
  }

  predicate Plain(v: string) { |v| <= 64 && IsReleaseVersion(v) && NormalizeVersion(v) == v }

  lemma AfterThePing(a: string, v: string)
    requires IsUuid(a) && Plain(v)
    ensures Run([Ping(0, a, v)]).ledger == map[0 := map[a := v]] && Run([Ping(0, a, v)]).backfillDone == None
    ensures RecordedOn([Ping(0, a, v)], 0) == map[a := v]
  {
    OneMore([], Ping(0, a, v), 0);
    assert [] + [Ping(0, a, v)] == [Ping(0, a, v)];
  }

  lemma AfterTheSweep(a: string, v: string)
    requires IsUuid(a) && Plain(v)
    ensures var t := Run([Ping(0, a, v), Sweep(401 * DAY, true)]); LedgerOf(t, 0) == map[] && t.backfillDone == None
    ensures RecordedOn([Ping(0, a, v), Sweep(401 * DAY, true)], 0) == map[a := v]
  {
    AfterThePing(a, v);
    OneMore([Ping(0, a, v)], Sweep(401 * DAY, true), 0);
    assert [Ping(0, a, v)] + [Sweep(401 * DAY, true)] == [Ping(0, a, v), Sweep(401 * DAY, true)];
  }

  /** Two installs were recorded for day 0, and its active_day ends at 1. */
  lemma LateImportUndercounts(a: string, b: string, v: string)
    requires IsUuid(a) && IsUuid(b) && a != b && Plain(v)
    ensures ActiveOn(Run(LateHistory(a, b, v)), 0) == 1
    ensures RecordedOn(LateHistory(a, b, v), 0) == map[a := v, b := v]
    ensures LateImport(LateHistory(a, b, v)[2], 0) && Timely(LateHistory(a, b, v))
  {
    var two := [Ping(0, a, v), Sweep(401 * DAY, true)];
    AfterTheSweep(a, v);
    LateLoad(two, a, b, v);
    HistoryEndsWithLoad(a, b, v);
  }

  lemma HistoryEndsWithLoad(a: string, b: string, v: string)
    ensures LateHistory(a, b, v) ==
            [Ping(0, a, v), Sweep(401 * DAY, true)] + [Load(401 * DAY, [CsvRow(Calendar(0), b, v)])]
    ensures LateHistory(a, b, v)[2] == Load(401 * DAY, [CsvRow(Calendar(0), b, v)])
    ensures Timely(LateHistory(a, b, v))
  {
  }

  lemma LateLoad(earlier: seq<Event>, a: string, b: string, v: string)
    requires IsUuid(b) && a != b && Plain(v) && RecordedOn(earlier, 0) == map[a := v]
    requires LedgerOf(Run(earlier), 0) == map[] && Run(earlier).backfillDone == None
    ensures var trace := earlier + [Load(401 * DAY, [CsvRow(Calendar(0), b, v)])];
            ActiveOn(Run(trace), 0) == 1 && RecordedOn(trace, 0) == map[a := v, b := v]
    ensures LateImport(Load(401 * DAY, [CsvRow(Calendar(0), b, v)]), 0)
  {
    var recs := [CsvRow(Calendar(0), b, v)];
    ImportOfOne(map[], b, v);
    ImportOfOne(map[a := v], b, v);
    LoadLeaves(earlier, recs, map[b := v], map[a := v, b := v]);
  }

  lemma ImportOfOne(rows: map<string, string>, id: string, v: string)
    requires IsUuid(id) && id !in rows && Plain(v)
    ensures var recs := [CsvRow(Calendar(0), id, v)];
            InsertedRows(rows, recs, 0) == rows[id := v] && ImportedDays(recs) == {0}
  {
    var recs := [CsvRow(Calendar(0), id, v)];
    assert recs[..0] == [];
    assert InsertedRows(rows, [], 0) == rows && ImportedDays([]) == {};
  }

  /** The same, but the import names the install that was recorded, with another version. */
  function RenamedHistory(a: string, v: string, v2: string): seq<Event> {
    [Ping(0, a, v), Sweep(401 * DAY, true)] + [Load(401 * DAY, [CsvRow(Calendar(0), a, v2)])]
  }

  /** Then active_day is right, and the version split is not: the day's one install counts for the imported version. */
  lemma LateImportMovesTheSplit(a: string, v: string, v2: string)
    requires IsUuid(a) && Plain(v) && Plain(v2) && v != v2
    ensures var t, rows := Run(RenamedHistory(a, v, v2)), RecordedOn(RenamedHistory(a, v, v2), 0);
            && ActiveOn(t, 0) == |rows| == 1 && rows == map[a := v]
            && v2 in VersionsOf(t, 0) && v2 !in VersionCounts(rows)
  {
    AfterTheSweep(a, v);
    RenamingLoad([Ping(0, a, v), Sweep(401 * DAY, true)], a, v, v2);
  }

  lemma RenamingLoad(earlier: seq<Event>, a: string, v: string, v2: string)
    requires IsUuid(a) && Plain(v2) && v != v2 && RecordedOn(earlier, 0) == map[a := v]
    requires LedgerOf(Run(earlier), 0) == map[] && Run(earlier).backfillDone == None
    ensures var trace := earlier + [Load(401 * DAY, [CsvRow(Calendar(0), a, v2)])];
            && RecordedOn(trace, 0) == map[a := v] && ActiveOn(Run(trace), 0) == 1
            && v2 in VersionsOf(Run(trace), 0) && v2 !in VersionCounts(RecordedOn(trace, 0))
  {
    ImportOfOne(map[], a, v2);
    ImportOfPresent(map[a := v], a, v2);
    LoadLeaves(earlier, [CsvRow(Calendar(0), a, v2)], map[a := v2], map[a := v]);
    assert map[a := v2][a] == v2;
  }

  /** What a load leaves of day 0, given what it makes of the ledger's rows and of the recorded ones. */
  lemma LoadLeaves(earlier: seq<Event>, recs: seq<CsvRow>, left: map<string, string>, rows: map<string, string>)
    requires Run(earlier).backfillDone == None && 0 in ImportedDays(recs)
    requires InsertedRows(LedgerOf(Run(earlier), 0), recs, 0) == left
    requires InsertedRows(RecordedOn(earlier, 0), recs, 0) == rows
    ensures var trace := earlier + [Load(401 * DAY, recs)];
            && RecordedOn(trace, 0) == rows
            && ActiveOn(Run(trace), 0) == |left| && VersionsOf(Run(trace), 0) == VersionCounts(left)
  {
    ImportRecounts(Run(earlier), recs, 0);
    OneMore(earlier, Load(401 * DAY, recs), 0);
  }

  lemma ImportOfPresent(rows: map<string, string>, id: string, v: string)
    requires id in rows
    ensures InsertedRows(rows, [CsvRow(Calendar(0), id, v)], 0) == rows
  {
    assert [CsvRow(Calendar(0), id, v)][..0] == [];
    assert InsertedRows(rows, [], 0) == rows;
  }

  /** Two installs. */
  lemma TwoIdsExist() returns (a: string, b: string)
    ensures a == "00000000-0000-0000-0000-000000000001" && IsUuid(a)
    ensures b == "00000000-0000-0000-0000-000000000002" && IsUuid(b)
    ensures a != b
  {
    a, b := "00000000-0000-0000-0000-000000000001", "00000000-0000-0000-0000-000000000002";
    assert a[35] == '1' && b[35] == '2';
  }

  /** Two versions. */
  lemma TwoVersionsExist() returns (v: string, v2: string)
    ensures v == "1.0.0" && Plain(v) && v2 == "1.0.1" && Plain(v2) && v != v2
  {
    v, v2 := "1.0.0", "1.0.1";
    ThreeDigitsArePlain(v);
    ThreeDigitsArePlain(v2);
    assert v[4] == '0' && v2[4] == '1';
  }

  /** Both histories exist. */
  lemma LateImportsGoWrong() returns (a: string, b: string, v: string, v2: string)
    ensures ActiveOn(Run(LateHistory(a, b, v)), 0) == 1 && |RecordedOn(LateHistory(a, b, v), 0)| == 2
    ensures v2 in VersionsOf(Run(RenamedHistory(a, v, v2)), 0)
    ensures v2 !in VersionCounts(RecordedOn(RenamedHistory(a, v, v2), 0))
  {
    a, b := TwoIdsExist();
    v, v2 := TwoVersionsExist();
    LateImportUndercounts(a, b, v);
    LateImportMovesTheSplit(a, v, v2);
  }

  lemma ThreeDigitsArePlain(v: string)
    requires |v| == 5 && v[1] == '.' && v[3] == '.' && IsDigit(v[0]) && IsDigit(v[2]) && IsDigit(v[4])
    ensures Plain(v)
  {
    assert AllDigits(v[..1]) && AllDigits(v[2..3]) && AllDigits(v[4..]);
    assert IsThreeNumbers(v);
  }
}
