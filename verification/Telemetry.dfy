// The telemetry server's tables and what each operation does to them, as pure
// state: installs, the per-day activity ledger, and the perpetual aggregates.
// TelemetryServer.dfy holds the server that updates them in place.

module Telemetry {
  import opened Common

  const DAY: int := 86400
  const RETENTION_DAYS: int := 60
  const LEDGER_RETENTION_DAYS: int := 400
  const HEAL_DAYS: int := 7

  /** An instant in seconds, and the UTC calendar day it falls on. */
  type Instant = int
  type Day = int

  function DayOf(t: Instant): Day { t / DAY }

  datatype Install = Install(version: string, firstSeen: Instant, lastSeen: Instant)

  datatype GlobalRow = GlobalRow(activeDay: nat, newInstalls: nat, total: nat)

  /** daily_activity and daily_version are keyed by day first; an absent day has no rows. */
  datatype Tables = Tables(
    installs: map<string, Install>,
    ledger: map<Day, map<string, string>>,
    global: map<Day, GlobalRow>,
    versions: map<Day, map<string, nat>>,
    epoch: Option<Day>,
    backfillDone: Option<nat>)

  const EMPTY: Tables := Tables(map[], map[], map[], map[], None, None)

  function RowsOn(ledger: map<Day, map<string, string>>, d: Day): map<string, string> {
    if d in ledger then ledger[d] else map[]
  }

  function LedgerOf(t: Tables, d: Day): map<string, string> { RowsOn(t.ledger, d) }

  function VersionsOf(t: Tables, d: Day): map<string, nat> {
    if d in t.versions then t.versions[d] else map[]
  }

  function NewInstallsOf(t: Tables, d: Day): nat {
    if d in t.global then t.global[d].newInstalls else 0
  }

  // ----- what a ping must look like -----

  predicate IsDigit(c: char) { '0' <= c <= '9' }

  predicate IsHexLower(c: char) { IsDigit(c) || 'a' <= c <= 'f' }

  predicate IsHyphenPosition(i: int) { i == 8 || i == 13 || i == 18 || i == 23 }

  predicate IsUuid(id: string) {
    && |id| == 36
    && forall i :: 0 <= i < |id| ==> if IsHyphenPosition(i) then id[i] == '-' else IsHexLower(id[i])
  }

  /** The shape the sweep keeps: SQLite GLOB, so any character between the hyphens. */
  predicate HasIdShape(id: string) {
    && |id| == 36
    && forall i :: 0 <= i < |id| && IsHyphenPosition(i) ==> id[i] == '-'
  }

  function NormalizeVersion(v: string): string {
    if |v| >= 2 && v[0] == 'v' && IsDigit(v[1]) then v[1..] else v
  }

  /** A run of one or more digits. */
  predicate AllDigits(s: string) { |s| > 0 && forall i :: 0 <= i < |s| ==> IsDigit(s[i]) }

  predicate IsThreeNumbers(s: string) {
    exists i, j :: 0 <= i < j < |s| && s[i] == '.' && s[j] == '.'
      && AllDigits(s[..i]) && AllDigits(s[i + 1..j]) && AllDigits(s[j + 1..])
  }

  predicate IsReleaseVersion(v: string) {
    IsThreeNumbers(if |v| > 0 && v[0] == 'v' then v[1..] else v)
  }

  predicate PingAccepted(id: string, version: string) {
    IsUuid(id) && |version| <= 64 && IsReleaseVersion(NormalizeVersion(version))
  }

  // ----- the operations -----

  /** One accepted ping: the install is upserted and attributed to the day of the ping. */
  function RecordPing(t: Tables, now: Instant, id: string, version: string): Tables {
    if !PingAccepted(id, version) then t
    else
      var v := NormalizeVersion(version);
      var first := if id in t.installs then t.installs[id].firstSeen else now;
      var d := DayOf(now);
      t.(installs := t.installs[id := Install(v, first, now)],
         ledger := t.ledger[d := LedgerOf(t, d)[id := v]])
  }

  predicate SweptInstall(now: Instant, id: string, i: Install) {
    i.lastSeen < now - RETENTION_DAYS * DAY || i.version == "dev" || !HasIdShape(id)
  }

  function SweepInstalls(t: Tables, now: Instant): Tables {
    t.(installs := map id | id in t.installs && !SweptInstall(now, id, t.installs[id]) :: t.installs[id])
  }

  function SweepLedger(t: Tables, now: Instant): Tables {
    t.(ledger := map d | d in t.ledger && d >= DayOf(now - LEDGER_RETENTION_DAYS * DAY) :: t.ledger[d])
  }

  function SeedLedger(t: Tables, now: Instant): Tables {
    if exists d :: d in t.ledger && t.ledger[d] != map[] then t
    else
      var days := set id | id in t.installs :: DayOf(t.installs[id].lastSeen);
      t.(ledger := map d | d in days ::
           map id | id in t.installs && DayOf(t.installs[id].lastSeen) == d :: t.installs[id].version,
         epoch := if t.epoch.None? then Some(DayOf(now)) else t.epoch)
  }

  /** How many rows of one day carry version v. */
  function CountOf<V(==)>(rows: map<string, V>, v: V): nat {
    |set id | id in rows && rows[id] == v|
  }

  /** SELECT version, COUNT(*) ... GROUP BY version. */
  function VersionCounts<V(==)>(rows: map<string, V>): map<V, nat> {
    map v | v in rows.Values :: CountOf(rows, v)
  }

  function FirstSeenOn(t: Tables, d: Day): nat {
    |set id | id in t.installs && DayOf(t.installs[id].firstSeen) == d|
  }

  function SnapshotDay(t: Tables, d: Day): Tables {
    var rows := LedgerOf(t, d);
    t.(global := t.global[d := GlobalRow(|rows|, Max(NewInstallsOf(t, d), FirstSeenOn(t, d)), |t.installs|)],
       versions := t.versions[d := VersionCounts(rows)])
  }

  function RaisedRow(global: map<Day, GlobalRow>, d: Day, count: nat): GlobalRow {
    if d in global then global[d].(newInstalls := Max(global[d].newInstalls, count)) else GlobalRow(0, count, 0)
  }

  /** Raise new_installs of each counted day to its count, inserting the days that have no row; never lower one. */
  function RaiseNewInstalls(global: map<Day, GlobalRow>, counts: map<Day, nat>): map<Day, GlobalRow> {
    map d | d in global.Keys + counts.Keys :: if d in counts then RaisedRow(global, d, counts[d]) else global[d]
  }

  function FirstSeenCounts(t: Tables): map<Day, nat> {
    var days := set id | id in t.installs :: DayOf(t.installs[id].firstSeen);
    map d | d in days :: FirstSeenOn(t, d)
  }

  function BackfillNewInstalls(t: Tables): Tables {
    t.(global := RaiseNewInstalls(t.global, FirstSeenCounts(t)))
  }

  /** A seed file: counts under calendar day keys, and the entries whose key is no day, which are skipped. */
  datatype SeedFile = SeedFile(days: map<Day, int>, malformed: map<string, int>)

  /** Negative counts are skipped too. */
  function SeededCounts(days: map<Day, int>): map<Day, nat> {
    map d | d in days && days[d] >= 0 :: days[d]
  }

  function ReconcileSeed(t: Tables, seed: SeedFile): Tables {
    t.(global := RaiseNewInstalls(t.global, SeededCounts(seed.days)))
  }

  /** The day column of an imported row: a calendar day, or text the day pattern refuses. */
  datatype DayKey = Calendar(day: Day) | Malformed(text: string)

  datatype CsvRow = CsvRow(day: DayKey, id: string, version: string) | WrongWidth

  predicate RowAccepted(r: CsvRow) {
    r.CsvRow? && r.day.Calendar? && IsUuid(r.id) && IsReleaseVersion(r.version)
  }

  /** INSERT OR IGNORE of one row. */
  function InsertRow(rows: map<string, string>, r: CsvRow): map<string, string>
    requires RowAccepted(r)
  {
    if r.id in rows then rows else rows[r.id := NormalizeVersion(r.version)]
  }

  /** What an import makes of the rows of one day, in file order. */
  function InsertedRows(rows: map<string, string>, recs: seq<CsvRow>, d: Day): map<string, string> {
    if |recs| == 0 then rows
    else
      var r := recs[|recs| - 1];
      var before := InsertedRows(rows, recs[..|recs| - 1], d);
      if RowAccepted(r) && r.day.day == d then InsertRow(before, r) else before
  }

  function ImportLedger(ledger: map<Day, map<string, string>>, recs: seq<CsvRow>): map<Day, map<string, string>> {
    if |recs| == 0 then ledger
    else
      var r := recs[|recs| - 1];
      var before := ImportLedger(ledger, recs[..|recs| - 1]);
      if RowAccepted(r) then before[r.day.day := InsertRow(RowsOn(before, r.day.day), r)] else before
  }

  function ImportedDays(recs: seq<CsvRow>): set<Day> {
    if |recs| == 0 then {}
    else
      var r := recs[|recs| - 1];
      ImportedDays(recs[..|recs| - 1]) + (if RowAccepted(r) then {r.day.day} else {})
  }

  ghost function LoweredEpoch(epoch: Option<Day>, days: set<Day>): Option<Day> {
    if epoch.None? || |days| == 0 then epoch
    else if epoch.value > LeastOf(days) then Some(LeastOf(days))
    else epoch
  }

  function RecountedRow(global: map<Day, GlobalRow>, d: Day, activeDay: nat): GlobalRow {
    if d in global then global[d].(activeDay := activeDay) else GlobalRow(activeDay, 0, 0)
  }

  function Recounted(global: map<Day, GlobalRow>, counts: map<Day, nat>): map<Day, GlobalRow> {
    map d | d in global.Keys + counts.Keys :: if d in counts then RecountedRow(global, d, counts[d]) else global[d]
  }

  /** The rows of each imported day. */
  function DayRows(ledger: map<Day, map<string, string>>, days: set<Day>): map<Day, map<string, string>> {
    map d | d in days :: RowsOn(ledger, d)
  }

  function RowCounts(rows: map<Day, map<string, string>>): map<Day, nat> { map d | d in rows :: |rows[d]| }

  function Splits(rows: map<Day, map<string, string>>): map<Day, map<string, nat>> {
    map d | d in rows :: VersionCounts(rows[d])
  }

  /** Replace active_day and the version split of the given days; new_installs and total stay. */
  function Rederive(t: Tables, rows: map<Day, map<string, string>>): Tables {
    t.(global := Recounted(t.global, RowCounts(rows)), versions := t.versions + Splits(rows))
  }

  ghost function LoadBackfill(t: Tables, recs: seq<CsvRow>): Tables {
    if t.backfillDone == Some(|recs|) then t
    else
      var days, ledger := ImportedDays(recs), ImportLedger(t.ledger, recs);
      Rederive(t, DayRows(ledger, days))
        .(ledger := ledger, epoch := LoweredEpoch(t.epoch, days), backfillDone := Some(|recs|))
  }

  // ----- histories -----

  /** One committed operation and the time it used. A failed one changes nothing and is no event. */
  datatype Event =
    | Ping(now: Instant, id: string, version: string)
    | Sweep(now: Instant, ledgerToo: bool)
    | Seed(now: Instant)
    | Snapshot(now: Instant, daysAgo: nat)
    | Backfill(now: Instant)
    | Reconcile(now: Instant, seed: SeedFile)
    | Load(now: Instant, recs: seq<CsvRow>)

  ghost function Apply(t: Tables, e: Event): Tables {
    match e
    case Ping(now, id, version) => RecordPing(t, now, id, version)
    case Sweep(now, ledgerToo) =>
      if ledgerToo then SweepLedger(SweepInstalls(t, now), now) else SweepInstalls(t, now)
    case Seed(now) => SeedLedger(t, now)
    case Snapshot(now, daysAgo) => SnapshotDay(t, DayOf(now) - daysAgo)
    case Backfill(_) => BackfillNewInstalls(t)
    case Reconcile(_, seed) => ReconcileSeed(t, seed)
    case Load(_, recs) => LoadBackfill(t, recs)
  }

  ghost function Run(trace: seq<Event>): Tables {
    if trace == [] then EMPTY else Apply(Run(trace[..|trace| - 1]), trace[|trace| - 1])
  }

  // ----- each day's version counts sum to its active_day -----

  ghost predicate DayBalanced(t: Tables, d: Day) {
    SumValues(VersionsOf(t, d)) == ActiveOn(t, d)
  }

  ghost predicate Balanced(t: Tables) { forall d :: DayBalanced(t, d) }

  lemma {:induction false} VersionCountsSum<V>(rows: map<string, V>)
    ensures SumValues(VersionCounts(rows)) == |rows|
    decreases |rows|
  {
    if |rows| == 0 {
      assert rows.Values == {};
      assert VersionCounts(rows) == map[];
    } else {
      var id := SomeKey(rows);
      var rest := rows - {id};
      SmallerWithout(rows, id);
      VersionCountsSum(rest);
      var v := rows[id];
      CountsAfterRemoval(rows, id);
      SumUpdate(VersionCounts(rest), v, CountOf(rows, v));
    }
  }

  lemma CountsAfterRemoval<V>(rows: map<string, V>, id: string)
    requires id in rows
    ensures var v := rows[id];
            var rest := VersionCounts(rows - {id});
            && VersionCounts(rows) == rest[v := CountOf(rows, v)]
            && CountOf(rows, v) == (if v in rest then rest[v] else 0) + 1
  {
    var rest := rows - {id};
    var v := rows[id];
    forall w | w in rows.Values && w != v ensures w in rest.Values && CountOf(rows, w) == CountOf(rest, w) {
      var k :| k in rows && rows[k] == w;
      assert k in rest && rest[k] == w;
      assert (set i | i in rows && rows[i] == w) == (set i | i in rest && rest[i] == w);
    }
    assert (set i | i in rows && rows[i] == v) == (set i | i in rest && rest[i] == v) + {id};
    if v !in rest.Values {
      assert (set i | i in rest && rest[i] == v) == {};
    }
    assert VersionCounts(rows).Keys == VersionCounts(rest)[v := CountOf(rows, v)].Keys by {
      forall w | w in rest.Values ensures w in rows.Values {
        var k :| k in rest && rest[k] == w;
        assert rows[k] == w;
      }
    }
  }

  function ActiveOn(t: Tables, d: Day): nat {
    if d in t.global then t.global[d].activeDay else 0
  }

  lemma SnapshotKeepsBalance(t: Tables, day: Day, d: Day)
    requires DayBalanced(t, d)
    ensures DayBalanced(SnapshotDay(t, day), d)
  {
    VersionCountsSum(LedgerOf(t, day));
  }

  lemma RederiveKeepsBalance(t: Tables, rows: map<Day, map<string, string>>, d: Day)
    requires DayBalanced(t, d)
    ensures DayBalanced(Rederive(t, rows), d)
  {
    RederiveDayByDay(t, rows, d);
    if d in rows { VersionCountsSum(rows[d]); }
  }

  lemma LoadKeepsBalance(t: Tables, recs: seq<CsvRow>, d: Day)
    requires DayBalanced(t, d)
    ensures DayBalanced(LoadBackfill(t, recs), d)
  {
    RederiveKeepsBalance(t, DayRows(ImportLedger(t.ledger, recs), ImportedDays(recs)), d);
  }

  /** Everything but snapshots and ledger imports leaves activity counts and version splits alone. */
  lemma OthersKeepActivity(t: Tables, e: Event, d: Day)
    requires !e.Snapshot? && !e.Load?
    ensures Apply(t, e).versions == t.versions && ActiveOn(Apply(t, e), d) == ActiveOn(t, d)
  {
  }

  lemma ApplyKeepsDayBalance(t: Tables, e: Event, d: Day)
    requires DayBalanced(t, d)
    ensures DayBalanced(Apply(t, e), d)
  {
    if e.Snapshot? {
      SnapshotEventKeepsBalance(t, e, d);
    } else if e.Load? {
      LoadEventKeepsBalance(t, e, d);
    } else {
      OthersKeepBalance(t, e, d);
    }
  }

  lemma SnapshotEventKeepsBalance(t: Tables, e: Event, d: Day)
    requires DayBalanced(t, d) && e.Snapshot?
    ensures DayBalanced(Apply(t, e), d)
  {
    assert Apply(t, e) == SnapshotDay(t, DayOf(e.now) - e.daysAgo);
    SnapshotKeepsBalance(t, DayOf(e.now) - e.daysAgo, d);
  }

  lemma LoadEventKeepsBalance(t: Tables, e: Event, d: Day)
    requires DayBalanced(t, d) && e.Load?
    ensures DayBalanced(Apply(t, e), d)
  {
    LoadKeepsBalance(t, e.recs, d);
  }

  lemma OthersKeepBalance(t: Tables, e: Event, d: Day)
    requires DayBalanced(t, d) && !e.Snapshot? && !e.Load?
    ensures DayBalanced(Apply(t, e), d)
  {
    OthersKeepActivity(t, e, d);
    BalanceByParts(t, Apply(t, e), d);
  }

  lemma BalanceByParts(t: Tables, t': Tables, d: Day)
    requires DayBalanced(t, d) && VersionsOf(t', d) == VersionsOf(t, d) && ActiveOn(t', d) == ActiveOn(t, d)
    ensures DayBalanced(t', d)
  {
  }

  /** In every reachable state the version split of each day sums to its active_day. */
  lemma {:induction false} VersionSplitSumsToActiveDay(trace: seq<Event>)
    ensures Balanced(Run(trace))
  {
    if trace != [] {
      var t := Run(trace[..|trace| - 1]);
      VersionSplitSumsToActiveDay(trace[..|trace| - 1]);
      forall d ensures DayBalanced(Run(trace), d) {
        assert DayBalanced(t, d);
        ApplyKeepsDayBalance(t, trace[|trace| - 1], d);
      }
    }
  }

  // ----- new_installs never falls -----

  lemma NewInstallsNeverFall(t: Tables, e: Event, d: Day)
    ensures NewInstallsOf(t, d) <= NewInstallsOf(Apply(t, e), d)
    ensures d in t.global ==> d in Apply(t, e).global
  {
  }

  ghost function Cumulative(t: Tables): nat {
    SumValues(map d | d in t.global :: t.global[d].newInstalls)
  }

  lemma CumulativeStep(t: Tables, e: Event)
    ensures Cumulative(t) <= Cumulative(Apply(t, e))
  {
    var t' := Apply(t, e);
    forall d | d in t.global ensures d in t'.global && t.global[d].newInstalls <= t'.global[d].newInstalls {
      NewInstallsNeverFall(t, e, d);
    }
    SumMonotone(map d | d in t.global :: t.global[d].newInstalls,
                map d | d in t'.global :: t'.global[d].newInstalls);
  }

  /** The all-time total never falls, whatever retention removes. */
  lemma {:induction false} CumulativeNeverFalls(trace: seq<Event>, n: nat)
    requires n <= |trace|
    ensures Cumulative(Run(trace[..n])) <= Cumulative(Run(trace))
  {
    if n < |trace| {
      var earlier := trace[..|trace| - 1];
      assert earlier[..n] == trace[..n];
      CumulativeNeverFalls(earlier, n);
      CumulativeStep(Run(earlier), trace[|trace| - 1]);
    } else {
      assert trace[..n] == trace;
    }
  }

  // ----- installs are always backed by the ledger, so boot-time seeding finds nothing to add -----

  ghost predicate Backed(t: Tables) {
    forall id :: id in t.installs ==>
      && t.installs[id].version != "dev" && HasIdShape(id)
      && id in LedgerOf(t, DayOf(t.installs[id].lastSeen))
  }

  lemma DayOfShift(t: Instant, days: int)
    ensures DayOf(t - days * DAY) == DayOf(t) - days
  {
  }

  lemma PingKeepsBacked(t: Tables, now: Instant, id: string, version: string)
    requires Backed(t)
    ensures Backed(RecordPing(t, now, id, version))
  {
    var t' := RecordPing(t, now, id, version);
    forall i | i in t'.installs ensures i in LedgerOf(t', DayOf(t'.installs[i].lastSeen)) {
      assert i != id ==> i in t.installs && t'.installs[i] == t.installs[i];
    }
  }

  lemma SweepKeepsBacked(t: Tables, now: Instant, ledgerToo: bool)
    requires Backed(t)
    ensures Backed(Apply(t, Sweep(now, ledgerToo)))
  {
    var t' := Apply(t, Sweep(now, ledgerToo));
    DayOfShift(now, LEDGER_RETENTION_DAYS);
    DayOfShift(now, RETENTION_DAYS);
    forall i | i in t'.installs ensures i in LedgerOf(t', DayOf(t'.installs[i].lastSeen)) {
      assert i in t.installs && t'.installs[i] == t.installs[i];
      assert i in LedgerOf(t, DayOf(t.installs[i].lastSeen));
    }
  }

  lemma {:induction false} InsertedRowsKeeps(rows: map<string, string>, recs: seq<CsvRow>, d: Day)
    ensures rows.Keys <= InsertedRows(rows, recs, d).Keys
    ensures forall id :: id in rows ==> InsertedRows(rows, recs, d)[id] == rows[id]
    ensures d !in ImportedDays(recs) ==> InsertedRows(rows, recs, d) == rows
  {
    if |recs| > 0 {
      var front := recs[..|recs| - 1];
      InsertedRowsKeeps(rows, front, d);
    }
  }

  lemma {:induction false} ImportDayByDay(ledger: map<Day, map<string, string>>, recs: seq<CsvRow>, d: Day)
    ensures RowsOn(ImportLedger(ledger, recs), d) == InsertedRows(RowsOn(ledger, d), recs, d)
  {
    if |recs| > 0 { ImportDayByDay(ledger, recs[..|recs| - 1], d); }
  }

  lemma LoadKeepsBacked(t: Tables, recs: seq<CsvRow>)
    requires Backed(t)
    ensures Backed(LoadBackfill(t, recs))
  {
    if t.backfillDone != Some(|recs|) {
      var t' := LoadBackfill(t, recs);
      forall i | i in t'.installs ensures i in LedgerOf(t', DayOf(t'.installs[i].lastSeen)) {
        var d := DayOf(t.installs[i].lastSeen);
        assert i in LedgerOf(t, d);
        ImportDayByDay(t.ledger, recs, d);
        InsertedRowsKeeps(LedgerOf(t, d), recs, d);
      }
    }
  }

  lemma OthersKeepBacked(t: Tables, e: Event)
    requires Backed(t) && (e.Snapshot? || e.Backfill? || e.Reconcile?)
    ensures Backed(Apply(t, e))
  {
    assert Apply(t, e).installs == t.installs && Apply(t, e).ledger == t.ledger;
    forall id | id in t.installs ensures id in LedgerOf(Apply(t, e), DayOf(t.installs[id].lastSeen)) {
      assert id in LedgerOf(t, DayOf(t.installs[id].lastSeen));
    }
  }

  lemma ApplyKeepsBacked(t: Tables, e: Event)
    requires Backed(t)
    ensures Backed(Apply(t, e))
  {
    if e.Ping? {
      PingKeepsBacked(t, e.now, e.id, e.version);
    } else if e.Sweep? {
      SweepKeepsBacked(t, e.now, e.ledgerToo);
    } else if e.Load? {
      LoadKeepsBacked(t, e.recs);
    } else if e.Seed? {
      SeedKeepsRows(t, e.now);
    } else {
      OthersKeepBacked(t, e);
    }
  }

  lemma {:induction false} AlwaysBacked(trace: seq<Event>)
    ensures Backed(Run(trace))
  {
    if trace != [] {
      AlwaysBacked(trace[..|trace| - 1]);
      ApplyKeepsBacked(Run(trace[..|trace| - 1]), trace[|trace| - 1]);
    }
  }

  lemma SeedKeepsRows(t: Tables, now: Instant)
    requires Backed(t)
    ensures Backed(SeedLedger(t, now))
    ensures forall d :: LedgerOf(SeedLedger(t, now), d) == LedgerOf(t, d)
  {
    if |t.installs| != 0 {
      BackedHasRows(t, SomeKey(t.installs));
    } else {
      assert t.installs == map[];
    }
  }

  lemma BackedHasRows(t: Tables, id: string)
    requires Backed(t) && id in t.installs
    ensures exists d :: d in t.ledger && t.ledger[d] != map[]
  {
    var d := DayOf(t.installs[id].lastSeen);
    assert id in LedgerOf(t, d);
    assert d in t.ledger && t.ledger[d] != map[];
  }

  /** In every reachable state: seeding at boot adds no row, and the sweep removes nothing but silent installs. */
  lemma SeedAndSweepInReachableStates(trace: seq<Event>, now: Instant)
    ensures forall d :: LedgerOf(SeedLedger(Run(trace), now), d) == LedgerOf(Run(trace), d)
    ensures var t := Run(trace);
            forall id :: id in t.installs ==>
              (id in SweepInstalls(t, now).installs <==> t.installs[id].lastSeen >= now - RETENTION_DAYS * DAY)
  {
    AlwaysBacked(trace);
    SeedKeepsRows(Run(trace), now);
  }

  // ----- self-healing snapshots -----

  /** What was ever recorded for day d: the last accepted ping of each install, then imported rows for the rest. */
  ghost function RecordedOn(trace: seq<Event>, d: Day): map<string, string> {
    if trace == [] then map[]
    else
      var earlier := trace[..|trace| - 1];
      RecordEvent(Run(earlier), RecordedOn(earlier, d), trace[|trace| - 1], d)
  }

  function RecordEvent(t: Tables, rows: map<string, string>, e: Event, d: Day): map<string, string> {
    match e
    case Ping(now, id, version) =>
      if PingAccepted(id, version) && DayOf(now) == d then rows[id := NormalizeVersion(version)] else rows
    case Load(_, recs) => if t.backfillDone == Some(|recs|) then rows else InsertedRows(rows, recs, d)
    case _ => rows
  }

  lemma OneMore(earlier: seq<Event>, e: Event, d: Day)
    ensures Run(earlier + [e]) == Apply(Run(earlier), e)
    ensures RecordedOn(earlier + [e], d) == RecordEvent(Run(earlier), RecordedOn(earlier, d), e, d)
  {
    assert (earlier + [e])[..|earlier|] == earlier;
  }

  ghost predicate Timely(trace: seq<Event>) {
    forall i, j :: 0 <= i < j < |trace| ==> trace[i].now <= trace[j].now
  }

  /** While day d is within ledger retention its ledger rows are exactly what was recorded. */
  lemma {:induction false} LedgerHoldsTheRecord(trace: seq<Event>, d: Day)
    requires forall i :: 0 <= i < |trace| ==> DayOf(trace[i].now) <= d + LEDGER_RETENTION_DAYS
    ensures LedgerOf(Run(trace), d) == RecordedOn(trace, d)
  {
    if trace != [] {
      var earlier, e := trace[..|trace| - 1], trace[|trace| - 1];
      assert earlier + [e] == trace;
      OneMore(earlier, e, d);
      LedgerHoldsTheRecord(earlier, d);
      AlwaysBacked(earlier);
      LedgerFollows(Run(earlier), e, d);
    }
  }

  lemma LedgerFollows(t: Tables, e: Event, d: Day)
    requires Backed(t) && DayOf(e.now) <= d + LEDGER_RETENTION_DAYS
    ensures LedgerOf(Apply(t, e), d) == RecordEvent(t, LedgerOf(t, d), e, d)
  {
    match e
    case Sweep(now, _) => DayOfShift(now, LEDGER_RETENTION_DAYS);
    case Seed(now) => SeedKeepsRows(t, now);
    case Load(_, recs) =>
      if t.backfillDone != Some(|recs|) { ImportDayByDay(t.ledger, recs, d); }
    case _ =>
  }

  /** The aggregates of day d are the counts of what was recorded for it. */
  ghost predicate Exact(t: Tables, rows: map<string, string>, d: Day) {
    d in t.global && t.global[d].activeDay == |rows| && VersionsOf(t, d) == VersionCounts(rows)
  }

  /** An import naming day d after the ledger may have dropped that day's rows. */
  predicate LateImport(e: Event, d: Day) {
    e.Load? && d in ImportedDays(e.recs) && DayOf(e.now) > d + LEDGER_RETENTION_DAYS
  }

  predicate Heals(e: Event, d: Day) {
    e.Snapshot? && 1 <= e.daysAgo <= HEAL_DAYS && DayOf(e.now) - e.daysAgo == d
  }

  /**
   * Self-healing: whatever ticks failed or were missed before, once one snapshot of day d taken one to seven days
   * later has committed, the aggregates of d are exact, and they stay exact whatever happens afterwards.
   */
  lemma {:induction false} OneTickHeals(trace: seq<Event>, d: Day, k: nat)
    requires Timely(trace) && k < |trace| && Heals(trace[k], d)
    requires forall i :: 0 <= i < |trace| ==> !LateImport(trace[i], d)
    requires forall i :: 0 <= i < |trace| && trace[i].Snapshot? ==> trace[i].daysAgo <= HEAL_DAYS
    ensures Exact(Run(trace), RecordedOn(trace, d), d)
  {
    var earlier, e := trace[..|trace| - 1], trace[|trace| - 1];
    assert earlier + [e] == trace;
    if k == |trace| - 1 {
      HealsOnce(earlier, e, d);
    } else {
      OneTickHeals(earlier, d, k);
      assert trace[k].now <= e.now;
      StaysExact(earlier, e, d);
    }
  }

  lemma HealsOnce(earlier: seq<Event>, e: Event, d: Day)
    requires Timely(earlier + [e]) && Heals(e, d)
    ensures Exact(Run(earlier + [e]), RecordedOn(earlier + [e], d), d)
  {
    EarlierIsRetained(earlier, e, d);
    LedgerHoldsTheRecord(earlier, d);
    OneMore(earlier, e, d);
    SnapshotIsExact(Run(earlier), d);
  }

  lemma EarlierIsRetained(earlier: seq<Event>, e: Event, d: Day)
    requires Timely(earlier + [e]) && DayOf(e.now) <= d + LEDGER_RETENTION_DAYS
    ensures forall i :: 0 <= i < |earlier| ==> DayOf(earlier[i].now) <= d + LEDGER_RETENTION_DAYS
  {
    var trace := earlier + [e];
    forall i | 0 <= i < |earlier| ensures DayOf(earlier[i].now) <= d + LEDGER_RETENTION_DAYS {
      assert trace[i].now <= trace[|earlier|].now;
    }
  }

  lemma SnapshotIsExact(t: Tables, d: Day)
    ensures Exact(SnapshotDay(t, d), LedgerOf(t, d), d)
  {
  }

  lemma StaysExact(earlier: seq<Event>, e: Event, d: Day)
    requires Timely(earlier + [e]) && DayOf(e.now) > d && !LateImport(e, d)
    requires e.Snapshot? ==> e.daysAgo <= HEAL_DAYS
    requires Exact(Run(earlier), RecordedOn(earlier, d), d)
    ensures Exact(Run(earlier + [e]), RecordedOn(earlier + [e], d), d)
  {
    var trace := earlier + [e];
    OneMore(earlier, e, d);
    var t, rows := Run(earlier), RecordedOn(earlier, d);
    assert DayOf(e.now) <= d + LEDGER_RETENTION_DAYS ==> LedgerOf(t, d) == rows by {
      if DayOf(e.now) <= d + LEDGER_RETENTION_DAYS {
        EarlierIsRetained(earlier, e, d);
        LedgerHoldsTheRecord(earlier, d);
      }
    }
    if e.Load? {
      if t.backfillDone != Some(|e.recs|) { LoadStaysExact(t, e.recs, rows, d); }
    } else if e.Snapshot? {
      SnapshotIsExact(t, DayOf(e.now) - e.daysAgo);
    } else {
      OthersKeepActivity(t, e, d);
      NewInstallsNeverFall(t, e, d);
    }
  }

  lemma RederiveDayByDay(t: Tables, rows: map<Day, map<string, string>>, d: Day)
    ensures d in rows ==> Exact(Rederive(t, rows), rows[d], d)
    ensures d !in rows ==> VersionsOf(Rederive(t, rows), d) == VersionsOf(t, d)
    ensures d !in rows ==> ActiveOn(Rederive(t, rows), d) == ActiveOn(t, d)
    ensures d in t.global ==> d in Rederive(t, rows).global
  {
  }

  lemma LoadStaysExact(t: Tables, recs: seq<CsvRow>, rows: map<string, string>, d: Day)
    requires t.backfillDone != Some(|recs|) && Exact(t, rows, d)
    requires d in ImportedDays(recs) ==> LedgerOf(t, d) == rows
    ensures Exact(LoadBackfill(t, recs), InsertedRows(rows, recs, d), d)
  {
    InsertedRowsKeeps(rows, recs, d);
    ImportDayByDay(t.ledger, recs, d);
    RederiveDayByDay(t, DayRows(ImportLedger(t.ledger, recs), ImportedDays(recs)), d);
  }

  /** Importing the same file again adds nothing, even when the done marker no longer matches. */
  lemma {:induction false} ReimportAddsNothing(rows: map<string, string>, recs: seq<CsvRow>, d: Day, n: nat)
    requires n <= |recs|
    ensures InsertedRows(InsertedRows(rows, recs, d), recs[..n], d) == InsertedRows(rows, recs, d)
  {
    if n > 0 {
      ReimportAddsNothing(rows, recs, d, n - 1);
      var r := recs[n - 1];
      assert recs[..n][..n - 1] == recs[..n - 1];
      if RowAccepted(r) && r.day.day == d { AcceptedIsPresent(rows, recs, d, n - 1); }
    }
  }

  lemma {:induction false} AcceptedIsPresent(rows: map<string, string>, recs: seq<CsvRow>, d: Day, i: nat)
    requires i < |recs| && RowAccepted(recs[i]) && recs[i].day.day == d
    ensures recs[i].id in InsertedRows(rows, recs, d)
  {
    if i < |recs| - 1 {
      var front := recs[..|recs| - 1];
      assert front[i] == recs[i];
      AcceptedIsPresent(rows, front, d, i);
      OneMoreRowKeeps(rows, recs, d);
    } else {
      LastIsPresent(rows, recs, d);
    }
  }

  lemma OneMoreRowKeeps(rows: map<string, string>, recs: seq<CsvRow>, d: Day)
    requires |recs| > 0
    ensures InsertedRows(rows, recs[..|recs| - 1], d).Keys <= InsertedRows(rows, recs, d).Keys
  {
  }

  lemma LastIsPresent(rows: map<string, string>, recs: seq<CsvRow>, d: Day)
    requires |recs| > 0 && RowAccepted(recs[|recs| - 1]) && recs[|recs| - 1].day.day == d
    ensures recs[|recs| - 1].id in InsertedRows(rows, recs, d)
  {
  }

  lemma {:induction false} InsertedKeys(rows: map<string, string>, recs: seq<CsvRow>, d: Day)
    ensures InsertedRows(rows, recs, d).Keys == rows.Keys + InsertedRows(map[], recs, d).Keys
  {
    if |recs| > 0 { InsertedKeys(rows, recs[..|recs| - 1], d); }
  }

  /** Whatever retention dropped, the ledger of a day holds no install that was not recorded for it. */
  lemma {:induction false} LedgerWithinRecord(trace: seq<Event>, d: Day)
    ensures LedgerOf(Run(trace), d).Keys <= RecordedOn(trace, d).Keys
  {
    if trace != [] {
      var earlier, e := trace[..|trace| - 1], trace[|trace| - 1];
      assert earlier + [e] == trace;
      OneMore(earlier, e, d);
      LedgerWithinRecord(earlier, d);
      AlwaysBacked(earlier);
      StaysWithin(Run(earlier), RecordedOn(earlier, d), e, d);
    }
  }

  lemma StaysWithin(t: Tables, rows: map<string, string>, e: Event, d: Day)
    requires Backed(t) && LedgerOf(t, d).Keys <= rows.Keys
    ensures LedgerOf(Apply(t, e), d).Keys <= RecordEvent(t, rows, e, d).Keys
  {
    match e
    case Seed(now) => SeedKeepsRows(t, now);
    case Load(_, recs) =>
      if t.backfillDone != Some(|recs|) {
        ImportDayByDay(t.ledger, recs, d);
        InsertedKeys(LedgerOf(t, d), recs, d);
        InsertedKeys(rows, recs, d);
      }
    case _ =>
  }

  /**
   * An import recounts each day it names from the ledger: the rows retention left and the imported ones. The day's
   * active_day then still counts everything recorded exactly when each recorded install is among those, and so does
   * the version split where they were recorded with the same versions.
   */
  lemma ImportCountsWhatIsLeft(earlier: seq<Event>, now: Instant, recs: seq<CsvRow>, d: Day)
    requires Run(earlier).backfillDone != Some(|recs|) && d in ImportedDays(recs)
    ensures var trace, left := earlier + [Load(now, recs)], InsertedRows(LedgerOf(Run(earlier), d), recs, d);
            && ActiveOn(Run(trace), d) == |left| && VersionsOf(Run(trace), d) == VersionCounts(left)
            && (ActiveOn(Run(trace), d) == |RecordedOn(trace, d)| <==>
                RecordedOn(earlier, d).Keys <=
                LedgerOf(Run(earlier), d).Keys + InsertedRows(map[], recs, d).Keys)
            && (left == RecordedOn(trace, d) ==> Exact(Run(trace), RecordedOn(trace, d), d))
  {
    var t, rows := Run(earlier), RecordedOn(earlier, d);
    OneMore(earlier, Load(now, recs), d);
    ImportRecounts(t, recs, d);
    LedgerWithinRecord(earlier, d);
    CountsAgree(LedgerOf(t, d), rows, recs, d);
  }

  lemma CountsAgree(some: map<string, string>, rows: map<string, string>, recs: seq<CsvRow>, d: Day)
    requires some.Keys <= rows.Keys
    ensures |InsertedRows(some, recs, d)| == |InsertedRows(rows, recs, d)| <==>
            rows.Keys <= some.Keys + InsertedRows(map[], recs, d).Keys
  {
    InsertedKeys(rows, recs, d);
    InsertedKeys(some, recs, d);
    SameCountSameKeys(InsertedRows(some, recs, d), InsertedRows(rows, recs, d));
  }

  lemma ImportRecounts(t: Tables, recs: seq<CsvRow>, d: Day)
    requires t.backfillDone != Some(|recs|) && d in ImportedDays(recs)
    ensures Exact(LoadBackfill(t, recs), InsertedRows(LedgerOf(t, d), recs, d), d)
  {
    ImportDayByDay(t.ledger, recs, d);
    RederiveDayByDay(t, DayRows(ImportLedger(t.ledger, recs), ImportedDays(recs)), d);
  }

  lemma SameCountSameKeys(some: map<string, string>, all: map<string, string>)
    requires some.Keys <= all.Keys
    ensures |some| == |all| <==> all.Keys <= some.Keys
  {
    assert |some.Keys| == |some| && |all.Keys| == |all|;
    if |some| == |all| { SameSizeSubset(some.Keys, all.Keys); }
    if all.Keys <= some.Keys { assert all.Keys == some.Keys; }
  }

  lemma SameSizeSubset(a: set<string>, b: set<string>)
    requires a <= b && |a| == |b|
    ensures a == b
  {
    assert |b - a| == |b| - |a|;
    assert b - a == {};
  }

  // ----- one aggregate tick -----

  /** The first n snapshots of the tick at now: today, yesterday, and so on; a failed one is skipped. */
  function Tick(t: Tables, now: Instant, ok: seq<bool>, n: nat): Tables
    requires n <= |ok|
  {
    if n == 0 then t
    else
      var t' := Tick(t, now, ok, n - 1);
      if ok[n - 1] then SnapshotDay(t', DayOf(now) - (n - 1)) else t'
  }

  /** A tick re-derives every day whose snapshot commits from the ledger as it was, whatever the other days do. */
  lemma {:induction false} TickDerivesEachDay(t: Tables, now: Instant, ok: seq<bool>, n: nat, daysAgo: nat)
    requires daysAgo < n <= |ok| && ok[daysAgo]
    ensures Exact(Tick(t, now, ok, n), LedgerOf(t, DayOf(now) - daysAgo), DayOf(now) - daysAgo)
  {
    TickKeepsLedger(t, now, ok, n - 1);
    if daysAgo < n - 1 {
      TickDerivesEachDay(t, now, ok, n - 1, daysAgo);
    }
  }

  lemma {:induction false} TickKeepsLedger(t: Tables, now: Instant, ok: seq<bool>, n: nat)
    requires n <= |ok|
    ensures Tick(t, now, ok, n).ledger == t.ledger && Tick(t, now, ok, n).installs == t.installs
  {
    if n > 0 { TickKeepsLedger(t, now, ok, n - 1); }
  }

  /** How many rows an import reports as inserted. */
  function InsertedCount(ledger: map<Day, map<string, string>>, recs: seq<CsvRow>): nat {
    if |recs| == 0 then 0
    else
      var r, front := recs[|recs| - 1], recs[..|recs| - 1];
      InsertedCount(ledger, front) +
      (if RowAccepted(r) && r.id !in RowsOn(ImportLedger(ledger, front), r.day.day) then 1 else 0)
  }

  ghost function LedgerSize(ledger: map<Day, map<string, string>>): nat { SumValues(RowCounts(ledger)) }

  lemma ReplacedDaySize(ledger: map<Day, map<string, string>>, d: Day, rows: map<string, string>)
    ensures LedgerSize(ledger[d := rows]) == LedgerSize(ledger) - |RowsOn(ledger, d)| + |rows|
  {
    RowCountsReplaced(ledger, d, rows);
    SumUpdate(RowCounts(ledger), d, |rows|);
  }

  lemma RowCountsReplaced(ledger: map<Day, map<string, string>>, d: Day, rows: map<string, string>)
    ensures RowCounts(ledger[d := rows]) == RowCounts(ledger)[d := |rows|]
    ensures (if d in RowCounts(ledger) then RowCounts(ledger)[d] else 0) == |RowsOn(ledger, d)|
  {
  }

  /** The reported number is exactly the growth of the ledger. */
  lemma {:induction false} InsertedCountIsLedgerGrowth(ledger: map<Day, map<string, string>>, recs: seq<CsvRow>)
    ensures LedgerSize(ImportLedger(ledger, recs)) == LedgerSize(ledger) + InsertedCount(ledger, recs)
  {
    if |recs| > 0 {
      var r, front := recs[|recs| - 1], recs[..|recs| - 1];
      InsertedCountIsLedgerGrowth(ledger, front);
      if RowAccepted(r) {
        var before := ImportLedger(ledger, front);
        ReplacedDaySize(before, r.day.day, InsertRow(RowsOn(before, r.day.day), r));
      }
    }
  }
}
