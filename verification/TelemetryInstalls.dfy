// When an install was first and last seen, told from the pings alone, and what a day's new_installs counts.

module TelemetryInstalls {
  import opened Common
  import opened Telemetry

  /** An accepted ping of this install. */
  predicate PingOf(e: Event, id: string) { e.Ping? && e.id == id && PingAccepted(e.id, e.version) }

  /** The nth event brought the install in: an accepted ping while it was absent. */
  ghost predicate Arrives(trace: seq<Event>, n: nat, id: string) {
    n < |trace| && PingOf(trace[n], id) && id !in Run(trace[..n]).installs
  }

  /** It was not swept after the nth event. */
  ghost predicate StaysSince(trace: seq<Event>, n: nat, id: string) {
    forall m :: n < m <= |trace| ==> id in Run(trace[..m]).installs
  }

  lemma OthersKeepInstalls(t: Tables, e: Event, id: string)
    requires !PingOf(e, id) && id in Apply(t, e).installs
    ensures id in t.installs && Apply(t, e).installs[id] == t.installs[id]
  {
  }

  lemma PingKeepsFirstSeen(t: Tables, e: Event, id: string)
    requires PingOf(e, id)
    ensures var i := Apply(t, e).installs;
            && id in i && i[id].lastSeen == e.now && i[id].version == NormalizeVersion(e.version)
            && i[id].firstSeen == if id in t.installs then t.installs[id].firstSeen else e.now
  {
  }

  /**
   * Main result: first_seen is the time of the accepted ping that found the install absent, and it has stayed since.
   */
  lemma {:induction false} FirstSeenIsTheArrival(trace: seq<Event>, id: string) returns (n: nat)
    requires id in Run(trace).installs
    ensures Arrives(trace, n, id) && StaysSince(trace, n, id) && Run(trace).installs[id].firstSeen == trace[n].now
  {
    var front, e := trace[..|trace| - 1], trace[|trace| - 1];
    assert trace == front + [e];
    RunOneMore(front, e);
    if PingOf(e, id) && id !in Run(front).installs {
      n := |trace| - 1;
      PingKeepsFirstSeen(Run(front), e, id);
      ArrivesAtTheEnd(front, e, id);
    } else {
      if PingOf(e, id) {
        PingKeepsFirstSeen(Run(front), e, id);
      } else {
        OthersKeepInstalls(Run(front), e, id);
      }
      n := FirstSeenIsTheArrival(front, id);
      ArrivedEarlier(front, e, n, id);
    }
  }

  lemma ArrivesAtTheEnd(front: seq<Event>, e: Event, id: string)
    requires PingOf(e, id) && id !in Run(front).installs && id in Run(front + [e]).installs
    ensures Arrives(front + [e], |front|, id) && StaysSince(front + [e], |front|, id)
  {
    var trace := front + [e];
    assert trace[..|front|] == front && trace[..|trace|] == trace;
  }

  lemma ArrivedEarlier(front: seq<Event>, e: Event, n: nat, id: string)
    requires Arrives(front, n, id) && StaysSince(front, n, id) && id in Run(front + [e]).installs
    ensures Arrives(front + [e], n, id) && StaysSince(front + [e], n, id) && (front + [e])[n] == front[n]
  {
    var trace := front + [e];
    assert trace[..n] == front[..n];
    forall m | n < m <= |trace| ensures id in Run(trace[..m]).installs {
      if m < |trace| { assert trace[..m] == front[..m]; } else { assert trace[..m] == trace; }
    }
  }

  /** The last accepted ping of the install. */
  predicate IsLastPing(trace: seq<Event>, n: nat, id: string) {
    n < |trace| && PingOf(trace[n], id) && forall m :: n < m < |trace| ==> !PingOf(trace[m], id)
  }

  /** last_seen and the version are those of the last accepted ping. */
  lemma {:induction false} LastSeenIsTheLastPing(trace: seq<Event>, id: string) returns (n: nat)
    requires id in Run(trace).installs
    ensures IsLastPing(trace, n, id)
    ensures Run(trace).installs[id].lastSeen == trace[n].now
    ensures Run(trace).installs[id].version == NormalizeVersion(trace[n].version)
  {
    var front, e := trace[..|trace| - 1], trace[|trace| - 1];
    assert trace == front + [e];
    RunOneMore(front, e);
    if PingOf(e, id) {
      n := |trace| - 1;
      PingKeepsFirstSeen(Run(front), e, id);
    } else {
      OthersKeepInstalls(Run(front), e, id);
      n := LastSeenIsTheLastPing(front, id);
      LaterByOne(front, e, n, id);
    }
  }

  lemma RunOneMore(trace: seq<Event>, e: Event)
    ensures Run(trace + [e]) == Apply(Run(trace), e)
  {
    assert (trace + [e])[..|trace|] == trace;
  }

  lemma LaterByOne(front: seq<Event>, e: Event, n: nat, id: string)
    requires IsLastPing(front, n, id) && !PingOf(e, id)
    ensures IsLastPing(front + [e], n, id) && (front + [e])[n] == front[n]
  {
  }

  // ----- what new_installs counts -----

  /** The install came, for its present stay, on day d. */
  ghost predicate ArrivedOn(trace: seq<Event>, id: string, d: Day) {
    exists n: nat :: Arrives(trace, n, id) && StaysSince(trace, n, id) && DayOf(trace[n].now) == d
  }

  ghost function Newcomers(trace: seq<Event>, d: Day): set<string> {
    set id | id in Run(trace).installs && ArrivedOn(trace, id, d)
  }

  lemma ArrivalsAreOne(trace: seq<Event>, id: string, n: nat, m: nat)
    requires Arrives(trace, n, id) && StaysSince(trace, n, id) && Arrives(trace, m, id) && StaysSince(trace, m, id)
    ensures n == m
  {
  }

  /** The installs first seen on a day are those that came on it for their present stay. */
  lemma FirstSeenOnCountsNewcomers(trace: seq<Event>, d: Day)
    ensures FirstSeenOn(Run(trace), d) == |Newcomers(trace, d)|
  {
    var t := Run(trace);
    forall id | id in t.installs ensures DayOf(t.installs[id].firstSeen) == d <==> ArrivedOn(trace, id, d) {
      var n := FirstSeenIsTheArrival(trace, id);
      if ArrivedOn(trace, id, d) {
        var m: nat :| Arrives(trace, m, id) && StaysSince(trace, m, id) && DayOf(trace[m].now) == d;
        ArrivalsAreOne(trace, id, n, m);
      }
    }
    assert SeenOn(t.installs, d) == Newcomers(trace, d);
  }

  /** A snapshot leaves the number of the day's newcomers, or the larger one it found. */
  lemma SnapshotCountsNewcomers(trace: seq<Event>, e: Event, d: Day)
    requires e.Snapshot? && d == DayOf(e.now) - e.daysAgo
    ensures NewInstallsOf(Run(trace + [e]), d) == Max(NewInstallsOf(Run(trace), d), |Newcomers(trace, d)|)
  {
    RunOneMore(trace, e);
    FirstSeenOnCountsNewcomers(trace, d);
    SnapshotRaises(Run(trace), Run(trace + [e]), e, d, |Newcomers(trace, d)|);
  }

  lemma SnapshotRaises(t: Tables, t': Tables, e: Event, d: Day, count: nat)
    requires e.Snapshot? && d == DayOf(e.now) - e.daysAgo && t' == Apply(t, e) && FirstSeenOn(t, d) == count
    ensures NewInstallsOf(t', d) == Max(NewInstallsOf(t, d), count)
  {
  }

  function SeenOn(installs: map<string, Install>, d: Day): set<string> {
    set id | id in installs && DayOf(installs[id].firstSeen) == d
  }

  lemma SeenWithOneMore(installs: map<string, Install>, id: string, i: Install, d: Day)
    requires id in installs ==> i.firstSeen == installs[id].firstSeen
    ensures |SeenOn(installs[id := i], d)| ==
            |SeenOn(installs, d)| + (if id !in installs && DayOf(i.firstSeen) == d then 1 else 0)
  {
    if id !in installs && DayOf(i.firstSeen) == d {
      assert SeenOn(installs[id := i], d) == SeenOn(installs, d) + {id};
    } else {
      assert SeenOn(installs[id := i], d) == SeenOn(installs, d);
    }
  }

  /** A ping counts a newcomer on its own day; nobody else moves to another day. */
  lemma PingMovesNoInstall(t: Tables, now: Instant, id: string, version: string, d: Day)
    ensures FirstSeenOn(RecordPing(t, now, id, version), d) ==
            FirstSeenOn(t, d) + (if PingAccepted(id, version) && id !in t.installs && DayOf(now) == d then 1 else 0)
  {
    if PingAccepted(id, version) {
      var i := RecordPing(t, now, id, version).installs[id];
      PingKeepsFirstSeen(t, Ping(now, id, version), id);
      SeenWithOneMore(t.installs, id, i, d);
    }
  }

  /** How often an install came in on day d. */
  ghost function Arrivals(trace: seq<Event>, d: Day): nat {
    if trace == [] then 0
    else
      var e := trace[|trace| - 1];
      Arrivals(trace[..|trace| - 1], d) +
      (if e.Ping? && Arrives(trace, |trace| - 1, e.id) && DayOf(e.now) == d then 1 else 0)
  }

  /** The largest valid count any seed file gave for day d. */
  function Seeded(trace: seq<Event>, d: Day): nat {
    if trace == [] then 0
    else
      var e, before := trace[|trace| - 1], Seeded(trace[..|trace| - 1], d);
      if e.Reconcile? && d in e.seed.days && e.seed.days[d] >= 0 then Max(before, e.seed.days[d]) else before
  }

  lemma OthersAddNoNewcomer(t: Tables, e: Event, d: Day)
    requires !e.Ping?
    ensures FirstSeenOn(Apply(t, e), d) <= FirstSeenOn(t, d)
  {
    var t' := Apply(t, e);
    forall i | i in SeenOn(t'.installs, d) ensures i in SeenOn(t.installs, d) { OthersKeepInstalls(t, e, i); }
    CardinalityMonotone(SeenOn(t'.installs, d), SeenOn(t.installs, d));
  }

  lemma {:induction false} FewerThanArrivals(trace: seq<Event>, d: Day)
    ensures FirstSeenOn(Run(trace), d) <= Arrivals(trace, d)
  {
    if trace != [] {
      var front, e := trace[..|trace| - 1], trace[|trace| - 1];
      FewerThanArrivals(front, d);
      if e.Ping? {
        PingMovesNoInstall(Run(front), e.now, e.id, e.version, d);
      } else {
        OthersAddNoNewcomer(Run(front), e, d);
      }
    } else {
      assert SeenOn(EMPTY.installs, d) == {};
    }
  }

  lemma NewInstallsStep(t: Tables, e: Event, d: Day)
    ensures NewInstallsOf(Apply(t, e), d) <=
            Max(Max(NewInstallsOf(t, d), FirstSeenOn(t, d)),
                if e.Reconcile? && d in e.seed.days && e.seed.days[d] >= 0 then e.seed.days[d] else 0)
  {
  }

  /**
   * Main result: in every history a day's new_installs is at most the number of times an install came in on it, or a
   * count that a seed file gave. So an install is counted again only after it was gone.
   */
  lemma {:induction false} NewInstallsCountArrivals(trace: seq<Event>, d: Day)
    ensures NewInstallsOf(Run(trace), d) <= Max(Arrivals(trace, d), Seeded(trace, d))
  {
    if trace != [] {
      var front := trace[..|trace| - 1];
      NewInstallsCountArrivals(front, d);
      FewerThanArrivals(front, d);
      NewInstallsStep(Run(front), trace[|trace| - 1], d);
    }
  }
}
