// Matching a book to a catalog series: search, fetch each distinct series once in any order, then score. The result is
// the one a plain loop gets that fetches the catalog for every search hit in turn.

module SeriesPipeline {
  import opened Common
  import opened Matching

  /** A search hit: which query found it, and the series it points at. */
  datatype Hit = Hit(query: int, seriesId: string, result: int)

  /** A fetched catalog has an id of its own and contents only the scorer looks into. */
  datatype Catalog = Catalog(id: string, contents: int)

  /** Fetching a catalog may fail, find nothing, or find it; it depends on the series id alone. */
  datatype Fetch = Fails | Missing | Found(catalog: Catalog)

  datatype Candidate = Candidate(hit: Hit, catalog: Catalog, score: int)

  /** The candidates by catalog id, and whether some call failed, so that nothing is concluded about the item. */
  datatype Result = Result(candidates: map<string, Candidate>, incomplete: bool)

  /** A hit's candidate replaces an earlier one of the same catalog only with a higher score. */
  function Keep(candidates: map<string, Candidate>, c: Candidate): map<string, Candidate> {
    if c.catalog.id !in candidates || c.score > candidates[c.catalog.id].score then candidates[c.catalog.id := c]
    else candidates
  }

  function Scored(candidates: map<string, Candidate>, score: (Hit, Catalog) -> Option<int>, h: Hit, catalog: Catalog)
    : map<string, Candidate>
  {
    match score(h, catalog)
    case None => candidates
    case Some(s) => Keep(candidates, Candidate(h, catalog, s))
  }

  // ----- the plain loop -----

  /** Fetch and score hit after hit. */
  function Serial(hits: seq<Hit>, fetch: string -> Fetch, score: (Hit, Catalog) -> Option<int>,
                  searchFailed: bool): Result {
    if hits == [] then Result(map[], searchFailed)
    else
      var h, before := hits[|hits| - 1], Serial(hits[..|hits| - 1], fetch, score, searchFailed);
      match fetch(h.seriesId)
      case Fails => before.(incomplete := true)
      case Missing => before
      case Found(catalog) => before.(candidates := Scored(before.candidates, score, h, catalog))
  }

  /** What a hit contributes on its own: a candidate, when its catalog was found and scores. */
  function CandidateOf(h: Hit, fetch: string -> Fetch, score: (Hit, Catalog) -> Option<int>): Option<Candidate> {
    match fetch(h.seriesId)
    case Found(catalog) =>
      (match score(h, catalog) case Some(s) => Some(Candidate(h, catalog, s)) case None => None)
    case _ => None
  }

  /** The ith hit gave this candidate, no hit of its catalog scores higher, and no earlier one as high. */
  predicate IsBest(hits: seq<Hit>, fetch: string -> Fetch, score: (Hit, Catalog) -> Option<int>, c: Candidate, i: nat)
  {
    && i < |hits| && CandidateOf(hits[i], fetch, score) == Some(c)
    && forall j :: 0 <= j < |hits| ==> Beats(c, CandidateOf(hits[j], fetch, score), j < i)
  }

  predicate Beats(c: Candidate, other: Option<Candidate>, earlier: bool) {
    other.Some? && other.value.catalog.id == c.catalog.id ==>
      other.value.score <= c.score && (earlier ==> other.value.score < c.score)
  }

  predicate HasCandidate(hits: seq<Hit>, fetch: string -> Fetch, score: (Hit, Catalog) -> Option<int>, id: string) {
    exists i :: 0 <= i < |hits| && Gives(CandidateOf(hits[i], fetch, score), id)
  }

  predicate Gives(c: Option<Candidate>, id: string) { c.Some? && c.value.catalog.id == id }

  /** Main result: of the hits of each catalog, one with the highest score is kept, the earliest of those. */
  lemma {:induction false} BestHitIsKept(hits: seq<Hit>, fetch: string -> Fetch, score: (Hit, Catalog) -> Option<int>,
                                         searchFailed: bool, id: string)
    ensures var kept := Serial(hits, fetch, score, searchFailed).candidates;
            && (id in kept <==> HasCandidate(hits, fetch, score, id))
            && (id in kept ==> kept[id].catalog.id == id && exists i :: IsBest(hits, fetch, score, kept[id], i))
  {
    if hits != [] {
      var front, h := hits[..|hits| - 1], hits[|hits| - 1];
      assert hits == front + [h];
      BestHitIsKept(front, fetch, score, searchFailed, id);
      KeepingOneMore(Serial(front, fetch, score, searchFailed).candidates, front, h, fetch, score, searchFailed, id);
    }
  }

  /** The candidates after one more hit. */
  lemma SerialOneMore(front: seq<Hit>, h: Hit, fetch: string -> Fetch, score: (Hit, Catalog) -> Option<int>,
                      searchFailed: bool)
    ensures var before := Serial(front, fetch, score, searchFailed).candidates;
            Serial(front + [h], fetch, score, searchFailed).candidates ==
            match CandidateOf(h, fetch, score) case Some(c) => Keep(before, c) case None => before
  {
    assert (front + [h])[..|front|] == front;
  }

  lemma KeepingOneMore(before: map<string, Candidate>, front: seq<Hit>, h: Hit, fetch: string -> Fetch,
                       score: (Hit, Catalog) -> Option<int>, searchFailed: bool, id: string)
    requires before == Serial(front, fetch, score, searchFailed).candidates
    requires id in before <==> HasCandidate(front, fetch, score, id)
    requires id in before ==> before[id].catalog.id == id && exists i :: IsBest(front, fetch, score, before[id], i)
    ensures var kept := Serial(front + [h], fetch, score, searchFailed).candidates;
            && (id in kept <==> HasCandidate(front + [h], fetch, score, id))
            && (id in kept ==> kept[id].catalog.id == id && exists i :: IsBest(front + [h], fetch, score, kept[id], i))
  {
    var hits, one := front + [h], CandidateOf(h, fetch, score);
    SerialOneMore(front, h, fetch, score, searchFailed);
    assert forall i :: 0 <= i < |front| ==> hits[i] == front[i];
    assert hits[|front|] == h;
    HasOneMore(front, h, fetch, score, id);
    if id in before {
      var i :| IsBest(front, fetch, score, before[id], i);
      if !(Gives(one, id) && one.value.score > before[id].score) {
        assert IsBest(hits, fetch, score, before[id], i);
      } else {
        assert IsBest(hits, fetch, score, one.value, |front|);
      }
    } else if Gives(one, id) {
      forall j | 0 <= j < |hits| ensures Beats(one.value, CandidateOf(hits[j], fetch, score), j < |front|) {
        if j < |front| { assert !Gives(CandidateOf(front[j], fetch, score), id); }
      }
      assert IsBest(hits, fetch, score, one.value, |front|);
    }
  }

  lemma HasOneMore(front: seq<Hit>, h: Hit, fetch: string -> Fetch, score: (Hit, Catalog) -> Option<int>, id: string)
    ensures HasCandidate(front + [h], fetch, score, id) <==>
            HasCandidate(front, fetch, score, id) || Gives(CandidateOf(h, fetch, score), id)
  {
    var hits := front + [h];
    if HasCandidate(front, fetch, score, id) {
      var i :| 0 <= i < |front| && Gives(CandidateOf(front[i], fetch, score), id);
      assert hits[i] == front[i];
    }
    assert hits[|front|] == h;
  }

  // ----- the pipeline -----

  /** Every query's hits, in order; a failed search contributes none. */
  method Search(queries: seq<int>, search: int -> Option<seq<Hit>>) returns (pending: seq<Hit>, incomplete: bool)
    ensures pending == AllHits(queries, search)
    ensures incomplete == SomeSearchFails(queries, search)
  {
    pending, incomplete := [], false;
    for n := 0 to |queries|
      invariant pending == AllHits(queries[..n], search)
      invariant incomplete <==> exists i :: 0 <= i < n && search(queries[i]).None?
    {
      assert queries[..n + 1][..n] == queries[..n];
      match search(queries[n])
      case None => incomplete := true;
      case Some(results) => pending := pending + results;
    }
    assert queries[..|queries|] == queries;
  }

  predicate SomeSearchFails(queries: seq<int>, search: int -> Option<seq<Hit>>) {
    exists i :: 0 <= i < |queries| && search(queries[i]).None?
  }

  /** Search with every query, then fetch and score hit after hit. */
  function PlainLoop(queries: seq<int>, search: int -> Option<seq<Hit>>, fetch: string -> Fetch,
                     score: (Hit, Catalog) -> Option<int>): Result {
    Serial(AllHits(queries, search), fetch, score, SomeSearchFails(queries, search))
  }

  function AllHits(queries: seq<int>, search: int -> Option<seq<Hit>>): seq<Hit> {
    if queries == [] then []
    else
      AllHits(queries[..|queries| - 1], search) +
      (match search(queries[|queries| - 1]) case None => [] case Some(results) => results)
  }

  function ResultsOf(query: int, search: int -> Option<seq<Hit>>): seq<Hit> {
    match search(query) case None => [] case Some(results) => results
  }

  /** The hits of a query that answered follow those of the queries before it; later queries only add to them. */
  lemma {:induction false} HitsInOrder(queries: seq<int>, search: int -> Option<seq<Hit>>, n: nat)
    requires n < |queries|
    ensures AllHits(queries[..n + 1], search) == AllHits(queries[..n], search) + ResultsOf(queries[n], search)
    ensures AllHits(queries[..n + 1], search) <= AllHits(queries, search)
  {
    assert queries[..n + 1][..n] == queries[..n];
    if n + 1 < |queries| {
      var front := queries[..|queries| - 1];
      HitsInOrder(front, search, n);
      assert front[..n + 1] == queries[..n + 1];
    } else {
      assert queries[..n + 1] == queries;
    }
  }

  predicate Mentions(hits: seq<Hit>, id: string) { exists i :: 0 <= i < |hits| && hits[i].seriesId == id }

  /** The distinct series of the hits, first mention first. */
  method DistinctSeries(hits: seq<Hit>) returns (wanted: seq<string>)
    ensures forall id :: id in wanted <==> Mentions(hits, id)
    ensures forall i, j :: 0 <= i < j < |wanted| ==> wanted[i] != wanted[j]
  {
    wanted := [];
    var seen: set<string> := {};
    for n := 0 to |hits|
      invariant forall id :: id in wanted <==> Mentions(hits[..n], id)
      invariant forall id :: id in seen <==> id in wanted
      invariant forall i, j :: 0 <= i < j < |wanted| ==> wanted[i] != wanted[j]
    {
      var id := hits[n].seriesId;
      MentionsOneMore(hits, n);
      if id in seen { continue; }
      seen := seen + {id};
      wanted := wanted + [id];
    }
    assert hits[..|hits|] == hits;
  }

  lemma MentionsOneMore(hits: seq<Hit>, n: nat)
    requires n < |hits|
    ensures forall id :: Mentions(hits[..n + 1], id) <==> Mentions(hits[..n], id) || hits[n].seriesId == id
  {
    forall id ensures Mentions(hits[..n + 1], id) <==> Mentions(hits[..n], id) || hits[n].seriesId == id {
      if Mentions(hits[..n], id) {
        var i :| 0 <= i < n && hits[..n][i].seriesId == id;
        assert hits[..n + 1][i].seriesId == id;
      }
      if hits[n].seriesId == id { assert hits[..n + 1][n].seriesId == id; }
      if Mentions(hits[..n + 1], id) && hits[n].seriesId != id {
        var i :| 0 <= i < n + 1 && hits[..n + 1][i].seriesId == id;
        assert hits[..n][i].seriesId == id;
      }
    }
  }

  function Ids(wanted: seq<string>): set<string> { set id | id in wanted }

  /** What the concurrent fetches leave behind, in whatever order they complete. */
  ghost predicate Fetched(ids: set<string>, fetch: string -> Fetch, catalogs: map<string, Catalog>) {
    forall id ::
      && (id in catalogs <==> id in ids && fetch(id).Found?)
      && (id in catalogs ==> fetch(id) == Found(catalogs[id]))
  }

  ghost predicate SomeFails(ids: set<string>, fetch: string -> Fetch) { exists id :: id in ids && fetch(id).Fails? }

  /**
   * Each wanted catalog is fetched on its own; one update of the result is atomic, the order of the fetches is not
   * fixed.
   */
  method FetchAll(wanted: seq<string>, fetch: string -> Fetch, before: bool) returns (catalogs: map<string, Catalog>,
                  incomplete: bool)
    ensures Fetched(Ids(wanted), fetch, catalogs)
    ensures incomplete <==> before || SomeFails(Ids(wanted), fetch)
  {
    var all := Ids(wanted);
    var running := all;
    catalogs, incomplete := map[], before;
    while running != {}
      invariant running <= all
      invariant Fetched(all - running, fetch, catalogs)
      invariant incomplete <==> before || SomeFails(all - running, fetch)
    {
      var id :| id in running;
      OneMoreFetch(all - running, all - (running - {id}), id, fetch);
      running := running - {id};
      match fetch(id)
      case Fails => incomplete := true;
      case Missing =>
      case Found(catalog) => catalogs := catalogs[id := catalog];
    }
    assert all - {} == all;
  }

  lemma OneMoreFetch(done: set<string>, done': set<string>, id: string, fetch: string -> Fetch)
    requires done' == done + {id}
    ensures SomeFails(done', fetch) <==> SomeFails(done, fetch) || fetch(id).Fails?
  {
    if SomeFails(done, fetch) {
      var x :| x in done && fetch(x).Fails?;
      assert x in done';
    }
    assert id in done';
  }

  /** Score the hits in their original order. */
  function ScoreAll(hits: seq<Hit>, catalogs: map<string, Catalog>,
                    score: (Hit, Catalog) -> Option<int>): map<string, Candidate> {
    if hits == [] then map[]
    else
      var h, before := hits[|hits| - 1], ScoreAll(hits[..|hits| - 1], catalogs, score);
      if h.seriesId in catalogs then Scored(before, score, h, catalogs[h.seriesId]) else before
  }

  method Score(hits: seq<Hit>, catalogs: map<string, Catalog>, score: (Hit, Catalog) -> Option<int>)
    returns (candidates: map<string, Candidate>)
    ensures candidates == ScoreAll(hits, catalogs, score)
  {
    candidates := map[];
    for n := 0 to |hits|
      invariant candidates == ScoreAll(hits[..n], catalogs, score)
    {
      var h := hits[n];
      assert hits[..n + 1][..n] == hits[..n];
      if h.seriesId !in catalogs { continue; }
      var catalog := catalogs[h.seriesId];
      match score(h, catalog)
      case None =>
      case Some(s) =>
        var c := Candidate(h, catalog, s);
        if catalog.id !in candidates || c.score > candidates[catalog.id].score {
          candidates := candidates[catalog.id := c];
        }
    }
    assert hits[..|hits|] == hits;
  }

  lemma {:induction false} PipelineIsSerial(hits: seq<Hit>, ids: set<string>, catalogs: map<string, Catalog>,
                                            fetch: string -> Fetch, score: (Hit, Catalog) -> Option<int>,
                                            searchFailed: bool)
    requires Fetched(ids, fetch, catalogs) && forall i :: 0 <= i < |hits| ==> hits[i].seriesId in ids
    ensures Serial(hits, fetch, score, searchFailed).candidates == ScoreAll(hits, catalogs, score)
    ensures Serial(hits, fetch, score, searchFailed).incomplete <==>
            searchFailed || exists i :: 0 <= i < |hits| && fetch(hits[i].seriesId).Fails?
  {
    if hits != [] {
      var front, h := hits[..|hits| - 1], hits[|hits| - 1];
      PipelineIsSerial(front, ids, catalogs, fetch, score, searchFailed);
      if exists i :: 0 <= i < |front| && fetch(front[i].seriesId).Fails? {
        var i :| 0 <= i < |front| && fetch(front[i].seriesId).Fails?;
        assert fetch(hits[i].seriesId).Fails?;
      }
      assert forall i :: 0 <= i < |front| ==> front[i] == hits[i];
      assert h.seriesId in ids;
    }
  }

  /** The whole match: the candidates, and the failure flag, are those of the plain loop for every completion order. */
  method MatchSeries(queries: seq<int>, search: int -> Option<seq<Hit>>, fetch: string -> Fetch,
                     score: (Hit, Catalog) -> Option<int>)
    returns (answer: Pick<string>, incomplete: bool)
    ensures incomplete == PlainLoop(queries, search, fetch, score).incomplete
    ensures forall k :: answer == Picked(k) <==> Leads(Scores(PlainLoop(queries, search, fetch, score).candidates), k)
    ensures answer.NoCandidate? <==> PlainLoop(queries, search, fetch, score).candidates == map[]
  {
    var hits, failed := Search(queries, search);
    var wanted := DistinctSeries(hits);
    var catalogs;
    catalogs, incomplete := FetchAll(wanted, fetch, failed);
    var candidates := Score(hits, catalogs, score);
    assert PlainLoop(queries, search, fetch, score) == Serial(hits, fetch, score, failed);
    FailuresAgree(hits, wanted, fetch);
    PipelineIsSerial(hits, Ids(wanted), catalogs, fetch, score, failed);
    answer := SelectSeries(Scores(candidates));
    ScoresEmpty(candidates);
  }

  /** The scores the candidates are compared by. */
  function Scores(candidates: map<string, Candidate>): map<string, int> {
    map k | k in candidates :: candidates[k].score
  }

  lemma ScoresEmpty(candidates: map<string, Candidate>)
    ensures Scores(candidates) == map[] <==> candidates == map[]
  {
    assert Scores(candidates).Keys == candidates.Keys;
    if candidates == map[] { assert Scores(candidates) == map[]; }
    if Scores(candidates) == map[] { assert candidates.Keys == {}; assert candidates == map[]; }
  }

  lemma FailuresAgree(hits: seq<Hit>, wanted: seq<string>, fetch: string -> Fetch)
    requires forall id :: id in wanted <==> Mentions(hits, id)
    ensures (exists i :: 0 <= i < |hits| && fetch(hits[i].seriesId).Fails?) <==> SomeFails(Ids(wanted), fetch)
    ensures forall i :: 0 <= i < |hits| ==> hits[i].seriesId in Ids(wanted)
  {
    var ids := Ids(wanted);
    forall i | 0 <= i < |hits| ensures hits[i].seriesId in ids { assert Mentions(hits, hits[i].seriesId); }
    if SomeFails(ids, fetch) {
      var id :| id in ids && fetch(id).Fails?;
      var i :| 0 <= i < |hits| && hits[i].seriesId == id;
      assert fetch(hits[i].seriesId).Fails?;
    }
  }
}
