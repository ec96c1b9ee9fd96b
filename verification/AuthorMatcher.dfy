// Finding a local author by name: exact names and aliases, then normalized ones, then fuzzy evidence.

module AuthorMatcher {
  import opened Common
  import opened Text
  import opened Matching

  type Id = nat

  datatype Author = Author(id: Id, name: string)

  /** Another name of an author; how it was recorded decides whether it is trusted for that author. */
  datatype Alias = Alias(authorId: Id, name: string, origin: int)

  datatype How = ByName | ByAlias | ByNormalizedName | ByNormalizedAlias | ByFuzzyName | ByFuzzyAlias

  datatype Answer = Found(author: Id, how: How) | Review | Unknown

  // ----- what the tiers go by -----

  /** Some author, or some trusted alias, has a name m accepts. */
  predicate NamedBy(all: seq<Author>, m: string -> bool, id: Id) {
    exists i :: 0 <= i < |all| && all[i].id == id && m(all[i].name)
  }

  predicate AliasedBy(aliases: seq<Alias>, trusted: Alias -> bool, m: string -> bool, id: Id) {
    exists i :: 0 <= i < |aliases| && aliases[i].authorId == id && m(aliases[i].name) && trusted(aliases[i])
  }

  /** The authors a tier accepts, each with whether only an alias led to it. */
  ghost predicate TierOf(all: seq<Author>, aliases: seq<Alias>, trusted: Alias -> bool, m: string -> bool,
                         found: map<Id, bool>) {
    forall id ::
      && (id in found <==> NamedBy(all, m, id) || AliasedBy(aliases, trusted, m, id))
      && (id in found ==> (found[id] <==> !NamedBy(all, m, id)))
  }

  /** One piece of fuzzy evidence for an author. */
  datatype Clue = Clue(author: Id, weight: real, fromAlias: bool)

  /** The strongest evidence of each author; an alias is credited only where no direct name is as strong. */
  ghost predicate BestOf(clues: seq<Clue>, best: map<Id, Evidence>) {
    && (forall i :: 0 <= i < |clues| ==> clues[i].author in best && clues[i].weight <= best[clues[i].author].weight)
    && (forall id :: id in best ==> HasClue(clues, Clue(id, best[id].weight, best[id].fromAlias)))
    && (forall id :: id in best && best[id].fromAlias ==> !HasClue(clues, Clue(id, best[id].weight, false)))
  }

  ghost predicate HasClue(clues: seq<Clue>, c: Clue) { c in clues }

  lemma BestIsUnique(clues: seq<Clue>, clues': seq<Clue>, best: map<Id, Evidence>, best': map<Id, Evidence>)
    requires BestOf(clues, best) && BestOf(clues', best') && forall c :: c in clues <==> c in clues'
    ensures best == best'
  {
    forall c ensures HasClue(clues, c) <==> HasClue(clues', c) {}
    forall id ensures id in best <==> id in best' {
      if id in best { assert HasClue(clues, Clue(id, best[id].weight, best[id].fromAlias)); }
      if id in best' { assert HasClue(clues', Clue(id, best'[id].weight, best'[id].fromAlias)); }
    }
    forall id | id in best ensures best[id] == best'[id] {
      assert HasClue(clues, Clue(id, best[id].weight, best[id].fromAlias));
      assert HasClue(clues', Clue(id, best'[id].weight, best'[id].fromAlias));
      assert HasClue(clues, Clue(id, best'[id].weight, best'[id].fromAlias));
      assert best[id].weight == best'[id].weight;
    }
  }

  method CollectEvidence(clues: seq<Clue>) returns (best: map<Id, Evidence>)
    ensures BestOf(clues, best)
  {
    best := map[];
    for n := 0 to |clues|
      invariant BestOf(clues[..n], best)
    {
      var c := clues[n];
      assert clues[..n + 1] == clues[..n] + [c];
      ghost var was := best;
      if c.author !in best || c.weight > best[c.author].weight {
        best := best[c.author := Evidence(c.weight, c.fromAlias)];
      } else if c.weight == best[c.author].weight && best[c.author].fromAlias && !c.fromAlias {
        best := best[c.author := Evidence(c.weight, false)];
      }
      OneMoreClue(clues[..n], c, was, best);
    }
    assert clues[..|clues|] == clues;
  }

  lemma OneMoreClue(clues: seq<Clue>, c: Clue, was: map<Id, Evidence>, best: map<Id, Evidence>)
    requires BestOf(clues, was)
    requires best == if c.author !in was || c.weight > was[c.author].weight
                     then was[c.author := Evidence(c.weight, c.fromAlias)]
                     else if c.weight == was[c.author].weight && was[c.author].fromAlias && !c.fromAlias
                     then was[c.author := Evidence(c.weight, false)]
                     else was
    ensures BestOf(clues + [c], best)
  {
    var more := clues + [c];
    forall x ensures HasClue(more, x) <==> HasClue(clues, x) || x == c {}
    forall i | 0 <= i < |more| ensures more[i].author in best && more[i].weight <= best[more[i].author].weight {
      if i < |clues| { assert more[i] == clues[i]; }
    }
    forall id | id in best && best[id].fromAlias ensures !HasClue(more, Clue(id, best[id].weight, false)) {
      forall i | 0 <= i < |clues| ensures clues[i] != Clue(id, best[id].weight, false) {
        assert HasClue(clues, clues[i]);
      }
    }
  }

  // ----- the matcher -----

  class Matcher {
    var all: seq<Author>
    var aliases: seq<Alias>
    var loaded: set<(Id, string)>

    constructor ()
      ensures all == [] && aliases == [] && Valid()
    {
      all, aliases, loaded := [], [], {};
    }

    /** Each author is listed once, and each alias once per author up to case and surrounding space. */
    ghost predicate Valid()
      reads this
    {
      && (forall i, j :: 0 <= i < j < |all| ==> all[i].id != all[j].id)
      && (forall i :: 0 <= i < |all| ==> all[i].id != 0)
      && (forall i, j :: 0 <= i < j < |aliases| ==> AliasKey(aliases[i]) != AliasKey(aliases[j]))
      && (forall i :: 0 <= i < |aliases| ==>
            aliases[i].authorId != 0 && aliases[i].name != "" && AliasKey(aliases[i]) in loaded)
    }

    function AliasKey(a: Alias): (Id, string) { (a.authorId, Lower(a.name)) }

    /** A known author is refreshed in place; a new one is added. */
    method AddAuthor(a: Author)
      requires Valid()
      modifies this`all
      ensures Valid()
      ensures a.id == 0 ==> all == old(all)
      ensures a.id != 0 ==> a in all && forall b :: b in all ==> b == a || b in old(all)
      ensures forall b :: b in old(all) && b.id != a.id ==> b in all
    {
      if a.id == 0 { return; }
      ghost var was := all;
      for n := 0 to |all|
        invariant all == was && forall i :: 0 <= i < n ==> all[i].id != a.id
      {
        if all[n].id == a.id {
          all := all[n := a];
          assert all[n] == a;
          forall b | b in was && b.id != a.id ensures b in all {
            var i :| 0 <= i < |was| && was[i] == b;
            assert all[i] == b;
          }
          return;
        }
      }
      all := all + [a];
    }

    method AddAlias(alias: Alias)
      requires Valid()
      modifies this`aliases, this`loaded
      ensures Valid()
      ensures var a := alias.(name := Trim(alias.name));
              aliases == if a.authorId == 0 || a.name == "" || AliasKey(a) in old(loaded) then old(aliases)
                         else old(aliases) + [a]
    {
      var a := alias.(name := Trim(alias.name));
      if a.authorId == 0 || a.name == "" || AliasKey(a) in loaded { return; }
      loaded := loaded + {AliasKey(a)};
      aliases := aliases + [a];
    }

    /** One exact tier: authors by name, then by trusted alias. */
    method Tier(m: string -> bool, trusted: Alias -> bool) returns (found: map<Id, bool>)
      ensures TierOf(all, aliases, trusted, m, found)
    {
      found := map[];
      for n := 0 to |all|
        invariant forall id :: id in found <==> NamedBy(all[..n], m, id)
        invariant forall id :: id in found ==> !found[id]
      {
        assert all[..n + 1] == all[..n] + [all[n]];
        NamedOneMore(all[..n], all[n], m);
        if m(all[n].name) { found := found[all[n].id := false]; }
      }
      assert all[..|all|] == all;
      for n := 0 to |aliases|
        invariant forall id :: id in found <==> NamedBy(all, m, id) || AliasedBy(aliases[..n], trusted, m, id)
        invariant forall id :: id in found ==> (found[id] <==> !NamedBy(all, m, id))
      {
        var a := aliases[n];
        assert aliases[..n + 1] == aliases[..n] + [a];
        AliasedOneMore(aliases[..n], a, trusted, m);
        if m(a.name) && trusted(a) && a.authorId !in found { found := found[a.authorId := true]; }
      }
      assert aliases[..|aliases|] == aliases;
    }

    /** Every author and trusted alias with some evidence for the name. */
    method Clues(weight: string -> Option<real>, trusted: Alias -> bool) returns (clues: seq<Clue>)
      ensures clues == NameClues(all, weight) + AliasClues(aliases, weight, trusted)
    {
      clues := [];
      for n := 0 to |all|
        invariant clues == NameClues(all[..n], weight)
      {
        assert all[..n + 1][..n] == all[..n];
        match weight(all[n].name)
        case Some(w) => clues := clues + [Clue(all[n].id, w, false)];
        case None =>
      }
      assert all[..|all|] == all;
      ghost var named := clues;
      for n := 0 to |aliases|
        invariant clues == named + AliasClues(aliases[..n], weight, trusted)
      {
        var a := aliases[n];
        assert aliases[..n + 1][..n] == aliases[..n];
        match weight(a.name)
        case Some(w) => if trusted(a) { clues := clues + [Clue(a.authorId, w, true)]; }
        case None =>
      }
      assert aliases[..|aliases|] == aliases;
    }

    /**
     * Find the author of a name. A tier that accepts several authors, and fuzzy evidence without a lone leader, go to
     * review; a tier that accepts one author decides.
     */
    method FindByName(exact: string -> bool, normalized: string -> bool, weight: string -> Option<real>,
                      trusted: Alias -> bool)
      returns (answer: Answer)
      ensures forall id :: Lone(all, aliases, trusted, exact, id) ==>
                answer == Found(id, if NamedBy(all, exact, id) then ByName else ByAlias)
      ensures Several(all, aliases, trusted, exact) ==> answer == Review
      ensures forall id :: Nobody(all, aliases, trusted, exact) && Lone(all, aliases, trusted, normalized, id) ==>
                answer == Found(id, if NamedBy(all, normalized, id) then ByNormalizedName else ByNormalizedAlias)
      ensures Nobody(all, aliases, trusted, exact) && Several(all, aliases, trusted, normalized) ==> answer == Review
      ensures forall best ::
                (&& Nobody(all, aliases, trusted, exact) && Nobody(all, aliases, trusted, normalized)
                 && EvidenceOf(all, aliases, weight, trusted, best)) ==> ByEvidence(best, answer)
      ensures forall t1, t2, best ::
                (&& TierOf(all, aliases, trusted, exact, t1) && TierOf(all, aliases, trusted, normalized, t2)
                 && EvidenceOf(all, aliases, weight, trusted, best)) ==> answer == Decision(t1, t2, best)
    {
      var found1 := Tier(exact, trusted);
      var found2 := Tier(normalized, trusted);
      var clues := Clues(weight, trusted);
      var evidence := CollectEvidence(clues);
      answer := Decide(found1, found2, evidence);
      forall t1, t2, best | TierOf(all, aliases, trusted, exact, t1) && TierOf(all, aliases, trusted, normalized, t2)
                            && EvidenceOf(all, aliases, weight, trusted, best)
        ensures answer == Decision(t1, t2, best)
      {
        TiersIgnoreOrder(all, all, aliases, aliases, trusted, exact, found1, t1);
        TiersIgnoreOrder(all, all, aliases, aliases, trusted, normalized, found2, t2);
        EvidenceIgnoresOrder(all, all, aliases, aliases, weight, trusted, evidence, best);
      }
      TierDecides(all, aliases, trusted, exact, found1);
      TierDecides(all, aliases, trusted, normalized, found2);
      forall best | EvidenceOf(all, aliases, weight, trusted, best) ensures best == evidence {
        EvidenceIgnoresOrder(all, all, aliases, aliases, weight, trusted, evidence, best);
      }
      if found1 == map[] && found2 == map[] { EvidenceDecides(found1, found2, evidence); }
    }

    /** A tier with candidates decides; without one, the evidence does. */
    method Decide(found1: map<Id, bool>, found2: map<Id, bool>, evidence: map<Id, Evidence>) returns (answer: Answer)
      ensures answer == Decision(found1, found2, evidence)
    {
      if found1 != map[] {
        var id :| id in found1;
        OneKey(found1, id);
        assert Only(found1, id) <==> |found1| == 1;
        assert forall j :: Only(found1, j) ==> j == id;
        return (if |found1| == 1 then Found(id, if found1[id] then ByAlias else ByName) else Review);
      }
      if found2 != map[] {
        var id :| id in found2;
        OneKey(found2, id);
        assert Only(found2, id) <==> |found2| == 1;
        assert forall j :: Only(found2, j) ==> j == id;
        return (if |found2| == 1 then Found(id, if found2[id] then ByNormalizedAlias else ByNormalizedName)
                else Review);
      }
      var pick := PickAuthor(evidence);
      match pick
      case NoCandidate => answer := Unknown;
      case Ambiguous => answer := Review; NobodyStandsAlone(evidence, pick);
      case Picked(id) =>
        answer := Found(id, if evidence[id].fromAlias then ByFuzzyAlias else ByFuzzyName);
        assert StandsAlone(evidence, id);
    }
  }

  lemma NobodyStandsAlone(best: map<Id, Evidence>, pick: Pick<Id>)
    requires pick.Ambiguous? && forall k: Id :: pick == Picked(k) <==> StandsAlone(best, k)
    ensures forall k: Id :: !StandsAlone(best, k)
  {
  }

  lemma OneKey(m: map<Id, bool>, id: Id)
    requires id in m
    ensures |m| == 1 <==> forall j :: j in m ==> j == id
  {
    assert |m.Keys| == |m|;
    if forall j :: j in m ==> j == id { assert m.Keys == {id}; }
    if exists j :: j in m && j != id {
      var j :| j in m && j != id;
      CardinalityMonotone({j, id}, m.Keys);
    }
  }

  lemma NamedOneMore(all: seq<Author>, a: Author, m: string -> bool)
    ensures forall id :: NamedBy(all + [a], m, id) <==> NamedBy(all, m, id) || (a.id == id && m(a.name))
  {
    forall id ensures NamedBy(all + [a], m, id) <==> NamedBy(all, m, id) || (a.id == id && m(a.name)) {
      if NamedBy(all, m, id) {
        var i :| 0 <= i < |all| && all[i].id == id && m(all[i].name);
        assert (all + [a])[i] == all[i];
      }
      assert (all + [a])[|all|] == a;
    }
  }

  lemma AliasedOneMore(aliases: seq<Alias>, a: Alias, trusted: Alias -> bool, m: string -> bool)
    ensures forall id :: AliasedBy(aliases + [a], trusted, m, id) <==>
                         AliasedBy(aliases, trusted, m, id) || (a.authorId == id && m(a.name) && trusted(a))
  {
    forall id ensures AliasedBy(aliases + [a], trusted, m, id) <==>
                      AliasedBy(aliases, trusted, m, id) || (a.authorId == id && m(a.name) && trusted(a)) {
      if AliasedBy(aliases, trusted, m, id) {
        var i :| 0 <= i < |aliases| && aliases[i].authorId == id && m(aliases[i].name) && trusted(aliases[i]);
        assert (aliases + [a])[i] == aliases[i];
      }
      assert (aliases + [a])[|aliases|] == a;
    }
  }

  function NameClues(all: seq<Author>, weight: string -> Option<real>): seq<Clue> {
    if all == [] then []
    else
      var a := all[|all| - 1];
      NameClues(all[..|all| - 1], weight) +
      (match weight(a.name) case Some(w) => [Clue(a.id, w, false)] case None => [])
  }

  function AliasClues(aliases: seq<Alias>, weight: string -> Option<real>, trusted: Alias -> bool): seq<Clue> {
    if aliases == [] then []
    else
      var a := aliases[|aliases| - 1];
      AliasClues(aliases[..|aliases| - 1], weight, trusted) +
      (match weight(a.name) case Some(w) => if trusted(a) then [Clue(a.authorId, w, true)] else [] case None => [])
  }

  /** The strongest evidence of each author among all clues. */
  ghost predicate EvidenceOf(all: seq<Author>, aliases: seq<Alias>, weight: string -> Option<real>,
                             trusted: Alias -> bool,
                             best: map<Id, Evidence>) {
    BestOf(NameClues(all, weight) + AliasClues(aliases, weight, trusted), best)
  }

  lemma {:induction false} NameClueFrom(all: seq<Author>, weight: string -> Option<real>, c: Clue)
    ensures c in NameClues(all, weight) <==> !c.fromAlias && exists a :: a in all && NameGives(a, weight, c)
  {
    if all != [] {
      var front, last := all[..|all| - 1], all[|all| - 1];
      assert all == front + [last];
      NameClueFrom(front, weight, c);
      assert forall a :: a in all <==> a in front || a == last;
      assert c in NameClues(all, weight) <==>
             c in NameClues(front, weight) || (!c.fromAlias && NameGives(last, weight, c));
    }
  }

  lemma {:induction false} AliasClueFrom(aliases: seq<Alias>, weight: string -> Option<real>, trusted: Alias -> bool,
                                         c: Clue)
    ensures c in AliasClues(aliases, weight, trusted) <==>
            c.fromAlias && exists a :: a in aliases && AliasGives(a, weight, trusted, c)
  {
    if aliases != [] {
      var front, last := aliases[..|aliases| - 1], aliases[|aliases| - 1];
      assert aliases == front + [last];
      AliasClueFrom(front, weight, trusted, c);
      assert forall a :: a in aliases <==> a in front || a == last;
      assert c in AliasClues(aliases, weight, trusted) <==>
             c in AliasClues(front, weight, trusted) || (c.fromAlias && AliasGives(last, weight, trusted, c));
    }
  }

  predicate NameGives(a: Author, weight: string -> Option<real>,
                      c: Clue) { a.id == c.author && weight(a.name) == Some(c.weight) }

  predicate AliasGives(a: Alias, weight: string -> Option<real>, trusted: Alias -> bool, c: Clue) {
    a.authorId == c.author && trusted(a) && weight(a.name) == Some(c.weight)
  }

  /** The evidence is determined by the authors and aliases, whatever order they are listed in. */
  lemma EvidenceIgnoresOrder(all: seq<Author>, all': seq<Author>, aliases: seq<Alias>, aliases': seq<Alias>,
                             weight: string -> Option<real>, trusted: Alias -> bool,
                             best: map<Id, Evidence>, best': map<Id, Evidence>)
    requires (forall a :: a in all <==> a in all') && (forall a :: a in aliases <==> a in aliases')
    requires EvidenceOf(all, aliases, weight, trusted, best) && EvidenceOf(all', aliases', weight, trusted, best')
    ensures best == best'
  {
    var clues := NameClues(all, weight) + AliasClues(aliases, weight, trusted);
    var clues' := NameClues(all', weight) + AliasClues(aliases', weight, trusted);
    forall c ensures c in clues <==> c in clues' {
      NameClueFrom(all, weight, c);
      NameClueFrom(all', weight, c);
      AliasClueFrom(aliases, weight, trusted, c);
      AliasClueFrom(aliases', weight, trusted, c);
    }
    BestIsUnique(clues, clues', best, best');
  }

  ghost predicate Only(m: map<Id, bool>, id: Id) { id in m && forall j :: j in m ==> j == id }

  /** A tier accepts this author and no other, several authors, or none. */
  ghost predicate Accepted(all: seq<Author>, aliases: seq<Alias>, trusted: Alias -> bool, m: string -> bool, id: Id) {
    NamedBy(all, m, id) || AliasedBy(aliases, trusted, m, id)
  }

  ghost predicate Lone(all: seq<Author>, aliases: seq<Alias>, trusted: Alias -> bool, m: string -> bool, id: Id) {
    && Accepted(all, aliases, trusted, m, id)
    && forall j :: Accepted(all, aliases, trusted, m, j) ==> j == id
  }

  ghost predicate Several(all: seq<Author>, aliases: seq<Alias>, trusted: Alias -> bool, m: string -> bool) {
    exists i, j :: i != j && Accepted(all, aliases, trusted, m, i) && Accepted(all, aliases, trusted, m, j)
  }

  ghost predicate Nobody(all: seq<Author>, aliases: seq<Alias>, trusted: Alias -> bool, m: string -> bool) {
    forall id :: !Accepted(all, aliases, trusted, m, id)
  }

  lemma TierDecides(all: seq<Author>, aliases: seq<Alias>, trusted: Alias -> bool, m: string -> bool,
                    found: map<Id, bool>)
    requires TierOf(all, aliases, trusted, m, found)
    ensures Nobody(all, aliases, trusted, m) <==> found == map[]
    ensures Several(all, aliases, trusted, m) ==> forall id :: !Only(found, id)
    ensures forall id :: Lone(all, aliases, trusted, m, id) ==>
              && Only(found, id) && (forall j :: Only(found, j) ==> j == id)
              && (found[id] <==> !NamedBy(all, m, id))
  {
    assert forall id :: id in found <==> Accepted(all, aliases, trusted, m, id);
    if Several(all, aliases, trusted, m) {
      var i, j :| i != j && Accepted(all, aliases, trusted, m, i) && Accepted(all, aliases, trusted, m, j);
      assert i in found && j in found;
    }
  }

  /** Without a candidate by name, one whose evidence stands alone is the answer; several go to review. */
  ghost predicate ByEvidence(best: map<Id, Evidence>, answer: Answer) {
    && (best == map[] ==> answer == Unknown)
    && (best != map[] && (forall id :: !StandsAlone(best, id)) ==> answer == Review)
    && forall id :: StandsAlone(best, id) ==>
         answer == Found(id, if best[id].fromAlias then ByFuzzyAlias else ByFuzzyName)
  }

  lemma EvidenceDecides(t1: map<Id, bool>, t2: map<Id, bool>, best: map<Id, Evidence>)
    requires t1 == map[] && t2 == map[]
    ensures ByEvidence(best, Decision(t1, t2, best))
  {
    forall i, j | StandsAlone(best, i) && StandsAlone(best, j) ensures i == j {}
  }

  /** The answer the tiers and the evidence determine. */
  ghost function Decision(t1: map<Id, bool>, t2: map<Id, bool>, best: map<Id, Evidence>): Answer {
    if t1 != map[] then
      if exists id :: Only(t1, id) then
        var id :| Only(t1, id); Found(id, if t1[id] then ByAlias else ByName)
      else Review
    else if t2 != map[] then
      if exists id :: Only(t2, id) then
        var id :| Only(t2, id); Found(id, if t2[id] then ByNormalizedAlias else ByNormalizedName)
      else Review
    else if best == map[] then Unknown
    else if exists id :: StandsAlone(best, id) then
      var id :| StandsAlone(best, id); Found(id, if best[id].fromAlias then ByFuzzyAlias else ByFuzzyName)
    else Review
  }

  /** What the tiers accept is determined by the authors and aliases, whatever order they are listed in. */
  lemma TiersIgnoreOrder(all: seq<Author>, all': seq<Author>, aliases: seq<Alias>, aliases': seq<Alias>,
                         trusted: Alias -> bool, m: string -> bool, t: map<Id, bool>, t': map<Id, bool>)
    requires (forall a :: a in all <==> a in all') && (forall a :: a in aliases <==> a in aliases')
    requires TierOf(all, aliases, trusted, m, t) && TierOf(all', aliases', trusted, m, t')
    ensures t == t'
  {
    forall id ensures NamedBy(all, m, id) == NamedBy(all', m, id) {
      SameNamed(all, all', m, id);
      SameNamed(all', all, m, id);
    }
    forall id ensures AliasedBy(aliases, trusted, m, id) == AliasedBy(aliases', trusted, m, id) {
      SameAliased(aliases, aliases', trusted, m, id);
      SameAliased(aliases', aliases, trusted, m, id);
    }
    assert t.Keys == t'.Keys;
  }

  lemma SameNamed(all: seq<Author>, all': seq<Author>, m: string -> bool, id: Id)
    requires forall a :: a in all ==> a in all'
    ensures NamedBy(all, m, id) ==> NamedBy(all', m, id)
  {
    if NamedBy(all, m, id) {
      var i :| 0 <= i < |all| && all[i].id == id && m(all[i].name);
      assert all[i] in all';
      var j :| 0 <= j < |all'| && all'[j] == all[i];
    }
  }

  lemma SameAliased(aliases: seq<Alias>, aliases': seq<Alias>, trusted: Alias -> bool, m: string -> bool, id: Id)
    requires forall a :: a in aliases ==> a in aliases'
    ensures AliasedBy(aliases, trusted, m, id) ==> AliasedBy(aliases', trusted, m, id)
  {
    if AliasedBy(aliases, trusted, m, id) {
      var i :| 0 <= i < |aliases| && aliases[i].authorId == id && m(aliases[i].name) && trusted(aliases[i]);
      assert aliases[i] in aliases';
      var j :| 0 <= j < |aliases'| && aliases'[j] == aliases[i];
    }
  }
}
