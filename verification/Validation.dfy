/**
 One address validation from resolved evidence to reported status: build the candidates, recover
 further evidence once, rebuild with it, evaluate and rank; and what recovery may change.
 */
module Validation {
  import opened Wrappers
  import opened Model
  import opened Candidates
  import opened Conclusions
  import opened Evaluation
  import opened Hierarchy
  import opened Confidence
  import opened Frontier
  import opened KnownRegions
  import opened Neighborhood
  import opened Pipeline
  import opened Ranking
  import opened Recovery
  import opened RecoverySafety
  import Normalizer

  const STRATEGIES: seq<Strategy> := [TopDown, AnyLevel]

  /** The candidates before and after recovery, and what recovery found. */
  datatype Passes = Passes(first: seq<AdminCandidate>, trace: Trace, found: Found, second: seq<AdminCandidate>)

  ghost predicate Built(r: seq<AdminCandidate>, resolved: seq<ResolvedEvidence>, a: Atlas) {
    ConclusionsOf(r, EnrichedAll(Discovered(resolved, STRATEGIES), a), a.hierarchy, resolved)
  }

  ghost predicate TwoPasses(p: Passes, resolved: seq<ResolvedEvidence>, normalized: string, roadTokens: set<string>,
                            a: Atlas) {
    && Built(p.first, resolved, a)
    && Prepared(p.trace, p.first, resolved, normalized, roadTokens, a) && RecoveryOf(p.found, p.trace)
    && Built(p.second, resolved + p.found.recovered, a)
  }

  method ValidateAddress(index: LocationIndex, resolved: seq<ResolvedEvidence>, evidence: seq<Evidence>,
                         normalized: string,
                         roadTokens: set<string>)
    returns (scored: seq<Scored>, status: Status, ghost p: Passes)
    requires index.Valid()
    modifies index
    ensures index.Valid() && TwoPasses(p, resolved, normalized, roadTokens, index.atlas)
    ensures multiset(scored) == multiset(ScoredAll(p.second, index.atlas.hierarchy, Kept(evidence, p.found.explained)))
    ensures Ranked(scored) && status == ResponseStatus(scored)
  {
    hide ConclusionsOf, Prepared, RecoveryOf, ScoredAll, Ranked, Kept, EnrichedAll, Discovered;
    var candidates := BuildCandidates(resolved, STRATEGIES, index.atlas);
    ghost var first := candidates;
    var found;
    ghost var trace;
    found, trace := RecoverContextualEvidence(index, candidates, resolved, normalized, roadTokens);
    if |found.recovered| > 0 {
      candidates := BuildCandidates(resolved + found.recovered, STRATEGIES, index.atlas);
    } else {
      assert resolved + found.recovered == resolved;
    }
    p := Passes(first, trace, found, candidates);
    var left := EvidenceWithoutValues(evidence, found.explained);
    scored := EvaluateCandidates(candidates, index.atlas.hierarchy, left);
    status := ReportStatus(scored);
  }

  // ---------- Recovery only adds ----------

  lemma OriginsNonZero(resolved: seq<ResolvedEvidence>, recovered: seq<ResolvedEvidence>)
    requires forall e :: e in Offered(resolved + recovered) ==> e.id != 0
    ensures NonZero(Origins(resolved + recovered))
  {
    hide OfLevel, Fresh, Offered;
    OriginsAreProper(resolved + recovered);
    FreshIs(Offered(resolved + recovered), {});
    var es := Origins(resolved + recovered);
    assert forall i :: 0 <= i < |es| ==> es[i] in es;
  }

  /** No id of any evidence is zero. */
  ghost predicate PositiveIds(resolved: seq<ResolvedEvidence>) {
    forall e :: e in Offered(resolved) ==> e.id != 0
  }

  lemma AllIdsNonZero(p: Passes, resolved: seq<ResolvedEvidence>, normalized: string, roadTokens: set<string>, a: Atlas)
    requires TwoPasses(p, resolved, normalized, roadTokens, a) && PositiveIds(resolved)
    ensures AllNew(resolved, p.found.recovered)
    ensures NonZero(Origins(resolved + p.found.recovered))
  {
    hide Offered, Prepared, RecoveryOf, ConclusionsOf, Origins, AllNew;
    RecoveredAllNew(p.found, p.trace, p.first, resolved, normalized, roadTokens, a);
    OfferedConcat(resolved, p.found.recovered);
    OriginsNonZero(resolved, p.found.recovered);
  }

  /** Every location of the first build is still there, and there is exactly one more candidate for
      every recovered entity. */
  lemma SecondPassOnlyAdds(p: Passes, resolved: seq<ResolvedEvidence>, normalized: string, roadTokens: set<string>,
                           a: Atlas)
    requires TwoPasses(p, resolved, normalized, roadTokens, a) && PositiveIds(resolved)
    ensures |p.second| == |p.first| + |Offered(p.found.recovered)|
    ensures forall c :: c in p.first ==> HasLocation(p.second, c.location)
  {
    hide Offered, Prepared, RecoveryOf, ConclusionsOf, Origins, AllNew, HasLocation, PositiveIds;
    AllIdsNonZero(p, resolved, normalized, roadTokens, a);
    RebuildOnlyAdds(resolved, p.found.recovered, STRATEGIES, a, p.first, p.second);
  }

  // ---------- Recovery never lowers a confidence ----------

  lemma Cons(es: seq<MatchedEvidence>, ev: Evidence, rest: seq<Evidence>, explained: set<string>)
    ensures Unused(es, [ev] + rest) == (if Uses(es, ev.value) then [] else [ev]) + Unused(es, rest)
    ensures Kept([ev] + rest, explained) == (if ev.value in explained then [] else [ev]) + Kept(rest, explained)
  {
    hide Uses;
    assert ([ev] + rest)[1..] == rest;
  }

  lemma {:induction false} UnusedOfKept(es: seq<MatchedEvidence>, all: seq<Evidence>, explained: set<string>)
    ensures Unused(es, Kept(all, explained)) == Kept(Unused(es, all), explained)
    ensures |Unused(es, Kept(all, explained))| <= |Unused(es, all)|
  {
    if all != [] {
      var ev, rest := all[0], all[1..];
      assert all == [ev] + rest;
      UnusedOfKept(es, rest, explained);
      hide Uses, Unused, Kept;
      Cons(es, ev, rest, explained);
      Cons(es, ev, Kept(rest, explained), explained);
      Cons(es, ev, Unused(es, rest), explained);
      assert [] + Unused(es, rest) == Unused(es, rest) && [] + Kept(rest, explained) == Kept(rest, explained);
    }
  }

  /** The region ids of all resolved evidence, postal evidence included, name one level each. */
  ghost predicate OneLevelEach(resolved: seq<ResolvedEvidence>) {
    forall i, j, e, f ::
      0 <= i < |resolved| && 0 <= j < |resolved|
      && e in resolved[i].candidates && f in resolved[j].candidates && e.id == f.id ==>
        e.level == f.level
  }

  lemma {:induction false} MatchesAmongAre(c: AdminCandidate, ev: Evidence, es: seq<Entity>)
    ensures forall me :: me in MatchesAmong(c, ev, es) ==> me.evidence == ev && me.resolved.Some? && me.resolved.value in es
  {
    if es != [] {
      MatchesAmongAre(c, ev, es[1..]);
    }
  }

  ghost predicate MatchedFrom(me: MatchedEvidence, re: ResolvedEvidence) {
    me.evidence == re.evidence && me.resolved.Some? && me.resolved.value in re.candidates
  }

  ghost predicate MatchedFromSome(me: MatchedEvidence, resolved: seq<ResolvedEvidence>) {
    exists i :: 0 <= i < |resolved| && MatchedFrom(me, resolved[i])
  }

  lemma FromHeadOrTail(me: MatchedEvidence, resolved: seq<ResolvedEvidence>)
    requires resolved != []
    ensures MatchedFrom(me, resolved[0]) || MatchedFromSome(me, resolved[1..]) ==> MatchedFromSome(me, resolved)
  {
    hide MatchedFrom;
    var rest := resolved[1..];
    if MatchedFromSome(me, rest) {
      var i :| 0 <= i < |rest| && MatchedFrom(me, rest[i]);
      assert resolved[i + 1] == rest[i];
    }
  }

  lemma {:induction false} MatchesAre(c: AdminCandidate, resolved: seq<ResolvedEvidence>)
    ensures forall me :: me in Matches(c, resolved) ==> MatchedFromSome(me, resolved)
  {
    if resolved != [] {
      hide MatchesAmong, MatchedFromSome;
      MatchesAmongAre(c, resolved[0].evidence, resolved[0].candidates);
      MatchesAre(c, resolved[1..]);
      forall me | me in Matches(c, resolved)
        ensures MatchedFromSome(me, resolved)
      {
        FromHeadOrTail(me, resolved);
      }
    }
  }

  lemma MatchesNameOneLevel(c: AdminCandidate, resolved: seq<ResolvedEvidence>)
    requires OneLevelEach(resolved)
    ensures OneLevelPerId(Matches(c, resolved))
  {
    hide Matches;
    var ms := Matches(c, resolved);
    MatchesAre(c, resolved);
    forall x, y | 0 <= x < |ms| && 0 <= y < |ms| && SameId(ms[x], ms[y])
      ensures ms[x].resolved.value.level == ms[y].resolved.value.level
    {
      assert ms[x] in ms && ms[y] in ms;
      assert MatchedFromSome(ms[x], resolved) && MatchedFromSome(ms[y], resolved);
      var i :| 0 <= i < |resolved| && MatchedFrom(ms[x], resolved[i]);
      var j :| 0 <= j < |resolved| && MatchedFrom(ms[y], resolved[j]);
    }
  }

  ghost predicate AtLeastAsConfident(d: AdminCandidate, left: seq<Evidence>, c: AdminCandidate, all: seq<Evidence>,
                                     a: Atlas) {
    d.location == c.location && EvaluatedConfidence(c, a.hierarchy, all) <= EvaluatedConfidence(d, a.hierarchy, left)
  }

  /** A candidate that gains evidence while the list of evidence loses items. */
  lemma MoreEvidenceFewerLeft(c: AdminCandidate, d: AdminCandidate, more: seq<MatchedEvidence>, all: seq<Evidence>,
                              explained: set<string>, a: Atlas)
    requires d == c.(evidence := c.evidence + more) && OneLevelPerId(d.evidence)
    ensures AtLeastAsConfident(d, Kept(all, explained), c, all, a)
  {
    hide OneLevelPerId, RawScore, Judged, Unused;
    AppendingEvidenceNeverLowers(c, more, a.hierarchy, all);
    UnusedOfKept(d.evidence, all, explained);
  }

  lemma SameOriginAfterRecovery(e: Entity, resolved: seq<ResolvedEvidence>, recovered: seq<ResolvedEvidence>, a: Atlas,
                                all: seq<Evidence>, explained: set<string>)
    requires OneLevelEach(resolved + recovered)
    ensures AtLeastAsConfident(Final(e, STRATEGIES, a, resolved + recovered), Kept(all, explained),
                               Final(e, STRATEGIES, a, resolved), all, a)
  {
    hide Matches, Enriched, OneLevelEach, OneLevelPerId, AtLeastAsConfident;
    var base := Enriched(Seed(e, STRATEGIES), a);
    MatchesConcat(base, resolved, recovered);
    MatchesNameOneLevel(base, resolved + recovered);
    MoreEvidenceFewerLeft(Final(e, STRATEGIES, a, resolved), Final(e, STRATEGIES, a, resolved + recovered),
                          Matches(base, recovered), all, explained, a);
  }

  lemma SameCandidateFewerLeft(c: AdminCandidate, all: seq<Evidence>, explained: set<string>, a: Atlas)
    requires c.evidence == []
    ensures AtLeastAsConfident(c, Kept(all, explained), c, all, a)
  {
    hide AtLeastAsConfident;
    assert c.evidence + [] == [];
    MoreEvidenceFewerLeft(c, c, [], all, explained, a);
  }

  // ---------- Every evidence names known regions ----------

  lemma FirstPassKnown(p: Passes, resolved: seq<ResolvedEvidence>, normalized: string, roadTokens: set<string>,
                       a: Atlas,
                       c: AdminCandidate)
    requires TwoPasses(p, resolved, normalized, roadTokens, a) && PositiveIds(resolved)
    requires OneTable(a) && AllKnown(resolved, a) && c in p.first
    ensures LocationKnown(c.location, a)
  {
    hide Prepared, RecoveryOf, ConclusionsOf, PositiveIds, OneTable, AllKnown, Known, Enriched, Seed, Origins, Unique,
         Offered,
         LocationKnown;
    AllIdsNonZero(p, resolved, normalized, roadTokens, a);
    OriginsGrow(resolved, p.found.recovered);
    var es := Origins(resolved);
    assert NonZero(es) by {
      assert forall i :: 0 <= i < |es| ==> es[i] in Origins(resolved + p.found.recovered);
    }
    BuildGivesOnePerOrigin(p.first, resolved, STRATEGIES, a);
    assert HasOrigin(es, c.location, a);
    var e :| e in es && LocationOf(e, a) == c.location;
    OriginsKnown(resolved, a, e);
    EnrichedKnown(e, [], a);
  }

  /** What recovery adds is known under the level that it names, too. */
  lemma RecoveredKnown(p: Passes, resolved: seq<ResolvedEvidence>, normalized: string, roadTokens: set<string>,
                       a: Atlas)
    requires TwoPasses(p, resolved, normalized, roadTokens, a) && PositiveIds(resolved)
    requires OneTable(a) && AllKnown(resolved, a)
    ensures AllKnown(p.found.recovered, a)
  {
    hide Prepared, RecoveryOf, Built, PositiveIds, OneTable, Known, InNeighborhood, LocationKnown;
    RecoveredAreGrounded(p.found, p.trace, p.first, resolved, normalized, roadTokens, a);
    forall i, e | 0 <= i < |p.found.recovered| && e in p.found.recovered[i].candidates
      ensures Known(e, a)
    {
      assert Grounded(e, p.found.recovered[i].evidence.value, p.trace.frontier, a);
      var j :| 0 <= j < |p.trace.frontier| && InNeighborhood(p.trace.frontier[j].candidate.location, a, e);
      FrontierIsFirstPass(p, resolved, normalized, roadTokens, a, j);
      FirstPassKnown(p, resolved, normalized, roadTokens, a, p.trace.frontier[j].candidate);
      NeighborKnown(p.trace.frontier[j].candidate.location, a, e);
    }
  }

  lemma FrontierIsFirstPass(p: Passes, resolved: seq<ResolvedEvidence>, normalized: string, roadTokens: set<string>,
                            a: Atlas, i: nat)
    requires TwoPasses(p, resolved, normalized, roadTokens, a) && i < |p.trace.frontier|
    ensures p.trace.frontier[i].candidate in p.first
  {
    hide RecoveryOf, IsVocabulary, FuzzyTargets.TargetsOf, RunsUpTo, CoverageOf, IsFrontier, Built;
    var frontier := p.trace.frontier;
    var covs := Coverages(p.first, EvidenceOf(resolved), roadTokens);
    FrontierMembers(frontier, covs);
    assert frontier[i] in frontier;
    var j :| 0 <= j < |covs| && covs[j] == frontier[i];
    CoverageCandidate(p.first[j], EvidenceOf(resolved), roadTokens);
  }

  lemma KnownIsOneLevel(resolved: seq<ResolvedEvidence>, recovered: seq<ResolvedEvidence>, a: Atlas)
    requires OneTable(a) && AllKnown(resolved, a) && AllKnown(recovered, a)
    ensures OneLevelEach(resolved + recovered)
  {
    hide ById, OneTable, Known, AllKnown;
    var all := resolved + recovered;
    AllKnownConcat(resolved, recovered, a);
    forall i, j, e, f | 0 <= i < |all| && 0 <= j < |all| && e in all[i].candidates && f in all[j].candidates && e.id == f.id
      ensures e.level == f.level
    {
      SameIdSameLevel(e, f, a);
    }
  }

  lemma AllKnownConcat(resolved: seq<ResolvedEvidence>, recovered: seq<ResolvedEvidence>, a: Atlas)
    requires AllKnown(resolved, a) && AllKnown(recovered, a)
    ensures forall i, e :: 0 <= i < |resolved + recovered| && e in (resolved + recovered)[i].candidates ==> Known(e, a)
  {
    hide Known;
    var all := resolved + recovered;
    forall i, e | 0 <= i < |all| && e in all[i].candidates
      ensures Known(e, a)
    {
      assert all[i] == if i < |resolved| then resolved[i] else recovered[i - |resolved|];
    }
  }

  lemma SameIdSameLevel(e: Entity, f: Entity, a: Atlas)
    requires OneTable(a) && Known(e, a) && Known(f, a) && e.id == f.id
    ensures e.level == f.level
  {
    hide ById;
  }

  /** No candidate of the first pass is worse off after the second: it is still there, and with what
      recovery added and explained its confidence is at least what it would have been without. The
      hypotheses are on the inputs: positive ids, one table of regions, and resolved entities that are
      known under the level that they name. */
  lemma RecoveryNeverLowers(p: Passes, resolved: seq<ResolvedEvidence>, normalized: string, roadTokens: set<string>,
                            a: Atlas, all: seq<Evidence>, c: AdminCandidate)
    requires TwoPasses(p, resolved, normalized, roadTokens, a) && PositiveIds(resolved)
    requires OneTable(a) && AllKnown(resolved, a) && c in p.first
    ensures exists d :: d in p.second && AtLeastAsConfident(d, Kept(all, p.found.explained), c, all, a)
  {
    hide Prepared, RecoveryOf, ConclusionsOf, Origins, AllNew, PositiveIds, OneLevelEach, OneTable, AllKnown,
         AtLeastAsConfident, Enriched,
         Final, Kept, Seed;
    var after := resolved + p.found.recovered;
    RecoveredKnown(p, resolved, normalized, roadTokens, a);
    KnownIsOneLevel(resolved, p.found.recovered, a);
    AllIdsNonZero(p, resolved, normalized, roadTokens, a);
    OriginsGrow(resolved, p.found.recovered);
    var es, all' := Origins(resolved), Origins(after);
    assert NonZero(es) by {
      assert forall i :: 0 <= i < |es| ==> es[i] in all';
    }
    BuildIsAssembled(p.first, resolved, STRATEGIES, a);
    BuildIsAssembled(p.second, after, STRATEGIES, a);
    SameMembers(p.first, Assembled(resolved, STRATEGIES, a));
    SameMembers(p.second, Assembled(after, STRATEGIES, a));
    var i :| 0 <= i < |es| && Assembled(resolved, STRATEGIES, a)[i] == c;
    assert es[i] in all';
    var j :| 0 <= j < |all'| && all'[j] == es[i];
    var d := Assembled(after, STRATEGIES, a)[j];
    assert d in Assembled(after, STRATEGIES, a);
    if a.hierarchy.Some? {
      SameOriginAfterRecovery(es[i], resolved, p.found.recovered, a, all, p.found.explained);
    } else {
      EnrichedHasNoEvidence(es[i], a);
      SameCandidateFewerLeft(c, all, p.found.explained, a);
    }
  }

  lemma EnrichedHasNoEvidence(e: Entity, a: Atlas)
    ensures Enriched(Seed(e, STRATEGIES), a).evidence == []
  {
    hide Normalizer.Normalize;
  }

  // ---------- The context keeps its evidence ----------

  lemma BuiltEvidence(r: seq<AdminCandidate>, resolved: seq<ResolvedEvidence>, a: Atlas, c: AdminCandidate)
    requires Built(r, resolved, a) && c in r
    ensures forall me :: me in c.evidence ==> me.evidence in EvidenceOf(resolved)
  {
    hide Enriched, Seed, Origins, Matches, FullerFirst, FirstByKey;
    var flat := EnrichedAll(Discovered(resolved, STRATEGIES), a);
    if a.hierarchy == None {
      var i :| 0 <= i < |flat| && flat[i] == c;
      EnrichedHasNoEvidence(Origins(resolved)[i], a);
    } else {
      var list := ConcludedAll(FirstByKey(flat, {}), resolved);
      SameMembers(r, list);
      var i :| 0 <= i < |list| && list[i] == c;
      var before := FirstByKey(flat, {})[i];
      MatchesAre(before, resolved);
      forall me | me in c.evidence
        ensures me.evidence in EvidenceOf(resolved)
      {
        assert MatchedFromSome(me, resolved);
        var k :| 0 <= k < |resolved| && MatchedFrom(me, resolved[k]);
        assert EvidenceOf(resolved)[k] == me.evidence;
      }
    }
  }

  /** No value that a candidate of the expansion frontier uses is dropped from the evidence. */
  lemma FrontierKeepsItsEvidence(p: Passes, resolved: seq<ResolvedEvidence>, normalized: string,
                                 roadTokens: set<string>,
                                 a: Atlas, all: seq<Evidence>, i: nat, me: MatchedEvidence)
    requires TwoPasses(p, resolved, normalized, roadTokens, a)
    requires i < |p.trace.frontier| && me in p.trace.frontier[i].candidate.evidence
    ensures WithValue(Kept(all, p.found.explained), me.evidence.value) == WithValue(all, me.evidence.value)
  {
    hide RecoveryOf, IsVocabulary, FuzzyTargets.TargetsOf, RunsUpTo, CoverageOf, IsFrontier, Built;
    var c := p.trace.frontier[i].candidate;
    FrontierIsFirstPass(p, resolved, normalized, roadTokens, a, i);
    BuiltEvidence(p.first, resolved, a, c);
    FrontierLosesNothing(p.found, p.trace, p.first, resolved, normalized, roadTokens, a, i, me.evidence);
    KeptByValue(all, p.found.explained, me.evidence.value);
  }

  lemma CoverageCandidate(c: AdminCandidate, all: seq<Evidence>, roadTokens: set<string>)
    ensures CoverageOf(c, all, roadTokens).candidate == c
  {
  }

  // ---------- The reported status ----------

  /** Over loaded hierarchy maps with known provinces: no evaluated candidate has a conflict, and it
      is VALID exactly when province, city and district are filled, else INCOMPLETE. */
  ghost predicate Sound(s: Scored) {
    var loc := s.candidate.location;
    && loc.conflicts == []
    && s.status == if loc.province.Some? && loc.city.Some? && loc.district.Some? then Status.Valid else Status.Incomplete
  }

  lemma EvaluatedIsSound(e: Entity, resolved: seq<ResolvedEvidence>, a: Atlas, all: seq<Evidence>)
    requires !e.level.OtherLevel? && OwnIdsInAtlas(a) && ProvincesKnown(a)
    requires a.hierarchy.Some? ==> ClosedUpwards(a.hierarchy.value)
    ensures Sound(ScoredOf(Final(e, STRATEGIES, a, resolved), a.hierarchy, all))
  {
    hide NewConflicts, Enriched, Matches, OwnIdsInAtlas, ProvincesKnown, ClosedUpwards, AssessQuality,
         EvaluatedConfidence, Unused;
    PipelineNeverConflicts(e, STRATEGIES, a, resolved);
    EnrichedShape(e, STRATEGIES, a);
  }

  lemma ScoredMembers(scored: seq<Scored>, list: seq<Scored>)
    requires multiset(scored) == multiset(list)
    ensures |scored| == |list| && forall s :: s in scored ==> s in list
  {
    assert |multiset(scored)| == |scored| && |multiset(list)| == |list|;
    assert forall s :: s in scored ==> s in multiset(scored);
    assert forall s :: s in list <==> s in multiset(list);
  }

  lemma AllEvaluatedSound(after: seq<ResolvedEvidence>, a: Atlas, left: seq<Evidence>, second: seq<AdminCandidate>)
    requires multiset(second) == multiset(Assembled(after, STRATEGIES, a))
    requires OwnIdsInAtlas(a) && ProvincesKnown(a) && a.hierarchy.Some? && ClosedUpwards(a.hierarchy.value)
    ensures |second| == |Origins(after)|
    ensures forall c :: c in second ==> Sound(ScoredOf(c, a.hierarchy, left))
  {
    hide Origins, Final, ScoredOf, OwnIdsInAtlas, ProvincesKnown, ClosedUpwards, Sound, NoRepeats;
    SameMembers(second, Assembled(after, STRATEGIES, a));
    OriginsAreProper(after);
    var es := Origins(after);
    forall c | c in second
      ensures Sound(ScoredOf(c, a.hierarchy, left))
    {
      var k :| 0 <= k < |es| && Final(es[k], STRATEGIES, a, after) == c;
      assert es[k] in es;
      EvaluatedIsSound(es[k], after, a, left);
    }
  }

  /** A validation over such maps never reports a conflict: UNKNOWN exactly when nothing was resolved or
      recovered, AMBIGUOUS only for a close run between candidates, and otherwise the winner's own
      status. */
  lemma ReportedStatusIsSound(p: Passes, resolved: seq<ResolvedEvidence>, normalized: string, roadTokens: set<string>,
                              a: Atlas, left: seq<Evidence>, scored: seq<Scored>)
    requires TwoPasses(p, resolved, normalized, roadTokens, a) && PositiveIds(resolved)
    requires OwnIdsInAtlas(a) && ProvincesKnown(a) && a.hierarchy.Some? && ClosedUpwards(a.hierarchy.value)
    requires multiset(scored) == multiset(ScoredAll(p.second, a.hierarchy, left))
    ensures forall i :: 0 <= i < |scored| ==> Sound(scored[i])
    ensures ResponseStatus(scored) != Status.Conflict
    ensures ResponseStatus(scored) == Status.Unknown <==> Origins(resolved) == [] && Offered(p.found.recovered) == []
  {
    hide Prepared, RecoveryOf, ConclusionsOf, Origins, AllNew, PositiveIds, Assembled, Offered, ScoredOf,
         OwnIdsInAtlas, ProvincesKnown, ClosedUpwards, Sound, ResponseStatus;
    var after := resolved + p.found.recovered;
    AllIdsNonZero(p, resolved, normalized, roadTokens, a);
    OriginsGrow(resolved, p.found.recovered);
    BuildIsAssembled(p.second, after, STRATEGIES, a);
    AllEvaluatedSound(after, a, left, p.second);
    ScoredMembers(scored, ScoredAll(p.second, a.hierarchy, left));
    forall i | 0 <= i < |scored|
      ensures Sound(scored[i])
    {
      assert scored[i] in scored;
      var j :| 0 <= j < |p.second| && ScoredOf(p.second[j], a.hierarchy, left) == scored[i];
      assert p.second[j] in p.second;
    }
    SoundReports(scored);
  }

  lemma SoundReports(scored: seq<Scored>)
    requires forall i :: 0 <= i < |scored| ==> Sound(scored[i])
    ensures ResponseStatus(scored) != Status.Conflict
    ensures ResponseStatus(scored) == Status.Unknown <==> scored == []
  {
    assert scored != [] ==> Sound(scored[0]);
  }
}
