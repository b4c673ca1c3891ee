/**
 The range of the confidence of built candidates: how low it can go, exactly when it falls below
 zero, and why one level per id is needed for more evidence never to lower it.
 */
module ConfidenceRange {
  import opened Wrappers
  import opened Model
  import opened Candidates
  import opened Conclusions
  import opened Evaluation
  import opened Confidence
  import opened Pipeline
  import Normalizer

  // ---------- What every built candidate scores ----------

  ghost predicate Shows(me: MatchedEvidence, e: Entity) {
    me.resolved == Some(e)
  }

  ghost predicate ShownBy(es: seq<MatchedEvidence>, e: Entity) {
    exists k :: 0 <= k < |es| && Shows(es[k], e)
  }

  lemma ShownInConcat(es: seq<MatchedEvidence>, fs: seq<MatchedEvidence>, e: Entity)
    ensures ShownBy(es, e) || ShownBy(fs, e) ==> ShownBy(es + fs, e)
  {
    var all := es + fs;
    if ShownBy(es, e) {
      var k :| 0 <= k < |es| && Shows(es[k], e);
      assert all[k] == es[k];
    }
    if ShownBy(fs, e) {
      var k :| 0 <= k < |fs| && Shows(fs[k], e);
      assert all[|es| + k] == fs[k];
    }
  }

  lemma {:induction false} MatchesAmongShow(c: AdminCandidate, ev: Evidence, es: seq<Entity>, e: Entity)
    requires e in es && EntityInCandidate(c, e)
    ensures ShownBy(MatchesAmong(c, ev, es), e)
  {
    hide EntityInCandidate;
    var first := if EntityInCandidate(c, es[0]) then [MatchedEvidence(ev, Some(es[0]))] else [];
    var rest := MatchesAmong(c, ev, es[1..]);
    if e == es[0] {
      assert Shows(first[0], e);
    } else {
      MatchesAmongShow(c, ev, es[1..], e);
    }
    ShownInConcat(first, rest, e);
  }

  lemma {:induction false} MatchesShow(c: AdminCandidate, resolved: seq<ResolvedEvidence>, i: nat, e: Entity)
    requires i < |resolved| && e in resolved[i].candidates && EntityInCandidate(c, e)
    ensures ShownBy(Matches(c, resolved), e)
  {
    hide EntityInCandidate, MatchesAmong, ShownBy;
    var first, rest := MatchesAmong(c, resolved[0].evidence, resolved[0].candidates), Matches(c, resolved[1..]);
    if i == 0 {
      MatchesAmongShow(c, resolved[0].evidence, resolved[0].candidates, e);
    } else {
      assert resolved[1..][i - 1] == resolved[i];
      MatchesShow(c, resolved[1..], i - 1, e);
    }
    ShownInConcat(first, rest, e);
  }

  /** The evidence of a candidate: every naming, by any resolved item, of a region that fills its level,
      and nothing else. */
  lemma MatchedExactly(c: AdminCandidate, resolved: seq<ResolvedEvidence>, me: MatchedEvidence)
    ensures me in Matches(c, resolved) <==>
              me.resolved.Some? && FillsLevel(c.location, me.resolved.value)
              && exists i :: 0 <= i < |resolved| && resolved[i].evidence == me.evidence && me.resolved.value in resolved[i].candidates
  {
    hide Matches;
    MatchesMembers(c, resolved, me);
    assert forall e :: EntityInCandidate(c, e) <==> FillsLevel(c.location, e);
  }

  predicate FillsLevel(loc: AdminLocation, e: Entity) {
    RegionAt(loc, e.level).Some? && RegionAt(loc, e.level).value.id == e.id
  }

  lemma {:induction false} MatchesAmongMembers(c: AdminCandidate, ev: Evidence, es: seq<Entity>, me: MatchedEvidence)
    ensures me in MatchesAmong(c, ev, es) <==>
              me.evidence == ev && me.resolved.Some? && me.resolved.value in es && EntityInCandidate(c, me.resolved.value)
  {
    hide EntityInCandidate;
    if es != [] {
      MatchesAmongMembers(c, ev, es[1..], me);
    }
  }

  lemma {:induction false} MatchesMembers(c: AdminCandidate, resolved: seq<ResolvedEvidence>, me: MatchedEvidence)
    ensures me in Matches(c, resolved) <==>
              me.resolved.Some? && EntityInCandidate(c, me.resolved.value)
              && exists i :: 0 <= i < |resolved| && resolved[i].evidence == me.evidence && me.resolved.value in resolved[i].candidates
  {
    hide EntityInCandidate, MatchesAmong;
    if resolved != [] {
      var rest := resolved[1..];
      MatchesAmongMembers(c, resolved[0].evidence, resolved[0].candidates, me);
      MatchesMembers(c, rest, me);
      assert forall i :: 0 < i < |resolved| ==> resolved[i] == rest[i - 1];
      assert forall i :: 0 <= i < |rest| ==> rest[i] == resolved[i + 1];
    }
  }

  lemma SameRegions(c: AdminCandidate, h: Option<HierarchyMap>)
    ensures Judged(c, h).(conflicts := []) == c.location.(conflicts := [])
  {
    hide NewConflicts;
  }

  /** A built candidate carries evidence for its own origin. */
  lemma OriginIsConfirmed(e: Entity, strategies: seq<Strategy>, a: Atlas, resolved: seq<ResolvedEvidence>)
    requires !e.level.OtherLevel? && e in Offered(resolved)
    ensures var c := Final(e, strategies, a, resolved);
            HasExactMatch(c.evidence) && LevelMatched(Judged(c, a.hierarchy), c.evidence, e.level)
  {
    hide Enriched, Matches, Offered, NewConflicts;
    var c := Final(e, strategies, a, resolved);
    EnrichedShape(e, strategies, a);
    OfferedIn(resolved, e);
    var i :| 0 <= i < |resolved| && e in resolved[i].candidates;
    MatchesShow(Enriched(Seed(e, strategies), a), resolved, i, e);
    var k :| 0 <= k < |c.evidence| && Shows(c.evidence[k], e);
    SameRegions(c, a.hierarchy);
    assert Confirms(Judged(c, a.hierarchy), c.evidence[k], e.level);
  }

  /** Fifteen hundredths at least: ten for the exact match, and five or more for the origin's level. */
  lemma BuiltScoreAtLeast(e: Entity, strategies: seq<Strategy>, a: Atlas, resolved: seq<ResolvedEvidence>)
    requires !e.level.OtherLevel? && e in Offered(resolved)
    ensures var c := Final(e, strategies, a, resolved);
            RawScore(Judged(c, a.hierarchy), c.evidence) >= 15
  {
    hide Final, LevelMatched, HasExactMatch, MultiBonus, PostalScore, Judged, Offered;
    OriginIsConfirmed(e, strategies, a, resolved);
  }

  // ---------- Exactly when it is negative ----------

  /** The documented lower bound of zero holds if and only if the penalty does not exceed the capped
      score; with five unused items or fewer it always does. */
  lemma NonNegativeExactly(e: Entity, strategies: seq<Strategy>, a: Atlas, resolved: seq<ResolvedEvidence>,
                           all: seq<Evidence>)
    requires !e.level.OtherLevel? && e in Offered(resolved)
    ensures var c := Final(e, strategies, a, resolved);
            var unused, raw := |Unused(c.evidence, all)|, RawScore(Judged(c, a.hierarchy), c.evidence);
            && raw >= 15
            && (0 <= EvaluatedConfidence(c, a.hierarchy, all) <= 100 <==> 3 * unused <= Capped(raw, 100))
            && (unused <= 5 ==> EvaluatedConfidence(c, a.hierarchy, all) >= 0)
            && EvaluatedConfidence(c, a.hierarchy, all) >= 15 - 3 * |all|
  {
    hide Final, RawScore, Judged, Offered, Unused;
    BuiltScoreAtLeast(e, strategies, a, resolved);
    UnusedIsPart(Final(e, strategies, a, resolved).evidence, all);
  }

  lemma {:induction false} UnusedIsPart(es: seq<MatchedEvidence>, all: seq<Evidence>)
    ensures |Unused(es, all)| <= |all|
  {
    hide Uses;
    if all != [] {
      UnusedIsPart(es, all[1..]);
    }
  }

  lemma {:induction false} AllUnused(es: seq<MatchedEvidence>, all: seq<Evidence>)
    requires forall i :: 0 <= i < |all| ==> !Uses(es, all[i].value)
    ensures Unused(es, all) == all
  {
    hide Uses;
    if all != [] {
      assert forall i :: 0 <= i < |all| - 1 ==> all[1..][i] == all[i + 1];
      AllUnused(es, all[1..]);
    }
  }

  // ---------- Six unused items can make it negative ----------

  /** A sub-district without parents or postal code, named once. */
  const HAMLET := Entity(1, "Sukamaju", SubDistrict, "")

  const BARE_ATLAS: Atlas := Atlas(Some(HierarchyMap(map[], map[], map[])), map[], map[], map[], map[])

  function NamedOnce(): seq<ResolvedEvidence> {
    [ResolvedEvidence(Evidence(PlaceName, "sukamaju"), [HAMLET])]
  }

  function OtherWords(): seq<Evidence> {
    [Evidence(PlaceName, "toko"), Evidence(PlaceName, "roti"), Evidence(PlaceName, "samping"),
     Evidence(PlaceName, "masjid"), Evidence(PlaceName, "depan"), Evidence(PlaceName, "sekolah")]
  }

  lemma HamletIsBuilt(strategies: seq<Strategy>)
    ensures var c := Final(HAMLET, strategies, BARE_ATLAS, NamedOnce());
            && c.location == SeedLocation(HAMLET)
            && c.evidence == [MatchedEvidence(Evidence(PlaceName, "sukamaju"), Some(HAMLET))]
  {
    hide Normalizer.Normalize;
    var c := Enriched(Seed(HAMLET, strategies), BARE_ATLAS);
    assert c.location == SeedLocation(HAMLET);
    assert NamedOnce()[1..] == [] && [HAMLET][1..] == [];
    assert Matches(c, []) == [] && MatchesAmong(c, NamedOnce()[0].evidence, []) == [];
  }

  lemma OneNaming(me: MatchedEvidence)
    requires me.resolved.Some?
    ensures MultiBonus([me]) == 0
  {
    var id := me.resolved.value.id;
    assert [me][0] == me;
    assert NamedIds([me]) == {id};
    CountSnoc([], me, id);
    assert [] + [me] == [me];
    SumAnyOrder({id}, [me], id);
    assert {id} - {id} == {};
    SumOfNone([me]);
  }

  lemma HamletScores(strategies: seq<Strategy>)
    ensures var c := Final(HAMLET, strategies, BARE_ATLAS, NamedOnce());
            RawScore(Judged(c, BARE_ATLAS.hierarchy), c.evidence) == 15
  {
    hide Final, NewConflicts, MultiBonus, Normalizer.Normalize;
    var c := Final(HAMLET, strategies, BARE_ATLAS, NamedOnce());
    HamletIsBuilt(strategies);
    SameRegions(c, BARE_ATLAS.hierarchy);
    var loc := Judged(c, BARE_ATLAS.hierarchy);
    OneNaming(c.evidence[0]);
    assert Confirms(loc, c.evidence[0], SubDistrict);
    assert HasExactMatch(c.evidence) && LevelMatched(loc, c.evidence, SubDistrict);
  }

  lemma OtherWordsAreUnused(me: MatchedEvidence)
    requires me.evidence.value == "sukamaju"
    ensures Unused([me], OtherWords()) == OtherWords()
  {
    hide Unused;
    forall i | 0 <= i < |OtherWords()|
      ensures !Uses([me], OtherWords()[i].value)
    {
    }
    AllUnused([me], OtherWords());
  }

  lemma HamletIsOffered()
    ensures HAMLET in Offered(NamedOnce())
  {
    assert NamedOnce()[1..] == [];
    assert Offered(NamedOnce()) == [HAMLET] + Offered([]);
  }

  /** Five unused items are the most that can never make it negative: the penalty is applied after
      the cap, and nothing clamps the result from below. */
  lemma ConfidenceCanBeNegative(strategies: seq<Strategy>)
    ensures HAMLET in Offered(NamedOnce()) && |OtherWords()| == 6
    ensures EvaluatedConfidence(Final(HAMLET, strategies, BARE_ATLAS, NamedOnce()), BARE_ATLAS.hierarchy, OtherWords()) == -3
  {
    hide Final, RawScore, Judged, Unused, Offered, SeedLocation;
    HamletIsOffered();
    HamletIsBuilt(strategies);
    HamletScores(strategies);
    OtherWordsAreUnused(MatchedEvidence(Evidence(PlaceName, "sukamaju"), Some(HAMLET)));
  }

  // ---------- Without a hierarchy ----------

  /** Before a hierarchy is loaded candidates carry no evidence, and only a city scores. */
  lemma WithoutHierarchy(e: Entity, strategies: seq<Strategy>, a: Atlas, all: seq<Evidence>)
    requires !e.level.OtherLevel? && a.hierarchy == None
    ensures EvaluatedConfidence(Enriched(Seed(e, strategies), a), None, all) == (if e.level == City then 15 else 0) - 3 * |all|
  {
    hide Normalizer.Normalize;
    var c := Enriched(Seed(e, strategies), a);
    AllUnused([], all);
    assert NamedIds([]) == {};
    SumOfNone([]);
    assert NewConflicts(c, None) == [];
  }

  // ---------- One level per id ----------

  /** Maps under which sub-district 1 lies, three levels up, in a province that also has the id 1. The
      schema keeps all regions in one table, so no database holds them. */
  const TWISTED_MAPS := HierarchyMap(map[3 := 1], map[2 := 3], map[1 := 2])
  const TWISTED_ATLAS: Atlas :=
    Atlas(Some(TWISTED_MAPS), map[1 := Region(1, "Jambi", "jambi", "")], map[3 := Region(3, "Kota Jambi", "jambi", "")],
          map[2 := Region(2, "Pasar", "pasar", "")], map[1 := Region(1, "Jambi", "jambi", "")])
  const AS_VILLAGE := Entity(1, "Jambi", SubDistrict, "")
  const AS_PROVINCE := Entity(1, "Jambi", Province, "")

  function Naming(e: Entity): ResolvedEvidence {
    ResolvedEvidence(Evidence(PlaceName, "jambi"), [e])
  }

  function Shown(e: Entity): MatchedEvidence {
    MatchedEvidence(Evidence(PlaceName, "jambi"), Some(e))
  }

  lemma TwistedIsBuilt(strategies: seq<Strategy>)
    ensures var c := Enriched(Seed(AS_VILLAGE, strategies), TWISTED_ATLAS);
            EntityInCandidate(c, AS_VILLAGE) && EntityInCandidate(c, AS_PROVINCE) && c.location.postal == None
  {
    hide Normalizer.Normalize;
    var loc := FillDistrict(SeedLocation(AS_VILLAGE), TWISTED_MAPS, TWISTED_ATLAS);
    assert loc.district.Some? && loc.district.value.id == 2;
    var up := FillCity(loc, TWISTED_MAPS, TWISTED_ATLAS);
    assert up.city.Some? && up.city.value.id == 3;
  }

  lemma NamingShows(c: AdminCandidate, e: Entity)
    requires EntityInCandidate(c, e)
    ensures Matches(c, [Naming(e)]) == [Shown(e)]
  {
    assert [Naming(e)][1..] == [] && [e][1..] == [];
    assert MatchesAmong(c, Naming(e).evidence, []) == [] && Matches(c, []) == [];
    assert MatchesAmong(c, Naming(e).evidence, [e]) == [Shown(e)];
  }

  /** The village once, then the province twice. */
  function Namings(): seq<ResolvedEvidence> {
    [Naming(AS_VILLAGE)] + [Naming(AS_PROVINCE)] + [Naming(AS_PROVINCE)]
  }

  lemma TwistedEvidence(strategies: seq<Strategy>)
    ensures var c := Final(AS_VILLAGE, strategies, TWISTED_ATLAS, Namings());
            var d := Final(AS_VILLAGE, strategies, TWISTED_ATLAS, Namings() + [Naming(AS_VILLAGE)]);
            && c.evidence == [Shown(AS_VILLAGE), Shown(AS_PROVINCE)] + [Shown(AS_PROVINCE)]
            && d == c.(evidence := c.evidence + [Shown(AS_VILLAGE)])
  {
    hide Enriched, Matches, EntityInCandidate;
    TwistedIsBuilt(strategies);
    var c := Enriched(Seed(AS_VILLAGE, strategies), TWISTED_ATLAS);
    var v, p := [Naming(AS_VILLAGE)], [Naming(AS_PROVINCE)];
    NamingShows(c, AS_VILLAGE);
    NamingShows(c, AS_PROVINCE);
    MatchesConcat(c, v, p);
    MatchesConcat(c, v + p, p);
    MatchesConcat(c, v + p + p, v);
  }

  /** The bonus for one id named several times is that of the level it was named under last. */
  lemma LastNamingDecides(es: seq<MatchedEvidence>, e: Entity)
    requires |es| >= 1 && forall i :: 0 <= i < |es| ==> Names(es[i], 1)
    requires e.id == 1
    ensures MultiBonus(es + [Shown(e)]) == MultiWeight(Some(e.level))
  {
    hide Count, LastLevel;
    var all := es + [Shown(e)];
    assert all[0] == es[0] && Names(all[0], 1);
    assert forall me :: me in all ==> Names(me, 1);
    assert all[0] in all;
    assert NamedIds(all) == {1};
    CountSnoc(es, Shown(e), 1);
    NamedAtLeastOnce(es);
    SumAnyOrder({1}, all, 1);
    assert {1} - {1} == {};
    SumOfNone(all);
  }

  lemma NamedAtLeastOnce(es: seq<MatchedEvidence>)
    requires |es| >= 1 && Names(es[|es| - 1], 1)
    ensures Count(es, 1) >= 1
  {
  }

  lemma RepeatedNamingMatchesNothingNew(loc: AdminLocation, es: seq<MatchedEvidence>, k: nat)
    requires k < |es|
    ensures LevelScore(loc, es + [es[k]]) == LevelScore(loc, es)
    ensures HasExactMatch(es + [es[k]]) == HasExactMatch(es)
  {
    var all := es + [es[k]];
    assert forall i :: 0 <= i < |es| ==> all[i] == es[i];
    assert all[|es|] == es[k];
    forall level
      ensures LevelMatched(loc, all, level) <==> LevelMatched(loc, es, level)
    {
      if i :| 0 <= i < |all| && Confirms(loc, all[i], level) {
        assert Confirms(loc, es[if i < |es| then i else k], level);
      }
      if i :| 0 <= i < |es| && Confirms(loc, es[i], level) {
        assert Confirms(loc, all[i], level);
      }
    }
    if HasExactMatch(all) {
      var i :| 0 <= i < |all| && all[i].resolved.Some?;
      assert es[if i < |es| then i else k].resolved.Some?;
    }
    if HasExactMatch(es) {
      var i :| 0 <= i < |es| && es[i].resolved.Some?;
      assert all[i].resolved.Some?;
    }
  }

  /** Without a postal code, naming a region once more changes the bonus and nothing else. */
  lemma OnlyTheBonusChanges(c: AdminCandidate, k: nat, h: Option<HierarchyMap>)
    requires k < |c.evidence| && c.location.postal == None
    ensures var d := c.(evidence := c.evidence + [c.evidence[k]]);
            && RawScore(Judged(d, h), d.evidence) + MultiBonus(c.evidence)
               == RawScore(Judged(c, h), c.evidence) + MultiBonus(d.evidence)
            && RawScore(Judged(c, h), c.evidence) <= 65 + MultiBonus(c.evidence)
  {
    hide MultiBonus, LevelMatched, HasExactMatch, NewConflicts;
    var d := c.(evidence := c.evidence + [c.evidence[k]]);
    SameRegions(c, h);
    SameRegions(d, h);
    ConflictsOtherwiseSame(c, d, h);
    SameRegionsSameScore(Judged(c, h), Judged(d, h), d.evidence);
    RepeatedNamingMatchesNothingNew(Judged(c, h), c.evidence, k);
  }

  lemma TwistedHasNoPostal(strategies: seq<Strategy>)
    ensures Final(AS_VILLAGE, strategies, TWISTED_ATLAS, Namings()).location.postal == None
  {
    hide Matches;
    TwistedIsBuilt(strategies);
  }

  /** Why more evidence is only harmless with one level per id: under maps that use an id at two
      levels, naming the lower level once more lowers the confidence of a built candidate. */
  lemma SecondLevelCanLower(strategies: seq<Strategy>)
    ensures var c := Final(AS_VILLAGE, strategies, TWISTED_ATLAS, Namings());
            var d := Final(AS_VILLAGE, strategies, TWISTED_ATLAS, Namings() + [Naming(AS_VILLAGE)]);
            && !OneLevelPerId(d.evidence)
            && EvaluatedConfidence(d, TWISTED_ATLAS.hierarchy, []) == EvaluatedConfidence(c, TWISTED_ATLAS.hierarchy, []) - 15
  {
    hide Final, MultiBonus, RawScore, Judged;
    var h := TWISTED_ATLAS.hierarchy;
    var c := Final(AS_VILLAGE, strategies, TWISTED_ATLAS, Namings());
    var d := Final(AS_VILLAGE, strategies, TWISTED_ATLAS, Namings() + [Naming(AS_VILLAGE)]);
    TwistedEvidence(strategies);
    TwistedHasNoPostal(strategies);
    assert SameId(d.evidence[0], d.evidence[1]);
    LastNamingDecides([Shown(AS_VILLAGE), Shown(AS_PROVINCE)], AS_PROVINCE);
    LastNamingDecides(c.evidence, AS_VILLAGE);
    OnlyTheBonusChanges(c, 0, h);
  }
}
