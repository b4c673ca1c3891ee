/**
 The candidate pipeline end to end: discover, deduplicate, enrich, conclude, evaluate, rank; and
 what holds of every candidate that comes out of it.
 */
module Pipeline {
  import opened Wrappers
  import opened Decimal
  import opened Model
  import opened Candidates
  import opened Deduplication
  import opened Conclusions
  import opened Evaluation
  import opened Hierarchy
  import opened Confidence
  import Normalizer

  // ---------- Building ----------

  /** One candidate as it comes out of the pipeline. */
  function Final(e: Entity, strategies: seq<Strategy>, a: Atlas, resolved: seq<ResolvedEvidence>): AdminCandidate {
    Concluded(Enriched(Seed(e, strategies), a), resolved)
  }

  function FinalAll(es: seq<Entity>, strategies: seq<Strategy>, a: Atlas,
                    resolved: seq<ResolvedEvidence>): (r: seq<AdminCandidate>)
    ensures |r| == |es| && forall i :: 0 <= i < |es| ==> r[i] == Final(es[i], strategies, a, resolved)
  {
    if es == [] then [] else [Final(es[0], strategies, a, resolved)] + FinalAll(es[1..], strategies, a, resolved)
  }

  ghost predicate NonZero(es: seq<Entity>) {
    forall i :: 0 <= i < |es| ==> es[i].id != 0
  }

  /** The origins are distinct entities of the four levels. */
  ghost predicate ProperOrigins(es: seq<Entity>) {
    NoRepeats(es) && forall i :: 0 <= i < |es| ==> !es[i].level.OtherLevel?
  }

  lemma {:induction false} OfLevelMembers(es: seq<Entity>, level: Level)
    ensures forall e :: e in OfLevel(es, level) <==> e in es && e.level == level
    ensures NoRepeats(es) ==> NoRepeats(OfLevel(es, level))
  {
    if es != [] {
      OfLevelMembers(es[1..], level);
      var rest := OfLevel(es[1..], level);
      assert NoRepeats(es) ==> NoRepeats(es[1..]);
      forall j | 0 <= j < |rest| && NoRepeats(es)
        ensures rest[j].id != es[0].id
      {
        assert rest[j] in rest;
        assert rest[j] in es[1..];
        var k :| 0 <= k < |es| - 1 && es[1..][k] == rest[j];
        assert es[k + 1] == rest[j];
      }
    }
  }

  lemma DistinctConcat(all: seq<Entity>, a: seq<Entity>, b: seq<Entity>, levels: set<Level>, level: Level)
    requires NoRepeats(all) && NoRepeats(a) && NoRepeats(b)
    requires forall i :: 0 <= i < |a| ==> a[i] in all && a[i].level in levels
    requires forall i :: 0 <= i < |b| ==> b[i] in all && b[i].level == level
    requires level !in levels
    ensures NoRepeats(a + b)
  {
    forall i, j | 0 <= i < j < |a + b|
      ensures (a + b)[i].id != (a + b)[j].id
    {
      if i < |a| <= j {
        assert a[i] in all && b[j - |a|] in all;
      }
    }
  }

  lemma OriginsAreProper(resolved: seq<ResolvedEvidence>)
    ensures ProperOrigins(Origins(resolved))
    ensures forall e :: e in Origins(resolved) <==> e in Unique(resolved) && !e.level.OtherLevel?
  {
    hide OfLevel, Fresh, NoRepeats;
    var es := Unique(resolved);
    FreshIs(Offered(resolved), {});
    OfLevelMembers(es, Province);
    OfLevelMembers(es, City);
    OfLevelMembers(es, District);
    OfLevelMembers(es, SubDistrict);
    var ps, cs, ds, ss := OfLevel(es, Province), OfLevel(es, City), OfLevel(es, District), OfLevel(es, SubDistrict);
    assert forall i :: 0 <= i < |ps| ==> ps[i] in ps;
    assert forall i :: 0 <= i < |cs| ==> cs[i] in cs;
    assert forall i :: 0 <= i < |ds| ==> ds[i] in ds;
    assert forall i :: 0 <= i < |ss| ==> ss[i] in ss;
    DistinctConcat(es, ps, cs, {Province}, City);
    DistinctConcat(es, ps + cs, ds, {Province, City}, District);
    DistinctConcat(es, ps + cs + ds, ss, {Province, City, District}, SubDistrict);
  }

  function Rank(level: Level): nat {
    match level
    case Province => 0
    case City => 1
    case District => 2
    case SubDistrict => 3
    case OtherLevel(_) => 4
  }

  /** Provinces first, sub-districts last, and within a level the order of first occurrence. */
  lemma OriginsOrdered(resolved: seq<ResolvedEvidence>)
    ensures var es := Origins(resolved);
            forall i, j :: 0 <= i < j < |es| ==> Rank(es[i].level) <= Rank(es[j].level)
    ensures forall level: Level :: !level.OtherLevel? ==> OfLevel(Origins(resolved), level) == OfLevel(Unique(resolved), level)
  {
    hide OfLevel, Unique;
    var es := Unique(resolved);
    var ps, cs, ds, ss := OfLevel(es, Province), OfLevel(es, City), OfLevel(es, District), OfLevel(es, SubDistrict);
    LevelsOfOneLevel(es, Province);
    LevelsOfOneLevel(es, City);
    LevelsOfOneLevel(es, District);
    LevelsOfOneLevel(es, SubDistrict);
    forall level: Level | !level.OtherLevel?
      ensures OfLevel(Origins(resolved), level) == OfLevel(es, level)
    {
      OfLevelConcat(ps, cs, level);
      OfLevelConcat(ps + cs, ds, level);
      OfLevelConcat(ps + cs + ds, ss, level);
    }
  }

  lemma LevelsOfOneLevel(es: seq<Entity>, level: Level)
    ensures forall i :: 0 <= i < |OfLevel(es, level)| ==> OfLevel(es, level)[i].level == level
    ensures forall l :: OfLevel(OfLevel(es, level), l) == if l == level then OfLevel(es, level) else []
  {
    hide OfLevel;
    var part := OfLevel(es, level);
    OfLevelMembers(es, level);
    assert forall i :: 0 <= i < |part| ==> part[i] in part;
    forall l
      ensures OfLevel(part, l) == if l == level then part else []
    {
      OfLevelOfOne(part, level, l);
    }
  }

  lemma {:induction false} OfLevelOfOne(es: seq<Entity>, level: Level, l: Level)
    requires forall i :: 0 <= i < |es| ==> es[i].level == level
    ensures OfLevel(es, l) == if l == level then es else []
  {
    if es != [] {
      assert forall i :: 0 <= i < |es| - 1 ==> es[1..][i] == es[i + 1];
      OfLevelOfOne(es[1..], level, l);
      assert [es[0]] + es[1..] == es;
    }
  }

  lemma SeedsDistinct(e: Entity, f: Entity, strategies: seq<Strategy>)
    requires !e.level.OtherLevel? && !f.level.OtherLevel? && e.id != f.id
    ensures CandidateKey(Seed(e, strategies)) != CandidateKey(Seed(f, strategies))
  {
    hide CandidateKey;
    if CandidateKey(Seed(e, strategies)) == CandidateKey(Seed(f, strategies)) {
      SameKeySameIds(Seed(e, strategies), Seed(f, strategies));
    }
  }

  /** Discovery gives every candidate a key of its own, so deduplication changes nothing. */
  lemma DiscoveredDistinct(resolved: seq<ResolvedEvidence>, strategies: seq<Strategy>)
    ensures DistinctKeys(Discovered(resolved, strategies))
  {
    hide CandidateKey, Seed, Origins;
    OriginsAreProper(resolved);
    var es, cs := Origins(resolved), Discovered(resolved, strategies);
    forall i, j | 0 <= i < j < |cs|
      ensures CandidateKey(cs[i]) != CandidateKey(cs[j])
    {
      SeedsDistinct(es[i], es[j], strategies);
    }
  }

  // ---------- The shape of an enriched candidate ----------

  /** Every entry is stored under its own id. */
  ghost predicate OwnIds(byId: map<Int64, Region>) {
    forall id :: id in byId ==> byId[id].id == id
  }

  ghost predicate OwnIdsInAtlas(a: Atlas) {
    OwnIds(a.provinceById) && OwnIds(a.cityById) && OwnIds(a.districtById)
  }

  /** Nothing is filled below the origin, the origin is filled, and above it the filled levels
      have no gap. */
  predicate Contiguous(origin: Level, loc: AdminLocation) {
    match origin
    case Province => loc.province.Some? && loc.city == None && loc.district == None && loc.subDistrict == None
    case City => loc.city.Some? && loc.district == None && loc.subDistrict == None
    case District => loc.district.Some? && loc.subDistrict == None && (loc.province.Some? ==> loc.city.Some?)
    case SubDistrict =>
      && loc.subDistrict.Some? && (loc.city.Some? ==> loc.district.Some?) && (loc.province.Some? ==> loc.city.Some?)
    case OtherLevel(_) => true
  }

  /** Each filled level above another is the parent that the map names. */
  ghost predicate Linked(loc: AdminLocation, h: HierarchyMap) {
    && (loc.subDistrict.Some? && loc.district.Some? ==>
          HasParent(h.subDistrictToDistrict, loc.subDistrict.value.id, loc.district.value.id))
    && (loc.district.Some? && loc.city.Some? ==> HasParent(h.districtToCity, loc.district.value.id, loc.city.value.id))
    && (loc.city.Some? && loc.province.Some? ==> HasParent(h.cityToProvince, loc.city.value.id, loc.province.value.id))
  }

  predicate HasParent(parents: map<Int64, Int64>, child: Int64, parent: Int64) {
    child in parents && parents[child] == parent
  }

  predicate PostalMatches(loc: AdminLocation) {
    loc.postal.Some? ==> loc.subDistrict.Some? && loc.postal.value.id == loc.subDistrict.value.id
  }

  /** The region that the origin entity fills. */
  predicate FilledBy(loc: AdminLocation, e: Entity) {
    RegionAt(loc, e.level).Some? && RegionAt(loc, e.level).value.id == e.id
  }

  lemma EnrichedShape(e: Entity, strategies: seq<Strategy>, a: Atlas)
    requires !e.level.OtherLevel?
    ensures var c := Enriched(Seed(e, strategies), a);
            && c.origin == e.level && c.location.conflicts == []
            && Contiguous(e.level, c.location) && FilledBy(c.location, e) && PostalMatches(c.location)
  {
    hide Normalizer.Normalize;
  }

  lemma EnrichedLinked(e: Entity, strategies: seq<Strategy>, a: Atlas)
    requires !e.level.OtherLevel? && OwnIdsInAtlas(a) && a.hierarchy.Some?
    ensures Linked(Enriched(Seed(e, strategies), a).location, a.hierarchy.value)
  {
    hide Normalizer.Normalize;
  }

  // ----- What is filled, field by field -----

  /** The origin's own region carries the entity's fields. */
  lemma OriginRegion(e: Entity, strategies: seq<Strategy>, a: Atlas)
    requires !e.level.OtherLevel?
    ensures var r := RegionAt(Enriched(Seed(e, strategies), a).location, e.level);
            && r.Some? && r.value.id == e.id && r.value.name == e.name
            && r.value.normalizedName == Normalizer.Normalize(e.name)
            && r.value.postalCode == (if e.level == City || e.level == SubDistrict then e.postalCode else "")
  {
    hide Normalizer.Normalize;
  }

  /** A level above the origin is filled exactly when the maps name a parent that has an entry, and
      then with the entry's id and name; only a city brings its postal code along. */
  ghost predicate FilledFrom(filled: Option<Region>, child: Option<Region>, parents: map<Int64, Int64>,
                             byId: map<Int64, Region>, withPostal: bool) {
    && (filled.Some? <==> child.Some? && child.value.id in parents && parents[child.value.id] in byId)
    && (filled.Some? ==>
          var entry, r := byId[parents[child.value.id]], filled.value;
          && r.id == entry.id && r.name == entry.name && r.normalizedName == Normalizer.Normalize(entry.name)
          && r.postalCode == if withPostal then entry.postalCode else "")
  }

  lemma ParentsFilled(e: Entity, strategies: seq<Strategy>, h: HierarchyMap, a: Atlas)
    requires !e.level.OtherLevel? && a.hierarchy == Some(h)
    ensures var loc := Enriched(Seed(e, strategies), a).location;
            && (e.level == SubDistrict ==> FilledFrom(loc.district, loc.subDistrict, h.subDistrictToDistrict, a.districtById, false))
            && (e.level == SubDistrict || e.level == District ==> FilledFrom(loc.city, loc.district, h.districtToCity, a.cityById, true))
            && (e.level != Province ==> FilledFrom(loc.province, loc.city, h.cityToProvince, a.provinceById, false))
  {
    hide Normalizer.Normalize, FilledFrom, FillDistrict, FillCity, FillProvince, FillPostal;
    var seed := Seed(e, strategies).location;
    var d := FillDistrict(seed, h, a);
    var c := FillCity(d, h, a);
    var p := FillProvince(c, h, a);
    FillsOneLevel(seed, h, a);
    FillsOneLevel(d, h, a);
    FillsOneLevel(c, h, a);
    PostalOnly(p);
  }

  lemma FillsOneLevel(loc: AdminLocation, h: HierarchyMap, a: Atlas)
    ensures var d := FillDistrict(loc, h, a);
            && (loc.district == None ==> FilledFrom(d.district, loc.subDistrict, h.subDistrictToDistrict, a.districtById, false))
            && (loc.district.Some? ==> d.district == loc.district)
            && d.subDistrict == loc.subDistrict && d.city == loc.city && d.province == loc.province && d.postal == loc.postal
    ensures var c := FillCity(loc, h, a);
            && (loc.city == None ==> FilledFrom(c.city, loc.district, h.districtToCity, a.cityById, true))
            && (loc.city.Some? ==> c.city == loc.city)
            && c.subDistrict == loc.subDistrict && c.district == loc.district && c.province == loc.province && c.postal == loc.postal
    ensures var p := FillProvince(loc, h, a);
            && (loc.province == None ==> FilledFrom(p.province, loc.city, h.cityToProvince, a.provinceById, false))
            && (loc.province.Some? ==> p.province == loc.province)
            && p.subDistrict == loc.subDistrict && p.district == loc.district && p.city == loc.city && p.postal == loc.postal
  {
    hide Normalizer.Normalize;
  }

  lemma PostalOnly(loc: AdminLocation)
    ensures var p := FillPostal(loc);
            p.province == loc.province && p.city == loc.city && p.district == loc.district && p.subDistrict == loc.subDistrict
  {
  }

  /** The postal code is that of the origin, when it is a sub-district that has one, and no other. */
  lemma PostalOfOrigin(e: Entity, strategies: seq<Strategy>, a: Atlas)
    requires !e.level.OtherLevel?
    ensures Enriched(Seed(e, strategies), a).location.postal
         == if a.hierarchy.Some? && e.level == SubDistrict && e.postalCode != "" then Some(PostalRef(e.id, e.postalCode))
            else None
  {
    hide Normalizer.Normalize, FillDistrict, FillCity, FillProvince;
    if a.hierarchy.Some? {
      var h, seed := a.hierarchy.value, Seed(e, strategies).location;
      FillsOneLevel(seed, h, a);
      FillsOneLevel(FillDistrict(seed, h, a), h, a);
      FillsOneLevel(FillCity(FillDistrict(seed, h, a), h, a), h, a);
    }
  }

  // ---------- Distinct after enrichment ----------

  /** The lowest filled level, which enrichment never changes. */
  lemma EnrichedDistinct(e: Entity, f: Entity, strategies: seq<Strategy>, a: Atlas)
    requires !e.level.OtherLevel? && !f.level.OtherLevel? && e.id != 0 && f.id != 0 && e.id != f.id
    ensures CandidateKey(Enriched(Seed(e, strategies), a)) != CandidateKey(Enriched(Seed(f, strategies), a))
  {
    hide CandidateKey, Enriched;
    var c, d := Enriched(Seed(e, strategies), a), Enriched(Seed(f, strategies), a);
    EnrichedShape(e, strategies, a);
    EnrichedShape(f, strategies, a);
    if CandidateKey(c) == CandidateKey(d) {
      SameKeySameIds(c, d);
    }
  }

  /** Enrichment keeps candidates of distinct origins distinct, so concluding drops none. */
  lemma EnrichedAllDistinct(es: seq<Entity>, strategies: seq<Strategy>, a: Atlas)
    requires ProperOrigins(es) && NonZero(es)
    ensures DistinctKeys(EnrichedAll(Seeds(es, strategies), a))
    ensures FirstByKey(EnrichedAll(Seeds(es, strategies), a), {}) == EnrichedAll(Seeds(es, strategies), a)
  {
    hide CandidateKey, Enriched, Seed;
    var cs := EnrichedAll(Seeds(es, strategies), a);
    forall i, j | 0 <= i < j < |cs|
      ensures CandidateKey(cs[i]) != CandidateKey(cs[j])
    {
      EnrichedDistinct(es[i], es[j], strategies, a);
    }
    DistinctKeysAllFirst(cs, {});
  }

  // ---------- No conflicts ----------

  /** Evidence that names only regions the candidate has. */
  ghost predicate OwnEvidence(c: AdminCandidate) {
    forall i :: 0 <= i < |c.evidence| ==>
      c.evidence[i].resolved.Some? && EntityInCandidate(c, c.evidence[i].resolved.value)
  }

  lemma {:induction false} MatchesAmongOwn(c: AdminCandidate, ev: Evidence, es: seq<Entity>)
    ensures forall me :: me in MatchesAmong(c, ev, es) ==> me.resolved.Some? && EntityInCandidate(c, me.resolved.value)
  {
    if es != [] {
      MatchesAmongOwn(c, ev, es[1..]);
    }
  }

  lemma {:induction false} MatchesOwn(c: AdminCandidate, resolved: seq<ResolvedEvidence>)
    ensures forall me :: me in Matches(c, resolved) ==> me.resolved.Some? && EntityInCandidate(c, me.resolved.value)
  {
    if resolved != [] {
      MatchesAmongOwn(c, resolved[0].evidence, resolved[0].candidates);
      MatchesOwn(c, resolved[1..]);
    }
  }

  lemma {:induction false} NoOtherCities(c: AdminCandidate, es: seq<MatchedEvidence>, seen: set<Int64>)
    requires forall i :: 0 <= i < |es| ==> es[i].resolved.Some? && EntityInCandidate(c, es[i].resolved.value)
    ensures OtherCities(c.location, es, seen) == 0
    decreases es
  {
    if es != [] {
      assert forall i :: 0 <= i < |es| - 1 ==> es[1..][i] == es[i + 1];
      NoOtherCities(c, es[1..], seen);
      var id := ResolvedOf(es[0], City);
      if id.Some? {
        NoOtherCities(c, es[1..], seen + {id.value});
      }
    }
  }

  lemma {:induction false} NoDuplicates(c: AdminCandidate, es: seq<MatchedEvidence>)
    requires forall i :: 0 <= i < |es| ==> es[i].resolved.Some? && EntityInCandidate(c, es[i].resolved.value)
    ensures DuplicateCount(c.location, es) == 0
  {
    if es != [] {
      assert forall i :: 0 <= i < |es| - 1 ==> es[1..][i] == es[i + 1];
      NoDuplicates(c, es[1..]);
    }
  }

  /** The only conflict a pipeline candidate can get is that of a city reached from below whose
      province has no entry; and it gets it exactly then. */
  lemma OnlyOrphansConflict(e: Entity, strategies: seq<Strategy>, a: Atlas, resolved: seq<ResolvedEvidence>)
    requires !e.level.OtherLevel? && OwnIdsInAtlas(a)
    ensures var c := Final(e, strategies, a, resolved);
            NewConflicts(c, a.hierarchy) == If(IsOrphan(c.location), OrphanCity)
  {
    hide Enriched, Matches, OtherCities, DuplicateCount, OwnIdsInAtlas;
    var c := Final(e, strategies, a, resolved);
    EnrichedShape(e, strategies, a);
    if a.hierarchy.Some? {
      EnrichedLinked(e, strategies, a);
    }
    EvidenceIsOwn(e, strategies, a, resolved);
    NoOtherCities(c, c.evidence, {});
    NoDuplicates(c, c.evidence);
    LinkedKeepsHierarchy(c.location, a.hierarchy);
    assert !PostalDiffers(c.location);
    assert [] + If(IsOrphan(c.location), OrphanCity) == If(IsOrphan(c.location), OrphanCity);
  }

  lemma EvidenceIsOwn(e: Entity, strategies: seq<Strategy>, a: Atlas, resolved: seq<ResolvedEvidence>)
    ensures OwnEvidence(Final(e, strategies, a, resolved))
  {
    hide Matches, Enriched;
    var c := Final(e, strategies, a, resolved);
    var before := Enriched(Seed(e, strategies), a);
    MatchesOwn(before, resolved);
    forall i | 0 <= i < |c.evidence|
      ensures c.evidence[i].resolved.Some? && EntityInCandidate(c, c.evidence[i].resolved.value)
    {
      assert c.evidence[i] in c.evidence;
    }
  }

  lemma LinkedKeepsHierarchy(loc: AdminLocation, h: Option<HierarchyMap>)
    requires h.Some? ==> Linked(loc, h.value)
    ensures !BreaksHierarchy(loc, h)
  {
  }

  /** Every province that the hierarchy names has an entry. */
  ghost predicate ProvincesKnown(a: Atlas) {
    a.hierarchy.Some? ==>
      forall c :: c in a.hierarchy.value.cityToProvince ==> a.hierarchy.value.cityToProvince[c] in a.provinceById
  }

  lemma NoOrphans(e: Entity, strategies: seq<Strategy>, a: Atlas)
    requires !e.level.OtherLevel? && OwnIdsInAtlas(a) && ProvincesKnown(a)
    requires a.hierarchy.Some? ==> ClosedUpwards(a.hierarchy.value)
    ensures !IsOrphan(Enriched(Seed(e, strategies), a).location)
  {
  }

  /** Over loaded hierarchy maps with known provinces, no candidate gets a conflict of any kind:
      its status is never CONFLICT or UNKNOWN, and is VALID exactly when province, city and district
      are filled. */
  lemma PipelineNeverConflicts(e: Entity, strategies: seq<Strategy>, a: Atlas, resolved: seq<ResolvedEvidence>)
    requires !e.level.OtherLevel? && OwnIdsInAtlas(a) && ProvincesKnown(a)
    requires a.hierarchy.Some? ==> ClosedUpwards(a.hierarchy.value)
    ensures var c := Final(e, strategies, a, resolved);
            && Contiguous(c.origin, c.location)
            && NewConflicts(c, a.hierarchy) == []
            && AssessQuality(Judged(c, a.hierarchy)) in {Status.Valid, Status.Incomplete}
            && (AssessQuality(Judged(c, a.hierarchy)) == Status.Valid <==>
                  c.location.province.Some? && c.location.city.Some? && c.location.district.Some?)
  {
    hide NewConflicts, Enriched, Matches, OwnIdsInAtlas, ProvincesKnown, ClosedUpwards, Linked;
    OnlyOrphansConflict(e, strategies, a, resolved);
    EnrichedShape(e, strategies, a);
    NoOrphans(e, strategies, a);
  }

  // ---------- Exactly when there is one ----------

  /** The known city that the maps lead to from a district. */
  function CityOfDistrict(district: Int64, h: HierarchyMap, a: Atlas): Option<Int64> {
    if district in h.districtToCity && h.districtToCity[district] in a.cityById then Some(h.districtToCity[district])
    else None
  }

  /** The known city that the maps lead to from a district or sub-district, through known regions. */
  function CityAbove(e: Entity, h: HierarchyMap, a: Atlas): Option<Int64> {
    match e.level
    case District => CityOfDistrict(e.id, h, a)
    case SubDistrict =>
      if e.id in h.subDistrictToDistrict && h.subDistrictToDistrict[e.id] in a.districtById
      then CityOfDistrict(h.subDistrictToDistrict[e.id], h, a)
      else None
    case _ => None
  }

  predicate HasKnownProvince(city: Int64, h: HierarchyMap, a: Atlas) {
    city in h.cityToProvince && h.cityToProvince[city] in a.provinceById
  }

  lemma DistrictOfSub(e: Entity, strategies: seq<Strategy>, h: HierarchyMap, a: Atlas)
    requires e.level == SubDistrict && OwnIdsInAtlas(a)
    ensures var loc := FillDistrict(Seed(e, strategies).location, h, a);
            && loc.city == None && loc.province == None
            && (loc.district.Some? <==>
                  e.id in h.subDistrictToDistrict && h.subDistrictToDistrict[e.id] in a.districtById)
            && (loc.district.Some? ==> loc.district.value.id == h.subDistrictToDistrict[e.id])
  {
    hide Normalizer.Normalize;
  }

  lemma CityFilled(loc: AdminLocation, h: HierarchyMap, a: Atlas)
    requires loc.city == None && loc.province == None && OwnIdsInAtlas(a)
    ensures var c := FillCity(loc, h, a);
            && c.province == None
            && (c.city.Some? <==> loc.district.Some? && CityOfDistrict(loc.district.value.id, h, a).Some?)
            && (c.city.Some? ==> c.city.value.id == CityOfDistrict(loc.district.value.id, h, a).value)
  {
    hide Normalizer.Normalize;
  }

  lemma ProvinceFilled(loc: AdminLocation, h: HierarchyMap, a: Atlas)
    requires loc.province == None
    ensures var c := FillPostal(FillProvince(loc, h, a));
            c.city == loc.city && (c.province.Some? <==> loc.city.Some? && HasKnownProvince(loc.city.value.id, h, a))
  {
    hide Normalizer.Normalize;
  }

  /** What the maps say about the city and province of an enriched district or sub-district. */
  lemma FilledFromMaps(e: Entity, strategies: seq<Strategy>, h: HierarchyMap, a: Atlas)
    requires a.hierarchy == Some(h) && e.level in {District, SubDistrict} && OwnIdsInAtlas(a)
    ensures var loc, city := Enriched(Seed(e, strategies), a).location, CityAbove(e, h, a);
            && (loc.city.Some? <==> city.Some?)
            && (loc.province.Some? <==> city.Some? && HasKnownProvince(city.value, h, a))
  {
    hide OwnIdsInAtlas, Normalizer.Normalize, FillCity, FillProvince, FillPostal, FillDistrict;
    var seed := Seed(e, strategies).location;
    var first := FillDistrict(seed, h, a);
    if e.level == SubDistrict {
      DistrictOfSub(e, strategies, h, a);
    } else {
      DistrictStays(seed, h, a);
    }
    CityFilled(first, h, a);
    ProvinceFilled(FillCity(first, h, a), h, a);
  }

  lemma DistrictStays(loc: AdminLocation, h: HierarchyMap, a: Atlas)
    requires loc.subDistrict == None
    ensures FillDistrict(loc, h, a) == loc
  {
  }

  /** Over any maps, the status is CONFLICT exactly when the origin is a district or sub-district from
      which the maps lead to a known city, and that city's province is unmapped or unknown. */
  lemma ConflictExactlyForOrphans(e: Entity, strategies: seq<Strategy>, a: Atlas, resolved: seq<ResolvedEvidence>)
    requires !e.level.OtherLevel? && OwnIdsInAtlas(a)
    ensures AssessQuality(Judged(Final(e, strategies, a, resolved), a.hierarchy)) == Status.Conflict <==>
              && a.hierarchy.Some?
              && CityAbove(e, a.hierarchy.value, a).Some?
              && !HasKnownProvince(CityAbove(e, a.hierarchy.value, a).value, a.hierarchy.value, a)
  {
    hide NewConflicts, Enriched, Matches, OwnIdsInAtlas, Linked, CityOfDistrict, HasKnownProvince;
    OnlyOrphansConflict(e, strategies, a, resolved);
    EnrichedShape(e, strategies, a);
    if a.hierarchy == None {
      NotEnriched(e, strategies, a);
    } else if e.level in {District, SubDistrict} {
      FilledFromMaps(e, strategies, a.hierarchy.value, a);
    }
  }

  lemma NotEnriched(e: Entity, strategies: seq<Strategy>, a: Atlas)
    requires a.hierarchy == None
    ensures Enriched(Seed(e, strategies), a) == Seed(e, strategies)
    ensures !IsOrphan(Seed(e, strategies).location)
  {
    hide Normalizer.Normalize;
  }

  // ---------- The build as a method ----------

  method BuildCandidates(resolved: seq<ResolvedEvidence>, strategies: seq<Strategy>, a: Atlas)
    returns (r: seq<AdminCandidate>)
    ensures ConclusionsOf(r, EnrichedAll(Discovered(resolved, strategies), a), a.hierarchy, resolved)
  {
    hide EnrichedAll, Discovered, ConclusionsOf, DedupOf, DistinctKeys;
    var cands := DiscoverCandidates(resolved, strategies);
    var deduped := DeduplicateCandidates(cands);
    ghost var firsts :| DedupOf(cands, deduped, firsts);
    DiscoveredDistinct(resolved, strategies);
    DedupOfDistinct(cands, deduped, firsts);
    var slots := new AdminCandidate[|deduped|](i requires 0 <= i < |deduped| => deduped[i]);
    assert slots[..] == deduped;
    EnrichCandidates(slots, a);
    r := BuildConclusions(slots[..], a.hierarchy, resolved);
  }

  /** The location that the pipeline gives the candidate of an entity. */
  function LocationOf(e: Entity, a: Atlas): AdminLocation {
    Enriched(Seed(e, []), a).location
  }

  ghost predicate HasLocation(r: seq<AdminCandidate>, loc: AdminLocation) {
    exists c :: c in r && c.location == loc
  }

  ghost predicate HasOrigin(es: seq<Entity>, loc: AdminLocation, a: Atlas) {
    exists e :: e in es && LocationOf(e, a) == loc
  }

  /** One candidate per entity, with the entity's location. */
  ghost predicate OnePerOrigin(r: seq<AdminCandidate>, es: seq<Entity>, a: Atlas) {
    && |r| == |es|
    && (forall c :: c in r ==> HasOrigin(es, c.location, a))
    && (forall e :: e in es ==> HasLocation(r, LocationOf(e, a)))
  }

  /** The conclusions before sorting. */
  function Assembled(resolved: seq<ResolvedEvidence>, strategies: seq<Strategy>, a: Atlas): seq<AdminCandidate> {
    if a.hierarchy.Some? then FinalAll(Origins(resolved), strategies, a, resolved)
    else EnrichedAll(Discovered(resolved, strategies), a)
  }

  lemma BuildIsAssembled(r: seq<AdminCandidate>, resolved: seq<ResolvedEvidence>, strategies: seq<Strategy>, a: Atlas)
    requires ConclusionsOf(r, EnrichedAll(Discovered(resolved, strategies), a), a.hierarchy, resolved)
    requires NonZero(Origins(resolved))
    ensures multiset(r) == multiset(Assembled(resolved, strategies, a))
  {
    hide Enriched, Seed, Origins, Matches, ProperOrigins, DistinctKeys, CandidateKey, FullerFirst;
    OriginsAreProper(resolved);
    EnrichedAllDistinct(Origins(resolved), strategies, a);
    if a.hierarchy.Some? {
      assert ConcludedAll(EnrichedAll(Discovered(resolved, strategies), a), resolved)
          == FinalAll(Origins(resolved), strategies, a, resolved);
    }
  }

  lemma AssembledLocation(e: Entity, strategies: seq<Strategy>, a: Atlas, resolved: seq<ResolvedEvidence>)
    ensures Final(e, strategies, a, resolved).location == LocationOf(e, a)
    ensures Enriched(Seed(e, strategies), a).location == LocationOf(e, a)
  {
    hide Normalizer.Normalize, Matches, FillPostal, FillProvince, FillCity, FillDistrict;
  }

  lemma AssembledIsOnePerOrigin(resolved: seq<ResolvedEvidence>, strategies: seq<Strategy>, a: Atlas)
    ensures OnePerOrigin(Assembled(resolved, strategies, a), Origins(resolved), a)
  {
    hide Enriched, Seed, Origins, Matches, LocationOf, Final;
    var es, list := Origins(resolved), Assembled(resolved, strategies, a);
    forall i | 0 <= i < |es|
      ensures list[i].location == LocationOf(es[i], a)
    {
      AssembledLocation(es[i], strategies, a, resolved);
    }
    forall e | e in es
      ensures HasLocation(list, LocationOf(e, a))
    {
      var i :| 0 <= i < |es| && es[i] == e;
      assert list[i] in list;
    }
    forall c | c in list
      ensures HasOrigin(es, c.location, a)
    {
      var i :| 0 <= i < |list| && list[i] == c;
      assert es[i] in es;
    }
  }

  lemma SameMembers(r: seq<AdminCandidate>, list: seq<AdminCandidate>)
    requires multiset(r) == multiset(list)
    ensures |r| == |list| && forall c :: c in r <==> c in list
  {
    assert |r| == |multiset(r)| && |list| == |multiset(list)|;
    assert forall c :: c in r <==> c in multiset(r);
    assert forall c :: c in list <==> c in multiset(list);
  }

  /** What the build returns when no id is zero: one candidate per origin. */
  lemma BuildGivesOnePerOrigin(r: seq<AdminCandidate>, resolved: seq<ResolvedEvidence>, strategies: seq<Strategy>,
                               a: Atlas)
    requires ConclusionsOf(r, EnrichedAll(Discovered(resolved, strategies), a), a.hierarchy, resolved)
    requires NonZero(Origins(resolved))
    ensures OnePerOrigin(r, Origins(resolved), a)
  {
    hide ConclusionsOf, Origins, LocationOf, Assembled, HasOrigin;
    var list := Assembled(resolved, strategies, a);
    BuildIsAssembled(r, resolved, strategies, a);
    AssembledIsOnePerOrigin(resolved, strategies, a);
    SameMembers(r, list);
  }

  // ---------- Rebuilding after recovery ----------

  /** Evidence whose entities are all new: none offered before, none twice, each of a proper level. */
  ghost predicate AllNew(resolved: seq<ResolvedEvidence>, recovered: seq<ResolvedEvidence>) {
    && NoRepeats(Offered(recovered))
    && (forall e :: e in Offered(recovered) ==> e.id !in Ids(Offered(resolved)) && !e.level.OtherLevel?)
  }

  lemma {:induction false} OfLevelCounts(es: seq<Entity>)
    requires forall i :: 0 <= i < |es| ==> !es[i].level.OtherLevel?
    ensures |OfLevel(es, Province)| + |OfLevel(es, City)| + |OfLevel(es, District)| + |OfLevel(es, SubDistrict)| == |es|
  {
    if es != [] {
      OfLevelCounts(es[1..]);
    }
  }

  lemma OriginsGrow(resolved: seq<ResolvedEvidence>, recovered: seq<ResolvedEvidence>)
    requires AllNew(resolved, recovered)
    ensures |Origins(resolved + recovered)| == |Origins(resolved)| + |Offered(recovered)|
    ensures forall e :: e in Origins(resolved) ==> e in Origins(resolved + recovered)
    ensures forall e :: e in Offered(recovered) ==> e in Origins(resolved + recovered)
  {
    hide OfLevel, Fresh, Offered, NoRepeats, Ids, ProperOrigins;
    var old', more := Offered(resolved), Offered(recovered);
    OfferedConcat(resolved, recovered);
    FreshConcat(old', more, {});
    assert {} + Ids(old') == Ids(old');
    FreshOfNew(more, Ids(old'));
    var es := Unique(resolved);
    assert Unique(resolved + recovered) == es + more;
    OfLevelConcat(es, more, Province);
    OfLevelConcat(es, more, City);
    OfLevelConcat(es, more, District);
    OfLevelConcat(es, more, SubDistrict);
    assert forall i :: 0 <= i < |more| ==> more[i] in more;
    OfLevelCounts(more);
    OriginsAreProper(resolved);
    OriginsAreProper(resolved + recovered);
  }

  /** The rebuild after recovery only adds: every location of the first build is still there, and
      there is one more candidate for every recovered entity. */
  lemma RebuildOnlyAdds(resolved: seq<ResolvedEvidence>, recovered: seq<ResolvedEvidence>, strategies: seq<Strategy>,
                        a: Atlas, r: seq<AdminCandidate>, r': seq<AdminCandidate>)
    requires AllNew(resolved, recovered) && NonZero(Origins(resolved + recovered))
    requires ConclusionsOf(r, EnrichedAll(Discovered(resolved, strategies), a), a.hierarchy, resolved)
    requires ConclusionsOf(r', EnrichedAll(Discovered(resolved + recovered, strategies), a), a.hierarchy, resolved + recovered)
    ensures |r'| == |r| + |Offered(recovered)|
    ensures forall c :: c in r ==> HasLocation(r', c.location)
  {
    hide ConclusionsOf, Origins, LocationOf, HasLocation, AllNew, Offered;
    OriginsGrow(resolved, recovered);
    var es, all := Origins(resolved), Origins(resolved + recovered);
    assert NonZero(es) by {
      assert forall i :: 0 <= i < |es| ==> es[i] in all;
    }
    BuildGivesOnePerOrigin(r, resolved, strategies, a);
    BuildGivesOnePerOrigin(r', resolved + recovered, strategies, a);
    forall c | c in r
      ensures HasLocation(r', c.location)
    {
      assert HasOrigin(es, c.location, a);
      var e :| e in es && LocationOf(e, a) == c.location;
      assert e in all;
    }
  }
}
