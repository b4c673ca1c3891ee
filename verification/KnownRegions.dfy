/**
 Regions as the schema keeps them, all in one table: every id belongs to one level. Entities that
 are known under the level that they name stay so through enrichment and neighborhoods.
 */
module KnownRegions {
  import opened Wrappers
  import opened Decimal
  import opened Model
  import opened Candidates
  import opened Conclusions
  import opened Neighborhood
  import opened Pipeline
  import Normalizer

  function ById(a: Atlas, level: Level): map<Int64, Region> {
    match level
    case Province => a.provinceById
    case City => a.cityById
    case District => a.districtById
    case SubDistrict => a.subDistrictById
    case OtherLevel(_) => map[]
  }

  /** All regions come from one table: each is stored under its own id, and no id under two levels. */
  ghost predicate OneTable(a: Atlas) {
    && (forall level, id :: id in ById(a, level) ==> ById(a, level)[id].id == id)
    && (forall l, m, id :: id in ById(a, l) && id in ById(a, m) ==> l == m)
  }

  ghost predicate Known(e: Entity, a: Atlas) {
    e.id in ById(a, e.level)
  }

  /** Every resolved entity is known under the level that it names. */
  ghost predicate AllKnown(resolved: seq<ResolvedEvidence>, a: Atlas) {
    forall i, e :: 0 <= i < |resolved| && e in resolved[i].candidates ==> Known(e, a)
  }

  ghost predicate RegionKnown(r: Option<Region>, byId: map<Int64, Region>) {
    r.Some? ==> r.value.id in byId
  }

  ghost predicate LocationKnown(loc: AdminLocation, a: Atlas) {
    && RegionKnown(loc.province, a.provinceById) && RegionKnown(loc.city, a.cityById)
    && RegionKnown(loc.district, a.districtById) && RegionKnown(loc.subDistrict, a.subDistrictById)
  }

  lemma SeedKnown(e: Entity, strategies: seq<Strategy>, a: Atlas)
    requires Known(e, a)
    ensures LocationKnown(Seed(e, strategies).location, a)
  {
    hide Normalizer.Normalize;
  }

  lemma FillKeepsKnown(loc: AdminLocation, h: HierarchyMap, a: Atlas)
    requires OneTable(a) && LocationKnown(loc, a)
    ensures LocationKnown(FillDistrict(loc, h, a), a)
    ensures LocationKnown(FillCity(loc, h, a), a)
    ensures LocationKnown(FillProvince(loc, h, a), a)
    ensures LocationKnown(FillPostal(loc), a)
  {
    hide Normalizer.Normalize;
    assert ById(a, District) == a.districtById && ById(a, City) == a.cityById && ById(a, Province) == a.provinceById;
  }

  lemma EnrichedKnown(e: Entity, strategies: seq<Strategy>, a: Atlas)
    requires OneTable(a) && Known(e, a)
    ensures LocationKnown(Enriched(Seed(e, strategies), a).location, a)
  {
    hide OneTable, LocationKnown, FillDistrict, FillCity, FillProvince, FillPostal, Known, Seed;
    SeedKnown(e, strategies, a);
    if a.hierarchy.Some? {
      var h, loc := a.hierarchy.value, Seed(e, strategies).location;
      FillKeepsKnown(loc, h, a);
      FillKeepsKnown(FillDistrict(loc, h, a), h, a);
      FillKeepsKnown(FillCity(FillDistrict(loc, h, a), h, a), h, a);
      FillKeepsKnown(FillProvince(FillCity(FillDistrict(loc, h, a), h, a), h, a), h, a);
    }
  }

  lemma NeighborKnown(loc: AdminLocation, a: Atlas, e: Entity)
    requires OneTable(a) && LocationKnown(loc, a) && InNeighborhood(loc, a, e)
    ensures Known(e, a)
  {
    assert ById(a, District) == a.districtById && ById(a, City) == a.cityById && ById(a, SubDistrict) == a.subDistrictById;
  }

  lemma OriginsKnown(resolved: seq<ResolvedEvidence>, a: Atlas, e: Entity)
    requires AllKnown(resolved, a) && e in Origins(resolved)
    ensures Known(e, a)
  {
    hide Known, OfLevel, Fresh, Offered, NoRepeats;
    OriginsAreProper(resolved);
    FreshIs(Offered(resolved), {});
    OfferedIn(resolved, e);
  }
}
