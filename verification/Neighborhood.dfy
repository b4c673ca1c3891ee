/**
 The vocabulary around a candidate: its own chain of regions and the children of its deepest one,
 read from parent-to-children indexes that are built on first use.
 */
module Neighborhood {
  import opened Wrappers
  import opened Decimal
  import opened Model

  type Children = map<Int64, seq<Region>>

  // ---------- The child indexes ----------

  ghost predicate IsChild(byId: map<Int64, Region>, parents: map<Int64, Int64>, ids: set<Int64>, p: Int64, r: Region) {
    exists id :: id in ids && id in byId && id in parents && parents[id] == p && byId[id] == r
  }

  ghost predicate ListedChild(m: Children, p: Int64, r: Region) {
    p in m && r in m[p]
  }

  /** The index lists, under every parent, the entries of `ids` whose parent it is. */
  ghost predicate ChildrenOf(m: Children, byId: map<Int64, Region>, parents: map<Int64, Int64>, ids: set<Int64>) {
    forall p, r :: ListedChild(m, p, r) <==> IsChild(byId, parents, ids, p, r)
  }

  lemma OneMoreChild(m: Children, m': Children, byId: map<Int64, Region>, parents: map<Int64, Int64>, ids: set<Int64>,
                     id: Int64)
    requires ChildrenOf(m, byId, parents, ids) && id in byId
    requires if id in parents
             then m' == m[parents[id] := (if parents[id] in m then m[parents[id]] else []) + [byId[id]]]
             else m' == m
    ensures ChildrenOf(m', byId, parents, ids + {id})
  {
    forall p, r
      ensures ListedChild(m', p, r) <==> IsChild(byId, parents, ids + {id}, p, r)
    {
      assert ListedChild(m', p, r) <==>
               ListedChild(m, p, r) || (id in parents && p == parents[id] && r == byId[id]);
      if IsChild(byId, parents, ids, p, r) {
        var k :| k in ids && k in byId && k in parents && parents[k] == p && byId[k] == r;
        assert k in ids + {id};
      }
    }
  }

  /** Visits the entries in no particular order. */
  method IndexChildren(byId: map<Int64, Region>, parents: map<Int64, Int64>) returns (m: Children)
    ensures ChildrenOf(m, byId, parents, byId.Keys)
  {
    m := map[];
    var todo := byId.Keys;
    ghost var done: set<Int64> := {};
    while todo != {}
      invariant done + todo == byId.Keys && done !! todo
      invariant ChildrenOf(m, byId, parents, done)
      decreases todo
    {
      hide ChildrenOf;
      var id :| id in todo;
      ghost var before := m;
      if id in parents {
        var p := parents[id];
        m := m[p := (if p in m then m[p] else []) + [byId[id]]];
      }
      OneMoreChild(before, m, byId, parents, done, id);
      todo, done := todo - {id}, done + {id};
    }
    assert done == byId.Keys;
  }

  // ---------- The neighborhood ----------

  /** One of the candidate's own regions. */
  ghost predicate OnChain(loc: AdminLocation, e: Entity) {
    || (loc.province.Some? && e == EntityOf(Province, loc.province.value))
    || (loc.city.Some? && e == EntityOf(City, loc.city.value))
    || (loc.district.Some? && e == EntityOf(District, loc.district.value))
    || (loc.subDistrict.Some? && e == EntityOf(SubDistrict, loc.subDistrict.value))
  }

  ghost predicate ChildEntity(level: Level, byId: map<Int64, Region>, parents: map<Int64, Int64>, p: Int64, e: Entity) {
    exists r :: IsChild(byId, parents, byId.Keys, p, r) && e == EntityOf(level, r)
  }

  /** A child of the deepest filled region. */
  ghost predicate BelowDeepest(loc: AdminLocation, h: HierarchyMap, a: Atlas, e: Entity) {
    if loc.subDistrict.Some? then false
    else if loc.district.Some? then
      ChildEntity(SubDistrict, a.subDistrictById, h.subDistrictToDistrict, loc.district.value.id, e)
    else if loc.city.Some? then ChildEntity(District, a.districtById, h.districtToCity, loc.city.value.id, e)
    else loc.province.Some? && ChildEntity(City, a.cityById, h.cityToProvince, loc.province.value.id, e)
  }

  ghost predicate InNeighborhood(loc: AdminLocation, a: Atlas, e: Entity) {
    a.hierarchy.Some? && e.id != 0 && (OnChain(loc, e) || BelowDeepest(loc, a.hierarchy.value, a, e))
  }

  /** The neighborhood as a list with one entity per id. */
  ghost predicate NeighborhoodOf(es: seq<Entity>, loc: AdminLocation, a: Atlas) {
    && NoRepeats(es)
    && (forall e :: e in es ==> InNeighborhood(loc, a, e))
    && (forall e :: InNeighborhood(loc, a, e) ==> e.id in Ids(es))
  }

  /** `es` holds, with one entity per id, those of the offered entities whose id is not zero. */
  ghost predicate Holds(es: seq<Entity>, seen: set<Int64>, offered: iset<Entity>) {
    && NoRepeats(es) && seen == Ids(es)
    && (forall e :: e in es ==> e in offered && e.id != 0)
    && (forall e :: e in offered && e.id != 0 ==> e.id in seen)
  }

  lemma HoldsMore(es: seq<Entity>, seen: set<Int64>, offered: iset<Entity>, e: Entity)
    requires Holds(es, seen, offered)
    ensures e.id == 0 || e.id in seen ==> Holds(es, seen, offered + iset{e})
    ensures e.id != 0 && e.id !in seen ==> Holds(es + [e], seen + {e.id}, offered + iset{e})
  {
    assert forall x :: x in es ==> x.id in seen;
    if e.id != 0 && e.id !in seen {
      assert Ids(es + [e]) == Ids(es) + {e.id} by {
        assert forall x :: x in es + [e] <==> x in es || x == e;
      }
    }
  }

  /** The add closure: skips zero ids and ids seen before. */
  method Add(es: seq<Entity>, seen: set<Int64>, ghost offered: iset<Entity>, e: Entity)
    returns (es': seq<Entity>, seen': set<Int64>)
    requires Holds(es, seen, offered)
    ensures Holds(es', seen', offered + iset{e})
  {
    hide Holds;
    HoldsMore(es, seen, offered, e);
    if e.id == 0 || e.id in seen {
      return es, seen;
    }
    return es + [e], seen + {e.id};
  }

  method AddChildren(es: seq<Entity>, seen: set<Int64>, ghost offered: iset<Entity>, level: Level, m: Children,
                     p: Int64)
    returns (es': seq<Entity>, seen': set<Int64>)
    requires Holds(es, seen, offered)
    ensures Holds(es', seen', offered + iset r | ListedChild(m, p, r) :: EntityOf(level, r))
  {
    es', seen' := es, seen;
    var rs := if p in m then m[p] else [];
    ghost var now := offered;
    for i := 0 to |rs|
      invariant Holds(es', seen', now)
      invariant forall e :: e in now <==> e in offered || exists k :: 0 <= k < i && e == EntityOf(level, rs[k])
    {
      hide Holds;
      es', seen' := Add(es', seen', now, EntityOf(level, rs[i]));
      now := now + iset{EntityOf(level, rs[i])};
    }
    assert now == offered + iset r | ListedChild(m, p, r) :: EntityOf(level, r) by {
      forall e
        ensures e in now <==> e in offered + iset r | ListedChild(m, p, r) :: EntityOf(level, r)
      {
        if e in iset r | ListedChild(m, p, r) :: EntityOf(level, r) {
          var r :| ListedChild(m, p, r) && e == EntityOf(level, r);
          var k :| 0 <= k < |rs| && rs[k] == r;
          assert e == EntityOf(level, rs[k]);
        }
        if k :| 0 <= k < |rs| && e == EntityOf(level, rs[k]) {
          assert ListedChild(m, p, rs[k]);
        }
      }
    }
  }

  ghost function Single(level: Level, r: Option<Region>): iset<Entity> {
    if r.Some? then iset{EntityOf(level, r.value)} else iset{}
  }

  /** One region of the chain, when that level is filled. */
  method AddRegion(es: seq<Entity>, seen: set<Int64>, ghost offered: iset<Entity>, level: Level, r: Option<Region>)
    returns (es': seq<Entity>, seen': set<Int64>)
    requires Holds(es, seen, offered)
    ensures Holds(es', seen', offered + Single(level, r))
  {
    hide Holds, EntityOf;
    if r == None {
      assert offered + iset{} == offered;
      return es, seen;
    }
    es', seen' := Add(es, seen, offered, EntityOf(level, r.value));
  }

  lemma ChainIs(loc: AdminLocation)
    ensures (iset e | OnChain(loc, e))
         == iset{} + Single(Province, loc.province) + Single(City, loc.city) + Single(District, loc.district)
            + Single(SubDistrict, loc.subDistrict)
  {
    hide EntityOf;
  }

  method AddChain(loc: AdminLocation) returns (es: seq<Entity>, seen: set<Int64>)
    ensures Holds(es, seen, iset e | OnChain(loc, e))
  {
    es, seen := [], {};
    assert Holds(es, seen, iset{});
    hide Holds, Single;
    ghost var offered: iset<Entity> := iset{};
    es, seen := AddRegion(es, seen, offered, Province, loc.province);
    offered := offered + Single(Province, loc.province);
    es, seen := AddRegion(es, seen, offered, City, loc.city);
    offered := offered + Single(City, loc.city);
    es, seen := AddRegion(es, seen, offered, District, loc.district);
    offered := offered + Single(District, loc.district);
    es, seen := AddRegion(es, seen, offered, SubDistrict, loc.subDistrict);
    ChainIs(loc);
  }

  lemma ChildrenAreBelow(m: Children, level: Level, byId: map<Int64, Region>, parents: map<Int64, Int64>, p: Int64)
    requires ChildrenOf(m, byId, parents, byId.Keys)
    ensures (iset r | ListedChild(m, p, r) :: EntityOf(level, r)) == iset e | ChildEntity(level, byId, parents, p, e)
  {
    hide IsChild, ListedChild, EntityOf;
    forall e
      ensures e in (iset r | ListedChild(m, p, r) :: EntityOf(level, r)) <==> ChildEntity(level, byId, parents, p, e)
    {
      if ChildEntity(level, byId, parents, p, e) {
        var r :| IsChild(byId, parents, byId.Keys, p, r) && e == EntityOf(level, r);
        assert ListedChild(m, p, r);
      }
      if e in iset r | ListedChild(m, p, r) :: EntityOf(level, r) {
        var r :| ListedChild(m, p, r) && e == EntityOf(level, r);
        assert IsChild(byId, parents, byId.Keys, p, r);
      }
    }
  }

  /** The service state that recovery reads: the atlas, and the lazily built child indexes. */
  class LocationIndex {
    const atlas: Atlas
    var loaded: bool
    var citiesByProvince: Children
    var districtsByCity: Children
    var subDistrictsByDistrict: Children

    /** The indexes are right once they have been built. */
    ghost predicate Valid()
      reads this
    {
      loaded && atlas.hierarchy.Some? ==>
        var h := atlas.hierarchy.value;
        && ChildrenOf(citiesByProvince, atlas.cityById, h.cityToProvince, atlas.cityById.Keys)
        && ChildrenOf(districtsByCity, atlas.districtById, h.districtToCity, atlas.districtById.Keys)
        && ChildrenOf(subDistrictsByDistrict, atlas.subDistrictById, h.subDistrictToDistrict, atlas.subDistrictById.Keys)
    }

    constructor (atlas: Atlas)
      ensures Valid() && this.atlas == atlas && !loaded
    {
      this.atlas, loaded := atlas, false;
      citiesByProvince, districtsByCity, subDistrictsByDistrict := map[], map[], map[];
    }

    method EnsureChildrenIndexesLoaded()
      requires Valid()
      modifies this
      ensures Valid() && loaded
      ensures old(loaded) ==> unchanged(this)
    {
      if loaded {
        return;
      }
      loaded := true;
      citiesByProvince, districtsByCity, subDistrictsByDistrict := map[], map[], map[];
      if atlas.hierarchy == None {
        return;
      }
      var h := atlas.hierarchy.value;
      citiesByProvince := IndexChildren(atlas.cityById, h.cityToProvince);
      districtsByCity := IndexChildren(atlas.districtById, h.districtToCity);
      subDistrictsByDistrict := IndexChildren(atlas.subDistrictById, h.subDistrictToDistrict);
    }

    method CandidateNeighborhood(c: AdminCandidate) returns (es: seq<Entity>)
      requires Valid()
      modifies this
      ensures Valid() && NeighborhoodOf(es, c.location, atlas)
    {
      hide OnChain, ChildEntity, EntityOf, ChildrenOf;
      if atlas.hierarchy == None {
        return [];
      }
      EnsureChildrenIndexesLoaded();
      var loc, h := c.location, atlas.hierarchy.value;
      var seen;
      es, seen := AddChain(loc);
      ghost var chain := iset e | OnChain(loc, e);
      ghost var all := iset e | OnChain(loc, e) || BelowDeepest(loc, h, atlas, e);
      if loc.subDistrict.Some? {
        assert all == chain;
      } else if loc.district.Some? {
        var p := loc.district.value.id;
        ChildrenAreBelow(subDistrictsByDistrict, SubDistrict, atlas.subDistrictById, h.subDistrictToDistrict, p);
        es, seen := AddChildren(es, seen, chain, SubDistrict, subDistrictsByDistrict, p);
        assert all == chain + iset e | ChildEntity(SubDistrict, atlas.subDistrictById, h.subDistrictToDistrict, p, e);
      } else if loc.city.Some? {
        var p := loc.city.value.id;
        ChildrenAreBelow(districtsByCity, District, atlas.districtById, h.districtToCity, p);
        es, seen := AddChildren(es, seen, chain, District, districtsByCity, p);
        assert all == chain + iset e | ChildEntity(District, atlas.districtById, h.districtToCity, p, e);
      } else if loc.province.Some? {
        var p := loc.province.value.id;
        ChildrenAreBelow(citiesByProvince, City, atlas.cityById, h.cityToProvince, p);
        es, seen := AddChildren(es, seen, chain, City, citiesByProvince, p);
        assert all == chain + iset e | ChildEntity(City, atlas.cityById, h.cityToProvince, p, e);
      } else {
        assert all == chain;
      }
      HoldsIsNeighborhood(es, seen, loc, atlas);
    }
  }

  lemma HoldsIsNeighborhood(es: seq<Entity>, seen: set<Int64>, loc: AdminLocation, a: Atlas)
    requires a.hierarchy.Some?
    requires Holds(es, seen, iset e | OnChain(loc, e) || BelowDeepest(loc, a.hierarchy.value, a, e))
    ensures NeighborhoodOf(es, loc, a)
  {
    hide OnChain, BelowDeepest;
  }

  /** Every neighbor has one of the four levels. */
  lemma NeighborsHaveLevels(loc: AdminLocation, a: Atlas, e: Entity)
    requires InNeighborhood(loc, a, e)
    ensures !e.level.OtherLevel? && e.id != 0
  {
  }

  // ---------- Who the neighbors are ----------

  /** A region entry as an entity of its level. */
  ghost predicate Stands(e: Entity, r: Region, level: Level) {
    && e.id == r.id && e.name == r.name && e.level == level
    && e.postalCode == if level == City || level == SubDistrict then r.postalCode else ""
  }

  /** Some entry, below the parent by the map, stands as the entity. */
  ghost predicate StandsBelow(e: Entity, level: Level, byId: map<Int64, Region>, parents: map<Int64, Int64>,
                              parent: Int64) {
    exists id :: id in byId && id in parents && parents[id] == parent && Stands(e, byId[id], level)
  }

  ghost predicate StandsInChain(loc: AdminLocation, e: Entity) {
    || (loc.province.Some? && Stands(e, loc.province.value, Province))
    || (loc.city.Some? && Stands(e, loc.city.value, City))
    || (loc.district.Some? && Stands(e, loc.district.value, District))
    || (loc.subDistrict.Some? && Stands(e, loc.subDistrict.value, SubDistrict))
  }

  lemma ChildStandsBelow(e: Entity, level: Level, byId: map<Int64, Region>, parents: map<Int64, Int64>, p: Int64)
    ensures ChildEntity(level, byId, parents, p, e) <==> StandsBelow(e, level, byId, parents, p)
  {
    if ChildEntity(level, byId, parents, p, e) {
      var r :| IsChild(byId, parents, byId.Keys, p, r) && e == EntityOf(level, r);
      var id :| id in byId.Keys && id in byId && id in parents && parents[id] == p && byId[id] == r;
      assert Stands(e, byId[id], level);
    }
    if StandsBelow(e, level, byId, parents, p) {
      var id :| id in byId && id in parents && parents[id] == p && Stands(e, byId[id], level);
      assert id in byId.Keys;
      assert IsChild(byId, parents, byId.Keys, p, byId[id]);
    }
  }

  /** With a loaded hierarchy the neighbors are the chain's own regions and, below a district the
      sub-districts, below a city without district the districts, below a province alone the cities. */
  lemma NeighborsExactly(loc: AdminLocation, a: Atlas, h: HierarchyMap, e: Entity)
    requires a.hierarchy == Some(h) && e.id != 0
    ensures InNeighborhood(loc, a, e) <==>
              || StandsInChain(loc, e)
              || (loc.subDistrict == None && loc.district.Some?
                  && StandsBelow(e, SubDistrict, a.subDistrictById, h.subDistrictToDistrict, loc.district.value.id))
              || (loc.subDistrict == None && loc.district == None && loc.city.Some?
                  && StandsBelow(e, District, a.districtById, h.districtToCity, loc.city.value.id))
              || (loc.subDistrict == None && loc.district == None && loc.city == None && loc.province.Some?
                  && StandsBelow(e, City, a.cityById, h.cityToProvince, loc.province.value.id))
  {
    hide ChildEntity, StandsBelow;
    if loc.district.Some? {
      ChildStandsBelow(e, SubDistrict, a.subDistrictById, h.subDistrictToDistrict, loc.district.value.id);
    }
    if loc.city.Some? {
      ChildStandsBelow(e, District, a.districtById, h.districtToCity, loc.city.value.id);
    }
    if loc.province.Some? {
      ChildStandsBelow(e, City, a.cityById, h.cityToProvince, loc.province.value.id);
    }
    assert OnChain(loc, e) <==> StandsInChain(loc, e);
  }
}
