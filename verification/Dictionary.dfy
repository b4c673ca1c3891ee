/**
 The in-memory name caches, the plain phrase dictionary that is built from them and keyed by
 normalized name, and the appending of entities by id.
 */
module Dictionary {
  import opened Model
  import opened Decimal
  import opened Phrases
  import Normalizer

  // ---------- Name caches ----------

  datatype LocationRow = LocationRow(id: Int64, source: Int64, name: string, postalCode: string)

  type NameCache = map<string, seq<Region>>

  function RegionOf(row: LocationRow): Region {
    Region(row.id, row.name, Normalizer.Normalize(row.name), row.postalCode)
  }

  function RowKey(row: LocationRow): string {
    SourceKey(row.source, Normalizer.Normalize(row.name))
  }

  ghost predicate Cached(cache: NameCache, key: string, r: Region) {
    key in cache && r in cache[key]
  }

  ghost predicate RowAt(rows: seq<LocationRow>, i: int, key: string, r: Region) {
    0 <= i < |rows| && RowKey(rows[i]) == key && RegionOf(rows[i]) == r
  }

  /** The cache lists every row under its source and normalized name, and nothing else. */
  ghost predicate CacheOf(cache: NameCache, rows: seq<LocationRow>) {
    forall key, r :: Cached(cache, key, r) <==> exists i :: RowAt(rows, i, key, r)
  }

  /** Every row can be found by its id, and what is found under an id carries that id. */
  ghost predicate IndexOf(byId: map<Int64, Region>, rows: seq<LocationRow>) {
    && (forall i :: 0 <= i < |rows| ==> rows[i].id in byId)
    && (forall id :: id in byId ==> byId[id].id == id)
    && (forall id :: id in byId ==> FromRows(byId[id], rows))
  }

  ghost predicate FromRows(r: Region, rows: seq<LocationRow>) {
    exists i :: 0 <= i < |rows| && r == RegionOf(rows[i])
  }

  lemma FromMoreRows(r: Region, rows: seq<LocationRow>, row: LocationRow)
    ensures FromRows(r, rows) || r == RegionOf(row) ==> FromRows(r, rows + [row])
  {
    hide RegionOf;
    var all := rows + [row];
    assert all[|rows|] == row;
    if FromRows(r, rows) {
      var i :| 0 <= i < |rows| && r == RegionOf(rows[i]);
      assert all[i] == rows[i];
    }
  }

  lemma IndexGrows(byId: map<Int64, Region>, rows: seq<LocationRow>, row: LocationRow)
    requires IndexOf(byId, rows)
    ensures IndexOf(byId[row.id := RegionOf(row)], rows + [row])
  {
    assert RegionOf(row).id == row.id;
    hide RegionOf, FromRows;
    var byId' := byId[row.id := RegionOf(row)];
    forall id | id in byId'
      ensures FromRows(byId'[id], rows + [row])
    {
      FromMoreRows(byId'[id], rows, row);
    }
  }

  method LoadRegions(rows: seq<LocationRow>) returns (cache: NameCache, byId: map<Int64, Region>)
    ensures CacheOf(cache, rows)
    ensures IndexOf(byId, rows)
  {
    hide RegionOf, RowKey;
    cache, byId := map[], map[];
    for i := 0 to |rows|
      invariant CacheOf(cache, rows[..i])
      invariant IndexOf(byId, rows[..i])
    {
      hide CacheOf, IndexOf;
      var entry, key := RegionOf(rows[i]), RowKey(rows[i]);
      ghost var old' := cache;
      cache := cache[key := (if key in cache then cache[key] else []) + [entry]];
      CacheGrows(old', cache, rows[..i], rows[i]);
      assert rows[..i + 1] == rows[..i] + [rows[i]];
      IndexGrows(byId, rows[..i], rows[i]);
      byId := byId[rows[i].id := entry];
    }
    assert rows[..|rows|] == rows;
  }

  lemma CacheGrows(cache: NameCache, cache': NameCache, rows: seq<LocationRow>, row: LocationRow)
    requires CacheOf(cache, rows)
    requires cache' == cache[RowKey(row) := (if RowKey(row) in cache then cache[RowKey(row)] else []) + [RegionOf(row)]]
    ensures CacheOf(cache', rows + [row])
  {
    hide RegionOf, RowKey;
    var all := rows + [row];
    forall key, r
      ensures Cached(cache', key, r) <==> exists i :: RowAt(all, i, key, r)
    {
      assert Cached(cache', key, r) <==> Cached(cache, key, r) || (key == RowKey(row) && r == RegionOf(row));
      if Cached(cache, key, r) {
        var i :| RowAt(rows, i, key, r);
        assert RowAt(all, i, key, r);
      }
      if key == RowKey(row) && r == RegionOf(row) {
        assert RowAt(all, |rows|, key, r);
      }
      if i :| RowAt(all, i, key, r) {
        assert i < |rows| ==> RowAt(rows, i, key, r);
      }
    }
  }

  // ---------- The phrase dictionary ----------

  ghost predicate Has(dict: PhraseDict, key: string, level: Level, e: Entity) {
    key in dict && level in dict[key] && e in dict[key][level]
  }

  ghost predicate FromCache(cache: NameCache, level: Level, key: string, e: Entity) {
    exists r :: Cached(cache, key, r) && e == EntityOf(level, r)
  }

  method AppendRegions(es: seq<Entity>, level: Level, regions: seq<Region>) returns (r: seq<Entity>)
    ensures forall e :: e in r <==> e in es || exists x :: x in regions && e == EntityOf(level, x)
  {
    hide EntityOf;
    r := es;
    for i := 0 to |regions|
      invariant forall e :: e in r <==> e in es || exists x :: x in regions[..i] && e == EntityOf(level, x)
    {
      assert regions[..i + 1] == regions[..i] + [regions[i]];
      r := r + [EntityOf(level, regions[i])];
    }
    assert regions[..|regions|] == regions;
  }

  ghost predicate NoLevel(dict: PhraseDict, level: Level) {
    forall key :: key in dict ==> level !in dict[key]
  }

  /** r is dict with the entities of the cache at one level besides. */
  ghost predicate LevelAdded(dict: PhraseDict, r: PhraseDict, cache: NameCache, level: Level) {
    && r.Keys == dict.Keys + cache.Keys
    && (forall key, l, e :: l != level ==> (Has(r, key, l, e) <==> Has(dict, key, l, e)))
    && (forall key, e :: Has(r, key, level, e) <==> FromCache(cache, level, key, e))
    && (forall l :: l != level && NoLevel(dict, l) ==> NoLevel(r, l))
  }

  /** The state after the keys in `done` have been copied. */
  ghost predicate PartlyAdded(dict: PhraseDict, r: PhraseDict, cache: NameCache, level: Level, done: set<string>) {
    && r.Keys == dict.Keys + done
    && (forall key, l, e :: l != level ==> (Has(r, key, l, e) <==> Has(dict, key, l, e)))
    && (forall key, e :: Has(r, key, level, e) <==> key in done && FromCache(cache, level, key, e))
    && (forall key :: key in r && key !in done ==> level !in r[key])
    && (forall l :: l != level && NoLevel(dict, l) ==> NoLevel(r, l))
  }

  lemma UpdateOne(r: PhraseDict, r': PhraseDict, key: string, level: Level, entities: seq<Entity>)
    requires r' == r[key := (if key in r then r[key] else map[])[level := entities]]
    ensures forall k, l, e ::
              Has(r', k, l, e) <==> if k == key && l == level then e in entities else Has(r, k, l, e)
  {
  }

  lemma OneKeyAdded(dict: PhraseDict, r: PhraseDict, r': PhraseDict, cache: NameCache, level: Level,
                    done: set<string>, key: string, entities: seq<Entity>)
    requires PartlyAdded(dict, r, cache, level, done)
    requires key in cache && key !in done
    requires forall e :: e in entities <==> FromCache(cache, level, key, e)
    requires r' == r[key := (if key in r then r[key] else map[])[level := entities]]
    ensures PartlyAdded(dict, r', cache, level, done + {key})
  {
    hide FromCache, Has, NoLevel;
    UpdateOne(r, r', key, level, entities);
    assert forall k, e :: Has(r', k, level, e) <==> k in done + {key} && FromCache(cache, level, k, e);
    forall l | l != level && NoLevel(dict, l)
      ensures NoLevel(r', l)
    {
      UpdateKeepsNoLevel(r, r', key, level, entities, l);
    }
  }

  lemma UpdateKeepsNoLevel(r: PhraseDict, r': PhraseDict, key: string, level: Level, entities: seq<Entity>, l: Level)
    requires r' == r[key := (if key in r then r[key] else map[])[level := entities]]
    requires l != level && NoLevel(r, l)
    ensures NoLevel(r', l)
  {
  }

  /** Copies one cache into the dictionary under one level. */
  method AddLevel(dict: PhraseDict, cache: NameCache, level: Level) returns (r: PhraseDict)
    requires NoLevel(dict, level)
    ensures LevelAdded(dict, r, cache, level)
  {
    r := dict;
    var todo := cache.Keys;
    ghost var done: set<string> := {};
    assert PartlyAdded(dict, r, cache, level, done);
    hide PartlyAdded, LevelAdded, FromCache;
    while todo != {}
      invariant done + todo == cache.Keys && done !! todo
      invariant PartlyAdded(dict, r, cache, level, done)
      decreases todo
    {
      var key :| key in todo;
      var byLevel := if key in r then r[key] else map[];
      var entities := AppendRegions([], level, cache[key]);
      ghost var before := r;
      r := r[key := byLevel[level := entities]];
      CacheEntities(cache, level, key, entities);
      OneKeyAdded(dict, before, r, cache, level, done, key, entities);
      todo, done := todo - {key}, done + {key};
    }
    AllAdded(dict, r, cache, level);
  }

  lemma CacheEntities(cache: NameCache, level: Level, key: string, es: seq<Entity>)
    requires key in cache
    requires forall e :: e in es <==> exists x :: x in cache[key] && e == EntityOf(level, x)
    ensures forall e :: e in es <==> FromCache(cache, level, key, e)
  {
    forall e
      ensures e in es <==> FromCache(cache, level, key, e)
    {
      if FromCache(cache, level, key, e) {
        var x :| Cached(cache, key, x) && e == EntityOf(level, x);
      }
      if e in es {
        var x :| x in cache[key] && e == EntityOf(level, x);
        assert Cached(cache, key, x);
      }
    }
  }

  lemma AllAdded(dict: PhraseDict, r: PhraseDict, cache: NameCache, level: Level)
    requires PartlyAdded(dict, r, cache, level, cache.Keys)
    ensures LevelAdded(dict, r, cache, level)
  {
    hide NoLevel;
    forall key, e
      ensures Has(r, key, level, e) <==> FromCache(cache, level, key, e)
    {
      if FromCache(cache, level, key, e) {
        var x :| Cached(cache, key, x) && e == EntityOf(level, x);
      }
    }
  }

  /** The dictionary holds the entities of the four caches, each under its cache key and level. */
  ghost predicate DictOf(dict: PhraseDict, ps: NameCache, cs: NameCache, ds: NameCache, ss: NameCache) {
    && dict.Keys == ps.Keys + cs.Keys + ds.Keys + ss.Keys
    && forall key, level, e ::
         Has(dict, key, level, e) <==>
         match level
         case Province => FromCache(ps, Province, key, e)
         case City => FromCache(cs, City, key, e)
         case District => FromCache(ds, District, key, e)
         case SubDistrict => FromCache(ss, SubDistrict, key, e)
         case OtherLevel(_) => false
  }

  lemma FourLevels(d0: PhraseDict, d1: PhraseDict, d2: PhraseDict, d3: PhraseDict, d4: PhraseDict,
                   ps: NameCache, cs: NameCache, ds: NameCache, ss: NameCache)
    requires d0 == map[]
    requires LevelAdded(d0, d1, ps, Province) && LevelAdded(d1, d2, cs, City)
    requires LevelAdded(d2, d3, ds, District) && LevelAdded(d3, d4, ss, SubDistrict)
    ensures DictOf(d4, ps, cs, ds, ss)
  {
    hide FromCache, NoLevel;
    forall key, level, e
      ensures Has(d4, key, level, e) <==>
              match level
              case Province => FromCache(ps, Province, key, e)
              case City => FromCache(cs, City, key, e)
              case District => FromCache(ds, District, key, e)
              case SubDistrict => FromCache(ss, SubDistrict, key, e)
              case OtherLevel(_) => false
    {
      assert level != SubDistrict ==> (Has(d4, key, level, e) <==> Has(d3, key, level, e));
      assert level != District ==> (Has(d3, key, level, e) <==> Has(d2, key, level, e));
      assert level != City ==> (Has(d2, key, level, e) <==> Has(d1, key, level, e));
    }
  }

  method LoadPhraseDict(ps: NameCache, cs: NameCache, ds: NameCache, ss: NameCache) returns (dict: PhraseDict)
    ensures DictOf(dict, ps, cs, ds, ss)
  {
    dict := map[];
    ghost var d0 := dict;
    assert forall l :: NoLevel(d0, l);
    hide LevelAdded, DictOf, NoLevel;
    dict := AddLevel(dict, ps, Province);
    ghost var d1 := dict;
    OtherLevelsStay(d0, d1, ps, Province);
    dict := AddLevel(dict, cs, City);
    ghost var d2 := dict;
    OtherLevelsStay(d1, d2, cs, City);
    dict := AddLevel(dict, ds, District);
    ghost var d3 := dict;
    OtherLevelsStay(d2, d3, ds, District);
    dict := AddLevel(dict, ss, SubDistrict);
    FourLevels(d0, d1, d2, d3, dict, ps, cs, ds, ss);
  }

  lemma OtherLevelsStay(dict: PhraseDict, r: PhraseDict, cache: NameCache, level: Level)
    requires LevelAdded(dict, r, cache, level)
    ensures forall l :: l != level && NoLevel(dict, l) ==> NoLevel(r, l)
  {
  }

  /** Every entity stands under its own normalized name. */
  ghost predicate KeyedByName(dict: PhraseDict) {
    forall key, level, e :: Has(dict, key, level, e) ==>
      exists source: Int64 :: key == SourceKey(source, Normalizer.Normalize(e.name))
  }

  lemma CacheKeysAreNames(cache: NameCache, rows: seq<LocationRow>, level: Level, key: string, e: Entity)
    requires CacheOf(cache, rows) && FromCache(cache, level, key, e)
    ensures exists source: Int64 :: key == SourceKey(source, Normalizer.Normalize(e.name))
  {
    var r :| Cached(cache, key, r) && e == EntityOf(level, r);
    var i :| RowAt(rows, i, key, r);
    assert key == SourceKey(rows[i].source, Normalizer.Normalize(e.name));
  }

  /** A dictionary loaded from location rows is keyed by normalized name. */
  lemma LoadedIsKeyedByName(dict: PhraseDict, ps: NameCache, cs: NameCache, ds: NameCache, ss: NameCache,
                            p: seq<LocationRow>, c: seq<LocationRow>, d: seq<LocationRow>, s: seq<LocationRow>)
    requires DictOf(dict, ps, cs, ds, ss)
    requires CacheOf(ps, p) && CacheOf(cs, c) && CacheOf(ds, d) && CacheOf(ss, s)
    ensures KeyedByName(dict)
  {
    hide CacheOf, FromCache;
    forall key, level, e | Has(dict, key, level, e)
      ensures exists source: Int64 :: key == SourceKey(source, Normalizer.Normalize(e.name))
    {
      match level
      case Province => CacheKeysAreNames(ps, p, level, key, e);
      case City => CacheKeysAreNames(cs, c, level, key, e);
      case District => CacheKeysAreNames(ds, d, level, key, e);
      case SubDistrict => CacheKeysAreNames(ss, s, level, key, e);
    }
  }

  // ----- From rows to dictionary entries -----

  function RowsOf(level: Level, p: seq<LocationRow>, c: seq<LocationRow>, d: seq<LocationRow>, s: seq<LocationRow>):
    seq<LocationRow>
  {
    match level
    case Province => p
    case City => c
    case District => d
    case SubDistrict => s
    case OtherLevel(_) => []
  }

  /** The row's source and normalized name make the key; the entity has the row's id and name, and at
      the levels that have one its postal code. */
  ghost predicate RowGives(rows: seq<LocationRow>, i: int, key: string, level: Level, e: Entity) {
    && 0 <= i < |rows|
    && key == SourceKey(rows[i].source, Normalizer.Normalize(rows[i].name))
    && e.id == rows[i].id && e.name == rows[i].name && e.level == level
    && e.postalCode == if level == City || level == SubDistrict then rows[i].postalCode else ""
  }

  ghost predicate SomeRowGives(rows: seq<LocationRow>, key: string, level: Level, e: Entity) {
    exists i :: RowGives(rows, i, key, level, e)
  }

  lemma CacheGivesRows(cache: NameCache, rows: seq<LocationRow>, level: Level, key: string, e: Entity)
    requires CacheOf(cache, rows)
    ensures FromCache(cache, level, key, e) <==> SomeRowGives(rows, key, level, e)
  {
    if FromCache(cache, level, key, e) {
      var r :| Cached(cache, key, r) && e == EntityOf(level, r);
      var i :| RowAt(rows, i, key, r);
      assert RowGives(rows, i, key, level, e);
    }
    if i :| RowGives(rows, i, key, level, e) {
      assert RowAt(rows, i, key, RegionOf(rows[i]));
      assert Cached(cache, key, RegionOf(rows[i]));
      assert e == EntityOf(level, RegionOf(rows[i]));
    }
  }

  /** The loaded dictionary holds exactly what the rows of the four levels give. */
  lemma DictionaryOfRows(dict: PhraseDict, ps: NameCache, cs: NameCache, ds: NameCache, ss: NameCache,
                         p: seq<LocationRow>, c: seq<LocationRow>, d: seq<LocationRow>, s: seq<LocationRow>)
    requires DictOf(dict, ps, cs, ds, ss)
    requires CacheOf(ps, p) && CacheOf(cs, c) && CacheOf(ds, d) && CacheOf(ss, s)
    ensures forall key, level, e ::
              Has(dict, key, level, e) <==> SomeRowGives(RowsOf(level, p, c, d, s), key, level, e)
  {
    hide CacheOf, FromCache, SomeRowGives, Has;
    forall key, level, e
      ensures Has(dict, key, level, e) <==> SomeRowGives(RowsOf(level, p, c, d, s), key, level, e)
    {
      match level
      case Province => CacheGivesRows(ps, p, level, key, e);
      case City => CacheGivesRows(cs, c, level, key, e);
      case District => CacheGivesRows(ds, d, level, key, e);
      case SubDistrict => CacheGivesRows(ss, s, level, key, e);
      case OtherLevel(_) => NoRowGives(key, level, e);
    }
  }

  lemma NoRowGives(key: string, level: Level, e: Entity)
    ensures !SomeRowGives([], key, level, e)
  {
  }

  /** With distinct ids, every row is found under its id, with its own name and postal code. */
  lemma RowsAreIndexed(byId: map<Int64, Region>, rows: seq<LocationRow>, i: nat)
    requires IndexOf(byId, rows) && i < |rows|
    requires forall j, k :: 0 <= j < k < |rows| ==> rows[j].id != rows[k].id
    ensures rows[i].id in byId
    ensures var r := byId[rows[i].id];
            r.id == rows[i].id && r.name == rows[i].name && r.postalCode == rows[i].postalCode
            && r.normalizedName == Normalizer.Normalize(rows[i].name)
  {
    assert FromRows(byId[rows[i].id], rows);
    var j :| 0 <= j < |rows| && byId[rows[i].id] == RegionOf(rows[j]);
    assert rows[j].id == rows[i].id;
  }

  // ---------- Appending without repetition ----------

  /** Appends each entity whose id is not there yet. */
  ghost function AppendUnique(dst: seq<Entity>, es: seq<Entity>): seq<Entity>
    decreases es
  {
    if es == [] then dst
    else if es[0].id in Ids(dst) then AppendUnique(dst, es[1..])
    else AppendUnique(dst + [es[0]], es[1..])
  }

  lemma IdsNone()
    ensures Ids([]) == {}
  {
  }

  lemma IdsSnoc(es: seq<Entity>, e: Entity)
    ensures Ids(es + [e]) == Ids(es) + {e.id}
  {
    assert forall x :: x in es + [e] <==> x in es || x == e;
  }

  lemma NoRepeatsSnoc(es: seq<Entity>, e: Entity)
    requires e.id !in Ids(es)
    ensures NoRepeats(es) ==> NoRepeats(es + [e])
  {
    assert forall i :: 0 <= i < |es| ==> es[i] in es;
  }

  lemma {:induction false} AppendUniqueKeeps(dst: seq<Entity>, es: seq<Entity>)
    ensures Ids(AppendUnique(dst, es)) == Ids(dst) + Ids(es)
    ensures NoRepeats(dst) ==> NoRepeats(AppendUnique(dst, es))
    ensures dst <= AppendUnique(dst, es)
    ensures forall e :: e in AppendUnique(dst, es) ==> e in dst || e in es
    decreases es
  {
    hide NoRepeats;
    if es != [] {
      assert Ids(es) == {es[0].id} + Ids(es[1..]) by {
        assert forall x :: x in es <==> x == es[0] || x in es[1..];
      }
      if es[0].id in Ids(dst) {
        AppendUniqueKeeps(dst, es[1..]);
      } else {
        IdsSnoc(dst, es[0]);
        NoRepeatsSnoc(dst, es[0]);
        AppendUniqueKeeps(dst + [es[0]], es[1..]);
      }
    }
  }

  method AppendUniqueEntities(dst: seq<Entity>, entities: seq<Entity>) returns (r: seq<Entity>)
    ensures r == AppendUnique(dst, entities)
  {
    hide Ids;
    var seen: set<Int64> := {};
    IdsNone();
    for i := 0 to |dst|
      invariant seen == Ids(dst[..i])
    {
      IdsSnoc(dst[..i], dst[i]);
      assert dst[..i + 1] == dst[..i] + [dst[i]];
      seen := seen + {dst[i].id};
    }
    assert dst[..|dst|] == dst;
    r := dst;
    for i := 0 to |entities|
      invariant seen == Ids(r)
      invariant AppendUnique(dst, entities) == AppendUnique(r, entities[i..])
    {
      assert entities[i..][1..] == entities[i + 1..];
      if entities[i].id in seen {
        continue;
      }
      IdsSnoc(r, entities[i]);
      seen := seen + {entities[i].id};
      r := r + [entities[i]];
    }
  }
}
