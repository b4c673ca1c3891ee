/**
 Evidence resolution: look up every item, let a lone city name prevail, and add spacing variants
 unless the literal reading already names a sub-district that fits the rest of the address.
 */
module Resolution {
  import opened Wrappers
  import opened Text
  import opened Decimal
  import opened Model
  import opened Phrases
  import opened Dictionary
  import opened CompactPhrases
  import opened CityPriority
  import opened FuzzyTargets

  // ---------- Looking up one item ----------

  /** The regions with the postal code as entities, in order. */
  function WithCode(regions: seq<Region>, code: string): seq<Entity> {
    if regions == [] then []
    else (if regions[0].postalCode == code then [EntityOf(SubDistrict, regions[0])] else []) + WithCode(regions[1..], code)
  }

  /** Those of several cache entries, one entry after the other. */
  ghost function OverKeys(cache: NameCache, keys: seq<string>, code: string): seq<Entity> {
    if keys == [] then []
    else
      var last := keys[|keys| - 1];
      OverKeys(cache, keys[..|keys| - 1], code) + WithCode(if last in cache then cache[last] else [], code)
  }

  /** All keys of the cache, each once. */
  ghost predicate KeyOrder(keys: seq<string>, cache: NameCache) {
    && (forall k :: k in keys <==> k in cache)
    && (forall i, j :: 0 <= i < j < |keys| ==> keys[i] != keys[j])
  }

  /** The cached sub-districts with the code, once for each time they are cached, with the cache
      entries taken in some order. */
  ghost predicate HaveCode(es: seq<Entity>, cache: NameCache, code: string) {
    exists keys :: KeyOrder(keys, cache) && es == OverKeys(cache, keys, code)
  }

  method ResolvePostalCodeEntity(cache: NameCache, code: string) returns (es: seq<Entity>)
    ensures HaveCode(es, cache, code)
  {
    es := [];
    var todo := cache.Keys;
    ghost var keys: seq<string> := [];
    while todo != {}
      invariant todo <= cache.Keys
      invariant forall k :: k in keys <==> k in cache && k !in todo
      invariant forall i, j :: 0 <= i < j < |keys| ==> keys[i] != keys[j]
      invariant es == OverKeys(cache, keys, code)
      decreases todo
    {
      hide WithCode;
      var key :| key in todo;
      es := AppendWithCode(es, cache[key], code);
      assert (keys + [key])[..|keys|] == keys;
      todo, keys := todo - {key}, keys + [key];
    }
    assert KeyOrder(keys, cache);
  }

  method AppendWithCode(es: seq<Entity>, regions: seq<Region>, code: string) returns (r: seq<Entity>)
    ensures r == es + WithCode(regions, code)
  {
    hide EntityOf;
    r := es;
    for i := 0 to |regions|
      invariant es + WithCode(regions, code) == r + WithCode(regions[i..], code)
    {
      assert regions[i..][1..] == regions[i + 1..];
      if regions[i].postalCode == code {
        r := r + [EntityOf(SubDistrict, regions[i])];
      }
    }
  }

  lemma {:induction false} WithCodeMembers(regions: seq<Region>, code: string)
    ensures forall e :: e in WithCode(regions, code) <==>
              exists r :: r in regions && r.postalCode == code && e == EntityOf(SubDistrict, r)
  {
    hide EntityOf;
    if regions != [] {
      WithCodeMembers(regions[1..], code);
      assert forall r :: r in regions <==> r == regions[0] || r in regions[1..];
    }
  }

  lemma {:induction false} OverKeysMembers(cache: NameCache, keys: seq<string>, code: string)
    ensures forall e :: e in OverKeys(cache, keys, code) <==>
              exists k, r :: k in keys && Cached(cache, k, r) && r.postalCode == code && e == EntityOf(SubDistrict, r)
  {
    hide EntityOf, WithCode;
    if keys != [] {
      var front, last := keys[..|keys| - 1], keys[|keys| - 1];
      OverKeysMembers(cache, front, code);
      WithCodeMembers(if last in cache then cache[last] else [], code);
      assert keys == front + [last];
      assert last in cache ==> forall r :: r in cache[last] <==> Cached(cache, last, r);
    }
  }

  /** In particular exactly the cached sub-districts with that code are there. */
  lemma HaveCodeMembers(es: seq<Entity>, cache: NameCache, code: string)
    requires HaveCode(es, cache, code)
    ensures forall e :: e in es <==>
              exists k, r :: Cached(cache, k, r) && r.postalCode == code && e == EntityOf(SubDistrict, r)
  {
    hide EntityOf, OverKeys;
    var keys :| KeyOrder(keys, cache) && es == OverKeys(cache, keys, code);
    OverKeysMembers(cache, keys, code);
  }

  ghost function WordList(we: WordEntities, w: string): seq<Entity> {
    if w in we then we[w] else []
  }

  /** The entities of the word, each id once. */
  method ResolvePlaceNameEntity(we: WordEntities, w: string) returns (unique: seq<Entity>)
    ensures unique == AppendUnique([], WordList(we, w))
  {
    if w !in we {
      return [];
    }
    IdsNone();
    var seen;
    unique, seen := AppendUnseen([], {}, we[w]);
  }

  /** What an item resolves to before the city rule and the spacing variants. */
  ghost predicate LooksUp(re: ResolvedEvidence, ev: Evidence, we: WordEntities, cache: NameCache) {
    && re.evidence == ev
    && match ev.kind
       case PostalCode => HaveCode(re.candidates, cache, ev.value)
       case PlaceName => re.candidates == AppendUnique([], WordList(we, ev.value))
       case RoadName => re.candidates == []
  }

  method LookUp(ev: Evidence, we: WordEntities, cache: NameCache) returns (re: ResolvedEvidence)
    ensures LooksUp(re, ev, we, cache)
  {
    var es: seq<Entity> := [];
    match ev.kind {
      case PostalCode => es := ResolvePostalCodeEntity(cache, ev.value);
      case PlaceName => es := ResolvePlaceNameEntity(we, ev.value);
      case RoadName =>
    }
    re := ResolvedEvidence(ev, es);
  }

  /** What a lookup yields: nothing for a road name, for a place name each id of its word once, for a
      postal code the cached sub-districts with that code. */
  lemma LookUpMeans(re: ResolvedEvidence, ev: Evidence, we: WordEntities, cache: NameCache)
    requires LooksUp(re, ev, we, cache)
    ensures re.evidence == ev
    ensures ev.kind == RoadName ==> re.candidates == []
    ensures ev.kind == PlaceName ==> NoRepeats(re.candidates) && Ids(re.candidates) == Ids(WordList(we, ev.value))
                                     && forall e :: e in re.candidates ==> e in WordList(we, ev.value)
    ensures ev.kind == PostalCode ==> forall e :: e in re.candidates <==>
              exists k, r :: Cached(cache, k, r) && r.postalCode == ev.value && e == EntityOf(SubDistrict, r)
  {
    hide EntityOf, Ids, AppendUnique, HaveCode;
    if ev.kind == PlaceName {
      AppendUniqueKeeps([], WordList(we, ev.value));
      NothingCollected();
    } else if ev.kind == PostalCode {
      HaveCodeMembers(re.candidates, cache, ev.value);
    }
  }

  // ---------- A literal sub-district that fits ----------

  /** The ids of a level among the place-name evidence. */
  ghost predicate NamedAt(resolved: seq<ResolvedEvidence>, level: Level, id: Int64) {
    exists i :: 0 <= i < |resolved| && resolved[i].evidence.kind == PlaceName && NamesAt(resolved[i].candidates, level, id)
  }

  ghost predicate NamesAt(es: seq<Entity>, level: Level, id: Int64) {
    exists k :: 0 <= k < |es| && es[k].level == level && es[k].id == id
  }

  /** No region of the level is named, or this one is. */
  ghost predicate Agrees(resolved: seq<ResolvedEvidence>, level: Level, id: Int64) {
    (forall other :: !NamedAt(resolved, level, other)) || NamedAt(resolved, level, id)
  }

  /** A sub-district whose district, city and province agree with all that is named. */
  ghost predicate FitsHierarchy(resolved: seq<ResolvedEvidence>, h: HierarchyMap, id: Int64) {
    id in h.subDistrictToDistrict &&
    var district := h.subDistrictToDistrict[id];
    var city := Lookup(h.districtToCity, district);
    && Agrees(resolved, District, district) && Agrees(resolved, City, city)
    && Agrees(resolved, Province, Lookup(h.cityToProvince, city))
  }

  ghost predicate HasCompatible(resolved: seq<ResolvedEvidence>, h: Option<HierarchyMap>) {
    h.Some? && exists id :: NamedAt(resolved, SubDistrict, id) && FitsHierarchy(resolved, h.value, id)
  }

  ghost predicate IsLevelSet(ids: set<Int64>, resolved: seq<ResolvedEvidence>, level: Level) {
    forall id :: id in ids <==> NamedAt(resolved, level, id)
  }

  lemma NamedAtSnoc(resolved: seq<ResolvedEvidence>, re: ResolvedEvidence, level: Level, id: Int64)
    ensures NamedAt(resolved + [re], level, id)
       <==> NamedAt(resolved, level, id) || (re.evidence.kind == PlaceName && NamesAt(re.candidates, level, id))
  {
    hide NamesAt;
    var all := resolved + [re];
    assert all[|resolved|] == re;
    if i :| 0 <= i < |resolved| && resolved[i].evidence.kind == PlaceName && NamesAt(resolved[i].candidates, level, id) {
      assert all[i] == resolved[i];
    }
    if i :| 0 <= i < |all| && all[i].evidence.kind == PlaceName && NamesAt(all[i].candidates, level, id) {
      assert i < |resolved| ==> resolved[i] == all[i];
    }
  }

  /** The ids of one item's candidates, added level by level. */
  method AddLevels(es: seq<Entity>, ds: set<Int64>, cs: set<Int64>, ps: set<Int64>)
    returns (districts: set<Int64>, cities: set<Int64>, provinces: set<Int64>)
    ensures forall id :: id in districts <==> id in ds || NamesAt(es, District, id)
    ensures forall id :: id in cities <==> id in cs || NamesAt(es, City, id)
    ensures forall id :: id in provinces <==> id in ps || NamesAt(es, Province, id)
  {
    districts, cities, provinces := ds, cs, ps;
    for k := 0 to |es|
      invariant forall id :: id in districts <==> id in ds || exists m :: 0 <= m < k && es[m].level == District && es[m].id == id
      invariant forall id :: id in cities <==> id in cs || exists m :: 0 <= m < k && es[m].level == City && es[m].id == id
      invariant forall id :: id in provinces <==> id in ps || exists m :: 0 <= m < k && es[m].level == Province && es[m].id == id
    {
      match es[k].level {
        case District => districts := districts + {es[k].id};
        case City => cities := cities + {es[k].id};
        case Province => provinces := provinces + {es[k].id};
        case _ =>
      }
    }
  }

  lemma LevelSetSnoc(ids: set<Int64>, ids': set<Int64>, resolved: seq<ResolvedEvidence>, re: ResolvedEvidence,
                     level: Level)
    requires IsLevelSet(ids, resolved, level)
    requires if re.evidence.kind == PlaceName then forall id :: id in ids' <==> id in ids || NamesAt(re.candidates, level, id)
             else ids' == ids
    ensures IsLevelSet(ids', resolved + [re], level)
  {
    hide NamesAt, NamedAt;
    forall id
      ensures id in ids' <==> NamedAt(resolved + [re], level, id)
    {
      NamedAtSnoc(resolved, re, level, id);
    }
  }

  method CollectLevels(resolved: seq<ResolvedEvidence>)
    returns (districts: set<Int64>, cities: set<Int64>, provinces: set<Int64>)
    ensures IsLevelSet(districts, resolved, District)
    ensures IsLevelSet(cities, resolved, City)
    ensures IsLevelSet(provinces, resolved, Province)
  {
    districts, cities, provinces := {}, {}, {};
    assert forall level :: IsLevelSet({}, resolved[..0], level);
    hide IsLevelSet, NamesAt;
    for i := 0 to |resolved|
      invariant IsLevelSet(districts, resolved[..i], District)
      invariant IsLevelSet(cities, resolved[..i], City)
      invariant IsLevelSet(provinces, resolved[..i], Province)
    {
      ghost var ds, cs, ps := districts, cities, provinces;
      if resolved[i].evidence.kind == PlaceName {
        districts, cities, provinces := AddLevels(resolved[i].candidates, districts, cities, provinces);
      }
      LevelSetSnoc(ds, districts, resolved[..i], resolved[i], District);
      LevelSetSnoc(cs, cities, resolved[..i], resolved[i], City);
      LevelSetSnoc(ps, provinces, resolved[..i], resolved[i], Province);
      assert resolved[..i + 1] == resolved[..i] + [resolved[i]];
    }
    assert resolved[..|resolved|] == resolved;
  }

  lemma SetAgrees(ids: set<Int64>, resolved: seq<ResolvedEvidence>, level: Level, id: Int64)
    requires IsLevelSet(ids, resolved, level)
    ensures ids == {} || id in ids <==> Agrees(resolved, level, id)
  {
    hide NamedAt;
    if ids != {} {
      var other :| other in ids;
      assert NamedAt(resolved, level, other);
    }
  }

  method HasHierarchyCompatibleExactSubdistrict(resolved: seq<ResolvedEvidence>,
                                                h: Option<HierarchyMap>) returns (r: bool)
    ensures r == HasCompatible(resolved, h)
  {
    if h == None {
      return false;
    }
    hide Agrees, IsLevelSet, FitsHierarchy;
    var districts, cities, provinces := CollectLevels(resolved);
    for i := 0 to |resolved|
      invariant forall j, k :: 0 <= j < i && IsSubDistrictAt(resolved, j, k) ==>
                  !FitsHierarchy(resolved, h.value, resolved[j].candidates[k].id)
    {
      if resolved[i].evidence.kind != PlaceName {
        continue;
      }
      var es := resolved[i].candidates;
      for k := 0 to |es|
        invariant forall m :: 0 <= m < k && IsSubDistrictAt(resolved, i, m) ==> !FitsHierarchy(resolved, h.value, es[m].id)
      {
        if es[k].level != SubDistrict {
          continue;
        }
        var fits := Fits(resolved, h.value, es[k].id, districts, cities, provinces);
        if fits {
          assert NamesAt(es, SubDistrict, es[k].id) && NamedAt(resolved, SubDistrict, es[k].id);
          return true;
        }
      }
    }
    return false;
  }

  ghost predicate IsSubDistrictAt(resolved: seq<ResolvedEvidence>, i: int, k: int) {
    && 0 <= i < |resolved| && resolved[i].evidence.kind == PlaceName
    && 0 <= k < |resolved[i].candidates| && resolved[i].candidates[k].level == SubDistrict
  }

  method Fits(ghost resolved: seq<ResolvedEvidence>, h: HierarchyMap, id: Int64,
              districts: set<Int64>, cities: set<Int64>, provinces: set<Int64>)
    returns (r: bool)
    requires IsLevelSet(districts, resolved, District) && IsLevelSet(cities, resolved, City)
    requires IsLevelSet(provinces, resolved, Province)
    ensures r == FitsHierarchy(resolved, h, id)
  {
    hide Agrees, IsLevelSet;
    if id !in h.subDistrictToDistrict {
      return false;
    }
    var district := h.subDistrictToDistrict[id];
    var city := Lookup(h.districtToCity, district);
    var province := Lookup(h.cityToProvince, city);
    SetAgrees(districts, resolved, District, district);
    SetAgrees(cities, resolved, City, city);
    SetAgrees(provinces, resolved, Province, province);
    return (|districts| == 0 || district in districts)
        && (|cities| == 0 || city in cities)
        && (|provinces| == 0 || province in provinces);
  }

  // ----- What the check means -----

  /** The region of a level that the maps lead to from a sub-district. */
  function Above(h: HierarchyMap, id: Int64, level: Level): Int64
    requires id in h.subDistrictToDistrict
  {
    var district := h.subDistrictToDistrict[id];
    var city := Lookup(h.districtToCity, district);
    match level
    case District => district
    case City => city
    case Province => Lookup(h.cityToProvince, city)
    case _ => id
  }

  /** If regions of some level are named, and from no named sub-district do the maps lead to one of
      them, then no literal sub-district is kept to itself. */
  lemma DisagreementBlocks(resolved: seq<ResolvedEvidence>, h: HierarchyMap, level: Level, named: Int64)
    requires level == District || level == City || level == Province
    requires NamedAt(resolved, level, named)
    requires forall id :: NamedAt(resolved, SubDistrict, id) && id in h.subDistrictToDistrict ==>
               !NamedAt(resolved, level, Above(h, id, level))
    ensures !HasCompatible(resolved, Some(h))
  {
    hide NamedAt;
  }

  /** If a named sub-district is mapped, and at every other level either nothing is named or the region
      that the maps lead to is, then there is one. */
  lemma AgreementSuffices(resolved: seq<ResolvedEvidence>, h: HierarchyMap, id: Int64)
    requires NamedAt(resolved, SubDistrict, id) && id in h.subDistrictToDistrict
    requires (exists other :: NamedAt(resolved, District, other)) ==> NamedAt(resolved, District, Above(h, id, District))
    requires (exists other :: NamedAt(resolved, City, other)) ==> NamedAt(resolved, City, Above(h, id, City))
    requires (exists other :: NamedAt(resolved, Province, other)) ==> NamedAt(resolved, Province, Above(h, id, Province))
    ensures HasCompatible(resolved, Some(h))
  {
    hide NamedAt;
    assert Agrees(resolved, District, Above(h, id, District)) && Agrees(resolved, City, Above(h, id, City))
           && Agrees(resolved, Province, Above(h, id, Province));
  }

  // ---------- The whole resolution ----------

  /** Place names with their spacing variants appended; everything else as it was. */
  ghost predicate VariantsAdded(r: seq<ResolvedEvidence>, mid: seq<ResolvedEvidence>, variants: WordEntities) {
    && |r| == |mid|
    && forall i :: 0 <= i < |r| ==>
         r[i] == if mid[i].evidence.kind != PlaceName then mid[i]
                 else mid[i].(candidates := AppendUnique(mid[i].candidates, WordList(variants, mid[i].evidence.value)))
  }

  /** Updates the items in place. */
  method AppendVariants(items: array<ResolvedEvidence>, variants: WordEntities)
    modifies items
    ensures VariantsAdded(items[..], old(items[..]), variants)
  {
    for i := 0 to items.Length
      invariant VariantsAdded(items[..i], old(items[..i]), variants)
      invariant forall k :: i <= k < items.Length ==> items[k] == old(items[k])
    {
      var re := items[i];
      if re.evidence.kind != PlaceName {
        continue;
      }
      var more := if re.evidence.value in variants then variants[re.evidence.value] else [];
      var es := AppendUniqueEntities(re.candidates, more);
      items[i] := re.(candidates := es);
    }
    assert items[..items.Length] == items[..] && old(items[..items.Length]) == old(items[..]);
  }

  method LookUpAll(evidence: seq<Evidence>, we: WordEntities, cache: NameCache) returns (slots: seq<Slot>)
    ensures fresh(slots) && fresh(Buffers(slots)) && Separate(slots) && |slots| == |evidence|
    ensures forall i :: 0 <= i < |slots| ==> LooksUp(slots[i].Value(), evidence[i], we, cache)
  {
    hide LooksUp;
    slots := [];
    for i := 0 to |evidence|
      invariant |slots| == i && Separate(slots) && fresh(slots) && fresh(Buffers(slots))
      invariant forall k :: 0 <= k < i ==> LooksUp(slots[k].Value(), evidence[k], we, cache)
    {
      var slot := NewSlot(evidence[i], we, cache);
      BuffersSnoc(slots, slot);
      slots := slots + [slot];
    }
  }

  method NewSlot(ev: Evidence, we: WordEntities, cache: NameCache) returns (slot: Slot)
    ensures fresh(slot) && fresh(slot.buf) && slot.Valid() && LooksUp(slot.Value(), ev, we, cache)
  {
    var re := LookUp(ev, we, cache);
    var es := re.candidates;
    var buf := new Entity[|es|](k requires 0 <= k < |es| => es[k]);
    slot := new Slot(ev, buf);
    assert buf[..|es|] == es;
    assert slot.Value() == re by {
      SameEvidence(re, ev, we, cache);
    }
  }

  lemma BuffersSnoc(slots: seq<Slot>, slot: Slot)
    ensures Buffers(slots + [slot]) == Buffers(slots) + {slot.buf}
  {
    var all := slots + [slot];
    assert all[|slots|] == slot;
    assert forall i :: 0 <= i < |slots| ==> all[i] == slots[i];
    forall b | b in Buffers(slots)
      ensures b in Buffers(all)
    {
      var i :| 0 <= i < |slots| && slots[i].buf == b;
      assert all[i].buf == b;
    }
    assert all[|slots|].buf == slot.buf;
  }

  lemma SameEvidence(re: ResolvedEvidence, ev: Evidence, we: WordEntities, cache: NameCache)
    requires LooksUp(re, ev, we, cache)
    ensures re.evidence == ev
  {
  }

  /** The intermediate results of a resolution. */
  datatype Stages = Stages(words: WordEntities, first: seq<ResolvedEvidence>, mid: seq<ResolvedEvidence>,
                           variants: WordEntities)

  ghost predicate ResolutionOf(r: seq<ResolvedEvidence>, st: Stages, evidence: seq<Evidence>, h: Option<HierarchyMap>,
                               priority: PrioritySet, roadTokens: set<string>, cache: NameCache) {
    && |st.first| == |evidence|
    && (forall i :: 0 <= i < |st.first| ==> LooksUp(st.first[i], evidence[i], st.words, cache))
    && st.mid == VisitAll(st.first, UpTo(|st.first|), priority, roadTokens)
    && if HasCompatible(st.mid, h) then r == st.mid else VariantsAdded(r, st.mid, st.variants)
  }

  method ResolveEvidence(index: PhraseIndex, source: Int64, evidence: seq<Evidence>, normalizedText: string,
                         compactMatchText: string, roadTokens: set<string>, priority: PrioritySet,
                         h: Option<HierarchyMap>, subDistricts: NameCache)
    returns (r: seq<ResolvedEvidence>, ghost st: Stages)
    requires index.Valid()
    modifies index
    ensures index.Valid() && index.phraseDict == old(index.phraseDict)
    ensures Tracks(st.words, index.phraseDict, source, Fields(normalizedText),
                   PhraseSpans(index.phraseDict, source, Fields(normalizedText)))
    ensures ResolutionOf(r, st, evidence, h, priority, roadTokens, subDistricts)
    ensures !HasCompatible(st.mid, h) ==>
              index.compactPhraseDict.Some?
              && CompactTracks(st.variants, index.compactPhraseDict.value, index.phraseDict, source, Fields(compactMatchText),
                               CompactSpans(index.compactPhraseDict.value, index.phraseDict, source, Fields(compactMatchText)))
  {
    hide Tracks, CompactTracks, LooksUp, VisitAll, HasCompatible, VariantsAdded;
    var words := MatchPhrases(index.phraseDict, source, normalizedText);
    var slots := LookUpAll(evidence, words, subDistricts);
    ghost var first := Values(slots);
    ApplyCityPriority(slots, priority, roadTokens);
    r := ReadSlots(slots);
    ghost var mid := r;
    var variants: WordEntities := map[];
    var compatible := HasHierarchyCompatibleExactSubdistrict(r, h);
    if !compatible {
      variants := index.MatchCompactPhrases(source, compactMatchText);
      var items := new ResolvedEvidence[|r|](i requires 0 <= i < |r| => r[i]);
      assert items[..] == r;
      AppendVariants(items, variants);
      r := items[..];
    }
    st := Stages(words, first, mid, variants);
  }

  method ReadSlots(slots: seq<Slot>) returns (r: seq<ResolvedEvidence>)
    requires Separate(slots)
    ensures r == Values(slots)
  {
    r := [];
    for i := 0 to |slots|
      invariant |r| == i && forall k :: 0 <= k < i ==> r[k] == slots[k].Value()
    {
      r := r + [ResolvedEvidence(slots[i].evidence, slots[i].buf[..slots[i].len])];
    }
  }

  // ---------- What spacing variants may change ----------

  /** Spacing variants never displace a literal candidate: they are appended, with new ids, and only
      where no literal sub-district fits. */
  lemma VariantsOnlyAppend(r: seq<ResolvedEvidence>, st: Stages, evidence: seq<Evidence>, h: Option<HierarchyMap>,
                           priority: PrioritySet, roadTokens: set<string>, cache: NameCache, i: nat)
    requires ResolutionOf(r, st, evidence, h, priority, roadTokens, cache) && i < |r|
    ensures i < |st.mid| && st.mid[i].candidates <= r[i].candidates && r[i].evidence == st.mid[i].evidence
    ensures HasCompatible(st.mid, h) ==> r[i] == st.mid[i]
    ensures NoRepeats(st.mid[i].candidates) ==> NoRepeats(r[i].candidates)
    ensures forall e :: e in r[i].candidates && e !in st.mid[i].candidates ==>
              e in WordList(st.variants, st.mid[i].evidence.value) && e.id !in Ids(st.mid[i].candidates)
    ensures st.mid[i].evidence.kind != PlaceName ==> r[i] == st.mid[i]
    ensures st.mid[i].evidence.kind == PlaceName && !HasCompatible(st.mid, h) ==>
              Ids(r[i].candidates) == Ids(st.mid[i].candidates) + Ids(WordList(st.variants, st.mid[i].evidence.value))
  {
    hide HasCompatible, LooksUp, VisitAll, AppendUnique, NoRepeats, Ids;
    if !HasCompatible(st.mid, h) {
      AppendUniqueKeeps(st.mid[i].candidates, WordList(st.variants, st.mid[i].evidence.value));
      AppendedAreNew(st.mid[i].candidates, WordList(st.variants, st.mid[i].evidence.value));
    }
  }

  lemma {:induction false} AppendedAreNew(dst: seq<Entity>, es: seq<Entity>)
    ensures forall e :: e in AppendUnique(dst, es) && e !in dst ==> e.id !in Ids(dst)
    decreases es
  {
    if es != [] {
      if es[0].id in Ids(dst) {
        AppendedAreNew(dst, es[1..]);
      } else {
        AppendedAreNew(dst + [es[0]], es[1..]);
        IdsSnoc(dst, es[0]);
      }
    }
  }
}
