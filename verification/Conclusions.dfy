/**
 Enrichment and conclusions: parents are filled upwards from the hierarchy maps, repeated
 locations dropped, evidence attached, and the fuller locations sorted to the front.
 */
module Conclusions {
  import opened Wrappers
  import opened Decimal
  import opened Model
  import opened Deduplication
  import Normalizer

  // ---------- Enrichment ----------

  /** A copy of a cached entry, its normalized name computed anew. */
  function Copy(entry: Region, postalCode: string): Region {
    Region(entry.id, entry.name, Normalizer.Normalize(entry.name), postalCode)
  }

  /** The parent of a filled level, when the map and the cache both know it. */
  function Parent(child: Option<Region>, parents: map<Int64, Int64>, byId: map<Int64, Region>): Option<Region> {
    if child.Some? && child.value.id in parents && parents[child.value.id] in byId
    then Some(byId[parents[child.value.id]])
    else None
  }

  function FillDistrict(loc: AdminLocation, h: HierarchyMap, a: Atlas): AdminLocation {
    var p := Parent(loc.subDistrict, h.subDistrictToDistrict, a.districtById);
    if loc.district == None && p.Some? then loc.(district := Some(Copy(p.value, ""))) else loc
  }

  function FillCity(loc: AdminLocation, h: HierarchyMap, a: Atlas): AdminLocation {
    var p := Parent(loc.district, h.districtToCity, a.cityById);
    if loc.city == None && p.Some? then loc.(city := Some(Copy(p.value, p.value.postalCode))) else loc
  }

  function FillProvince(loc: AdminLocation, h: HierarchyMap, a: Atlas): AdminLocation {
    var p := Parent(loc.city, h.cityToProvince, a.provinceById);
    if loc.province == None && p.Some? then loc.(province := Some(Copy(p.value, ""))) else loc
  }

  function FillPostal(loc: AdminLocation): AdminLocation {
    if loc.subDistrict.Some? && loc.subDistrict.value.postalCode != "" && loc.postal == None
    then loc.(postal := Some(PostalRef(loc.subDistrict.value.id, loc.subDistrict.value.postalCode)))
    else loc
  }

  function Enriched(c: AdminCandidate, a: Atlas): AdminCandidate {
    match a.hierarchy
    case None => c
    case Some(h) =>
      c.(location := FillPostal(FillProvince(FillCity(FillDistrict(c.location, h, a), h, a), h, a)))
  }

  function EnrichedAll(cs: seq<AdminCandidate>, a: Atlas): (r: seq<AdminCandidate>)
    ensures |r| == |cs| && forall i :: 0 <= i < |cs| ==> r[i] == Enriched(cs[i], a)
  {
    if cs == [] then [] else [Enriched(cs[0], a)] + EnrichedAll(cs[1..], a)
  }

  /** Fills one location upwards, level by level. */
  method EnrichLocation(location: AdminLocation, h: HierarchyMap, a: Atlas) returns (loc: AdminLocation)
    ensures loc == FillPostal(FillProvince(FillCity(FillDistrict(location, h, a), h, a), h, a))
  {
    hide Copy;
    loc := location;
    if loc.subDistrict.Some? && loc.district == None {
      if loc.subDistrict.value.id in h.subDistrictToDistrict {
        var distID := h.subDistrictToDistrict[loc.subDistrict.value.id];
        if distID in a.districtById {
          loc := loc.(district := Some(Copy(a.districtById[distID], "")));
        }
      }
    }
    ghost var withDistrict := FillDistrict(location, h, a);
    assert loc == withDistrict;
    if loc.district.Some? && loc.city == None {
      if loc.district.value.id in h.districtToCity {
        var cityID := h.districtToCity[loc.district.value.id];
        if cityID in a.cityById {
          loc := loc.(city := Some(Copy(a.cityById[cityID], a.cityById[cityID].postalCode)));
        }
      }
    }
    ghost var withCity := FillCity(withDistrict, h, a);
    assert loc == withCity;
    if loc.city.Some? && loc.province == None {
      if loc.city.value.id in h.cityToProvince {
        var provID := h.cityToProvince[loc.city.value.id];
        if provID in a.provinceById {
          loc := loc.(province := Some(Copy(a.provinceById[provID], "")));
        }
      }
    }
    assert loc == FillProvince(withCity, h, a);
    if loc.subDistrict.Some? && loc.subDistrict.value.postalCode != "" && loc.postal == None {
      loc := loc.(postal := Some(PostalRef(loc.subDistrict.value.id, loc.subDistrict.value.postalCode)));
    }
  }

  /** Fills the candidates in place. */
  method EnrichCandidates(candidates: array<AdminCandidate>, a: Atlas)
    modifies candidates
    ensures candidates[..] == EnrichedAll(old(candidates[..]), a)
  {
    hide FillPostal, FillProvince, FillCity, FillDistrict;
    ghost var was := candidates[..];
    if a.hierarchy == None {
      assert forall i :: 0 <= i < |was| ==> Enriched(was[i], a) == was[i];
      return;
    }
    for i := 0 to candidates.Length
      invariant forall k :: 0 <= k < candidates.Length ==>
                  candidates[k] == if k < i then Enriched(was[k], a) else was[k]
    {
      var loc := EnrichLocation(candidates[i].location, a.hierarchy.value, a);
      candidates[i] := candidates[i].(location := loc);
    }
  }

  // ---------- Conclusions ----------

  function CountNonNil(loc: AdminLocation): nat {
    (if loc.province.Some? then 1 else 0) + (if loc.city.Some? then 1 else 0)
    + (if loc.district.Some? then 1 else 0) + (if loc.subDistrict.Some? then 1 else 0)
  }

  /** Is the entity the one that fills its level of the candidate? */
  predicate EntityInCandidate(c: AdminCandidate, e: Entity) {
    match e.level
    case Province => c.location.province.Some? && c.location.province.value.id == e.id
    case City => c.location.city.Some? && c.location.city.value.id == e.id
    case District => c.location.district.Some? && c.location.district.value.id == e.id
    case SubDistrict => c.location.subDistrict.Some? && c.location.subDistrict.value.id == e.id
    case OtherLevel(_) => false
  }

  function MatchesAmong(c: AdminCandidate, ev: Evidence, es: seq<Entity>): seq<MatchedEvidence> {
    if es == [] then []
    else (if EntityInCandidate(c, es[0]) then [MatchedEvidence(ev, Some(es[0]))] else []) + MatchesAmong(c, ev, es[1..])
  }

  function Matches(c: AdminCandidate, resolved: seq<ResolvedEvidence>): seq<MatchedEvidence> {
    if resolved == [] then []
    else MatchesAmong(c, resolved[0].evidence, resolved[0].candidates) + Matches(c, resolved[1..])
  }

  lemma {:induction false} MatchesConcat(c: AdminCandidate, r: seq<ResolvedEvidence>, s: seq<ResolvedEvidence>)
    ensures Matches(c, r + s) == Matches(c, r) + Matches(c, s)
  {
    if r == [] {
      assert r + s == s;
    } else {
      assert (r + s)[1..] == r[1..] + s;
      MatchesConcat(c, r[1..], s);
      var first := MatchesAmong(c, r[0].evidence, r[0].candidates);
      assert first + (Matches(c, r[1..]) + Matches(c, s)) == (first + Matches(c, r[1..])) + Matches(c, s);
    }
  }

  method MatchEvidenceToCandidate(c: AdminCandidate, resolved: seq<ResolvedEvidence>)
    returns (matched: seq<MatchedEvidence>)
    ensures matched == Matches(c, resolved)
  {
    hide EntityInCandidate;
    matched := [];
    for i := 0 to |resolved|
      invariant Matches(c, resolved) == matched + Matches(c, resolved[i..])
    {
      var re := resolved[i];
      ghost var start, rest := matched, Matches(c, resolved[i + 1..]);
      assert resolved[i..][1..] == resolved[i + 1..];
      for k := 0 to |re.candidates|
        invariant start + MatchesAmong(c, re.evidence, re.candidates)
               == matched + MatchesAmong(c, re.evidence, re.candidates[k..])
      {
        assert re.candidates[k..][1..] == re.candidates[k + 1..];
        if EntityInCandidate(c, re.candidates[k]) {
          matched := matched + [MatchedEvidence(re.evidence, Some(re.candidates[k]))];
        }
      }
      ghost var own := MatchesAmong(c, re.evidence, re.candidates);
      assert start + own == matched;
      assert start + (own + rest) == (start + own) + rest;
    }
  }

  function Concluded(c: AdminCandidate, resolved: seq<ResolvedEvidence>): AdminCandidate {
    c.(evidence := Matches(c, resolved))
  }

  function ConcludedAll(cs: seq<AdminCandidate>, resolved: seq<ResolvedEvidence>): (r: seq<AdminCandidate>)
    ensures |r| == |cs| && forall i :: 0 <= i < |cs| ==> r[i] == Concluded(cs[i], resolved)
  {
    if cs == [] then [] else [Concluded(cs[0], resolved)] + ConcludedAll(cs[1..], resolved)
  }

  /** First occurrences of keys outside `seen`. */
  function FirstByKey(cs: seq<AdminCandidate>, seen: set<string>): seq<AdminCandidate>
    decreases cs
  {
    if cs == [] then []
    else if CandidateKey(cs[0]) in seen then FirstByKey(cs[1..], seen)
    else [cs[0]] + FirstByKey(cs[1..], seen + {CandidateKey(cs[0])})
  }

  lemma RestDistinct(cs: seq<AdminCandidate>)
    requires DistinctKeys(cs) && cs != []
    ensures DistinctKeys(cs[1..])
    ensures forall i :: 0 <= i < |cs[1..]| ==> cs[1..][i] == cs[i + 1] && CandidateKey(cs[1..][i]) != CandidateKey(cs[0])
  {
    hide CandidateKey;
    var rest := cs[1..];
    forall i | 0 <= i < |rest|
      ensures rest[i] == cs[i + 1] && CandidateKey(rest[i]) != CandidateKey(cs[0])
    {
    }
  }

  lemma {:induction false} DistinctKeysAllFirst(cs: seq<AdminCandidate>, seen: set<string>)
    requires DistinctKeys(cs) && forall i :: 0 <= i < |cs| ==> CandidateKey(cs[i]) !in seen
    ensures FirstByKey(cs, seen) == cs
    decreases cs
  {
    hide CandidateKey, DistinctKeys;
    if cs != [] {
      var rest := cs[1..];
      RestDistinct(cs);
      DistinctKeysAllFirst(rest, seen + {CandidateKey(cs[0])});
      assert [cs[0]] + rest == cs;
    }
  }

  ghost predicate FullerFirst(cs: seq<AdminCandidate>) {
    forall i, j :: 0 <= i < j < |cs| ==> CountNonNil(cs[i].location) >= CountNonNil(cs[j].location)
  }

  lemma InsertedByFilled(cs: seq<AdminCandidate>, c: AdminCandidate, i: nat)
    requires FullerFirst(cs) && i <= |cs|
    requires forall k :: i <= k < |cs| ==> CountNonNil(c.location) > CountNonNil(cs[k].location)
    requires i > 0 ==> CountNonNil(cs[i - 1].location) >= CountNonNil(c.location)
    ensures FullerFirst(cs[..i] + [c] + cs[i..])
  {
    hide CountNonNil;
    var r := cs[..i] + [c] + cs[i..];
    assert forall k :: 0 <= k < |r| ==> r[k] == if k < i then cs[k] else if k == i then c else cs[k - 1];
    forall k | 0 <= k < i
      ensures CountNonNil(cs[k].location) >= CountNonNil(c.location)
    {
      assert CountNonNil(cs[k].location) >= CountNonNil(cs[i - 1].location);
    }
  }

  /** Puts one candidate into a list sorted by filled levels. */
  method InsertByFilled(cs: seq<AdminCandidate>, c: AdminCandidate) returns (r: seq<AdminCandidate>)
    requires FullerFirst(cs)
    ensures FullerFirst(r) && multiset(r) == multiset(cs) + multiset{c}
  {
    hide CountNonNil, FullerFirst;
    var i := |cs|;
    while i > 0 && CountNonNil(c.location) > CountNonNil(cs[i - 1].location)
      invariant 0 <= i <= |cs|
      invariant forall k :: i <= k < |cs| ==> CountNonNil(c.location) > CountNonNil(cs[k].location)
    {
      i := i - 1;
    }
    r := cs[..i] + [c] + cs[i..];
    InsertedByFilled(cs, c, i);
    assert cs == cs[..i] + cs[i..];
  }

  /** sort.Slice on the number of filled levels: some sorted rearrangement. */
  method SortByFilled(cs: seq<AdminCandidate>) returns (r: seq<AdminCandidate>)
    ensures FullerFirst(r) && multiset(r) == multiset(cs)
  {
    r := [];
    for i := 0 to |cs|
      invariant FullerFirst(r) && multiset(r) == multiset(cs[..i])
    {
      assert cs[..i + 1] == cs[..i] + [cs[i]];
      r := InsertByFilled(r, cs[i]);
    }
    assert cs[..|cs|] == cs;
  }

  /** What BuildConclusions returns, up to the order of equally filled locations. */
  ghost predicate ConclusionsOf(r: seq<AdminCandidate>, flat: seq<AdminCandidate>, h: Option<HierarchyMap>,
                                resolved: seq<ResolvedEvidence>)
  {
    if h == None then r == flat
    else FullerFirst(r) && multiset(r) == multiset(ConcludedAll(FirstByKey(flat, {}), resolved))
  }

  method BuildConclusions(flat: seq<AdminCandidate>, hierarchy: Option<HierarchyMap>, resolved: seq<ResolvedEvidence>)
    returns (r: seq<AdminCandidate>)
    ensures ConclusionsOf(r, flat, hierarchy, resolved)
  {
    hide CandidateKey, Matches;
    if hierarchy == None {
      return flat;
    }
    var combined: seq<AdminCandidate> := [];
    var seen: set<string> := {};
    for i := 0 to |flat|
      invariant FirstByKey(flat, {}) == combined + FirstByKey(flat[i..], seen)
    {
      assert flat[i..][1..] == flat[i + 1..];
      var k := FormatCandidateKey(flat[i]);
      if k in seen {
        continue;
      }
      seen := seen + {k};
      combined := combined + [flat[i]];
    }
    ghost var distinct := FirstByKey(flat, {});
    assert combined == distinct;
    for i := 0 to |combined|
      invariant |combined| == |distinct|
      invariant forall k :: 0 <= k < |distinct| ==>
                  combined[k] == if k < i then Concluded(distinct[k], resolved) else distinct[k]
    {
      var evidence := MatchEvidenceToCandidate(combined[i], resolved);
      combined := combined[i := combined[i].(evidence := evidence)];
    }
    assert combined == ConcludedAll(distinct, resolved);
    r := SortByFilled(combined);
  }
}
