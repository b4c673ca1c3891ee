/**
 Evaluation of a candidate: which conflicts it has, and the quality status that follows. The
 candidate is updated in place through a reference.
 */
module Evaluation {
  import opened Wrappers
  import opened Decimal
  import opened Model

  datatype Status = Valid | Incomplete | Ambiguous | Conflict | Unknown

  // ---------- The conflicts of a candidate ----------

  /** Both levels are filled and the map does not name the upper one as parent of the lower one. */
  predicate Mismatch(child: Option<Region>, parent: Option<Region>, parents: map<Int64, Int64>) {
    child.Some? && parent.Some? && Lookup(parents, child.value.id) != parent.value.id
  }

  predicate BreaksHierarchy(loc: AdminLocation, hierarchy: Option<HierarchyMap>) {
    match hierarchy
    case None => false
    case Some(h) =>
      || Mismatch(loc.city, loc.province, h.cityToProvince)
      || Mismatch(loc.district, loc.city, h.districtToCity)
      || Mismatch(loc.subDistrict, loc.district, h.subDistrictToDistrict)
  }

  predicate PostalDiffers(loc: AdminLocation) {
    loc.postal.Some? && loc.subDistrict.Some? && loc.postal.value.id != loc.subDistrict.value.id
  }

  /** A city, and something besides it, but no province. */
  predicate IsOrphan(loc: AdminLocation) {
    loc.city.Some? && loc.province == None && (loc.district.Some? || loc.subDistrict.Some?)
  }

  function ResolvedOf(me: MatchedEvidence, level: Level): Option<Int64> {
    if me.resolved.Some? && me.resolved.value.level == level then Some(me.resolved.value.id) else None
  }

  /** One conflict per distinct city id, among the evidence, that is not the candidate's city. */
  function OtherCities(loc: AdminLocation, es: seq<MatchedEvidence>, seen: set<Int64>): nat
    decreases es
  {
    if es == [] then 0
    else
      match ResolvedOf(es[0], City)
      case None => OtherCities(loc, es[1..], seen)
      case Some(id) =>
        if id in seen then OtherCities(loc, es[1..], seen)
        else (if loc.city.Some? && id != loc.city.value.id then 1 else 0) + OtherCities(loc, es[1..], seen + {id})
  }

  /** Does the evidence name another region for a level that the candidate has filled? */
  predicate Duplicates(loc: AdminLocation, me: MatchedEvidence) {
    || (ResolvedOf(me, Province).Some? && loc.province.Some? && loc.province.value.id != me.resolved.value.id)
    || (ResolvedOf(me, District).Some? && loc.district.Some? && loc.district.value.id != me.resolved.value.id)
    || (ResolvedOf(me, SubDistrict).Some? && loc.subDistrict.Some? && loc.subDistrict.value.id != me.resolved.value.id)
  }

  function DuplicateCount(loc: AdminLocation, es: seq<MatchedEvidence>): nat {
    if es == [] then 0 else (if Duplicates(loc, es[0]) then 1 else 0) + DuplicateCount(loc, es[1..])
  }

  function Times(kind: ConflictKind, n: nat): (r: seq<ConflictKind>)
    ensures |r| == n && forall i :: 0 <= i < n ==> r[i] == kind
  {
    if n == 0 then [] else [kind] + Times(kind, n - 1)
  }

  function If(b: bool, kind: ConflictKind): seq<ConflictKind> {
    if b then [kind] else []
  }

  /** The conflicts that DetectConflicts adds. */
  function DetectedConflicts(c: AdminCandidate): seq<ConflictKind> {
    If(PostalDiffers(c.location), PostalCodeMismatch) + If(IsOrphan(c.location), OrphanCity)
    + Times(MultipleCity, OtherCities(c.location, c.evidence, {}))
    + Times(DuplicateLevel, DuplicateCount(c.location, c.evidence))
  }

  /** All conflicts that an evaluation adds, in order. */
  function NewConflicts(c: AdminCandidate, h: Option<HierarchyMap>): seq<ConflictKind> {
    If(BreaksHierarchy(c.location, h), HierarchyConflict) + DetectedConflicts(c)
  }

  function WithConflicts(c: AdminCandidate, more: seq<ConflictKind>): AdminCandidate {
    c.(location := c.location.(conflicts := c.location.conflicts + more))
  }

  // ---------- Status ----------

  function AssessQuality(loc: AdminLocation): Status {
    if |loc.conflicts| > 0 then Conflict
    else if loc.province == None && loc.city == None && loc.district == None && loc.subDistrict == None then Unknown
    else if loc.province == None || loc.city == None || loc.district == None then Incomplete
    else Valid
  }

  // ---------- In place ----------

  /** A pointer to a candidate. */
  class CandidateRef {
    var value: AdminCandidate

    constructor (c: AdminCandidate)
      ensures value == c
    {
      value := c;
    }

    method AddConflict(kind: ConflictKind)
      modifies this
      ensures value == WithConflicts(old(value), [kind])
    {
      value := value.(location := value.location.(conflicts := value.location.conflicts + [kind]));
    }

    method EvaluateHierarchy(hierarchy: Option<HierarchyMap>)
      modifies this
      ensures value == WithConflicts(old(value), If(BreaksHierarchy(old(value).location, hierarchy), HierarchyConflict))
    {
      if hierarchy == None {
        return;
      }
      var h, loc := hierarchy.value, value.location;
      if loc.city.Some? && loc.province.Some? {
        if Lookup(h.cityToProvince, loc.city.value.id) != loc.province.value.id {
          AddConflict(HierarchyConflict);
          return;
        }
      }
      if loc.district.Some? && loc.city.Some? {
        if Lookup(h.districtToCity, loc.district.value.id) != loc.city.value.id {
          AddConflict(HierarchyConflict);
          return;
        }
      }
      if loc.subDistrict.Some? && loc.district.Some? {
        if Lookup(h.subDistrictToDistrict, loc.subDistrict.value.id) != loc.district.value.id {
          AddConflict(HierarchyConflict);
          return;
        }
      }
    }

    method DetectMultipleCities()
      modifies this
      ensures value
           == WithConflicts(old(value), Times(MultipleCity, OtherCities(old(value).location, old(value).evidence, {})))
    {
      ghost var was := value;
      var es, loc := value.evidence, value.location;
      var seen: set<Int64> := {};
      ghost var found: nat := 0;
      for i := 0 to |es|
        invariant OtherCities(loc, es, {}) == found + OtherCities(loc, es[i..], seen)
        invariant value == WithConflicts(was, Times(MultipleCity, found))
      {
        assert es[i..][1..] == es[i + 1..];
        if es[i].resolved == None || es[i].resolved.value.level != City {
          continue;
        }
        var id := es[i].resolved.value.id;
        if id in seen {
          continue;
        }
        if loc.city.Some? && id != loc.city.value.id {
          AddConflict(MultipleCity);
          OneMore(was, MultipleCity, found);
          found := found + 1;
        }
        seen := seen + {id};
      }
    }

    method DetectDuplicateLevel()
      modifies this
      ensures value
           == WithConflicts(old(value), Times(DuplicateLevel, DuplicateCount(old(value).location, old(value).evidence)))
    {
      hide WithConflicts, Times;
      ghost var was := value;
      NoneYet(was, DuplicateLevel);
      var es, loc := value.evidence, value.location;
      var levels: map<Level, Int64> := map[];
      if loc.province.Some? {
        levels := levels[Province := loc.province.value.id];
      }
      if loc.district.Some? {
        levels := levels[District := loc.district.value.id];
      }
      if loc.subDistrict.Some? {
        levels := levels[SubDistrict := loc.subDistrict.value.id];
      }
      ghost var found: nat := 0;
      for i := 0 to |es|
        invariant DuplicateCount(loc, es) == found + DuplicateCount(loc, es[i..])
        invariant value == WithConflicts(was, Times(DuplicateLevel, found))
      {
        assert es[i..][1..] == es[i + 1..];
        if es[i].resolved == None {
          continue;
        }
        var e := es[i].resolved.value;
        if e.level == City {
          continue;
        }
        if e.level in levels {
          if levels[e.level] != e.id {
            AddConflict(DuplicateLevel);
            OneMore(was, DuplicateLevel, found);
            found := found + 1;
          }
        }
      }
    }

    /** The postal-code check and the orphan check. */
    method DetectLocationConflicts()
      modifies this
      ensures value == WithConflicts(old(value), If(PostalDiffers(old(value).location), PostalCodeMismatch)
                                                 + If(IsOrphan(old(value).location), OrphanCity))
    {
      var loc := value.location;
      if loc.postal.Some? && loc.subDistrict.Some? {
        if loc.postal.value.id != loc.subDistrict.value.id {
          AddConflict(PostalCodeMismatch);
        }
      }
      var levelCount := 0;
      if loc.province.Some? {
        levelCount := levelCount + 1;
      }
      if loc.city.Some? {
        levelCount := levelCount + 1;
      }
      if loc.district.Some? {
        levelCount := levelCount + 1;
      }
      if loc.subDistrict.Some? {
        levelCount := levelCount + 1;
      }
      if levelCount > 1 && loc.city.Some? {
        if loc.province == None {
          AddConflict(OrphanCity);
        }
      }
    }

    method DetectConflicts()
      modifies this
      ensures value == WithConflicts(old(value), DetectedConflicts(old(value)))
    {
      hide OtherCities, DuplicateCount, Times, PostalDiffers, IsOrphan, WithConflicts, If;
      ghost var was, loc := value, value.location;
      ghost var k2 := If(PostalDiffers(loc), PostalCodeMismatch) + If(IsOrphan(loc), OrphanCity);
      ghost var k3 := Times(MultipleCity, OtherCities(loc, was.evidence, {}));
      ghost var k4 := Times(DuplicateLevel, DuplicateCount(loc, was.evidence));
      DetectLocationConflicts();
      DetectMultipleCities();
      SameEvidence(was, k2);
      TwiceWith(was, k2, k3);
      DetectDuplicateLevel();
      SameEvidence(was, k2 + k3);
      TwiceWith(was, k2 + k3, k4);
    }

    /** Both detection stages together, as an evaluation runs them. */
    method FindConflicts(hierarchy: Option<HierarchyMap>)
      modifies this
      ensures value == WithConflicts(old(value), NewConflicts(old(value), hierarchy))
    {
      hide OtherCities, DuplicateCount, DetectedConflicts, BreaksHierarchy, WithConflicts, If;
      EvaluateHierarchy(hierarchy);
      TwiceWith(old(value), If(BreaksHierarchy(old(value).location, hierarchy), HierarchyConflict),
                DetectedConflicts(old(value)));
      SameEvidence(old(value), If(BreaksHierarchy(old(value).location, hierarchy), HierarchyConflict));
      DetectConflicts();
    }
  }

  lemma TwiceWith(c: AdminCandidate, a: seq<ConflictKind>, b: seq<ConflictKind>)
    ensures WithConflicts(WithConflicts(c, a), b) == WithConflicts(c, a + b)
  {
    assert c.location.conflicts + a + b == c.location.conflicts + (a + b);
  }

  lemma NoneYet(c: AdminCandidate, kind: ConflictKind)
    ensures WithConflicts(c, Times(kind, 0)) == c
  {
    assert c.location.conflicts + [] == c.location.conflicts;
  }

  lemma OneMore(c: AdminCandidate, kind: ConflictKind, n: nat)
    ensures WithConflicts(WithConflicts(c, Times(kind, n)), [kind]) == WithConflicts(c, Times(kind, n + 1))
  {
    assert c.location.conflicts + Times(kind, n) + [kind] == c.location.conflicts + Times(kind, n + 1);
  }

  /** Conflicts are not looked at when conflicts are detected. */
  lemma SameEvidence(c: AdminCandidate, more: seq<ConflictKind>)
    ensures var d := WithConflicts(c, more);
            && d.evidence == c.evidence
            && OtherCities(d.location, c.evidence, {}) == OtherCities(c.location, c.evidence, {})
            && DuplicateCount(d.location, c.evidence) == DuplicateCount(c.location, c.evidence)
            && DetectedConflicts(d) == DetectedConflicts(c)
  {
    OtherCitiesSame(WithConflicts(c, more).location, c.location, c.evidence, {});
    DuplicateCountSame(WithConflicts(c, more).location, c.location, c.evidence);
  }

  lemma {:induction false} OtherCitiesSame(a: AdminLocation, b: AdminLocation, es: seq<MatchedEvidence>,
                                           seen: set<Int64>)
    requires a.city == b.city
    ensures OtherCities(a, es, seen) == OtherCities(b, es, seen)
    decreases es
  {
    if es != [] {
      OtherCitiesSame(a, b, es[1..], seen);
      var id := ResolvedOf(es[0], City);
      if id.Some? {
        OtherCitiesSame(a, b, es[1..], seen + {id.value});
      }
    }
  }

  lemma {:induction false} DuplicateCountSame(a: AdminLocation, b: AdminLocation, es: seq<MatchedEvidence>)
    requires a.province == b.province && a.district == b.district && a.subDistrict == b.subDistrict
    ensures DuplicateCount(a, es) == DuplicateCount(b, es)
  {
    if es != [] {
      DuplicateCountSame(a, b, es[1..]);
    }
  }
}
