/**
 What the conflict detectors find, said without their loops: which links a location breaks, how many
 other cities and how many other regions the evidence names, and when the checks on single levels
 strike.
 */
module ConflictCounts {
  import opened Wrappers
  import opened Decimal
  import opened Model
  import opened Evaluation
  import opened Confidence
  import opened Conclusions
  import opened Pipeline

  // ---------- Broken links ----------

  ghost predicate PositiveRegions(loc: AdminLocation) {
    && (loc.province.Some? ==> loc.province.value.id > 0) && (loc.city.Some? ==> loc.city.value.id > 0)
    && (loc.district.Some? ==> loc.district.value.id > 0)
  }

  /** With positive ids, a location keeps the hierarchy exactly when the map names each filled parent as
      the parent of the filled level below it. */
  lemma KeepsHierarchyExactly(loc: AdminLocation, h: HierarchyMap)
    requires PositiveRegions(loc)
    ensures !BreaksHierarchy(loc, Some(h)) <==> Linked(loc, h)
  {
  }

  /** An orphan: a city, no province, and more levels than the city's alone. */
  lemma OrphanExactly(loc: AdminLocation)
    ensures IsOrphan(loc) <==> loc.city.Some? && loc.province == None && CountNonNil(loc) > 1
  {
  }

  /** A postal code that belongs to another sub-district. */
  lemma PostalDiffersExactly(loc: AdminLocation)
    ensures !PostalDiffers(loc) <==>
              (loc.postal.Some? && loc.subDistrict.Some? ==> loc.postal.value.id == loc.subDistrict.value.id)
  {
  }

  /** How many conflicts of each kind an evaluation adds. */
  lemma ConflictsByKind(c: AdminCandidate, h: Option<HierarchyMap>)
    ensures var ks, loc := multiset(NewConflicts(c, h)), c.location;
            && ks[HierarchyConflict] == (if BreaksHierarchy(loc, h) then 1 else 0)
            && ks[PostalCodeMismatch] == (if PostalDiffers(loc) then 1 else 0)
            && ks[OrphanCity] == (if IsOrphan(loc) then 1 else 0)
            && ks[MultipleCity] == OtherCities(loc, c.evidence, {})
            && ks[DuplicateLevel] == DuplicateCount(loc, c.evidence)
  {
    hide BreaksHierarchy, PostalDiffers, IsOrphan, OtherCities, DuplicateCount, Times, If;
    var loc := c.location;
    IfOfKind(BreaksHierarchy(loc, h), HierarchyConflict);
    IfOfKind(PostalDiffers(loc), PostalCodeMismatch);
    IfOfKind(IsOrphan(loc), OrphanCity);
    TimesOfKind(MultipleCity, OtherCities(loc, c.evidence, {}));
    TimesOfKind(DuplicateLevel, DuplicateCount(loc, c.evidence));
  }

  lemma IfOfKind(b: bool, kind: ConflictKind)
    ensures forall k :: multiset(If(b, kind))[k] == if b && k == kind then 1 else 0
  {
  }

  lemma TimesOfKind(kind: ConflictKind, n: nat)
    ensures forall k :: multiset(Times(kind, n))[k] == if k == kind then n else 0
  {
    if n > 0 {
      TimesOfKind(kind, n - 1);
    }
  }

  // ---------- Other cities ----------

  ghost predicate NamesCity(es: seq<MatchedEvidence>, id: Int64) {
    exists i :: 0 <= i < |es| && es[i].resolved.Some? && es[i].resolved.value.level == City && es[i].resolved.value.id == id
  }

  ghost function CityIds(es: seq<MatchedEvidence>): set<Int64> {
    set me | me in es && me.resolved.Some? && me.resolved.value.level == City :: me.resolved.value.id
  }

  lemma CityIdsAre(es: seq<MatchedEvidence>)
    ensures forall id :: id in CityIds(es) <==> NamesCity(es, id)
  {
  }

  lemma CityIdsStep(es: seq<MatchedEvidence>)
    requires es != []
    ensures CityIds(es) == CityIds(es[1..]) + match ResolvedOf(es[0], City) case None => {} case Some(id) => {id}
  {
    assert forall me :: me in es <==> me == es[0] || me in es[1..];
  }

  lemma NewCity(rest: set<Int64>, seen: set<Int64>, id: Int64, own: Int64)
    requires id !in seen
    ensures |rest + {id} - seen - {own}| == (if id == own then 0 else 1) + |rest - (seen + {id}) - {own}|
  {
    var others := rest - (seen + {id}) - {own};
    assert rest + {id} - seen - {own} == if id == own then others else others + {id};
  }

  lemma OtherCitiesStep(loc: AdminLocation, es: seq<MatchedEvidence>, seen: set<Int64>)
    requires es != [] && loc.city.Some?
    ensures OtherCities(loc, es, seen)
         == match ResolvedOf(es[0], City)
            case None => OtherCities(loc, es[1..], seen)
            case Some(id) =>
              if id in seen then OtherCities(loc, es[1..], seen)
              else (if id == loc.city.value.id then 0 else 1) + OtherCities(loc, es[1..], seen + {id})
  {
  }

  lemma {:induction false} OtherCitiesFrom(loc: AdminLocation, es: seq<MatchedEvidence>, seen: set<Int64>)
    requires loc.city.Some?
    ensures OtherCities(loc, es, seen) == |CityIds(es) - seen - {loc.city.value.id}|
    decreases es
  {
    if es == [] {
      assert CityIds(es) - seen - {loc.city.value.id} == {};
    } else {
      hide CityIds, ResolvedOf, OtherCities;
      CityIdsStep(es);
      OtherCitiesStep(loc, es, seen);
      var own, rest := loc.city.value.id, CityIds(es[1..]);
      var named := ResolvedOf(es[0], City);
      if named.Some? && named.value !in seen {
        OtherCitiesFrom(loc, es[1..], seen + {named.value});
        NewCity(rest, seen, named.value, own);
      } else {
        OtherCitiesFrom(loc, es[1..], seen);
        assert CityIds(es) - seen == rest - seen;
      }
    }
  }

  lemma {:induction false} NoCityNoOthers(loc: AdminLocation, es: seq<MatchedEvidence>, seen: set<Int64>)
    requires loc.city == None
    ensures OtherCities(loc, es, seen) == 0
    decreases es
  {
    if es != [] {
      NoCityNoOthers(loc, es[1..], seen);
      var id := ResolvedOf(es[0], City);
      if id.Some? {
        NoCityNoOthers(loc, es[1..], seen + {id.value});
      }
    }
  }

  /** One conflict for every distinct city, other than the candidate's own, that the evidence names. */
  lemma OtherCitiesExactly(loc: AdminLocation, es: seq<MatchedEvidence>)
    ensures OtherCities(loc, es, {}) == if loc.city == None then 0 else |CityIds(es) - {loc.city.value.id}|
    ensures forall id :: id in CityIds(es) <==> NamesCity(es, id)
  {
    CityIdsAre(es);
    if loc.city == None {
      NoCityNoOthers(loc, es, {});
    } else {
      OtherCitiesFrom(loc, es, {});
      assert CityIds(es) - {} - {loc.city.value.id} == CityIds(es) - {loc.city.value.id};
    }
  }

  // ---------- Other regions at filled levels ----------

  /** The item names, at a level other than the city's, a region other than the one that fills it. */
  predicate NamesAnother(loc: AdminLocation, me: MatchedEvidence) {
    && me.resolved.Some? && me.resolved.value.level != City
    && var filled := RegionAt(loc, me.resolved.value.level);
       filled.Some? && filled.value.id != me.resolved.value.id
  }

  ghost function Positions(loc: AdminLocation, es: seq<MatchedEvidence>): set<nat> {
    set i: nat | i < |es| && NamesAnother(loc, es[i])
  }

  /** One conflict for every such item. */
  lemma {:induction false} DuplicatesExactly(loc: AdminLocation, es: seq<MatchedEvidence>)
    ensures DuplicateCount(loc, es) == |Positions(loc, es)|
  {
    if es == [] {
      assert Positions(loc, es) == {};
    } else {
      hide NamesAnother, Duplicates;
      DuplicatesExactly(loc, es[1..]);
      DuplicatesOne(loc, es[0]);
      Shifted(loc, es);
    }
  }

  lemma DuplicatesOne(loc: AdminLocation, me: MatchedEvidence)
    ensures Duplicates(loc, me) <==> NamesAnother(loc, me)
  {
  }

  lemma Shifted(loc: AdminLocation, es: seq<MatchedEvidence>)
    requires es != []
    ensures |Positions(loc, es)| == (if NamesAnother(loc, es[0]) then 1 else 0) + |Positions(loc, es[1..])|
  {
    hide NamesAnother;
    var rest := Positions(loc, es[1..]);
    var moved := set i | i in rest :: i + 1;
    SameSize(rest, moved);
    assert forall i: nat :: 0 < i < |es| ==> es[i] == es[1..][i - 1];
    forall i: nat
      ensures i in Positions(loc, es) <==> (i == 0 && NamesAnother(loc, es[0])) || i in moved
    {
      if i > 0 && i in Positions(loc, es) {
        assert i - 1 in rest;
      }
    }
    assert Positions(loc, es) == moved + if NamesAnother(loc, es[0]) then {0} else {};
    assert 0 !in moved;
  }

  lemma {:induction false} SameSize(a: set<nat>, b: set<nat>)
    requires b == set i | i in a :: i + 1
    ensures |a| == |b|
    decreases a
  {
    if a != {} {
      var x :| x in a;
      var less := set i | i in a - {x} :: i + 1;
      forall y | y in less
        ensures y in b - {x + 1}
      {
        var i :| i in a - {x} && y == i + 1;
        assert i in a;
      }
      forall y | y in b - {x + 1}
        ensures y in less
      {
        var i :| i in a && y == i + 1;
        assert i in a - {x};
      }
      assert less == b - {x + 1} && x + 1 in b;
      SameSize(a - {x}, less);
    }
  }

  // ---------- The status of a judged location ----------

  /** CONFLICT exactly with a conflict; else UNKNOWN exactly when nothing is filled, VALID exactly when
      province, city and district are, INCOMPLETE otherwise. */
  lemma StatusExactly(loc: AdminLocation)
    ensures AssessQuality(loc) == Status.Conflict <==> loc.conflicts != []
    ensures AssessQuality(loc) == Status.Unknown <==>
              loc.conflicts == [] && forall level :: RegionAt(loc, level) == None
    ensures AssessQuality(loc) == Status.Valid <==>
              loc.conflicts == [] && loc.province.Some? && loc.city.Some? && loc.district.Some?
    ensures AssessQuality(loc) != Status.Ambiguous
  {
    assert (forall level :: RegionAt(loc, level) == None) ==>
             RegionAt(loc, Province) == RegionAt(loc, City) == RegionAt(loc, District) == RegionAt(loc, SubDistrict) == None;
  }
}
