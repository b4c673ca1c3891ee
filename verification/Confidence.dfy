/**
 The confidence score, in hundredths: a sum of weights capped at one hundred, less three for
 every unused piece of evidence.
 */
module Confidence {
  import opened Wrappers
  import opened Decimal
  import opened Model
  import opened Evaluation

  const EXACT_MATCH := 10
  const HIERARCHY := 15
  const POSTAL_CODE := 5
  const PROVINCE := 15
  const CITY := 12
  const DISTRICT := 8
  const SUB_DISTRICT := 5
  const MULTI_PROVINCE := 20
  const MULTI_CITY := 15
  const MULTI_DISTRICT := 10
  const MULTI_SUB_DISTRICT := 5
  const MAX_MULTI := 40
  const PREFIX_3 := 7
  const PREFIX_4 := 10
  const PREFIX_5 := 20
  const UNUSED_PENALTY := 3

  // ---------- The parts of the score ----------

  ghost predicate HasExactMatch(es: seq<MatchedEvidence>) {
    exists i :: 0 <= i < |es| && es[i].resolved.Some?
  }

  function RegionAt(loc: AdminLocation, level: Level): Option<Region> {
    match level
    case Province => loc.province
    case City => loc.city
    case District => loc.district
    case SubDistrict => loc.subDistrict
    case OtherLevel(_) => None
  }

  /** Does the piece of evidence name the region that fills the level? */
  predicate Confirms(loc: AdminLocation, me: MatchedEvidence, level: Level) {
    && me.resolved.Some? && me.resolved.value.level == level
    && RegionAt(loc, level).Some? && RegionAt(loc, level).value.id == me.resolved.value.id
  }

  ghost predicate LevelMatched(loc: AdminLocation, es: seq<MatchedEvidence>, level: Level) {
    exists i :: 0 <= i < |es| && Confirms(loc, es[i], level)
  }

  /** Length of the longest common prefix. */
  function CommonPrefix(a: string, b: string): (n: nat)
    ensures n <= |a| && n <= |b| && a[..n] == b[..n]
    ensures n < |a| && n < |b| ==> a[n] != b[n]
  {
    if a == "" || b == "" || a[0] != b[0] then 0
    else
      var n := CommonPrefix(a[1..], b[1..]);
      assert a[..n + 1] == [a[0]] + a[1..][..n];
      assert b[..n + 1] == [b[0]] + b[1..][..n];
      n + 1
  }

  function PrefixWeight(n: nat): nat {
    if n >= 5 then PREFIX_5 else if n >= 4 then PREFIX_4 else if n >= 3 then PREFIX_3 else 0
  }

  /** The first postal evidence that shares three characters or more decides. */
  function PrefixScore(code: string, es: seq<MatchedEvidence>): nat {
    if es == [] then 0
    else if es[0].evidence.kind == PostalCode && PrefixWeight(CommonPrefix(es[0].evidence.value, code)) > 0
    then PrefixWeight(CommonPrefix(es[0].evidence.value, code))
    else PrefixScore(code, es[1..])
  }

  // ----- Several pieces of evidence for one entity -----

  function Names(me: MatchedEvidence, id: Int64): bool {
    me.resolved.Some? && me.resolved.value.id == id
  }

  function Count(es: seq<MatchedEvidence>, id: Int64): nat {
    if es == [] then 0 else Count(es[..|es| - 1], id) + if Names(es[|es| - 1], id) then 1 else 0
  }

  /** The level under which the id was named last. */
  function LastLevel(es: seq<MatchedEvidence>, id: Int64): Option<Level> {
    if es == [] then None
    else if Names(es[|es| - 1], id) then Some(es[|es| - 1].resolved.value.level)
    else LastLevel(es[..|es| - 1], id)
  }

  function MultiWeight(level: Option<Level>): nat {
    match level
    case Some(Province) => MULTI_PROVINCE
    case Some(City) => MULTI_CITY
    case Some(District) => MULTI_DISTRICT
    case Some(SubDistrict) => MULTI_SUB_DISTRICT
    case _ => 0
  }

  function IdBonus(es: seq<MatchedEvidence>, id: Int64): nat {
    if Count(es, id) < 2 then 0 else MultiWeight(LastLevel(es, id))
  }

  ghost function NamedIds(es: seq<MatchedEvidence>): set<Int64> {
    set me | me in es && me.resolved.Some? :: me.resolved.value.id
  }

  /** The sum over a set of ids, which must not depend on the order of the visits. */
  ghost function SumOver(ids: set<Int64>, es: seq<MatchedEvidence>): nat {
    if ids == {} then 0
    else
      var id :| id in ids;
      IdBonus(es, id) + SumOver(ids - {id}, es)
  }

  lemma {:induction false} SumAnyOrder(ids: set<Int64>, es: seq<MatchedEvidence>, id: Int64)
    requires id in ids
    ensures SumOver(ids, es) == IdBonus(es, id) + SumOver(ids - {id}, es)
  {
    hide IdBonus;
    var first :| first in ids && SumOver(ids, es) == IdBonus(es, first) + SumOver(ids - {first}, es);
    if first != id {
      SumAnyOrder(ids - {first}, es, id);
      SumAnyOrder(ids - {id}, es, first);
      assert ids - {first} - {id} == ids - {id} - {first};
    }
  }

  function Capped(n: nat, cap: nat): nat {
    if n > cap then cap else n
  }

  ghost function MultiBonus(es: seq<MatchedEvidence>): nat {
    Capped(SumOver(NamedIds(es), es), MAX_MULTI)
  }

  // ----- The whole -----

  predicate HasHierarchyConflict(loc: AdminLocation) {
    HierarchyConflict in loc.conflicts
  }

  function Weigh(b: bool, weight: nat): nat {
    if b then weight else 0
  }

  ghost function LevelScore(loc: AdminLocation, es: seq<MatchedEvidence>): nat {
    Weigh(LevelMatched(loc, es, Province), PROVINCE) + Weigh(LevelMatched(loc, es, City), CITY)
    + Weigh(LevelMatched(loc, es, District), DISTRICT) + Weigh(LevelMatched(loc, es, SubDistrict), SUB_DISTRICT)
  }

  ghost function PostalScore(loc: AdminLocation, es: seq<MatchedEvidence>): nat {
    if loc.postal == None then 0 else POSTAL_CODE + PrefixScore(loc.postal.value.code, es)
  }

  /** The uncapped sum of weights. */
  ghost function RawScore(loc: AdminLocation, es: seq<MatchedEvidence>): nat {
    Weigh(HasExactMatch(es), EXACT_MATCH) + Weigh(!HasHierarchyConflict(loc) && loc.city.Some?, HIERARCHY)
    + PostalScore(loc, es) + LevelScore(loc, es) + MultiBonus(es)
  }

  ghost function Score(loc: AdminLocation, es: seq<MatchedEvidence>, unused: nat): int {
    Capped(RawScore(loc, es), 100) - UNUSED_PENALTY * unused
  }

  // ---------- Unused evidence ----------

  ghost predicate Uses(es: seq<MatchedEvidence>, value: string) {
    exists i :: 0 <= i < |es| && es[i].evidence.value == value
  }

  ghost function Unused(es: seq<MatchedEvidence>, all: seq<Evidence>): seq<Evidence> {
    if all == [] then []
    else (if Uses(es, all[0].value) then [] else [all[0]]) + Unused(es, all[1..])
  }

  method EvaluateEvidenceCoverage(es: seq<MatchedEvidence>, all: seq<Evidence>) returns (unused: seq<Evidence>)
    ensures unused == Unused(es, all)
  {
    unused := [];
    if |all| == 0 {
      return;
    }
    var matchedValues: set<string> := {};
    for i := 0 to |es|
      invariant forall v :: v in matchedValues <==> exists k :: 0 <= k < i && es[k].evidence.value == v
    {
      matchedValues := matchedValues + {es[i].evidence.value};
    }
    assert forall v :: v in matchedValues <==> Uses(es, v);
    for i := 0 to |all|
      invariant Unused(es, all) == unused + Unused(es, all[i..])
    {
      hide Uses;
      assert all[i..][1..] == all[i + 1..];
      if all[i].value !in matchedValues {
        unused := unused + [all[i]];
      }
    }
  }

  // ---------- The scoring loops ----------

  method ScorePostalCodePrefix(loc: AdminLocation, es: seq<MatchedEvidence>) returns (score: nat)
    ensures score == if loc.postal == None then 0 else PrefixScore(loc.postal.value.code, es)
  {
    if loc.postal == None {
      return 0;
    }
    var code := loc.postal.value.code;
    for k := 0 to |es|
      invariant PrefixScore(code, es) == PrefixScore(code, es[k..])
    {
      assert es[k..][1..] == es[k + 1..];
      if es[k].evidence.kind != PostalCode {
        continue;
      }
      var matchLen := MatchLength(es[k].evidence.value, code);
      if matchLen >= 5 {
        return PREFIX_5;
      } else if matchLen >= 4 {
        return PREFIX_4;
      } else if matchLen >= 3 {
        return PREFIX_3;
      }
    }
    return 0;
  }

  method MatchLength(ev: string, code: string) returns (matchLen: nat)
    ensures matchLen == CommonPrefix(ev, code)
  {
    matchLen := 0;
    var minLen := |ev|;
    if |code| < minLen {
      minLen := |code|;
    }
    for i := 0 to minLen
      invariant matchLen == i
      invariant CommonPrefix(ev, code) == i + CommonPrefix(ev[i..], code[i..])
    {
      if ev[i] != code[i] {
        break;
      }
      assert ev[i..][1..] == ev[i + 1..] && code[i..][1..] == code[i + 1..];
      matchLen := matchLen + 1;
    }
  }

  lemma CountSnoc(es: seq<MatchedEvidence>, me: MatchedEvidence, id: Int64)
    ensures Count(es + [me], id) == Count(es, id) + if Names(me, id) then 1 else 0
    ensures LastLevel(es + [me], id)
         == if Names(me, id) then Some(me.resolved.value.level) else LastLevel(es, id)
  {
    assert (es + [me])[..|es|] == es;
  }

  lemma NamedIdsSnoc(es: seq<MatchedEvidence>, me: MatchedEvidence)
    ensures NamedIds(es + [me]) == NamedIds(es) + if me.resolved.Some? then {me.resolved.value.id} else {}
  {
    assert forall x :: x in es + [me] <==> x in es || x == me;
  }

  /** The maps that the bonus loop builds. */
  ghost predicate Counted(counts: map<Int64, nat>, levelOf: map<Int64, Level>, es: seq<MatchedEvidence>) {
    && counts.Keys == NamedIds(es) && levelOf.Keys == NamedIds(es)
    && (forall id :: id in counts ==> counts[id] == Count(es, id) && Some(levelOf[id]) == LastLevel(es, id))
    && (forall id :: id !in counts ==> Count(es, id) == 0)
  }

  lemma CountedSnoc(counts: map<Int64, nat>, levelOf: map<Int64, Level>, es: seq<MatchedEvidence>, me: MatchedEvidence)
    requires Counted(counts, levelOf, es)
    ensures me.resolved == None ==> Counted(counts, levelOf, es + [me])
    ensures me.resolved.Some? ==>
              var id := me.resolved.value.id;
              Counted(counts[id := (if id in counts then counts[id] else 0) + 1],
                      levelOf[id := me.resolved.value.level], es + [me])
  {
    hide Count, LastLevel, NamedIds;
    NamedIdsSnoc(es, me);
    forall id
      ensures Count(es + [me], id) == Count(es, id) + if Names(me, id) then 1 else 0
      ensures LastLevel(es + [me], id)
           == if Names(me, id) then Some(me.resolved.value.level) else LastLevel(es, id)
    {
      CountSnoc(es, me, id);
    }
  }

  method CountEvidence(es: seq<MatchedEvidence>) returns (counts: map<Int64, nat>, levelOf: map<Int64, Level>)
    ensures Counted(counts, levelOf, es)
  {
    counts, levelOf := map[], map[];
    for i := 0 to |es|
      invariant Counted(counts, levelOf, es[..i])
    {
      hide Counted;
      CountedSnoc(counts, levelOf, es[..i], es[i]);
      assert es[..i + 1] == es[..i] + [es[i]];
      if es[i].resolved == None {
        continue;
      }
      var id := es[i].resolved.value.id;
      counts := counts[id := (if id in counts then counts[id] else 0) + 1];
      levelOf := levelOf[id := es[i].resolved.value.level];
    }
    assert es[..|es|] == es;
  }

  /** The ids are visited in no particular order. */
  method MultiEvidenceBonus(es: seq<MatchedEvidence>) returns (bonus: nat)
    ensures bonus == MultiBonus(es)
  {
    hide Count, LastLevel, SumOver;
    var counts, levelOf := CountEvidence(es);
    bonus := 0;
    var todo := counts.Keys;
    SumOfNone(es);
    while todo != {}
      invariant todo <= counts.Keys
      invariant bonus + SumOver(todo, es) == SumOver(counts.Keys, es)
      decreases todo
    {
      var id :| id in todo;
      SumAnyOrder(todo, es, id);
      todo := todo - {id};
      if counts[id] < 2 {
        continue;
      }
      var w: nat;
      match levelOf[id] {
        case Province => w := MULTI_PROVINCE;
        case City => w := MULTI_CITY;
        case District => w := MULTI_DISTRICT;
        case SubDistrict => w := MULTI_SUB_DISTRICT;
        case OtherLevel(_) => continue;
      }
      bonus := bonus + w;
    }
    if bonus > MAX_MULTI {
      bonus := MAX_MULTI;
    }
  }

  lemma SumOfNone(es: seq<MatchedEvidence>)
    ensures SumOver({}, es) == 0
  {
  }

  method MatchedLevels(loc: AdminLocation, es: seq<MatchedEvidence>) returns (levels: set<Level>)
    ensures forall level :: level in levels <==> LevelMatched(loc, es, level)
  {
    levels := {};
    for i := 0 to |es|
      invariant forall level :: level in levels <==> exists k :: 0 <= k < i && Confirms(loc, es[k], level)
    {
      ghost var before := levels;
      if es[i].resolved.Some? {
        var e := es[i].resolved.value;
        match e.level {
          case Province =>
            if loc.province.Some? && loc.province.value.id == e.id {
              levels := levels + {Province};
            }
          case City =>
            if loc.city.Some? && loc.city.value.id == e.id {
              levels := levels + {City};
            }
          case District =>
            if loc.district.Some? && loc.district.value.id == e.id {
              levels := levels + {District};
            }
          case SubDistrict =>
            if loc.subDistrict.Some? && loc.subDistrict.value.id == e.id {
              levels := levels + {SubDistrict};
            }
          case OtherLevel(_) =>
        }
      }
      assert forall level :: level in levels <==> level in before || Confirms(loc, es[i], level);
    }
  }

  method ScoreLevels(loc: AdminLocation, es: seq<MatchedEvidence>) returns (score: nat)
    ensures score == LevelScore(loc, es)
  {
    hide LevelMatched;
    score := 0;
    var matched := MatchedLevels(loc, es);
    if Province in matched {
      score := score + PROVINCE;
    }
    if City in matched {
      score := score + CITY;
    }
    if District in matched {
      score := score + DISTRICT;
    }
    if SubDistrict in matched {
      score := score + SUB_DISTRICT;
    }
  }

  method AnyResolved(es: seq<MatchedEvidence>) returns (r: bool)
    ensures r == HasExactMatch(es)
  {
    for i := 0 to |es|
      invariant forall k :: 0 <= k < i ==> es[k].resolved == None
    {
      if es[i].resolved.Some? {
        return true;
      }
    }
    return false;
  }

  method AnyHierarchyConflict(loc: AdminLocation) returns (r: bool)
    ensures r == HasHierarchyConflict(loc)
  {
    for i := 0 to |loc.conflicts|
      invariant forall k :: 0 <= k < i ==> loc.conflicts[k] != HierarchyConflict
    {
      if loc.conflicts[i] == HierarchyConflict {
        return true;
      }
    }
    return false;
  }

  method ScoreConfidence(loc: AdminLocation, es: seq<MatchedEvidence>, unused: seq<Evidence>, hasEvidence: bool)
    returns (score: int)
    ensures score == Score(loc, es, if hasEvidence then |unused| else 0)
  {
    hide PrefixScore, MultiBonus, LevelScore, HasExactMatch, HasHierarchyConflict;
    score := 0;
    var hasExactMatch := AnyResolved(es);
    if hasExactMatch {
      score := score + EXACT_MATCH;
    }
    var hasConflict := AnyHierarchyConflict(loc);
    if !hasConflict && loc.city.Some? {
      score := score + HIERARCHY;
    }
    if loc.postal.Some? {
      var prefix := ScorePostalCodePrefix(loc, es);
      score := score + POSTAL_CODE + prefix;
    }
    var levels := ScoreLevels(loc, es);
    score := score + levels;
    var bonus := MultiEvidenceBonus(es);
    score := score + bonus;
    assert score == RawScore(loc, es);
    if score > 100 {
      score := 100;
    }
    if hasEvidence && |unused| > 0 {
      score := score - |unused| * UNUSED_PENALTY;
    }
  }

  // ---------- Bounds ----------

  lemma {:induction false} PrefixScoreBound(code: string, es: seq<MatchedEvidence>)
    ensures PrefixScore(code, es) <= PREFIX_5
  {
    if es != [] {
      PrefixScoreBound(code, es[1..]);
    }
  }

  /** The weights add up to at most 1.30 before the cap, and confidence is at most 1.00. */
  lemma ScoreBounds(loc: AdminLocation, es: seq<MatchedEvidence>, unused: nat)
    ensures RawScore(loc, es) <= 130
    ensures Score(loc, es, unused) <= 100
  {
    if loc.postal.Some? {
      PrefixScoreBound(loc.postal.value.code, es);
    }
  }

  // ---------- More evidence never hurts ----------

  predicate SameId(a: MatchedEvidence, b: MatchedEvidence) {
    a.resolved.Some? && b.resolved.Some? && a.resolved.value.id == b.resolved.value.id
  }

  /** No id is named under two levels. */
  ghost predicate OneLevelPerId(es: seq<MatchedEvidence>) {
    forall i, j :: 0 <= i < |es| && 0 <= j < |es| && SameId(es[i], es[j]) ==>
      es[i].resolved.value.level == es[j].resolved.value.level
  }

  lemma {:induction false} LastLevelIsSome(es: seq<MatchedEvidence>, id: Int64)
    ensures Count(es, id) > 0 <==> LastLevel(es, id).Some?
    ensures LastLevel(es, id).Some? ==>
              exists i :: 0 <= i < |es| && Names(es[i], id) && es[i].resolved.value.level == LastLevel(es, id).value
  {
    if es != [] {
      var front := es[..|es| - 1];
      LastLevelIsSome(front, id);
      if !Names(es[|es| - 1], id) && LastLevel(front, id).Some? {
        var i :| 0 <= i < |front| && Names(front[i], id) && front[i].resolved.value.level == LastLevel(front, id).value;
        assert es[i] == front[i];
      } else if Names(es[|es| - 1], id) {
        assert es[|es| - 1].resolved.value.level == LastLevel(es, id).value;
      }
    }
  }

  lemma {:induction false} CountGrows(es: seq<MatchedEvidence>, more: seq<MatchedEvidence>, id: Int64)
    ensures Count(es + more, id) >= Count(es, id)
    decreases more
  {
    if more == [] {
      assert es + more == es;
    } else {
      var front := more[..|more| - 1];
      CountGrows(es, front, id);
      assert (es + more)[..|es + more| - 1] == es + front;
    }
  }

  lemma IdBonusGrows(es: seq<MatchedEvidence>, more: seq<MatchedEvidence>, id: Int64)
    requires OneLevelPerId(es + more)
    ensures IdBonus(es, id) <= IdBonus(es + more, id)
  {
    hide Count, LastLevel;
    CountGrows(es, more, id);
    LastLevelIsSome(es, id);
    LastLevelIsSome(es + more, id);
    if Count(es, id) >= 2 {
      var i :| 0 <= i < |es| && Names(es[i], id) && es[i].resolved.value.level == LastLevel(es, id).value;
      assert (es + more)[i] == es[i];
    }
  }

  lemma {:induction false} SumGrows(ids: set<Int64>, ids': set<Int64>, es: seq<MatchedEvidence>,
                                    more: seq<MatchedEvidence>)
    requires ids <= ids' && OneLevelPerId(es + more)
    ensures SumOver(ids, es) <= SumOver(ids', es + more)
    decreases ids
  {
    hide IdBonus, OneLevelPerId;
    if ids != {} {
      var id :| id in ids && SumOver(ids, es) == IdBonus(es, id) + SumOver(ids - {id}, es);
      SumAnyOrder(ids', es + more, id);
      IdBonusGrows(es, more, id);
      SumGrows(ids - {id}, ids' - {id}, es, more);
    } else {
      SumOfNone(es);
    }
  }

  lemma {:induction false} PrefixScoreGrows(code: string, es: seq<MatchedEvidence>, more: seq<MatchedEvidence>)
    ensures PrefixScore(code, es) <= PrefixScore(code, es + more)
  {
    if es != [] {
      assert (es + more)[1..] == es[1..] + more;
      PrefixScoreGrows(code, es[1..], more);
    }
  }

  lemma LevelMatchedGrows(loc: AdminLocation, es: seq<MatchedEvidence>, more: seq<MatchedEvidence>, level: Level)
    requires LevelMatched(loc, es, level)
    ensures LevelMatched(loc, es + more, level)
  {
    hide Confirms;
    var i :| 0 <= i < |es| && Confirms(loc, es[i], level);
    assert (es + more)[i] == es[i];
  }

  lemma LevelScoreGrows(loc: AdminLocation, es: seq<MatchedEvidence>, more: seq<MatchedEvidence>)
    ensures LevelScore(loc, es) <= LevelScore(loc, es + more)
  {
    hide LevelMatched;
    forall level | LevelMatched(loc, es, level)
      ensures LevelMatched(loc, es + more, level)
    {
      LevelMatchedGrows(loc, es, more, level);
    }
  }

  lemma RawScoreGrows(loc: AdminLocation, es: seq<MatchedEvidence>, more: seq<MatchedEvidence>)
    requires OneLevelPerId(es + more)
    ensures RawScore(loc, es) <= RawScore(loc, es + more)
  {
    hide PrefixScore, LevelScore, SumOver, OneLevelPerId;
    LevelScoreGrows(loc, es, more);
    assert NamedIds(es) <= NamedIds(es + more) by {
      assert forall x :: x in es ==> x in es + more;
    }
    SumGrows(NamedIds(es), NamedIds(es + more), es, more);
    if loc.postal.Some? {
      PrefixScoreGrows(loc.postal.value.code, es, more);
    }
    if HasExactMatch(es) {
      var i :| 0 <= i < |es| && es[i].resolved.Some?;
      assert (es + more)[i] == es[i];
    }
  }

  lemma {:induction false} UnusedShrinks(es: seq<MatchedEvidence>, more: seq<MatchedEvidence>, all: seq<Evidence>)
    ensures |Unused(es + more, all)| <= |Unused(es, all)|
  {
    if all != [] {
      UnusedShrinks(es, more, all[1..]);
      if Uses(es, all[0].value) {
        var i :| 0 <= i < |es| && es[i].evidence.value == all[0].value;
        assert (es + more)[i] == es[i];
      }
    }
  }

  // ---------- The evaluation as a whole ----------

  /** The location as it stands when the confidence is computed. */
  function Judged(c: AdminCandidate, h: Option<HierarchyMap>): AdminLocation {
    WithConflicts(c, NewConflicts(c, h)).location
  }

  ghost function EvaluatedConfidence(c: AdminCandidate, h: Option<HierarchyMap>, all: seq<Evidence>): int {
    Score(Judged(c, h), c.evidence, |Unused(c.evidence, all)|)
  }

  lemma ConflictsOtherwiseSame(c: AdminCandidate, d: AdminCandidate, h: Option<HierarchyMap>)
    requires c.location == d.location
    ensures HasHierarchyConflict(Judged(c, h)) <==> HasHierarchyConflict(Judged(d, h))
    ensures HasHierarchyConflict(Judged(c, h)) <==>
              HasHierarchyConflict(c.location) || BreaksHierarchy(c.location, h)
  {
    OnlyFromHierarchy(c, h);
    OnlyFromHierarchy(d, h);
  }

  lemma OnlyFromHierarchy(c: AdminCandidate, h: Option<HierarchyMap>)
    ensures HasHierarchyConflict(Judged(c, h)) <==>
              HasHierarchyConflict(c.location) || BreaksHierarchy(c.location, h)
  {
    hide OtherCities, DuplicateCount, BreaksHierarchy;
    assert HierarchyConflict !in DetectedConflicts(c);
    var first := If(BreaksHierarchy(c.location, h), HierarchyConflict);
    assert BreaksHierarchy(c.location, h) ==> first[0] == HierarchyConflict;
  }

  lemma SameRegionsSameScore(a: AdminLocation, b: AdminLocation, es: seq<MatchedEvidence>)
    requires a.(conflicts := []) == b.(conflicts := [])
    requires HasHierarchyConflict(a) <==> HasHierarchyConflict(b)
    ensures RawScore(a, es) == RawScore(b, es)
  {
    hide MultiBonus, PrefixScore, HasExactMatch;
    forall level
      ensures LevelMatched(a, es, level) <==> LevelMatched(b, es, level)
    {
      assert forall i :: 0 <= i < |es| ==> (Confirms(a, es[i], level) <==> Confirms(b, es[i], level));
    }
  }

  /** Appending evidence to a candidate, each id under one level, never lowers its confidence. */
  lemma AppendingEvidenceNeverLowers(c: AdminCandidate, more: seq<MatchedEvidence>, h: Option<HierarchyMap>,
                                     all: seq<Evidence>)
    requires OneLevelPerId(c.evidence + more)
    ensures EvaluatedConfidence(c, h, all) <= EvaluatedConfidence(c.(evidence := c.evidence + more), h, all)
  {
    hide RawScore, OneLevelPerId, Unused, NewConflicts;
    var d := c.(evidence := c.evidence + more);
    ConflictsOtherwiseSame(c, d, h);
    SameRegionsSameScore(Judged(c, h), Judged(d, h), d.evidence);
    RawScoreGrows(Judged(c, h), c.evidence, more);
    UnusedShrinks(c.evidence, more, all);
  }
}
