/**
 The score in plain numbers: what each weight is, what earns it, and which postal prefix and which
 repeated naming counts.
 */
module ScoreTable {
  import opened Wrappers
  import opened Decimal
  import opened Model
  import opened Confidence

  // ---------- The weights ----------

  function Points(b: bool, n: nat): nat {
    if b then n else 0
  }

  /** Some item names the region that fills the level. */
  ghost predicate ConfirmedAt(loc: AdminLocation, es: seq<MatchedEvidence>, level: Level) {
    RegionAt(loc, level).Some?
    && exists i :: 0 <= i < |es| && NamesRegion(es[i], level, RegionAt(loc, level).value.id)
  }

  ghost predicate NamesRegion(me: MatchedEvidence, level: Level, id: Int64) {
    me.resolved.Some? && me.resolved.value.level == level && me.resolved.value.id == id
  }

  /** In hundredths, before the cap: 10 for an item that names an entity, 15 for a city without hierarchy
      conflict, 5 and the prefix for a postal code, 15, 12, 8 and 5 for a confirmed province, city,
      district and sub-district, and the bonus for repeated naming. */
  lemma ScoreInNumbers(loc: AdminLocation, es: seq<MatchedEvidence>)
    ensures RawScore(loc, es)
         == Points(exists i :: 0 <= i < |es| && es[i].resolved.Some?, 10)
            + Points(loc.city.Some? && HierarchyConflict !in loc.conflicts, 15)
            + (if loc.postal.Some? then 5 + PrefixScore(loc.postal.value.code, es) else 0)
            + Points(ConfirmedAt(loc, es, Province), 15) + Points(ConfirmedAt(loc, es, City), 12)
            + Points(ConfirmedAt(loc, es, District), 8) + Points(ConfirmedAt(loc, es, SubDistrict), 5)
            + MultiBonus(es)
  {
    hide MultiBonus, PrefixScore, RegionAt;
    forall level
      ensures LevelMatched(loc, es, level) <==> ConfirmedAt(loc, es, level)
    {
      MatchedIsConfirmed(loc, es, level);
    }
    hide LevelMatched, ConfirmedAt;
  }

  lemma MatchedIsConfirmed(loc: AdminLocation, es: seq<MatchedEvidence>, level: Level)
    ensures LevelMatched(loc, es, level) <==> ConfirmedAt(loc, es, level)
  {
    hide RegionAt;
    if LevelMatched(loc, es, level) {
      var i :| 0 <= i < |es| && Confirms(loc, es[i], level);
      assert NamesRegion(es[i], level, RegionAt(loc, level).value.id);
    }
    if ConfirmedAt(loc, es, level) {
      var i :| 0 <= i < |es| && NamesRegion(es[i], level, RegionAt(loc, level).value.id);
      assert Confirms(loc, es[i], level);
    }
  }

  /** The penalty of 3 per unused item comes after the cap of 100. */
  lemma PenaltyInNumbers(loc: AdminLocation, es: seq<MatchedEvidence>, unused: nat)
    ensures RawScore(loc, es) <= 100 ==> Score(loc, es, unused) == RawScore(loc, es) - 3 * unused
    ensures RawScore(loc, es) >= 100 ==> Score(loc, es, unused) == 100 - 3 * unused
  {
    hide RawScore;
  }

  // ---------- Postal prefixes ----------

  ghost predicate Share(a: string, b: string, n: nat) {
    n <= |a| && n <= |b| && a[..n] == b[..n]
  }

  ghost predicate SharesThree(me: MatchedEvidence, code: string) {
    me.evidence.kind == PostalCode && Share(me.evidence.value, code, 3)
  }

  lemma {:induction false} PrefixLength(a: string, b: string, n: nat)
    ensures CommonPrefix(a, b) >= n <==> Share(a, b, n)
  {
    var k := CommonPrefix(a, b);
    if k >= n {
      assert a[..n] == a[..k][..n] && b[..n] == b[..k][..n];
    } else if n <= |a| && n <= |b| {
      assert a[..n][k] == a[k] && b[..n][k] == b[k];
    }
  }

  lemma PrefixStep(code: string, es: seq<MatchedEvidence>)
    requires es != []
    ensures !SharesThree(es[0], code) ==> PrefixScore(code, es) == PrefixScore(code, es[1..])
    ensures SharesThree(es[0], code) ==>
              var value := es[0].evidence.value;
              PrefixScore(code, es) == if Share(value, code, 5) then 20 else if Share(value, code, 4) then 10 else 7
  {
    hide Share, CommonPrefix;
    PrefixLength(es[0].evidence.value, code, 3);
    PrefixLength(es[0].evidence.value, code, 4);
    PrefixLength(es[0].evidence.value, code, 5);
  }

  /** Without a postal item that shares three leading digits with the code there is nothing. */
  lemma {:induction false} NoPrefix(code: string, es: seq<MatchedEvidence>)
    requires forall i :: 0 <= i < |es| ==> !SharesThree(es[i], code)
    ensures PrefixScore(code, es) == 0
  {
    if es != [] {
      hide SharesThree, PrefixScore;
      PrefixStep(code, es);
      assert forall i :: 0 <= i < |es| - 1 ==> es[1..][i] == es[i + 1];
      NoPrefix(code, es[1..]);
    }
  }

  /** Otherwise the first one decides: 20 for five shared digits, 10 for four, 7 for three. */
  lemma {:induction false} FirstPrefixDecides(code: string, es: seq<MatchedEvidence>, i: nat)
    requires i < |es| && SharesThree(es[i], code) && forall j :: 0 <= j < i ==> !SharesThree(es[j], code)
    ensures var value := es[i].evidence.value;
            PrefixScore(code, es) == if Share(value, code, 5) then 20 else if Share(value, code, 4) then 10 else 7
  {
    hide SharesThree, PrefixScore, Share;
    PrefixStep(code, es);
    if i > 0 {
      assert forall j :: 0 <= j < |es| - 1 ==> es[1..][j] == es[j + 1];
      FirstPrefixDecides(code, es[1..], i - 1);
    }
  }

  // ---------- Repeated naming ----------

  ghost predicate NamedTwice(es: seq<MatchedEvidence>, id: Int64) {
    exists i, j :: 0 <= i < j < |es| && Names(es[i], id) && Names(es[j], id)
  }

  lemma {:induction false} CountedTwice(es: seq<MatchedEvidence>, id: Int64)
    ensures Count(es, id) >= 1 <==> exists i :: 0 <= i < |es| && Names(es[i], id)
    ensures Count(es, id) >= 2 <==> NamedTwice(es, id)
  {
    if es != [] {
      hide Names;
      var front, last := es[..|es| - 1], es[|es| - 1];
      CountedTwice(front, id);
      assert forall i :: 0 <= i < |front| ==> front[i] == es[i];
      if NamedTwice(es, id) {
        var i, j :| 0 <= i < j < |es| && Names(es[i], id) && Names(es[j], id);
        assert Names(front[i], id);
        assert j < |front| ==> Names(front[j], id);
      }
      if Names(last, id) && Count(front, id) >= 1 {
        var i :| 0 <= i < |front| && Names(front[i], id);
        assert Names(es[i], id) && Names(es[|es| - 1], id);
      }
      if NamedTwice(front, id) {
        var i, j :| 0 <= i < j < |front| && Names(front[i], id) && Names(front[j], id);
        assert Names(es[i], id) && Names(es[j], id);
      }
      if i :| 0 <= i < |es| && Names(es[i], id) {
        assert i < |front| ==> Names(front[i], id);
      }
      if i :| 0 <= i < |front| && Names(front[i], id) {
        assert Names(es[i], id);
      }
      assert Names(last, id) ==> Names(es[|es| - 1], id);
    }
  }

  /** An id named at least twice, and under one level, earns 20, 15, 10 or 5 by that level. */
  lemma BonusInNumbers(es: seq<MatchedEvidence>, id: Int64, level: Level)
    requires forall i :: 0 <= i < |es| && Names(es[i], id) ==> es[i].resolved.value.level == level
    ensures !NamedTwice(es, id) ==> IdBonus(es, id) == 0
    ensures NamedTwice(es, id) ==>
              IdBonus(es, id)
              == match level
                 case Province => 20
                 case City => 15
                 case District => 10
                 case SubDistrict => 5
                 case OtherLevel(_) => 0
  {
    hide Names, NamedTwice, Count, LastLevel;
    CountedTwice(es, id);
    LastLevelIsSome(es, id);
  }

  /** The bonuses of all ids add up, to 40 at most. */
  lemma BonusesAddUp(es: seq<MatchedEvidence>)
    ensures MultiBonus(es) == if SumOver(NamedIds(es), es) <= 40 then SumOver(NamedIds(es), es) else 40
    ensures forall id :: id in NamedIds(es) <==>
              exists i :: 0 <= i < |es| && es[i].resolved.Some? && es[i].resolved.value.id == id
  {
    hide SumOver;
  }

  // ---------- Unused evidence ----------

  /** An item is unused exactly when no evidence of the candidate has its value. */
  lemma {:induction false} UnusedMembers(es: seq<MatchedEvidence>, all: seq<Evidence>)
    ensures forall ev :: ev in Unused(es, all) <==>
              ev in all && forall i :: 0 <= i < |es| ==> es[i].evidence.value != ev.value
  {
    if all != [] {
      UnusedMembers(es, all[1..]);
    }
  }
}
