/**
 Scoring and ranking of the built candidates, and the status that a response reports.
 */
module Ranking {
  import opened Wrappers
  import opened Model
  import opened Evaluation
  import opened Conclusions
  import opened Confidence

  datatype Scored = Scored(candidate: AdminCandidate, confidence: int, status: Status, unused: seq<Evidence>)

  ghost function ScoredOf(c: AdminCandidate, h: Option<HierarchyMap>, all: seq<Evidence>): Scored {
    Scored(WithConflicts(c, NewConflicts(c, h)), EvaluatedConfidence(c, h, all), AssessQuality(Judged(c, h)),
           Unused(c.evidence, all))
  }

  method EvaluateCandidate(c: AdminCandidate, h: Option<HierarchyMap>, all: seq<Evidence>) returns (s: Scored)
    ensures s == ScoredOf(c, h, all)
  {
    hide NewConflicts, Unused, Score, AssessQuality;
    var ref := new CandidateRef(c);
    ref.EvaluateHierarchy(h);
    var unused := EvaluateEvidenceCoverage(c.evidence, all);
    ref.DetectConflicts();
    StagesTogether(c, h);
    if all == [] {
      NothingUnused(c.evidence);
    }
    var confidence := ScoreConfidence(ref.value.location, c.evidence, unused, |all| > 0);
    s := Scored(ref.value, confidence, AssessQuality(ref.value.location), unused);
  }

  lemma NothingUnused(es: seq<MatchedEvidence>)
    ensures Unused(es, []) == []
  {
  }

  lemma StagesTogether(c: AdminCandidate, h: Option<HierarchyMap>)
    ensures var d := WithConflicts(c, If(BreaksHierarchy(c.location, h), HierarchyConflict));
            WithConflicts(d, DetectedConflicts(d)) == WithConflicts(c, NewConflicts(c, h))
  {
    hide DetectedConflicts, BreaksHierarchy;
    var first := If(BreaksHierarchy(c.location, h), HierarchyConflict);
    SameEvidence(c, first);
    TwiceWith(c, first, DetectedConflicts(c));
  }

  // ---------- Ranking ----------

  /** Higher confidence first, then more filled levels, then fewer conflicts. */
  predicate Before(x: Scored, y: Scored) {
    var m, n := CountNonNil(x.candidate.location), CountNonNil(y.candidate.location);
    if x.confidence != y.confidence then x.confidence > y.confidence
    else if m != n then m > n
    else |x.candidate.location.conflicts| < |y.candidate.location.conflicts|
  }

  lemma BeforeIsWeakOrder(x: Scored, y: Scored, z: Scored)
    ensures !Before(x, x)
    ensures Before(x, y) ==> !Before(y, x)
    ensures !Before(x, y) && !Before(y, z) ==> !Before(x, z)
  {
    hide CountNonNil;
  }

  ghost predicate Ranked(ss: seq<Scored>) {
    forall i, j :: 0 <= i < j < |ss| ==> !Before(ss[j], ss[i])
  }

  /** What ranking means: the first item has the greatest confidence, among those the most filled
      levels, and among those the fewest conflicts; and so on down the list. */
  lemma RankedByCriteria(ss: seq<Scored>, i: nat, j: nat)
    requires Ranked(ss) && i < j < |ss|
    ensures var x, y := ss[i], ss[j];
            && x.confidence >= y.confidence
            && (x.confidence == y.confidence ==>
                  && FilledLevels(x.candidate.location) >= FilledLevels(y.candidate.location)
                  && (FilledLevels(x.candidate.location) == FilledLevels(y.candidate.location) ==>
                        |x.candidate.location.conflicts| <= |y.candidate.location.conflicts|))
  {
    hide CountNonNil, FilledLevels;
    assert !Before(ss[j], ss[i]);
    CountsFilledLevels(ss[i].candidate.location);
    CountsFilledLevels(ss[j].candidate.location);
  }

  function FilledAmong(levels: seq<Level>, loc: AdminLocation): nat {
    if levels == [] then 0 else (if RegionAt(loc, levels[0]).Some? then 1 else 0) + FilledAmong(levels[1..], loc)
  }

  function FilledLevels(loc: AdminLocation): nat {
    FilledAmong([Province, City, District, SubDistrict], loc)
  }

  /** The count is the number of levels that are filled. */
  lemma CountsFilledLevels(loc: AdminLocation)
    ensures CountNonNil(loc) == FilledLevels(loc)
  {
    FilledStep(Province, [City, District, SubDistrict], loc);
    FilledStep(City, [District, SubDistrict], loc);
    FilledStep(District, [SubDistrict], loc);
    FilledStep(SubDistrict, [], loc);
    assert [Province, City, District, SubDistrict] == [Province] + [City, District, SubDistrict];
    assert [City, District, SubDistrict] == [City] + [District, SubDistrict];
    assert [District, SubDistrict] == [District] + [SubDistrict] && [SubDistrict] == [SubDistrict] + [];
  }

  lemma FilledStep(level: Level, levels: seq<Level>, loc: AdminLocation)
    ensures FilledAmong([level] + levels, loc) == (if RegionAt(loc, level).Some? then 1 else 0) + FilledAmong(levels, loc)
  {
    assert ([level] + levels)[1..] == levels;
  }

  /** Concluded candidates come with the fullest location first. */
  lemma FullestComesFirst(r: seq<AdminCandidate>, flat: seq<AdminCandidate>, h: HierarchyMap,
                          resolved: seq<ResolvedEvidence>,
                          i: nat, j: nat)
    requires ConclusionsOf(r, flat, Some(h), resolved) && i < j < |r|
    ensures FilledLevels(r[i].location) >= FilledLevels(r[j].location)
  {
    hide CountNonNil, FilledLevels;
    CountsFilledLevels(r[i].location);
    CountsFilledLevels(r[j].location);
  }

  lemma InsertedRanked(ss: seq<Scored>, s: Scored, i: nat)
    requires Ranked(ss) && i <= |ss|
    requires forall k :: i <= k < |ss| ==> Before(s, ss[k])
    requires i > 0 ==> !Before(s, ss[i - 1])
    ensures Ranked(ss[..i] + [s] + ss[i..])
  {
    hide Before;
    var r := ss[..i] + [s] + ss[i..];
    assert forall k :: 0 <= k < |r| ==> r[k] == if k < i then ss[k] else if k == i then s else ss[k - 1];
    forall k | 0 <= k < i
      ensures !Before(s, ss[k])
    {
      if k < i - 1 {
        assert !Before(ss[i - 1], ss[k]);
        BeforeIsWeakOrder(s, ss[i - 1], ss[k]);
      }
    }
    forall k | i <= k < |ss|
      ensures !Before(ss[k], s)
    {
      BeforeIsWeakOrder(s, ss[k], s);
    }
  }

  method Insert(ss: seq<Scored>, s: Scored) returns (r: seq<Scored>)
    requires Ranked(ss)
    ensures Ranked(r) && multiset(r) == multiset(ss) + multiset{s}
  {
    hide Before, Ranked;
    var i := |ss|;
    while i > 0 && Before(s, ss[i - 1])
      invariant 0 <= i <= |ss|
      invariant forall k :: i <= k < |ss| ==> Before(s, ss[k])
    {
      i := i - 1;
    }
    InsertedRanked(ss, s, i);
    r := ss[..i] + [s] + ss[i..];
    assert ss == ss[..i] + ss[i..];
  }

  ghost function ScoredAll(cs: seq<AdminCandidate>, h: Option<HierarchyMap>, all: seq<Evidence>): (r: seq<Scored>)
    ensures |r| == |cs| && forall i :: 0 <= i < |cs| ==> r[i] == ScoredOf(cs[i], h, all)
  {
    if cs == [] then [] else ScoredAll(cs[..|cs| - 1], h, all) + [ScoredOf(cs[|cs| - 1], h, all)]
  }

  /** Evaluates every candidate and ranks the results; equals may come in any order. */
  method EvaluateCandidates(cs: seq<AdminCandidate>, h: Option<HierarchyMap>, all: seq<Evidence>)
    returns (scored: seq<Scored>)
    ensures multiset(scored) == multiset(ScoredAll(cs, h, all))
    ensures Ranked(scored)
  {
    hide ScoredOf;
    var list: seq<Scored> := [];
    for i := 0 to |cs|
      invariant list == ScoredAll(cs[..i], h, all)
    {
      assert cs[..i + 1][..i] == cs[..i];
      var s := EvaluateCandidate(cs[i], h, all);
      list := list + [s];
    }
    assert cs[..|cs|] == cs;
    scored := [];
    for i := 0 to |list|
      invariant Ranked(scored) && multiset(scored) == multiset(list[..i])
    {
      assert list[..i + 1] == list[..i] + [list[i]];
      scored := Insert(scored, list[i]);
    }
    assert list[..|list|] == list;
  }

  // ---------- The reported status ----------

  /** The winner's status, unless a valid winner is less than 0.10 ahead of the next candidate. */
  function ResponseStatus(scored: seq<Scored>): Status {
    if scored == [] then Status.Unknown
    else if |scored| > 1 && scored[0].status == Status.Valid
            && -10 < scored[0].confidence - scored[1].confidence < 10 then Status.Ambiguous
    else scored[0].status
  }

  method ReportStatus(scored: seq<Scored>) returns (status: Status)
    ensures status == ResponseStatus(scored)
  {
    status := Status.Unknown;
    if |scored| > 0 {
      status := scored[0].status;
      if |scored| > 1 {
        var top, second := scored[0].confidence, scored[1].confidence;
        var gap := if top - second < 0 then second - top else top - second;
        if status == Status.Valid && gap < 10 {
          status := Status.Ambiguous;
        }
      }
    }
  }

  /** A response is VALID exactly when its winner is and leads every other candidate by 0.10. */
  lemma ValidMeansClearWinner(scored: seq<Scored>)
    requires Ranked(scored) && scored != []
    requires forall i :: 0 <= i < |scored| ==> scored[i].status != Status.Ambiguous
    ensures ResponseStatus(scored) == Status.Valid <==>
              && scored[0].status == Status.Valid
              && forall i :: 1 <= i < |scored| ==> scored[i].confidence + 10 <= scored[0].confidence
    ensures forall i :: 0 <= i < |scored| ==> scored[i].confidence <= scored[0].confidence
  {
    hide CountNonNil;
    forall i, j | 0 <= i < j < |scored|
      ensures scored[j].confidence <= scored[i].confidence
    {
      assert !Before(scored[j], scored[i]);
    }
  }

  /** The reported status, case by case: UNKNOWN without candidates; AMBIGUOUS exactly when a valid
      winner has another candidate less than 0.10 behind; else the winner's own. */
  lemma ReportedStatusIs(scored: seq<Scored>)
    requires Ranked(scored) && forall i :: 0 <= i < |scored| ==> scored[i].status != Status.Ambiguous
    ensures scored == [] ==> ResponseStatus(scored) == Status.Unknown
    ensures scored != [] ==>
              (ResponseStatus(scored) == Status.Ambiguous <==>
                 && scored[0].status == Status.Valid
                 && exists i :: 1 <= i < |scored| && scored[0].confidence < scored[i].confidence + 10)
    ensures scored != [] && ResponseStatus(scored) != Status.Ambiguous ==> ResponseStatus(scored) == scored[0].status
  {
    hide CountNonNil;
    forall i, j | 0 <= i < j < |scored|
      ensures scored[j].confidence <= scored[i].confidence
    {
      assert !Before(scored[j], scored[i]);
    }
  }
}
