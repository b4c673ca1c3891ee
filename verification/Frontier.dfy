/**
 Which candidates may drive contextual recovery, and which words of the address are left for it:
 evidence coverage, the expansion frontier, and the runs of unexplained words.
 */
module Frontier {
  import opened Text
  import opened Model
  import opened Fractions

  const STOPWORDS: set<string> := {"no", "rt", "rw", "km"}
  const MIN_SUPPORT := 2
  const COVERAGE_GAP: real := 0.05
  const MIN_COVERAGE: real := 0.5

  /** Structural words and road names, which never count. */
  predicate IsNoise(w: string, roadTokens: set<string>) {
    w in roadTokens || w in STOPWORDS || IsDigitOnly(w)
  }

  // ---------- Coverage ----------

  datatype Coverage = Coverage(candidate: AdminCandidate, used: seq<Evidence>, unused: seq<Evidence>, share: real)

  ghost predicate UsesValue(c: AdminCandidate, value: string) {
    exists i :: 0 <= i < |c.evidence| && c.evidence[i].evidence.value == value
  }

  /** The evidence that counts, split by whether the candidate uses it. */
  ghost function Counted(c: AdminCandidate, all: seq<Evidence>, roadTokens: set<string>, used: bool): seq<Evidence> {
    if all == [] then []
    else
      (if !IsNoise(all[0].value, roadTokens) && UsesValue(c, all[0].value) == used then [all[0]] else [])
      + Counted(c, all[1..], roadTokens, used)
  }

  function Share(used: nat, unused: nat): real {
    if used + unused == 0 then 0.0 else used as real / (used + unused) as real
  }

  ghost function CoverageOf(c: AdminCandidate, all: seq<Evidence>, roadTokens: set<string>): Coverage {
    var used, unused := Counted(c, all, roadTokens, true), Counted(c, all, roadTokens, false);
    Coverage(c, used, unused, Share(|used|, |unused|))
  }

  method SplitEvidence(ghost c: AdminCandidate, usedValues: set<string>, all: seq<Evidence>, roadTokens: set<string>)
    returns (used: seq<Evidence>, unused: seq<Evidence>)
    requires forall v :: v in usedValues <==> UsesValue(c, v)
    ensures used == Counted(c, all, roadTokens, true) && unused == Counted(c, all, roadTokens, false)
  {
    hide IsNoise, UsesValue;
    used, unused := [], [];
    for i := 0 to |all|
      invariant Counted(c, all, roadTokens, true) == used + Counted(c, all[i..], roadTokens, true)
      invariant Counted(c, all, roadTokens, false) == unused + Counted(c, all[i..], roadTokens, false)
    {
      assert all[i..][1..] == all[i + 1..];
      if IsNoise(all[i].value, roadTokens) {
        continue;
      }
      if all[i].value in usedValues {
        used := used + [all[i]];
      } else {
        unused := unused + [all[i]];
      }
    }
  }

  method EvaluateCandidateCoverage(c: AdminCandidate, all: seq<Evidence>,
                                   roadTokens: set<string>) returns (cov: Coverage)
    ensures cov == CoverageOf(c, all, roadTokens)
  {
    hide Counted;
    var usedValues: set<string> := {};
    for i := 0 to |c.evidence|
      invariant forall v :: v in usedValues <==> exists k :: 0 <= k < i && c.evidence[k].evidence.value == v
    {
      usedValues := usedValues + {c.evidence[i].evidence.value};
    }
    assert forall v :: v in usedValues <==> UsesValue(c, v);
    var used, unused := SplitEvidence(c, usedValues, all, roadTokens);
    cov := Coverage(c, used, unused, 0.0);
    var total := |used| + |unused|;
    if total > 0 {
      cov := cov.(share := |used| as real / total as real);
    }
  }

  lemma {:induction false} CountedMembers(c: AdminCandidate, all: seq<Evidence>, roadTokens: set<string>, used: bool)
    ensures forall ev :: ev in Counted(c, all, roadTokens, used) <==>
              ev in all && !IsNoise(ev.value, roadTokens) && UsesValue(c, ev.value) == used
  {
    hide IsNoise, UsesValue;
    if all != [] {
      CountedMembers(c, all[1..], roadTokens, used);
    }
  }

  /** What counts, spelled out: no road token, none of the four structural words, and not all digits. */
  lemma WhatCounts(c: AdminCandidate, all: seq<Evidence>, roadTokens: set<string>, used: bool)
    ensures forall ev :: ev in Counted(c, all, roadTokens, used) <==>
              && ev in all && ev.value !in roadTokens
              && ev.value != "no" && ev.value != "rt" && ev.value != "rw" && ev.value != "km"
              && (ev.value == "" || exists i :: 0 <= i < |ev.value| && !('0' <= ev.value[i] <= '9'))
              && (used <==> exists k :: 0 <= k < |c.evidence| && c.evidence[k].evidence.value == ev.value)
  {
    hide Counted;
    CountedMembers(c, all, roadTokens, used);
    forall ev: Evidence
      ensures IsDigitOnly(ev.value) <==> ev.value != "" && forall i :: 0 <= i < |ev.value| ==> '0' <= ev.value[i] <= '9'
    {
    }
  }

  lemma ShareBounds(used: nat, unused: nat)
    ensures 0.0 <= Share(used, unused) <= 1.0
  {
    if used + unused > 0 {
      QuotientOrder(used as real, (used + unused) as real, 0.0);
      QuotientOrder(used as real, (used + unused) as real, 1.0);
    }
  }

  /** The share, multiplied by the number of items that count, gives back the number used. */
  lemma ShareOfUsed(c: AdminCandidate, all: seq<Evidence>, roadTokens: set<string>)
    ensures var cov := CoverageOf(c, all, roadTokens);
            var n := |cov.used| + |cov.unused|;
            if n > 0 then cov.share * n as real == |cov.used| as real else cov.share == 0.0
  {
    hide Counted;
  }

  /** How many items of the evidence count at all. */
  function NotNoise(all: seq<Evidence>, roadTokens: set<string>): nat {
    if all == [] then 0 else (if IsNoise(all[0].value, roadTokens) then 0 else 1) + NotNoise(all[1..], roadTokens)
  }

  /** Every item that counts is either used or unused, whoever the candidate is. */
  lemma {:induction false} UsedAndUnused(c: AdminCandidate, all: seq<Evidence>, roadTokens: set<string>)
    ensures |Counted(c, all, roadTokens, true)| + |Counted(c, all, roadTokens, false)| == NotNoise(all, roadTokens)
  {
    hide IsNoise, UsesValue;
    if all != [] {
      UsedAndUnused(c, all[1..], roadTokens);
    }
  }

  ghost function Coverages(cs: seq<AdminCandidate>, all: seq<Evidence>, roadTokens: set<string>): (r: seq<Coverage>)
    ensures |r| == |cs| && forall i :: 0 <= i < |cs| ==> r[i] == CoverageOf(cs[i], all, roadTokens)
  {
    if cs == [] then [] else Coverages(cs[..|cs| - 1], all, roadTokens) + [CoverageOf(cs[|cs| - 1], all, roadTokens)]
  }

  /** The coverages of all candidates, over the same evidence. */
  method MeasureCoverages(cs: seq<AdminCandidate>, all: seq<Evidence>,
                          roadTokens: set<string>) returns (covs: seq<Coverage>)
    ensures covs == Coverages(cs, all, roadTokens)
  {
    hide CoverageOf;
    covs := [];
    for i := 0 to |cs|
      invariant covs == Coverages(cs[..i], all, roadTokens)
    {
      assert cs[..i + 1][..i] == cs[..i];
      var cov := EvaluateCandidateCoverage(cs[i], all, roadTokens);
      covs := covs + [cov];
    }
    assert cs[..|cs|] == cs;
  }

  // ---------- The frontier ----------

  ghost predicate IsBestShare(best: real, covs: seq<Coverage>) {
    && best >= 0.0
    && (forall i :: 0 <= i < |covs| ==> covs[i].share <= best)
    && (best > 0.0 ==> exists i :: 0 <= i < |covs| && covs[i].share == best)
  }

  predicate Eligible(cov: Coverage, best: real) {
    |cov.used| >= MIN_SUPPORT && cov.share >= best - COVERAGE_GAP
  }

  function EligibleOnes(covs: seq<Coverage>, best: real): seq<Coverage> {
    if covs == [] then [] else (if Eligible(covs[0], best) then [covs[0]] else []) + EligibleOnes(covs[1..], best)
  }

  /** The candidates within the gap below the best coverage and with enough support; nobody when
      the best coverage is too low. */
  ghost predicate IsFrontier(frontier: seq<Coverage>, covs: seq<Coverage>) {
    exists best :: IsBestShare(best, covs) && frontier == if best < MIN_COVERAGE then [] else EligibleOnes(covs, best)
  }

  method BestShare(covs: seq<Coverage>) returns (best: real)
    ensures IsBestShare(best, covs)
  {
    best := 0.0;
    for i := 0 to |covs|
      invariant best >= 0.0 && forall k :: 0 <= k < i ==> covs[k].share <= best
      invariant best > 0.0 ==> exists k :: 0 <= k < i && covs[k].share == best
    {
      if covs[i].share > best {
        best := covs[i].share;
      }
    }
  }

  method SelectExpansionFrontier(covs: seq<Coverage>) returns (frontier: seq<Coverage>)
    ensures IsFrontier(frontier, covs)
  {
    hide IsBestShare, EligibleOnes;
    var best := BestShare(covs);
    if best < MIN_COVERAGE {
      return [];
    }
    frontier := [];
    assert covs[..0] == [] && covs[..|covs|] == covs;
    NobodyEligible(best);
    for i := 0 to |covs|
      invariant frontier == EligibleOnes(covs[..i], best)
    {
      EligibleSnoc(covs[..i], covs[i], best);
      assert covs[..i + 1] == covs[..i] + [covs[i]];
      if |covs[i].used| >= MIN_SUPPORT && covs[i].share >= best - COVERAGE_GAP {
        frontier := frontier + [covs[i]];
      }
    }
  }

  lemma NobodyEligible(best: real)
    ensures EligibleOnes([], best) == []
  {
  }

  lemma {:induction false} EligibleSnoc(covs: seq<Coverage>, cov: Coverage, best: real)
    ensures EligibleOnes(covs + [cov], best)
         == if Eligible(cov, best) then EligibleOnes(covs, best) + [cov] else EligibleOnes(covs, best)
  {
    hide Eligible;
    if covs == [] {
      assert [] + [cov] == [cov] && [cov][1..] == [];
    } else {
      assert (covs + [cov])[1..] == covs[1..] + [cov];
      EligibleSnoc(covs[1..], cov, best);
      var first, rest := if Eligible(covs[0], best) then [covs[0]] else [], EligibleOnes(covs[1..], best);
      assert first + (rest + [cov]) == (first + rest) + [cov];
    }
  }

  lemma {:induction false} EligibleMembers(covs: seq<Coverage>, best: real)
    ensures forall c :: c in EligibleOnes(covs, best) <==> c in covs && Eligible(c, best)
  {
    hide Eligible;
    if covs != [] {
      EligibleMembers(covs[1..], best);
    }
  }

  /** The best coverage is determined, so the frontier is. */
  lemma FrontierMembers(frontier: seq<Coverage>, covs: seq<Coverage>)
    requires IsFrontier(frontier, covs)
    ensures forall c :: c in frontier <==>
              && c in covs && |c.used| >= MIN_SUPPORT
              && (forall d :: d in covs ==> d.share <= c.share + COVERAGE_GAP)
              && (exists d :: d in covs && d.share >= MIN_COVERAGE)
  {
    var best :| IsBestShare(best, covs) && frontier == if best < MIN_COVERAGE then [] else EligibleOnes(covs, best);
    EligibleMembers(covs, best);
    if best > 0.0 {
      var i :| 0 <= i < |covs| && covs[i].share == best;
      assert covs[i] in covs;
    }
    forall c | c in covs
      ensures c.share <= best
    {
    }
    forall c | c in covs && forall d :: d in covs ==> d.share <= c.share + COVERAGE_GAP
      ensures best > 0.0 ==> c.share >= best - COVERAGE_GAP
    {
    }
  }

  /** In numbers of items alone: with n items that count, a candidate is in the frontier exactly when
      it uses at least two, nobody uses more than a twentieth of n more, and somebody uses half. */
  lemma FrontierByCounts(frontier: seq<Coverage>, cs: seq<AdminCandidate>, all: seq<Evidence>, roadTokens: set<string>)
    requires IsFrontier(frontier, Coverages(cs, all, roadTokens))
    ensures var covs, n := Coverages(cs, all, roadTokens), NotNoise(all, roadTokens);
            forall c :: c in frontier <==>
              && c in covs && |c.used| >= 2
              && (forall d :: d in covs ==> 20 * |d.used| <= 20 * |c.used| + n)
              && (exists d :: d in covs && 2 * |d.used| >= n > 0)
  {
    hide IsFrontier, Coverages, NotNoise;
    var covs, n := Coverages(cs, all, roadTokens), NotNoise(all, roadTokens);
    FrontierMembers(frontier, covs);
    forall d | d in covs
      ensures d.share >= MIN_COVERAGE <==> 2 * |d.used| >= n > 0
    {
      CoverageInNumbers(d, cs, all, roadTokens);
      HalfInNumbers(d, n);
    }
    forall c, d | c in covs && d in covs && n > 0
      ensures d.share <= c.share + COVERAGE_GAP <==> 20 * |d.used| <= 20 * |c.used| + n
    {
      CoverageInNumbers(c, cs, all, roadTokens);
      CoverageInNumbers(d, cs, all, roadTokens);
      TwentiethOrder(|d.used|, |c.used|, n);
    }
    if n == 0 {
      assert forall d :: d in covs ==> d.share < MIN_COVERAGE;
    }
  }

  lemma HalfInNumbers(d: Coverage, n: nat)
    requires d.share == if n == 0 then 0.0 else |d.used| as real / n as real
    ensures d.share >= MIN_COVERAGE <==> 2 * |d.used| >= n > 0
  {
    if n > 0 {
      QuotientOrder(|d.used| as real, n as real, 0.5);
    }
  }

  lemma CoverageInNumbers(d: Coverage, cs: seq<AdminCandidate>, all: seq<Evidence>, roadTokens: set<string>)
    requires d in Coverages(cs, all, roadTokens)
    ensures var n := NotNoise(all, roadTokens);
            |d.used| <= n && d.share == if n == 0 then 0.0 else |d.used| as real / n as real
  {
    hide Counted, NotNoise;
    var covs := Coverages(cs, all, roadTokens);
    var i :| 0 <= i < |covs| && covs[i] == d;
    UsedAndUnused(cs[i], all, roadTokens);
    ShareOfUsed(cs[i], all, roadTokens);
  }

  // ---------- Unexplained runs ----------

  predicate IsLeft(words: seq<string>, i: int, explained: set<string>, roadTokens: set<string>) {
    0 <= i < |words| && words[i] !in explained && !IsNoise(words[i], roadTokens)
  }

  /** Adjacent positions, all of them unexplained. */
  ghost predicate IsRun(run: seq<nat>, words: seq<string>, explained: set<string>, roadTokens: set<string>) {
    run != [] && forall k :: 0 <= k < |run| ==> run[k] == run[0] + k && IsLeft(words, run[k], explained, roadTokens)
  }

  ghost predicate InSomeRun(runs: seq<seq<nat>>, i: nat) {
    exists r :: 0 <= r < |runs| && i in runs[r]
  }

  function Start(run: seq<nat>): nat {
    if run == [] then 0 else run[0]
  }

  function End(run: seq<nat>): nat {
    Start(run) + |run|
  }

  ghost predicate AllRuns(runs: seq<seq<nat>>, n: nat, words: seq<string>, explained: set<string>,
                          roadTokens: set<string>) {
    forall r :: 0 <= r < |runs| ==> IsRun(runs[r], words, explained, roadTokens) && End(runs[r]) <= n
  }

  ghost predicate Apart(runs: seq<seq<nat>>) {
    forall r, q :: 0 <= r < q < |runs| ==> End(runs[r]) < Start(runs[q])
  }

  ghost predicate NoneLeftOut(runs: seq<seq<nat>>, n: nat, words: seq<string>, explained: set<string>,
                              roadTokens: set<string>) {
    forall i: nat :: i < n && IsLeft(words, i, explained, roadTokens) ==> InSomeRun(runs, i)
  }

  /** The runs up to position n: in order, no two of them adjacent, and no unexplained word missed. */
  ghost predicate RunsUpTo(runs: seq<seq<nat>>, n: nat, words: seq<string>, explained: set<string>,
                           roadTokens: set<string>) {
    && AllRuns(runs, n, words, explained, roadTokens)
    && Apart(runs)
    && NoneLeftOut(runs, n, words, explained, roadTokens)
  }

  /** The runs with the run that is still growing at the end, when there is one. */
  function WithCurrent(runs: seq<seq<nat>>, cur: seq<nat>): seq<seq<nat>> {
    if cur == [] then runs else runs + [cur]
  }

  lemma SkipWord(runs: seq<seq<nat>>, n: nat, words: seq<string>, explained: set<string>, roadTokens: set<string>)
    requires RunsUpTo(runs, n, words, explained, roadTokens)
    requires !IsLeft(words, n, explained, roadTokens)
    ensures RunsUpTo(runs, n + 1, words, explained, roadTokens)
  {
    hide IsRun, IsLeft, InSomeRun, End, Apart;
  }

  /** Replacing the last run, or adding one, without losing a position. */
  lemma SnocRun(runs: seq<seq<nat>>, run: seq<nat>, n: nat, words: seq<string>, explained: set<string>,
                roadTokens: set<string>)
    requires AllRuns(runs, n, words, explained, roadTokens) && Apart(runs)
    requires forall r :: 0 <= r < |runs| ==> End(runs[r]) < Start(run)
    requires IsRun(run, words, explained, roadTokens) && End(run) <= n + 1
    ensures AllRuns(runs + [run], n + 1, words, explained, roadTokens) && Apart(runs + [run])
  {
    hide IsRun, Start, End;
  }

  lemma ParentRuns(runs: seq<seq<nat>>, run: seq<nat>, n: nat, words: seq<string>, explained: set<string>,
                   roadTokens: set<string>)
    requires AllRuns(runs + [run], n, words, explained, roadTokens) && Apart(runs + [run])
    ensures AllRuns(runs, n, words, explained, roadTokens) && Apart(runs)
    ensures IsRun(run, words, explained, roadTokens) && forall r :: 0 <= r < |runs| ==> End(runs[r]) < Start(run)
  {
    hide IsRun, Start, End;
    var all := runs + [run];
    assert all[|runs|] == run;
    assert forall r :: 0 <= r < |runs| ==> all[r] == runs[r];
  }

  lemma LastRunEndsEarlier(run: seq<nat>, n: nat, words: seq<string>, explained: set<string>, roadTokens: set<string>)
    requires IsRun(run, words, explained, roadTokens) && End(run) <= n
    requires n > 0 ==> !IsLeft(words, n - 1, explained, roadTokens)
    ensures End(run) < n
  {
    hide IsLeft;
    assert IsLeft(words, run[|run| - 1], explained, roadTokens);
  }

  lemma SingletonRun(n: nat, words: seq<string>, explained: set<string>, roadTokens: set<string>)
    requires IsLeft(words, n, explained, roadTokens)
    ensures IsRun([n], words, explained, roadTokens) && Start([n]) == n && End([n]) == n + 1
  {
  }

  lemma StartRun(runs: seq<seq<nat>>, n: nat, words: seq<string>, explained: set<string>, roadTokens: set<string>)
    requires RunsUpTo(runs, n, words, explained, roadTokens)
    requires IsLeft(words, n, explained, roadTokens)
    requires n > 0 ==> !IsLeft(words, n - 1, explained, roadTokens)
    ensures RunsUpTo(runs + [[n]], n + 1, words, explained, roadTokens)
  {
    hide IsLeft, IsRun, InSomeRun, Start, End;
    forall r | 0 <= r < |runs|
      ensures End(runs[r]) < n
    {
      LastRunEndsEarlier(runs[r], n, words, explained, roadTokens);
    }
    SingletonRun(n, words, explained, roadTokens);
    SnocRun(runs, [n], n, words, explained, roadTokens);
    forall i: nat | i < n + 1 && IsLeft(words, i, explained, roadTokens)
      ensures InSomeRun(runs + [[n]], i)
    {
      InLonger(runs, [n], i);
    }
  }

  lemma InLonger(runs: seq<seq<nat>>, run: seq<nat>, i: nat)
    ensures InSomeRun(runs + [run], i) <==> InSomeRun(runs, i) || i in run
  {
    var all := runs + [run];
    assert all[|runs|] == run;
    if InSomeRun(runs, i) {
      var r :| 0 <= r < |runs| && i in runs[r];
      assert i in all[r];
    }
    if InSomeRun(all, i) {
      var r :| 0 <= r < |all| && i in all[r];
      assert r < |runs| ==> i in runs[r];
    }
  }

  lemma RunGrows(cur: seq<nat>, n: nat, words: seq<string>, explained: set<string>, roadTokens: set<string>)
    requires IsRun(cur, words, explained, roadTokens) && End(cur) == n
    requires IsLeft(words, n, explained, roadTokens)
    ensures IsRun(cur + [n], words, explained, roadTokens)
    ensures Start(cur + [n]) == Start(cur) && End(cur + [n]) == n + 1
  {
    hide IsLeft;
    forall k | 0 <= k < |cur + [n]|
      ensures (cur + [n])[k] == cur[0] + k && IsLeft(words, (cur + [n])[k], explained, roadTokens)
    {
      if k < |cur| {
        assert cur[k] == cur[0] + k;
      }
    }
  }

  lemma GrowRun(runs: seq<seq<nat>>, cur: seq<nat>, n: nat, words: seq<string>, explained: set<string>,
                roadTokens: set<string>)
    requires End(cur) == n
    requires RunsUpTo(runs + [cur], n, words, explained, roadTokens)
    requires IsLeft(words, n, explained, roadTokens)
    ensures RunsUpTo(runs + [cur + [n]], n + 1, words, explained, roadTokens) && End(cur + [n]) == n + 1
  {
    hide IsLeft, IsRun, InSomeRun, Start, End;
    ParentRuns(runs, cur, n, words, explained, roadTokens);
    RunGrows(cur, n, words, explained, roadTokens);
    SnocRun(runs, cur + [n], n, words, explained, roadTokens);
    forall i: nat | i < n + 1 && IsLeft(words, i, explained, roadTokens)
      ensures InSomeRun(runs + [cur + [n]], i)
    {
      InLonger(runs, cur, i);
      InLonger(runs, cur + [n], i);
    }
  }

  lemma NoRunsYet(words: seq<string>, explained: set<string>, roadTokens: set<string>)
    ensures RunsUpTo([], 0, words, explained, roadTokens)
  {
  }

  method UnexplainedRuns(words: seq<string>, explained: set<string>,
                         roadTokens: set<string>) returns (runs: seq<seq<nat>>)
    ensures RunsUpTo(runs, |words|, words, explained, roadTokens)
  {
    runs := [];
    var cur: seq<nat> := [];
    NoRunsYet(words, explained, roadTokens);
    hide RunsUpTo, IsNoise, End, Start;
    for i := 0 to |words|
      invariant RunsUpTo(WithCurrent(runs, cur), i, words, explained, roadTokens)
      invariant cur != [] ==> End(cur) == i
      invariant cur == [] && i > 0 ==> !IsLeft(words, i - 1, explained, roadTokens)
    {
      if words[i] in explained || IsNoise(words[i], roadTokens) {
        SkipWord(WithCurrent(runs, cur), i, words, explained, roadTokens);
        if |cur| > 0 {
          runs := runs + [cur];
          cur := [];
        }
        continue;
      }
      if cur == [] {
        StartRun(runs, i, words, explained, roadTokens);
        SingletonRun(i, words, explained, roadTokens);
        assert cur + [i] == [i];
      } else {
        GrowRun(runs, cur, i, words, explained, roadTokens);
      }
      cur := cur + [i];
    }
    if |cur| > 0 {
      runs := runs + [cur];
    }
  }
}
