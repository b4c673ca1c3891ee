/**
 Deduplication of candidates by the ids of their filled levels: keys, merging, and the pass that
 keeps the first candidate of every key and unites the evidence of the rest into it.
 */
module Deduplication {
  import opened Wrappers
  import opened Decimal
  import opened Model
  import Text

  // ---------- Keys ----------

  function LocationIds(loc: AdminLocation): seq<Int64> {
    [IdOf(loc.province), IdOf(loc.city), IdOf(loc.district), IdOf(loc.subDistrict)]
  }

  function CandidateKey(c: AdminCandidate): string {
    Key(LocationIds(c.location))
  }

  method FormatCandidateKey(c: AdminCandidate) returns (key: string)
    ensures key == CandidateKey(c)
  {
    var provID, cityID, distID, subID: Int64 := 0, 0, 0, 0;
    if c.location.province.Some? {
      provID := c.location.province.value.id;
    }
    if c.location.city.Some? {
      cityID := c.location.city.value.id;
    }
    if c.location.district.Some? {
      distID := c.location.district.value.id;
    }
    if c.location.subDistrict.Some? {
      subID := c.location.subDistrict.value.id;
    }
    key := FormatKey([provID, cityID, distID, subID]);
  }

  /** Which levels are filled, and with which ids. */
  function FilledIds(loc: AdminLocation): seq<Option<Int64>> {
    [FilledId(loc.province), FilledId(loc.city), FilledId(loc.district), FilledId(loc.subDistrict)]
  }

  function FilledId(r: Option<Region>): Option<Int64> {
    if r.Some? then Some(r.value.id) else None
  }

  predicate NonZeroIds(loc: AdminLocation) {
    && (loc.province.Some? ==> loc.province.value.id != 0)
    && (loc.city.Some? ==> loc.city.value.id != 0)
    && (loc.district.Some? ==> loc.district.value.id != 0)
    && (loc.subDistrict.Some? ==> loc.subDistrict.value.id != 0)
  }

  lemma SameKeySameIds(c: AdminCandidate, d: AdminCandidate)
    requires CandidateKey(c) == CandidateKey(d)
    ensures IdOf(c.location.province) == IdOf(d.location.province)
    ensures IdOf(c.location.city) == IdOf(d.location.city)
    ensures IdOf(c.location.district) == IdOf(d.location.district)
    ensures IdOf(c.location.subDistrict) == IdOf(d.location.subDistrict)
  {
    var xs, ys := LocationIds(c.location), LocationIds(d.location);
    KeyInjective(xs, ys);
    assert xs[0] == ys[0] && xs[1] == ys[1] && xs[2] == ys[2] && xs[3] == ys[3];
  }

  /** On locations whose ids are not zero the key tells filled levels and ids apart. */
  lemma CandidateKeyInjective(c: AdminCandidate, d: AdminCandidate)
    requires NonZeroIds(c.location) && NonZeroIds(d.location)
    ensures CandidateKey(c) == CandidateKey(d) <==> FilledIds(c.location) == FilledIds(d.location)
  {
    var f, g := FilledIds(c.location), FilledIds(d.location);
    if CandidateKey(c) == CandidateKey(d) {
      SameKeySameIds(c, d);
    }
    if f == g {
      assert f[0] == g[0] && f[1] == g[1] && f[2] == g[2] && f[3] == g[3];
    }
  }

  // ---------- Evidence keys ----------

  function LevelName(l: Level): string {
    match l
    case Province => "PROVINCE"
    case City => "CITY"
    case District => "DISTRICT"
    case SubDistrict => "SUBDISTRICT"
    case OtherLevel(name) => name
  }

  function EvidenceKey(me: MatchedEvidence): string {
    match me.resolved
    case None => me.evidence.value
    case Some(e) => me.evidence.value + ":" + LevelName(e.level) + ":" + Itoa(e.id)
  }

  ghost function EvidenceKeys(es: seq<MatchedEvidence>): set<string> {
    set me | me in es :: EvidenceKey(me)
  }

  ghost function StrategySet(ss: seq<Strategy>): set<Strategy> {
    set s | s in ss
  }

  ghost predicate DistinctKeys(cs: seq<AdminCandidate>) {
    forall i, j :: 0 <= i < j < |cs| ==> CandidateKey(cs[i]) != CandidateKey(cs[j])
  }

  // ---------- Merging ----------

  /** The item is the last one of its key. */
  ghost predicate IsLast(es: seq<MatchedEvidence>, me: MatchedEvidence) {
    exists i :: 0 <= i < |es| && es[i] == me && forall j :: i < j < |es| ==> EvidenceKey(es[j]) != EvidenceKey(me)
  }

  ghost predicate KeysDiffer(es: seq<MatchedEvidence>) {
    forall i, j :: 0 <= i < j < |es| ==> EvidenceKey(es[i]) != EvidenceKey(es[j])
  }

  ghost predicate NoTwice(ss: seq<Strategy>) {
    forall i, j :: 0 <= i < j < |ss| ==> ss[i] != ss[j]
  }

  /** m is a with b's strategies and evidence added: every strategy once, and of a's evidence followed
      by b's the last item of every key, once. */
  ghost predicate MergeOf(m: AdminCandidate, a: AdminCandidate, b: AdminCandidate) {
    && m.origin == a.origin && m.location == a.location
    && NoTwice(m.strategies) && StrategySet(m.strategies) == StrategySet(a.strategies) + StrategySet(b.strategies)
    && KeysDiffer(m.evidence) && EvidenceKeys(m.evidence) == EvidenceKeys(a.evidence) + EvidenceKeys(b.evidence)
    && (forall me :: me in m.evidence ==> IsLast(a.evidence + b.evidence, me))
  }

  /** The index holds the last item of every key. */
  ghost predicate LastByKey(index: map<string, MatchedEvidence>, es: seq<MatchedEvidence>) {
    && index.Keys == EvidenceKeys(es)
    && forall k :: k in index ==> EvidenceKey(index[k]) == k && IsLast(es, index[k])
  }

  lemma NewestIsLast(es: seq<MatchedEvidence>, me: MatchedEvidence)
    ensures IsLast(es + [me], me)
    ensures forall x :: IsLast(es, x) && EvidenceKey(x) != EvidenceKey(me) ==> IsLast(es + [me], x)
  {
    hide EvidenceKey;
    var all := es + [me];
    assert all[|es|] == me;
    forall x | IsLast(es, x) && EvidenceKey(x) != EvidenceKey(me)
      ensures IsLast(all, x)
    {
      var i :| 0 <= i < |es| && es[i] == x && forall j :: i < j < |es| ==> EvidenceKey(es[j]) != EvidenceKey(x);
      assert all[i] == x;
      assert forall j :: i < j < |es| ==> all[j] == es[j];
    }
  }

  method IndexEvidence(index: map<string, MatchedEvidence>, ghost before: seq<MatchedEvidence>,
                       es: seq<MatchedEvidence>)
    returns (r: map<string, MatchedEvidence>)
    requires LastByKey(index, before)
    ensures LastByKey(r, before + es)
  {
    hide EvidenceKey, EvidenceKeys, IsLast;
    r := index;
    assert before + es[..0] == before;
    for i := 0 to |es|
      invariant LastByKey(r, before + es[..i])
    {
      ghost var sofar := before + es[..i];
      NewestIsLast(sofar, es[i]);
      EvidenceKeysSnoc(sofar, es[i]);
      assert before + es[..i + 1] == sofar + [es[i]];
      r := r[EvidenceKey(es[i]) := es[i]];
    }
    assert before + es[..|es|] == before + es;
  }

  lemma EvidenceKeysSnoc(es: seq<MatchedEvidence>, me: MatchedEvidence)
    ensures EvidenceKeys(es + [me]) == EvidenceKeys(es) + {EvidenceKey(me)}
  {
    assert forall x :: x in es + [me] <==> x in es || x == me;
  }

  lemma EvidenceKeysConcat(a: seq<MatchedEvidence>, b: seq<MatchedEvidence>)
    ensures EvidenceKeys(a + b) == EvidenceKeys(a) + EvidenceKeys(b)
  {
    hide EvidenceKey;
    assert forall x :: x in a + b <==> x in a || x in b;
  }

  lemma NoEvidenceIndexed()
    ensures LastByKey(map[], [])
  {
  }

  /** Lists the values of the index, each once; the order is not determined. */
  method ListEvidence(index: map<string, MatchedEvidence>) returns (es: seq<MatchedEvidence>)
    requires forall k :: k in index ==> EvidenceKey(index[k]) == k
    ensures EvidenceKeys(es) == index.Keys && KeysDiffer(es)
    ensures forall me :: me in es ==> EvidenceKey(me) in index && index[EvidenceKey(me)] == me
  {
    hide EvidenceKey;
    es := [];
    var todo := index.Keys;
    while todo != {}
      invariant todo <= index.Keys
      invariant EvidenceKeys(es) == index.Keys - todo && KeysDiffer(es)
      invariant forall me :: me in es ==> EvidenceKey(me) in index && index[EvidenceKey(me)] == me
      decreases todo
    {
      var k :| k in todo;
      EvidenceKeysSnoc(es, index[k]);
      assert forall i :: 0 <= i < |es| ==> es[i] in es && EvidenceKey(es[i]) in EvidenceKeys(es);
      es := es + [index[k]];
      todo := todo - {k};
    }
  }

  method ListStrategies(strategies: set<Strategy>) returns (ss: seq<Strategy>)
    ensures StrategySet(ss) == strategies && NoTwice(ss)
  {
    ss := [];
    var todo := strategies;
    while todo != {}
      invariant todo <= strategies && StrategySet(ss) == strategies - todo && NoTwice(ss)
      decreases todo
    {
      var s :| s in todo;
      assert StrategySet(ss + [s]) == StrategySet(ss) + {s};
      assert strategies - (todo - {s}) == (strategies - todo) + {s};
      assert forall i :: 0 <= i < |ss| ==> ss[i] in StrategySet(ss);
      ss := ss + [s];
      todo := todo - {s};
    }
  }

  method MergeCandidates(a: AdminCandidate, b: AdminCandidate) returns (merged: AdminCandidate)
    ensures MergeOf(merged, a, b)
  {
    hide EvidenceKey, EvidenceKeys, IsLast;
    var strategySet: set<Strategy> := {};
    for i := 0 to |a.strategies|
      invariant strategySet == StrategySet(a.strategies[..i])
    {
      assert a.strategies[..i + 1] == a.strategies[..i] + [a.strategies[i]];
      strategySet := strategySet + {a.strategies[i]};
    }
    assert a.strategies[..|a.strategies|] == a.strategies;
    for i := 0 to |b.strategies|
      invariant strategySet == StrategySet(a.strategies) + StrategySet(b.strategies[..i])
    {
      assert b.strategies[..i + 1] == b.strategies[..i] + [b.strategies[i]];
      strategySet := strategySet + {b.strategies[i]};
    }
    assert b.strategies[..|b.strategies|] == b.strategies;
    var strategies := ListStrategies(strategySet);
    NoEvidenceIndexed();
    var index := IndexEvidence(map[], [], a.evidence);
    assert [] + a.evidence == a.evidence;
    index := IndexEvidence(index, a.evidence, b.evidence);
    EvidenceKeysConcat(a.evidence, b.evidence);
    var evidence := ListEvidence(index);
    merged := a.(strategies := strategies, evidence := evidence);
  }

  // ----- What a key tells -----

  lemma LevelNameInjective(l: Level, m: Level)
    requires !l.OtherLevel? && !m.OtherLevel? && LevelName(l) == LevelName(m)
    ensures l == m
  {
    assert "PROVINCE"[0] == 'P' && "CITY"[0] == 'C' && "DISTRICT"[0] == 'D' && "SUBDISTRICT"[0] == 'S';
  }

  /** For values without a colon, the key tells apart values, levels and ids, and whether the item is
      resolved. */
  lemma EvidenceKeySeparates(x: MatchedEvidence, y: MatchedEvidence)
    requires ':' !in x.evidence.value && ':' !in y.evidence.value
    requires x.resolved.Some? ==> !x.resolved.value.level.OtherLevel?
    requires y.resolved.Some? ==> !y.resolved.value.level.OtherLevel?
    ensures EvidenceKey(x) == EvidenceKey(y) <==>
              && x.evidence.value == y.evidence.value && (x.resolved.Some? <==> y.resolved.Some?)
              && (x.resolved.Some? ==>
                    x.resolved.value.level == y.resolved.value.level && x.resolved.value.id == y.resolved.value.id)
  {
    hide Itoa;
    if x.resolved.Some? && y.resolved.Some? {
      var e, f := x.resolved.value, y.resolved.value;
      var p, q := LevelName(e.level) + ":" + Itoa(e.id), LevelName(f.level) + ":" + Itoa(f.id);
      assert EvidenceKey(x) == x.evidence.value + ":" + p && EvidenceKey(y) == y.evidence.value + ":" + q;
      if EvidenceKey(x) == EvidenceKey(y) {
        Text.SeparatorSplits(x.evidence.value, p, y.evidence.value, q, ':');
        NoColonInLevel(e.level);
        NoColonInLevel(f.level);
        Text.SeparatorSplits(LevelName(e.level), Itoa(e.id), LevelName(f.level), Itoa(f.id), ':');
        LevelNameInjective(e.level, f.level);
        ItoaInjective(e.id, f.id);
      }
    } else {
      KeyHasColon(x);
      KeyHasColon(y);
    }
  }

  lemma NoColonInLevel(l: Level)
    requires !l.OtherLevel?
    ensures ':' !in LevelName(l)
  {
  }

  lemma KeyHasColon(me: MatchedEvidence)
    requires ':' !in me.evidence.value
    ensures ':' in EvidenceKey(me) <==> me.resolved.Some?
  {
    hide Itoa;
    if me.resolved.Some? {
      assert EvidenceKey(me)[|me.evidence.value|] == ':';
    }
  }

  // ---------- The deduplicated list ----------

  /** Candidate d stands for the candidates of cs that share the key of cs[first]. */
  ghost predicate StandsFor(d: AdminCandidate, cs: seq<AdminCandidate>, first: nat)
    requires first < |cs|
  {
    var key := CandidateKey(cs[first]);
    && d.origin == cs[first].origin && d.location == cs[first].location
    && (forall s :: s in StrategySet(d.strategies) <==>
          exists j :: 0 <= j < |cs| && CandidateKey(cs[j]) == key && s in StrategySet(cs[j].strategies))
    && (forall k :: k in EvidenceKeys(d.evidence) <==>
          exists j :: 0 <= j < |cs| && CandidateKey(cs[j]) == key && k in EvidenceKeys(cs[j].evidence))
    && ((forall j :: 0 <= j < |cs| && j != first ==> CandidateKey(cs[j]) != key) ==> d == cs[first])
  }

  ghost predicate FirstOfKey(cs: seq<AdminCandidate>, i: nat)
    requires i < |cs|
  {
    forall j :: 0 <= j < i ==> CandidateKey(cs[j]) != CandidateKey(cs[i])
  }

  /** ds is cs with one candidate per key, in the order of first occurrence; firsts are the
      positions of the first occurrences. */
  ghost predicate DedupOf(cs: seq<AdminCandidate>, ds: seq<AdminCandidate>, firsts: seq<nat>) {
    && |ds| == |firsts|
    && (forall d :: 0 <= d < |firsts| ==> firsts[d] < |cs| && FirstOfKey(cs, firsts[d]))
    && (forall d, e :: 0 <= d < e < |firsts| ==> firsts[d] < firsts[e])
    && (forall i :: 0 <= i < |cs| && FirstOfKey(cs, i) ==> i in firsts)
    && (forall d :: 0 <= d < |ds| ==> StandsFor(ds[d], cs, firsts[d]))
  }

  lemma DedupHasDistinctKeys(cs: seq<AdminCandidate>, ds: seq<AdminCandidate>, firsts: seq<nat>)
    requires DedupOf(cs, ds, firsts)
    ensures DistinctKeys(ds)
  {
    hide Key;
    forall d, e | 0 <= d < e < |ds|
      ensures CandidateKey(ds[d]) != CandidateKey(ds[e])
    {
      assert StandsFor(ds[d], cs, firsts[d]) && StandsFor(ds[e], cs, firsts[e]);
      assert firsts[d] < firsts[e];
    }
  }

  lemma {:induction false} IncreasingPositions(firsts: seq<nat>, n: nat)
    requires forall d :: 0 <= d < |firsts| ==> firsts[d] < n
    requires forall d, e :: 0 <= d < e < |firsts| ==> firsts[d] < firsts[e]
    requires forall i :: 0 <= i < n ==> i in firsts
    ensures |firsts| == n && forall d :: 0 <= d < n ==> firsts[d] == d
    decreases n
  {
    assert firsts != [] ==> firsts[0] < n;
    if n > 0 {
      assert n - 1 in firsts;
      var k :| 0 <= k < |firsts| && firsts[k] == n - 1;
      var last := firsts[|firsts| - 1];
      assert last <= n - 1;
      assert k == |firsts| - 1;
      var rest := firsts[..k];
      forall i | 0 <= i < n - 1
        ensures i in rest
      {
        assert i in firsts;
        var d :| 0 <= d < |firsts| && firsts[d] == i;
        assert rest[d] == i;
      }
      IncreasingPositions(rest, n - 1);
    }
  }

  /** A list whose keys are distinct already is left as it is. */
  lemma DedupOfDistinct(cs: seq<AdminCandidate>, ds: seq<AdminCandidate>, firsts: seq<nat>)
    requires DedupOf(cs, ds, firsts) && DistinctKeys(cs)
    ensures ds == cs
  {
    hide CandidateKey;
    forall i | 0 <= i < |cs|
      ensures i in firsts
    {
      assert FirstOfKey(cs, i);
    }
    IncreasingPositions(firsts, |cs|);
    forall d | 0 <= d < |cs|
      ensures ds[d] == cs[d]
    {
      assert StandsFor(ds[d], cs, firsts[d]);
    }
  }

  /** Deduplicating twice is deduplicating once. */
  lemma DedupIdempotent(cs: seq<AdminCandidate>, ds: seq<AdminCandidate>, firsts: seq<nat>,
                        es: seq<AdminCandidate>, firsts': seq<nat>)
    requires DedupOf(cs, ds, firsts) && DedupOf(ds, es, firsts')
    ensures es == ds
  {
    DedupHasDistinctKeys(cs, ds, firsts);
    DedupOfDistinct(ds, es, firsts');
  }

  // ---------- The pass ----------

  lemma StandsForItself(cs: seq<AdminCandidate>, c: AdminCandidate)
    requires forall j :: 0 <= j < |cs| ==> CandidateKey(cs[j]) != CandidateKey(c)
    ensures StandsFor(c, cs + [c], |cs|)
  {
    hide CandidateKey, StrategySet, EvidenceKeys;
    var all := cs + [c];
    assert all[|cs|] == c;
  }

  lemma StandsForLonger(d: AdminCandidate, cs: seq<AdminCandidate>, first: nat, c: AdminCandidate)
    requires first < |cs| && StandsFor(d, cs, first) && CandidateKey(c) != CandidateKey(cs[first])
    ensures StandsFor(d, cs + [c], first)
  {
    hide CandidateKey, StrategySet, EvidenceKeys;
    var all := cs + [c];
    assert forall j :: 0 <= j < |cs| ==> all[j] == cs[j];
  }

  lemma StandsForMerged(m: AdminCandidate, d: AdminCandidate, cs: seq<AdminCandidate>, first: nat, c: AdminCandidate)
    requires first < |cs| && StandsFor(d, cs, first) && CandidateKey(c) == CandidateKey(cs[first])
    requires MergeOf(m, d, c)
    ensures StandsFor(m, cs + [c], first)
  {
    hide CandidateKey, StrategySet, EvidenceKeys, EvidenceKey;
    var all, key := cs + [c], CandidateKey(cs[first]);
    assert all[|cs|] == c && forall j :: 0 <= j < |cs| ==> all[j] == cs[j];
    forall s
      ensures s in StrategySet(m.strategies) <==>
              exists j :: 0 <= j < |all| && CandidateKey(all[j]) == key && s in StrategySet(all[j].strategies)
    {
      if s in StrategySet(d.strategies) {
        var j :| 0 <= j < |cs| && CandidateKey(cs[j]) == key && s in StrategySet(cs[j].strategies);
        assert CandidateKey(all[j]) == key && s in StrategySet(all[j].strategies);
      }
    }
    forall k
      ensures k in EvidenceKeys(m.evidence) <==>
              exists j :: 0 <= j < |all| && CandidateKey(all[j]) == key && k in EvidenceKeys(all[j].evidence)
    {
      if k in EvidenceKeys(d.evidence) {
        var j :| 0 <= j < |cs| && CandidateKey(cs[j]) == key && k in EvidenceKeys(cs[j].evidence);
        assert CandidateKey(all[j]) == key && k in EvidenceKeys(all[j].evidence);
      }
    }
  }

  /** Where each key went: the positions of the index and the first occurrences agree. */
  ghost predicate Indexed(seen: map<string, nat>, cs: seq<AdminCandidate>, firsts: seq<nat>) {
    && (forall d :: 0 <= d < |firsts| ==> firsts[d] < |cs|)
    && (forall k :: k in seen ==> seen[k] < |firsts| && CandidateKey(cs[firsts[seen[k]]]) == k)
    && (forall i :: 0 <= i < |cs| ==> CandidateKey(cs[i]) in seen)
  }

  lemma FirstsOfLonger(cs: seq<AdminCandidate>, c: AdminCandidate, i: nat)
    requires i < |cs|
    ensures FirstOfKey(cs + [c], i) <==> FirstOfKey(cs, i)
  {
    hide CandidateKey;
    assert forall j :: 0 <= j < |cs| ==> (cs + [c])[j] == cs[j];
  }

  lemma AppendedNew(cs: seq<AdminCandidate>, ds: seq<AdminCandidate>, firsts: seq<nat>, seen: map<string, nat>,
                    c: AdminCandidate)
    requires DedupOf(cs, ds, firsts) && Indexed(seen, cs, firsts)
    requires CandidateKey(c) !in seen
    ensures DedupOf(cs + [c], ds + [c], firsts + [|cs|])
    ensures Indexed(seen[CandidateKey(c) := |ds|], cs + [c], firsts + [|cs|])
  {
    hide CandidateKey, StandsFor;
    var all, more, fs := cs + [c], ds + [c], firsts + [|cs|];
    assert forall j :: 0 <= j < |cs| ==> all[j] == cs[j];
    StandsForItself(cs, c);
    forall d | 0 <= d < |more|
      ensures fs[d] < |all| && FirstOfKey(all, fs[d]) && StandsFor(more[d], all, fs[d])
    {
      if d < |ds| {
        assert FirstOfKey(cs, firsts[d]);
        FirstsOfLonger(cs, c, firsts[d]);
        assert CandidateKey(cs[firsts[d]]) in seen;
        StandsForLonger(ds[d], cs, firsts[d], c);
      }
    }
    forall i | 0 <= i < |all| && FirstOfKey(all, i)
      ensures i in fs
    {
      if i < |cs| {
        FirstsOfLonger(cs, c, i);
      } else {
        assert fs[|firsts|] == i;
      }
    }
  }

  lemma MergedKnown(cs: seq<AdminCandidate>, ds: seq<AdminCandidate>, firsts: seq<nat>, seen: map<string, nat>,
                    c: AdminCandidate, m: AdminCandidate)
    requires DedupOf(cs, ds, firsts) && Indexed(seen, cs, firsts)
    requires CandidateKey(c) in seen && MergeOf(m, ds[seen[CandidateKey(c)]], c)
    ensures DedupOf(cs + [c], ds[seen[CandidateKey(c)] := m], firsts)
    ensures Indexed(seen, cs + [c], firsts)
  {
    hide CandidateKey, StandsFor, MergeOf;
    var idx := seen[CandidateKey(c)];
    var all, more := cs + [c], ds[idx := m];
    assert forall j :: 0 <= j < |cs| ==> all[j] == cs[j];
    assert !FirstOfKey(all, |cs|) by {
      assert CandidateKey(all[firsts[idx]]) == CandidateKey(all[|cs|]);
    }
    forall d | 0 <= d < |more|
      ensures FirstOfKey(all, firsts[d]) && StandsFor(more[d], all, firsts[d])
    {
      FirstsOfLonger(cs, c, firsts[d]);
      assert StandsFor(ds[d], cs, firsts[d]);
      if d == idx {
        StandsForMerged(m, ds[d], cs, firsts[d], c);
      } else {
        DifferentFirsts(cs, firsts, d, idx);
        StandsForLonger(ds[d], cs, firsts[d], c);
      }
    }
    forall i | 0 <= i < |all| && FirstOfKey(all, i)
      ensures i in firsts
    {
      if i < |cs| {
        FirstsOfLonger(cs, c, i);
      }
    }
  }

  lemma DifferentFirsts(cs: seq<AdminCandidate>, firsts: seq<nat>, d: nat, e: nat)
    requires d < |firsts| && e < |firsts| && d != e
    requires forall k :: 0 <= k < |firsts| ==> firsts[k] < |cs| && FirstOfKey(cs, firsts[k])
    requires forall k, l :: 0 <= k < l < |firsts| ==> firsts[k] < firsts[l]
    ensures CandidateKey(cs[firsts[d]]) != CandidateKey(cs[firsts[e]])
  {
    hide CandidateKey;
    assert FirstOfKey(cs, firsts[d]) && FirstOfKey(cs, firsts[e]);
    assert firsts[d] < firsts[e] || firsts[e] < firsts[d];
  }

  lemma SingleIsDedup(cs: seq<AdminCandidate>)
    requires |cs| <= 1
    ensures DedupOf(cs, cs, if cs == [] then [] else [0])
  {
    if |cs| == 1 {
      assert cs == [] + [cs[0]];
      StandsForItself([], cs[0]);
    }
  }

  method DeduplicateCandidates(candidates: seq<AdminCandidate>) returns (deduped: seq<AdminCandidate>)
    ensures exists firsts :: DedupOf(candidates, deduped, firsts)
  {
    hide CandidateKey, StandsFor, MergeOf;
    ghost var firsts: seq<nat> := if candidates == [] then [] else [0];
    if |candidates| <= 1 {
      SingleIsDedup(candidates);
      assert DedupOf(candidates, candidates, firsts);
      return candidates;
    }
    var seen: map<string, nat> := map[];
    deduped, firsts := [], [];
    for i := 0 to |candidates|
      invariant DedupOf(candidates[..i], deduped, firsts)
      invariant Indexed(seen, candidates[..i], firsts)
    {
      var c := candidates[i];
      ghost var sofar := candidates[..i];
      assert candidates[..i + 1] == sofar + [c];
      var key := FormatCandidateKey(c);
      if key in seen {
        var merged := MergeCandidates(deduped[seen[key]], c);
        MergedKnown(sofar, deduped, firsts, seen, c, merged);
        deduped := deduped[seen[key] := merged];
      } else {
        AppendedNew(sofar, deduped, firsts, seen, c);
        seen := seen[key := |deduped|];
        deduped := deduped + [c];
        firsts := firsts + [i];
      }
    }
    assert candidates[..|candidates|] == candidates;
  }
}
