/**
 What contextual recovery guarantees: where its spans lie, what its evidence may contain, and that
 it takes nothing away from the candidates that gave it its context.
 */
module RecoverySafety {
  import opened Text
  import opened Decimal
  import opened Model
  import opened Segmentation
  import opened Phrases
  import opened Candidates
  import opened EditDistance
  import opened FuzzyTargets
  import opened Neighborhood
  import opened Frontier
  import opened Pipeline
  import opened Recovery

  // ---------- Where the spans lie ----------

  /** One to four adjacent words inside one run. */
  ghost predicate InsideRun(s: Span, run: seq<nat>) {
    run != [] && run[0] <= s.start < s.end <= run[0] + |run| && s.end - s.start <= MAX_SPAN_TOKENS
  }

  ghost predicate InsideSome(s: Span, runs: seq<seq<nat>>) {
    exists r :: 0 <= r < |runs| && InsideRun(s, runs[r])
  }

  /** The span matches, and no longer span of the same run that starts there does. */
  ghost predicate LongestInRun(s: Span, m: Match, run: seq<nat>) {
    InsideRun(s, run) && LongestMatch(m, s, run[0], run[0] + |run|, MAX_SPAN_TOKENS)
  }

  ghost predicate AllInside(spans: seq<Span>, m: Match, runs: seq<seq<nat>>) {
    forall k :: 0 <= k < |spans| ==> exists r :: 0 <= r < |runs| && LongestInRun(spans[k], m, runs[r])
  }

  /** A position of the run at which some span of the run matches. */
  ghost predicate CanStart(m: Match, run: seq<nat>, i: nat) {
    run != [] && run[0] <= i < run[0] + |run| && !NoMatchBeyond(m, i, i, Reach(i, run[0] + |run|, MAX_SPAN_TOKENS))
  }

  ghost predicate NoneOfRunMissed(spans: seq<Span>, m: Match, run: seq<nat>) {
    forall i: nat :: CanStart(m, run, i) ==> Covered(spans, i)
  }

  /** The consumed spans: disjoint and in order, each the longest match at its start within one
      run, and no run position left from which anything matches. */
  ghost predicate GreedyInRuns(spans: seq<Span>, m: Match, runs: seq<seq<nat>>) {
    && AllInside(spans, m, runs)
    && DisjointInOrder(spans)
    && (forall r :: 0 <= r < |runs| ==> NoneOfRunMissed(spans, m, runs[r]))
  }

  ghost predicate InOrder(runs: seq<seq<nat>>) {
    && NonemptyRuns(runs)
    && (forall r, q :: 0 <= r < q < |runs| ==> runs[r] != [] && runs[q] != [] && runs[r][0] + |runs[r]| < runs[q][0])
  }

  lemma SegmentInside(m: Match, run: seq<nat>)
    requires run != []
    ensures var spans := Segment(m, run[0], run[0] + |run|, MAX_SPAN_TOKENS);
            && (forall k :: 0 <= k < |spans| ==> LongestInRun(spans[k], m, run))
            && DisjointInOrder(spans) && NoneOfRunMissed(spans, m, run)
  {
    hide Segment, NoMatchBeyond;
    SegmentIsLeftmostLongest(m, run[0], run[0] + |run|, MAX_SPAN_TOKENS);
    var spans := Segment(m, run[0], run[0] + |run|, MAX_SPAN_TOKENS);
    forall k | 0 <= k < |spans|
      ensures LongestInRun(spans[k], m, run)
    {
      assert LongestMatch(m, spans[k], run[0], run[0] + |run|, MAX_SPAN_TOKENS);
    }
  }

  lemma CoveredConcat(a: seq<Span>, b: seq<Span>, i: nat)
    ensures Covered(a + b, i) <==> Covered(a, i) || Covered(b, i)
  {
    var all := a + b;
    if Covered(a, i) {
      var k :| 0 <= k < |a| && a[k].start <= i < a[k].end;
      assert all[k] == a[k];
    }
    if Covered(b, i) {
      var k :| 0 <= k < |b| && b[k].start <= i < b[k].end;
      assert all[|a| + k] == b[k];
    }
    if Covered(all, i) {
      var k :| 0 <= k < |all| && all[k].start <= i < all[k].end;
      assert if k < |a| then all[k] == a[k] else all[k] == b[k - |a|];
    }
  }

  lemma OneMoreRun(a: seq<Span>, b: seq<Span>, m: Match, runs: seq<seq<nat>>, run: seq<nat>)
    requires GreedyInRuns(a, m, runs) && InOrder(runs + [run])
    requires forall k :: 0 <= k < |b| ==> LongestInRun(b[k], m, run)
    requires DisjointInOrder(b) && NoneOfRunMissed(b, m, run)
    ensures GreedyInRuns(a + b, m, runs + [run])
  {
    hide LongestMatch, CanStart, Covered;
    var spans, all := a + b, runs + [run];
    assert all[|runs|] == run;
    forall k | 0 <= k < |spans|
      ensures exists r :: 0 <= r < |all| && LongestInRun(spans[k], m, all[r])
    {
      if k < |a| {
        var r :| 0 <= r < |runs| && LongestInRun(a[k], m, runs[r]);
        assert LongestInRun(spans[k], m, all[r]);
      } else {
        assert LongestInRun(b[k - |a|], m, all[|runs|]);
      }
    }
    forall k, l | 0 <= k < l < |spans|
      ensures spans[k].end <= spans[l].start
    {
      if k < |a| <= l {
        var r :| 0 <= r < |runs| && LongestInRun(a[k], m, runs[r]);
        assert all[r] == runs[r];
        assert LongestInRun(b[l - |a|], m, run);
      }
    }
    forall r | 0 <= r < |all|
      ensures NoneOfRunMissed(spans, m, all[r])
    {
      assert r < |runs| ==> NoneOfRunMissed(a, m, runs[r]);
      forall i: nat | CanStart(m, all[r], i)
        ensures Covered(spans, i)
      {
        CoveredConcat(a, b, i);
      }
    }
  }

  lemma {:induction false} RunSpansAreGreedy(q: Search, runs: seq<seq<nat>>)
    requires InOrder(runs)
    ensures GreedyInRuns(RunSpans(q, runs), FuzzyMatch(q.words, q.targets), runs)
  {
    hide GreedyInRuns, LongestInRun, DisjointInOrder, NoneOfRunMissed, FuzzyMatch, Segment;
    var m := FuzzyMatch(q.words, q.targets);
    if runs == [] {
      NoRuns(m);
    } else {
      var last := |runs| - 1;
      var before, run := runs[..last], runs[last];
      assert runs == before + [run];
      RunSpansAreGreedy(q, before);
      SegmentInside(m, run);
      OneMoreRun(RunSpans(q, before), Segment(m, run[0], run[0] + |run|, MAX_SPAN_TOKENS), m, before, run);
    }
  }

  lemma NoRuns(m: Match)
    ensures GreedyInRuns([], m, [])
  {
  }

  /** A span is compared by its words, lowered and run together. */
  lemma SpanKeyOfWords(words: seq<string>, i: nat, j: nat)
    requires AllWords(words) && i <= j <= |words|
    ensures SpanKey(Phrase(words, i, j)) == Join(LowerAll(words[i..j]), "")
  {
    hide Compact, ToLower;
    assert AllWords(words[i..j]);
    WordsHaveNoSpaces(words[i..j]);
    CompactOfWords(words[i..j]);
    CompactOfLowered(Phrase(words, i, j));
  }

  /** A run of at most four words that matches as a whole is taken as a whole. */
  lemma WholeRunIsOneSpan(q: Search, run: seq<nat>)
    requires 1 <= |run| <= 4 && FuzzyMatch(q.words, q.targets)(run[0], run[0] + |run|)
    ensures Segment(FuzzyMatch(q.words, q.targets), run[0], run[0] + |run|, MAX_SPAN_TOKENS)
         == [Span(run[0], run[0] + |run|)]
  {
    hide FuzzyMatch;
    var m, lo, hi := FuzzyMatch(q.words, q.targets), run[0], run[0] + |run|;
    LongestEndIs(m, lo, Reach(lo, hi, MAX_SPAN_TOKENS), hi);
    SegmentStep(m, lo, hi, MAX_SPAN_TOKENS);
    SegmentEnd(m, hi, MAX_SPAN_TOKENS);
  }

  /** Of a longer run at most four words are taken at once. */
  lemma SpansHaveFourWordsAtMost(spans: seq<Span>, m: Match, runs: seq<seq<nat>>, k: nat)
    requires GreedyInRuns(spans, m, runs) && k < |spans|
    ensures 1 <= spans[k].end - spans[k].start <= 4
  {
    SpanMatchesInRuns(spans, m, runs, k);
  }

  // ---------- What the evidence contains ----------

  /** Some consumed span has these ids among its best matches. */
  ghost predicate AttainedBySome(q: Search, spans: seq<Span>, id: Int64)
    requires InBounds(spans, |q.words|)
  {
    exists k :: 0 <= k < |spans| && id in AttainedIds(q.targets, TextOf(q, spans[k]))
  }

  lemma NoSpans(recovered: seq<ResolvedEvidence>, q: Search)
    ensures KnownAfter(q, []) == q.known
    ensures RecoveredBy(recovered, q, []) <==> recovered == []
  {
  }

  lemma AttainedSnoc(q: Search, spans: seq<Span>, s: Span, id: Int64)
    requires InBounds(spans, |q.words|) && s.start < s.end <= |q.words|
    ensures InBounds(spans + [s], |q.words|)
    ensures AttainedBySome(q, spans + [s], id)
       <==> AttainedBySome(q, spans, id) || id in AttainedIds(q.targets, TextOf(q, s))
  {
    hide AttainedIds, TextOf;
    var all := spans + [s];
    assert all[|spans|] == s;
    if AttainedBySome(q, spans, id) {
      var k :| 0 <= k < |spans| && id in AttainedIds(q.targets, TextOf(q, spans[k]));
      assert all[k] == spans[k];
    }
    if AttainedBySome(q, all, id) {
      var k :| 0 <= k < |all| && id in AttainedIds(q.targets, TextOf(q, all[k]));
      assert k < |spans| ==> spans[k] == all[k];
    }
  }

  lemma {:induction false} KnownAfterIs(q: Search, spans: seq<Span>)
    requires InBounds(spans, |q.words|)
    ensures forall id :: id in KnownAfter(q, spans) <==> id in q.known || AttainedBySome(q, spans, id)
  {
    hide KnownAfter, AttainedIds, TextOf, AttainedBySome;
    if spans == [] {
      NoSpans([], q);
      NothingAttained(q);
    } else {
      var before, s := spans[..|spans| - 1], spans[|spans| - 1];
      assert spans == before + [s];
      KnownAfterIs(q, before);
      RecoveredSnoc([], q, before, s);
      forall id
        ensures id in KnownAfter(q, spans) <==> id in q.known || AttainedBySome(q, spans, id)
      {
        AttainedSnoc(q, before, s, id);
      }
    }
  }

  lemma NothingAttained(q: Search)
    ensures forall id :: !AttainedBySome(q, [], id)
  {
  }

  lemma {:induction false} WordsOfIs(words: seq<string>, spans: seq<Span>)
    requires InBounds(spans, |words|)
    ensures forall w :: w in WordsOf(words, spans) <==> exists k :: 0 <= k < |spans| && SpanHas(words, spans[k], w)
  {
    if spans != [] {
      var before := spans[..|spans| - 1];
      WordsOfIs(words, before);
      forall w
        ensures w in WordsOf(words, spans) <==> exists k :: 0 <= k < |spans| && SpanHas(words, spans[k], w)
      {
        if k :| 0 <= k < |before| && SpanHas(words, before[k], w) {
          assert spans[k] == before[k];
        }
        if k :| 0 <= k < |spans| && SpanHas(words, spans[k], w) {
          assert k < |before| ==> before[k] == spans[k];
        }
      }
    }
  }

  /** The item stands for one of the spans and holds only its best matches. */
  ghost predicate FromSpan(r: ResolvedEvidence, q: Search, s: Span)
    requires s.start < s.end <= |q.words|
  {
    && r.evidence == Evidence(PlaceName, TextOf(q, s)) && r.candidates != []
    && forall e :: e in r.candidates ==> Attains(q.targets, SpanKey(TextOf(q, s)), e)
  }

  ghost predicate FromSomeSpan(r: ResolvedEvidence, q: Search, spans: seq<Span>)
    requires InBounds(spans, |q.words|)
  {
    exists k :: 0 <= k < |spans| && FromSpan(r, q, spans[k])
  }

  lemma FromLongerList(r: ResolvedEvidence, q: Search, spans: seq<Span>, s: Span)
    requires InBounds(spans, |q.words|) && s.start < s.end <= |q.words|
    requires FromSomeSpan(r, q, spans) || FromSpan(r, q, s)
    ensures InBounds(spans + [s], |q.words|) && FromSomeSpan(r, q, spans + [s])
  {
    hide FromSpan;
    var all := spans + [s];
    if FromSomeSpan(r, q, spans) {
      var k :| 0 <= k < |spans| && FromSpan(r, q, spans[k]);
      assert all[k] == spans[k];
    } else {
      assert all[|spans|] == s;
    }
  }

  /** The recovered entities: new, each once, and exactly the ids that the consumed spans attain
      besides the known ones. */
  ghost predicate NewOnes(recovered: seq<ResolvedEvidence>, q: Search, spans: seq<Span>)
    requires InBounds(spans, |q.words|)
  {
    && (forall i :: 0 <= i < |recovered| ==> FromSomeSpan(recovered[i], q, spans))
    && NoRepeats(Offered(recovered))
    && Ids(Offered(recovered)) == KnownAfter(q, spans) - q.known
  }

  lemma NoRepeatsConcat(a: seq<Entity>, b: seq<Entity>)
    requires NoRepeats(a) && NoRepeats(b) && Ids(a) !! Ids(b)
    ensures NoRepeats(a + b) && Ids(a + b) == Ids(a) + Ids(b)
  {
    var all := a + b;
    assert forall x :: x in all <==> x in a || x in b;
    forall i, j | 0 <= i < j < |all|
      ensures all[i].id != all[j].id
    {
      if i < |a| <= j {
        assert all[i].id in Ids(a) && all[j].id in Ids(b);
      }
    }
  }

  lemma RecoveredIds(r: ResolvedEvidence, text: string, t: Targets, known: set<Int64>)
    requires Recovers(r, text, t, known)
    ensures Ids(r.candidates) == AttainedIds(t, text) - known
  {
    hide MostSimilar, SpanKey;
    forall e | e in r.candidates
      ensures e.id in AttainedIds(t, text) - known
    {
      var k :| MostSimilar(t, SpanKey(text), k) && FuzzyTargets.Listed(t, k, e);
    }
    forall k, e | k in t && MostSimilar(t, SpanKey(text), k) && e in t[k] && e.id !in known
      ensures e in r.candidates
    {
      assert FuzzyTargets.Listed(t, k, e);
    }
  }

  lemma NewOnesGrow(recovered: seq<ResolvedEvidence>, r: ResolvedEvidence, q: Search, spans: seq<Span>, s: Span)
    requires InBounds(spans, |q.words|) && s.start < s.end <= |q.words|
    requires NewOnes(recovered, q, spans) && q.known <= KnownAfter(q, spans)
    requires Recovers(r, TextOf(q, s), q.targets, KnownAfter(q, spans))
    ensures InBounds(spans + [s], |q.words|) && NewOnes(recovered + [r], q, spans + [s])
  {
    hide Offered, NoRepeats, Ids, AttainedIds, TextOf, KnownAfter, SpanKey, Attains, FromSomeSpan;
    RecoveredSnoc([], q, spans, s);
    var known, more := KnownAfter(q, spans), AttainedIds(q.targets, TextOf(q, s));
    RecoveredIds(r, TextOf(q, s), q.targets, known);
    OfferedSnoc(recovered, r);
    NoRepeatsConcat(Offered(recovered), r.candidates);
    assert (known - q.known) + (more - known) == (known + more) - q.known;
    var all := recovered + [r];
    forall i | 0 <= i < |all|
      ensures FromSomeSpan(all[i], q, spans + [s])
    {
      FromLongerList(all[i], q, spans, s);
    }
  }

  lemma NewOnesStay(recovered: seq<ResolvedEvidence>, q: Search, spans: seq<Span>, s: Span)
    requires InBounds(spans, |q.words|) && s.start < s.end <= |q.words|
    requires NewOnes(recovered, q, spans) && AttainedIds(q.targets, TextOf(q, s)) <= KnownAfter(q, spans)
    ensures InBounds(spans + [s], |q.words|) && NewOnes(recovered, q, spans + [s])
  {
    hide Offered, NoRepeats, Ids, AttainedIds, TextOf, KnownAfter, FromSomeSpan;
    RecoveredSnoc([], q, spans, s);
    forall i | 0 <= i < |recovered|
      ensures FromSomeSpan(recovered[i], q, spans + [s])
    {
      FromLongerList(recovered[i], q, spans, s);
    }
  }

  lemma NothingNew(q: Search)
    ensures NewOnes([], q, [])
  {
    assert q.known - q.known == {};
  }

  lemma {:induction false} RecoveredAreNew(recovered: seq<ResolvedEvidence>, q: Search, spans: seq<Span>)
    requires InBounds(spans, |q.words|) && RecoveredBy(recovered, q, spans)
    ensures NewOnes(recovered, q, spans) && q.known <= KnownAfter(q, spans)
    decreases spans
  {
    hide NewOnes, AttainedIds, Recovers, TextOf, RecoveredBy, KnownAfter;
    NoSpans(recovered, q);
    if spans == [] {
      NothingNew(q);
    } else {
      var last := |spans| - 1;
      var before := spans[..last];
      assert spans == before + [spans[last]];
      RecoveredSnoc(recovered, q, before, spans[last]);
      if AttainedIds(q.targets, TextOf(q, spans[last])) <= KnownAfter(q, before) {
        RecoveredAreNew(recovered, q, before);
        NewOnesStay(recovered, q, before, spans[last]);
      } else {
        var m := |recovered| - 1;
        RecoveredAreNew(recovered[..m], q, before);
        NewOnesGrow(recovered[..m], recovered[m], q, before, spans[last]);
        assert recovered == recovered[..m] + [recovered[m]];
      }
    }
  }

  /** No text is recovered twice: the second time its regions are known. */
  ghost predicate DistinctTexts(recovered: seq<ResolvedEvidence>) {
    forall i, j :: 0 <= i < j < |recovered| ==> recovered[i].evidence.value != recovered[j].evidence.value
  }

  lemma {:induction false} EachTextOnce(recovered: seq<ResolvedEvidence>, q: Search, spans: seq<Span>)
    requires InBounds(spans, |q.words|) && RecoveredBy(recovered, q, spans)
    ensures DistinctTexts(recovered)
    decreases spans
  {
    hide AttainedIds, TextOf, KnownAfter, NewOnes, RecoveredBy;
    NoSpans(recovered, q);
    if spans != [] {
      var last := |spans| - 1;
      var before, text := spans[..last], TextOf(q, spans[last]);
      assert spans == before + [spans[last]];
      RecoveredSnoc(recovered, q, before, spans[last]);
      if AttainedIds(q.targets, text) <= KnownAfter(q, before) {
        EachTextOnce(recovered, q, before);
      } else {
        var m := |recovered| - 1;
        EachTextOnce(recovered[..m], q, before);
        RecoveredAreNew(recovered[..m], q, before);
        forall i | 0 <= i < m
          ensures recovered[i].evidence.value != text
        {
          assert recovered[..m][i] == recovered[i];
          TextIsKnown(recovered[..m], i, q, before);
        }
      }
    }
  }

  lemma TextIsKnown(recovered: seq<ResolvedEvidence>, i: nat, q: Search, spans: seq<Span>)
    requires InBounds(spans, |q.words|) && NewOnes(recovered, q, spans) && i < |recovered|
    ensures AttainedIds(q.targets, recovered[i].evidence.value) <= KnownAfter(q, spans)
  {
    hide AttainedIds, TextOf, SpanKey, KnownAfter, Attains, Offered, NoRepeats, Ids;
    KnownAfterIs(q, spans);
    assert FromSomeSpan(recovered[i], q, spans);
    var k :| 0 <= k < |spans| && FromSpan(recovered[i], q, spans[k]);
  }

  /** The corrections map each recovered text to the first region recovered for it. */
  lemma {:induction false} CorrectionsAre(recovered: seq<ResolvedEvidence>)
    requires DistinctTexts(recovered)
    requires forall i :: 0 <= i < |recovered| ==> recovered[i].candidates != []
    ensures forall v :: v in CorrectionsOf(recovered) <==> exists i :: 0 <= i < |recovered| && recovered[i].evidence.value == v
    ensures forall i :: 0 <= i < |recovered| ==>
              recovered[i].evidence.value in CorrectionsOf(recovered)
              && CorrectionsOf(recovered)[recovered[i].evidence.value] == recovered[i].candidates[0].name
  {
    if recovered != [] {
      var before := recovered[..|recovered| - 1];
      assert forall i :: 0 <= i < |before| ==> before[i] == recovered[i];
      CorrectionsAre(before);
    }
  }

  // ---------- The guarantees of a recovery ----------

  lemma RunsAreInOrder(runs: seq<seq<nat>>, words: seq<string>, explained: set<string>, roadTokens: set<string>)
    requires RunsUpTo(runs, |words|, words, explained, roadTokens)
    ensures InOrder(runs)
  {
    hide IsLeft;
    forall r | 0 <= r < |runs|
      ensures runs[r] != []
    {
      assert IsRun(runs[r], words, explained, roadTokens);
    }
  }

  /** The spans are where the guarantees say they are: disjoint, in order, of one to four adjacent
      words, each inside one run of unexplained words, and each the longest possible. */
  lemma SpansAreGreedyInRuns(t: Trace, cs: seq<AdminCandidate>, resolved: seq<ResolvedEvidence>, normalized: string,
                             roadTokens: set<string>, a: Atlas)
    requires Prepared(t, cs, resolved, normalized, roadTokens, a) && t.frontier != []
    ensures NonemptyRuns(t.runs)
    ensures GreedyInRuns(RunSpans(t.search, t.runs), FuzzyMatch(t.search.words, t.search.targets), t.runs)
    ensures forall r :: 0 <= r < |t.runs| ==> IsRun(t.runs[r], t.search.words, t.explained, roadTokens)
  {
    hide GreedyInRuns, RunsUpTo, IsFrontier, IsVocabulary, TargetsOf, IsRun;
    RunsAreInOrder(t.runs, t.search.words, t.explained, roadTokens);
    RunSpansAreGreedy(t.search, t.runs);
    RunsAreRuns(t.runs, t.search.words, t.explained, roadTokens);
  }

  lemma RunsAreRuns(runs: seq<seq<nat>>, words: seq<string>, explained: set<string>, roadTokens: set<string>)
    requires RunsUpTo(runs, |words|, words, explained, roadTokens)
    ensures forall r :: 0 <= r < |runs| ==> IsRun(runs[r], words, explained, roadTokens)
  {
    hide IsRun;
  }

  /** A recovered entity: near a frontier candidate, and some key of its name is at least 0.8
      similar to the text. */
  ghost predicate Grounded(e: Entity, text: string, frontier: seq<Coverage>, a: Atlas) {
    && NearFrontier(frontier, a, e)
    && exists k :: FoundUnder(e, k) && Similarity(SpanKey(text), k) >= MATCH_THRESHOLD
  }

  lemma SpanItemIsGrounded(r: ResolvedEvidence, q: Search, s: Span, es: seq<Entity>, frontier: seq<Coverage>, a: Atlas)
    requires s.start < s.end <= |q.words| && FromSpan(r, q, s)
    requires FuzzyMatch(q.words, q.targets)(s.start, s.end)
    requires TargetsOf(q.targets, es) && IsVocabulary(es, frontier, a)
    ensures forall e :: e in r.candidates ==> Grounded(e, r.evidence.value, frontier, a)
  {
    hide TargetsOf, Similarity, SpanKey, NearFrontier, NoRepeats, FoundUnder, Attains;
    forall e | e in r.candidates
      ensures Grounded(e, r.evidence.value, frontier, a)
    {
      AttainsByName(q.targets, es, SpanKey(TextOf(q, s)), e);
    }
  }

  lemma SpanMatchesInRuns(spans: seq<Span>, m: Match, runs: seq<seq<nat>>, k: nat)
    requires GreedyInRuns(spans, m, runs) && k < |spans|
    ensures m(spans[k].start, spans[k].end) && InsideSome(spans[k], runs)
  {
    hide NoMatchBeyond, DisjointInOrder, NoneOfRunMissed;
    assert AllInside(spans, m, runs);
    assert 0 <= k < |spans|;
    var s := spans[k];
    assert exists r :: 0 <= r < |runs| && LongestInRun(s, m, runs[r]);
    var r :| 0 <= r < |runs| && LongestInRun(s, m, runs[r]);
    assert InsideRun(spans[k], runs[r]);
  }

  /** Every recovered entity lies near a frontier candidate and is similar to its text. */
  lemma RecoveredAreGrounded(f: Found, t: Trace, cs: seq<AdminCandidate>, resolved: seq<ResolvedEvidence>,
                             normalized: string, roadTokens: set<string>, a: Atlas)
    requires Prepared(t, cs, resolved, normalized, roadTokens, a) && RecoveryOf(f, t)
    ensures forall i, e :: 0 <= i < |f.recovered| && e in f.recovered[i].candidates ==>
              Grounded(e, f.recovered[i].evidence.value, t.frontier, a)
  {
    hide IsFrontier, IsVocabulary, TargetsOf, RunsUpTo, GreedyInRuns, Grounded, FuzzyMatch, RecoveredBy, FromSpan;
    if f.recovered != [] {
      SpansAreGreedyInRuns(t, cs, resolved, normalized, roadTokens, a);
      var q, spans := t.search, RunSpans(t.search, t.runs);
      RecoveredAreNew(f.recovered, q, spans);
      forall i | 0 <= i < |f.recovered|
        ensures forall e :: e in f.recovered[i].candidates ==> Grounded(e, f.recovered[i].evidence.value, t.frontier, a)
      {
        assert FromSomeSpan(f.recovered[i], q, spans);
        var k :| 0 <= k < |spans| && FromSpan(f.recovered[i], q, spans[k]);
        SpanMatchesInRuns(spans, FuzzyMatch(q.words, q.targets), t.runs, k);
        SpanItemIsGrounded(f.recovered[i], q, spans[k], t.entities, t.frontier, a);
      }
    }
  }

  /** The recovered entities are new, each comes once, and each has a proper level and id. */
  lemma RecoveredAllNew(f: Found, t: Trace, cs: seq<AdminCandidate>, resolved: seq<ResolvedEvidence>,
                        normalized: string, roadTokens: set<string>, a: Atlas)
    requires Prepared(t, cs, resolved, normalized, roadTokens, a) && RecoveryOf(f, t)
    ensures AllNew(resolved, f.recovered)
    ensures forall e :: e in Offered(f.recovered) ==> e.id != 0
  {
    hide IsFrontier, IsVocabulary, TargetsOf, RunsUpTo, InNeighborhood, Offered, NoRepeats, FromSomeSpan, RecoveredBy,
         KnownAfter;
    if f.recovered == [] {
      NothingOffered();
      NothingCollected();
    } else {
      var q, spans := t.search, RunSpans(t.search, t.runs);
      RecoveredAreNew(f.recovered, q, spans);
      RecoveredAreGrounded(f, t, cs, resolved, normalized, roadTokens, a);
      forall e | e in Offered(f.recovered)
        ensures e.id != 0 && e.id !in Ids(Offered(resolved)) && !e.level.OtherLevel?
      {
        assert e.id in Ids(Offered(f.recovered));
        OfferedIn(f.recovered, e);
        var i :| 0 <= i < |f.recovered| && e in f.recovered[i].candidates;
        assert Grounded(e, f.recovered[i].evidence.value, t.frontier, a);
        var j :| 0 <= j < |t.frontier| && InNeighborhood(t.frontier[j].candidate.location, a, e);
        NeighborsHaveLevels(t.frontier[j].candidate.location, a, e);
      }
    }
  }

  /** The recovered ids are exactly those that some consumed span matches best and that no evidence
      offered before. */
  lemma RecoveryIsExact(f: Found, t: Trace, cs: seq<AdminCandidate>, resolved: seq<ResolvedEvidence>,
                        normalized: string, roadTokens: set<string>, a: Atlas)
    requires Prepared(t, cs, resolved, normalized, roadTokens, a) && RecoveryOf(f, t) && t.frontier != []
    ensures NonemptyRuns(t.runs) && InBounds(RunSpans(t.search, t.runs), |t.search.words|)
    ensures forall id :: id in Ids(Offered(f.recovered)) <==>
              id !in Ids(Offered(resolved)) && AttainedBySome(t.search, RunSpans(t.search, t.runs), id)
  {
    hide IsFrontier, IsVocabulary, TargetsOf, RunsUpTo, Offered, NoRepeats, FromSomeSpan, RecoveredBy, KnownAfter, Ids,
         AttainedBySome, RunSpans, WordsOf, CorrectionsOf;
    var g :| Scanned(g, t.search, t.runs) && f == if g.recovered == [] then NOTHING else g;
    var q, spans := t.search, RunSpans(t.search, t.runs);
    RecoveredAreNew(g.recovered, q, spans);
    KnownAfterIs(q, spans);
  }

  /** The words explained are exactly those of the consumed spans, when anything was recovered. */
  lemma ExplainedExactly(f: Found, t: Trace)
    requires RecoveryOf(f, t) && f.recovered != []
    ensures NonemptyRuns(t.runs) && InBounds(RunSpans(t.search, t.runs), |t.search.words|)
    ensures var spans, words := RunSpans(t.search, t.runs), t.search.words;
            forall w :: w in f.explained <==>
              exists k :: 0 <= k < |spans| && w in words[spans[k].start..spans[k].end]
  {
    hide RecoveredBy, KnownAfter, WordsOf, CorrectionsOf, RunSpans;
    var spans, words := RunSpans(t.search, t.runs), t.search.words;
    WordsOfIs(words, spans);
    assert forall w, k :: 0 <= k < |spans| ==> (SpanHas(words, spans[k], w) <==> w in words[spans[k].start..spans[k].end]);
  }

  /** No text is recovered twice, and each is corrected to the name of its first region. */
  lemma CorrectionsOfRecovery(f: Found, t: Trace)
    requires RecoveryOf(f, t)
    ensures DistinctTexts(f.recovered)
    ensures forall v :: v in f.corrections <==> exists i :: 0 <= i < |f.recovered| && f.recovered[i].evidence.value == v
    ensures forall i :: 0 <= i < |f.recovered| ==>
              f.recovered[i].candidates != [] && f.recovered[i].evidence.value in f.corrections
              && f.corrections[f.recovered[i].evidence.value] == f.recovered[i].candidates[0].name
  {
    hide RecoveredBy, KnownAfter, WordsOf, CorrectionsOf, Offered, NoRepeats, Ids;
    if f.recovered == [] {
      NoCorrections();
    } else {
      var q, spans := t.search, RunSpans(t.search, t.runs);
      EachTextOnce(f.recovered, q, spans);
      RecoveredAreNew(f.recovered, q, spans);
      forall i | 0 <= i < |f.recovered|
        ensures f.recovered[i].candidates != []
      {
        assert FromSomeSpan(f.recovered[i], q, spans);
      }
      CorrectionsAre(f.recovered);
    }
  }

  lemma NoCorrections()
    ensures CorrectionsOf([]) == map[]
  {
  }

  lemma SpanWordsAreLeft(s: Span, runs: seq<seq<nat>>, words: seq<string>, explained: set<string>,
                         roadTokens: set<string>, w: string)
    requires s.start < s.end <= |words| && InsideSome(s, runs) && SpanHas(words, s, w)
    requires forall r :: 0 <= r < |runs| ==> IsRun(runs[r], words, explained, roadTokens)
    ensures w !in explained && !IsNoise(w, roadTokens)
  {
    hide IsNoise;
    var r :| 0 <= r < |runs| && InsideRun(s, runs[r]);
    var k :| s.start <= k < s.end && words[k] == w;
    var run := runs[r];
    assert IsRun(run, words, explained, roadTokens);
    assert run[k - run[0]] == k;
    assert IsLeft(words, k, explained, roadTokens);
  }

  /** No word that a frontier candidate used is consumed, and no noise either. */
  lemma ConsumedWordsWereUnexplained(f: Found, t: Trace, cs: seq<AdminCandidate>, resolved: seq<ResolvedEvidence>,
                                     normalized: string, roadTokens: set<string>, a: Atlas)
    requires Prepared(t, cs, resolved, normalized, roadTokens, a) && RecoveryOf(f, t)
    ensures forall w :: w in f.explained ==> !UsedByFrontier(t.frontier, w) && !IsNoise(w, roadTokens)
  {
    hide IsFrontier, IsVocabulary, TargetsOf, RunsUpTo, GreedyInRuns, IsRun, IsNoise, FuzzyMatch, InsideSome,
         UsedByFrontier, SpanHas;
    if f.recovered != [] {
      SpansAreGreedyInRuns(t, cs, resolved, normalized, roadTokens, a);
      var q, spans := t.search, RunSpans(t.search, t.runs);
      WordsOfIs(q.words, spans);
      forall w | w in f.explained
        ensures !UsedByFrontier(t.frontier, w) && !IsNoise(w, roadTokens)
      {
        var k :| 0 <= k < |spans| && SpanHas(q.words, spans[k], w);
        SpanMatchesInRuns(spans, FuzzyMatch(q.words, q.targets), t.runs, k);
        SpanWordsAreLeft(spans[k], t.runs, q.words, t.explained, roadTokens, w);
      }
    }
  }

  /** A frontier candidate keeps every value it uses: none of them was consumed. */
  lemma FrontierLosesNothing(f: Found, t: Trace, cs: seq<AdminCandidate>, resolved: seq<ResolvedEvidence>,
                             normalized: string, roadTokens: set<string>, a: Atlas, i: nat, ev: Evidence)
    requires Prepared(t, cs, resolved, normalized, roadTokens, a) && RecoveryOf(f, t)
    requires i < |t.frontier| && ev in EvidenceOf(resolved) && UsesValue(t.frontier[i].candidate, ev.value)
    ensures ev.value !in f.explained
  {
    hide IsVocabulary, TargetsOf, RunsUpTo, IsNoise, RecoveryOf, UsesValue;
    ConsumedWordsWereUnexplained(f, t, cs, resolved, normalized, roadTokens, a);
    var covs := Coverages(cs, EvidenceOf(resolved), roadTokens);
    FrontierMembers(t.frontier, covs);
    var cov := t.frontier[i];
    assert cov in t.frontier;
    var j :| 0 <= j < |covs| && covs[j] == cov;
    CountedMembers(cs[j], EvidenceOf(resolved), roadTokens, true);
    if !IsNoise(ev.value, roadTokens) {
      assert ev in cov.used;
      assert UsedBy(cov, ev.value);
    }
  }

  // ---------- Evidence left for the evaluation ----------

  ghost function Kept(all: seq<Evidence>, explained: set<string>): seq<Evidence> {
    if all == [] then []
    else (if all[0].value in explained then [] else [all[0]]) + Kept(all[1..], explained)
  }

  lemma {:induction false} KeptWhenNothingExplained(all: seq<Evidence>)
    ensures Kept(all, {}) == all
  {
    if all != [] {
      KeptWhenNothingExplained(all[1..]);
    }
  }

  method EvidenceWithoutValues(evidence: seq<Evidence>, explained: set<string>) returns (filtered: seq<Evidence>)
    ensures filtered == Kept(evidence, explained)
  {
    if |explained| == 0 {
      KeptWhenNothingExplained(evidence);
      return evidence;
    }
    filtered := [];
    assert evidence[..0] == [] && evidence[..|evidence|] == evidence;
    for i := 0 to |evidence|
      invariant filtered == Kept(evidence[..i], explained)
    {
      hide Kept;
      KeptSnoc(evidence[..i], evidence[i], explained);
      assert evidence[..i + 1] == evidence[..i] + [evidence[i]];
      if evidence[i].value in explained {
        continue;
      }
      filtered := filtered + [evidence[i]];
    }
  }

  lemma {:induction false} KeptSnoc(all: seq<Evidence>, ev: Evidence, explained: set<string>)
    ensures Kept(all + [ev], explained)
         == if ev.value in explained then Kept(all, explained) else Kept(all, explained) + [ev]
  {
    if all == [] {
      assert [] + [ev] == [ev] && [ev][1..] == [];
    } else {
      assert (all + [ev])[1..] == all[1..] + [ev];
      KeptSnoc(all[1..], ev, explained);
      var first, rest := if all[0].value in explained then [] else [all[0]], Kept(all[1..], explained);
      assert first + (rest + [ev]) == (first + rest) + [ev];
    }
  }

  /** The items of the list with the given value. */
  ghost function WithValue(all: seq<Evidence>, v: string): seq<Evidence> {
    if all == [] then [] else (if all[0].value == v then [all[0]] else []) + WithValue(all[1..], v)
  }

  /** Items of an explained value all go, those of any other value all stay. */
  lemma {:induction false} KeptByValue(all: seq<Evidence>, explained: set<string>, v: string)
    ensures WithValue(Kept(all, explained), v) == if v in explained then [] else WithValue(all, v)
  {
    if all != [] {
      var first := if all[0].value in explained then [] else [all[0]];
      KeptByValue(all[1..], explained, v);
      assert first + Kept(all[1..], explained) == Kept(all, explained);
      if first == [] {
        assert Kept(all, explained) == Kept(all[1..], explained);
      } else {
        assert Kept(all, explained)[1..] == Kept(all[1..], explained);
      }
    }
  }
}
