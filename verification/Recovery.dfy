/**
 Contextual recovery: scans the words that no trusted candidate explains for names from the
 neighborhoods of those candidates, and returns the regions found as further evidence.
 */
module Recovery {
  import opened Wrappers
  import opened Text
  import opened Decimal
  import opened Model
  import opened Segmentation
  import opened Phrases
  import opened Dictionary
  import opened Candidates
  import opened FuzzyTargets
  import opened Neighborhood
  import opened Frontier

  const MAX_SPAN_TOKENS: nat := 4

  /** What a scan reads: the words, the names to look for, and the ids known before it starts. */
  datatype Search = Search(words: seq<string>, targets: Targets, known: set<Int64>)

  /** What a scan has gathered. */
  datatype Found = Found(recovered: seq<ResolvedEvidence>, corrections: map<string, string>, explained: set<string>)

  const NOTHING: Found := Found([], map[], {})

  // ---------- What one span recovers ----------

  function SpanKey(text: string): string {
    Compact(ToLower(text))
  }

  ghost function FuzzyMatch(words: seq<string>, t: Targets): Match {
    (i: int, j: int) => 0 <= i <= j <= |words| && SpanMatches(t, SpanKey(Phrase(words, i, j)))
  }

  /** The ids of the regions whose names are most similar to the text. */
  ghost function AttainedIds(t: Targets, text: string): set<Int64> {
    set k, e | k in t && MostSimilar(t, SpanKey(text), k) && e in t[k] :: e.id
  }

  /** One item of recovered evidence: exactly the regions most similar to the text that were not
      known yet, each once, and at least one. */
  ghost predicate Recovers(r: ResolvedEvidence, text: string, t: Targets, known: set<Int64>) {
    && r.evidence == Evidence(PlaceName, text)
    && r.candidates != [] && NoRepeats(r.candidates)
    && forall e :: e in r.candidates <==> Attains(t, SpanKey(text), e) && e.id !in known
  }

  ghost function TextOf(q: Search, s: Span): string
    requires s.start < s.end <= |q.words|
  {
    Phrase(q.words, s.start, s.end)
  }

  // ---------- What a list of spans recovers ----------

  ghost function KnownAfter(q: Search, spans: seq<Span>): set<Int64>
    requires InBounds(spans, |q.words|)
  {
    if spans == [] then q.known
    else KnownAfter(q, spans[..|spans| - 1]) + AttainedIds(q.targets, TextOf(q, spans[|spans| - 1]))
  }

  /** The evidence that the spans recover, in span order: a span whose regions are all known by
      then recovers nothing. */
  ghost predicate RecoveredBy(recovered: seq<ResolvedEvidence>, q: Search, spans: seq<Span>)
    requires InBounds(spans, |q.words|)
    decreases spans
  {
    if spans == [] then recovered == []
    else
      var before, text := spans[..|spans| - 1], TextOf(q, spans[|spans| - 1]);
      if AttainedIds(q.targets, text) <= KnownAfter(q, before) then RecoveredBy(recovered, q, before)
      else
        && recovered != []
        && Recovers(recovered[|recovered| - 1], text, q.targets, KnownAfter(q, before))
        && RecoveredBy(recovered[..|recovered| - 1], q, before)
  }

  function WordSet(ws: seq<string>): set<string> {
    set w | w in ws
  }

  ghost function WordsOf(words: seq<string>, spans: seq<Span>): set<string>
    requires InBounds(spans, |words|)
  {
    if spans == [] then {}
    else
      var s := spans[|spans| - 1];
      WordsOf(words, spans[..|spans| - 1]) + WordSet(words[s.start..s.end])
  }

  /** Every recovered text is corrected to the name of the first region recovered for it. */
  ghost function CorrectionsOf(recovered: seq<ResolvedEvidence>): map<string, string> {
    if recovered == [] then map[]
    else
      var r := recovered[|recovered| - 1];
      CorrectionsOf(recovered[..|recovered| - 1])
      [r.evidence.value := if r.candidates == [] then "" else r.candidates[0].name]
  }

  /** The scan's state after the given spans. */
  ghost predicate ScanState(f: Found, known: set<Int64>, q: Search, spans: seq<Span>) {
    && InBounds(spans, |q.words|)
    && RecoveredBy(f.recovered, q, spans)
    && known == KnownAfter(q, spans)
    && f.corrections == CorrectionsOf(f.recovered)
    && f.explained == WordsOf(q.words, spans)
  }

  lemma ScanStarts(q: Search)
    ensures ScanState(NOTHING, q.known, q, [])
  {
  }

  /** The spans of the runs one after another. */
  ghost function RunSpans(q: Search, runs: seq<seq<nat>>): seq<Span>
    requires forall r :: 0 <= r < |runs| ==> runs[r] != []
  {
    if runs == [] then []
    else
      var run := runs[|runs| - 1];
      RunSpans(q, runs[..|runs| - 1])
      + Segment(FuzzyMatch(q.words, q.targets), run[0], run[0] + |run|, MAX_SPAN_TOKENS)
  }

  // ---------- The scan ----------

  /** Tries the longest span at a position first. */
  method TryLengths(words: seq<string>, targets: Targets, p: nat, maxLen: nat) returns (l: nat, ents: seq<Entity>)
    requires p + maxLen <= |words|
    ensures l <= maxLen && LongestEnd(FuzzyMatch(words, targets), p, p + maxLen) == p + l
    ensures l > 0 ==> BestMatch(Some(ents), SpanKey(Phrase(words, p, p + l)), targets)
  {
    hide SpanMatches, BestMatch, LongestEnd, SpanKey, Phrase;
    ghost var m := FuzzyMatch(words, targets);
    l := maxLen;
    while l >= 1
      invariant 0 <= l <= maxLen
      invariant LongestEnd(m, p, p + maxLen) == LongestEnd(m, p, p + l)
    {
      LongestEndStep(m, p, p + l);
      var key := SpanKey(Phrase(words, p, p + l));
      var best := BestSpanMatch(key, targets);
      MatchMeansSpanMatches(best, key, targets);
      if best.Some? {
        return l, best.value;
      }
      l := l - 1;
    }
    LongestEndStep(m, p, p);
    return 0, [];
  }

  lemma MatchMeansSpanMatches(best: Option<seq<Entity>>, key: string, targets: Targets)
    requires BestMatch(best, key, targets)
    ensures best.Some? <==> SpanMatches(targets, key)
  {
  }

  /** Keeps the entities not known yet. */
  method TakeFresh(ents: seq<Entity>, known: set<Int64>) returns (unseen: seq<Entity>, known': set<Int64>)
    requires NoRepeats(ents)
    ensures NoRepeats(unseen) && forall e :: e in unseen <==> e in ents && e.id !in known
    ensures known' == known + Ids(ents)
  {
    unseen, known' := [], known;
    for i := 0 to |ents|
      invariant NoRepeats(unseen)
      invariant forall e :: e in unseen <==> e in ents[..i] && e.id !in known
      invariant known' == known + Ids(ents[..i])
    {
      assert ents[..i + 1] == ents[..i] + [ents[i]];
      IdsSnoc(ents[..i], ents[i]);
      assert ents[i].id !in Ids(ents[..i]);
      assert forall e :: e in unseen ==> e.id in Ids(ents[..i]);
      if ents[i].id !in known' {
        known' := known' + {ents[i].id};
        unseen := unseen + [ents[i]];
      }
    }
    assert ents[..|ents|] == ents;
  }

  /** One matched span: its unseen regions become evidence, its words become explained. */
  method TakeSpan(f: Found, known: set<Int64>, ghost q: Search, ghost spans: seq<Span>, ghost es: seq<Entity>,
                  words: seq<string>, p: nat, l: nat, ents: seq<Entity>)
    returns (f': Found, known': set<Int64>)
    requires ScanState(f, known, q, spans) && q.words == words
    requires TargetsOf(q.targets, es) && NoRepeats(es)
    requires 0 < l && p + l <= |words|
    requires BestMatch(Some(ents), SpanKey(Phrase(words, p, p + l)), q.targets)
    ensures ScanState(f', known', q, spans + [Span(p, p + l)])
  {
    hide ScanState, BestMatch, TargetsOf, NoRepeats, Attains;
    var spanText := Phrase(words, p, p + l);
    BestMatchIsTheSet(Some(ents), SpanKey(spanText), q.targets, es);
    MatchHasNoRepeats(ents, SpanKey(spanText), q.targets);
    f' := f;
    var unseen;
    unseen, known' := TakeFresh(ents, known);
    if |unseen| > 0 {
      var item := ResolvedEvidence(Evidence(PlaceName, spanText), unseen);
      f' := f'.(recovered := f'.recovered + [item], corrections := f'.corrections[spanText := unseen[0].name]);
    }
    f' := f'.(explained := f'.explained + WordSet(words[p..p + l]));
    SpanTaken(f, known, q, spans, Span(p, p + l), ents, unseen, f');
  }

  lemma MatchHasNoRepeats(ents: seq<Entity>, key: string, t: Targets)
    requires BestMatch(Some(ents), key, t)
    ensures NoRepeats(ents)
  {
  }

  lemma AttainedAre(t: Targets, text: string, ents: seq<Entity>)
    requires forall e :: e in ents <==> Attains(t, SpanKey(text), e)
    ensures AttainedIds(t, text) == Ids(ents)
  {
    hide MostSimilar, SpanKey;
    forall k, e | k in t && MostSimilar(t, SpanKey(text), k) && e in t[k]
      ensures e in ents
    {
      assert Listed(t, k, e);
    }
    forall e | e in ents
      ensures e.id in AttainedIds(t, text)
    {
      var k :| MostSimilar(t, SpanKey(text), k) && Listed(t, k, e);
    }
  }

  /** One more span, unfolded. */
  lemma RecoveredSnoc(recovered: seq<ResolvedEvidence>, q: Search, spans: seq<Span>, s: Span)
    requires InBounds(spans, |q.words|) && s.start < s.end <= |q.words|
    ensures InBounds(spans + [s], |q.words|)
    ensures KnownAfter(q, spans + [s]) == KnownAfter(q, spans) + AttainedIds(q.targets, TextOf(q, s))
    ensures WordsOf(q.words, spans + [s]) == WordsOf(q.words, spans) + WordSet(q.words[s.start..s.end])
    ensures RecoveredBy(recovered, q, spans + [s])
        <==> if AttainedIds(q.targets, TextOf(q, s)) <= KnownAfter(q, spans) then RecoveredBy(recovered, q, spans)
             else
               && recovered != []
               && Recovers(recovered[|recovered| - 1], TextOf(q, s), q.targets, KnownAfter(q, spans))
               && RecoveredBy(recovered[..|recovered| - 1], q, spans)
  {
    hide AttainedIds, Recovers, TextOf, WordSet;
    assert (spans + [s])[..|spans|] == spans;
  }

  lemma CorrectionsSnoc(recovered: seq<ResolvedEvidence>, r: ResolvedEvidence)
    requires r.candidates != []
    ensures CorrectionsOf(recovered + [r]) == CorrectionsOf(recovered)[r.evidence.value := r.candidates[0].name]
  {
    assert (recovered + [r])[..|recovered|] == recovered;
  }

  lemma SpanTaken(f: Found, known: set<Int64>, q: Search, spans: seq<Span>, s: Span, ents: seq<Entity>,
                  unseen: seq<Entity>, f': Found)
    requires ScanState(f, known, q, spans) && s.start < s.end <= |q.words|
    requires forall e :: e in ents <==> Attains(q.targets, SpanKey(TextOf(q, s)), e)
    requires NoRepeats(unseen) && forall e :: e in unseen <==> e in ents && e.id !in known
    requires var item := ResolvedEvidence(Evidence(PlaceName, TextOf(q, s)), unseen);
             f' == Found(if unseen == [] then f.recovered else f.recovered + [item],
                         if unseen == [] then f.corrections else f.corrections[TextOf(q, s) := unseen[0].name],
                         f.explained + WordSet(q.words[s.start..s.end]))
    ensures ScanState(f', known + Ids(ents), q, spans + [s])
  {
    hide NoRepeats, Attains, AttainedIds, TextOf, SpanKey, WordSet, RecoveredBy, KnownAfter, WordsOf, CorrectionsOf;
    var text := TextOf(q, s);
    AttainedAre(q.targets, text, ents);
    RecoveredSnoc(f'.recovered, q, spans, s);
    if unseen == [] {
      assert forall e :: e in ents ==> e !in unseen;
      assert AttainedIds(q.targets, text) <= known;
    } else {
      var item := ResolvedEvidence(Evidence(PlaceName, text), unseen);
      assert unseen[0] in unseen;
      assert unseen[0].id in AttainedIds(q.targets, text);
      assert Recovers(item, text, q.targets, known);
      CorrectionsSnoc(f.recovered, item);
      assert (f.recovered + [item])[..|f.recovered|] == f.recovered;
    }
  }

  /** Scans one run. A word position of the run is its first position plus an offset, so the
      words of a span are cut out of the word list at that position. */
  method ScanRun(f: Found, known: set<Int64>, ghost q: Search, ghost spans: seq<Span>, ghost es: seq<Entity>,
                 words: seq<string>, targets: Targets, run: seq<nat>)
    returns (f': Found, known': set<Int64>)
    requires ScanState(f, known, q, spans) && q.words == words && q.targets == targets
    requires TargetsOf(targets, es) && NoRepeats(es)
    requires run != [] && (forall k :: 0 <= k < |run| ==> run[k] == run[0] + k) && run[0] + |run| <= |words|
    ensures ScanState(f', known', q, spans + Segment(FuzzyMatch(words, targets), run[0], run[0] + |run|, MAX_SPAN_TOKENS))
  {
    hide ScanState, Segment, LongestEnd, FuzzyMatch, BestMatch, TargetsOf, NoRepeats, SpanKey, Phrase;
    ghost var m, lo, hi := FuzzyMatch(words, targets), run[0], run[0] + |run|;
    ghost var rest := Segment(m, lo, hi, MAX_SPAN_TOKENS);
    ghost var sofar := spans;
    f', known' := f, known;
    var i := 0;
    while i < |run|
      invariant 0 <= i <= |run|
      invariant rest == Segment(m, lo + i, hi, MAX_SPAN_TOKENS)
      invariant spans + Segment(m, lo, hi, MAX_SPAN_TOKENS) == sofar + rest
      invariant ScanState(f', known', q, sofar)
    {
      SegmentStep(m, lo + i, hi, MAX_SPAN_TOKENS);
      var maxLen := if MAX_SPAN_TOKENS < |run| - i then MAX_SPAN_TOKENS else |run| - i;
      var l, ents := TryLengths(words, targets, run[i], maxLen);
      if l == 0 {
        i := i + 1;
      } else {
        f', known' := TakeSpan(f', known', q, sofar, es, words, run[i], l, ents);
        ghost var s := Span(lo + i, lo + i + l);
        rest := Segment(m, lo + i + l, hi, MAX_SPAN_TOKENS);
        assert sofar + ([s] + rest) == (sofar + [s]) + rest;
        sofar := sofar + [s];
        i := i + l;
      }
    }
    SegmentEnd(m, hi, MAX_SPAN_TOKENS);
    assert sofar + [] == sofar;
  }

  ghost predicate RunsInBounds(runs: seq<seq<nat>>, n: nat) {
    forall r :: 0 <= r < |runs| ==>
      runs[r] != [] && (forall k :: 0 <= k < |runs[r]| ==> runs[r][k] == runs[r][0] + k) && runs[r][0] + |runs[r]| <= n
  }

  method ScanRuns(ghost q: Search, ghost es: seq<Entity>, words: seq<string>, targets: Targets, known: set<Int64>,
                  runs: seq<seq<nat>>)
    returns (f: Found)
    requires q == Search(words, targets, known) && RunsInBounds(runs, |words|)
    requires TargetsOf(targets, es) && NoRepeats(es)
    ensures exists known' :: ScanState(f, known', q, RunSpans(q, runs))
  {
    hide ScanState, Segment, FuzzyMatch, TargetsOf, NoRepeats;
    ScanStarts(q);
    f := NOTHING;
    var now := known;
    for r := 0 to |runs|
      invariant ScanState(f, now, q, RunSpans(q, runs[..r]))
    {
      assert runs[..r + 1][..r] == runs[..r];
      f, now := ScanRun(f, now, q, RunSpans(q, runs[..r]), es, words, targets, runs[r]);
    }
    assert runs[..|runs|] == runs;
  }

  // ---------- The second pass ----------

  function EvidenceOf(resolved: seq<ResolvedEvidence>): (r: seq<Evidence>)
    ensures |r| == |resolved| && forall i :: 0 <= i < |r| ==> r[i] == resolved[i].evidence
  {
    if resolved == [] then [] else [resolved[0].evidence] + EvidenceOf(resolved[1..])
  }

  ghost predicate NearFrontier(frontier: seq<Coverage>, a: Atlas, e: Entity) {
    exists i :: 0 <= i < |frontier| && InNeighborhood(frontier[i].candidate.location, a, e)
  }

  /** One deduplicated neighborhood across the frontier. */
  ghost predicate IsVocabulary(es: seq<Entity>, frontier: seq<Coverage>, a: Atlas) {
    && NoRepeats(es)
    && (forall e :: e in es ==> NearFrontier(frontier, a, e))
    && (forall e :: NearFrontier(frontier, a, e) ==> e.id in Ids(es))
  }

  ghost predicate UsedByFrontier(frontier: seq<Coverage>, v: string) {
    exists i :: 0 <= i < |frontier| && UsedBy(frontier[i], v)
  }

  ghost predicate UsedBy(cov: Coverage, v: string) {
    exists k :: 0 <= k < |cov.used| && cov.used[k].value == v
  }

  /** The intermediate results of a recovery. */
  datatype Trace = Trace(frontier: seq<Coverage>, entities: seq<Entity>, explained: set<string>, search: Search,
                         runs: seq<seq<nat>>)

  ghost predicate Prepared(t: Trace, cs: seq<AdminCandidate>, resolved: seq<ResolvedEvidence>, normalized: string,
                           roadTokens: set<string>, a: Atlas) {
    && IsFrontier(t.frontier, Coverages(cs, EvidenceOf(resolved), roadTokens))
    && (t.frontier != [] ==>
          && IsVocabulary(t.entities, t.frontier, a)
          && TargetsOf(t.search.targets, t.entities)
          && t.search.words == Fields(normalized)
          && t.search.known == Ids(Offered(resolved))
          && (forall v :: v in t.explained <==> UsedByFrontier(t.frontier, v))
          && RunsUpTo(t.runs, |t.search.words|, t.search.words, t.explained, roadTokens))
  }

  ghost predicate NonemptyRuns(runs: seq<seq<nat>>) {
    forall r :: 0 <= r < |runs| ==> runs[r] != []
  }

  ghost predicate Scanned(f: Found, q: Search, runs: seq<seq<nat>>) {
    NonemptyRuns(runs) && exists known :: ScanState(f, known, q, RunSpans(q, runs))
  }

  /** The result of a recovery with the given intermediate results; a scan that recovers nothing
      also explains nothing. */
  ghost predicate RecoveryOf(f: Found, t: Trace) {
    if t.frontier == [] then f == NOTHING
    else exists g :: Scanned(g, t.search, t.runs) && f == if g.recovered == [] then NOTHING else g
  }

  method KnownEntities(resolved: seq<ResolvedEvidence>) returns (known: set<Int64>)
    ensures known == Ids(Offered(resolved))
  {
    hide Offered, Ids;
    known := {};
    NothingOffered();
    assert resolved[..0] == [];
    for i := 0 to |resolved|
      invariant known == Ids(Offered(resolved[..i]))
    {
      OfferedSnoc(resolved[..i], resolved[i]);
      assert resolved[..i + 1] == resolved[..i] + [resolved[i]];
      if resolved[i].evidence.kind == PostalCode {
        continue;
      }
      var cs := resolved[i].candidates;
      ghost var before := Offered(resolved[..i]);
      assert before + cs[..0] == before;
      for k := 0 to |cs|
        invariant known == Ids(before + cs[..k])
      {
        assert before + cs[..k + 1] == (before + cs[..k]) + [cs[k]];
        IdsSnoc(before + cs[..k], cs[k]);
        known := known + {cs[k].id};
      }
      assert before + cs[..|cs|] == before + cs;
    }
    assert resolved[..|resolved|] == resolved;
  }

  method ExplainedByFrontier(frontier: seq<Coverage>) returns (explained: set<string>)
    ensures forall v :: v in explained <==> UsedByFrontier(frontier, v)
  {
    explained := {};
    for i := 0 to |frontier|
      invariant forall v :: v in explained <==> exists j :: 0 <= j < i && UsedBy(frontier[j], v)
    {
      var used := frontier[i].used;
      ghost var before := explained;
      for k := 0 to |used|
        invariant forall v :: v in explained <==> v in before || exists m :: 0 <= m < k && used[m].value == v
      {
        explained := explained + {used[k].value};
      }
      assert forall v :: v in explained <==> v in before || UsedBy(frontier[i], v);
    }
  }

  ghost predicate VocabularyUpTo(es: seq<Entity>, frontier: seq<Coverage>, a: Atlas, n: nat)
    requires n <= |frontier|
  {
    IsVocabulary(es, frontier[..n], a)
  }

  lemma OneMoreNeighborhood(es: seq<Entity>, more: seq<Entity>, frontier: seq<Coverage>, a: Atlas, n: nat)
    requires n < |frontier| && VocabularyUpTo(es, frontier, a, n)
    requires NeighborhoodOf(more, frontier[n].candidate.location, a)
    ensures VocabularyUpTo(AppendUnique(es, more), frontier, a, n + 1)
  {
    hide InNeighborhood, AppendUnique;
    AppendUniqueKeeps(es, more);
    var out := AppendUnique(es, more);
    var now := frontier[..n + 1];
    forall e
      ensures NearFrontier(now, a, e) <==>
                NearFrontier(frontier[..n], a, e) || InNeighborhood(frontier[n].candidate.location, a, e)
    {
      if NearFrontier(frontier[..n], a, e) {
        var i :| 0 <= i < n && InNeighborhood(frontier[..n][i].candidate.location, a, e);
        assert InNeighborhood(now[i].candidate.location, a, e);
      }
      if InNeighborhood(frontier[n].candidate.location, a, e) {
        assert InNeighborhood(now[n].candidate.location, a, e);
      }
    }
  }

  /** One neighborhood list for the whole frontier. */
  method CollectNeighborhoods(index: LocationIndex, frontier: seq<Coverage>) returns (entities: seq<Entity>)
    requires index.Valid()
    modifies index
    ensures index.Valid() && IsVocabulary(entities, frontier, index.atlas)
  {
    hide InNeighborhood, NeighborhoodOf, VocabularyUpTo, Ids;
    var seen: set<Int64> := {};
    entities := [];
    NothingCollected();
    EmptyVocabulary(frontier, index.atlas);
    for i := 0 to |frontier|
      invariant index.Valid() && seen == Ids(entities)
      invariant VocabularyUpTo(entities, frontier, index.atlas, i)
    {
      var es := index.CandidateNeighborhood(frontier[i].candidate);
      OneMoreNeighborhood(entities, es, frontier, index.atlas, i);
      entities, seen := AppendUnseen(entities, seen, es);
    }
    WholeVocabulary(entities, frontier, index.atlas);
  }

  lemma EmptyVocabulary(frontier: seq<Coverage>, a: Atlas)
    ensures VocabularyUpTo([], frontier, a, 0)
  {
  }

  lemma WholeVocabulary(es: seq<Entity>, frontier: seq<Coverage>, a: Atlas)
    requires VocabularyUpTo(es, frontier, a, |frontier|)
    ensures IsVocabulary(es, frontier, a)
  {
    assert frontier[..|frontier|] == frontier;
  }

  lemma RunsAreInBounds(runs: seq<seq<nat>>, words: seq<string>, explained: set<string>, roadTokens: set<string>)
    requires RunsUpTo(runs, |words|, words, explained, roadTokens)
    ensures RunsInBounds(runs, |words|) && NonemptyRuns(runs)
  {
    hide IsLeft;
    forall r | 0 <= r < |runs|
      ensures runs[r] != [] && (forall k :: 0 <= k < |runs[r]| ==> runs[r][k] == runs[r][0] + k)
              && runs[r][0] + |runs[r]| <= |words|
    {
      assert IsRun(runs[r], words, explained, roadTokens);
    }
  }

  /** The second pass: exactly one scan, with the first pass's candidates as context. */
  method RecoverContextualEvidence(index: LocationIndex, candidates: seq<AdminCandidate>,
                                   resolved: seq<ResolvedEvidence>,
                                   normalized: string, roadTokens: set<string>)
    returns (f: Found, ghost t: Trace)
    requires index.Valid()
    modifies index
    ensures index.Valid()
    ensures Prepared(t, candidates, resolved, normalized, roadTokens, index.atlas) && RecoveryOf(f, t)
  {
    hide Coverages, IsFrontier, IsVocabulary, TargetsOf, Fields, Offered, Ids, RunsUpTo, ScanState, RunsInBounds;
    var coverages := MeasureCoverages(candidates, EvidenceOf(resolved), roadTokens);
    var frontier := SelectExpansionFrontier(coverages);
    ghost var q := Search([], map[], {});
    if |frontier| == 0 {
      return NOTHING, Trace(frontier, [], {}, q, []);
    }
    var entities := CollectNeighborhoods(index, frontier);
    var targets := BuildMatchTargets(entities);
    var explained := ExplainedByFrontier(frontier);
    var known := KnownEntities(resolved);
    var words := Fields(normalized);
    var runs := UnexplainedRuns(words, explained, roadTokens);
    RunsAreInBounds(runs, words, explained, roadTokens);
    q := Search(words, targets, known);
    t := Trace(frontier, entities, explained, q, runs);
    assert NoRepeats(entities) by {
      VocabularyHasNoRepeats(entities, frontier, index.atlas);
    }
    f := ScanRuns(q, entities, words, targets, known, runs);
    assert Scanned(f, q, runs);
    if |f.recovered| == 0 {
      f := NOTHING;
    }
  }

  lemma VocabularyHasNoRepeats(es: seq<Entity>, frontier: seq<Coverage>, a: Atlas)
    requires IsVocabulary(es, frontier, a)
    ensures NoRepeats(es)
  {
  }
}
