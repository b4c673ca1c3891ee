/**
 Exact phrase matching: what a phrase dictionary is, and the leftmost-longest scan that attaches
 its entities to the words of an address.
 */
module Phrases {
  import opened Text
  import opened Model
  import opened Decimal
  import opened Segmentation

  type ByLevel = map<Level, seq<Entity>>
  type PhraseDict = map<string, ByLevel>
  type WordEntities = map<string, seq<Entity>>

  // ---------- Reading the dictionary ----------

  ghost function Elements(es: seq<Entity>): set<Entity> {
    set e | e in es
  }

  /** The entities of all levels together. */
  ghost function LevelEntities(byLevel: ByLevel): set<Entity> {
    set l, e | l in byLevel && e in byLevel[l] :: e
  }

  ghost function Entries(dict: PhraseDict, key: string): set<Entity> {
    if key in dict then LevelEntities(dict[key]) else {}
  }

  ghost function At(we: WordEntities, w: string): set<Entity> {
    if w in we then Elements(we[w]) else {}
  }

  /** Appends the entities of every level; the levels come in no particular order. */
  method AppendLevels(byLevel: ByLevel) returns (entities: seq<Entity>)
    ensures Elements(entities) == LevelEntities(byLevel)
  {
    entities := [];
    var todo := byLevel.Keys;
    ghost var done: set<Level> := {};
    while todo != {}
      invariant done + todo == byLevel.Keys
      invariant forall e :: e in entities <==> exists l :: l in done && e in byLevel[l]
      decreases todo
    {
      var l :| l in todo;
      entities := entities + byLevel[l];
      todo, done := todo - {l}, done + {l};
    }
  }

  // ---------- The scan ----------

  function Phrase(words: seq<string>, i: nat, j: nat): string
    requires i <= j <= |words|
  {
    Join(words[i..j], " ")
  }

  /** Do the words from i up to j spell a phrase of the source? */
  ghost function PhraseMatch(dict: PhraseDict, source: Int64, words: seq<string>): Match {
    (i: int, j: int) => 0 <= i <= j <= |words| && SourceKey(source, Phrase(words, i, j)) in dict
  }

  predicate Repeated(words: seq<string>) {
    |words| > 1 && forall i :: 0 <= i < |words| ==> words[i] == words[0]
  }

  method RepeatedPhrase(words: seq<string>) returns (r: bool)
    ensures r == Repeated(words)
  {
    for i := 0 to |words|
      invariant forall k :: 0 <= k < i ==> words[k] == words[0]
    {
      if words[i] != words[0] {
        return false;
      }
    }
    return |words| > 1;
  }

  /** What one matched span gives each of its words: the phrase's entities, and for a phrase of
      one repeated word also the word's own. */
  ghost function SpanEntities(dict: PhraseDict, source: Int64, words: seq<string>, s: Span): set<Entity>
    requires s.start < s.end <= |words|
  {
    Entries(dict, SourceKey(source, Phrase(words, s.start, s.end)))
    + if Repeated(words[s.start..s.end]) then Entries(dict, SourceKey(source, words[s.start])) else {}
  }

  /** A phrase of one repeated word gives that word its own entities as well as the phrase's. */
  lemma RepeatedWordKeepsItsOwn(dict: PhraseDict, source: Int64, words: seq<string>, s: Span)
    requires s.start + 1 < s.end <= |words|
    requires forall i :: s.start <= i < s.end ==> words[i] == words[s.start]
    ensures SpanEntities(dict, source, words, s)
         == Entries(dict, SourceKey(source, Phrase(words, s.start, s.end)))
            + Entries(dict, SourceKey(source, words[s.start]))
  {
    assert Repeated(words[s.start..s.end]);
  }

  /** Any other phrase gives its own entities alone. */
  lemma OtherPhrasesAlone(dict: PhraseDict, source: Int64, words: seq<string>, s: Span, i: nat)
    requires s.start <= i < s.end <= |words| && (s.end == s.start + 1 || words[i] != words[s.start])
    ensures SpanEntities(dict, source, words, s) == Entries(dict, SourceKey(source, Phrase(words, s.start, s.end)))
  {
    assert words[s.start..s.end][i - s.start] == words[i];
  }

  ghost predicate InBounds(spans: seq<Span>, n: nat) {
    forall k :: 0 <= k < |spans| ==> spans[k].start < spans[k].end <= n
  }

  /** Is w one of the words of the span? */
  ghost predicate SpanHas(words: seq<string>, s: Span, w: string)
    requires s.start < s.end <= |words|
  {
    w in words[s.start..s.end]
  }

  /** The union over the spans that contain the word. */
  ghost function Gathered(dict: PhraseDict, source: Int64, words: seq<string>, spans: seq<Span>, w: string): set<Entity>
    requires InBounds(spans, |words|)
  {
    set k, e | 0 <= k < |spans| && SpanHas(words, spans[k], w) && e in SpanEntities(dict, source, words, spans[k]) :: e
  }

  /** Appends the same entities under every word of a range. */
  method AppendToWords(we: WordEntities, words: seq<string>, lo: nat, hi: nat, entities: seq<Entity>)
    returns (r: WordEntities)
    requires lo <= hi <= |words|
    ensures forall w :: At(r, w) == At(we, w) + if w in words[lo..hi] then Elements(entities) else {}
  {
    r := we;
    for k := lo to hi
      invariant forall w :: At(r, w) == At(we, w) + if w in words[lo..k] then Elements(entities) else {}
    {
      var before := if words[k] in r then r[words[k]] else [];
      ghost var prev := r;
      r := r[words[k] := before + entities];
      assert words[lo..k + 1] == words[lo..k] + [words[k]];
      assert Elements(before + entities) == Elements(before) + Elements(entities);
      assert forall w :: At(r, w) == if w == words[k] then At(prev, w) + Elements(entities) else At(prev, w);
    }
  }

  lemma GatheredSnoc(dict: PhraseDict, source: Int64, words: seq<string>, spans: seq<Span>, s: Span, w: string)
    requires InBounds(spans, |words|) && s.start < s.end <= |words|
    ensures InBounds(spans + [s], |words|)
    ensures Gathered(dict, source, words, spans + [s], w)
         == Gathered(dict, source, words, spans, w)
            + if SpanHas(words, s, w) then SpanEntities(dict, source, words, s) else {}
  {
    var all := spans + [s];
    forall e | e in Gathered(dict, source, words, spans, w)
      ensures e in Gathered(dict, source, words, all, w)
    {
      var k :| 0 <= k < |spans| && SpanHas(words, spans[k], w) && e in SpanEntities(dict, source, words, spans[k]);
      assert all[k] == spans[k];
    }
    if SpanHas(words, s, w) {
      assert all[|spans|] == s;
    }
    forall e | e in Gathered(dict, source, words, all, w)
      ensures e in Gathered(dict, source, words, spans, w)
           || (SpanHas(words, s, w) && e in SpanEntities(dict, source, words, s))
    {
      var k :| 0 <= k < |all| && SpanHas(words, all[k], w) && e in SpanEntities(dict, source, words, all[k]);
      assert k < |spans| ==> all[k] == spans[k];
    }
  }

  /** Looks for the longest phrase that starts at word i. */
  method FindLongest(dict: PhraseDict, source: Int64, words: seq<string>, i: nat) returns (longestEnd: int)
    requires i < |words|
    ensures var e := LongestEnd(PhraseMatch(dict, source, words), i, |words|);
            longestEnd == if e == i then -1 else e
  {
    ghost var m := PhraseMatch(dict, source, words);
    longestEnd := -1;
    var j := |words|;
    while j > i
      invariant i <= j <= |words|
      invariant LongestEnd(m, i, |words|) == LongestEnd(m, i, j)
    {
      if SourceKey(source, Phrase(words, i, j)) in dict {
        return j;
      }
      j := j - 1;
    }
  }

  /** One matched span: its entities go under each of its words. */
  method AddSpan(dict: PhraseDict, source: Int64, words: seq<string>, i: nat, end: nat, we: WordEntities)
    returns (r: WordEntities)
    requires i < end <= |words|
    ensures forall w :: At(r, w)
                     == At(we, w) + if SpanHas(words, Span(i, end), w) then SpanEntities(dict, source, words, Span(i, end)) else {}
  {
    var key := SourceKey(source, Phrase(words, i, end));
    var entities: seq<Entity> := [];
    if key in dict {
      entities := AppendLevels(dict[key]);
    }
    r := AppendToWords(we, words, i, end, entities);
    var repeated := RepeatedPhrase(words[i..end]);
    if repeated {
      var singleKey := SourceKey(source, words[i]);
      if singleKey in dict {
        var single := AppendLevels(dict[singleKey]);
        r := AppendToWords(r, words, i, end, single);
      }
    }
  }

  /** The spans that the scan finds: leftmost, then longest. */
  ghost function PhraseSpans(dict: PhraseDict, source: Int64, words: seq<string>): (spans: seq<Span>)
    ensures InBounds(spans, |words|)
    ensures LeftmostLongest(PhraseMatch(dict, source, words), spans, 0, |words|, |words|)
  {
    SegmentIsLeftmostLongest(PhraseMatch(dict, source, words), 0, |words|, |words|);
    var spans := Segment(PhraseMatch(dict, source, words), 0, |words|, |words|);
    assert forall k :: 0 <= k < |spans| ==> LongestMatch(PhraseMatch(dict, source, words), spans[k], 0, |words|, |words|);
    spans
  }

  /** Every word has exactly the entities of the spans that contain it. */
  ghost predicate Tracks(we: WordEntities, dict: PhraseDict, source: Int64, words: seq<string>, spans: seq<Span>) {
    InBounds(spans, |words|) && forall w :: At(we, w) == Gathered(dict, source, words, spans, w)
  }

  lemma TracksSnoc(we: WordEntities, r: WordEntities, dict: PhraseDict, source: Int64, words: seq<string>,
                   spans: seq<Span>, s: Span)
    requires Tracks(we, dict, source, words, spans) && s.start < s.end <= |words|
    requires forall w :: At(r, w)
                      == At(we, w) + if SpanHas(words, s, w) then SpanEntities(dict, source, words, s) else {}
    ensures Tracks(r, dict, source, words, spans + [s])
  {
    hide SpanEntities, Gathered;
    forall w
      ensures At(r, w) == Gathered(dict, source, words, spans + [s], w)
    {
      GatheredSnoc(dict, source, words, spans, s, w);
    }
  }

  lemma TracksNothing(dict: PhraseDict, source: Int64, words: seq<string>)
    ensures Tracks(map[], dict, source, words, [])
  {
  }

  method MatchPhrases(dict: PhraseDict, source: Int64, text: string) returns (wordEntities: WordEntities)
    ensures Tracks(wordEntities, dict, source, Fields(text), PhraseSpans(dict, source, Fields(text)))
  {
    hide Segment, SpanEntities, PhraseMatch, Tracks, Fields, LongestEnd;
    var words := Fields(text);
    wordEntities := map[];
    ghost var m := PhraseMatch(dict, source, words);
    ghost var found: seq<Span> := [];
    TracksNothing(dict, source, words);
    assert Segment(m, 0, |words|, |words|) == found + Segment(m, 0, |words|, |words|);
    var i := 0;
    while i < |words|
      invariant i <= |words|
      invariant Segment(m, 0, |words|, |words|) == found + Segment(m, i, |words|, |words|)
      invariant Tracks(wordEntities, dict, source, words, found)
    {
      SegmentStep(m, i, |words|, |words|);
      var longestEnd := FindLongest(dict, source, words, i);
      if longestEnd == -1 {
        i := i + 1;
        continue;
      }
      var before := wordEntities;
      wordEntities := AddSpan(dict, source, words, i, longestEnd, wordEntities);
      TracksSnoc(before, wordEntities, dict, source, words, found, Span(i, longestEnd));
      ghost var rest := Segment(m, longestEnd, |words|, |words|);
      assert found + ([Span(i, longestEnd)] + rest) == (found + [Span(i, longestEnd)]) + rest;
      found := found + [Span(i, longestEnd)];
      i := longestEnd;
    }
    SegmentEnd(m, |words|, |words|);
    assert found == Segment(m, 0, |words|, |words|);
  }
}
