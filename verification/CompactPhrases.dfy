/**
 Matching after removal of white space: the compact dictionary, built key by key from the plain
 one, and the scan that finds only entities whose spacing differs from the address.
 */
module CompactPhrases {
  import opened Wrappers
  import opened Text
  import opened Model
  import opened Decimal
  import opened Segmentation
  import opened Phrases
  import opened Dictionary
  import Normalizer

  // ---------- Compact keys ----------

  /** The position of the first colon. */
  function ColonAt(s: string): (i: int)
    ensures -1 <= i < |s|
    ensures i >= 0 ==> s[i] == ':' && forall k :: 0 <= k < i ==> s[k] != ':'
    ensures i < 0 ==> ':' !in s
  {
    if s == "" then -1
    else if s[0] == ':' then 0
    else
      var i := ColonAt(s[1..]);
      assert s == [s[0]] + s[1..];
      if i < 0 then -1 else i + 1
  }

  /** The source part of a key followed by its text without spaces; none without a colon. */
  function CompactKey(key: string): Option<string> {
    var sep := ColonAt(key);
    if sep < 0 then None else Some(key[..sep + 1] + Compact(key[sep + 1..]))
  }

  lemma ColonAtFirst(a: string, text: string)
    requires ':' !in a
    ensures ColonAt(a + ":" + text) == |a|
  {
    var s := a + ":" + text;
    assert s[|a|] == ':';
    assert forall k :: 0 <= k < |a| ==> s[k] == a[k];
  }

  lemma CompactOfSourceKey(source: Int64, text: string)
    ensures CompactKey(SourceKey(source, text)) == Some(SourceKey(source, Compact(text)))
  {
    ItoaHasNoColon(source);
    ColonAtFirst(Itoa(source), text);
    var key := SourceKey(source, text);
    assert key[..|Itoa(source)| + 1] == Itoa(source) + ":";
    assert key[|Itoa(source)| + 1..] == text;
  }

  // ---------- The compact dictionary ----------

  /** Is the id listed under the key at the level? */
  ghost predicate HasId(dict: PhraseDict, key: string, level: Level, id: Int64) {
    key in dict && level in dict[key] && id in Ids(dict[key][level])
  }

  /** A plain key that compacts to `ck` and lists the id. */
  ghost predicate Source(dict: PhraseDict, keys: set<string>, key: string, ck: string, level: Level, id: Int64) {
    key in keys && CompactKey(key) == Some(ck) && HasId(dict, key, level, id)
  }

  /** The compact dictionary restricted to what the plain keys in `done` contribute. */
  ghost predicate CompactOf(compact: PhraseDict, dict: PhraseDict, done: set<string>) {
    && (forall ck, level, id :: HasId(compact, ck, level, id) <==> exists key :: Source(dict, done, key, ck, level, id))
    && (forall ck, level, e :: Has(compact, ck, level, e) ==>
          exists key :: key in done && CompactKey(key) == Some(ck) && Has(dict, key, level, e))
    && (forall ck, level :: ck in compact && level in compact[ck] ==> NoRepeats(compact[ck][level]))
    && (forall ck :: ck in compact <==> exists key :: key in done && CompactKey(key) == Some(ck))
  }

  /** Adds the entities of one plain key, level by level, skipping ids that are there already. */
  method MergeLevels(levels: ByLevel, byLevel: ByLevel) returns (r: ByLevel)
    ensures r.Keys == levels.Keys + byLevel.Keys
    ensures forall l :: l in r ==> r[l] == MergedLevel(levels, byLevel, l)
  {
    r := levels;
    var todo := byLevel.Keys;
    while todo != {}
      invariant todo <= byLevel.Keys
      invariant r.Keys == levels.Keys + (byLevel.Keys - todo)
      invariant forall l :: l in r ==>
                  r[l] == if l in todo then levels[l] else MergedLevel(levels, byLevel, l)
      decreases todo
    {
      var l :| l in todo;
      var merged := AppendUniqueEntities(if l in r then r[l] else [], byLevel[l]);
      r := r[l := merged];
      todo := todo - {l};
    }
  }

  ghost function AtLevel(levels: ByLevel, l: Level): seq<Entity> {
    if l in levels then levels[l] else []
  }

  ghost function MergedLevel(levels: ByLevel, byLevel: ByLevel, l: Level): seq<Entity> {
    if l in byLevel then AppendUnique(AtLevel(levels, l), byLevel[l]) else AtLevel(levels, l)
  }

  ghost function LevelsAt(dict: PhraseDict, key: string): ByLevel {
    if key in dict then dict[key] else map[]
  }

  lemma IdsOfMerged(levels: ByLevel, byLevel: ByLevel, l: Level)
    ensures Ids(MergedLevel(levels, byLevel, l)) == Ids(AtLevel(levels, l)) + Ids(AtLevel(byLevel, l))
    ensures NoRepeats(AtLevel(levels, l)) ==> NoRepeats(MergedLevel(levels, byLevel, l))
    ensures forall e :: e in MergedLevel(levels, byLevel, l) ==> e in AtLevel(levels, l) || e in AtLevel(byLevel, l)
  {
    IdsNone();
    if l in byLevel {
      AppendUniqueKeeps(AtLevel(levels, l), byLevel[l]);
    }
  }

  /** The compact entry of `ck` after one more plain key was merged into it. */
  ghost predicate Merged(compact: PhraseDict, compact': PhraseDict, ck: string, byLevel: ByLevel) {
    && compact'.Keys == compact.Keys + {ck}
    && (forall k :: k in compact && k != ck ==> compact'[k] == compact[k])
    && compact'[ck].Keys == LevelsAt(compact, ck).Keys + byLevel.Keys
    && (forall l :: l in compact'[ck] ==> compact'[ck][l] == MergedLevel(LevelsAt(compact, ck), byLevel, l))
  }

  lemma MergedIds(compact: PhraseDict, compact': PhraseDict, ck: string, byLevel: ByLevel, k: string, l: Level,
                  id: Int64)
    requires Merged(compact, compact', ck, byLevel)
    ensures HasId(compact', k, l, id) <==> HasId(compact, k, l, id) || (k == ck && id in Ids(AtLevel(byLevel, l)))
  {
    hide Ids, MergedLevel;
    IdsNone();
    if k == ck {
      IdsOfMerged(LevelsAt(compact, ck), byLevel, l);
    }
  }

  lemma MergedEntities(compact: PhraseDict, compact': PhraseDict, ck: string, byLevel: ByLevel, k: string, l: Level,
                       e: Entity)
    requires Merged(compact, compact', ck, byLevel) && Has(compact', k, l, e)
    ensures Has(compact, k, l, e) || (k == ck && e in AtLevel(byLevel, l))
  {
    hide Ids, MergedLevel;
    if k == ck {
      IdsOfMerged(LevelsAt(compact, ck), byLevel, l);
    }
  }

  lemma MergedNoRepeats(compact: PhraseDict, compact': PhraseDict, ck: string, byLevel: ByLevel)
    requires Merged(compact, compact', ck, byLevel)
    requires forall k, l :: k in compact && l in compact[k] ==> NoRepeats(compact[k][l])
    ensures forall k, l :: k in compact' && l in compact'[k] ==> NoRepeats(compact'[k][l])
  {
    hide MergedLevel, NoRepeats;
    forall k, l | k in compact' && l in compact'[k]
      ensures NoRepeats(compact'[k][l])
    {
      if k == ck {
        assert NoRepeats([]) by {
          EmptyHasNoRepeats();
        }
        IdsOfMerged(LevelsAt(compact, ck), byLevel, l);
      }
    }
  }

  lemma EmptyHasNoRepeats()
    ensures NoRepeats([])
  {
  }

  lemma CompactGrows(compact: PhraseDict, compact': PhraseDict, dict: PhraseDict, done: set<string>, key: string,
                     ck: string)
    requires CompactOf(compact, dict, done)
    requires key in dict && CompactKey(key) == Some(ck)
    requires Merged(compact, compact', ck, dict[key])
    ensures CompactOf(compact', dict, done + {key})
  {
    hide CompactKey, Ids, Merged;
    forall k, l, id
      ensures HasId(compact', k, l, id) <==> exists key' :: Source(dict, done + {key}, key', k, l, id)
    {
      hide HasId;
      MergedIds(compact, compact', ck, dict[key], k, l, id);
      KeyIds(dict, key, l, id);
      if HasId(compact, k, l, id) {
        var key' :| Source(dict, done, key', k, l, id);
        assert Source(dict, done + {key}, key', k, l, id);
      }
      if k == ck && HasId(dict, key, l, id) {
        assert Source(dict, done + {key}, key, k, l, id);
      }
      if key' :| Source(dict, done + {key}, key', k, l, id) {
        assert key' != key ==> Source(dict, done, key', k, l, id);
      }
    }
    forall k, l, e | Has(compact', k, l, e)
      ensures exists key' :: key' in done + {key} && CompactKey(key') == Some(k) && Has(dict, key', l, e)
    {
      MergedEntities(compact, compact', ck, dict[key], k, l, e);
      if Has(compact, k, l, e) {
        var key' :| key' in done && CompactKey(key') == Some(k) && Has(dict, key', l, e);
      }
    }
    MergedNoRepeats(compact, compact', ck, dict[key]);
    MergedKeys(compact, compact', ck, dict[key]);
  }

  lemma MergedKeys(compact: PhraseDict, compact': PhraseDict, ck: string, byLevel: ByLevel)
    requires Merged(compact, compact', ck, byLevel)
    ensures compact'.Keys == compact.Keys + {ck}
  {
  }

  lemma KeyIds(dict: PhraseDict, key: string, l: Level, id: Int64)
    requires key in dict
    ensures HasId(dict, key, l, id) <==> id in Ids(AtLevel(dict[key], l))
  {
    IdsNone();
  }

  lemma KeyWithoutColon(compact: PhraseDict, dict: PhraseDict, done: set<string>, key: string)
    requires CompactOf(compact, dict, done) && CompactKey(key) == None
    ensures CompactOf(compact, dict, done + {key})
  {
    hide HasId, Has, CompactKey;
    forall k, l, id
      ensures HasId(compact, k, l, id) <==> exists key' :: Source(dict, done + {key}, key', k, l, id)
    {
      if HasId(compact, k, l, id) {
        var key' :| Source(dict, done, key', k, l, id);
        assert Source(dict, done + {key}, key', k, l, id);
      }
      if key' :| Source(dict, done + {key}, key', k, l, id) {
        assert Source(dict, done, key', k, l, id);
      }
    }
  }

  lemma CompactOfNothing(dict: PhraseDict)
    ensures CompactOf(map[], dict, {})
  {
  }

  lemma MergedByUpdate(compact: PhraseDict, ck: string, byLevel: ByLevel, levels: ByLevel)
    requires levels.Keys == LevelsAt(compact, ck).Keys + byLevel.Keys
    requires forall l :: l in levels ==> levels[l] == MergedLevel(LevelsAt(compact, ck), byLevel, l)
    ensures Merged(compact, compact[ck := levels], ck, byLevel)
  {
  }

  method BuildCompactPhraseDict(dict: PhraseDict) returns (compact: PhraseDict)
    ensures CompactOf(compact, dict, dict.Keys)
  {
    compact := map[];
    var todo := dict.Keys;
    ghost var done: set<string> := {};
    hide CompactOf, CompactKey, Merged, MergedLevel, ColonAt, Compact;
    CompactOfNothing(dict);
    while todo != {}
      invariant done + todo == dict.Keys && done !! todo
      invariant CompactOf(compact, dict, done)
      decreases todo
    {
      var key :| key in todo;
      var sep := ColonAt(key);
      KeyParts(key);
      if sep < 0 {
        KeyWithoutColon(compact, dict, done, key);
        todo, done := todo - {key}, done + {key};
        continue;
      }
      var compactKey := key[..sep + 1] + Compact(key[sep + 1..]);
      var levels := if compactKey in compact then compact[compactKey] else map[];
      levels := MergeLevels(levels, dict[key]);
      ghost var before := compact;
      compact := compact[compactKey := levels];
      MergedByUpdate(before, compactKey, dict[key], levels);
      CompactGrows(before, compact, dict, done, key, compactKey);
      todo, done := todo - {key}, done + {key};
    }
    assert done == dict.Keys;
  }

  lemma KeyParts(key: string)
    ensures var sep := ColonAt(key);
            CompactKey(key) == if sep < 0 then None else Some(key[..sep + 1] + Compact(key[sep + 1..]))
  {
  }

  // ---------- The scan for spacing variants ----------

  ghost function IdsOf(es: set<Entity>): set<Int64> {
    set e | e in es :: e.id
  }

  ghost predicate IsSpacingOnly(compact: PhraseDict, dict: PhraseDict, source: Int64, text: string, e: Entity) {
    && e in Entries(compact, SourceKey(source, Compact(text)))
    && e.id !in IdsOf(Entries(dict, SourceKey(source, text)))
  }

  /** The entities that the text reaches only once its spaces are removed. */
  ghost function SpacingOnly(compact: PhraseDict, dict: PhraseDict, source: Int64, text: string): set<Entity> {
    set e | e in Entries(compact, SourceKey(source, Compact(text))) && IsSpacingOnly(compact, dict, source, text, e)
  }

  ghost function CompactMatch(compact: PhraseDict, dict: PhraseDict, source: Int64, words: seq<string>): Match {
    (i: int, j: int) => 0 <= i <= j <= |words| && SpacingOnly(compact, dict, source, Phrase(words, i, j)) != {}
  }

  ghost predicate SpanGives(compact: PhraseDict, dict: PhraseDict, source: Int64, words: seq<string>, s: Span,
                            w: string, e: Entity)
  {
    && s.start < s.end <= |words| && SpanHas(words, s, w)
    && e in SpacingOnly(compact, dict, source, Phrase(words, s.start, s.end))
  }

  /** Each word has the ids that the spans containing it give, by entities that these spans give. */
  ghost predicate CompactTracks(we: WordEntities, compact: PhraseDict, dict: PhraseDict, source: Int64,
                                words: seq<string>, spans: seq<Span>)
  {
    && (forall w, e :: e in At(we, w) ==>
          exists k :: 0 <= k < |spans| && SpanGives(compact, dict, source, words, spans[k], w, e))
    && (forall w, e, k :: 0 <= k < |spans| && SpanGives(compact, dict, source, words, spans[k], w, e) ==>
          e.id in IdsOf(At(we, w)))
  }

  method CollectIds(byLevel: ByLevel) returns (ids: set<Int64>)
    ensures ids == IdsOf(LevelEntities(byLevel))
  {
    var all := AppendLevels(byLevel);
    ids := {};
    for i := 0 to |all|
      invariant ids == Ids(all[..i])
    {
      IdsSnoc(all[..i], all[i]);
      assert all[..i + 1] == all[..i] + [all[i]];
      ids := ids + {all[i].id};
    }
    assert all[..|all|] == all;
    assert forall e :: e in Elements(all) <==> e in LevelEntities(byLevel);
  }

  method CollectSpacingOnly(byLevel: ByLevel, exactIds: set<Int64>) returns (es: seq<Entity>)
    ensures forall e :: e in es ==> e in LevelEntities(byLevel) && e.id !in exactIds
    ensures forall e :: e in LevelEntities(byLevel) && e.id !in exactIds ==> e.id in Ids(es)
  {
    var all := AppendLevels(byLevel);
    es := [];
    for i := 0 to |all|
      invariant forall e :: e in es ==> e in all && e.id !in exactIds
      invariant forall k :: 0 <= k < i && all[k].id !in exactIds ==> all[k].id in Ids(es)
    {
      if all[i].id !in exactIds {
        AppendUniqueKeeps(es, [all[i]]);
        es := AppendUniqueEntities(es, [all[i]]);
        assert all[i] in [all[i]];
      }
    }
    assert forall e :: e in Elements(all) <==> e in LevelEntities(byLevel);
  }

  /** Tries one range of words; returns the entities that match it by spacing only. */
  method TrySpan(compact: PhraseDict, dict: PhraseDict, source: Int64, words: seq<string>, i: nat, j: nat)
    returns (es: seq<Entity>)
    requires i <= j <= |words|
    ensures forall e :: e in es ==> e in SpacingOnly(compact, dict, source, Phrase(words, i, j))
    ensures forall e :: e in SpacingOnly(compact, dict, source, Phrase(words, i, j)) ==> e.id in Ids(es)
  {
    var spaced := Phrase(words, i, j);
    var key := SourceKey(source, Compact(spaced));
    if key !in compact {
      return [];
    }
    var exactIds: set<Int64> := {};
    var exactKey := SourceKey(source, spaced);
    if exactKey in dict {
      exactIds := CollectIds(dict[exactKey]);
    }
    assert exactIds == IdsOf(Entries(dict, exactKey));
    es := CollectSpacingOnly(compact[key], exactIds);
  }

  method FindSpacingVariant(compact: PhraseDict, dict: PhraseDict, source: Int64, words: seq<string>, i: nat)
    returns (longestEnd: int, entities: seq<Entity>)
    requires i < |words|
    ensures var e := LongestEnd(CompactMatch(compact, dict, source, words), i, |words|);
            longestEnd == if e == i then -1 else e
    ensures longestEnd != -1 ==> i < longestEnd <= |words|
    ensures longestEnd != -1 ==>
              forall e :: e in entities ==> e in SpacingOnly(compact, dict, source, Phrase(words, i, longestEnd))
    ensures longestEnd != -1 ==>
              forall e :: e in SpacingOnly(compact, dict, source, Phrase(words, i, longestEnd)) ==> e.id in Ids(entities)
  {
    hide SpacingOnly;
    ghost var m := CompactMatch(compact, dict, source, words);
    var j := |words|;
    while j > i
      invariant i <= j <= |words|
      invariant LongestEnd(m, i, |words|) == LongestEnd(m, i, j)
    {
      entities := TrySpan(compact, dict, source, words, i, j);
      if |entities| > 0 {
        assert entities[0] in entities;
        return j, entities;
      }
      assert Ids(entities) == {};
      j := j - 1;
    }
    return -1, [];
  }

  ghost predicate Explained(we: WordEntities, range: seq<string>, entities: seq<Entity>, w: string, e: Entity) {
    e in At(we, w) || (w in range && e in entities)
  }

  ghost predicate IdsGained(we: WordEntities, r: WordEntities, range: seq<string>, entities: seq<Entity>, w: string) {
    IdsOf(At(we, w)) <= IdsOf(At(r, w)) && (w in range ==> Ids(entities) <= IdsOf(At(r, w)))
  }

  /** r is we after the entities were offered to the words of a range. */
  ghost predicate WordsGained(we: WordEntities, r: WordEntities, range: seq<string>, entities: seq<Entity>) {
    && (forall w, e :: e in At(r, w) ==> Explained(we, range, entities, w, e))
    && (forall w :: IdsGained(we, r, range, entities, w))
  }

  lemma OneMoreWord(we: WordEntities, prev: WordEntities, r: WordEntities, range: seq<string>, word: string,
                    entities: seq<Entity>)
    requires WordsGained(we, prev, range, entities)
    requires forall w :: w != word ==> At(r, w) == At(prev, w)
    requires forall e :: e in At(r, word) ==> e in At(prev, word) || e in entities
    requires IdsOf(At(r, word)) == IdsOf(At(prev, word)) + Ids(entities)
    ensures WordsGained(we, r, range + [word], entities)
  {
    hide At, IdsOf, Ids;
    forall w, e | e in At(r, w)
      ensures Explained(we, range + [word], entities, w, e)
    {
      assert w in range ==> w in range + [word];
      if e in At(prev, w) {
        assert Explained(we, range, entities, w, e);
      } else {
        assert w == word && w in range + [word];
      }
    }
    forall w
      ensures IdsGained(we, r, range + [word], entities, w)
    {
      assert IdsGained(we, prev, range, entities, w);
      assert w in range + [word] ==> w in range || w == word;
    }
  }

  method AppendUniqueToWords(we: WordEntities, words: seq<string>, lo: nat, hi: nat, entities: seq<Entity>)
    returns (r: WordEntities)
    requires lo <= hi <= |words|
    ensures WordsGained(we, r, words[lo..hi], entities)
  {
    r := we;
    for k := lo to hi
      invariant WordsGained(we, r, words[lo..k], entities)
    {
      hide WordsGained, At, IdsOf, Ids;
      ghost var prev := r;
      r := AppendUniqueToWord(r, words[k], entities);
      OneMoreWord(we, prev, r, words[lo..k], words[k], entities);
      assert words[lo..k + 1] == words[lo..k] + [words[k]];
    }
  }

  method AppendUniqueToWord(we: WordEntities, word: string, entities: seq<Entity>) returns (r: WordEntities)
    ensures forall w :: w != word ==> At(r, w) == At(we, w)
    ensures forall e :: e in At(r, word) ==> e in At(we, word) || e in entities
    ensures IdsOf(At(r, word)) == IdsOf(At(we, word)) + Ids(entities)
  {
    var before := if word in we then we[word] else [];
    var all := AppendUniqueEntities(before, entities);
    AppendUniqueKeeps(before, entities);
    r := we[word := all];
    assert IdsOf(At(r, word)) == Ids(all);
    assert IdsOf(At(we, word)) == Ids(before);
  }

  lemma CompactTracksSnoc(we: WordEntities, r: WordEntities, compact: PhraseDict, dict: PhraseDict, source: Int64,
                          words: seq<string>, spans: seq<Span>, s: Span, entities: seq<Entity>)
    requires CompactTracks(we, compact, dict, source, words, spans)
    requires s.start < s.end <= |words|
    requires forall e :: e in entities ==> e in SpacingOnly(compact, dict, source, Phrase(words, s.start, s.end))
    requires forall e :: e in SpacingOnly(compact, dict, source, Phrase(words, s.start, s.end)) ==> e.id in Ids(entities)
    requires WordsGained(we, r, words[s.start..s.end], entities)
    ensures CompactTracks(r, compact, dict, source, words, spans + [s])
  {
    hide SpacingOnly, At, IdsOf, Ids;
    var all, range := spans + [s], words[s.start..s.end];
    forall w, e | e in At(r, w)
      ensures exists k :: 0 <= k < |all| && SpanGives(compact, dict, source, words, all[k], w, e)
    {
      assert Explained(we, range, entities, w, e);
      if e in At(we, w) {
        var k :| 0 <= k < |spans| && SpanGives(compact, dict, source, words, spans[k], w, e);
        assert all[k] == spans[k];
      } else {
        assert all[|spans|] == s && SpanGives(compact, dict, source, words, s, w, e);
      }
    }
    forall w, e, k | 0 <= k < |all| && SpanGives(compact, dict, source, words, all[k], w, e)
      ensures e.id in IdsOf(At(r, w))
    {
      assert IdsGained(we, r, range, entities, w);
      if k < |spans| {
        assert all[k] == spans[k];
        assert e.id in IdsOf(At(we, w));
      }
    }
  }

  /** The spans that the compact scan finds. */
  ghost function CompactSpans(compact: PhraseDict, dict: PhraseDict, source: Int64,
                              words: seq<string>): (spans: seq<Span>)
    ensures LeftmostLongest(CompactMatch(compact, dict, source, words), spans, 0, |words|, |words|)
  {
    SegmentIsLeftmostLongest(CompactMatch(compact, dict, source, words), 0, |words|, |words|);
    Segment(CompactMatch(compact, dict, source, words), 0, |words|, |words|)
  }

  method ScanCompact(compact: PhraseDict, dict: PhraseDict, source: Int64,
                     text: string) returns (wordEntities: WordEntities)
    ensures CompactTracks(wordEntities, compact, dict, source, Fields(text),
                          CompactSpans(compact, dict, source, Fields(text)))
  {
    hide Segment, SpacingOnly, CompactTracks, CompactMatch, WordsGained, Fields, LongestEnd, At, IdsOf, Ids;
    var words := Fields(text);
    wordEntities := map[];
    ghost var m := CompactMatch(compact, dict, source, words);
    ghost var found: seq<Span> := [];
    CompactTracksNothing(compact, dict, source, words);
    assert Segment(m, 0, |words|, |words|) == found + Segment(m, 0, |words|, |words|);
    var i := 0;
    while i < |words|
      invariant i <= |words|
      invariant Segment(m, 0, |words|, |words|) == found + Segment(m, i, |words|, |words|)
      invariant CompactTracks(wordEntities, compact, dict, source, words, found)
    {
      SegmentStep(m, i, |words|, |words|);
      var longestEnd, entities := FindSpacingVariant(compact, dict, source, words, i);
      if longestEnd == -1 {
        i := i + 1;
        continue;
      }
      var before := wordEntities;
      wordEntities := AppendUniqueToWords(wordEntities, words, i, longestEnd, entities);
      CompactTracksSnoc(before, wordEntities, compact, dict, source, words, found, Span(i, longestEnd), entities);
      ghost var rest := Segment(m, longestEnd, |words|, |words|);
      assert found + ([Span(i, longestEnd)] + rest) == (found + [Span(i, longestEnd)]) + rest;
      found := found + [Span(i, longestEnd)];
      i := longestEnd;
    }
    SegmentEnd(m, |words|, |words|);
    assert found == Segment(m, 0, |words|, |words|);
  }

  lemma CompactTracksNothing(compact: PhraseDict, dict: PhraseDict, source: Int64, words: seq<string>)
    ensures CompactTracks(map[], compact, dict, source, words, [])
  {
  }

  // ---------- What a spacing variant is ----------

  /** Over a dictionary keyed by normalized name, a spacing variant of a text is an entity whose
      normalized name differs from the text and equals it once the spaces are removed. */
  lemma SpacingVariantDiffersOnlyInSpaces(compact: PhraseDict, dict: PhraseDict, source: Int64, text: string, e: Entity)
    requires CompactOf(compact, dict, dict.Keys) && KeyedByName(dict)
    requires e in SpacingOnly(compact, dict, source, text)
    ensures Normalizer.Normalize(e.name) != text
    ensures Compact(Normalizer.Normalize(e.name)) == Compact(text)
  {
    hide CompactKey, Compact;
    var name := Normalizer.Normalize(e.name);
    var ck := SourceKey(source, Compact(text));
    var level :| level in compact[ck] && e in compact[ck][level];
    assert Has(compact, ck, level, e);
    var key :| key in dict.Keys && CompactKey(key) == Some(ck) && Has(dict, key, level, e);
    var source' :| key == SourceKey(source', name);
    CompactOfSourceKey(source', name);
    SourceKeyInjective(source, Compact(text), source', Compact(name));
    assert e in Entries(dict, key) && e.id in IdsOf(Entries(dict, key));
  }

  /** The compact dictionary lists an id under a source and text exactly when some plain key of
      that source, with its spaces removed, equals the text. */
  lemma CompactAgreesWithScan(compact: PhraseDict, dict: PhraseDict, source: Int64, text: string, level: Level,
                              id: Int64)
    requires CompactOf(compact, dict, dict.Keys)
    requires forall key :: key in dict ==> exists src: Int64, t :: key == SourceKey(src, t)
    ensures HasId(compact, SourceKey(source, text), level, id)
       <==> exists t :: Compact(t) == text && HasId(dict, SourceKey(source, t), level, id)
  {
    hide CompactKey, Compact, HasId;
    var ck := SourceKey(source, text);
    if HasId(compact, ck, level, id) {
      var key :| Source(dict, dict.Keys, key, ck, level, id);
      var src: Int64, t :| key == SourceKey(src, t);
      CompactOfSourceKey(src, t);
      SourceKeyInjective(source, text, src, Compact(t));
    }
    if t :| Compact(t) == text && HasId(dict, SourceKey(source, t), level, id) {
      CompactOfSourceKey(source, t);
      IdNeedsKey(dict, SourceKey(source, t), level, id);
      assert Source(dict, dict.Keys, SourceKey(source, t), ck, level, id);
    }
  }

  lemma IdNeedsKey(dict: PhraseDict, key: string, level: Level, id: Int64)
    requires HasId(dict, key, level, id)
    ensures key in dict
  {
  }

  /** Conversely, an entity that stands under a name with other spacing, and not under the text itself,
      is found as a spacing variant. */
  lemma SpacingVariantIsFound(compact: PhraseDict, dict: PhraseDict, source: Int64, text: string, name: string,
                              level: Level,
                              e: Entity)
    requires CompactOf(compact, dict, dict.Keys)
    requires Has(dict, SourceKey(source, name), level, e) && Compact(name) == Compact(text)
    requires e.id !in IdsOf(Entries(dict, SourceKey(source, text)))
    ensures e.id in IdsOf(SpacingOnly(compact, dict, source, text))
  {
    hide CompactKey, Compact;
    var ck := SourceKey(source, Compact(text));
    CompactOfSourceKey(source, name);
    assert Source(dict, dict.Keys, SourceKey(source, name), ck, level, e.id);
    assert HasId(compact, ck, level, e.id);
    var f :| f in compact[ck][level] && f.id == e.id;
    assert f in Entries(compact, ck);
    assert f in SpacingOnly(compact, dict, source, text);
  }

  /** A normalized name without its spaces: its words one after another. */
  lemma CompactOfNormalized(name: string)
    ensures var norm := Normalizer.Normalize(name);
            Compact(norm) == Join(Fields(norm), "")
  {
    hide Compact, Fields, Normalizer.Normalize, Normalizer.KeptWords, Normalizer.Codes, Normalizer.NameWords;
    var names, codes := Normalizer.NormalizedShape(name);
    var ws := names + codes;
    forall i | 0 <= i < |ws|
      ensures ' ' !in ws[i] && ToLower(ws[i]) == ws[i]
    {
      assert i < |names| ==> Normalizer.IsNameWord(names[i]);
      assert i >= |names| ==> Normalizer.IsCode(codes[i - |names|]);
    }
    CompactOfWords(ws);
    assert LowerAll(ws) == ws;
  }

  /** Over a loaded dictionary, every location is found under its source and its normalized name
      written in one word. */
  lemma FoundInOneWord(compact: PhraseDict, dict: PhraseDict, source: Int64, name: string, level: Level, e: Entity)
    requires CompactOf(compact, dict, dict.Keys)
    requires Has(dict, SourceKey(source, Normalizer.Normalize(name)), level, e)
    ensures HasId(compact, SourceKey(source, Join(Fields(Normalizer.Normalize(name)), "")), level, e.id)
  {
    hide Normalizer.Normalize, Fields, CompactKey;
    var norm := Normalizer.Normalize(name);
    CompactOfNormalized(name);
    CompactOfSourceKey(source, norm);
    assert Source(dict, dict.Keys, SourceKey(source, norm), SourceKey(source, Compact(norm)), level, e.id);
  }

  // ---------- The index with its lazily built part ----------

  class PhraseIndex {
    var phraseDict: PhraseDict
    var compactPhraseDict: Option<PhraseDict>

    ghost predicate Valid()
      reads this
    {
      compactPhraseDict.Some? ==> CompactOf(compactPhraseDict.value, phraseDict, phraseDict.Keys)
    }

    constructor (dict: PhraseDict)
      ensures Valid() && phraseDict == dict
    {
      phraseDict, compactPhraseDict := dict, None;
    }

    method Load(ps: NameCache, cs: NameCache, ds: NameCache, ss: NameCache)
      modifies this
      ensures Valid() && DictOf(phraseDict, ps, cs, ds, ss) && compactPhraseDict.Some?
    {
      phraseDict := LoadPhraseDict(ps, cs, ds, ss);
      var compact := BuildCompactPhraseDict(phraseDict);
      compactPhraseDict := Some(compact);
    }

    method MatchCompactPhrases(source: Int64, text: string) returns (wordEntities: WordEntities)
      requires Valid()
      modifies this`compactPhraseDict
      ensures Valid() && compactPhraseDict.Some?
      ensures old(compactPhraseDict).Some? ==> compactPhraseDict == old(compactPhraseDict)
      ensures CompactTracks(wordEntities, compactPhraseDict.value, phraseDict, source, Fields(text),
                            CompactSpans(compactPhraseDict.value, phraseDict, source, Fields(text)))
    {
      if compactPhraseDict == None {
        var compact := BuildCompactPhraseDict(phraseDict);
        compactPhraseDict := Some(compact);
      }
      wordEntities := ScanCompact(compactPhraseDict.value, phraseDict, source, text);
    }
  }
}
