/**
 Fuzzy lookup: an index from compact names and name words to entities, and the search for the
 entities whose key is most similar to a span of the address.
 */
module FuzzyTargets {
  import opened Wrappers
  import opened Text
  import opened Model
  import opened Decimal
  import opened EditDistance
  import opened Dictionary

  const MIN_KEY_LENGTH := 4

  type Targets = map<string, seq<Entity>>

  // ---------- The index ----------

  /** A full name without spaces, then its words one by one. */
  function NameKeys(name: string): seq<string> {
    [Compact(ToLower(name))] + CompactAll(Fields(ToLower(name)))
  }

  function CompactAll(ws: seq<string>): (r: seq<string>)
    ensures |r| == |ws| && forall i :: 0 <= i < |ws| ==> r[i] == Compact(ws[i])
  {
    if ws == [] then [] else [Compact(ws[0])] + CompactAll(ws[1..])
  }

  /** May the entity be found under the key? */
  ghost predicate FoundUnder(e: Entity, k: string) {
    |k| >= MIN_KEY_LENGTH && k in NameKeys(e.name)
  }

  /** For a name with single spaces: its lowered words run together, or any one of them, when that has
      four characters or more. */
  lemma FoundUnderWords(e: Entity, ws: seq<string>, k: string)
    requires AllWords(ws) && e.name == Join(ws, " ")
    ensures FoundUnder(e, k) <==> |k| >= 4 && (k == Join(LowerAll(ws), "") || exists i :: 0 <= i < |ws| && k == ToLower(ws[i]))
  {
    hide Compact, Fields, NameKeys, ToLower;
    KeysOfWords(ws);
    var lower := LowerAll(ws);
    assert k in lower <==> exists i :: 0 <= i < |ws| && k == lower[i];
  }

  lemma KeysOfWords(ws: seq<string>)
    requires AllWords(ws)
    ensures NameKeys(Join(ws, " ")) == [Join(LowerAll(ws), "")] + LowerAll(ws)
  {
    hide Compact, Fields, ToLower;
    var lower := LowerAll(ws);
    LoweredWords(ws);
    WordsHaveNoSpaces(ws);
    LowerOfJoin(ws);
    CompactOfWords(ws);
    CompactOfLowered(Join(ws, " "));
    FieldsOfJoin(lower);
    CompactOfLoweredWords(ws);
  }

  lemma CompactOfLoweredWords(ws: seq<string>)
    requires AllWords(ws)
    ensures CompactAll(LowerAll(ws)) == LowerAll(ws)
  {
    hide Compact, ToLower;
    var lower := LowerAll(ws);
    LoweredWords(ws);
    WordsHaveNoSpaces(lower);
    forall i | 0 <= i < |lower|
      ensures CompactAll(lower)[i] == lower[i]
    {
      CompactOfOne(lower[i]);
      ToLowerTwice(ws[i]);
    }
  }

  lemma WordsHaveNoSpaces(ws: seq<string>)
    requires AllWords(ws)
    ensures forall i :: 0 <= i < |ws| ==> ' ' !in ws[i]
  {
    forall i | 0 <= i < |ws|
      ensures ' ' !in ws[i]
    {
      assert IsWord(ws[i]);
    }
  }

  lemma CompactOfLowered(s: string)
    ensures Compact(ToLower(s)) == Compact(s)
  {
    ToLowerTwice(s);
  }

  lemma LoweredWords(ws: seq<string>)
    requires AllWords(ws)
    ensures AllWords(LowerAll(ws))
  {
    forall i | 0 <= i < |ws|
      ensures IsWord(ToLower(ws[i]))
    {
      assert IsWord(ws[i]);
    }
  }

  lemma {:induction false} LowerOfJoin(ws: seq<string>)
    ensures ToLower(Join(ws, " ")) == Join(LowerAll(ws), " ")
  {
    hide ToLower;
    if |ws| == 0 {
      LowerOfNothing();
    } else if |ws| > 1 {
      var rest := ws[1..];
      LowerOfJoin(rest);
      LowerOfNothing();
      ToLowerConcat(ws[0] + " ", Join(rest, " "));
      ToLowerConcat(ws[0], " ");
      assert LowerAll(ws) == [ToLower(ws[0])] + LowerAll(rest) && LowerAll(ws)[1..] == LowerAll(rest);
    }
  }

  lemma LowerOfNothing()
    ensures ToLower("") == "" && ToLower(" ") == " "
  {
  }

  ghost predicate Listed(t: Targets, k: string, e: Entity) {
    k in t && e in t[k]
  }

  /** The index lists every entity under its keys and nothing else; no key is empty-handed. */
  ghost predicate TargetsOf(t: Targets, es: seq<Entity>) {
    && (forall k, e :: Listed(t, k, e) <==> e in es && FoundUnder(e, k))
    && (forall k :: k in t ==> t[k] != [])
  }

  /** What adding the first n keys of one more entity leaves. */
  ghost predicate PartlyAdded(t: Targets, t0: Targets, e: Entity, keys: seq<string>) {
    && (forall k, f :: Listed(t, k, f) <==> Listed(t0, k, f) || (f == e && |k| >= MIN_KEY_LENGTH && k in keys))
    && (forall k :: k in t ==> t[k] != [])
  }

  method AddKey(t: Targets, ghost t0: Targets, ghost keys: seq<string>, key: string, e: Entity) returns (r: Targets)
    requires PartlyAdded(t, t0, e, keys)
    ensures PartlyAdded(r, t0, e, keys + [key])
  {
    if |key| < MIN_KEY_LENGTH {
      return t;
    }
    r := t[key := (if key in t then t[key] else []) + [e]];
    forall k, f
      ensures Listed(r, k, f) <==> Listed(t0, k, f) || (f == e && |k| >= MIN_KEY_LENGTH && k in keys + [key])
    {
      assert Listed(r, k, f) <==> Listed(t, k, f) || (k == key && f == e);
    }
  }

  /** Adds one entity under its full name and under every word of it. */
  method AddEntity(t: Targets, e: Entity) returns (targets: Targets)
    requires forall k :: k in t ==> t[k] != []
    ensures PartlyAdded(targets, t, e, NameKeys(e.name))
  {
    hide Compact, ToLower, Fields, Listed;
    var norm := ToLower(e.name);
    ghost var full := [Compact(norm)];
    assert PartlyAdded(t, t, e, []);
    hide PartlyAdded;
    targets := AddKey(t, t, [], Compact(norm), e);
    assert [] + [Compact(norm)] == full;
    var words := Fields(norm);
    ghost var compact := CompactAll(words);
    assert full + compact[..0] == full;
    for k := 0 to |words|
      invariant PartlyAdded(targets, t, e, full + compact[..k])
    {
      targets := AddKey(targets, t, full + compact[..k], Compact(words[k]), e);
      assert full + compact[..k + 1] == full + compact[..k] + [Compact(words[k])];
    }
    assert compact[..|words|] == compact;
  }

  method BuildMatchTargets(entities: seq<Entity>) returns (targets: Targets)
    ensures TargetsOf(targets, entities)
  {
    targets := map[];
    assert TargetsOf(targets, entities[..0]);
    hide PartlyAdded, TargetsOf, NameKeys;
    for i := 0 to |entities|
      invariant TargetsOf(targets, entities[..i])
    {
      ghost var before := targets;
      NoEmptyKey(targets, entities[..i]);
      targets := AddEntity(targets, entities[i]);
      OneMoreEntity(targets, before, entities[..i], entities[i]);
      assert entities[..i + 1] == entities[..i] + [entities[i]];
    }
    assert entities[..|entities|] == entities;
  }

  lemma NoEmptyKey(t: Targets, es: seq<Entity>)
    requires TargetsOf(t, es)
    ensures forall k :: k in t ==> t[k] != []
  {
    hide FoundUnder;
  }

  lemma OneMoreEntity(t: Targets, t0: Targets, es: seq<Entity>, e: Entity)
    requires TargetsOf(t0, es) && PartlyAdded(t, t0, e, NameKeys(e.name))
    ensures TargetsOf(t, es + [e])
  {
    hide NameKeys;
    forall k, f
      ensures Listed(t, k, f) <==> f in es + [e] && FoundUnder(f, k)
    {
      assert f in es + [e] <==> f in es || f == e;
    }
  }

  // ---------- The most similar keys ----------

  /** No key is more similar to the span. */
  ghost predicate MostSimilar(t: Targets, span: string, k: string) {
    k in t && forall l :: l in t ==> Similarity(span, l) <= Similarity(span, k)
  }

  /** Does some key of the index clear the threshold? */
  ghost predicate SpanMatches(t: Targets, span: string) {
    |span| >= MIN_KEY_LENGTH && exists k :: k in t && Similarity(span, k) >= MATCH_THRESHOLD
  }

  /** The entity is listed under a most similar key. */
  ghost predicate Attains(t: Targets, span: string, e: Entity) {
    exists k :: MostSimilar(t, span, k) && Listed(t, k, e)
  }

  /** The greatest similarity of any key, visited in no particular order. */
  method BestSimilarity(span: string, targets: Targets) returns (best: real)
    ensures best >= 0.0 && forall k :: k in targets ==> Similarity(span, k) <= best
    ensures best > 0.0 ==> exists k :: k in targets && Similarity(span, k) == best
  {
    hide Similarity;
    best := 0.0;
    var todo := targets.Keys;
    while todo != {}
      invariant todo <= targets.Keys && best >= 0.0
      invariant forall k :: k in targets && k !in todo ==> Similarity(span, k) <= best
      invariant best > 0.0 ==> exists k :: k in targets && Similarity(span, k) == best
      decreases todo
    {
      var k :| k in todo;
      todo := todo - {k};
      var s := DamerauSimilarity(span, k);
      if s > best {
        best := s;
      }
    }
  }

  /** Appends the entities whose id has not been seen. */
  method AppendUnseen(out: seq<Entity>, seen: set<Int64>, ents: seq<Entity>) returns (out': seq<Entity>,
                      seen': set<Int64>)
    requires seen == Ids(out)
    ensures out' == AppendUnique(out, ents) && seen' == Ids(out')
  {
    hide Ids;
    out', seen' := out, seen;
    for i := 0 to |ents|
      invariant seen' == Ids(out')
      invariant AppendUnique(out, ents) == AppendUnique(out', ents[i..])
    {
      assert ents[i..][1..] == ents[i + 1..];
      if ents[i].id !in seen' {
        IdsSnoc(out', ents[i]);
        seen' := seen' + {ents[i].id};
        out' := out' + [ents[i]];
      }
    }
  }

  /** All entities under the most similar keys, each id once; None below the threshold. */
  ghost predicate BestMatch(r: Option<seq<Entity>>, span: string, targets: Targets) {
    match r
    case None => !SpanMatches(targets, span)
    case Some(out) =>
      && SpanMatches(targets, span)
      && NoRepeats(out)
      && (forall e :: e in out ==> Attains(targets, span, e))
      && (forall e :: Attains(targets, span, e) ==> e.id in Ids(out))
  }

  method BestSpanMatch(span: string, targets: Targets) returns (r: Option<seq<Entity>>)
    ensures BestMatch(r, span, targets)
    ensures r.Some? && (forall k :: k in targets ==> targets[k] != []) ==> r.value != []
  {
    hide Similarity;
    if |span| < MIN_KEY_LENGTH {
      return None;
    }
    var best := BestSimilarity(span, targets);
    if best < MATCH_THRESHOLD {
      return None;
    }
    assert forall k :: k in targets ==> (Similarity(span, k) == best <==> MostSimilar(targets, span, k));
    var out := CollectBest(span, targets, best);
    ghost var k :| k in targets && MostSimilar(targets, span, k);
    assert targets[k] != [] ==> Listed(targets, k, targets[k][0]);
    assert targets[k] != [] ==> Attains(targets, span, targets[k][0]);
    assert targets[k] != [] ==> targets[k][0].id in Ids(out);
    return Some(out);
  }

  method CollectBest(span: string, targets: Targets, best: real) returns (out: seq<Entity>)
    requires forall k :: k in targets ==> Similarity(span, k) <= best
    requires forall k :: k in targets ==> (Similarity(span, k) == best <==> MostSimilar(targets, span, k))
    ensures NoRepeats(out)
    ensures forall e :: e in out ==> Attains(targets, span, e)
    ensures forall e :: Attains(targets, span, e) ==> e.id in Ids(out)
  {
    hide Similarity, NoRepeats, Ids;
    var seen: set<Int64> := {};
    out := [];
    NothingCollected();
    var todo := targets.Keys;
    while todo != {}
      invariant todo <= targets.Keys
      invariant seen == Ids(out) && NoRepeats(out)
      invariant forall e :: e in out ==> Attains(targets, span, e)
      invariant forall k, e :: k in targets && k !in todo && MostSimilar(targets, span, k) && e in targets[k] ==> e.id in Ids(out)
      decreases todo
    {
      var k :| k in todo;
      todo := todo - {k};
      var s := DamerauSimilarity(span, k);
      if s < best {
        continue;
      }
      AppendUniqueKeeps(out, targets[k]);
      IdsMember(targets[k]);
      assert forall e :: e in targets[k] ==> Listed(targets, k, e);
      out, seen := AppendUnseen(out, seen, targets[k]);
    }
  }

  lemma NothingCollected()
    ensures Ids([]) == {} && NoRepeats([])
  {
  }

  lemma IdsMember(es: seq<Entity>)
    ensures forall e :: e in es ==> e.id in Ids(es)
  {
  }

  /** What a match means by the entities' own names: some key of the entity attains the greatest
      similarity that any key of any entity has, and that is at least 0.8. */
  lemma AttainsByName(t: Targets, es: seq<Entity>, span: string, e: Entity)
    requires TargetsOf(t, es)
    ensures Attains(t, span, e) <==>
              exists k :: e in es && FoundUnder(e, k)
                          && forall f, l :: f in es && FoundUnder(f, l) ==> Similarity(span, l) <= Similarity(span, k)
    ensures SpanMatches(t, span) && Attains(t, span, e) ==>
              exists k :: FoundUnder(e, k) && Similarity(span, k) >= MATCH_THRESHOLD
  {
    hide Similarity, FoundUnder;
    forall l | l in t
      ensures exists f :: f in es && FoundUnder(f, l)
    {
      assert t[l][0] in t[l];
      assert Listed(t, l, t[l][0]);
    }
    if k :| MostSimilar(t, span, k) && Listed(t, k, e) {
      forall f, l | f in es && FoundUnder(f, l)
        ensures Similarity(span, l) <= Similarity(span, k)
      {
        assert Listed(t, l, f);
      }
      if SpanMatches(t, span) {
        var l :| l in t && Similarity(span, l) >= MATCH_THRESHOLD;
        assert Similarity(span, k) >= MATCH_THRESHOLD;
      }
    }
    if k :| e in es && FoundUnder(e, k)
            && forall f, l :: f in es && FoundUnder(f, l) ==> Similarity(span, l) <= Similarity(span, k) {
      assert Listed(t, k, e);
      assert MostSimilar(t, span, k);
    }
  }

  /** With one entity per id, the match is exactly the set of attaining entities. */
  lemma BestMatchIsTheSet(r: Option<seq<Entity>>, span: string, t: Targets, es: seq<Entity>)
    requires TargetsOf(t, es) && NoRepeats(es) && BestMatch(r, span, t) && r.Some?
    ensures forall e :: e in r.value <==> Attains(t, span, e)
  {
    hide Similarity, FoundUnder;
    forall e | Attains(t, span, e)
      ensures e in r.value
    {
      var f :| f in r.value && f.id == e.id;
      assert Attains(t, span, f);
      assert e in es && f in es;
    }
  }
}
