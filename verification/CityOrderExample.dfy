/**
 An address whose looked-up evidence is order-sensitive: "Kampung Aceh" is a village, "Aceh" and
 "Bandung" are city names that lower levels share, and "kampung" and "bandung" follow a road prefix
 elsewhere in the address.
 */
module CityOrderExample {
  import opened Text
  import opened Model
  import opened Decimal
  import opened Segmentation
  import opened Phrases
  import opened Dictionary
  import opened CityPriority
  import opened Resolution

  const VILLAGE := Entity(1, "Kampung Aceh", SubDistrict, "")
  const ACEH := Entity(2, "Kota Aceh", City, "")
  const TOWN := Entity(3, "Kota Bandung", City, "")
  const HAMLET := Entity(4, "Bandung", SubDistrict, "")

  const WORDS: seq<string> := ["kampung", "aceh", "bandung"]
  const TEXT := "kampung aceh bandung"
  const PRIORITY: PrioritySet := map["aceh" := Kota, "bandung" := Kota]
  const ROAD_TOKENS: set<string> := {"kampung", "bandung"}

  function Key(text: string): string {
    SourceKey(1, text)
  }

  /** A dictionary with the phrase, the two city names, and nothing else. */
  function Dict(): PhraseDict {
    map[Key("kampung aceh") := map[SubDistrict := [VILLAGE]],
        Key("aceh") := map[City := [ACEH]],
        Key("bandung") := map[City := [TOWN], SubDistrict := [HAMLET]]]
  }

  function Found(): WordEntities {
    map["kampung" := [VILLAGE], "aceh" := [VILLAGE], "bandung" := [TOWN, HAMLET]]
  }

  function Evidences(): seq<Evidence> {
    [Evidence(PlaceName, "kampung"), Evidence(PlaceName, "aceh"), Evidence(PlaceName, "bandung")]
  }

  function Resolved(): seq<ResolvedEvidence> {
    [ResolvedEvidence(Evidence(PlaceName, "kampung"), [VILLAGE]),
     ResolvedEvidence(Evidence(PlaceName, "aceh"), [VILLAGE]),
     ResolvedEvidence(Evidence(PlaceName, "bandung"), [TOWN, HAMLET])]
  }

  // ---------- The phrases of the text ----------

  lemma WordsOfText()
    ensures Fields(TEXT) == WORDS
  {
    assert IsWord("kampung") && IsWord("aceh") && IsWord("bandung");
    assert Join(["bandung"], " ") == "bandung";
    assert WORDS[1..][1..] == ["bandung"] && WORDS[1..] == ["aceh", "bandung"];
    assert Join(WORDS, " ") == TEXT;
    FieldsOfJoin(WORDS);
  }

  lemma KeyIsKey(text: string)
    ensures Key(text) in Dict() <==> text in {"kampung aceh", "aceh", "bandung"}
  {
    hide SourceKey;
    if Key(text) == Key("kampung aceh") {
      SourceKeyInjective(1, text, 1, "kampung aceh");
    }
    if Key(text) == Key("aceh") {
      SourceKeyInjective(1, text, 1, "aceh");
    }
    if Key(text) == Key("bandung") {
      SourceKeyInjective(1, text, 1, "bandung");
    }
  }

  lemma PhrasesOfText()
    ensures Phrase(WORDS, 0, 2) == "kampung aceh" && Phrase(WORDS, 2, 3) == "bandung"
    ensures Phrase(WORDS, 0, 3) == TEXT
  {
    assert WORDS[0..2] == ["kampung", "aceh"] && WORDS[2..3] == ["bandung"];
    assert WORDS[0..2][1..] == ["aceh"] && Join(["aceh"], " ") == "aceh";
    assert WORDS[0..3] == WORDS && WORDS[1..] == ["aceh", "bandung"] && WORDS[1..][1..] == ["bandung"];
    assert Join(["bandung"], " ") == "bandung";
  }

  lemma SpansOfText()
    ensures PhraseSpans(Dict(), 1, WORDS) == [Span(0, 2), Span(2, 3)]
  {
    hide Dict, SourceKey, Segment, Phrase;
    var m := PhraseMatch(Dict(), 1, WORDS);
    PhrasesOfText();
    KeyIsKey("kampung aceh");
    KeyIsKey("bandung");
    KeyIsKey(TEXT);
    assert |TEXT| == 20;
    assert m(0, 2) && !m(0, 3) && m(2, 3);
    LongestEndIs(m, 0, 3, 2);
    LongestEndIs(m, 2, 3, 3);
    SegmentStep(m, 0, 3, 3);
    SegmentStep(m, 2, 3, 3);
    SegmentEnd(m, 3, 3);
  }

  // ---------- The words' entities ----------

  lemma EntriesOfKeys()
    ensures Entries(Dict(), Key("kampung aceh")) == {VILLAGE}
    ensures Entries(Dict(), Key("bandung")) == {TOWN, HAMLET}
  {
    hide SourceKey;
    KeyIsKey("kampung aceh");
    KeyIsKey("bandung");
    if Key("kampung aceh") == Key("aceh") {
      SourceKeyInjective(1, "kampung aceh", 1, "aceh");
    }
    if Key("kampung aceh") == Key("bandung") {
      SourceKeyInjective(1, "kampung aceh", 1, "bandung");
    }
    if Key("aceh") == Key("bandung") {
      SourceKeyInjective(1, "aceh", 1, "bandung");
    }
    var village, city := Dict()[Key("kampung aceh")], Dict()[Key("bandung")];
    assert village == map[SubDistrict := [VILLAGE]];
    assert city == map[City := [TOWN], SubDistrict := [HAMLET]];
    EntitiesOfLevels();
  }

  lemma EntitiesOfLevels()
    ensures LevelEntities(map[SubDistrict := [VILLAGE]]) == {VILLAGE}
    ensures LevelEntities(map[City := [TOWN], SubDistrict := [HAMLET]]) == {TOWN, HAMLET}
  {
    var village: ByLevel, city: ByLevel := map[SubDistrict := [VILLAGE]], map[City := [TOWN], SubDistrict := [HAMLET]];
    assert VILLAGE in village[SubDistrict] && TOWN in city[City] && HAMLET in city[SubDistrict];
    assert VILLAGE in LevelEntities(village) && TOWN in LevelEntities(city) && HAMLET in LevelEntities(city);
    forall e | e in LevelEntities(village)
      ensures e == VILLAGE
    {
      var l :| l in village && e in village[l];
    }
    forall e | e in LevelEntities(city)
      ensures e == TOWN || e == HAMLET
    {
      var l :| l in city && e in city[l];
    }
  }

  lemma SpansGive()
    ensures SpanEntities(Dict(), 1, WORDS, Span(0, 2)) == {VILLAGE}
    ensures SpanEntities(Dict(), 1, WORDS, Span(2, 3)) == {TOWN, HAMLET}
  {
    hide Dict, SourceKey, Phrase, Entries;
    PhrasesOfText();
    EntriesOfKeys();
    assert WORDS[0..2][0] != WORDS[0..2][1];
    assert !Repeated(WORDS[0..2]) && !Repeated(WORDS[2..3]);
  }

  lemma WordsOfSpans(w: string)
    ensures SpanHas(WORDS, Span(0, 2), w) <==> w == "kampung" || w == "aceh"
    ensures SpanHas(WORDS, Span(2, 3), w) <==> w == "bandung"
  {
    assert WORDS[0..2] == ["kampung", "aceh"] && WORDS[2..3] == ["bandung"];
  }

  /** The matcher finds exactly these entities. */
  lemma TextIsMatched()
    ensures Tracks(Found(), Dict(), 1, Fields(TEXT), PhraseSpans(Dict(), 1, Fields(TEXT)))
  {
    hide Dict, SourceKey, SpanEntities, PhraseSpans, SpanHas, Fields;
    WordsOfText();
    SpansOfText();
    SpansGive();
    var spans := [Span(0, 2), Span(2, 3)];
    assert spans == [Span(0, 2)] + [Span(2, 3)] && [] + [Span(0, 2)] == [Span(0, 2)];
    forall w
      ensures At(Found(), w) == Gathered(Dict(), 1, WORDS, spans, w)
    {
      WordsOfSpans(w);
      GatheredSnoc(Dict(), 1, WORDS, [], Span(0, 2), w);
      GatheredSnoc(Dict(), 1, WORDS, [Span(0, 2)], Span(2, 3), w);
      EntitiesFound(w);
    }
  }

  lemma EntitiesFound(w: string)
    ensures At(Found(), w)
         == if w == "kampung" || w == "aceh" then {VILLAGE} else if w == "bandung" then {TOWN, HAMLET} else {}
  {
    assert [VILLAGE][0] == VILLAGE && [TOWN, HAMLET][0] == TOWN && [TOWN, HAMLET][1] == HAMLET;
  }

  lemma AllIsLookedUp()
    ensures |Resolved()| == |Evidences()|
    ensures forall i :: 0 <= i < |Resolved()| ==> LooksUp(Resolved()[i], Evidences()[i], Found(), map[])
  {
    assert [VILLAGE][1..] == [] && [TOWN, HAMLET][1..] == [HAMLET] && [HAMLET][1..] == [];
    assert [] + [VILLAGE] == [VILLAGE] && [] + [TOWN] == [TOWN] && [TOWN] + [HAMLET] == [TOWN, HAMLET];
    assert TOWN.id !in Ids([]) && HAMLET.id !in Ids([TOWN]) && VILLAGE.id !in Ids([]);
    assert AppendUnique([], [VILLAGE]) == AppendUnique([VILLAGE], []);
    assert AppendUnique([], [TOWN, HAMLET]) == AppendUnique([TOWN], [HAMLET]) == AppendUnique([TOWN, HAMLET], []);
  }

  // ---------- Its visiting order matters ----------

  /** The lookup yields this evidence, and two orders of visiting it give different results. */
  lemma OrderMattersForLookedUpEvidence() returns (order: seq<nat>, order': seq<nat>)
    ensures Tracks(Found(), Dict(), 1, Fields(TEXT), PhraseSpans(Dict(), 1, Fields(TEXT)))
    ensures |Resolved()| == |Evidences()|
    ensures forall i :: 0 <= i < |Resolved()| ==> LooksUp(Resolved()[i], Evidences()[i], Found(), map[])
    ensures OrdersDiffer(Resolved(), order, order', PRIORITY, ROAD_TOKENS)
  {
    hide Tracks, LooksUp;
    TextIsMatched();
    AllIsLookedUp();
    IsSensitive();
    OrderMattersExactly(Resolved(), PRIORITY, ROAD_TOKENS);
    order, order' :| OrdersDiffer(Resolved(), order, order', PRIORITY, ROAD_TOKENS);
  }

  lemma IsSensitive()
    ensures OrderSensitive(Resolved(), PRIORITY, ROAD_TOKENS)
  {
    hide Focus;
    var res := Resolved();
    assert Pinner(res[1], ROAD_TOKENS) && !HasCity(res[1]);
    assert PinnersAre(res, "aceh", PRIORITY, ROAD_TOKENS);
    FocusKeepsCities(res[2], Kota);
    assert res[2].candidates[1] == HAMLET;
    assert Waits(res[2], PRIORITY, ROAD_TOKENS);
  }
}
