# Address quality: verified model

This project models the deterministic core of an Indonesian address-validation service written in
Go, together with its two small concurrent components, and proves what the core is relied on for.

A validation goes through these stages, each a module here:

1. **Normalizing** (`Normalizer`, over `Text`): lowercase words, then postal codes.
2. **Exact resolution** (`Segmentation`, `Phrases`, `CompactPhrases`, `Dictionary`, `CityPriority`,
   `Resolution`, and `CityOrderExample`): leftmost-longest phrase matching over the name dictionary, a second dictionary with
   white space removed, the rule that lets a lone city name prevail, and the fallback between them.
3. **Candidates** (`Candidates`, `Deduplication`, `Conclusions`, `Pipeline`, over `Decimal` and
   `Hierarchy`): one candidate per distinct region, filled upwards along the hierarchy maps.
4. **Contextual recovery** (`EditDistance`, `TriangleInequality`, `Fractions`, `FuzzyTargets`, `Neighborhood`, `Frontier`, `Recovery`,
   `RecoverySafety`): unexplained words are compared, by restricted Damerau-Levenshtein similarity,
   with the names around the best-supported candidates.
5. **Evaluation** (`Evaluation`, `Confidence`, `ConfidenceRange`, `Ranking`, `KnownRegions`, `Validation`):
   conflicts, confidence, ranking, and the reported status; `ConflictCounts` and `ScoreTable` say in plain terms
   what the detectors find and what the weights are.

`WorkerQueue` and `Geocode` are the concurrent components, modelled as step systems in which any
number of participants interleave in any order.

## How it is built

- Code that works by loops and updates is written as methods with loops, on arrays and class fields
  where the original updates in place (`FillRow`, `Slot`, `CandidateRef`, `HierarchyTable`,
  `LocationIndex`, `PhraseIndex`, `Queue`, `GeocodeService`, `AppendVariants`, `EnrichCandidates`).
  Each such method is proved equal to a specification function or predicate, and the properties
  are lemmas about these. The specification functions have lemmas that say what they mean in other words,
  with the constants as plain numbers.
- A Go map that is ranged over is visited in an arbitrary order (`:|`), so every contract holds for
  all orders.
- Scores are whole hundredths and similarity and coverage are exact fractions. The 0.8 threshold is
  therefore `5 * distance <= longest`, which `EditDistance.SimilarityLaws` states.
- `Normalize`'s regular expressions, `strings.Fields`, `ToLower` and the rest are written out
  character by character.
- Ids are 64-bit integers (`Int64`); they are positive in the schema (`db/location.sql`), and the results
  that need it say so.

## Three results that span the stages

- `Validation.RecoveryNeverLowers`: whatever recovery finds, every candidate of the first pass is still
  there after the rebuild, at the same location, and its confidence is at least what it would have been. The
  hypotheses are on the inputs: positive ids, and regions that all come from one table.
- `Validation.ReportedStatusIsSound`: over hierarchy maps as they are loaded, a validation never
  reports a conflict, although five detectors look for one.
- `WorkerQueue.ClosedQueueDrains`: whatever the interleaving, a closed queue has a fixed number of
  worker steps left; when they are spent every accepted job has been handled, and until then some
  worker can step.

## Where the code does less than one might expect

- ABOUT.md says that confidence is kept within 0 and 1. The code subtracts the penalty for unused
  evidence after the upper cap and has no lower bound. `ConfidenceRange.NonNegativeExactly` says exactly when
  the documented range is kept, and that five unused items never break it;
  `ConfidenceRange.ConfidenceCanBeNegative` is a candidate with six and a confidence of -0.03.
- Normalizing twice is not the same as normalizing once: "kab, bandung" changes again in a second pass.
  `Normalizer.NormalizeIdempotent` states exactly for which inputs a second pass changes nothing.
- The restricted edit distance is no metric. `TriangleInequality.TriangleThrough` states exactly through which
  strings no detour is shorter, `TriangleInequality.TriangleWithoutSwaps` a check on the two legs.
- The city rule is applied item by item to a list that it changes. `CityPriority.OrderMattersExactly` states
  exactly for which evidence the order matters; `CityOrderExample` has an address that yields such evidence.
- A city reached from below whose province is not known is reported as a conflict although the evidence
  agrees; `Pipeline.ConflictExactlyForOrphans` states exactly when.

## Model

| member | source | states |
|---|---|---|
| `Normalizer.NormalizeName` | internal/normalizer/normalizer.go:33-57 | the word loop and the four rewriting steps compute `Normalize` |
| `Normalizer.NormalForm` | internal/normalizer/normalizer.go:33-57 | collapsing, stripping and trimming amount to: letters of the kept words, then the five-digit codes, joined by single spaces |
| `Normalizer.NormalizedShape` | internal/normalizer/normalizer.go:33-57 | every output splits back into lowercase ASCII words followed by five-digit codes |
| `Normalizer.NormalizeIdempotent` | internal/normalizer/normalizer.go:33-57 | a second pass is the identity if and only if no kept word becomes an administrative word once its punctuation is gone |
| `Normalizer.NormalizeNotIdempotent` | internal/normalizer/normalizer.go:33-57 | "kab, bandung" needs two passes |
| `Normalizer.KeptWordsMembers` | internal/normalizer/normalizer.go:11-43 | the kept words are the lowered words of the text except the fifteen administrative ones |
| `Normalizer.EscapedNewlineSeparates` | internal/normalizer/normalizer.go:34-36 | an escaped newline keeps the words of its two sides apart |
| `Normalizer.CodesAreFiveDigitWords` | internal/normalizer/normalizer.go:31-46 | without punctuation, the codes are exactly the kept words of five digits: four or six digits, or digits beside letters, make none |
| `EditDistance.FillRow` | internal/service/fuzzy_context.go:409-422 | the inner loop fills the new row of the table, reading the transposition from the row two back |
| `EditDistance.DamerauLevenshtein` | internal/service/fuzzy_context.go:391-426 | the three rotating rows compute the recursive distance, for all pairs of strings |
| `EditDistance.DistanceIsOptimal` | internal/service/fuzzy_context.go:388-426 | an edit script of that cost exists and no restricted edit script is cheaper |
| `EditDistance.DistanceLaws` | internal/service/fuzzy_context.go:388-426 | symmetric; zero only for equal strings; between the length difference and the longer length |
| `TriangleInequality.TriangleThrough` | internal/service/fuzzy_context.go:388-426 | the exact condition on a string in between: no detour through it is ever shorter if and only if it is one character repeated |
| `TriangleInequality.TriangleWithoutSwaps` | internal/service/fuzzy_context.go:388-426 | the triangle inequality holds whenever plain Levenshtein distance equals the distance on both legs |
| `TriangleInequality.TriangleOfSwapFree` | internal/service/fuzzy_context.go:388-426 | it holds whenever each leg has a cheapest script without a swap |
| `TriangleInequality.TriangleFails` | internal/service/fuzzy_context.go:388-426 | "ca" to "ac" to "abc" takes two edits, "ca" to "abc" three |
| `EditDistance.DamerauSimilarity` | internal/service/fuzzy_context.go:428-434 | one minus the distance over the longer length, and 1 for two empty strings |
| `EditDistance.SimilarityLaws` | internal/service/fuzzy_context.go:428-434 | within 0 and 1; 1 only for equal strings; symmetric; at least 0.8 exactly when five times the distance is at most the longer length |
| `Segmentation.SegmentIsLeftmostLongest` | internal/service/validate_helper.go:300-358 | the greedy scan yields disjoint increasing spans, each the longest match at its start, with no match starting at an uncovered position |
| `Segmentation.LeftmostLongestUnique` | internal/service/validate_helper.go:300-358 | no other list of spans has these properties |
| `Phrases.RepeatedPhrase` | internal/service/validate_helper.go:461-468 | true exactly for more than one word, all equal |
| `Phrases.AppendLevels` | internal/service/validate_helper.go:324-329 | the union of the entities of all levels, whatever the order of the levels |
| `Phrases.MatchPhrases` | internal/service/validate_helper.go:300-358 | each word gets exactly the union over the leftmost-longest spans that contain it, and for spans of one repeated word also the word's own entry |
| `Phrases.RepeatedWordKeepsItsOwn` | internal/service/validate_helper.go:341-352 | a phrase of one repeated word gives that word its own entities besides the phrase's |
| `Phrases.OtherPhrasesAlone` | internal/service/validate_helper.go:322-333 | any other phrase gives its own entities alone |
| `Dictionary.LoadRegions` | internal/service/validate_helper.go:98-190 | the name cache lists every row under its source and normalized name and nothing else; every row is found by id |
| `Dictionary.LoadPhraseDict` | internal/service/validate_helper.go:244-291 | the plain dictionary holds, per key and level, exactly the cached regions |
| `CompactPhrases.PhraseIndex.Load` | internal/service/validate_helper.go:244-293 | the loader fills the plain dictionary and, from it, the compact one |
| `Dictionary.LoadedIsKeyedByName` | internal/service/validate_helper.go:98-293 | every entity of a loaded dictionary stands under its own normalized name |
| `Dictionary.DictionaryOfRows` | internal/service/validate_helper.go:98-293 | the loaded dictionary holds exactly the database rows: each under its source and normalized name, with its id, name, level and, for cities and sub-districts, postal code |
| `Dictionary.RowsAreIndexed` | internal/service/validate_helper.go:98-190 | with distinct ids, every row is found under its id with its own name and postal code |
| `Dictionary.AppendUniqueEntities` | internal/service/validate_helper.go:383-396 | the seen map computes `AppendUnique` |
| `Dictionary.AppendUniqueKeeps` | internal/service/validate_helper.go:383-396 | the old list is a prefix of the new one, ids are the union, no id is repeated that was not before |
| `CompactPhrases.BuildCompactPhraseDict` | internal/service/validate_helper.go:363-381 | the compact dictionary holds an id under a key exactly when a plain key with its spaces removed has it |
| `CompactPhrases.CompactAgreesWithScan` | internal/service/validate_helper.go:363-381 | an id is under source and text exactly when some plain text of that source, compacted, equals the text |
| `CompactPhrases.FoundInOneWord` | internal/service/validate_helper.go:363-381 | every location is found under its source and the words of its normalized name run together |
| `CompactPhrases.ScanCompact` | internal/service/validate_helper.go:402-457 | each word gets the spacing-only entities of the leftmost-longest spans that contain it |
| `CompactPhrases.SpacingVariantDiffersOnlyInSpaces` | internal/service/validate_helper.go:402-440 | such an entity's normalized name differs from the text and equals it once spaces are removed |
| `CompactPhrases.SpacingVariantIsFound` | internal/service/validate_helper.go:402-440 | conversely, an entity under a name with other spacing, and not under the text itself, is found |
| `Text.CompactOfWords` | internal/service/fuzzy_context.go:372-374 | removing the spaces of a spaced text gives its lowered words one after another |
| `CompactPhrases.PhraseIndex.MatchCompactPhrases` | internal/service/validate_helper.go:402-457 | builds the compact dictionary on first use only, then scans |
| `CityPriority.HasOtherLocationEvidence` | internal/service/resolve.go:152-171 | some other resolved place name or postal code that is no road token |
| `CityPriority.KeepCities` | internal/service/resolve.go:128-135 | the in-place filter leaves exactly the cities, in order |
| `CityPriority.SortPreferredFirst` | internal/service/resolve.go:137-145 | the stable sort puts the preferred city type first and keeps the order otherwise |
| `CityPriority.ApplyCityPriority` | internal/service/resolve.go:110-147 | in place on the candidate slices: each item in turn is narrowed exactly when it is a lone priority token, nothing else changes |
| `CityPriority.FocusKeepsCities` | internal/service/resolve.go:128-145 | a narrowed token keeps exactly its city candidates |
| `CityPriority.CityTypeByName` | internal/service/resolve.go:174-179 | KOTA exactly for names that start with "Kota " |
| `CityPriority.FocusOrder` | internal/service/resolve.go:137-145 | cities of the preferred type first, each type in its old order, none lost or doubled |
| `CityPriority.PostalCodePins` | internal/service/resolve.go:152-171 | a resolved postal code switches the rule off for all tokens |
| `CityPriority.TwoPlacesPin` | internal/service/resolve.go:152-171 | so do two resolved place names that are no road names |
| `CityPriority.RoadNamesNeverPin` | internal/service/resolve.go:152-171 | road names and unresolved words never switch it off |
| `CityPriority.NobodyLoneNoChange` | internal/service/resolve.go:110-147 | when the rule is off for all tokens, no visit changes anything |
| `CityPriority.LoneTokenOutcome` | internal/service/resolve.go:110-147 | a lone token ends with exactly its cities, one of the preferred type first if there is one |
| `CityPriority.VisitingOrderIrrelevant` | internal/service/resolve.go:110-147 | unless the evidence is order-sensitive, every visiting order gives each item the outcome judged on the original evidence |
| `CityPriority.OrderMattersExactly` | internal/service/resolve.go:110-147 | two visiting orders can differ if and only if all location evidence is priority tokens of one value without a city, and another priority token that follows a road prefix could be narrowed |
| `CityPriority.UsuallyInsensitive` | internal/service/resolve.go:110-147 | so the order never matters when every resolved priority token has a city, or when no priority token is a road token |
| `CityOrderExample.OrderMattersForLookedUpEvidence` | internal/service/resolve.go:14-55 | evidence that phrase matching and lookup yield for a text, and for which two visiting orders differ |
| `Resolution.ResolvePostalCodeEntity` | internal/service/resolve.go:181-196 | the cached sub-districts with that code, each as often as it is cached, with the cache entries in some order |
| `Resolution.HaveCodeMembers` | internal/service/resolve.go:181-196 | exactly the cached sub-districts with that code are there |
| `Resolution.ResolvePlaceNameEntity` | internal/service/resolve.go:198-214 | the word's entities, first occurrence of each id |
| `Resolution.LookUpMeans` | internal/service/resolve.go:23-36 | a road name resolves to nothing, a place name to each id of its word once, a postal code to the sub-districts with that code |
| `Resolution.HasHierarchyCompatibleExactSubdistrict` | internal/service/resolve.go:57-102 | true exactly when some named sub-district has a district, city and province that agree with every level that is named at all |
| `Resolution.DisagreementBlocks` | internal/service/resolve.go:57-102 | if regions of a level are named and no named sub-district leads to one of them, there is no compatible one |
| `Resolution.AgreementSuffices` | internal/service/resolve.go:57-102 | if a mapped sub-district leads, at every level that is named at all, to a named region, there is one |
| `Resolution.AppendVariants` | internal/service/resolve.go:45-51 | updates place names in place by appending new ids only |
| `Resolution.ResolveEvidence` | internal/service/resolve.go:14-55 | lookup, city rule, and spacing variants exactly when no compatible literal sub-district is named |
| `Resolution.VariantsOnlyAppend` | internal/service/resolve.go:40-52 | literal candidates stay in front, only place names change, and exactly the variants' new ids are appended |
| `Decimal.FormatInt` | internal/service/dedup.go:59-79 | every write stays inside the 20-byte buffer, for every 64-bit integer |
| `Decimal.ItoaReadsBack` | internal/service/dedup.go:59-79 | the text is the decimal form if and only if the number is not the least 64-bit integer |
| `Decimal.ItoaInjective` | internal/service/dedup.go:59-79 | different integers have different texts |
| `Decimal.KeyInjective` | internal/service/dedup.go:48-57 | keys of equally many ids are equal only for equal ids |
| `Decimal.SourceKeyInjective` | internal/service/validate_helper.go:300-320 | "source:text" keys determine both parts |
| `Deduplication.CandidateKeyInjective` | internal/service/dedup.go:31-46 | on positive ids, keys are equal exactly when the same levels are filled with the same ids |
| `Deduplication.MergeCandidates` | internal/service/dedup.go:81-109 | every strategy once, and of both lists of evidence the last item of every key, once; everything else is the first candidate's |
| `Deduplication.EvidenceKeySeparates` | internal/service/dedup.go:111-116 | evidence keys tell apart values, levels and ids, and resolved items from unresolved ones |
| `Deduplication.DeduplicateCandidates` | internal/service/dedup.go:10-29 | one candidate per key, in order of first occurrence, merged from all of that key |
| `Deduplication.DedupHasDistinctKeys` | internal/service/dedup.go:10-29 | the result's keys are distinct |
| `Deduplication.DedupIdempotent` | internal/service/dedup.go:10-29 | deduplicating again changes nothing |
| `Candidates.CollectUniqueEntities` | internal/service/builder.go:43-63 | first occurrences of ids of the non-postal evidence, grouped by level in order |
| `Candidates.OfferedMembers` | internal/service/builder.go:43-63 | exactly the candidates of items that are not postal codes are collected |
| `Candidates.DiscoverCandidates` | internal/service/builder.go:21-115 | one candidate per distinct entity with only its own level filled, provinces first |
| `Pipeline.OriginsOrdered` | internal/service/builder.go:21-63 | provinces first, sub-districts last, and within a level the order of first occurrence |
| `Pipeline.OriginRegion` | internal/service/builder.go:65-115 | the origin's region carries the entity's id, name and normalized name, and a city's or sub-district's postal code |
| `Conclusions.EnrichCandidates` | internal/service/enrich.go:11-65 | fills district, city, province and postal code in place for every candidate |
| `Pipeline.ParentsFilled` | internal/service/enrich.go:16-56 | a level above the origin is filled exactly when the maps name a parent that has an entry, with that entry's id and name |
| `Pipeline.PostalOfOrigin` | internal/service/enrich.go:57-62 | the postal code is the sub-district's own, when the origin is a sub-district that has one, and else there is none |
| `Conclusions.MatchEvidenceToCandidate` | internal/service/builder.go:186-202 | all evidence that names a region of the candidate, in order |
| `ConfidenceRange.MatchedExactly` | internal/service/builder.go:186-216 | the evidence of a candidate is every naming of a region that fills its level, and nothing else |
| `Conclusions.BuildConclusions` | internal/service/builder.go:117-167 | first candidate per key, with its evidence, fuller locations first |
| `Ranking.FullestComesFirst` | internal/service/builder.go:157-164 | concluded candidates come with the fullest location first |
| `Ranking.CountsFilledLevels` | internal/service/builder.go:169-184 | the count is the number of filled levels |
| `Hierarchy.RebuildLocationHierarchy` | internal/database/location.go:246-386 | the batched rebuild writes the unbatched rows in order: 4000 rows in every statement but the last, none empty |
| `Hierarchy.SplitAtDot` | internal/database/location.go:343-350 | the text before the first dot of a code is its first part |
| `Hierarchy.FreshTableTakesAll` | internal/database/location.go:246-386 | into an empty table all rows of distinct sub-districts go, in order |
| `Hierarchy.RebuildStoresAll` | internal/database/location.go:246-386 | from sub-districts with distinct ids, rebuilding an empty table stores every computed row in order |
| `Hierarchy.RebuiltRowsConsistent` | internal/database/location.go:309-378 | from codes with distinct ids, equal districts have equal cities and equal cities equal provinces |
| `Hierarchy.LoadFullHierarchy` | internal/database/location.go:840-873 | the row loop computes the last-write maps |
| `Hierarchy.LoadCityProvinceMapping` | internal/database/location.go:875-900 | the row loop computes the first-write map |
| `Hierarchy.LoadOrderIrrelevant` | internal/database/location.go:857-866 | the loaded maps are the same for every order of the rows |
| `Hierarchy.FirstWriteIsLastWrite` | internal/database/location.go:886-895 | both loaders give the same city-to-province map |
| `Hierarchy.ClimbGivesRow` | internal/database/location.go:857-866 | following the maps from a sub-district gives back its own row |
| `Hierarchy.LoadedIsClosed` | internal/database/location.go:857-866 | every parent is a key of the next map up |
| `Hierarchy.RebuiltHierarchyClimbs` | internal/database/location.go:309-378 | end to end, for stored rows read in any order: from a sub-district with the code p.c.d.s the maps lead to exactly the regions with the codes p.c.d, p.c and p when all three exist, and else nowhere |
| `Hierarchy.OtherCodesLeadNowhere` | internal/database/location.go:343-346 | a sub-district whose code does not have four parts leads nowhere |
| `Hierarchy.CodesAreIndexed` | internal/database/location.go:252-283 | with distinct codes, a code is looked up as the id of its own region |
| `Pipeline.DiscoveredDistinct` | internal/service/builder.go:21-63 | discovery gives every candidate a key of its own |
| `Pipeline.EnrichedShape` | internal/service/enrich.go:16-62 | the origin is filled, nothing below it is, and there is no gap above it |
| `Pipeline.EnrichedLinked` | internal/service/enrich.go:16-62 | each filled parent is the one that the maps name |
| `Pipeline.EnrichedAllDistinct` | internal/service/enrich.go:16-62 | enrichment keeps distinct origins distinct, so concluding drops none |
| `Pipeline.OnlyOrphansConflict` | internal/service/evaluate.go:79-207 | of the five conflict kinds a built candidate can get only that of a city without province, exactly when it is one |
| `Pipeline.PipelineNeverConflicts` | internal/service/evaluate.go:366-387 | over loaded maps with known provinces: no conflict; VALID exactly when province, city and district are filled, else INCOMPLETE |
| `Pipeline.ConflictExactlyForOrphans` | internal/service/evaluate.go:134-164 | over any maps: CONFLICT exactly when the maps lead from the origin, a district or sub-district, to a known city whose province is unmapped or unknown |
| `Pipeline.BuildCandidates` | internal/service/validate_v1.go:225-233 | the composition of discover, deduplicate, enrich and conclude |
| `Pipeline.BuildGivesOnePerOrigin` | internal/service/validate_v1.go:225-233 | the build returns exactly one candidate per distinct entity |
| `Pipeline.RebuildOnlyAdds` | internal/service/validate_v1.go:47-56 | with new entities added, all earlier locations remain and the count grows by the number of entities |
| `Evaluation.CandidateRef.EvaluateHierarchy` | internal/service/evaluate.go:79-103 | appends a hierarchy conflict exactly when some filled level is not under its filled parent |
| `ConflictCounts.KeepsHierarchyExactly` | internal/service/evaluate.go:79-103 | with positive ids, no hierarchy conflict exactly when the maps name every filled parent of a filled level |
| `Evaluation.CandidateRef.DetectMultipleCities` | internal/service/evaluate.go:166-180 | one conflict for each further distinct city among the evidence |
| `ConflictCounts.OtherCitiesExactly` | internal/service/evaluate.go:166-180 | the number of distinct cities, other than the candidate's own, that the evidence names |
| `Evaluation.CandidateRef.DetectDuplicateLevel` | internal/service/evaluate.go:182-207 | one conflict for each item that names another region at a filled level |
| `ConflictCounts.DuplicatesExactly` | internal/service/evaluate.go:182-207 | the number of items that name, at a filled level other than the city's, another region |
| `Evaluation.CandidateRef.FindConflicts` | internal/service/evaluate.go:13-32 | both detection stages append the new conflicts in order and change nothing else |
| `ConflictCounts.OrphanExactly` | internal/service/evaluate.go:147-163 | a city without province, and more filled levels than the city's alone |
| `ConflictCounts.PostalDiffersExactly` | internal/service/evaluate.go:134-140 | a postal conflict exactly when a filled postal code belongs to another sub-district than the filled one |
| `ConflictCounts.ConflictsByKind` | internal/service/evaluate.go:13-32 | how many conflicts of each of the five kinds an evaluation adds |
| `ConflictCounts.StatusExactly` | internal/service/evaluate.go:366-387 | when the status is CONFLICT, UNKNOWN and VALID |
| `Confidence.MatchedLevels` | internal/service/evaluate.go:209-235 | exactly the levels that some evidence confirms |
| `Confidence.ScorePostalCodePrefix` | internal/service/evaluate.go:295-326 | the first postal evidence that shares three characters or more with the code decides, even when a later one shares more |
| `ScoreTable.FirstPrefixDecides` | internal/service/evaluate.go:295-326 | the first postal item that shares three leading digits decides: 0.20 for five shared digits, 0.10 for four, 0.07 for three |
| `ScoreTable.NoPrefix` | internal/service/evaluate.go:295-326 | without such an item there is nothing |
| `Confidence.MultiEvidenceBonus` | internal/service/evaluate.go:328-364 | the same bonus in whatever order the ids are visited |
| `ScoreTable.BonusInNumbers` | internal/service/evaluate.go:328-358 | an id named at least twice earns 0.20, 0.15, 0.10 or 0.05 by its level |
| `ScoreTable.BonusesAddUp` | internal/service/evaluate.go:340-364 | the bonuses of all named ids add up, to 0.40 at most |
| `Confidence.SumAnyOrder` | internal/service/evaluate.go:340-364 | any id may be summed first |
| `Confidence.ScoreConfidence` | internal/service/evaluate.go:237-293 | the weight sum capped at 1.00, minus 0.03 per unused item when there was any evidence |
| `ScoreTable.ScoreInNumbers` | internal/service/evaluate.go:237-282 | which facts earn which weights, in numbers |
| `ScoreTable.PenaltyInNumbers` | internal/service/evaluate.go:280-292 | the penalty of 0.03 per unused item comes after the cap |
| `Confidence.ScoreBounds` | internal/service/constant.go:6-23 | the uncapped sum is at most 1.30 |
| `ConfidenceRange.NonNegativeExactly` | internal/service/evaluate.go:237-293 | for every built candidate the weight sum is at least 0.15, and the confidence lies within 0 and 1 if and only if 0.03 per unused item does not exceed the capped sum, so with five unused items or fewer it always does |
| `ConfidenceRange.BuiltScoreAtLeast` | internal/service/evaluate.go:237-282 | a built candidate scores at least 0.15, by the exact match and its own level |
| `ConfidenceRange.ConfidenceCanBeNegative` | internal/service/evaluate.go:284-292 | six unused items can make it negative: a built candidate with confidence -0.03 |
| `ConfidenceRange.WithoutHierarchy` | internal/service/evaluate.go:237-293 | without a loaded hierarchy it is 0.15 for a city and 0 otherwise, minus 0.03 per item of evidence |
| `Confidence.EvaluateEvidenceCoverage` | internal/service/evaluate.go:115-132 | the items whose value no matched evidence has, in order |
| `ScoreTable.UnusedMembers` | internal/service/evaluate.go:115-132 | an item is unused exactly when no evidence of the candidate has its value |
| `Confidence.AppendingEvidenceNeverLowers` | internal/service/evaluate.go:237-364 | with one level per id, more evidence never lowers a confidence |
| `ConfidenceRange.SecondLevelCanLower` | internal/service/evaluate.go:328-364 | why one level per id is assumed: under maps that use one id at two levels, which the schema rules out, more evidence lowers the confidence of a built candidate by 0.15 |
| `Ranking.EvaluateCandidate` | internal/service/evaluate.go:13-32 | conflicts, unused evidence, confidence and status of one candidate |
| `Ranking.BeforeIsWeakOrder` | internal/service/validate_v1.go:247-257 | the comparison is a strict weak order |
| `Ranking.RankedByCriteria` | internal/service/validate_v1.go:247-257 | of two ranked items the first has the greater confidence, or the same and more filled levels, or the same and no more conflicts |
| `Ranking.EvaluateCandidates` | internal/service/validate_v1.go:237-259 | all candidates scored, none lost or doubled, in ranked order |
| `Ranking.ReportStatus` | internal/service/validate_v1.go:61-71 | the winner's status, made AMBIGUOUS for a valid winner less than 0.10 ahead |
| `Ranking.ValidMeansClearWinner` | internal/service/validate_v1.go:61-71 | VALID exactly when the winner is valid and leads every other candidate by 0.10 |
| `Ranking.ReportedStatusIs` | internal/service/validate_v1.go:61-71 | the reported status case by case; AMBIGUOUS exactly when a valid winner has another candidate less than 0.10 behind |
| `FuzzyTargets.BuildMatchTargets` | internal/service/fuzzy_context.go:191-207 | each entity under its compact full name and each of its words, keys of at least four characters, nothing else |
| `FuzzyTargets.FoundUnderWords` | internal/service/fuzzy_context.go:191-207 | for a name with single spaces, the keys are its lowered words run together and each of them, from four characters on |
| `FuzzyTargets.BestSpanMatch` | internal/service/fuzzy_context.go:335-362 | nothing below 0.8 or for short spans; otherwise exactly the ids under the most similar keys, each once, at least one, for every map order |
| `FuzzyTargets.AttainsByName` | internal/service/fuzzy_context.go:335-362 | by names alone: an entity is matched when one of its keys attains the greatest similarity of any key of any entity |
| `FuzzyTargets.BestMatchIsTheSet` | internal/service/fuzzy_context.go:335-362 | with one entity per id, the match is exactly the set of attaining entities |
| `Neighborhood.LocationIndex.EnsureChildrenIndexesLoaded` | internal/service/fuzzy_context.go:110-134 | the child indexes are right after the first call and untouched by later ones |
| `Neighborhood.LocationIndex.CandidateNeighborhood` | internal/service/fuzzy_context.go:138-185 | the candidate's chain and the children of its deepest region, each id once, no zero id, for every map order |
| `Neighborhood.NeighborsExactly` | internal/service/fuzzy_context.go:148-184 | the neighbors are the chain's own regions and the children of the deepest one, with the fields of their entries |
| `Frontier.EvaluateCandidateCoverage` | internal/service/fuzzy_context.go:59-81 | used and unused evidence without noise, and the used share |
| `Frontier.CountedMembers` | internal/service/fuzzy_context.go:64-77 | which items are counted as used and which as unused |
| `Frontier.WhatCounts` | internal/service/fuzzy_context.go:64-77 | which items count, and which of them are used: no road token, not "no", "rt", "rw" or "km", not all digits |
| `Frontier.ShareOfUsed` | internal/service/fuzzy_context.go:78-80 | the share times the number of items that count is the number used |
| `Frontier.ShareBounds` | internal/service/fuzzy_context.go:78-80 | the share is within 0 and 1 |
| `Frontier.SelectExpansionFrontier` | internal/service/fuzzy_context.go:87-105 | the eligible candidates in order, or none |
| `Frontier.FrontierMembers` | internal/service/fuzzy_context.go:87-105 | a candidate is in the frontier exactly when it has two used items, nobody is more than 0.05 better covered, and somebody reaches 0.5 |
| `Frontier.FrontierByCounts` | internal/service/fuzzy_context.go:59-105 | in numbers of items alone: with n items that count, a candidate is in the frontier exactly when it uses at least two, nobody uses more than n/20 more, and somebody uses half |
| `Frontier.UnexplainedRuns` | internal/service/fuzzy_context.go:211-228 | maximal runs of adjacent unexplained positions, in order, none missed |
| `Recovery.TryLengths` | internal/service/fuzzy_context.go:288-296 | the longest matching span at a position |
| `Recovery.TakeSpan` | internal/service/fuzzy_context.go:297-319 | one span's effect on evidence, corrections, known ids and explained words |
| `Recovery.ScanRun` | internal/service/fuzzy_context.go:285-325 | the scan of one run consumes its leftmost-longest segmentation with spans of at most four words, cut from the words within bounds |
| `Recovery.RecoverContextualEvidence` | internal/service/fuzzy_context.go:238-330 | the second pass from coverages to result |
| `RecoverySafety.SpansAreGreedyInRuns` | internal/service/fuzzy_context.go:285-325 | consumed spans are disjoint, in order, one to four adjacent words, each inside one unexplained run and the longest match there, and no matching position of a run is left |
| `RecoverySafety.WholeRunIsOneSpan` | internal/service/fuzzy_context.go:287-296 | a run of at most four words that matches as a whole is taken as a whole |
| `RecoverySafety.SpansHaveFourWordsAtMost` | internal/service/fuzzy_context.go:289-296 | and no span has more than four words |
| `RecoverySafety.SpanKeyOfWords` | internal/service/fuzzy_context.go:291-293 | a span is compared by its lowered words run together |
| `RecoverySafety.RecoveryIsExact` | internal/service/fuzzy_context.go:273-314 | the recovered ids are exactly those best matched by a consumed span and not offered before |
| `RecoverySafety.RecoveredAllNew` | internal/service/fuzzy_context.go:298-304 | every recovered entity is new, comes once, and has a proper level and id |
| `RecoverySafety.RecoveredAreGrounded` | internal/service/fuzzy_context.go:253-264 | each lies on a frontier candidate's chain or directly below its deepest level, and one of its keys is at least 0.8 similar to the text |
| `RecoverySafety.CorrectionsOfRecovery` | internal/service/fuzzy_context.go:305-314 | no text is recovered twice; each is corrected to the name of its first new entity |
| `RecoverySafety.ExplainedExactly` | internal/service/fuzzy_context.go:315-317 | the words explained are exactly those of the consumed spans |
| `RecoverySafety.ConsumedWordsWereUnexplained` | internal/service/fuzzy_context.go:266-317 | no consumed word is noise or was used by a frontier candidate |
| `RecoverySafety.EvidenceWithoutValues` | internal/service/validate_v1.go:310-322 | drops the items with an explained value, keeps the rest in order |
| `RecoverySafety.KeptByValue` | internal/service/validate_v1.go:310-322 | items of an explained value all go, those of any other all stay |
| `Validation.ValidateAddress` | internal/service/validate_v1.go:47-71 | build, recover once, rebuild when something was recovered, evaluate without the explained words, report |
| `Validation.SecondPassOnlyAdds` | internal/service/validate_v1.go:47-56 | after recovery every location of the first build is still there, and there is one more candidate per recovered entity |
| `Validation.RecoveryNeverLowers` | internal/service/validate_v1.go:47-59 | from positive ids, one table of regions, and resolved entities known under the level they name: every first-pass candidate is still there with at least its confidence |
| `Validation.RecoveredKnown` | internal/service/validate_v1.go:47-56 | then recovered entities are known under the level they name, too |
| `KnownRegions.EnrichedKnown` | internal/service/enrich.go:16-62 | enrichment fills only regions that are known at their level |
| `KnownRegions.NeighborKnown` | internal/service/fuzzy_context.go:138-185 | so every neighbor of such a location is known under its level |
| `Validation.FrontierKeepsItsEvidence` | internal/service/validate_v1.go:59 | no evidence used by a frontier candidate is dropped |
| `Validation.ReportedStatusIsSound` | internal/service/validate_v1.go:59-71 | over loaded maps with known provinces no candidate conflicts, the response is never CONFLICT, and UNKNOWN exactly when nothing was resolved or recovered |
| `WorkerQueue.InvStep` | internal/queue/queue.go:29-107 | every step of any client or worker keeps the invariant |
| `WorkerQueue.EveryRunIsSafe` | internal/queue/queue.go:29-107 | in every interleaving: accepted jobs are the buffered, running and handled ones; taken in acceptance order; buffer within its size; no send after close, no second close; mutual exclusion; no worker leaves jobs behind |
| `WorkerQueue.DrainedMeansAllHandled` | internal/queue/queue.go:84-107 | when Shutdown has returned nil every accepted job has been handled exactly once |
| `WorkerQueue.SendMeansOpen` | internal/queue/queue.go:64-78 | between the closed check and the send nobody can close |
| `WorkerQueue.ClosedAcceptsNothing` | internal/queue/queue.go:62-70 | after the close no job is accepted in any run |
| `WorkerQueue.WorkStep` | internal/queue/queue.go:50-60 | after the close each worker step lowers the work left by one and no client step changes it |
| `WorkerQueue.SomeWorkerCanStep` | internal/queue/queue.go:50-60 | after the close some worker can step exactly until all have exited |
| `WorkerQueue.ClosedQueueDrains` | internal/queue/queue.go:84-107 | in any run from the close: bounded worker steps, and all of them taken exactly when everything accepted is handled and all workers have exited |
| `WorkerQueue.MutexIsNeverStuck` | internal/queue/queue.go:64-93 | while a client waits for the mutex, it or the holder can step |
| `WorkerQueue.WithoutWorkersJobsAreLost` | internal/queue/queue.go:33-35 | without the clamp to one worker Shutdown could return nil with a job unhandled |
| `WorkerQueue.Queue.constructor` | internal/queue/queue.go:29-48 | size and workers clamped to at least one |
| `WorkerQueue.Queue.Submit` | internal/queue/queue.go:64-78 | the uninterrupted call is a run of its steps; closed, full and accepted told apart |
| `WorkerQueue.Queue.StartShutdown` | internal/queue/queue.go:87-93 | closes once, however often it is called |
| `WorkerQueue.Queue.FinishShutdown` | internal/queue/queue.go:95-106 | returns nil only with everything handled, or early when cancelled |
| `WorkerQueue.Queue.Run` | internal/queue/queue.go:50-60 | a worker alone takes and handles all buffered jobs, then exits if the queue is closed |
| `Geocode.CanonicalTwice` | internal/service/geocode.go:36-38 | canonicalizing is idempotent |
| `Geocode.SameCanonicalMeansSameWords` | internal/service/geocode.go:36-38 | equal canonical bodies are exactly equal word lists |
| `Geocode.GapLengthIrrelevant` | internal/service/geocode.go:33-38 | the length and kind of white space between parts does not matter |
| `Geocode.MarginsIrrelevant` | internal/service/geocode.go:33-38 | nor does white space around the body |
| `Geocode.InvStep` | internal/service/geocode.go:71-123 | every step of any request keeps mutual exclusion and the agreement of replies with the cache |
| `Geocode.StoredBodyIsNeverFetched` | internal/service/geocode.go:84-122 | once a row for a canonical body is stored, no run calls upstream for it |
| `Geocode.SingleFlight` | internal/service/geocode.go:84-122 | over a whole run, in every interleaving: a body costs at most one upstream call, and one more for each of its requests that came to a server error |
| `Geocode.NoCallAfterReply` | internal/service/geocode.go:84-95 | after the first reply to a body, upstream is not called for it again |
| `Geocode.RepliesAreReplayed` | internal/service/geocode.go:89-122 | all replies to one canonical body, over the whole run, have the stored payload and its status |
| `Geocode.RepliesHaveTheirStatus` | internal/service/geocode.go:157-161 | in every run, a reply has status 404 exactly when its payload is an empty result, and else 200 |
| `Geocode.BadRequestsExactly` | internal/service/geocode.go:79-82 | in every run, a request is a bad request exactly when its body does not decode |
| `Geocode.MockNeverCalls` | internal/service/geocode.go:100-104 | a service that answers from the mock never calls upstream |
| `Geocode.RepliesAreTheBodysOwn` | internal/service/geocode.go:71-123 | with an injective hash a reply carries a payload that upstream returned for that very body |
| `Geocode.GeocodeService.ValidateAddressV0` | internal/service/geocode.go:71-123 | the uninterrupted request is a run of its steps; status, payload and cache status of its reply, the row it leaves and the upstream call it makes are stated for every outcome |

## Left out

- SQL execution, transactions, drivers and placeholder rewriting: the database is a set or list of rows with the
  uniqueness of the schema; the hierarchy table holds the rows of one source.
- HTTP handlers, router, middleware, rate limiter, configuration, logging, telemetry, ids and timestamps.
- HTML sanitizing, JSON decoding, SHA-256 and the upstream HTTP call: unknown functions or outcomes. The hash is
  taken as injective in one lemma only. One process and no soft deletes are assumed for the cache.
- Road-context and evidence-extraction regular expressions (`internal/service/evidence.go`): the road tokens and the
  evidence are arbitrary inputs.
- The postal-code fallback, formatting of the response, and the texts and lists that only report
  (`Matched`, `Missing`, `Reasons`, conflict messages).
- IEEE floating point: exact hundredths and fractions stand for it, so results at the very edge of a threshold may
  differ by rounding.
- `strings.ToLower` is exact for characters whose lower form is an ASCII letter, and leaves other characters as
  they are. A span key's length is counted in characters; the original counts bytes, which is the same on normalized text.
- The order and multiplicity of the entities under one word, which depend on Go's map order, and hence which fresh
  entity names a correction.
- `sort.Slice` and `sort.SliceStable` are modelled as insertion sorts; contracts promise only a sorted (and stable)
  rearrangement.
- `Len`, which returns the number of buffered jobs.
- One-time initialization guards (`sync.Once`) and the error paths of the cache loaders.
- A handler that never returns, or that ends its goroutine, is outside the queue model; progress
  assumes that handlers return. Sends to a waiting receiver pass through the buffer.
- Recovery.TakeSpan: which of several equally similar fresh entities comes first is not stated, because the original
  leaves it to map order.
- FuzzyTargets.BestSpanMatch: does not state the order of the matched entities, because the original ranges over a map.
- Ranking.EvaluateCandidates: does not fix the order of candidates that compare equal, because the original sort is
  not stable.
