# Verification of the law reference system

The repository finds cross-references in Japanese statutes, resolves the relative ones ("the preceding article"),
normalises article numbers, builds a table of contents, caches results and imports the laws in resumable batches.
This project models the parts of it that carry state, ordering or arithmetic, and proves what they promise.

Run `dafny verify dfyconfig.toml` (Dafny 4.11) to check everything.

## How it is organised

Code that changes state step by step is modelled by a class or by methods with loops, and each such method is proved
against a function of its inputs or of the old state; the theorems are lemmas about those functions.

- **The reference cache.** `ReferenceCaches` says what one call does (`Next`) and returns (`Reply`) as long as the
  map and the access order agree; `RawCaches` says what it does to any two structures, and that the two descriptions
  coincide. `CacheClass.ReferenceCache` is the object, whose methods update the map, the access order and the counters
  in place. `CacheCalls` says key by key what one call on a reachable cache leaves. `CacheInvariant`, `CacheInclusion`, `CacheHistory`, `CacheMisses`, `CacheHits`, `CacheExpiry`,
  `CacheSnapshot` and `CacheOvergrowth` hold the theorems over every sequence of calls. The clock is an argument, read
  once per call.
- **Reference reduction.** `Intervals` and `IntervalTheorems` specify which detected references survive;
  `Deduplicate` runs the loop of the detector, with its set of ranges kept as "start-end" strings (`RangeStrings`).
  `StableSorting` stands for the sort of the language's library.
- **Kanji numerals and article numbers.** `Numerals` holds the three loops that read kanji numerals,
  `NumeralTheorems` compares them with what a numeral denotes; `ArticleNormalizer` and `ArticleRanges` cover the
  normaliser, the range printer and the extractor over arbitrary strings, `ArticleMatches` what its patterns match, by
  position in the text. `OtherNumerals` is about strings with 万, 〇, 零 or other characters. `Decimals` is decimal notation.
- **Relative references.** `RelativeReferences` holds `resolve` and its five sub-resolvers, `ResolverRuns`,
  `ParagraphRuns` and `ItemRuns` what whole runs do to the context, `ArticleContexts` what holds of article numbers that
  are not plain digits, `ResolverNumerals` how the numbers in a reference are read, `ContinuousResolver` the loop of
  `resolveContinuous`. `ResolverTexts` spells out the texts of references, `ResolverCases` and `ResolverAnswers` which are
  answered and what an answer says, and `ContextRuns` where article, paragraph and item stand after any mix of them.
- **The table of contents.** `TableStructure` specifies the tree, `TableBuilder` builds it in one pass over four
  maps, `OrphanCheck` is the search for unreachable articles and `TocOrphans` what it finds, `TocOrder` the order and the
  numbers of the nodes, `TocPartition` how the leaves divide the articles and `TocPaths` on which paths an article is
  shown.
- **Resumable batches.** `BatchState` and `BatchProcessor` model `processAllLaws` as a machine of steps with a disk and a
  memory; `BatchSteps` says what one step saves, `BatchAccounting` and `BatchTotals` what the counters add up to,
  `BatchRetries` which batches can be processed again. `ImportState` and `ImporterClass` do the same for the import into
  the graph, with `ImportAccounts` for what one process adds and `ImportProgress` for what is saved and what a crash loses.
- **Text positions.** `TextPositions` turns offsets into lines and columns.

## Where the code differs from what is said about it

- The caller of `deduplicateAndSort` says that it removes duplicates and sorts by confidence
  (`scripts/detector.ts`, line 224). The code never looks at the confidence. `OnlySpansMatter` shows that nothing
  but positions and lengths decides which intervals survive, and `ReducedKeepsFirst` that of several references with
  one interval the first of the given list is kept, whatever their confidence.
- A restored cache lists its keys in the map's insertion order, not in order of use (`RestoreSaved`). Two stores and
  one look-up are enough for the two orders to differ (`RestoredForgetsUse`), and the restored cache then evicts
  another key than the saved one would exactly when they start differently (`RestoredVictimIff`).
- Saved data that names a key twice is accepted and leaves a cache whose two structures disagree
  (`RestoredCoupledIffDistinct`). Such a cache can outgrow its capacity of 1000: `RestoredPeak` says how far, and
  `RestoredBoundIff` for which data the bound holds.
- "All preceding paragraphs" (前各項), asked in the first paragraph, is answered with paragraph 0. That is the only
  way to get a paragraph below 1 (`ParagraphZeroIff`), and no run ever stores it (`ContextStaysSafe`).
- A batch that fails is not retried once a later batch succeeds, however often the run is resumed: `FailedThenSucceeded`
  is such a run, and `RetriedIff` says of every checkpoint which unprocessed batches can still be processed. The branch that counts an already processed batch again can never run
  (`AwaitedIsUnprocessed`), and saving on an interrupt changes nothing (`InterruptIsKill`).
- The three readers of kanji numerals agree on a numeral exactly when no two digits stand next to each other in it;
  otherwise the detector adds the digits that the other two overwrite (`ThreeReadersAgree`, `DetectorReads`; 二一 in
  `ReadersDisagree`). The
  pattern the detector falls back on when its result is zero can never match (`FallbackIsDead`).
- A relative reference reads its number from a table of the numbers up to 25, the tens and 100; any other numeral counts as 1,
  so 前二十六条 goes back one article (`ResolverReadsIffTabled`, `WrittenReadIff`, `TwentySixArticlesBack`).
- 万 is read in three ways: the pattern table multiplies all that stands before it, the normaliser only its last digit, and
  the detector passes over it (`MyriadIsRead`, `DetectorSkipsMyriad`). A closing zero makes the normaliser forget the digit
  before it (`ZeroForgets`), the other two pass over it.
- An answer's display form is meant to show the article it names. It does for every answer exactly when the current
  article number is a string of digits, so not for a branch number or a supplementary provision
  (`EveryAnswerShowsIff`). From an article number that does not start with a number, "NaN" is named as the next article,
  and no later reference leads back to a number (`NumberedThroughout`).
- An article can be shown in several places of the table of contents, because parts, chapters and sections are
  identified by their titles: `ShownOnceIff` says for which articles it is.
- The importer saves when the index is a multiple of 1000, so a first import saves its first batch and every tenth after
  it. A failed batch or a failed save can stretch the progress a crash loses to a thousand laws or more: `LostProgressIff`
  says exactly when.
- The comment of `compareArticleNumbers` promises -1, 0 or 1; the code returns the difference (`RangeIncreases`).

## Model

| member | source | states |
|---|---|---|
| CacheClass.ReferenceCache.constructor | src/lib/reference-cache.ts:35-45 | a new cache is empty; a missing or zero capacity or lifetime and a missing or empty version become 1000 entries, one hour and version 4.0.0 |
| CacheClass.ReferenceCache.Get | src/lib/reference-cache.ts:66-99 | looks up, expires and re-orders in place, moving the whole state as the step does on any two structures, and as `Next` does on a consistent cache, and returning what it replies |
| CacheClass.ReferenceCache.Set | src/lib/reference-cache.ts:104-121 | evicts when full, stores and moves the key to the recent end; a consistent cache stays consistent |
| CacheClass.ReferenceCache.Has | src/lib/reference-cache.ts:126-141 | drops a stale entry and changes nothing else, and tells whether a live one is there |
| CacheClass.ReferenceCache.Delete | src/lib/reference-cache.ts:146-150 | removes the key from both structures and tells whether it was there |
| CacheClass.ReferenceCache.Clear | src/lib/reference-cache.ts:155-160 | leaves an empty cache with both counters at zero |
| CacheClass.ReferenceCache.EvictLRU | src/lib/reference-cache.ts:165-171 | removes the front of the access order from both structures, also when it is no longer in the map |
| CacheClass.ReferenceCache.UpdateAccessOrder | src/lib/reference-cache.ts:176-179 | the first place of the key goes and the key is appended; without repetitions every other key keeps its place |
| CacheClass.ReferenceCache.RemoveFromAccessOrder | src/lib/reference-cache.ts:184-189 | cuts out the first place of the key; without repetitions exactly the key goes and the rest keeps its order |
| CacheClass.ReferenceCache.PruneExpired | src/lib/reference-cache.ts:235-254 | collecting and then deleting the stale keys removes all of them, and counts them |
| CacheClass.ReferenceCache.Serialize | src/lib/reference-cache.ts:291-312 | what is saved restores to the same map and counters, with the map's order as the access order |
| CacheClass.ReferenceCache.Deserialize | src/lib/reference-cache.ts:317-337 | the loop over any saved entries rebuilds the restored state, with default capacity and lifetime; data of another version leaves an empty cache, and counters that were not saved are zero |
| CacheCalls.LookUpLeaves | src/lib/reference-cache.ts:66-141 | in every reachable cache a look-up finds exactly a key whose entry has the cache's version and is no older than the lifetime; afterwards the key is resident exactly when it was found, and no other key, entry or place in the order is touched |
| CacheCalls.LookUpCounts | src/lib/reference-cache.ts:79-98 | a hit adds one to the entry and to the hits and moves the key to the end, a miss adds one to the misses only |
| CacheCalls.SetLeaves | src/lib/reference-cache.ts:104-121 | a store leaves a new entry at the end of the order; only for a new key in a full cache does another key leave, the front one, and nothing else is touched |
| CacheCalls.DeleteTells | src/lib/reference-cache.ts:146-150 | delete answers true exactly when the cache has one key less, the given one, and touches no other |
| CacheInvariant.RunKeepsInvariant | src/lib/reference-cache.ts:66-189 | after any calls the map and the access order hold the same keys, each once, and the size stays within the capacity |
| CacheInvariant.EvictCoupled | src/lib/reference-cache.ts:165-171 | exactly the front key leaves, and the two structures stay in step |
| CacheInclusion.RunsIncluded | src/lib/reference-cache.ts:66-189 | LRU inclusion: after the same calls, a small cache holds a part of what a larger one holds, in the same order of use and with the same entries, and has no more hits |
| CacheInclusion.SmallHitsAreLargeHits | src/lib/reference-cache.ts:66-99 | each hit of the small cache is a hit of the large one on the same call, with the same references |
| CacheInclusion.SameVictim | src/lib/reference-cache.ts:165-171 | if the large cache evicts a key the small one holds, the small one would evict it too |
| CacheHistory.HitReturnsLastSet | src/lib/reference-cache.ts:66-121 | every hit returns the references of the latest `set` not undone by delete or clear, stored no more than the lifetime ago |
| CacheHistory.CountersCountGets | src/lib/reference-cache.ts:66-99 | hits and misses since the last clear add up to the `get` calls since then, and the hit counter counts the hits |
| CacheHistory.OrderIsByLastUse | src/lib/reference-cache.ts:176-189 | in every reachable state the access order lists the keys by the time of their last store or hit |
| CacheHistory.EvictsLeastRecentlyUsed | src/lib/reference-cache.ts:104-121 | a `set` that loses a key was full and loses the one whose last use is the oldest, and only that one |
| CacheMisses.MissIsExcused | src/lib/reference-cache.ts:66-121 | with a clock that never runs back, a miss means nothing was stored, or it expired, or a full capacity of other keys was used since |
| CacheHits.HitIff | src/lib/reference-cache.ts:66-121 | on stores and look-ups within one lifetime a stored key is found exactly when fewer other keys than the capacity were used since |
| CacheExpiry.PruneIsExact | src/lib/reference-cache.ts:235-254 | pruning leaves exactly the live entries, unchanged and in their order, and returns how many went |
| CacheExpiry.PruneIsInvisible | src/lib/reference-cache.ts:235-254 | through any later look-ups and removals, no look-up can tell that the cache was pruned, and the counters agree |
| CacheExpiry.HasForetellsGet | src/lib/reference-cache.ts:126-141 | `has` says whether `get` would hit, and does not change what `get` then returns |
| CacheExpiry.HitCounterCounts | src/lib/reference-cache.ts:92-95 | the hit count of an entry is the number of hits on its key since it was last stored |
| CacheSnapshot.RestoreSaved | src/lib/reference-cache.ts:291-337 | restoring a saved cache gives back every entry and both counters, consistently, in map order; it is the same cache exactly when that was the access order |
| CacheSnapshot.RestoredCoupledIffDistinct | src/lib/reference-cache.ts:321-328 | a restored cache is consistent exactly when no key was saved twice |
| CacheSnapshot.RestoredVictimIff | src/lib/reference-cache.ts:165-171 | the key the restored cache evicts next differs from the saved cache's exactly when the map's order and the access order start differently |
| CacheSnapshot.RestoredForgetsUse | src/lib/reference-cache.ts:291-337 | after storing two keys and looking up the older, the saved cache would evict the other key and the restored one this one |
| RawCaches.RawIsNext | src/lib/reference-cache.ts:66-189 | as long as the two structures agree, index, splice and shift do what filtering by key does |
| RawCaches.RawRunIsRun | src/lib/reference-cache.ts:66-189 | so every run from a consistent cache is a run of `Next`, and the theorems about it hold of the object |
| CacheOvergrowth.RestoredPeak | src/lib/reference-cache.ts:317-337 | for any saved data, also with repeated keys, the greatest size any calls can bring the restored cache to |
| CacheOvergrowth.RestoredBoundIff | src/lib/reference-cache.ts:104-121 | a restored cache never outgrows 1000 entries or the saved ones exactly when no key was saved twice or 1000 different ones were |
| Deduplicate.DeduplicateAndSort | scripts/detector.ts:2064-2105 | sorts the given array in place and returns the reduction of what it held |
| Deduplicate.AddReference | scripts/detector.ts:2071-2101 | one turn of the loop, with the emptied and refilled list and the growing set of ranges |
| Deduplicate.TracksCovered | scripts/detector.ts:2075-2082 | testing against the ranges, which are never withdrawn, decides whether any reference seen so far covers the new one |
| RangeStrings.DecodeEncoded | scripts/detector.ts:2078-2100 | a range written as "start-end" splits and reads back as the same range |
| Intervals.SurvivorsStep | scripts/detector.ts:2084-2097 | dropping what the new reference covers and appending it is the reduction of the longer list |
| Intervals.SurvivorsAreMaximal | scripts/detector.ts:2068-2104 | a reference survives exactly when nothing strictly covers it and it is the first with its span |
| IntervalTheorems.ReducedIncreases | scripts/detector.ts:2064-2105 | starts and ends of the result are both strictly increasing |
| IntervalTheorems.ReducedCovers | scripts/detector.ts:2064-2105 | every input interval lies within one of the result |
| IntervalTheorems.ReducedIsMaximal | scripts/detector.ts:2064-2105 | the intervals of the result are the inclusion-maximal ones of the input, no more and no fewer |
| IntervalTheorems.OrderDoesNotMatter | scripts/detector.ts:2064-2105 | every permutation of the input gives the same intervals in the same order |
| IntervalTheorems.OnlySpansMatter | scripts/detector.ts:2064-2105 | inputs with the same intervals, whatever their order, repetition, text or confidence, give the same intervals |
| IntervalTheorems.ReducedIsFixed | scripts/detector.ts:2104-2104 | the closing sort changes nothing, and reducing twice is reducing once |
| IntervalTheorems.ReducedKeepsFirst | scripts/detector.ts:2064-2105 | in terms of the given list, a reference is kept exactly when no other strictly covers it and it is the first with its interval |
| IntervalTheorems.ReducedInPositions | scripts/detector.ts:2064-2105 | in positions and text lengths alone: both ends strictly increase, and a reference is kept exactly when every one that reaches as far on both sides has the same ends and does not stand earlier |
| StableSorting.SortIsStable | scripts/detector.ts:2066-2066 | the sort keeps the order of references with equal starts |
| Numerals.NormalizeRun | src/utils/article-normalizer.ts:55-76 | the accumulator loop computes the run's value |
| Numerals.PatternKanjiToNumber | scripts/reference-patterns.ts:313-341 | the table and the two-level loop compute the pattern number |
| Numerals.DetectorKanjiToNumber | scripts/detector.ts:1738-1851 | the look-behind, look-ahead loop computes the sum of the contributions, or null when it is zero |
| Numerals.FallbackIsDead | scripts/detector.ts:1831-1848 | when the sum is zero the fallback pattern does not match |
| NumeralTheorems.ThreeReadersAgree | src/utils/article-normalizer.ts:55-76 | on every numeral of 一 to 九, 十, 百 and 千 the normaliser and the pattern table give the positive number it denotes, and the detector gives it exactly when no two digits are adjacent |
| NumeralTheorems.DetectorReads | scripts/detector.ts:1764-1828 | the detector returns the numeral's value plus the digits that are directly followed by another digit |
| NumeralTheorems.ReadersDisagree | scripts/detector.ts:1764-1828 | 二一 is read as 3 by the detector and as 1 by the other two |
| NumeralTheorems.TableIsRight | scripts/reference-patterns.ts:300-308 | each table entry for such a numeral is what the numeral denotes |
| NumeralTheorems.WrittenIsRead | scripts/detector.ts:1738-1851 | each number from 1 to 9999, in its usual spelling, is read back by all three |
| OtherNumerals.MyriadIsRead | src/utils/article-normalizer.ts:60-74 | the normaliser multiplies by 万 only the digit before it, the pattern table all that precedes it |
| OtherNumerals.DetectorSkipsMyriad | scripts/detector.ts:1764-1828 | the detector adds the numbers before and after 万 |
| OtherNumerals.DetectorZeroIff | scripts/detector.ts:1738-1762 | the detector answers 0 exactly for a single 〇 or 零 |
| OtherNumerals.DetectorNothingIff | scripts/detector.ts:1738-1851 | it has no answer exactly when the text, not a single zero, has no digit and no unit except right after a zero |
| OtherNumerals.ZeroForgets | src/utils/article-normalizer.ts:63-64 | a closing zero makes the normaliser drop the digit before it |
| OtherNumerals.ZeroIsSkipped | scripts/reference-patterns.ts:313-341 | the pattern table passes over a closing zero |
| OtherNumerals.ZeroAddsNothing | scripts/detector.ts:1764-1828 | and so does the detector |
| ArticleNormalizer.ConvertLeavesNoKanji | src/utils/article-normalizer.ts:41-80 | replacing the runs leaves no kanji numeral in any string |
| ArticleNormalizer.ConvertIsIdempotent | src/utils/article-normalizer.ts:41-80 | replacing twice is replacing once |
| ArticleNormalizer.NumericIffHasNumber | src/utils/article-normalizer.ts:82-108 | the numeric form is non-empty exactly when the text has a digit or a kanji numeral |
| ArticleNormalizer.DisplayIsNumeric | src/utils/article-normalizer.ts:24-117 | the display form of a number normalises to it and to itself |
| ArticleNormalizer.ShownIffNumeral | src/utils/article-normalizer.ts:133-148 | a text comes back from its display form exactly when it is a string of digits or empty |
| ArticleNormalizer.FormatsAreStable | src/utils/article-normalizer.ts:133-148 | on every string both formats are idempotent and the display form loses no number |
| ArticleNormalizer.NormalizeArticleNumber | src/utils/article-normalizer.ts:24-117 | the original is the text, the value is the number of the numeric form, and a text without a number is its own display form |
| ArticleMatches.FirstArticleIff | src/utils/article-normalizer.ts:84-84 | the search for 第…条 finds nothing exactly when no position holds 第, digits and 条, and otherwise the digits of the leftmost such position and the text behind its 条 |
| ArticleMatches.ArticleGoesFirst | src/utils/article-normalizer.ts:82-99 | the leftmost 第…条 is what a text is normalised to, whatever digits come before it |
| ArticleMatches.EnglishGoesNext | src/utils/article-normalizer.ts:82-99 | without one, and where the text is more than a number, the first "article" with a number counts |
| ArticleMatches.DigitsGoLast | src/utils/article-normalizer.ts:101-108 | without that too, the first run of digits does |
| ArticleRanges.ConvertReplacesRuns | src/utils/article-normalizer.ts:52-77 | each run of kanji numerals is replaced by its number and the text around it stays |
| ArticleRanges.KanjiArticle | src/utils/article-normalizer.ts:24-117 | an article numbered in kanji has the display form and value of the number its kanji denote |
| ArticleRanges.WrittenArticle | src/utils/article-normalizer.ts:24-117 | 第一条 to 第九千九百九十九条 normalise to 1 to 9999 |
| ArticleRanges.GenerateArticleRange | src/utils/article-normalizer.ts:178-192 | returns the articles between the two numbers, one by one in display form, and nothing exactly when an end shows no digit but zeros or the start compares after the end |
| ArticleRanges.ExtractArticleNumbers | src/utils/article-normalizer.ts:199-218 | the numbers returned are the digits at the positions of the text where 第, digits and 条 stand, each at its first occurrence, normalised, in text order |
| ArticleRanges.MatchesAreFound | src/utils/article-normalizer.ts:204-207 | the matches are the digits of all positions that hold an article, from left to right |
| ArticleRanges.DistinctInOrder | src/utils/article-normalizer.ts:210-213 | of equal numbers the first is kept, and those kept stand in the order of their first occurrence |
| ArticleRanges.RangeRoundTrip | src/utils/article-normalizer.ts:178-218 | printing any range and extracting it again yields exactly its articles in order, whatever separator without 第 stands between |
| ArticleRanges.RangeIncreases | src/utils/article-normalizer.ts:156-160 | comparing two articles of a range gives the distance of their places |
| ArticleRanges.RangeEmptyIff | src/utils/article-normalizer.ts:182-184 | for any two texts, the range is empty exactly when the numeric form of an end has no digit but zeros or the start compares after the end |
| RelativeReferences.DisplayNamesArticle | src/services/relative-reference-resolver.ts:60-81 | an answer's display form normalises back to the article number it names exactly when that is a string of digits or empty |
| ResolverTexts.ArticleTextsSpelled | src/services/relative-reference-resolver.ts:86-152 | how many articles each of the texts goes back or forth, and in which paragraph of the other article it lands |
| ResolverTexts.OnlyArticleTexts | src/services/relative-reference-resolver.ts:86-152 | no other text moves to another article |
| ResolverTexts.ParagraphTextsSpelled | src/services/relative-reference-resolver.ts:157-239 | how many paragraphs each of the texts goes back or forth |
| ResolverTexts.OnlyParagraphTexts | src/services/relative-reference-resolver.ts:157-239 | no other text moves to another paragraph |
| ResolverTexts.TrimSpelled | src/services/relative-reference-resolver.ts:62-62 | spaces around a text do not matter |
| ResolverTexts.SpacesAre | src/services/relative-reference-resolver.ts:62-62 | which characters are spaces, by code point |
| ResolverTexts.ParseIntSpelled | src/services/relative-reference-resolver.ts:87-87 | an article number is read up to its first character that is not a digit, after spaces |
| ResolverTexts.SignedSpelled | src/services/relative-reference-resolver.ts:87-87 | a sign before the digits counts |
| ResolverTexts.NoIntSpelled | src/services/relative-reference-resolver.ts:87-87 | a text without a digit after its spaces and sign is no number |
| ResolverTexts.ItemNumberSpelled | src/services/relative-reference-resolver.ts:435-447 | an item number is read by its first run of digits or kanji digits, whatever stands around it |
| ResolverCases.AnsweredIff | src/services/relative-reference-resolver.ts:60-81 | a text is answered exactly when it is one of the listed ones; an article or paragraph before the first and an item outside of any item have no answer |
| ResolverCases.AnswerSays | src/services/relative-reference-resolver.ts:86-423 | from any context, also with an article number that is no number, an answer names the article and paragraph its text asks for, clamped backwards and not forwards, and carries the manner and remark of its text |
| ResolverAnswers.AnswerItem | src/services/relative-reference-resolver.ts:244-372 | which item an answer names: the one stepped to, the one of 前項第三号, or none |
| ResolverAnswers.ItemTextsSpelled | src/services/relative-reference-resolver.ts:450-466 | 次号 and 前号 go one item forth and back, and 前号 stays on item 1 |
| ResolverAnswers.AnswersAreSure | src/services/relative-reference-resolver.ts:86-423 | the confidence of an answer follows from how it was found and whether its text has a number |
| ResolverAnswers.MissingParagraphIsFirst | src/services/relative-reference-resolver.ts:157-158 | a context without a paragraph is answered as one in the first paragraph |
| ArticleContexts.EveryAnswerShowsIff | src/services/relative-reference-resolver.ts:60-81 | all answers in a context show the article they name exactly when the current article number is a string of digits |
| ArticleContexts.StepsHoldIff | src/services/relative-reference-resolver.ts:86-152 | the clamped steps hold for every text exactly when the current article, read as a number, is positive |
| ArticleContexts.NumberedThroughout | src/services/relative-reference-resolver.ts:487-521 | no run turns an article number that reads as a number into one that does not, or back |
| ResolverRuns.ResolveMoves | src/services/relative-reference-resolver.ts:86-152 | for any article number that reads as a positive number, fallbacks, missing answers and clamps together move it by the text's step, never below 1 |
| ResolverRuns.ClosedForm | src/services/relative-reference-resolver.ts:487-521 | after any texts the article is the greatest of the start plus all steps and 1 plus the steps after any position |
| ResolverRuns.ForthUndoesBackIff | src/services/relative-reference-resolver.ts:86-152 | going back n articles and forth again returns exactly when the start was past the n-th |
| ResolverRuns.ParagraphZeroIff | src/services/relative-reference-resolver.ts:225-236 | paragraph 0 is answered exactly for "all preceding paragraphs" in the first paragraph |
| ResolverRuns.ContextStaysSafe | src/services/relative-reference-resolver.ts:505-517 | every context of a run keeps a positive article, an absent or positive paragraph and its law |
| ParagraphRuns.RunIsMoves | src/services/relative-reference-resolver.ts:487-521 | article number and paragraph of the context are those of a walk, in which an unmoved article number stays as it is written and another article sets the paragraph |
| ParagraphRuns.ParagraphClosedForm | src/services/relative-reference-resolver.ts:157-239 | while no text moves to another article, the article number stays and the paragraph has the closed form the article has over the law |
| ContextRuns.RunFollows | src/services/relative-reference-resolver.ts:487-521 | after any mix of references the context is the start with article, paragraph and item as the texts lead them; another article or paragraph takes the item with it |
| ItemRuns.ItemClosedForm | src/services/relative-reference-resolver.ts:244-306 | under references to items the item has that closed form too, and article and paragraph stay |
| ResolverNumerals.ResolverReadsIffTabled | src/services/relative-reference-resolver.ts:428-430 | a numeral inside a reference is read for what it denotes exactly when it is in the resolver's table |
| ResolverNumerals.WrittenReadIff | src/services/relative-reference-resolver.ts:44-52 | of the numbers up to 9999 as usually written, those up to 25, the tens and 100 are read, every other one as 1 |
| ResolverNumerals.TwentySixArticlesBack | src/services/relative-reference-resolver.ts:428-430 | 前二十六条 asks for the article right before |
| ContinuousResolver.ResolveContinuous | src/services/relative-reference-resolver.ts:487-521 | the outcomes are those of the references sorted by position, equal positions in the order given, each answered in the context the earlier ones left |
| ContinuousResolver.SortIsTextOrder | src/services/relative-reference-resolver.ts:495-495 | the references resolved have non-decreasing positions, and those at one position keep the order given |
| ContinuousResolver.TextOrderIsUnique | src/services/relative-reference-resolver.ts:495-495 | only one list is in text order, so the order of the outcomes is determined |
| ContinuousResolver.EveryOutcomeIsSafe | src/services/relative-reference-resolver.ts:487-521 | every recorded context is safe, and from an article number in digits every recorded answer displays the article it names |
| TableBuilder.BuildStructure | app/laws/[id]/page.tsx:19-158 | the single pass over four maps builds exactly the tree that asking each question over the whole list gives |
| TableBuilder.PushDivisions | app/laws/[id]/page.tsx:80-108 | the main provisions come first, the other divisions follow in order, numbered from 1 |
| TableBuilder.PushChapters | app/laws/[id]/page.tsx:122-144 | each chapter lists its sections by their numbers in the list of all sections |
| TableStructure.PickHolds | app/laws/[id]/page.tsx:33-78 | each set holds exactly the answers of its articles, each once |
| TocOrder.PickInOrder | app/laws/[id]/page.tsx:33-78 | the answers in a set stand in the order of the first articles that give them |
| TocOrder.NodesAreNumbered | app/laws/[id]/page.tsx:80-157 | the number of each division, part, chapter and section is its place, counted from 1 |
| TocOrder.NodesAreInOrder | app/laws/[id]/page.tsx:80-157 | parts, chapters and sections stand in the order of their sets, and each node lists its sets in theirs |
| TocOrder.ChapterListsSections | app/laws/[id]/page.tsx:122-144 | the numbers a chapter lists lead, one by one, to the sections with its section titles in order |
| TocOrder.MainComesFirst | app/laws/[id]/page.tsx:80-108 | 本則 comes first exactly when some article has no division or that one, then the other divisions in the order in which they occur |
| OrphanCheck.NoOrphans | app/components/TableOfContents.tsx:418-482 | the search for unreachable articles finds none, for every list of articles |
| TocOrphans.OrphanIffHidden | app/components/TableOfContents.tsx:418-446 | in any tree with divisions the filter takes a number for an orphan exactly when no path from a division leads to it |
| TocOrphans.OrphanIffUnlisted | app/components/TableOfContents.tsx:448-478 | in any tree without divisions, exactly when no part, chapter or section lists it |
| TocOrphans.OrphanIffAbsent | app/components/TableOfContents.tsx:418-482 | in the tree of a law, exactly when no article of the law has that number |
| OrphanCheck.SectionNodeLists | app/components/TableOfContents.tsx:430-433 | the number a chapter lists for a section leads to the node with that section's articles |
| TocPartition.EntryIffArticle | app/laws/[id]/page.tsx:33-78 | a number is listed in a leaf exactly when an article with that number belongs there |
| TocPartition.LeavesCountArticles | app/laws/[id]/page.tsx:19-158 | the leaf sizes add up to the number of articles exactly when no two articles of one leaf share a number, and never to more |
| TocPartition.TreePartitionsArticles | app/laws/[id]/page.tsx:19-158 | with unique numbers each article is listed in exactly one leaf, and the sizes add up |
| TocPaths.ShowsIffLinked | app/laws/[id]/page.tsx:33-157 | following a path of titles through the tree leads to an article number exactly when each step is taken by the titles of some article |
| TocPaths.ShownIffTitled | app/laws/[id]/page.tsx:33-157 | the same in the titles themselves: which articles must carry the part, the chapter and the section of a path, and the number at its end |
| TocPaths.ShownOnceIff | app/laws/[id]/page.tsx:33-157 | an article is shown on the path of its own titles, and on no other exactly when no article of another chapter, part or division shares its section, chapter or part title |
| BatchProcessor.Processor.NewState | scripts/legacy/archive_20250820/batch-processor.ts:243-290 | a new state cuts the law list into batches of 100, none processed |
| BatchProcessor.Processor.ProcessAllLaws | scripts/legacy/archive_20250820/batch-processor.ts:239-353 | a session leaves the checkpoint that booting and taking the steps leaves; what each step saves is said by the four rows of BatchSteps below |
| BatchAccounting.MergedIsGood | scripts/legacy/archive_20250820/batch-processor.ts:322-339 | after a completed batch no batch from the new current one on is marked and law count and totals are again those of the marked batches |
| BatchProcessor.SessionIsRun | scripts/legacy/archive_20250820/batch-processor.ts:239-353 | a session on the checkpoint of a reachable machine continues that run, so the accounts below hold of it |
| BatchSteps.BootStartsAnew | scripts/legacy/archive_20250820/batch-processor.ts:259-290 | a new run saves zero counters and, before the first batch, as many unprocessed batches of a hundred laws as the laws need |
| BatchSteps.BootResumes | scripts/legacy/archive_20250820/batch-processor.ts:239-305 | a resumed process stands before the saved current batch, with everything else as saved |
| BatchSteps.SuccessIsSaved | scripts/legacy/archive_20250820/batch-processor.ts:318-346 | a batch that succeeds is saved as processed with its counts, each total grows by its counter, the law count by its laws, and the next batch is awaited; a report that cannot be written adds one error |
| BatchSteps.FailureIsSaved | scripts/legacy/archive_20250820/batch-processor.ts:347-352 | a batch that fails changes nothing but adds one error, and the next batch is awaited |
| BatchTotals.TotalsAreSums | scripts/legacy/archive_20250820/batch-processor.ts:322-328 | in every reachable state each of the six totals is the integer sum of that counter over the processed batches, errors with one more for each failure |
| BatchTotals.BatchesOfAHundred | scripts/legacy/archive_20250820/batch-processor.ts:262-270 | each saved batch holds 100 laws, the last one 1 to 100 |
| BatchAccounting.RunKeepsAccounts | scripts/legacy/archive_20250820/batch-processor.ts:305-353 | in every reachable state no batch from the current one on is marked, memory is what the disk holds, and the law count is the size of the marked batches |
| BatchAccounting.AwaitedIsUnprocessed | scripts/legacy/archive_20250820/batch-processor.ts:308-311 | the batch being processed was never marked, so the branch that counts it again is dead |
| BatchAccounting.InterruptIsKill | scripts/legacy/archive_20250820/batch-processor.ts:297-302 | the save on an interrupt writes what is already on disk |
| BatchAccounting.SavedStateCoversLaws | scripts/legacy/archive_20250820/batch-processor.ts:262-271 | the saved batches are the law list cut in order, and the law count is full exactly when all are processed |
| BatchRetries.LeftBehindForever | scripts/legacy/archive_20250820/batch-processor.ts:305-353 | a batch passed over stays unprocessed in every resumed run |
| BatchRetries.FailedThenSucceeded | scripts/legacy/archive_20250820/batch-processor.ts:305-353 | with more than 100 laws, a failure and a success leave the first batch passed over |
| BatchRetries.RetriedIff | scripts/legacy/archive_20250820/batch-processor.ts:305-353 | from any checkpoint, an unprocessed batch can still be processed without starting anew exactly when it does not lie before the current batch |
| ImporterClass.Importer.constructor | scripts/legacy/import-all-laws-neo4j.ts:45-59 | a new importer continues from the saved checkpoint, or from nothing |
| ImporterClass.Importer.CreateLawNodes | scripts/legacy/import-all-laws-neo4j.ts:144-183 | the loop over the batches takes the machine's steps, in graph, checkpoint, error list and saved file; what they save and add is said by DiskIsLastSave and ProcessAddsUp below |
| ImporterClass.StepsOfRun | scripts/legacy/import-all-laws-neo4j.ts:144-183 | what the loop does from a reachable state is part of a run |
| ImportAccounts.ProcessAddsUp | scripts/legacy/import-all-laws-neo4j.ts:148-178 | after any outcomes the count has grown by the laws of the created batches, the errors by those of the failed ones in order, and the graph by exactly the laws that reached it |
| ImportProgress.MemoryIsLastCreated | scripts/legacy/import-all-laws-neo4j.ts:160-161 | the index stands behind the last batch created |
| ImportProgress.DiskIsLastSave | scripts/legacy/import-all-laws-neo4j.ts:165-168 | the disk holds the checkpoint of the last batch created at a multiple of 1000 whose save went well, or what it held before |
| ImportProgress.LostProgressIff | scripts/legacy/import-all-laws-neo4j.ts:165-168 | what a crash loses is less than a thousand laws exactly when fewer than ten batches after that save were created, or the list ends before that |
| ImportProgress.FirstImportSaves | scripts/legacy/import-all-laws-neo4j.ts:148-168 | after n created batches of a first import the disk holds a checkpoint, and a crash loses less than a thousand laws |
| ImportProgress.AbortResumes | scripts/legacy/import-all-laws-neo4j.ts:369-373 | after an error a new process goes on with exactly the checkpoint that was in memory |
| ImportProgress.CrashResumes | scripts/legacy/import-all-laws-neo4j.ts:45-58 | after a crash it goes on with the one on the disk, or from nothing |
| ImportProgress.LaterSaveStays | scripts/legacy/import-all-laws-neo4j.ts:64-66 | a checkpoint that a later phase saves survives a crash |
| ImportProgress.FinishedStartsOver | scripts/legacy/import-all-laws-neo4j.ts:362-365 | after a finished import a new process starts from the first law, over the graph as it is |
| ImportState.RunKeepsCoverage | scripts/legacy/import-all-laws-neo4j.ts:45-66 | in memory and on disk, every law below the checkpoint's index is in the graph or among the errors, and the count of processed laws does not exceed the index |
| ImportState.EveryLawAccountedFor | scripts/legacy/import-all-laws-neo4j.ts:144-183 | however often the import fails, crashes and restarts, when node creation ends each law is in the graph or among the errors |
| TextPositions.PositionIsUnique | src/services/enhanced-detector.ts:59-70 | the offset is the start of the computed line plus the column minus one, and the computed line and column are the only ones of which that is so |
| TextPositions.PositionsFollowOffsets | src/services/enhanced-detector.ts:59-70 | lines and columns are ordered as the offsets are, and no two offsets share one |
| TextPositions.LinesStartAfterNewlines | src/services/enhanced-detector.ts:64-65 | lines start at the beginning and after each newline, and nowhere else |

## Left out

- `generateKey`, `getStatistics`, `estimateMemoryUsage` and `warmup` of the cache: keys are opaque, the rest are easy members.
- JSON text and dates: a saved cache or checkpoint is the value it denotes. A corrupted checkpoint file reads as a missing one in the batch processor; the importer stops with an exception on it, which is not modelled.
- The database, the graph server, XML and CSV reading, language models, the command line and the user interface: effects behind libraries that are not part of this model. Of the graph only the set of law ids is kept.
- The pattern catalogues of the detectors, the negative-pattern filter and the link rendering: lists of heuristics without a specification of their own.
- `sort`, `filter`, `replace`, `find` and the regular expressions used by the modelled functions: functions with the meaning the language gives them. The maps and sets of the source are values held in fields and variables, so that aliasing of them is not captured.
- Numbers beyond 2^53, fractions, NaN other than as an article number, and characters outside the basic plane: integers are unbounded and text is a sequence of characters.
- NumeralTheorems.ThreeReadersAgree: strings with 万, 〇 or 零 are not numerals here, because the readers really differ on them; `OtherNumerals` says how. The loops themselves are modelled on every string.
- ResolverRuns.ClosedForm: the starting article number, whatever it is (`scripts/import-law-data.ts` stores the raw number attribute, and 附則 plus a number for supplementary provisions), must read as a positive number; `ArticleContexts.StepsHoldIff` shows that nothing less will do, and what happens otherwise is in `ArticleContexts`.
- Numerals.DetectorKanjiToNumber: the source looks texts up in plain objects, so that a text such as "constructor" finds an inherited member; the model's tables hold their own entries only. The same goes for Numerals.PatternKanjiToNumber and for the numbers in relative references, which are kanji only.
- Intervals.Start: positions in a text are not negative.
- `resolveMultiple` and `resolveRelativeReference`: they call `resolve` on separate references.
- The detailed list of laws, the report files and the timing of the batch processor.
- `createReferences` and the clean-start option of the importer: their counters and the emptied graph are not resume-safe.
- `normalizeArticleNumbers`, `isValidArticleNumber` and the remaining formatting helpers: easy members.
