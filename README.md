# study-english-website: a Dafny model of the phonetic core

The site is an English-pronunciation trainer. It runs over a JSON dictionary of words. Each word has a British and an American IPA transcription and audio links. This project models the parts of the site that compute something:

- **The sound-comparison engine.** It finds the words that hold each of two IPA symbols and locates every occurrence of the symbol in the chosen transcription (`uk || us`). It writes the offsets as a comma-joined signature and sorts the words into first, middle and last buckets by the 20 % and 80 % marks. Within each bucket it pairs the words of the two symbols: words with identical signatures first, at score 100, then greedily by a position-match score. The engine exists twice, in `js/features/sound-comparison.js` and again in `script.js`. The model has one definition; the table cites both copies.
- **The two search predicates.** One is the single-sound phonetic search with its `tʃ`/`dʒ` special case. The other is the multi-sound search in AND and OR mode.
- **The rule logic of the six games:**
  - Sound Position Puzzle.
  - Sound Sorting: `sound-sorting.js`.
  - Sound Sorting Game: `sound-sorting-game.js`, with its Fisher–Yates shuffle.
  - Sound Matching.
  - Minimal Pairs Challenge.
  - Phonetic Hangman.
- **Pagination:** ten results a page, a page counter moved by Previous and Next, and the twin counter of the comparison view.

**How the source is represented:**
- The dictionary is an input sequence of `Dictionary.Entry` values. A missing transcription is the empty string, so `a || b` on transcriptions is `Preferred`.
- JavaScript objects used as dictionaries keep JavaScript's property order (module `JsObject`): canonical array-index keys first, in ascending numeric order, then the other keys in insertion order. That order decides the order of the exact-match pairs and of the lists left for the greedy phase. It also decides the order in which minimal pairs are discovered.
- The games and the pager are classes. Their fields are the objects' fields, with `modifies` clauses on the methods that change them.
- Every `Math.random()` draw is a parameter: a real in [0, 1) or an index. Every `sort(() => Math.random() - 0.5)` is a shuffle parameter that must return a permutation (`Collections.IsShuffle`). The Fisher–Yates shuffle of `sound-sorting-game.js` is modelled over a function of draws, and `ShuffleArray` keeps its array.
- Scores are `real`. The float tests `p <= L * 0.2`, `p < L * 0.8` and `p >= L * 0.8` are written exactly over integers: `5p <= L`, `L < 5p < 4L`, `5p >= 4L`.

Where the written code and its evident intent differ, the model follows the code and records the difference under "Findings". Each finding comes with a corrected member. One difference from the usual description of the Sound Matching game: it shows `max(|correct sounds|, 12)` options, not at most 12. The `while` loop only adds sounds until the set reaches 12, and it never removes correct ones. `SoundMatching.OptionsBounds` states the bound as it is.

## Model

| member | source | states |
|---|---|---|
| Text.IndexFrom | js/features/sound-comparison.js:113-117 | `indexOf` from an offset: -1 exactly when the substring occurs nowhere at or after it, otherwise the first place at or after it where it occurs |
| Text.IndexOf | js/features/sound-comparison.js:113 | `indexOf(sub, from)`: -1, or a place at or after `from` where `sub` occurs (the empty pattern past the end gives the length) |
| Text.IncludesIffIndexOf | js/features/phonetic-search.js:56 | `includes` holds exactly when `indexOf` finds the substring |
| Text.ReplaceFirst | js/games/sound-position-puzzle.js:133-147 | `replace` with a string pattern leaves a string without the pattern alone and otherwise changes its length by `|rep| - |pat|` |
| Text.ReplaceFirstRemovesFirst | js/games/sound-sorting.js:128-140 | cutting the pattern out removes exactly its first occurrence: the text before it and the text after it are joined |
| Text.LowerChar | js/games/phonetic-hangman.js:118 | `toLowerCase` on one character maps A–Z into a–z and leaves every other character alone |
| Text.Lower | js/games/phonetic-hangman.js:167 | `toLowerCase` keeps the length and lowers character by character |
| Text.TrimStart | js/features/phonetic-search.js:6 | the result is a suffix with no leading white space, and everything removed was white space |
| Text.TrimEnd | js/features/phonetic-search.js:14 | the result is a prefix with no trailing white space, and everything removed was white space |
| Text.Trim | js/features/phonetic-search.js:5-19 | `trim()` gives a piece of the input that neither starts nor ends with white space, and everything cut off on either side is white space |
| Text.TrimOfSpacesIsEmpty | js/features/phonetic-search.js:7 | an input of white space only trims to the empty string |
| Text.DigitChar | js/features/sound-comparison.js:120 | a digit value becomes a decimal digit character |
| Text.NatToString | js/features/sound-comparison.js:120 | a number prints as a non-empty run of digits that starts with 0 only for 0 itself |
| Text.ParseNatToString | js/features/sound-comparison.js:285-286 | `Number` of a printed offset gives the offset back |
| Text.NatToStringInjective | js/features/sound-comparison.js:120 | two different offsets never print alike |
| Dictionary.PreferredPresent | js/features/sound-comparison.js:111 | `uk \|\| us \|\| ''` is non-empty exactly when the word has some transcription |
| Collections.Filter | js/features/phonetic-search.js:46-58 | `filter` never grows the list, and keeps an element exactly when it is in the input and passes the test |
| Collections.FilterIsSubsequence | js/features/multi-phonetic-search.js:77-106 | a filtered list is a subsequence of the list it came from |
| Collections.Toggle | js/games/sound-matching-game.js:198-206 | a click removes a selected element and adds an unselected one |
| Collections.ToggleTwice | js/games/sound-position-puzzle.js:208-216 | two clicks on the same element give the selection back |
| Collections.Take | js/games/sound-sorting-game.js:143 | `slice(0, n)` keeps the first `min(n, length)` elements |
| Collections.RemoveAt | js/features/sound-comparison.js:258 | `splice(i, 1)` removes exactly the i-th element and keeps the others in order |
| JsObject.Find | js/features/sound-comparison.js:271 | the index of a property by key, or -1 exactly when no property has the key |
| JsObject.NewKeyPosition | js/features/sound-comparison.js:184 | a new array-index key goes after the smaller index keys and before everything else; any other new key goes last |
| JsObject.GetPut | js/features/sound-comparison.js:271-275 | after an assignment, reading the assigned key gives the new value and every other key reads as before |
| JsObject.GetRemove | js/features/sound-comparison.js:212-214 | after `delete`, the deleted key is absent and every other key reads as before |
| JsObject.PutDistinct | js/features/sound-comparison.js:271-275 | assignment never duplicates a key, and assigning an existing key keeps the key order |
| JsObject.PutOrdered | js/features/sound-comparison.js:184 | assignment keeps the property order JavaScript enumerates: index keys ascending, then the rest |
| JsObject.RemoveOrdered | js/features/sound-comparison.js:212-214 | `delete` keeps that property order |
| JsObject.PutValues | js/features/sound-comparison.js:206-209 | replacing a group's list changes the flattened values by exactly the old list out and the new list in |
| JsObject.RemoveValues | js/features/sound-comparison.js:212-214 | deleting a group removes exactly its list from the flattened values |
| JsObject.IndexKeysFirst | js/features/sound-comparison.js:220-221 | inserting "0,4", then "7", then "3" enumerates as "3", "7", "0,4" |
| PhoneticSearch.SearchByPhonetic | js/features/phonetic-search.js:46-58 | the results are exactly the dictionary words whose US or UK transcription passes the single-sound test, in dictionary order |
| PhoneticSearch.MatchesSound | js/features/phonetic-search.js:36-57 | a record matches a sound only when its US or UK transcription contains it; the affricate parts t, ʃ, d, ʒ are not counted inside tʃ and dʒ |
| PhoneticSearch.SubmitSearchBox | js/features/phonetic-search.js:5-19 | an input of white space only runs no search; any other input searches for its trimmed text |
| PhoneticSearch.OverriddenSearchByPhonetic | script.js:144-175 | the earlier, overridden declaration returns at most 20 results, a prefix of the effective search, and all of them when there are at most 20 |
| PhoneticSearch.NonSpaceSurvivesTrim | js/features/phonetic-search.js:6-7 | an input with a non-space character keeps a non-empty trimmed text, so it is searched |
| PhoneticSearch.NoTranscriptionNoMatch | js/features/phonetic-search.js:47-48 | a word with neither transcription never matches a non-empty sound |
| PhoneticSearch.AffricatePartRule | js/features/phonetic-search.js:36-53 | for t, ʃ, d and ʒ a word matches exactly when one of its transcriptions holds the sound and lacks tʃ (for t, ʃ) or dʒ (for d, ʒ) |
| PhoneticSearch.TeacherNotFoundForT | js/features/phonetic-search.js:50-53 | "teacher" (ˈtiːtʃə(r)) is not found for t, although its first t is no part of tʃ |
| PhoneticSearch.PlainSoundFound | js/features/phonetic-search.js:56 | any other sound is plain containment: "example" is found for æ through its US transcription |
| MultiPhoneticSearch.SearchMode | js/features/multi-phonetic-search.js:63-64 | the mode is the checked radio button's value, and AND when none is checked |
| MultiPhoneticSearch.SearchByMultiplePhonetics | js/features/multi-phonetic-search.js:77-106 | the results are exactly the words for which every selected sound (AND) or some selected sound (OR) passes the single-sound test, in dictionary order |
| MultiPhoneticSearch.MatchesSounds | js/features/multi-phonetic-search.js:77-106 | with one sound both modes are the single-sound test; with none, AND matches every record and OR none |
| MultiPhoneticSearch.SubmitSelection | js/features/multi-phonetic-search.js:17-24 | an empty selection runs no search; any other selection runs the search in the chosen mode |
| MultiPhoneticSearch.AndWithinOr | js/features/multi-phonetic-search.js:81-105 | for a non-empty selection the AND results are a subsequence of the OR results |
| MultiPhoneticSearch.SingleSoundAgrees | js/features/multi-phonetic-search.js:83-103 | with one sound, both modes return exactly the single-sound search |
| MultiPhoneticSearch.AndAcrossTranscriptions | js/features/multi-phonetic-search.js:84-91 | in AND mode different sounds may be found in different transcriptions: b only in UK and p only in US still pass |
| SymbolLocator.OccurrencesExact | js/features/sound-comparison.js:113-117 | the offset list holds exactly the places where the symbol starts, strictly increasing |
| SymbolLocator.OccurrencesIffIncludes | js/features/sound-comparison.js:138 | a word gets offsets exactly when its chosen transcription holds the symbol |
| SymbolLocator.Locate | js/features/sound-comparison.js:109-127 | one word's record: the chosen transcription, exactly the start offsets of the symbol in it, ascending, and their comma-joined signature |
| SymbolLocator.FindPositions | js/features/sound-comparison.js:113-117 | the `indexOf` loop restarting at `pos + 1` finds every occurrence, overlapping ones included |
| SymbolLocator.ProcessWordsForPositionMatching | script.js:575-597 | every word is located, one record per word, in input order |
| SymbolLocator.OverlapsCounted | js/features/sound-comparison.js:116 | "aa" occurs in "aaa" at 0 and at 1 |
| PositionPattern.Join | js/features/sound-comparison.js:120 | `positions.join(',')` is empty exactly for no offsets and uses only digits and commas |
| PositionPattern.Parse | js/features/sound-comparison.js:285-286 | `split(',').map(Number)` of a signature gives at least one number |
| PositionPattern.ParseJoin | js/features/sound-comparison.js:285-286 | splitting a signature and reading its numbers gives back the offset list it was joined from |
| PositionPattern.JoinInjective | js/features/sound-comparison.js:120 | two words share a signature only if they have the same offsets |
| PositionPattern.JoinExample | js/features/sound-comparison.js:120 | offsets 0 and 4 join to "0,4" |
| PositionClassifier.Categorized | js/features/sound-comparison.js:132-163 | a bucket never holds more words than the input |
| PositionClassifier.CategorizeWordsByPosition | js/features/sound-comparison.js:132-163 | the three arrays are the first, middle and last buckets of the input |
| PositionClassifier.CategorizedMembers | script.js:600-631 | a word is in a bucket exactly when one of its offsets passes that bucket's test: first `5p <= L`, middle `L < 5p < 4L`, last `5p >= 4L` |
| PositionClassifier.CategorizedInOrder | js/features/sound-comparison.js:141-156 | each bucket keeps the input order |
| PositionClassifier.Untagged | js/features/sound-comparison.js:143 | stripping the position tags gives the located words, one for one |
| PositionClassifier.SomeBucket | js/features/sound-comparison.js:141-156 | a word with an offset lands in at least one bucket |
| PositionClassifier.NoOffsetsNoBucket | js/features/sound-comparison.js:138 | a word without offsets is in no bucket |
| PositionClassifier.BucketBoundaries | js/features/sound-comparison.js:143-153 | in a ten-symbol transcription, offsets 0–2 are first, 3–7 middle and 8–9 last |
| PatternGrouper.GroupWordsByPositionPattern | js/features/sound-comparison.js:268-279 | the grouping object is the words grouped by signature, with keys in JavaScript enumeration order |
| PatternGrouper.Grouped | js/features/sound-comparison.js:268-279 | definition of the grouping object: each word appended to its signature's list, a new signature placed where JavaScript enumerates it: index keys ascending, then the rest in insertion order |
| PatternGrouper.PutTwice | js/features/sound-comparison.js:271-275 | assigning a key twice is assigning it once with the last value |
| PatternGrouper.GroupedOrdered | js/features/sound-comparison.js:268-279 | the grouping keeps JavaScript's key order |
| PatternGrouper.GroupedGet | js/features/sound-comparison.js:271-275 | a signature's group is exactly the words with that signature, in input order, and absent when there are none |
| PatternGrouper.WithKeyKeyed | js/features/sound-comparison.js:271 | every word in a signature's group has that signature |
| PatternGrouper.GroupedKeyed | js/features/sound-comparison.js:268-279 | every group holds only words of its own key and is never empty |
| PatternGrouper.GroupedMultiset | js/features/sound-comparison.js:268-279 | the groups together hold exactly the input words, each as often as in the input |
| MatchScore.CalculatePositionMatchScore | js/features/sound-comparison.js:282-302 | the method computes the score function, and the score lies in [0, 100] |
| MatchScore.ScoreRange | script.js:750-770 | the score of two offset lists lies in [0, 100] |
| MatchScore.PatternScoreRange | js/features/sound-comparison.js:282-302 | the score of two signatures lies in [0, 100], an empty signature included |
| MatchScore.TotalDiffZero | js/features/sound-comparison.js:294-297 | the summed distance of equally long lists is 0 exactly when they are equal |
| MatchScore.PerfectIffIdentical | js/features/sound-comparison.js:299-301 | two offset lists score 100 exactly when they are identical |
| MatchScore.MismatchBelowHalf | js/features/sound-comparison.js:289-291 | lists of different lengths score strictly between 0 and 50 |
| MatchScore.PatternScoreOfSignatures | js/features/sound-comparison.js:283-286 | the score of two signatures is the score of their offsets, and 0 if either is empty |
| MatchScore.PerfectIffSameSignature | js/features/sound-comparison.js:282-302 | two non-empty signatures score 100 exactly when they are the same string |
| MatchScore.ShiftedByOne | js/features/sound-comparison.js:294-301 | offsets 0,4 against 1,5 score 90 |
| MatchScore.OneAgainstTwo | js/features/sound-comparison.js:289-291 | offset 0 against offsets 0,4 scores 25: the length-mismatch branch |
| PositionMatcher.Items | js/features/sound-comparison.js:247-255 | the words of a list of pairs, one for one |
| PositionMatcher.Scored | js/features/sound-comparison.js:206-209 | each word of a group carries the given score |
| PositionMatcher.Scores | js/features/sound-comparison.js:231-242 | the score of a first word against every remaining second word, in order |
| PositionMatcher.BestFrom | js/features/sound-comparison.js:231-242 | the best-match scan ends on an index of the list |
| PositionMatcher.BestMatch | js/features/sound-comparison.js:224-242 | the chosen partner is an index of the remaining second list |
| PositionMatcher.FindWordPairsWithinCategory | js/features/sound-comparison.js:166-265 | the method returns exactly the pairing function's two lists: the exact phase over the groups in enumeration order, then the greedy phase over what is left |
| PositionMatcher.PairIdentical | script.js:634-685 | the exact-match loop leaves the groups and pairs of the exact phase over the first side's keys in enumeration order |
| PositionMatcher.ExactInvStep | js/features/sound-comparison.js:184-217 | each key the loop visits is still present on the first side, and one step keeps the loop invariant |
| PositionMatcher.PairSignature | js/features/sound-comparison.js:186-216 | one signature: the first `min(n1, n2)` words of both groups are paired at 100 and the groups keep their unpaired tails or are deleted |
| PositionMatcher.PairRemaining | script.js:688-727 | the greedy loop returns exactly the greedy function's pairs |
| PositionMatcher.GreedyInvStep | js/features/sound-comparison.js:224-259 | one greedy step pairs the first word with its best match and removes that match from the remaining list |
| PositionMatcher.GreedyInvEnd | js/features/sound-comparison.js:226 | the loop stopping at the end of the first list or at an empty second list leaves the greedy result |
| PositionMatcher.FindBestMatch | js/features/sound-comparison.js:228-242 | the scan for the best partner returns the index and score of the pure best-match function |
| PositionMatcher.GreedyStep | js/features/sound-comparison.js:244-258 | the greedy result from any first word on is that word's pair, then the greedy result for the rest |
| PositionMatcher.PairWordsUnfold | js/features/sound-comparison.js:184-259 | the pairing is the exact phase's pairs followed by the greedy pairs of the flattened leftovers |
| PositionMatcher.ExactPairsAppend | js/features/sound-comparison.js:206-209 | appending two equally long groups of one signature, at 100, keeps every exact pair at 100 with equal signatures |
| PositionMatcher.ExactStepInv | js/features/sound-comparison.js:186-216 | a step of the exact phase keeps both groupings ordered and keyed, the exact pairs parallel at 100 with equal signatures, and pairs plus leftovers of each side equal to that side's input words |
| PositionMatcher.ExactStep | js/features/sound-comparison.js:185-216 | definition of one signature's exact matching: `min` of both lengths paired at 100, the rest kept, emptied groups deleted |
| PositionMatcher.ExactPhase | js/features/sound-comparison.js:184-217 | definition of the exact phase: the step for each first-sound signature in key order |
| PositionMatcher.ExactStepOrdered | js/features/sound-comparison.js:206-214 | a step keeps both groupings in JavaScript key order |
| PositionMatcher.ExactStepElsewhere | js/features/sound-comparison.js:186-216 | a step changes only the group of its own signature |
| PositionMatcher.ExactPhaseInv | js/features/sound-comparison.js:184-217 | the whole exact phase keeps that invariant |
| PositionMatcher.ExactMatchesInv | js/features/sound-comparison.js:178-217 | after the exact phase, pairs and leftovers account for every input word exactly once |
| PositionMatcher.Greedy | js/features/sound-comparison.js:220-259 | definition of the greedy phase: each leftover first word, in order, takes its best remaining partner, until either list runs out |
| PositionMatcher.BestFromMax | js/features/sound-comparison.js:231-242 | the strict `>` scan starting at index 0 with score 0 ends on the first index of maximal score |
| PositionMatcher.BestMatchIsFirstMaximum | js/features/sound-comparison.js:228-242 | the best match has the greatest score of all remaining second words, and no earlier word has that score |
| PositionMatcher.GreedyLength | js/features/sound-comparison.js:224-259 | the greedy phase adds exactly `min(|remaining first|, |remaining second|)` pairs, taking the first words in order |
| PositionMatcher.GreedyNoReuse | js/features/sound-comparison.js:258 | the greedy phase uses each remaining second word at most once |
| PositionMatcher.GreedyScores | js/features/sound-comparison.js:247-255 | both halves of each greedy pair carry the same score, which is the pair's match score |
| PositionMatcher.SideCount | js/features/sound-comparison.js:220-221 | words paired plus words left equal the side's input length |
| PositionMatcher.PairWordsLength | js/features/sound-comparison.js:166-265 | both returned lists have length `min(|first|, |second|)`, so both are empty when either input is |
| PositionMatcher.PairWordsNoReuse | js/features/sound-comparison.js:166-265 | no word of either side appears in the output more often than in the input |
| PositionMatcher.PairWordsScores | js/features/sound-comparison.js:166-265 | the outputs are parallel, and the two entries at each index carry the same score in [0, 100]: either 100 for words of equal signature, or the two words' match score |
| PositionMatcher.PairWords | js/features/sound-comparison.js:166-265 | definition of `findWordPairsWithinCategory`: nothing for an empty side, else the exact pairs followed by the greedy pairs |
| PositionMatcher.SmallerSideFullyPaired | js/features/sound-comparison.js:166-265 | every word of the smaller side is paired |
| PositionMatcher.ConsumeAll | js/features/sound-comparison.js:212-214 | a group that is paired out entirely is deleted |
| PositionMatcher.ExactStepSplits | js/features/sound-comparison.js:200-216 | after a signature's step the signature remains on at most one side |
| PositionMatcher.ExactPhaseSplits | js/features/sound-comparison.js:184-217 | after the first k keys, none of them remains on both sides |
| PositionMatcher.RemainingUnderKey | js/features/sound-comparison.js:220-221 | every leftover word sits in the group of its own signature |
| PositionMatcher.NoSharedSignatureRemains | js/features/sound-comparison.js:184-221 | after the exact phase no leftover first word shares a signature with a leftover second word |
| PositionMatcher.PairingScenario | js/features/sound-comparison.js:166-265 | for first words "2" and "2,6" against second words "2" and "3", the "2" words pair at 100 and then "2,6" pairs with "3" at 25 |
| SoundComparison.LocateAll | js/features/sound-comparison.js:40-41 | every word found is located, in order |
| SoundComparison.BucketSigned | js/features/sound-comparison.js:40-45 | every bucketed word carries the signature of its offsets |
| SoundComparison.Bucket | js/features/sound-comparison.js:36-48 | definition of one position bucket of one sound: the words found for it, located and categorized |
| SoundComparison.BucketPairs | js/features/sound-comparison.js:48-64 | a position's two pair lists are as long as the smaller of its two buckets |
| SoundComparison.Compared | js/features/sound-comparison.js:29-66 | definition of `compareSounds`'s result: the pairs of the first, middle and last buckets |
| SoundComparison.SetupSoundComparison | js/features/sound-comparison.js:4-26 | a missing symbol gives the "select both" alert, equal symbols the "select different" alert, and anything else the comparison |
| SoundComparison.CompareSounds | js/features/sound-comparison.js:29-76 | the method returns the pairs of all three positions, computed from the two searches |
| SoundComparison.BucketWordsQualify | js/features/sound-comparison.js:79-163 | every word in a bucket is a dictionary word that matches the symbol, located in its chosen transcription, with an offset passing that bucket's test |
| SoundComparison.ComparisonPairsQualify | script.js:525-572 | each position's pairs are parallel; their first halves come from the first symbol's bucket, their second halves from the second symbol's, all well scored |
| SoundComparison.ChosenTranscriptionHoldsSound | js/features/sound-comparison.js:109-138 | a bucketed word's chosen transcription really holds the symbol |
| SoundComparison.UsOnlyMatchIsDropped | script.js:497-522 | a word whose match is only in the US transcription, while a UK one exists, is found by the search but lands in no bucket |
| GameRules.CutOnlyForAffricates | js/games/sound-position-puzzle.js:133-147 | the affricate cut only rejects a part of tʃ or dʒ in a transcription that holds that affricate |
| GameRules.CheeseRejectedForT | js/games/sound-position-puzzle.js:133-139 | "tʃiːz" does not count for t |
| GameRules.ChurchPassesForT | js/games/sound-sorting.js:128-133 | "tʃɜːtʃ" passes the cut for t, although the search rule rejects "church" for t |
| GameRules.TeacherPassesCutForT | js/games/sound-sorting.js:128-133 | "ˈtiːtʃə(r)" counts for t under the games' cut |
| GameRules.RoundScore | js/games/sound-position-puzzle.js:243-247 | `Math.max(0, correct - incorrect)` never exceeds the correct count, and equals it when nothing is wrong |
| GameRules.Pick | js/games/minimal-pairs-challenge.js:179 | `Math.floor(Math.random() * n)` is a valid index |
| GameRules.PickIsFloor | js/games/phonetic-hangman.js:102 | the picked index is the whole part of `draw * n` |
| GameRules.RoundedPercent | js/games/phonetic-hangman.js:238 | `Math.round(score / total * 100)` is within half a point of the exact percentage |
| GameRules.PercentAtMostHundred | js/games/phonetic-hangman.js:238 | a score no larger than its total shows between 0 and 100 % |
| GameRules.PercentOfTen | js/games/minimal-pairs-challenge.js:326 | out of ten rounds, a score of s shows 10·s % |
| GameRules.AccuracyInRange | js/games/sound-matching-game.js:277-278 | the corrected percentage, score out of points offered, lies between 0 and 100 |
| Pagination.TotalPages | js/core/pagination.js:21 | `Math.ceil(n / 10)`: the fewest pages of ten that hold n items, and 0 only for no items |
| Pagination.SameWindow | js/core/pagination.js:303-308 | the comparison page, left to `slice` clamping, is the same window as the search page |
| Pagination.PageContents | script.js:986-992 | page p holds the items from `(p-1)·10` on, at most ten of them, as many as are left, and none past the end |
| Pagination.PageEmptyIffBeyondLast | js/core/pagination.js:34-40 | a page is empty exactly when its number is past the page count |
| Pagination.PageOfIndex | js/core/pagination.js:36-40 | item i is on page `i/10 + 1`, at place `i mod 10` |
| Pagination.PageShift | js/core/pagination.js:36-40 | page p+1 of a list is page p of the list without its first ten items |
| Pagination.PagesPartition | js/core/pagination.js:34-40 | pages 1 to the page count, end to end, are the whole list |
| Pagination.Slice | js/core/pagination.js:40 | `slice` with clamped bounds: never longer than the list, empty when the end is not past the start, and item k is item `start + k` of the list, below the end |
| Pagination.ComparisonPage | js/core/pagination.js:303-308 | a comparison page holds at most ten items |
| Pagination.Pages | js/core/pagination.js:21-40 | there are exactly `TotalPages` pages, each non-empty and at most ten items long |
| Pagination.ControlsIffSeveralPages | script.js:1372-1410 | the comparison view makes controls for more than ten pairs, which is exactly more than one page |
| Pagination.Pager.constructor | js/core/pagination.js:2-3 | the counter starts on page 1 with nothing stored |
| Pagination.Pager.ShowResults | js/core/pagination.js:16-31 | storing a list resets the counter to 1 and shows page 1 with its controls; the other stored lists are unchanged |
| Pagination.PageSlice | js/core/pagination.js:34-40 | a page is at most ten items, the consecutive ones from `(page-1)*10` on, and short only at the end of the list |
| Pagination.CreatePaginationControls | js/core/pagination.js:92-135 | no controls exactly when there is at most one page; otherwise they show the page, and Previous and Next are disabled exactly on the first and last page |
| Pagination.Pager.ShowResultsAsWritten | script.js:1147-1186 | the phonetic searches show page 1 but keep the old counter, which the controls then display |
| Pagination.Pager.HandlePageChange | js/core/pagination.js:138-187 | a page change shows the counter's page and rebuilds its controls |
| Pagination.Pager.Previous | js/core/pagination.js:104-109 | Previous moves back one page only above page 1, and keeps the shown page and controls in step with the counter |
| Pagination.Pager.Next | js/core/pagination.js:116-121 | Next moves forward one page only below the last page, and keeps the shown page and controls in step with the counter |
| Pagination.StalePageAfterSearch | script.js:1182-1183 | after paging to 3 of a long list, a two-page phonetic search reads "Page 3 of 2" |
| Pagination.PageResetAfterSearch | js/core/pagination.js:24 | with the counter reset, the same steps read "Page 1 of 2" |
| Pagination.ComparisonPager.constructor | js/core/pagination.js:190-227 | controls exist only for more than ten pairs; pages count by the longer list; both containers start on page 1 |
| Pagination.ComparisonPager.SyncButtons | js/core/pagination.js:236-243 | both indicators show the shared page; Previous is disabled exactly on page 1, and Next exactly on the last page |
| Pagination.ComparisonPager.TurnAsWritten | js/core/pagination.js:228-297 | a click moves the shared counter within bounds and syncs both indicators, but refreshes only its own container |
| Pagination.ComparisonPager.Turn | js/core/pagination.js:301-322 | the corrected click keeps the counter in `[1, totalPages]` and both containers on the shared page |
| Pagination.UnsyncedComparisonColumns | js/core/pagination.js:246-262 | after Next in the first container, the second reads "Page 2" while still showing items 0–9 |
| Pagination.SyncedComparisonColumns | js/core/pagination.js:303-308 | with both refreshed, the second container shows items 10–19 on page 2 |
| SoundPositionPuzzleGame.DrawnSound | js/games/sound-position-puzzle.js:88-103 | the drawn sound and position are elements of the fixed lists |
| SoundPositionPuzzleGame.MatchingWordsMembers | js/games/sound-position-puzzle.js:105-171 | the correct words are exactly the dictionary words that pass the puzzle test |
| SoundPositionPuzzleGame.MatchingWords | js/games/sound-position-puzzle.js:105-171 | the correct words, at most as many as the dictionary has; their members are stated by `MatchingWordsMembers` |
| SoundPositionPuzzleGame.CorrectShown | js/games/sound-position-puzzle.js:239-241 | the count of shown words that are correct is at most the number shown |
| SoundPositionPuzzleGame.AccuracyAsWritten | js/games/sound-position-puzzle.js:296-297 | the game-over percentage over the ten rounds, between 0 and 100 while the score is at most ten (it is not bounded above the ten, see `AccuracyAsWrittenOverflows`) |
| SoundPositionPuzzleGame.PuzzleMatch | js/games/sound-position-puzzle.js:114-168 | definition of the puzzle test: a shown transcription that holds the sound past the affricate cut, in the part asked for |
| SoundPositionPuzzleGame.MatchingWordsOfTranscribed | js/games/sound-position-puzzle.js:107-109 | pre-filtering to transcribed words changes nothing |
| SoundPositionPuzzleGame.MatchingWordsMeaning | js/games/sound-position-puzzle.js:114-168 | a word is correct exactly when its `uk \|\| us` transcription is non-empty, passes the affricate cut, and has an occurrence of the sound in the chosen part |
| SoundPositionPuzzleGame.FillersQualify | js/games/sound-position-puzzle.js:188-195 | a filler word is a transcribed dictionary word that is not correct |
| SoundPositionPuzzleGame.OfferedCount | js/games/sound-position-puzzle.js:181-195 | at most ten words are shown, and exactly `min(5, |correct|)` of them are correct |
| SoundPositionPuzzleGame.OfferedBounds | js/games/sound-position-puzzle.js:173-200 | after the final shuffle: at most ten words, `min(5, |correct|)` correct ones, and every other one a transcribed dictionary word |
| SoundPositionPuzzleGame.AccuracyAsWrittenOverflows | js/games/sound-position-puzzle.js:296-297 | three perfect rounds of five words give 150 % as written against 100 % corrected |
| SoundPositionPuzzleGame.PerfectIffExactSelection | js/games/sound-position-puzzle.js:243-253 | a round is perfect exactly when the selection is the set of correct words shown |
| SoundPositionPuzzleGame.MatchesRound | js/games/sound-position-puzzle.js:116-168 | the loop over occurrences decides the puzzle test for one word |
| SoundPositionPuzzleGame.SoundPositionPuzzle.constructor | js/games/sound-position-puzzle.js:5-21 | a new game has score 0, round 0 and nothing selected |
| SoundPositionPuzzleGame.SoundPositionPuzzle.FindMatchingWords | js/games/sound-position-puzzle.js:105-171 | the round's correct words are the matching words of its sound and position |
| SoundPositionPuzzleGame.Fillers | js/games/sound-position-puzzle.js:187-193 | definition of the wrong-answer candidates: every other dictionary word with a transcription |
| SoundPositionPuzzleGame.Offered | js/games/sound-position-puzzle.js:178-197 | definition of the offered words: the first five correct ones, then wrong ones up to ten in all |
| SoundPositionPuzzleGame.SoundPositionPuzzle.GenerateWordOptions | js/games/sound-position-puzzle.js:173-220 | the correct words, the wrong ones and the words shown are each shuffled by their own permutation; the shown words are the shuffled offer: at most ten, with `min(5, |correct|)` correct |
| SoundPositionPuzzleGame.SoundPositionPuzzle.ToggleWord | js/games/sound-position-puzzle.js:208-216 | a click toggles the word in the selection |
| SoundPositionPuzzleGame.SoundPositionPuzzle.CheckAnswer | js/games/sound-position-puzzle.js:222-294 | selections split into correct and incorrect; the score grows by the round score, never more than 5; perfect exactly when all correct shown words and nothing else are selected |
| SoundPositionPuzzleGame.SoundPositionPuzzle.GetRandomSoundAndPosition | js/games/sound-position-puzzle.js:88-103 | the round's sound and position come from the draws, and its correct words follow from them |
| SoundPositionPuzzleGame.SoundPositionPuzzle.BeginRound | js/games/sound-position-puzzle.js:69-86 | a round increments the counter and clears the selection |
| SoundPositionPuzzleGame.SoundPositionPuzzle.Deal | js/games/sound-position-puzzle.js:75-79 | the deal shows at most ten words, at most five of them correct |
| SoundPositionPuzzleGame.SoundPositionPuzzle.NextRound | js/games/sound-position-puzzle.js:64-86 | rounds advance until ten; at the end the game is over with the corrected accuracy and every round field, the selection and the buttons stay as they were; a new round keeps score, points offered and game state, deals the drawn sound, position and words, clears the selection, enables Check and disables Next |
| SoundPositionPuzzleGame.SoundPositionPuzzle.StartGame | js/games/sound-position-puzzle.js:57-62 | a fresh game starts in round 1 with score 0 and no points offered, not over, with the drawn round dealt, no selection, Check enabled and Next disabled |
| SoundPositionPuzzleGame.SoundPositionPuzzle.EndGame | js/games/sound-position-puzzle.js:296-297 | the corrected percentage, score out of correct words shown, lies within 0–100 |
| Categories.Removed | js/games/sound-sorting.js:224-226 | filtering every category keeps the category count and filters each list |
| Categories.ReplaceCategory | js/games/sound-sorting.js:224-229 | replacing one category by a list of unsorted or own cards keeps every card in at most one place |
| Categories.FlattenRemoved | js/games/sound-sorting.js:224-226 | filtering every category is filtering all sorted cards |
| Categories.RemovedKeepsSorted | js/games/sound-sorting.js:224-226 | removal keeps every card in at most one place and removes exactly the filtered-out cards |
| Categories.PlacedKeepsSorted | js/games/sound-sorting.js:229 | pushing an unsorted card keeps every card in at most one place and adds exactly that card |
| Categories.MoveCardKeepsSorted | js/games/sound-sorting.js:218-233 | moving a card leaves it exactly once, at the end of its new category, with nothing else added, and every other card stays in its category |
| Categories.NoneSorted | js/games/sound-sorting.js:78 | a new round has one category list per sound |
| Categories.EmptyCategories | js/games/sound-sorting.js:78 | a new round has no card sorted |
| Categories.PlacedCount | js/games/sound-sorting.js:294-299 | no more cards are sorted than dealt, and all are sorted exactly when every card is placed |
| SoundSorting.DrawnGroup | js/games/sound-sorting.js:96-97 | the drawn group is three distinct sounds |
| SoundSorting.CardsOf | js/games/sound-sorting.js:146-153 | each card holds its word, its `uk \|\| us` transcription and the sound it belongs to |
| SoundSorting.FoundCardsQualify | js/games/sound-sorting.js:117-154 | at most `count` cards; each carries its sound, a non-empty transcription holding the sound outside the first affricate, and a dictionary word |
| SoundSorting.PoolQualifies | js/games/sound-sorting.js:94-115 | the pool holds at most five cards per sound in total; each card's transcription holds its own sound, which is one of the round's sounds |
| SoundSorting.Pool | js/games/sound-sorting.js:100-112 | definition of the unshuffled pool: each sound's found cards in turn |
| SoundSorting.DealtCardsQualify | js/games/sound-sorting.js:114 | the shuffled pool keeps that bound and those properties |
| SoundSorting.FindCard | js/games/sound-sorting.js:220-221 | `find` gives the first card with the text, or nothing when no card has it |
| SoundSorting.ReturnKeepsSorted | js/games/sound-sorting.js:254-256 | clicking a card back removes every card of that text from its category and changes no other category |
| SoundSorting.ReturnKeepsFirstCards | js/games/sound-sorting.js:254-256 | clicking a card back keeps the lists holding only the first card of each text, so `StuckOnDuplicateText` survives clicks back |
| SoundSorting.MoveByTextKeepsSorted | js/games/sound-sorting.js:224-229 | after a move, the text occurs exactly once, at the end of the target; every other category keeps a subsequence of its cards |
| SoundSorting.StuckOnDuplicateText | js/games/sound-sorting.js:218-229 | with two cards of the same text, moves by text never sort every card |
| SoundSorting.SortsAddUp | js/games/sound-sorting.js:302-313 | correct and incorrect counts over the first k categories add up to the cards in them |
| SoundSorting.AllSortsAddUp | js/games/sound-sorting.js:302-313 | correct and incorrect counts add up to all sorted cards |
| SoundSorting.PerfectIffNoneMisplaced | js/games/sound-sorting.js:323 | with every card sorted, all correct is the same as none incorrect |
| SoundSorting.CountSorts | js/games/sound-sorting.js:302-313 | the counting loops return the correct and incorrect counts, which add up to the sorted cards |
| SoundSorting.CollectPool | js/games/sound-sorting.js:100-112 | the loop over the sounds builds the pool |
| SoundSorting.SoundSortingGame.constructor | js/games/sound-sorting.js:5-25 | a new game has score 0 and round 0 |
| SoundSorting.SoundSortingGame.RemoveEverywhere | js/games/sound-sorting.js:224-226 | every category is filtered with the same test |
| SoundSorting.SoundSortingGame.MoveWordToCategory | js/games/sound-sorting.js:218-233 | an unknown text changes nothing; otherwise every card of that text leaves its category and the first one is pushed onto the target |
| SoundSorting.SoundSortingGame.ReturnToPool | js/games/sound-sorting.js:254-256 | the clicked category loses the cards of that text, and no other category changes; lists holding first cards only keep doing so |
| SoundSorting.SoundSortingGame.MoveCard | js/games/sound-sorting.js:229 | the corrected move by card: the card leaves its category and is pushed onto the target, and nothing else joins the sorted cards |
| SoundSorting.SoundSortingGame.CheckAnswer | js/games/sound-sorting.js:290-359 | refused, with no change, while fewer cards are sorted than dealt; otherwise the score grows by the round score and the round is perfect exactly when all are right |
| SoundSorting.SoundSortingGame.GetRandomSoundsAndWords | js/games/sound-sorting.js:94-115 | the round's sounds are the drawn group, no card is sorted yet, and the cards are the shuffled pool |
| SoundSorting.SoundSortingGame.NextRound | js/games/sound-sorting.js:70-92 | rounds advance until five; at the end the game is over and the sounds, cards, categories and buttons stay as they were; a new round deals the drawn group with one empty list per sound and the shuffled pool, Check enabled and Next disabled |
| SoundSorting.SoundSortingGame.StartGame | js/games/sound-sorting.js:63-68 | a fresh game (also Play Again) starts in round 1 with score 0, not over, on the drawn sound group with no word sorted and the shuffled pool to sort, Check enabled and Next disabled |
| SortingGame.Swap | js/games/sound-sorting-game.js:364 | the swap exchanges two places and leaves the others |
| SortingGame.FisherYates | js/games/sound-sorting-game.js:361-367 | the shuffle keeps the length |
| SortingGame.SwapPermutes | js/games/sound-sorting-game.js:364 | a swap keeps the elements |
| SortingGame.ShufflePermutes | js/games/sound-sorting-game.js:362-365 | the countdown loop of swaps keeps the elements |
| SortingGame.ShuffleFrom | js/games/sound-sorting-game.js:362-365 | the countdown loop of swaps keeps the length |
| SortingGame.FisherYatesPermutes | js/games/sound-sorting-game.js:361-367 | the shuffle is a permutation for every choice of draws `j` in `[0, i]` |
| SortingGame.ShuffleKeepsAbove | js/games/sound-sorting-game.js:362-365 | places above the loop index are no longer touched |
| SortingGame.FisherYatesLast | js/games/sound-sorting-game.js:363-364 | the last place receives the element the first draw picks |
| SortingGame.ShuffleArray | js/games/sound-sorting-game.js:361-367 | the array is permuted in place, into the shuffle of its old contents |
| SortingGame.ShuffleCopy | js/games/sound-sorting-game.js:102 | shuffling a copy gives the shuffle of the list |
| SortingGame.SoundsToUse | js/games/sound-sorting-game.js:95-100 | the sounds in use always number at least three, because a shorter selection falls back to the fixed list |
| SortingGame.DrawnSoundsFromAvailable | js/games/sound-sorting-game.js:102-103 | the round's sounds are three, taken from the sounds in use |
| SortingGame.Tagged | js/games/sound-sorting-game.js:145-150 | each word is tagged with the sound it was chosen for |
| SortingGame.WordsForQualify | js/games/sound-sorting-game.js:139-151 | at most three words per sound, each from the mock pool, holding and tagged with that sound |
| SortingGame.GatheredQualify | js/games/sound-sorting-game.js:139-151 | at most three words per sound overall, each holding its own tag, which is a round sound |
| SortingGame.DealtWordsQualify | js/games/sound-sorting-game.js:154 | the final shuffle keeps that bound and those properties |
| SortingGame.SelectWords | js/games/sound-sorting-game.js:143 | a sound's words are the first three of a shuffle of the mock words containing it |
| SortingGame.PushTagged | js/games/sound-sorting-game.js:145-150 | the loop appends the sound's words tagged with it |
| SortingGame.GatherWords | js/games/sound-sorting-game.js:139-151 | the loop over the sounds gathers their words |
| SortingGame.GetRandomSoundsAndWords | js/games/sound-sorting-game.js:92-172 | three sounds and the final shuffle of their words, as the deal defines them |
| SortingGame.WellSortedInRange | js/games/sound-sorting-game.js:262-280 | cards in the containers are valid card indices |
| SortingGame.ReadCategory | js/games/sound-sorting-game.js:268-276 | each card read in a container gives its word and sound, in container order |
| SortingGame.ReadOut | js/games/sound-sorting-game.js:262-280 | `updateSortedWords` reads every container, one list per sound |
| SortingGame.AllInPlace | js/games/sound-sorting-game.js:296-304 | the loop's verdict is true exactly when every placed word's sound is its container's sound |
| SortingGame.RoundCorrect | js/games/sound-sorting-game.js:296-304 | definition of a correct round: every word in every category carries that category's sound |
| SortingGame.NothingSortedPasses | js/games/sound-sorting-game.js:296-304 | with nothing placed, a round counts as correct |
| SortingGame.AllCards | js/games/sound-sorting-game.js:184-196 | the pool as first rendered holds each dealt card once, in dealt order |
| SortingGame.FirstWithText | js/games/sound-sorting-game.js:245-246 | `querySelector` by `data-word` finds the first card in document order showing that text, or none when no card does |
| SortingGame.UniqueTextFindsCard | js/games/sound-sorting-game.js:220-246 | a card whose text no other card shows is the card its text finds |
| SortingGame.DuplicateTextMovesOtherCard | js/games/sound-sorting-game.js:220-246 | with two "fish" cards tagged ɪ and ʃ, dragging the ʃ one onto ʃ moves the ɪ one, and the check then fails |
| SortingGame.SoundSortingGame.constructor | js/games/sound-sorting-game.js:5-18 | the available sounds are the ones selected, or the default list when none are; score and round start at 0 |
| SortingGame.SoundSortingGame.UpdateSortedWords | js/games/sound-sorting-game.js:262-280 | the recorded words are the read-out of the containers |
| SortingGame.SoundSortingGame.Drop | js/games/sound-sorting-game.js:241-258 | the corrected drop of the dragged card itself: it leaves the pool or its container and joins the end of the target, category or pool; the pool keeps exactly the cards no category holds |
| SortingGame.SoundSortingGame.DropText | js/games/sound-sorting-game.js:220-258 | the drop as written, by text: a text no card shows changes nothing; otherwise the first card showing it in document order, pool before categories, is the one moved |
| SortingGame.SoundSortingGame.CheckSorting | js/games/sound-sorting-game.js:282-337 | the round is correct exactly when every placed word is in its sound's container, and the score then grows by one |
| SortingGame.SoundSortingGame.CheckSortingComplete | js/games/sound-sorting-game.js:296-304 | the corrected check refuses, with no change, while a card lies in the pool; otherwise it scores as before |
| SortingGame.SoundSortingGame.NextRound | js/games/sound-sorting-game.js:67-90 | rounds advance until five; at the end the game is over with both buttons disabled and the sounds, words, containers and pool stay as they were; a new round deals three sounds and their words with empty containers and every card in the pool |
| SortingGame.SoundSortingGame.BeginRound | js/games/sound-sorting-game.js:73-88 | a round increments the counter and empties every container |
| SortingGame.SoundSortingGame.StartGame | js/games/sound-sorting-game.js:60-65 | a fresh game (also Play Again) starts in round 1 with score 0, not over, with the drawn sounds and words dealt, every card in the pool in dealt order, nothing placed, Check enabled and Next disabled |
| SoundMatching.DetermineCorrectSounds | js/games/sound-matching-game.js:136-173 | the loop returns exactly the sounds the inclusion rule keeps, then the affricates present not already listed |
| SoundMatching.CorrectSounds | js/games/sound-matching-game.js:136-173 | definition of the correct sounds: the inclusion rule over the inventory, then tʃ and dʒ when present and not listed |
| SoundMatching.AffricateHoldsParts | js/games/sound-matching-game.js:143 | a transcription with an affricate holds both of its parts |
| SoundMatching.KeptOutsideAffricates | js/games/sound-matching-game.js:159-161 | away from the affricate cases, a sound is kept exactly when the transcription holds it |
| SoundMatching.KeptPartOfAffricate | js/games/sound-matching-game.js:141-157 | a part of a present affricate is kept exactly when it is doubled or remains after the first affricate is cut out |
| SoundMatching.CorrectSoundsDistinct | js/games/sound-matching-game.js:166-172 | no sound is listed twice |
| SoundMatching.CorrectSoundsMembers | js/games/sound-matching-game.js:141-172 | a sound is correct exactly when the rule keeps a listed sound, or it is an affricate present in the transcription |
| SoundMatching.TopUpsNeverFire | js/games/sound-matching-game.js:166-172 | the affricates are in the inventory, so the top-up never adds one the loop missed |
| SoundMatching.InventoryDistinct | js/games/sound-matching-game.js:13-17 | the 36-sound inventory has no duplicates |
| SoundMatching.OptionCount | js/games/sound-matching-game.js:183 | the target is `min(12, |inventory|)` |
| SoundMatching.OptionsLoopBounds | js/games/sound-matching-game.js:183-186 | the loop only adds inventory sounds, stops once the target is reached, and otherwise adds every draw |
| SoundMatching.OptionsLoop | js/games/sound-matching-game.js:183-186 | definition of the filling loop: one drawn inventory sound added per pass while the set is short of the target; its bounds are stated by `OptionsLoopBounds` |
| SoundMatching.IsPlayable | js/games/sound-matching-game.js:88-91 | definition of a playable word: a transcription, and a UK or US transcription longer than three characters |
| SoundMatching.Options | js/games/sound-matching-game.js:180-187 | definition of the options: the correct sounds, then inventory draws until twelve (or the inventory size) |
| SoundMatching.OptionsBounds | js/games/sound-matching-game.js:180-186 | the options contain every correct sound, come from the inventory, and number at most `max(|correct|, 12)` |
| SoundMatching.GenerateSoundOptions | js/games/sound-matching-game.js:175-210 | the set of options is the options the draws produce |
| SoundMatching.SelectionSplits | js/games/sound-matching-game.js:220-226 | the correct and incorrect selections split the selection between them |
| SoundMatching.Hits | js/games/sound-matching-game.js:220-222 | the correct selections are selected sounds that are correct sounds |
| SoundMatching.Wrong | js/games/sound-matching-game.js:224-226 | the incorrect selections are selected sounds that are none of the correct sounds |
| SoundMatching.Missed | js/games/sound-matching-game.js:228-230 | the missed sounds are exactly the correct sounds not selected, no more of them than correct sounds |
| SoundMatching.CorrectSplits | js/games/sound-matching-game.js:220-230 | a correct sound is either selected or missed, and the two counts add up to the correct sounds |
| SoundMatching.PerfectIffExact | js/games/sound-matching-game.js:244 | a round is perfect exactly when the selection is the correct set |
| SoundMatching.RoundScoreAtMostCorrect | js/games/sound-matching-game.js:233-236 | a round never scores more than its correct sounds |
| SoundMatching.PlayableWords | js/games/sound-matching-game.js:88-91 | the candidates are exactly the words with a transcription longer than three symbols |
| SoundMatching.RandomWord | js/games/sound-matching-game.js:86-101 | no word exactly when none is playable; otherwise a playable dictionary word with a transcription |
| SoundMatching.MatchingAccuracyOverflows | js/games/sound-matching-game.js:277-278 | ten rounds of two correct sounds give 200 % as written against 100 % corrected |
| SoundMatching.Tally | js/games/sound-matching-game.js:220-244 | the counts of correct and incorrect selections; perfect exactly when the selection is the correct set; the round score at most the correct count |
| SoundMatching.DealWord | js/games/sound-matching-game.js:129-133 | a word's correct sounds and options, with every correct sound offered |
| SoundMatching.DealRound | js/games/sound-matching-game.js:86-133 | the drawn word, its correct sounds and options, with every correct sound offered |
| SoundMatching.SoundMatchingGame.constructor | js/games/sound-matching-game.js:4-50 | the inventory is the 36 sounds; score and round start at 0; after `render` Check Answer is enabled and Next Word disabled |
| SoundMatching.SoundMatchingGame.Click | js/games/sound-matching-game.js:198-206 | a click toggles the sound in the selection |
| SoundMatching.SoundMatchingGame.CheckAnswer | js/games/sound-matching-game.js:212-275 | without a current word the check throws and nothing changes; otherwise the score grows by the round score, the points offered by the correct count, and perfect means exactly the correct set was selected |
| SoundMatching.SoundMatchingGame.EndGame | js/games/sound-matching-game.js:277-278 | the corrected percentage lies within 0–100 |
| SoundMatching.SoundMatchingGame.NextRound | js/games/sound-matching-game.js:65-84 | rounds advance until ten; at the end the game is over with the corrected accuracy and the word, its sounds, the options, the selection and the buttons stay as they were; a new round clears the selection and deals a word with its sounds and options |
| SoundMatching.SoundMatchingGame.BeginRound | js/games/sound-matching-game.js:71-80 | a round increments the counter, clears the selection and installs the dealt word |
| SoundMatching.SoundMatchingGame.StartGame | js/games/sound-matching-game.js:58-63 | a fresh game starts in round 1 with score 0 and no points offered, not over, with no selection, Check enabled and Next disabled; the drawn playable word with its correct sounds and options when there is one, the previous word otherwise |
| MinimalPairs.DiffCount | js/games/minimal-pairs-challenge.js:119-127 | the differing places among the first n are at most n |
| MinimalPairs.CountDiffs | js/games/minimal-pairs-challenge.js:119-127 | the loop counts the places where the words differ |
| MinimalPairs.DiffCountZero | js/games/minimal-pairs-challenge.js:119-127 | no difference exactly when the prefixes are equal |
| MinimalPairs.DiffCountOne | js/games/minimal-pairs-challenge.js:119-130 | one difference exactly when the words differ at one place only |
| MinimalPairs.LengthGroupMembers | js/games/minimal-pairs-challenge.js:97-107 | a length group holds exactly the words of that length |
| MinimalPairs.LengthGroup | js/games/minimal-pairs-challenge.js:97-107 | definition of `wordsByLength[length]`: the words of that length in dictionary order; its members are stated by `LengthGroupMembers` |
| MinimalPairs.Row | js/games/minimal-pairs-challenge.js:114-143 | definition of the inner loop: the passing pairs of word i with each later word of its group, in order |
| MinimalPairs.Rows | js/games/minimal-pairs-challenge.js:113-144 | definition of the outer loop: the rows of the first i words, one after the other |
| MinimalPairs.PairsBelow | js/games/minimal-pairs-challenge.js:110-145 | definition of the visit of the length groups in ascending order, each group's rows after those of the shorter groups |
| MinimalPairs.MaxLength | js/games/minimal-pairs-challenge.js:110 | no word is longer than the longest |
| MinimalPairs.RowSound | js/games/minimal-pairs-challenge.js:114-142 | every pair found for word i is a passing pair starting with word i |
| MinimalPairs.IsMinimalPair | js/games/minimal-pairs-challenge.js:117-135 | definition of the pair test: one differing letter at the first word's positions, both UK recordings present, different shown transcriptions |
| MinimalPairs.PairsBelowSound | js/games/minimal-pairs-challenge.js:110-145 | every pair found has two words of equal length that pass the test |
| MinimalPairs.DerivedPairsAreMinimal | js/games/minimal-pairs-challenge.js:89-146 | a derived pair has two different transcribed dictionary words with UK audio, of equal length, differing at exactly one place, whose transcriptions differ |
| MinimalPairs.DerivedPairsComplete | js/games/minimal-pairs-challenge.js:113-141 | every passing pair `i < j` of a length group is derived |
| MinimalPairs.NoDerivedPairsFromNothing | js/games/minimal-pairs-challenge.js:92-94 | an empty dictionary derives no pair |
| MinimalPairs.PushGroupPairs | js/games/minimal-pairs-challenge.js:113-144 | the pair loops over one group append exactly its pairs |
| MinimalPairs.PushRowPairs | js/games/minimal-pairs-challenge.js:114-143 | the inner loop appends exactly word i's pairs with later words |
| MinimalPairs.GroupByLength | js/games/minimal-pairs-challenge.js:97-107 | each length maps to its group in dictionary order, and a missing length has no words |
| MinimalPairs.FindMinimalPairsFromDictionary | js/games/minimal-pairs-challenge.js:89-146 | the derived pairs are appended after the existing ones, which stay as they were |
| MinimalPairs.DerivedPairs | js/games/minimal-pairs-challenge.js:89-146 | definition of everything the dictionary search pushes, length group by length group |
| MinimalPairs.PushAllLengths | js/games/minimal-pairs-challenge.js:110-145 | the loop over lengths, in ascending order, appends the pairs of every group |
| MinimalPairs.PushLength | js/games/minimal-pairs-challenge.js:110-145 | one length more appends its group's pairs |
| MinimalPairs.PairsBelowStep | js/games/minimal-pairs-challenge.js:110 | the pairs below length l+1 are those below l, then length l's |
| MinimalPairs.MatchesIffPlayed | js/games/minimal-pairs-challenge.js:266-273 | the played word is accepted; when the pair's texts differ ignoring case, only the played word is |
| MinimalPairs.CaseOnlyPairAcceptsBoth | js/games/minimal-pairs-challenge.js:273 | in a pair that differs only in case, both words are accepted |
| MinimalPairs.MinimalPairsChallenge.constructor | js/games/minimal-pairs-challenge.js:5-50 | the pairs are the predefined ones followed by the derived ones; score and round start at 0 |
| MinimalPairs.MinimalPairsChallenge.SelectAsWritten | js/games/minimal-pairs-challenge.js:209-223 | a click selects the word and enables Check, even after the round was answered |
| MinimalPairs.MinimalPairsChallenge.Select | js/games/minimal-pairs-challenge.js:219-222 | the corrected click selects without re-enabling Check once the round is answered |
| MinimalPairs.MinimalPairsChallenge.CheckAnswer | js/games/minimal-pairs-challenge.js:257-323 | no selection changes nothing (score, buttons, answered state); otherwise the answer is correct exactly when the texts match ignoring case, the score grows by one only then, and Check and Play are disabled while Next is enabled |
| MinimalPairs.MinimalPairsChallenge.EndGame | js/games/minimal-pairs-challenge.js:325-326 | the percentage is the rounded score out of ten, within 0–100 while each round scores once |
| MinimalPairs.MinimalPairsChallenge.NextRound | js/games/minimal-pairs-challenge.js:155-175 | rounds advance until ten; at the end the game is over with the percentage and the pair, the words, the selection and the buttons stay as they were; a new round draws a pair, plays one of its two words and offers both |
| MinimalPairs.MinimalPairsChallenge.BeginRound | js/games/minimal-pairs-challenge.js:177-198 | the correct word is the pair's first or second word, and the options are the pair in either order |
| MinimalPairs.MinimalPairsChallenge.StartGame | js/games/minimal-pairs-challenge.js:148-153 | a fresh game starts in round 1 with score 0, not over, on the same pair list: the drawn pair, the word to play and the two options in the drawn order, no selection, Play enabled and Check and Next disabled |
| MinimalPairs.ReanswerScoresTwice | js/games/minimal-pairs-challenge.js:320 | as written, selecting again after Check re-enables Check, and one round scores twice |
| PhoneticHangmanGame.MaskedShape | js/games/phonetic-hangman.js:118-129 | the display is twice the word's length: each character or `_`, then a space |
| PhoneticHangmanGame.Masked | js/games/phonetic-hangman.js:118-129 | definition of the display: each letter if guessed (or a space), else `_`, each followed by a space |
| PhoneticHangmanGame.WonIffNoBlank | js/games/phonetic-hangman.js:190-192 | the word is guessed exactly when the display has no blank |
| PhoneticHangmanGame.AllLettersGuessed | js/games/phonetic-hangman.js:189-192 | definition of a won round: every character of the word guessed or a space |
| PhoneticHangmanGame.Suitable | js/games/phonetic-hangman.js:88-93 | definition of a candidate word: a transcription, four to ten letters, letters only |
| PhoneticHangmanGame.WrongGuessesGrow | js/games/phonetic-hangman.js:168-174 | a new letter adds a wrong guess exactly when the word lacks it |
| PhoneticHangmanGame.WrongGuesses | js/games/phonetic-hangman.js:168-174 | the wrong guesses are guessed letters, none of them a letter of the word |
| PhoneticHangmanGame.Candidates | js/games/phonetic-hangman.js:88-93 | the candidate words are exactly the suitable dictionary words, no more of them than the dictionary has |
| PhoneticHangmanGame.PhoneticHangman.KeyDisabled | js/games/phonetic-hangman.js:151-233 | definition of a disabled key: every key once the round is decided, and a guessed letter's key once a word is drawn |
| PhoneticHangmanGame.PhoneticHangman.RoundState | js/games/phonetic-hangman.js:110-197 | definition of the round invariant: lives are eight less the wrong letters, the display is the masked word, and the round is decided exactly when the word is revealed or the lives are gone; without a word, eight lives, an empty display and an open round |
| PhoneticHangmanGame.FreshRoundUnsolved | js/games/phonetic-hangman.js:88-93 | a candidate word is never solved before the first guess |
| PhoneticHangmanGame.DrawnWordSuitable | js/games/phonetic-hangman.js:86-103 | the drawn word is a dictionary word with a transcription and 4–10 ASCII letters |
| PhoneticHangmanGame.PhoneticHangman.constructor | js/games/phonetic-hangman.js:5-14 | a new game has score 0, round 0, eight lives and no word |
| PhoneticHangmanGame.PhoneticHangman.RenderWordDisplay | js/games/phonetic-hangman.js:110-130 | the display is the masked lowercased word, or empty without a word |
| PhoneticHangmanGame.PhoneticHangman.CheckGameStatus | js/games/phonetic-hangman.js:186-235 | a revealed word wins and scores, ahead of running out of lives; either ends the round |
| PhoneticHangmanGame.PhoneticHangman.MakeGuess | js/games/phonetic-hangman.js:162-184 | the letter always joins the guesses; with no word drawn the call throws and nothing else changes; otherwise a life is lost exactly when the word lacks the letter, the round ends exactly on a win or no lives left, and only a win scores |
| PhoneticHangmanGame.PhoneticHangman.GetRandomWord | js/games/phonetic-hangman.js:86-108 | a drawn candidate and its transcription; nothing changes when there is no candidate |
| PhoneticHangmanGame.PhoneticHangman.EndGame | js/games/phonetic-hangman.js:237-238 | the percentage is the rounded score out of ten, within 0–100 |
| PhoneticHangmanGame.PhoneticHangman.NextRound | js/games/phonetic-hangman.js:58-84 | rounds advance until ten; at the end the game is over with the percentage and the word, the guesses, the lives, the displays and the round state stay as they were; a new round clears the guesses, restores eight lives and draws a word |
| PhoneticHangmanGame.PhoneticHangman.BeginRound | js/games/phonetic-hangman.js:64-80 | a round increments the counter, clears the guesses, restores the lives and draws a word |
| PhoneticHangmanGame.PhoneticHangman.ResetRound | js/games/phonetic-hangman.js:66-68 | the guesses are empty and the lives eight |
| PhoneticHangmanGame.PhoneticHangman.StartGame | js/games/phonetic-hangman.js:51-56 | a fresh game starts in round 1 with score 0, not over, eight lives, no letters guessed and the round open, on the drawn suitable word (the previous word when there is none) |

## Left out

- HTML building and DOM updates are not modelled: rendering, event wiring, button styling, scrolling and feedback texts. They are output only. Button states that the rules depend on (Check and Next enabled, keys disabled) are modelled as fields.
- Audio playback and speech recognition (`js/features/speech-recognition*.js`) are not modelled, because they are browser I/O.
- `js/core/app.js` is not part of this model. It fetches the dictionary over the network, so the dictionary is an input sequence.
- `js/features/mobile-optimization.js`, `js/core/dom-elements.js`, `js/features/display-results.js`, `js/games/games-manager.js` and `js/games/keyboard-shortcuts.js` are not part of this model. They handle device detection, element lookup, rendering and menu routing.
- `js/features/word-search.js` is not part of this model. It is a `toLowerCase` equality filter with no logic of its own.
- Shuffles written `sort(() => Math.random() - 0.5)` are parameters. The only thing known about them is that they return a permutation. Their distribution is not modelled.
- Math.random draws are parameters. The order in which the source draws them is kept, but no distribution is stated.
- Floating point is modelled as exact real arithmetic. Scores, thresholds and percentages are exact. Rounding errors of doubles are not modelled.
- Object identity is modelled as value equality of the word records. Two equal dictionary records would be one word here.
- `toLowerCase` is modelled on ASCII letters only. Characters are code points, not UTF-16 units, so string lengths of astral characters differ from the source's.
- The try/catch fallback of `getRandomSoundsAndWords` (js/games/sound-sorting-game.js:159-171) is not modelled. Only the path without an exception is.
- `handlePageChange` calls `displayCategorizedResultsPage`, which no file declares; that call is not modelled.
- The game-over percentage of `sound-sorting.js` (a float ratio shown once) is not modelled.
- The sound-matching and minimal-pairs IPA literals are copied character for character as the files spell them, e.g. `t É` for what displays as `tʃ`. They are not decoded.
- The `data-word` attribute selector of the sorting game is modelled as text equality. A word whose text would break the selector syntax is not modelled.
- `for…in` over the length groups of `findMinimalPairsFromDictionary` is modelled as ascending numeric order, which JavaScript guarantees for integer keys.
- SoundMatching.SoundMatchingGame.EndGame: states the corrected percentage (score out of points offered), not the source's `score / 10`; the as-written value is shown by `SoundMatching.MatchingAccuracyOverflows`.
- SoundPositionPuzzleGame.SoundPositionPuzzle.EndGame: states the corrected percentage (score out of correct words shown), not the source's `score / maxRounds`; the as-written value is shown by `SoundPositionPuzzleGame.AccuracyAsWrittenOverflows`.

## Findings

| source | as written | input that shows it | evidently intended | confidence | as-written member | corrected member |
|---|---|---|---|---|---|---|
| script.js:1147-1186 | the phonetic and multi-sound searches call `createPaginationControls` without resetting the shared `currentPage` | page to 3 of a word search with 30 results, then run a phonetic search with 15 hits: page 1 is shown under "Page 3 of 2" | reset the counter to 1 when new results are shown, as `displayPaginatedResults` does | not executed | Pagination.Pager.ShowResultsAsWritten | Pagination.Pager.ShowResults |
| js/core/pagination.js:228-297 | a Previous or Next click in one comparison container refreshes only its own list, while the shared counter and both indicators move | 20 pairs; Next in the first container: the second container reads "Page 2" but still lists items 0–9 | refresh both containers on the shared page | not executed | Pagination.ComparisonPager.TurnAsWritten | Pagination.ComparisonPager.Turn |
| js/games/sound-sorting.js:218-229 | moves are by word text: all cards of the text are removed, and only the first card with the text is pushed | two dealt cards with the same word: at most one of them is ever sorted, so `checkAnswer` refuses for ever | move the dragged card itself | not executed | SoundSorting.StuckOnDuplicateText | SoundSorting.SoundSortingGame.MoveCard |
| js/games/sound-sorting-game.js:220-246 | the drag carries only the word's text, and the drop moves the first card in the document showing that text, pool first | "fish" dealt for both ɪ and ʃ, both cards in the pool: dragging the ʃ card onto ʃ moves the ɪ card, and Check then fails | move the dragged card itself | not executed | SortingGame.DuplicateTextMovesOtherCard | SortingGame.SoundSortingGame.Drop |
| js/games/sound-sorting-game.js:296-304 | the round is correct when every placed word is in its sound's container; words left in the pool are not checked | Check without placing any word: the round counts as correct and scores | refuse the check while words lie in the pool | not executed | SortingGame.NothingSortedPasses | SortingGame.SoundSortingGame.CheckSortingComplete |
| js/games/minimal-pairs-challenge.js:209-223 | a word click re-enables Check even after the round was answered | answer correctly, click a word again, Check again: the round scores 2 and the game can end at 200 % | keep Check disabled once the round is answered | not executed | MinimalPairs.ReanswerScoresTwice | MinimalPairs.MinimalPairsChallenge.Select |
| js/games/sound-matching-game.js:277-278 | the percentage is `score / maxRounds * 100`, but a round can score up to its number of correct sounds | ten perfect rounds with two correct sounds each: 200 % | the score out of the points the rounds offered | not executed | SoundMatching.MatchingAccuracyOverflows | SoundMatching.SoundMatchingGame.EndGame |
| js/games/sound-position-puzzle.js:296-297 | the percentage is `score / maxRounds * 100`, but a round can score up to five | three perfect rounds with five correct words each: 150 % | the score out of the correct words shown | not executed | SoundPositionPuzzleGame.AccuracyAsWrittenOverflows | SoundPositionPuzzleGame.SoundPositionPuzzle.EndGame |
