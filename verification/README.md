# EmoAI-Translator core, modelled in Dafny

This project models the sequential logic inside the AI back end of
EmoAI-Translator. It proves properties of four pieces:

- **The tier-1 symptom glossary builder** (`backend/ai/build_symptom.py`).
  - `uniq` strips, drops blanks and deduplicates.
  - The Korean and English alias generators work by suffix tests, keyword
    tests and literal replace-all rules.
  - The Chinese and Japanese alias tables are looked up.
  - `build_entry` merges curated and generated aliases and removes the
    canonical term.
  - `build_symptom_entries` walks the scenarios with a cap and numbers
    entries `S_0001`, `S_0002`, and so on.
- **The emotion collection window** (`backend/ai/emotion_detection.py`).
  - The `collecting` flag and the emotion buffer.
  - The append guard of the video loop.
  - The majority vote of `get_average_emotion`.
  - The label post-processing of `detect_emotion`: happy override,
    capitalisation, and "Unknown" on failure.
- **Turn taking in live recognition** (`backend/ai/speech_detection.py`).
  - The recognition loop as a fold over attempts. A non-empty
    transcription emits a record for the current speaker and hands the turn
    to the other speaker. Silence and errors change nothing.
  - The normalisation of the transcription result.
- **Batch translation** (`backend/ai/speech_translation.py`).
  - `translate_json_list` as an order-preserving map with a timestamp
    fallback.
  - A translator failure yields `None` for that item only.

## Files and modules

| file | module | contents |
|---|---|---|
| `wrappers.dfy` | `Wrappers` | `Option` |
| `text.dfy` | `Text` | Python string operations: `strip`, `in`, `endswith`, `replace`, `capitalize`, `str(n)`, `f"{n:04d}"` |
| `dedup.dfy` | `Dedup` | `uniq` (functional form and the loop as written), list filtering |
| `symptom_data.dfy` | `SymptomData` | the builder's constant tables, as ordered association lists |
| `symptom_glossary.dfy` | `SymptomGlossary` | the alias generators, `build_entry`, `build_symptom_entries` |
| `emotion_window.dfy` | `EmotionWindow` | `detect_emotion`'s label logic, the vote, the window state |
| `turn_taking.dfy` | `TurnTaking` | normalisation, the speaker-alternation fold |
| `batch_translation.dfy` | `BatchTranslation` | `translate_json_list` |

## Modelling decisions

- Python strings are `seq<char>`.
  - `s.strip()` removes the characters for which Python's `str.isspace` holds.
  - `s.strip("() ")` removes the characters of its argument.
  - `pat in s` is a contiguous-slice test.
  - `s.replace(pat, rep)` replaces every non-overlapping occurrence, scanning
    left to right. An empty pattern matches before every character and at the end.
- The Korean rules go through `re.search` and `re.sub`. Their patterns are plain
  Hangul literals with no metacharacters, so they are modelled as containment
  and replace-all.
- Dictionaries are sequences of (key, value) pairs, kept in insertion order. A
  lookup returns the first pair with the key.
- The builder's tables are a `Tables` parameter of `BuildEntry`, `Glossary` and
  `BuildSymptomEntries`. `Shipped` holds the tables as written in the source. The
  general properties hold for any tables. The facts about the shipped data
  (every rule clean, every Chinese and Japanese table entry clean,
  7 × 15 symptoms) are separate lemmas.
- `Counter(buffer).most_common(1)` takes the maximum over the counter's keys. The
  keys are in first-occurrence order, and a later key wins only with a strictly
  greater count. So among the emotions with maximal count, the one that occurs
  first wins. For example, Sad, Happy, Happy, Sad yields Sad (`FirstMax`,
  `AverageEmotionSpec`, `TieGoesToFirstSeen`).
- The vote returns "Unknown" for an empty buffer. It does **not** return
  "Unknown" *only* for an empty buffer. `detect_emotion` itself returns
  "Unknown" when the classifier fails, and that frame is appended like any
  other. So "Unknown" also comes back when it is the winning emotion
  (`UnknownWhen`).
- `f"{counter:04d}"` for a negative counter gives "-" followed by the absolute
  value, zero-padded to three digits. The sign counts towards the width. The
  model does the same (`FormatWidth4`). Counters of 10000 and more are not cut.
- The external engines become parameters:
  - The face classifier becomes an `Option<Analysis>`, where `None` means
    the call raised.
  - The speech engine's answer becomes an `Attempt`.
  - AWS Translate becomes a `Translator` function returning
    `Option<string>`.
  - The UTC clock becomes a `Clock` function of the item index.

## Model

| member | source | states |
|---|---|---|
| `Dedup.Uniq` | backend/ai/build_symptom.py:305-315 | the result of `uniq` is duplicate-free and every element is non-empty and has no surrounding whitespace |
| `Dedup.UniqSpec` | backend/ai/build_symptom.py:305-315 | `uniq` keeps the stripped form of every non-blank input, holds nothing that is not the stripped form of an input, and lists values in the order of their first occurrence among the stripped inputs |
| `Dedup.UniqKeeps` | backend/ai/build_symptom.py:309-314 | an input that is not blank appears in the output in stripped form |
| `Dedup.UniqSound` | backend/ai/build_symptom.py:309-314 | every output value is the stripped form of some input |
| `Dedup.UniqLoop` | backend/ai/build_symptom.py:305-315 | the loop with its `seen` set, as written, returns exactly `Uniq` |
| `Dedup.UniqOfClean` | backend/ai/build_symptom.py:305-315 | on a clean, duplicate-free list `uniq` is the identity |
| `Dedup.UniqIdempotent` | backend/ai/build_symptom.py:305-315 | `uniq(uniq(x)) == uniq(x)` |
| `Dedup.DedupeKeepsAll` | backend/ai/build_symptom.py:311-314 | the dedup step keeps every non-empty entry |
| `Dedup.DedupeOrder` | backend/ai/build_symptom.py:312-314 | kept values appear in the order of their first occurrence |
| `Dedup.DedupeOfDistinct` | backend/ai/build_symptom.py:312-314 | on distinct non-empty entries the dedup step changes nothing |
| `Dedup.Dedupe` | backend/ai/build_symptom.py:310-314 | the dedup step over stripped entries returns a duplicate-free list of non-empty values, each of which occurs in its input |
| `Dedup.FirstIndex` | backend/ai/build_symptom.py:312 | the index found is the first occurrence, or the length when there is none |
| `Dedup.StripAll` | backend/ai/build_symptom.py:309 | every entry is stripped, positions kept |
| `Dedup.Without` | backend/ai/build_symptom.py:383 | the list comprehension `[a for a in xs if a != v]` keeps exactly the entries other than `v`, and keeps duplicate-freedom and cleanliness; `WithoutConcat` and `WithoutInOrder` state the order |
| `Dedup.WithoutConcat` | backend/ai/build_symptom.py:383 | filtering a concatenation filters each part in turn, so the comprehension is the order-preserving filter that keeps every occurrence of the other values |
| `Dedup.WithoutInOrder` | backend/ai/build_symptom.py:455-458 | removing the canonical term keeps the surviving aliases in the order they already had |
| `Text.StripSpec` | backend/ai/build_symptom.py:309 | `x.strip()` has no whitespace at either end, is empty exactly when `x` is blank, and leaves a stripped string unchanged |
| `Text.Strip` | backend/ai/build_symptom.py:309 | `x.strip()`: `strip` with Python's `str.isspace` characters; `StripCharsIsSlice` fixes the result as the middle slice between maximal whitespace runs, and `StripSpec` states its ends and when it is empty |
| `Text.StripChars` | backend/ai/build_symptom.py:337 | `s.strip(chars)`: the left strip followed by the right strip; `StripCharsIsSlice` and `StripCharsEmpty` state what it returns |
| `Text.StripCharsIsSlice` | backend/ai/build_symptom.py:337 | `strip(chars)` returns a middle slice of the input with no stripped character at either end, and only such characters around it |
| `Text.StripCharsEmpty` | backend/ai/build_symptom.py:337-338 | the stripped stem is empty exactly when the input consists of stripped characters only |
| `Text.StripCharsStripped` | backend/ai/build_symptom.py:337 | a string with neither end in the set is returned unchanged |
| `Text.StripLeftSpec` | backend/ai/build_symptom.py:337 | the left strip keeps a suffix, removes only characters of the set, and stops at the first character outside it |
| `Text.StripRightSpec` | backend/ai/build_symptom.py:337 | the right strip keeps a prefix, removes only characters of the set, and stops at the last character outside it |
| `Text.NotBlank` | backend/ai/build_symptom.py:310-311 | a string with a non-whitespace character at one end is not dropped as blank |
| `Text.StripJoin` | backend/ai/build_symptom.py:326 | a term and a suffix that start and end with non-whitespace join into a string `strip` leaves alone |
| `Text.ContainsSpec` | backend/ai/build_symptom.py:343 | the containment test (`re.search` with a literal, `key in en`) holds exactly when the pattern occurs as a contiguous slice |
| `Text.OccursAtTail` | backend/ai/build_symptom.py:343 | an occurrence in the tail is an occurrence in the whole string one place later, and conversely |
| `Text.Contains` | backend/ai/build_symptom.py:343 | `pat in s` and a literal `re.search`, as a left-to-right scan; `ContainsSpec` proves it equal to "occurs as a contiguous slice" |
| `Text.EndsWith` | backend/ai/build_symptom.py:328 | `s.endswith(suffix)`: the last `len(suffix)` characters are the suffix |
| `Text.ReplaceAll` | backend/ai/build_symptom.py:346 | `s.replace(pat, rep)` and a literal `re.sub`: every non-overlapping occurrence, left to right, replaced; the `ReplaceAll` lemmas below state its properties |
| `Text.ReplaceAllAbsent` | backend/ai/build_symptom.py:346 | replacing a pattern that does not occur leaves the string unchanged |
| `Text.ReplaceAllSame` | backend/ai/build_symptom.py:346 | replacing a pattern by itself leaves the string unchanged |
| `Text.ReplaceAllEnds` | backend/ai/build_symptom.py:381 | a replacement result is non-empty and starts and ends as the input or as the replacement does |
| `Text.ReplaceAllLastNotSpace` | backend/ai/build_symptom.py:352-353 | when neither the term nor the replacement ends in whitespace, neither does the result |
| `Text.Capitalize` | backend/ai/emotion_detection.py:23 | `capitalize` keeps the length, upper-cases the first character and lower-cases the rest |
| `Text.LowerAll` | backend/ai/emotion_detection.py:23 | every character is lower-cased, positions kept |
| `Text.NatToDecimal` | backend/ai/speech_detection.py:101 | the decimal form of a natural number is a digit string without leading zeros that denotes the number |
| `Text.ZeroPad` | backend/ai/build_symptom.py:429 | zero padding never truncates, reaches the requested width, and keeps the value |
| `Text.LeadingZeros` | backend/ai/build_symptom.py:429 | leading zeros do not change the value of a digit string |
| `Text.DecimalLengthBound` | backend/ai/build_symptom.py:429 | a number below 10^k has at most k digits |
| `Text.FormatWidth4` | backend/ai/build_symptom.py:429 | `f"{n:04d}"` for n ≥ 0 is the digits of n, zero-padded to four and never cut, so exactly `max(4, digits of n)` long; for n < 0 it is "-" followed by the digits of -n zero-padded to three, so `1 + max(3, digits of -n)` long |
| `Text.FormatWidth4Injective` | backend/ai/build_symptom.py:429 | different counters are formatted differently |
| `SymptomData.Find` | backend/ai/build_symptom.py:402 | `d.get(key)` finds a value exactly when the key is present, and the value found is stored under the key |
| `SymptomGlossary.KoRuleVariants` | backend/ai/build_symptom.py:344-348 | for each replacement, in order, the substituted term and then its " 있어요" form |
| `SymptomGlossary.KoRuleCandidatesHave` | backend/ai/build_symptom.py:342-348 | for every rule whose pattern occurs in the term, every substitution and its " 있어요" form are generated |
| `SymptomGlossary.KoCandidates` | backend/ai/build_symptom.py:323-353 | every candidate `auto_aliases_ko` collects, group by group in source order; `KoKeeps`, `AutoAliasesKoSound` and the alias lemmas below state which of them become aliases |
| `SymptomGlossary.AutoAliasesKo` | backend/ai/build_symptom.py:318-356 | the Korean aliases are duplicate-free and clean |
| `SymptomGlossary.KoKeeps` | backend/ai/build_symptom.py:356 | a candidate ending in non-whitespace survives as an alias in stripped form |
| `SymptomGlossary.KoWrapperAliases` | backend/ai/build_symptom.py:326 | a term of at most six characters gets its " 있어요" and "입니다" forms, verbatim when the term is clean |
| `SymptomGlossary.KoParticleAliases` | backend/ai/build_symptom.py:327-329 | a term ending in neither "음" nor "함" gets its "가 있어요" and "가 있어요." forms |
| `SymptomGlossary.KoPainTermAliases` | backend/ai/build_symptom.py:330-332 | a term ending in "통" or "통증" gets its "이 있어요" and "이 심해요" forms |
| `SymptomGlossary.KoPainParaphraseAliases` | backend/ai/build_symptom.py:335-339 | a term ending in "통증" whose stem is not empty once "통증" is removed and "() " stripped gets the three "아파요" paraphrases of the stem |
| `SymptomGlossary.AutoAliasesKoRules` | backend/ai/build_symptom.py:342-348 | with clean rules, every substitution of a rule whose pattern occurs and its " 있어요" form are aliases in stripped form, and verbatim for a clean term |
| `SymptomGlossary.KoRuleKept` | backend/ai/build_symptom.py:346-348 | a generated substitution survives `uniq` |
| `SymptomGlossary.KoHaeyoAliases` | backend/ai/build_symptom.py:351-353 | a term ending in "함" gets its "해요" and "합니다" rewrites |
| `SymptomGlossary.AutoAliasesKoSound` | backend/ai/build_symptom.py:323-356 | every Korean alias is the stripped form of a generated candidate |
| `SymptomGlossary.RulesCleanTail` | backend/ai/build_symptom.py:342 | the rules after the first one of a clean rule table are clean |
| `SymptomGlossary.KoRulesClean` | backend/ai/build_symptom.py:282-292 | the shipped Korean rules have non-empty patterns and clean replacements |
| `SymptomGlossary.EnRulesClean` | backend/ai/build_symptom.py:294-298 | the shipped English rules have non-empty keys and clean replacements |
| `SymptomGlossary.AutoAliasesEn` | backend/ai/build_symptom.py:359-383 | the English aliases are duplicate-free and clean |
| `SymptomGlossary.EnCandidates` | backend/ai/build_symptom.py:363-381 | the term itself, then the keyword phrases, then the rule substitutions, as `auto_aliases_en` collects them; `AutoAliasesEnSpec` states which become aliases |
| `SymptomGlossary.AutoAliasesEnSpec` | backend/ai/build_symptom.py:363-383 | every candidate other than the term that is not blank is an alias in stripped form; every alias comes from a candidate other than the term; with clean rules the term is never its own alias |
| `SymptomGlossary.EnRuleCandidatesStripped` | backend/ai/build_symptom.py:378-381 | the rule substitutions of a stripped term are stripped |
| `SymptomGlossary.EnCandidatesStripped` | backend/ai/build_symptom.py:363-381 | every English candidate of a stripped term is stripped |
| `SymptomGlossary.EnPhrasesClean` | backend/ai/build_symptom.py:366-375 | the conversational phrases are clean |
| `SymptomGlossary.DefaultAliases` | backend/ai/build_symptom.py:386-422 | the table aliases are duplicate-free and clean, and empty for a term the table does not list |
| `SymptomGlossary.DefaultAliasesOfClean` | backend/ai/build_symptom.py:402 | over a clean table a listed term gets its list unchanged |
| `SymptomGlossary.ZhTableClean` | backend/ai/build_symptom.py:390-401 | every list of the Chinese table is clean and duplicate-free |
| `SymptomGlossary.JaTableClean` | backend/ai/build_symptom.py:409-421 | every list of the Japanese table is clean and duplicate-free |
| `SymptomGlossary.DefaultAliasesZh` | backend/ai/build_symptom.py:386-402 | `default_aliases_zh` returns the listed aliases of a known term and nothing for any other term |
| `SymptomGlossary.DefaultAliasesJa` | backend/ai/build_symptom.py:405-422 | `default_aliases_ja` returns the listed aliases of a known term and nothing for any other term |
| `SymptomGlossary.TermId` | backend/ai/build_symptom.py:429 | the id is "S_" followed by `f"{counter:04d}"`: for a counter ≥ 0 a digit string denoting it, `2 + max(4, digits)` long; for a negative counter "-" and the digits of its absolute value |
| `SymptomGlossary.TermIdInjective` | backend/ai/build_symptom.py:429 | two counters give the same id exactly when they are equal |
| `SymptomGlossary.BuildEntryFields` | backend/ai/build_symptom.py:428-437 | the id comes from the counter, the type is "symptom", the priority "tier1", and the scenario and four terms are as given |
| `SymptomGlossary.MergeAliasesSpec` | backend/ai/build_symptom.py:449-458 | a merged list is clean, duplicate-free and without the canonical term; it holds every non-blank curated or generated alias other than the canonical term in stripped form, nothing else, and lists them in the order of their first occurrence in the stripped curated-then-generated list |
| `SymptomGlossary.MergeAliases` | backend/ai/build_symptom.py:449-458 | one language of steps 2 and 3 of `build_entry`: the merged list is duplicate-free, clean, and never holds the canonical term |
| `SymptomGlossary.MergeCuratedFirst` | backend/ai/build_symptom.py:449-458 | in a merged list the curated aliases come first: no alias taken from the curated list is preceded by one only the generator produced |
| `SymptomGlossary.BuildEntryAliases` | backend/ai/build_symptom.py:440-458 | each language's alias list is the curated list (empty without a curation) merged with that language's generated aliases as `MergeAliasesSpec` states |
| `SymptomGlossary.BuildEntry` | backend/ai/build_symptom.py:425-460 | `build_entry` with the builder's tables as a parameter; `BuildEntryFields` and `BuildEntryAliases` state its fields |
| `SymptomGlossary.PoolPrefix` | backend/ai/build_symptom.py:472 | the pool of the first scenarios is a prefix of the whole pool |
| `SymptomGlossary.PoolIndex` | backend/ai/build_symptom.py:472-473 | item j of scenario i sits in the pool right after the items of the scenarios before it |
| `SymptomGlossary.Pool` | backend/ai/build_symptom.py:472-473 | the symptoms in the order the two nested loops visit them; `PoolPrefix` and `PoolIndex` state where each one sits |
| `SymptomGlossary.Cap` | backend/ai/build_symptom.py:474-475 | the number of entries a cap lets through is `min(max(m, 0), n)` |
| `SymptomGlossary.WalkScenarios` | backend/ai/build_symptom.py:468-479 | the walk returns `min(max(m, 0), pool size)` entries, entry k built from pool item k with counter k + 1 |
| `SymptomGlossary.WalkItems` | backend/ai/build_symptom.py:473-477 | the inner loop either builds every item of the scenario or stops exactly at the cap |
| `SymptomGlossary.BuildSymptomEntries` | backend/ai/build_symptom.py:468-479 | `build_symptom_entries(m)` returns the first `min(max(m, 0), pool size)` pool items, built with counters 1, 2, …, which is `Glossary` |
| `SymptomGlossary.GlossaryUnique` | backend/ai/build_symptom.py:468-479 | the glossary is the only list of that length whose entries are built from the pool items in order |
| `SymptomGlossary.Glossary` | backend/ai/build_symptom.py:468-479 | the capped glossary has `min(max(m, 0), pool size)` entries; `BuildSymptomEntries` proves the loop computes it |
| `SymptomGlossary.GlossaryPrefix` | backend/ai/build_symptom.py:474-475 | the glossary for a smaller cap is a prefix of the glossary for a larger cap |
| `SymptomGlossary.GlossaryIds` | backend/ai/build_symptom.py:470-477 | entry k carries the id of counter k + 1 |
| `SymptomGlossary.GlossaryIdsDistinct` | backend/ai/build_symptom.py:470-477 | the term ids of a glossary are pairwise distinct |
| `SymptomGlossary.PoolUniform` | backend/ai/build_symptom.py:472-473 | scenarios of n items each give a pool of n times their number |
| `SymptomGlossary.ScenarioSizes` | backend/ai/build_symptom.py:8-148 | the shipped pools are seven scenarios of fifteen symptoms |
| `SymptomGlossary.DefaultGlossarySize` | backend/ai/build_symptom.py:467-479 | with the shipped pools the default cap of 150 keeps all 105 symptoms |
| `EmotionWindow.DetectEmotion` | backend/ai/emotion_detection.py:13-28 | a failed classifier call gives "Unknown"; a happy score above 30 gives "Happy"; otherwise the dominant emotion capitalised |
| `EmotionWindow.NoHappyScore` | backend/ai/emotion_detection.py:20 | an absent happy score counts as 0 and never overrides |
| `EmotionWindow.Count` | backend/ai/emotion_detection.py:73 | `Counter(buffer)[x]` is the multiplicity of x in the buffer |
| `EmotionWindow.Distinct` | backend/ai/emotion_detection.py:73 | the counter's keys are the buffer's emotions, each once, in first-occurrence order |
| `EmotionWindow.FirstMax` | backend/ai/emotion_detection.py:74 | the chosen key has maximal count, and every key before it has a strictly smaller count |
| `EmotionWindow.FirstMaxEarliest` | backend/ai/emotion_detection.py:74 | over keys in first-occurrence order, the chosen key occurs no later than any other key of maximal count |
| `EmotionWindow.AverageEmotion` | backend/ai/emotion_detection.py:69-76 | an empty buffer gives "Unknown"; otherwise the result occurs in the buffer |
| `EmotionWindow.AverageEmotionSpec` | backend/ai/emotion_detection.py:73-74 | for a non-empty buffer the result occurs, no emotion occurs more often, ties go to the emotion seen first, and no other emotion has these properties |
| `EmotionWindow.MostCommonUnique` | backend/ai/emotion_detection.py:73-74 | at most one emotion is the most common one in this sense |
| `EmotionWindow.FirstIndexInjective` | backend/ai/emotion_detection.py:73 | two emotions that first occur at the same place are equal |
| `EmotionWindow.TieBetweenTwo` | backend/ai/emotion_detection.py:73-74 | of two equally frequent emotions, the one seen first wins |
| `EmotionWindow.TieGoesToFirstSeen` | backend/ai/emotion_detection.py:73-74 | Sad, Happy, Happy, Sad gives Sad |
| `EmotionWindow.UnknownWhen` | backend/ai/emotion_detection.py:69-76 | the vote is "Unknown" exactly for an empty buffer or when "Unknown" is the most common emotion |
| `EmotionWindow.Start` | backend/ai/emotion_detection.py:58-59 | starting a collection empties the buffer and opens the window |
| `EmotionWindow.Offer` | backend/ai/emotion_detection.py:45-46 | a frame is appended at the end while the window is open, and nothing changes while it is closed |
| `EmotionWindow.OfferAll` | backend/ai/emotion_detection.py:45-46 | a run of frames keeps the window's flag, only appends to the buffer, and appends at most one entry per frame |
| `EmotionWindow.OfferAllOpen` | backend/ai/emotion_detection.py:45-46 | while the window is open every frame is kept, in arrival order |
| `EmotionWindow.OfferAllClosed` | backend/ai/emotion_detection.py:45-46 | while the window is closed no frame changes anything |
| `EmotionWindow.Stop` | backend/ai/emotion_detection.py:63-65 | stopping closes the window, keeps the buffer, and returns "Unknown" for an empty buffer and an emotion of the buffer otherwise |
| `EmotionWindow.Collect` | backend/ai/emotion_detection.py:56-65 | one `collect_emotions` call leaves the window closed holding exactly the frames seen while it was open, and returns "Unknown" when there were none and one of those frames otherwise |
| `EmotionWindow.CollectSummarises` | backend/ai/emotion_detection.py:56-65 | a collection leaves the window closed holding exactly the frames seen while open, and returns their vote, the most common of them |
| `EmotionWindow.AfterStop` | backend/ai/emotion_detection.py:45-46 | frames arriving after the window closed leave the collected buffer unchanged |
| `TurnTaking.Normalize` | backend/ai/speech_detection.py:33-35 | a missing language becomes "unknown", and a missing text becomes empty |
| `TurnTaking.NormalizeSpec` | backend/ai/speech_detection.py:34 | the text has no surrounding whitespace, is empty exactly for a blank or missing text, and normalising again changes nothing |
| `TurnTaking.SpeakerLabel` | backend/ai/speech_detection.py:101 | the label is "Speaker " followed by the decimal form of the id |
| `TurnTaking.SpeakerLabelsDiffer` | backend/ai/speech_detection.py:101 | speakers 1 and 2 get different labels |
| `TurnTaking.Other` | backend/ai/speech_detection.py:107 | the next speaker is 2 after 1 and 1 after anything else |
| `TurnTaking.Step` | backend/ai/speech_detection.py:72-112 | an error or silence leaves the state unchanged; a non-empty transcription appends one record for the current speaker and hands the turn over |
| `TurnTaking.Run` | backend/ai/speech_detection.py:62-112 | over a session the speaker is always 1 or 2 and there is at most one record per attempt; `RunSpec` states which records |
| `TurnTaking.Spoken` | backend/ai/speech_detection.py:96 | only non-empty transcriptions count as utterances |
| `TurnTaking.SpeakerAt` | backend/ai/speech_detection.py:62 | turn n belongs to speaker 1 when n is even and to speaker 2 otherwise |
| `TurnTaking.StepRecords` | backend/ai/speech_detection.py:96-112 | one pass extends the records by the utterance it hears and by nothing else |
| `TurnTaking.RunSpec` | backend/ai/speech_detection.py:62-112 | a session's results are exactly its utterances in order, the k-th by speaker 1 when k is even and speaker 2 otherwise, and the turn is with speaker 1 exactly when the number of results is even |
| `TurnTaking.SpeakerAtNext` | backend/ai/speech_detection.py:107 | the turn passes to the other speaker with each record |
| `TurnTaking.Alternates` | backend/ai/speech_detection.py:98-107 | consecutive records come from different speakers |
| `TurnTaking.FailuresIgnored` | backend/ai/speech_detection.py:73-75 | a failed recording or recognition anywhere in a session changes neither the utterances nor the final state |
| `TurnTaking.SpokenDrop` | backend/ai/speech_detection.py:111-112 | dropping a failed pass does not change the utterances heard |
| `TurnTaking.RecordsDetermine` | backend/ai/speech_detection.py:98-107 | the utterances determine the whole state |
| `TurnTaking.Unheard` | backend/ai/speech_detection.py:73-75 | a failed pass contributes no utterance |
| `TurnTaking.SpokenConcat` | backend/ai/speech_detection.py:65 | the utterances of two sessions run back to back are those of the first followed by those of the second |
| `BatchTranslation.TimestampOr` | backend/ai/speech_translation.py:17 | a present non-empty timestamp is kept, otherwise the clock's time is used |
| `BatchTranslation.TranslateItem` | backend/ai/speech_translation.py:16-44 | the original text is the item's text or empty, the timestamp is as `TimestampOr`, and the translation is the translator's answer, `None` on failure |
| `BatchTranslation.TranslateJsonList` | backend/ai/speech_translation.py:12-46 | one entry per item in input order, each with the item's text, its timestamp or the fallback, and the translator's answer |
| `BatchTranslation.TranslateAll` | backend/ai/speech_translation.py:15-46 | the whole batch as a function: one entry per item; `TranslateJsonListIsTranslateAll` proves it is what the loop builds |
| `BatchTranslation.TranslateJsonListIsTranslateAll` | backend/ai/speech_translation.py:12-46 | any output meeting the loop's per-item contract is the functional batch |
| `BatchTranslation.FailureContinues` | backend/ai/speech_translation.py:36-44 | with a translator that always fails every item still gets its entry, with no translation |
| `BatchTranslation.TimestampsKept` | backend/ai/speech_translation.py:17 | when every item has a non-empty timestamp, the output timestamps are the input ones and the clock does not matter |
| `BatchTranslation.TranslateAllConcat` | backend/ai/speech_translation.py:15-46 | translating two batches one after the other gives the translation of their concatenation |

## Left out

- Threads, `time.sleep`, the webcam and microphone loops, and the race on the
  global `collecting` flag. The window is a state record changed by sequential
  operations. `Collect` takes the frames that arrive during the sleep as a
  parameter.
- The global `current_emotion` that `detect_emotion` writes. No core operation
  reads it, so it is not modelled as state.
- The external engines are abstract inputs: DeepFace, Whisper,
  speech_recognition, AWS Translate and the clock.
- Base64 and temporary-file handling, the `print` calls, the WAV conversion,
  and the stop flag of the recognition thread.
- The speaker-alternation fold models only what the loop does with each
  attempt. The loop's termination by the stop flag is not modelled.
- `save_tier1_symptoms` and the `__main__` blocks, which do JSON file output and
  demos.
- Text.Capitalize, Text.LowerAll: `ToUpper` and `ToLower` change the case of
  ASCII letters only. Python's full Unicode case mapping is not modelled.
- EmotionWindow.DetectEmotion: `capitalize` is modelled for ASCII letters only.
  Python's full Unicode case mapping is not modelled. The classifier's emotion
  names are ASCII.
- EmotionWindow.DetectEmotion: happy scores are `real`. Python compares
  floating-point values.
- BatchTranslation.TranslateJsonList: a key that is present with the value
  `None` is treated as absent. In the source, `item.get("text", "")` would then
  pass `None` to the translator. A text key bound to `None` is not modelled.
- TurnTaking.Normalize: a `"language"` key bound to `None` is likewise treated
  as missing. A `"text"` key bound to `None` would make `.strip()` raise in the
  source.
- The builder's curated lists are taken with all four languages present. In the
  source, `curated.get(lang, [])` fills in a missing one with `[]`, and so does
  `CurationOf` for a term without curation. An empty curated dictionary is
  treated as no curation, which is also what the source's `if curated:` does.
- A session router, per-connection sessions and language pinning between
  speakers are not part of these source files, and are not modelled.
