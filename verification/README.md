# Word timings and audio cache of the speech synthesiser

This project models, in Dafny, the part of the speech synthesiser
(`audio/tts.py`) that works out per-word timings for karaoke-style
highlighting when the speech backend gives none. It also models the small
pieces of bookkeeping around that part:

- **Estimator** (`estimator.dfy`). `_generate_approximate_word_timings`
  splits the text into whitespace-delimited tokens. Each token gets a
  length-derived weight; verse references such as `99:7-8` and numerals
  such as `99` get more. The tokens are laid out back to back, shrunk when
  the special tokens overrun the audio, and finally stretched so that the
  last token ends at the audio's duration.
- **Expander** (`expander.dfy`). `_expand_numeric_references` is one
  left-to-right pass over the timings:
  - a citation written over several tokens, such as `(Al-A'raf 7:28)`, is
    merged into one token;
  - a verse reference `c:v` is split into its chapter and its verse;
  - a numeral between 20 and 100 is split into tens and ones, 60/40;
  - everything else passes through.
- **Corrector** (`corrector.dfy`). `_fix_reference_order` looks for a
  citation of the text whose first word seems to be among the first three
  timings. It then moves the run of timings holding it to the position the
  citation has in the text, counted in words. At most one run is moved.
- **Pipeline** (`pipeline.dfy`). This is the chain of those three passes, as
  speech generation runs it on the measured duration.
- **Cache** (`cache.dfy`):
  - the cache key, `_get_cache_key`, built from the provider, the
    normalised text and voice, and the settings as JSON with sorted keys;
  - the cache itself, a class holding the dictionary, with
    `_get_cached_audio` (a lookup that evicts an entry whose audio file is
    gone) and `_cache_audio`.
- **Content** (`content.dfy`). `_detect_content_type` sorts a text into
  descriptive, dialogue or narrative.

The other modules hold shared definitions:

- `text.dfy` has the Python string primitives: `split`, `join`, `strip`,
  `lower`, `startswith`, `find` and `in`.
- `patterns.dfy` has the three regular expressions as predicates, and
  `re.findall` and `re.search` of the citation pattern.
- `timings.dfy` has the `(word, start, end)` tuple and its properties.

Each source function that updates variables in loops is a method proved equal
to a specification function. The methods are
`Estimator.ApproximateWordTimings`, `Expander.ExpandNumericReferences` and
`Corrector.FixReferenceOrder`. The properties the source promises are proved
as lemmas about those functions.

The code of the corrector does not do what its docstring
(`audio/tts.py:482-485`) describes (see "## Findings"): it leaves a citation
placed at the very front where it is, and it can move timings that are
already in the text's order. `Corrector.Correct` models the code as written,
and the pipeline's `Pipeline.SpeechTimings` uses it.
`Corrector.CorrectIntended` is the corrector as documented. It acts on a
citation whose run was put at the beginning of the timings, and it
recognises the run by its words: from the first timing to the first with
`)`, joined by single spaces, they spell the citation (its own tokens, or the
one token the expander merges them into). It moves that run to where the
citation stands in the text. Two things are proved about it:
- it relocates such a run;
- timings in the text's own order come back unchanged. This holds both for
  the text's tokens and for the expanded timings the chain
  `Pipeline.SpeechTimingsIntended` hands it.

`ReorderExample` holds one text whose in-order timings the corrector as
written reorders.

## Model

| member | source | states |
|---|---|---|
| Text.SplitEmpty | audio/tts.py:586-588 | `text.split()` yields no token exactly when the text is all whitespace, which is the estimator's empty case |
| Text.SplitKeepsText | audio/tts.py:586 | `text.split()` drops exactly the whitespace: its tokens, concatenated, are the text's non-space characters in order |
| Text.SplitOnJoin | audio/tts.py:707 | `word.split(':')`, joined back with `:`, gives back the word |
| Text.SplitJoin | audio/tts.py:697 | tokens joined with single spaces split back into the same tokens |
| Text.JoinSpaceOpensWith | audio/tts.py:697 | whatever prefix without whitespace tokens joined with single spaces have, their first token has too |
| Text.StripFirstWord | audio/tts.py:506 | `text.strip()` opens with the first token of `text.split()` |
| Patterns.VerseReferenceChars | audio/tts.py:669 | a token matching `^\d+:\d+(-\d+)?$` has exactly one colon and no parenthesis |
| Patterns.ChompedVerseChars | audio/tts.py:669 | a verse reference followed by the newline that `$` lets through still has exactly one colon and no parenthesis |
| Patterns.NumeralChars | audio/tts.py:670 | a token matching `^\d+(\.\d+)?$` has no parenthesis |
| Patterns.CitationEndSpec | audio/tts.py:671 | the citation match found at a position is the one span there that opens with `(`, closes at the first `)` and holds digit-colon-digit, and when none is found no such span starts there |
| Patterns.ContainsCitationSpec | audio/tts.py:698 | `citation_pattern.search` succeeds exactly when some span of the text matches the citation pattern |
| Patterns.FindCitationsFrom | audio/tts.py:495 | every match `re.findall` returns opens with `(`, closes with `)`, and is a span of the text, at or after the search start, that matches the citation pattern |
| Patterns.FindCitationsFromLeftmost | audio/tts.py:495 | `re.findall` finds nothing exactly when no span matches; otherwise its first match is the leftmost match and the search goes on after that match's end, so matches come in increasing order and do not overlap |
| Patterns.FindCitationsFromUnopened | audio/tts.py:495 | no match of `re.findall` starts at a character other than `(`, so the search moves on to the next character |
| Patterns.FindCitationsEmpty | audio/tts.py:495-497 | `re.findall` finds nothing exactly when `re.search` fails |
| Estimator.Weight | audio/tts.py:603-620 | a token's weight lies in [0.5, 4.0] for verse references, [0.5, 3.0] for numerals and [0.5, 2.0] otherwise, and equals its length over five times its multiplier whenever that is within the bounds |
| Estimator.SpecialIndices | audio/tts.py:599-616 | `special_case_indices` holds only positions of verse references and numerals, in increasing order |
| Estimator.SpecialIndicesComplete | audio/tts.py:599-616 | every verse reference or numeral position is in `special_case_indices` |
| Estimator.SpecialIndicesCount | audio/tts.py:625 | the special positions are empty exactly when no token is special, and as many as the tokens exactly when all are |
| Estimator.NeedsFittingIff | audio/tts.py:625 | fitting is considered exactly when there is at least one special token and at least one ordinary one |
| Estimator.FittedWithinDuration | audio/tts.py:627-635 | after fitting the durations never add up to more than the audio's length, and to exactly that when they overran it |
| Estimator.DurationsTotal | audio/tts.py:627-650 | the durations add up to 0 only for audio of length 0, so neither division by the total can divide by zero |
| Estimator.DurationRate | audio/tts.py:595-635 | every duration is its token's weight times one common rate, not negative when the audio's length is not |
| Estimator.DurationsNonNegative | audio/tts.py:595-635 | for audio of non-negative length no duration and no total is negative |
| Estimator.LayoutContiguous | audio/tts.py:638-644 | the layout keeps the tokens in order, starts at 0, has each end equal to the next start, and ends at the sum of the durations |
| Estimator.LaidOutFacts | audio/tts.py:638-650 | before normalisation there is one timing per token, back to back from 0, ending at 0 only for audio of length 0 |
| Estimator.Normalise | audio/tts.py:646-652 | the final stretch keeps the words, contiguity and the start at 0, and leaves the last end on the duration, unless it was already within 0.01 and nothing changed |
| Estimator.Estimate | audio/tts.py:586-652 | no tokens gives no timings; otherwise one timing per token with the same words in order, contiguous from 0, ending on the duration or within 0.01 of it |
| Estimator.EstimateProportional | audio/tts.py:595-652 | every timing lasts its token's weight times one rate common to the whole text |
| Estimator.EstimateWellFormed | audio/tts.py:638-652 | for audio of non-negative length no timing ends before it starts or starts before 0, and the starts are in order |
| Estimator.InitialDurations | audio/tts.py:598-622 | the first loop yields each weight times the average duration, and the special positions |
| Estimator.FitDurations | audio/tts.py:624-635 | the fitting step shrinks all durations by one factor exactly when there are both special and ordinary tokens and the total overruns the audio |
| Estimator.LayOutWords | audio/tts.py:637-644 | the second loop, with its running clock, yields the back-to-back layout |
| Estimator.ApproximateWordTimings | audio/tts.py:574-655 | the method returns exactly the estimate |
| Expander.ExpandFrom | audio/tts.py:675-742 | the definition of the pass from a given index: one step's timings, then the pass from the index that step moves to; nothing at the end |
| Expander.Expand | audio/tts.py:657-744 | the definition of `_expand_numeric_references`: the pass from the first timing |
| Expander.SplitPoint | audio/tts.py:712-730 | the 60% point of a well-formed interval lies inside it |
| Expander.NumeralWordsValue | audio/tts.py:727-734 | the tens token reads as `n // 10 * 10`, and tens plus ones read as `n` |
| Expander.VerseParts | audio/tts.py:707 | `word.split(':')` of a verse reference is exactly the part before its colon and the part after it |
| Expander.ExpandToken | audio/tts.py:704-740 | a token becomes one or two timings that start where it started, end where it ended, are back to back, and are well formed when it was |
| Expander.ExpandVerseReference | audio/tts.py:705-720 | `c:v` or `c:v-w` becomes exactly the chapter up to the 60% point and the part after the colon from there to the end |
| Expander.ExpandCompoundNumeral | audio/tts.py:722-736 | a numeral with integer part n, 20 < n < 100, becomes `"{n//10}0"` up to the 60% point and `"{n%10}"` after it, or the tens token alone over the whole interval when n%10 is 0 |
| Expander.NumeralHasNoColon | audio/tts.py:705-722 | a numeral is never a verse reference, so the numeral branch is reached for every numeral |
| Expander.CloseIndex | audio/tts.py:686-693 | the inner loop stops at the first token from `i` on that contains `)`, or at the end |
| Expander.StepAt | audio/tts.py:675-742 | one iteration moves forward, emits one or two timings, and covers from the current token's start to the end of the last token it consumed |
| Expander.MergedWords | audio/tts.py:697-700 | the merged token, split again, gives back the words of its parts |
| Expander.ExpandSpan | audio/tts.py:657-744 | expanding a contiguous list yields a contiguous list with the same first start and last end, empty only for empty input |
| Expander.ExpandWellFormed | audio/tts.py:657-744 | expanding a contiguous, well-formed list yields a well-formed list |
| Expander.ExpandOpening | audio/tts.py:675-742 | the expansion opens with a word starting with a given word that opens with `(` only when the first token starts with it: a merged citation opens with its first token, a chapter is a prefix of its verse reference, and tens are digits |
| Expander.ExpandPlain | audio/tts.py:737-740 | a list with no `(`, verse reference or compound numeral comes back unchanged |
| Expander.ExpandLength | audio/tts.py:705-740 | the expansion has at most twice as many timings as the input |
| Expander.CollectCitation | audio/tts.py:680-693 | the inner loop collects the tokens from `i` to the first with `)` (to the end when there is none), and the last one's end |
| Expander.AppendVerseReference | audio/tts.py:705-720 | the verse-reference branch appends exactly the token's expansion |
| Expander.AppendNumeral | audio/tts.py:722-738 | the numeral branch, including the overwrite of the last timing when the ones digit is 0, appends exactly the token's expansion |
| Expander.AppendExpanded | audio/tts.py:704-740 | the loop body for a token not merged appends exactly its expansion |
| Expander.ExpandAt | audio/tts.py:676-742 | one iteration of the loop appends what one step of the pass emits and moves to the index that step moves to |
| Expander.ExpandNumericReferences | audio/tts.py:657-744 | the method returns exactly the expansion |
| Corrector.FirstStarting | audio/tts.py:525-527 | the search for `ref_start` finds the first word from the given index on that starts with the key |
| Corrector.FirstClosing | audio/tts.py:528-533 | the search for `ref_end` finds the first word from `ref_start` on that contains `)` |
| Corrector.Locate | audio/tts.py:519-535 | the run found starts at the first word after the first that starts with the key and ends at the first word from there that contains `)`; nothing is found when either search fails |
| Corrector.Splice | audio/tts.py:537-547 | cutting the run out and reinserting it keeps the length |
| Corrector.SplicePermutation | audio/tts.py:537-547 | cutting the run out and reinserting it keeps every timing, as often as before |
| Corrector.SplicePlacement | audio/tts.py:537-547 | the run lands whole and in order at `min(target, remaining length)`, and the other timings keep their order around it |
| Corrector.BracketedWordUnmatched | audio/tts.py:506-526 | a word still opening with `(` never starts with a non-empty key, so a bracketed citation word is never the one found |
| Corrector.TryReference | audio/tts.py:503-549 | the attempt for one citation succeeds exactly when the citation moves: it looks misplaced, it has a positive position in the text, and its run is found; it then keeps the number of timings |
| Corrector.CorrectWith | audio/tts.py:503-556 | the citations are tried in order, the first attempt that succeeds gives the result, none gives the input; the number of timings is kept |
| Corrector.Correct | audio/tts.py:481-556 | `_fix_reference_order` as written keeps the number of timings; with no citation in the text the input is the result |
| Corrector.CorrectFastPath | audio/tts.py:495-497 | a text without a citation leaves the timings unchanged |
| Corrector.CorrectWithUnmoved | audio/tts.py:503-556 | when none of the citations tried moves, the loop falls through to the input |
| Corrector.CorrectUnmoved | audio/tts.py:503-556 | when no citation of the text looks misplaced with a positive position and a run that is found, the timings come back unchanged |
| Corrector.CorrectWithFirstMover | audio/tts.py:503-549 | the citations before the first one that moves are passed over, and that one's run is spliced to the number of words before it in the text |
| Corrector.CorrectFirstMover | audio/tts.py:503-549 | otherwise the result is decided by the first citation of the text that moves: its located run is spliced to the number of words before it in the text, and no later citation counts |
| Corrector.CorrectOneSplice | audio/tts.py:503-556 | the result is the input, or the input with one contiguous run moved |
| Corrector.OneSplicePermutation | audio/tts.py:537-549 | moving one run keeps the length and every timing |
| Corrector.CorrectPermutation | audio/tts.py:481-556 | the corrected timings are a permutation of the input: same length, same timings |
| Corrector.LocateReference | audio/tts.py:519-533 | the search loop sets `ref_start` and `ref_end` to the located run, and leaves one of them at -1 when there is none |
| Corrector.MoveReference | audio/tts.py:535-549 | the move reports success exactly when the run is found, and then returns the splice of it to the clamped target |
| Corrector.TryReferenceAt | audio/tts.py:505-549 | the loop body for one citation succeeds exactly when the attempt for that citation does, with the same timings |
| Corrector.FixReferenceOrder | audio/tts.py:481-556 | the method returns exactly the corrected timings |
| Corrector.FrontCitationKept | audio/tts.py:506-526 | as written, when the text has exactly one citation and its key is not empty, timings that open with a word keeping its `(`, neither of the next two starting with the key, come back unchanged, whatever the text says |
| Corrector.BracketedFrontNone | audio/tts.py:506 | a run that opens the timings with `(`, with none of the next two words starting with the key, does not make the citation look misplaced |
| Corrector.BracketedNotNearFront | audio/tts.py:506 | when the first word keeps its `(` and neither of the next two starts with the key, no word among the first three starts with it |
| Corrector.SpellsOpening | audio/tts.py:482-485 | a run of words that spells the citation opens with the citation's first word |
| Corrector.LocateIntended | audio/tts.py:482-485 | as documented, the citation's run is looked for at the beginning of the timings only: it is found exactly when the words from the first to the first with `)` spell the citation, their words joined by single spaces being the citation's, and it then runs from index 0 to that word and opens with the citation's first word |
| Corrector.TryReferenceIntended | audio/tts.py:482-485 | the documented attempt for one citation acts exactly when the text does not open with the citation, finds it after its first character, and the timings open with its run; it keeps the number of timings |
| Corrector.CorrectWithIntended | audio/tts.py:482-485 | the documented corrector tries the citations in order and keeps the number of timings |
| Corrector.CorrectIntended | audio/tts.py:482-485 | the documented corrector keeps the number of timings |
| Corrector.TryIntendedFront | audio/tts.py:482-485 | for such a run, when the text has the citation later on and does not open with it, the documented attempt splices it to the number of words before the citation in the text |
| Corrector.CorrectIntendedFront | audio/tts.py:482-485 | when the timings open with the run of the first citation, its words spelling that citation, and the text has the citation after its start, the documented corrector splices that run to the citation's word position |
| Corrector.SpliceFront | audio/tts.py:537-547 | splicing a run that opens the list puts it whole in front of the target-th of the other timings, the others keeping their order |
| Corrector.CorrectIntendedRelocates | audio/tts.py:482-485 | as documented, the run of the first citation put at the front, its words spelling the citation, is moved back to where the citation stands in the text, counted in words and clamped to the length, whole and in order, the other timings keeping their order |
| Corrector.CorrectWithIntendedOpensLikeText | audio/tts.py:482-485 | when, for every citation tried, the timings open with its first word only if the stripped text does too, the documented corrector returns its input |
| Corrector.CorrectIntendedOpensLikeText | audio/tts.py:482-485 | timings that open with a citation's first word only when the stripped text does come back unchanged from the documented corrector |
| Corrector.CorrectIntendedInOrder | audio/tts.py:482-485 | timings that are the text's own tokens, in order, come back unchanged from the documented corrector, whatever their times |
| Corrector.CorrectWithIntendedOneSplice | audio/tts.py:482-485 | the documented corrector moves at most one contiguous run |
| Corrector.CorrectIntendedPermutation | audio/tts.py:482-485 | the documented corrector only reorders: same length, same timings |
| ReorderExample.CorrectScramblesInOrder | audio/tts.py:503-549 | as written, the timings of `We see (see 7:28) it` in the text's own order come back as `We`, `it`, `see`, `(see`, `7:28)` |
| Pipeline.SpeechTimings | audio/tts.py:464-470 | the chain of estimate, expansion and correction; the correction keeps the number of expanded timings |
| Pipeline.SpeechTimingsIntended | audio/tts.py:464-470 | the same chain with the documented corrector keeps the number of expanded timings |
| Pipeline.SpeechTimingsIntendedInOrder | audio/tts.py:464-470 | with the documented corrector, the chain returns the expanded timings unchanged for every text and duration: expanded timings follow the text, so no citation is taken to be out of place |
| Pipeline.SpeechTimingsIntendedReorder | audio/tts.py:464-470 | with the documented corrector too, the correction only permutes the expanded timings, and changes nothing for a text without a citation |
| Pipeline.ExpandedTimingsCover | audio/tts.py:464-467 | before correction the timings cover non-negative audio back to back from 0 to its length, within 0.01, without an interval ending before it starts, and are empty only for a text without words |
| Pipeline.SpeechTimingsReorder | audio/tts.py:468-470 | the citation correction only permutes the expanded timings, and changes nothing for a text without a citation |
| Cache.NormalizeTextShape | audio/tts.py:249-252 | the normalised text is lower case, has no surrounding whitespace, has single spaces between words, and has the words of the stripped, lowered text |
| Cache.NormalizeTextIdempotent | audio/tts.py:249-252 | normalising a normalised text changes nothing |
| Cache.NormalizeVoiceIdempotent | audio/tts.py:253 | the normalised voice is lower case with no surrounding whitespace, and normalising it again changes nothing |
| Cache.SortSorted | audio/tts.py:259-260 | the settings' items, sorted, are in strictly increasing key order |
| Cache.SortedUnique | audio/tts.py:259-260 | two strictly sorted lists of the same items are the same list |
| Cache.SettingsJsonOrderFree | audio/tts.py:258-260 | two settings dictionaries with the same items in any insertion order serialise identically |
| Cache.ProviderRoundTrip | audio/tts.py:255-264 | a provider name without a vertical bar can be read back from every key string made with it |
| Cache.ProvidersSeparated | audio/tts.py:255-264 | two different providers never share a key string, whatever the text, voice and settings |
| Cache.CacheKey | audio/tts.py:247-266 | the definition of `_get_cache_key`: the digest of `provider=<name>`, the normalised text and voice, and the settings as sorted JSON when there are any, joined with vertical bars |
| Cache.KeyBodyCongruent | audio/tts.py:249-264 | two texts and voices with the same normal forms give the same key body |
| Cache.CacheKeyNormalised | audio/tts.py:247-266 | case, surrounding whitespace and runs of whitespace in text or voice do not change the key |
| Cache.CacheKeyOrderFree | audio/tts.py:247-266 | the insertion order of the settings does not change the key |
| Cache.Lookup | audio/tts.py:268-284 | a lookup hits exactly when the key is present and its file exists, and a hit's path exists |
| Cache.PrunedStable | audio/tts.py:278-284 | evicting does not change the answer, a repeated lookup evicts nothing more, and no other key is touched |
| Cache.Pruned | audio/tts.py:278-284 | a lookup only ever removes entries, and only the looked-up key when its file is gone; the entries left are unchanged |
| Cache.Stored | audio/tts.py:757-761 | the entry written keeps the result's path, always has word timings and a duration, and keeps the ones the result had |
| Cache.WithDuration | audio/tts.py:748-755 | a cached result always carries a duration |
| Cache.StoreThenLookup | audio/tts.py:746-762 | right after caching a result, looking up its key gives back its path, its word timings (empty when absent) and its duration (given, else measured, else 0), provided its file exists |
| Cache.AudioCache.constructor | audio/tts.py:227-237 | the cache starts with the loaded entries |
| Cache.AudioCache.GetCachedAudio | audio/tts.py:268-284 | the method answers as the lookup does and leaves the entries pruned |
| Cache.AudioCache.CacheAudio | audio/tts.py:746-762 | the method fills in the result's duration and stores the entry under the key, replacing any earlier one, and changes nothing else |
| Content.DetectContentType | audio/tts.py:286-305 | a text is descriptive exactly when its lower-cased form holds a scene marker, and narrative exactly when it holds neither a scene marker (lower-cased) nor a dialogue marker (as written) |
| Content.DetectMonotone | audio/tts.py:286-305 | adding text never lowers the class: descriptive over dialogue over narrative |
| Content.DescriptiveIgnoresCase | audio/tts.py:297 | whether a text is descriptive does not depend on its letter case |
| Content.PunctuationIsDialogue | audio/tts.py:301 | a quotation mark, an apostrophe or a colon makes a text dialogue unless it is descriptive |
| Content.CitationIsNotNarrative | audio/tts.py:301 | a text citing a verse as `(... c:v ...)` is never narrative, because of the colon |

## Left out

- Times are exact reals. Floating-point rounding is not modelled, and the
  0.01 tolerance compares exact values.
- Patterns.IntegerPart: `int(float(w))` is modelled as the exact integer
  part. A numeral with more than about 15 significant digits can round
  across an integer in a float (`99.99999999999999999` becomes 100); the
  model does not capture that. A numeral beyond the float range (309 nines,
  say) makes `float(w)` infinite and `int` raise `OverflowError`
  (`audio/tts.py:725`); that escapes the pass and becomes a `TTSError`
  (`audio/tts.py:478-479`). The model has no such failure: it takes the
  exact value, which is at least 100, so the token passes through unchanged.
- Patterns.IsDigit: `\d` is ASCII `0-9` here. Python's `\d` also matches
  other Unicode decimal digits.
- Text.LowerChar: `str.lower()` maps ASCII letters only. For the markers of
  the content classifier this makes no difference; for the cache key, other
  upper-case letters keep their case.
- Cache.SettingsJson: setting keys are written between quotes without JSON
  escaping, and values are taken as already-serialised JSON text. So the
  sorting of nested dictionaries inside values, and non-string keys, are not
  modelled.
- md5 and `.encode()` are a function parameter `digest` of the cache key.
  The provider name `self.provider_name` is a parameter.
- Loading the cache from disk and saving it after every change are file I/O.
  The constructor takes the loaded entries.
- Cache.AudioCache.CacheAudio: the source writes the filled-in duration into
  the caller's result dictionary in place (`audio/tts.py:750-755`), and
  speech generation returns that same dictionary (`audio/tts.py:387-389`).
  The model returns the result with its duration filled in
  (`Cache.WithDuration`) instead of updating the caller's dictionary, so the
  aliasing between the two is not modelled.
- Whether an audio file exists is a set of existing paths. The duration
  measured by pydub is a parameter, `None` when measuring fails.
- Cache.AudioCache.GetCachedAudio: the path comes back as stored, without
  the normalisation `str(Path(p))` applies. An entry without a `"path"` key,
  which raises `KeyError` in the source, cannot be represented.
- In the corrector, `ref_indices` and `joined_words` are computed but never
  read, and the `try`/`except` around the move has nothing in it that can
  raise for string inputs. Logging is not modelled either.
- Speech generation beyond the chain of the three passes is left out:
  - providers and voice selection;
  - the voice optimiser;
  - network calls;
  - writing audio;
  - the `len(text) / 15` duration fallback.

  The duration is an input.
- Corrector.CorrectIntendedRelocates: the target position counts the text's
  words before the citation, as the source does (`audio/tts.py:513-517`),
  not the expanded timings before it. When a compound numeral before the
  citation was split in two, the run lands one place early. For example,
  text `73 (see 7:28)` with timings `(see 7:28)`, `70`, `3` gives `70`,
  `(see 7:28)`, `3`. The model keeps the source's count.
- The two verse-reference branches (`c:v-w` and `c:v`) do the same thing,
  so they are modelled as one.

## Findings

| source | as written | input that shows it | evidently intended | confidence | as-written member | corrected member |
|---|---|---|---|---|---|---|
| audio/tts.py:506-526 | the citation's first word is compared with its `(` stripped, but the timing words keep theirs, and the run is searched for from the second word on, so a run at the very front is never moved | text `He said (Al-A'raf 7:28)` with timings `(Al-A'raf`, `7:28)`, `He`, `said` comes back unchanged | as the docstring at lines 482-485 says, the run is moved to where the citation stands: `He`, `said`, `(Al-A'raf`, `7:28)` | not executed | Corrector.FrontCitationKept | Corrector.CorrectIntendedRelocates |
| audio/tts.py:506-527 | the run is found by its first word starting with the key, searching from the second word on, without checking that the run is the citation; speech generation applies the corrector to estimated timings, which follow the text's order (`audio/tts.py:465-470`) | text `We see (see 7:28) it` with timings `We`, `see`, `(see`, `7:28)`, `it` in that order: the key `see` starts the second word, so `see`, `(see`, `7:28)` is taken for the citation and the result is `We`, `it`, `see`, `(see`, `7:28)` | timings already in the text's order come back unchanged: only a run at the beginning of the timings whose words spell the citation is moved, as the docstring at lines 482-485 describes. This holds for the text's tokens (`Corrector.CorrectIntendedInOrder`) and for the expanded timings of every text | not executed | ReorderExample.CorrectScramblesInOrder | Pipeline.SpeechTimingsIntendedInOrder |
