# Jasper microphone loops and Sonos intent chunks, in Dafny

This project models two parts of the Jasper voice-assistant client.

**The microphone (`client/mic.py`).** This covers the listening loops of the `Mic` class:

- the energy score of a frame;
- threshold calibration over a rolling window of scores (`lastN`);
- the passive wake-word listener, with its pre-roll and post-roll;
- the batch active listener, which stops when the rolling average falls below 0.8 × threshold or after 180 frames;
- the streaming producer `gen`, with its rewinding cursor and the helper `returnUpTo`;
- the dispatch in `activeListen`.

Audio frames are opaque values. The RMS of a frame, the silence decision of the streaming path, the transcriber and the recogniser are inputs.

**The Sonos plugin's intent analysis.** This covers:

- the chunk list of an intent (`Chunks`, `Chunk`, `Meaning`);
- `split_chunk`, which replaces one chunk by `[pre] tagged [post]`;
- the two text processors that drive it:
  - the TextRazor handler, covering entity categories, filter flattening and the entity and verb loops;
  - the Sonos dictionary pass.

Modules:

| file | module | what |
|---|---|---|
| wrappers.dfy | Wrappers | `Option` |
| rolling_window.dfy | RollingWindow | the `lastN` list: pop the oldest, append the newest; sums |
| mic.dfy | Mic | score, calibration, passive listener, batch active listener, dispatch |
| mic_streaming.dfy | MicStreaming | `returnUpTo`, `gen`, the streaming listener |
| text.dfy | Text | `str.lower`, `string.punctuation`, `str.strip`, `str.find`, the literal whole-word regex `\bW\b` as used by `re.search` and `re.split` |
| intent_analysis.dfy | IntentAnalysis | chunks, meanings, the `Chunks` class and `split_chunk` |
| tagging.dfy | Tagging | what both text processors do: a run of "find the chunk, split it" requests, and the lemmas about such runs |
| textproc_textrazor.py → textproc_textrazor.dfy | TextprocTextrazor | `_get_entity_type`, the filter helpers, `handle` from the analysis on |
| textproc_sonos.py → textproc_sonos.dfy | TextprocSonos | `process`, `_process_dictionary` |

Each stateful loop is a method, proved against a specification function.

- `Chunks` is a class. Its chunk sequence and id counter are updated in place by `AddChunk` and `SplitChunk`.
- The two text processors are loops over `Chunks.SplitChunk`. Their final state is proved equal to `Tagging.Run` over the list of requests they make.
- The properties are lemmas about `Run`:
  - validity is kept;
  - tagged chunks survive;
  - new chunks carry the requested tags;
  - nothing changes without a match;
  - nothing raises without an empty text.

Python 2 semantics that matter:

- `16000 / 1024` is 15, so calibration makes 15 pushes and the seeds 15..19 (or 15..29) stay in the window.
- Scores and the calibration average use floor division.
- Chunk ids are never falsy, so a found id always passes `if target_chunk_id:`.
- `re.split` never splits on an empty match.

The wake-phrase test (`PERSONA in phrase`) is case-sensitive in the code. It is modelled that way, although the surrounding documentation describes it as case-insensitive.

## Model

| member | source | states |
|---|---|---|
| RollingWindow.Push | client/mic.py:82-83 | one update keeps the window's length and puts the new score last |
| RollingWindow.PushAll | client/mic.py:76-84 | any number of updates keeps the window's length |
| RollingWindow.PushAllIsSuffix | client/mic.py:73-84 | after no more pushes than the window is long, the window is the seeds not yet popped followed by the pushed scores |
| RollingWindow.WindowKeepsLastN | client/mic.py:239-248 | after at least as many pushes as the window is long, the window is exactly the last scores pushed |
| RollingWindow.SumRepeat | client/mic.py:237 | the seeded active window sums to n × c |
| RollingWindow.SumRange | client/mic.py:122 | twice the sum of a range is (hi-lo)(lo+hi-1), which fixes the seed sums 85 and 330 |
| Mic.Score | client/mic.py:47-50 | the score is rms/3 rounded down (3s ≤ rms < 3s+3), a natural; a silent frame scores 0 |
| Mic.CalibrationKeepsSeeds | client/mic.py:73-84 | the 15 calibration pushes leave seeds 15..size-1 in the window, followed by the 15 scores |
| Mic.FetchThresholdFormula | client/mic.py:73-90 | `fetchThreshold` gives floor((85 + Σ scores)/20) × 1.8, which is at least 7.2 |
| Mic.PassiveThresholdFormula | client/mic.py:122-136 | the passive threshold is floor((330 + Σ scores)/30) × 1.8, which is at least 19.8 |
| Mic.Calibrate | client/mic.py:122-136 | the calibration loop pushes the scores of the first 15 frames and returns floor(window mean) × 1.8 |
| Mic.FetchThreshold | client/mic.py:52-92 | `fetchThreshold` calibrates on the first 15 frames with a window of 20; the result is at least 7.2 |
| Mic.FirstLoud | client/mic.py:145-153 | the first frame in a range scoring strictly above the threshold, with every earlier one at or below it; None exactly when all are at or below |
| Mic.Disturbance | client/mic.py:145-160 | the trigger is the first of the 150 listened frames (15..164) scoring above the threshold; None exactly when none does |
| Mic.AwaitDisturbance | client/mic.py:145-153 | the waiting loop finds exactly `Disturbance` and has read the frames up to and including the trigger |
| Mic.RecordPostRoll | client/mic.py:166-170 | the loop after the trigger appends the next 15 frames to the kept ones, giving the frames from the pre-roll start to 15 past the trigger |
| Mic.UtteranceBounds | client/mic.py:163-170 | the passive recording holds 16 to 35 frames, the trigger being the 16th from the end |
| Mic.PassiveListen | client/mic.py:95-192 | no disturbance exactly when every listened frame scores at or below the threshold. On detection, the recording is the last at most 20 frames up to the trigger plus 15 more (16..35 frames, trigger 16th from the end). The result is (threshold, persona) when some transcript contains the persona, else (False, transcripts) |
| Mic.QuietFrom | client/mic.py:239-252 | recording stops after the first frame whose window average is below 0.8 × threshold, and at 180 frames at the latest |
| Mic.NotQuietBeforeEleven | client/mic.py:237-252 | with the window seeded at 1.2 × threshold, no average can drop below 0.8 × threshold within the first 10 frames |
| Mic.SilenceStopsAtEleven | client/mic.py:237-252 | in total silence the active listener records exactly 11 frames |
| Mic.ActiveWindowStep | client/mic.py:245-246 | popping the oldest entry and appending the new score gives the window after one more frame |
| Mic.ActiveFrame | client/mic.py:241-252 | one frame of the active loop: the frame is recorded, the window moves on by its score, and the loop stops exactly at the frame `QuietFrom` names |
| Mic.RecordUntilQuiet | client/mic.py:239-252 | the recording loop keeps exactly the frames up to the stopping frame given by `QuietFrom` |
| Mic.ActiveListenToAllOptions | client/mic.py:208-268 | the recording is 1 to 180 consecutive frames, starting after calibration when no threshold is given and stopping as `QuietFrom` says; all of it is transcribed |
| Mic.ActiveListen | client/mic.py:195-205 | streams exactly when the engine's `engine_mode` is `stream`; returns the options, or None when they are falsy |
| MicStreaming.ReturnUpTo | client/mic.py:335-342 | the slice is what lies between the old and new cursor; within range the cursor moves by n, and at the end it lands one past the end |
| MicStreaming.OvershootSkipsOne | client/mic.py:342 | if the buffer grows after the cursor went one past its end, the next slice starts one word late |
| MicStreaming.SpeechFrom | client/mic.py:363-372 | the first non-silent chunk from a point on, every chunk before it being silent |
| MicStreaming.StopFrom | client/mic.py:379-388 | the first chunk after which `gen` stops: the second silence since the last yield, or the counter passing 75 |
| MicStreaming.StopWithinTimeout | client/mic.py:383-388 | after speech starts at chunk t, capture stops at chunk t+76 at the latest, and always stops when there are more chunks than that |
| MicStreaming.NoSpeechNeverStops | client/mic.py:355-392 | no input of silent chunks satisfies `Stops`: there is no speech start exactly when every chunk is silent, and without one there is no stopping chunk |
| MicStreaming.SilentPass | client/mic.py:355-388 | one pass of the loop over a silent chunk before speech only appends its words: no branch applies, neither stop test holds, and `counter`, `num_silent` and the cursor stay at 0 |
| MicStreaming.SilenceNeverStopsLoop | client/mic.py:355-388 | on an input of silent chunks, after any number of passes speech has not started, `counter` is still 0 and no pass has met a stop test, so `gen` keeps reading |
| MicStreaming.Buffered | client/mic.py:356-359 | after n chunks the buffer holds 4096 × n words |
| MicStreaming.FlushRest | client/mic.py:392-394 | the flush yields contiguous 512-word slices (the last one shorter or equal) covering the buffer from the cursor to the end |
| MicStreaming.Absorb | client/mic.py:356-377 | reading a chunk appends its 4096 words; the first loud chunk sets the cursor to the rewind point; a later loud one yields the next 1024 words. `num_silent` is then the number of silent chunks in a row ending at this one (at most 2) |
| MicStreaming.Decide | client/mic.py:379-388 | the producer stops on exactly the chunk `StopFrom` names, on silence exactly when that chunk and the one before are silent; otherwise the capture invariant holds with one more chunk read |
| MicStreaming.Capture | client/mic.py:355-388 | the capture loop yields 1024-word slices covering the buffer from the rewind point before the trigger up to the cursor, one per loud chunk after the trigger; it stops on two silences in a row after a yield, or at the timeout |
| MicStreaming.Gen | client/mic.py:346-395 | everything `gen` yields is the buffer from the rewind point to its end, each word once and in order: 1024-word slices, then 512-word slices |
| MicStreaming.ActiveListenStreaming | client/mic.py:271-316 | the request body is what `gen` yields; a transcript becomes a one-element list, no transcript becomes None |
| MicStreaming.ThreeFiveTwo | client/mic.py:363-388 | three silent, five loud, two silent chunks: trigger at chunk 3, rewind to 0, stop at chunk 9, four slices streamed |
| Text.ToLower | plugins/speechhandler/sonoscontrol/intent_analysis.py:14 | the result is never an ASCII capital; a character is kept exactly when it is not one, and a capital becomes the small letter at the same place in the alphabet |
| Text.Lower | plugins/speechhandler/sonoscontrol/intent_analysis.py:14 | lower-casing maps each character in place, leaves no capital, and gives back the text unchanged exactly when it held no capital |
| Text.LowerAppend | plugins/speechhandler/sonoscontrol/intent_analysis.py:14 | lower-casing a concatenation lower-cases each part |
| Text.LowerIdempotent | plugins/speechhandler/sonoscontrol/textproc_sonos.py:18-19 | lowering a phrase twice is lowering it once |
| Text.RemovePunctuation | plugins/speechhandler/sonoscontrol/intent_analysis.py:12-13 | its own contract fixes only the shape: no punctuation is left and the text does not grow; which characters are kept, in what order and how often is stated by RemovePunctuationAppend and RemovePunctuationOne (and RemovePunctuationMembers) |
| Text.RemovePunctuationMembers | plugins/speechhandler/sonoscontrol/intent_analysis.py:12-13 | every character of the text that is not punctuation is kept, and nothing new appears |
| Text.RemovePunctuationAppend | plugins/speechhandler/sonoscontrol/intent_analysis.py:12-13 | removing punctuation works character by character: the result for a concatenation is the results for its parts, in order |
| Text.RemovePunctuationOne | plugins/speechhandler/sonoscontrol/intent_analysis.py:12-13 | a punctuation character is dropped, any other character kept |
| Text.Normalise | plugins/speechhandler/sonoscontrol/intent_analysis.py:12-14 | the intent text is the text without punctuation, lower-cased character by character, so it holds neither punctuation nor capitals |
| Text.NormaliseAppend | plugins/speechhandler/sonoscontrol/intent_analysis.py:12-14 | normalising a concatenation normalises each part, in order |
| Text.NormaliseOne | plugins/speechhandler/sonoscontrol/intent_analysis.py:12-14 | a punctuation character disappears, any other character becomes its lower-case form |
| Text.RemovePunctuationKeepsClean | plugins/speechhandler/sonoscontrol/intent_analysis.py:12-13 | text without punctuation is left alone |
| Text.NormaliseIdempotent | plugins/speechhandler/sonoscontrol/intent_analysis.py:12-14 | normalising twice is normalising once |
| Text.Strip | plugins/speechhandler/sonoscontrol/intent_analysis.py:122 | `strip()` gives the text between a run of leading and a run of trailing white space, with no white space at either end, empty exactly when the text is all white space |
| Text.StripExact | plugins/speechhandler/sonoscontrol/intent_analysis.py:122 | any part of the text surrounded only by white space and with no white space at its ends is the stripped text, so `strip()` is fully determined |
| Text.FirstWholeWord | plugins/speechhandler/sonoscontrol/intent_analysis.py:152 | the leftmost match of `\bW\b`, none before it |
| Text.SplitHead | plugins/speechhandler/sonoscontrol/intent_analysis.py:122 | the first two pieces of `re.split`: the text before the first whole-word match and the text up to the next match; None exactly when there is no match or the word is empty |
| Text.WholeWordOccurs | plugins/speechhandler/sonoscontrol/intent_analysis.py:108-113 | a whole-word match is an occurrence, so `find` succeeds wherever `re.search` does |
| Text.FindWithoutWholeWord | plugins/speechhandler/sonoscontrol/intent_analysis.py:108-126 | "play" is found in "playing" but is no whole word there, so the split has one piece |
| Text.SecondOccurrenceDropped | plugins/speechhandler/sonoscontrol/intent_analysis.py:122-134 | splitting "play x play y" at "play" keeps "" and " x "; the words after the second match are dropped |
| Text.StripExamples | plugins/speechhandler/sonoscontrol/intent_analysis.py:122 | "a " strips to "a", " b" to "b" |
| Text.SplitAroundBy | plugins/speechhandler/sonoscontrol/intent_analysis.py:122 | "a by b" splits at "by" into "a " and " b" |
| IntentAnalysis.Position | plugins/speechhandler/sonoscontrol/intent_analysis.py:87-93 | the index of the first chunk with the id; None exactly when no chunk has it |
| IntentAnalysis.PositionOfUnique | plugins/speechhandler/sonoscontrol/intent_analysis.py:83-93 | with unique ids, the chunk found by id is the chunk at that index |
| IntentAnalysis.FirstWithText | plugins/speechhandler/sonoscontrol/intent_analysis.py:150-153 | the first chunk holding the text as a whole word; None exactly when none does |
| IntentAnalysis.MeaningValues | plugins/speechhandler/sonoscontrol/intent_analysis.py:58-63 | the values are exactly those of chunks with a meaning of the selected type (any type when it is None or empty); none when no chunk has a meaning |
| IntentAnalysis.MeaningValuesAppend | plugins/speechhandler/sonoscontrol/intent_analysis.py:58-63 | values are collected in chunk order |
| IntentAnalysis.Insert | plugins/speechhandler/sonoscontrol/intent_analysis.py:128 | `list.insert` keeps the elements before the index, puts the chunk at the index and moves every later element up by one |
| IntentAnalysis.InsertElements | plugins/speechhandler/sonoscontrol/intent_analysis.py:128 | deleting the inserted chunk again gives back the list, so the insert adds exactly the one chunk as a multiset |
| IntentAnalysis.Replacement | plugins/speechhandler/sonoscontrol/intent_analysis.py:119-134 | the replacement is [pre] new [post], with pre and post present only when non-empty; the new chunk carries the meaning; all ids are fresh and distinct |
| IntentAnalysis.ReplacementMembers | plugins/speechhandler/sonoscontrol/intent_analysis.py:119-134 | apart from the new chunk, the pieces are untagged, non-empty pre or post texts |
| IntentAnalysis.ReplaceKeepsValid | plugins/speechhandler/sonoscontrol/intent_analysis.py:116-134 | replacing a chunk by fresh chunks keeps ids unique |
| IntentAnalysis.RemoveKeepsValid | plugins/speechhandler/sonoscontrol/intent_analysis.py:116 | removing a chunk keeps ids unique |
| IntentAnalysis.SplitSpec | plugins/speechhandler/sonoscontrol/intent_analysis.py:95-148 | `split_chunk` changes the list only by splitting or raising; the `chunk_number` form and a missing id are reported as such |
| IntentAnalysis.SplitReplacement | plugins/speechhandler/sonoscontrol/intent_analysis.py:119-134 | the replacement holds 1 to 3 chunks, among them the words tagged with the meaning, with unique ids numbered from the next free id |
| IntentAnalysis.SplitAtSpec | plugins/speechhandler/sonoscontrol/intent_analysis.py:105-134 | once the chunk is found: words not found leaves the list alone; otherwise the split either succeeds or raises at that position |
| IntentAnalysis.SplitCases | plugins/speechhandler/sonoscontrol/intent_analysis.py:98-134 | unknown id exactly when the id is None or absent; words-not-found exactly when `find` fails; a split succeeds exactly when the words are a non-empty whole word of the chunk |
| IntentAnalysis.RaisedLayout | plugins/speechhandler/sonoscontrol/intent_analysis.py:116-126 | after the IndexError the list is the old one without the selected chunk |
| IntentAnalysis.SplitLayout | plugins/speechhandler/sonoscontrol/intent_analysis.py:115-134 | a split puts the replacement exactly where the chunk was; the chunks before and after are kept in order |
| IntentAnalysis.SplitKeepsValid | plugins/speechhandler/sonoscontrol/intent_analysis.py:115-134 | `split_chunk` keeps ids unique and fresh |
| IntentAnalysis.SplitKeepsOthers | plugins/speechhandler/sonoscontrol/intent_analysis.py:115-134 | every chunk but the split one survives |
| IntentAnalysis.SplitNewChunks | plugins/speechhandler/sonoscontrol/intent_analysis.py:119-134 | every chunk after a split was there before, is untagged, or is the words tagged with the meaning |
| IntentAnalysis.SplitLength | plugins/speechhandler/sonoscontrol/intent_analysis.py:115-134 | a raise loses one chunk; otherwise the list grows by 0 to 2 chunks |
| IntentAnalysis.PlayingRaises | plugins/speechhandler/sonoscontrol/intent_analysis.py:108-126 | splitting "play" out of "playing" removes the chunk, then raises |
| IntentAnalysis.ReplacementAroundWord | plugins/speechhandler/sonoscontrol/intent_analysis.py:122-134 | "by" in "a by b" is replaced by "a", the tagged "by", "b" |
| IntentAnalysis.SplitAroundWord | plugins/speechhandler/sonoscontrol/intent_analysis.py:95-134 | the whole split of "a by b" at "by" |
| IntentAnalysis.InsertReplacement | plugins/speechhandler/sonoscontrol/intent_analysis.py:119-134 | the three inserts at the removed chunk's index leave [pre] new [post] there |
| IntentAnalysis.Chunks.constructor | plugins/speechhandler/sonoscontrol/intent_analysis.py:66-69 | a new list holds one untagged chunk with the whole text |
| IntentAnalysis.Chunks.AddChunk | plugins/speechhandler/sonoscontrol/intent_analysis.py:78-81 | an untagged chunk with a fresh id is appended |
| IntentAnalysis.Chunks.GetChunk | plugins/speechhandler/sonoscontrol/intent_analysis.py:83-85 | the first chunk with the id, or None exactly when no chunk has it |
| IntentAnalysis.Chunks.GetChunkPosition | plugins/speechhandler/sonoscontrol/intent_analysis.py:87-93 | the counting loop returns the first index with the id, or None |
| IntentAnalysis.Chunks.FindChunkWithText | plugins/speechhandler/sonoscontrol/intent_analysis.py:150-153 | the id of the first chunk holding the text as a whole word, or None exactly when none does |
| IntentAnalysis.Chunks.SplitChunk | plugins/speechhandler/sonoscontrol/intent_analysis.py:95-148 | the new list and counter are those of `SplitSpec`, and ids stay unique |
| IntentAnalysis.Chunks.SplitAt | plugins/speechhandler/sonoscontrol/intent_analysis.py:105-134 | remove, split, strip and insert give the list of `SplitAtSpec` |
| IntentAnalysis.Intent.constructor | plugins/speechhandler/sonoscontrol/intent_analysis.py:53-56 | a new intent owns a fresh one-chunk list |
| Tagging.Lookup | plugins/speechhandler/sonoscontrol/textproc_textrazor.py:64 | `dictionary['action']`: the entry for the key, or None (KeyError) exactly when there is none |
| Tagging.RunAppend | plugins/speechhandler/sonoscontrol/textproc_sonos.py:16-26 | running two request lists in turn is running their concatenation, and nothing runs after a raise |
| Tagging.RunSnoc | plugins/speechhandler/sonoscontrol/textproc_sonos.py:21-26 | one more request acts on the state left by the earlier ones, unless they raised |
| Tagging.ApplySplitsFound | plugins/speechhandler/sonoscontrol/textproc_sonos.py:21-26 | the chunk split is the chunk the text search found |
| Tagging.RunKeepsValid | plugins/speechhandler/sonoscontrol/textproc_sonos.py:16-26 | a run keeps ids unique and fresh |
| Tagging.ApplyKeepsValid | plugins/speechhandler/sonoscontrol/textproc_sonos.py:21-26 | one find-and-split keeps ids unique and fresh |
| Tagging.ApplyKeepsTagged | plugins/speechhandler/sonoscontrol/textproc_sonos.py:22-26 | a split guarded by "no meaning yet" never removes a tagged chunk |
| Tagging.RunKeepsTagged | plugins/speechhandler/sonoscontrol/textproc_sonos.py:16-26 | tagged chunks survive a whole guarded run |
| Tagging.RunNewChunks | plugins/speechhandler/sonoscontrol/textproc_textrazor.py:55-70 | every chunk after a run was there before, is untagged, or holds a request's text with its meaning |
| Tagging.RunLength | plugins/speechhandler/sonoscontrol/textproc_sonos.py:21-26 | a run that does not raise never shortens the list; a raise loses at most one chunk |
| Tagging.RunWithoutMatch | plugins/speechhandler/sonoscontrol/textproc_textrazor.py:58-59 | when no text occurs as a whole word, the id is None every time and nothing changes |
| Tagging.ApplyRaisesOnlyOnEmptyText | plugins/speechhandler/sonoscontrol/textproc_sonos.py:21-26 | the chunk found holds the text as a whole word, so its split raises only for an empty text |
| Tagging.RunOkWithoutEmptyText | plugins/speechhandler/sonoscontrol/textproc_sonos.py:16-26 | a run over non-empty texts never raises |
| Tagging.EmptyTextRaises | plugins/speechhandler/sonoscontrol/intent_analysis.py:108-126 | an empty text matches at a word boundary, so the chunk is removed and the split raises |
| TextprocSonos.ItemRequestsAppend | plugins/speechhandler/sonoscontrol/textproc_sonos.py:17 | the items' requests follow item order |
| TextprocSonos.DictionaryRequestsAppend | plugins/speechhandler/sonoscontrol/textproc_sonos.py:16 | the dictionary's requests follow meaning-type order |
| TextprocSonos.DictionaryRequestsFrom | plugins/speechhandler/sonoscontrol/textproc_sonos.py:16-26 | every request is guarded and tags a lower-cased dictionary phrase with its type and item |
| TextprocSonos.ItemRequestsFrom | plugins/speechhandler/sonoscontrol/textproc_sonos.py:17-26 | every request of a meaning type comes from one of its items' phrases |
| TextprocSonos.ProcessPhrase | plugins/speechhandler/sonoscontrol/textproc_sonos.py:19-26 | one phrase: split the first chunk holding it only if that chunk has no meaning |
| TextprocSonos.ProcessPhrases | plugins/speechhandler/sonoscontrol/textproc_sonos.py:18-26 | the phrase loop equals the run of its requests |
| TextprocSonos.ProcessItems | plugins/speechhandler/sonoscontrol/textproc_sonos.py:17-26 | the item loop equals the run of its requests |
| TextprocSonos.ProcessDictionary | plugins/speechhandler/sonoscontrol/textproc_sonos.py:15-26 | the triple loop equals the run of all dictionary requests, stopping at a raise |
| TextprocSonos.Process | plugins/speechhandler/sonoscontrol/textproc_sonos.py:12-13 | delegates to the dictionary pass; the profile is ignored |
| TextprocSonos.KeepsTagged | plugins/speechhandler/sonoscontrol/textproc_sonos.py:21-26 | chunks that already carry a meaning are never altered or removed |
| TextprocSonos.NewChunksFromDictionary | plugins/speechhandler/sonoscontrol/textproc_sonos.py:16-26 | every chunk afterwards was there, is untagged, or holds a lower-cased phrase tagged with its meaning type and item |
| TextprocSonos.NoPhraseNoChange | plugins/speechhandler/sonoscontrol/textproc_sonos.py:21-22 | if no phrase matches, the list and counter are unchanged |
| TextprocSonos.NonEmptyPhrasesNeverRaise | plugins/speechhandler/sonoscontrol/textproc_sonos.py:21-26 | without empty phrases the pass never raises |
| TextprocSonos.TaggedFirstMatchBlocksPhrase | plugins/speechhandler/sonoscontrol/textproc_sonos.py:21-24 | a tagged first match skips the phrase even though a later chunk holds it |
| TextprocTextrazor.AllTypesMembers | plugins/speechhandler/sonoscontrol/textproc_textrazor.py:103-117 | the flattened filters hold exactly the categories' types, and their length is the sum of the list lengths |
| TextprocTextrazor.FlattenFilters | plugins/speechhandler/sonoscontrol/textproc_textrazor.py:103-109 | the loop builds the concatenation of the category lists in order |
| TextprocTextrazor.Occurrences | plugins/speechhandler/sonoscontrol/textproc_textrazor.py:86-88 | the count is at most the list length, and 0 exactly when the type is absent |
| TextprocTextrazor.MatchesWithoutEntry | plugins/speechhandler/sonoscontrol/textproc_textrazor.py:83-88 | a category without an entry in a file gets no points from it |
| TextprocTextrazor.HitsWithoutEntry | plugins/speechhandler/sonoscontrol/textproc_textrazor.py:86-88 | one reported type gives no points to a category without an entry |
| TextprocTextrazor.KeyOrderMembers | plugins/speechhandler/sonoscontrol/textproc_textrazor.py:77-82 | adding a file's categories adds exactly the missing ones, each once |
| TextprocTextrazor.CategoriesMembers | plugins/speechhandler/sonoscontrol/textproc_textrazor.py:76-82 | the ranking holds every category of both files exactly once |
| TextprocTextrazor.BestZero | plugins/speechhandler/sonoscontrol/textproc_textrazor.py:95-100 | when no category scores, the scan ends with score 0 and "none" |
| TextprocTextrazor.BestIndex | plugins/speechhandler/sonoscontrol/textproc_textrazor.py:95-100 | when some category scores, the scan ends on the first category with the maximal score, at the index returned |
| TextprocTextrazor.BestIsFirstMaximum | plugins/speechhandler/sonoscontrol/textproc_textrazor.py:95-101 | the scan gives "none" when nothing scores, else the first category with the maximal positive score |
| TextprocTextrazor.AddCategories | plugins/speechhandler/sonoscontrol/textproc_textrazor.py:77-82 | every category enters the ranking with count 0, in file order |
| TextprocTextrazor.CountEntry | plugins/speechhandler/sonoscontrol/textproc_textrazor.py:86-88 | the category gains one point per equal filter entry |
| TextprocTextrazor.CountType | plugins/speechhandler/sonoscontrol/textproc_textrazor.py:84-88 | each category gains the hits of one reported type |
| TextprocTextrazor.CountMatches | plugins/speechhandler/sonoscontrol/textproc_textrazor.py:83-94 | each category's count is the number of equal (reported type, filter entry) pairs |
| TextprocTextrazor.Rank | plugins/speechhandler/sonoscontrol/textproc_textrazor.py:95-101 | the scan with strict `>` returns the result of `Best` |
| TextprocTextrazor.GetEntityType | plugins/speechhandler/sonoscontrol/textproc_textrazor.py:74-101 | the method's answer is the entity type specified by the scores |
| TextprocTextrazor.EntityTypeIsBest | plugins/speechhandler/sonoscontrol/textproc_textrazor.py:74-101 | "none" when every category scores 0, otherwise the first category with the maximal score |
| TextprocTextrazor.UnfilteredScoresNothing | plugins/speechhandler/sonoscontrol/textproc_textrazor.py:83-94 | reported types that appear in no filter list give no points |
| TextprocTextrazor.HitsOfUnfiltered | plugins/speechhandler/sonoscontrol/textproc_textrazor.py:84-88 | a type in no filter list gives no points |
| TextprocTextrazor.Entities | plugins/speechhandler/sonoscontrol/textproc_textrazor.py:35-37 | the entity list of the analysis |
| TextprocTextrazor.SplitFound | plugins/speechhandler/sonoscontrol/textproc_textrazor.py:58-59 | find the chunk and split it whatever its meaning; an id of None changes nothing |
| TextprocTextrazor.HandleEntities | plugins/speechhandler/sonoscontrol/textproc_textrazor.py:55-59 | the entity loop equals the run of the entity requests |
| TextprocTextrazor.NamedBy | plugins/speechhandler/sonoscontrol/textproc_textrazor.py:65 | the word, lower-cased, equals some lower-cased synonym |
| TextprocTextrazor.HandleVerb | plugins/speechhandler/sonoscontrol/textproc_textrazor.py:64-70 | a verb is split once for each action naming it, tagged ("action", action) |
| TextprocTextrazor.HandleWord | plugins/speechhandler/sonoscontrol/textproc_textrazor.py:62-70 | one pass on word i: the chunk list becomes the fold of the requests of the words up to i, or of all words once a request raises |
| TextprocTextrazor.HandleWords | plugins/speechhandler/sonoscontrol/textproc_textrazor.py:62-70 | only VB and VBP words make requests, in word order |
| TextprocTextrazor.HandleVerbs | plugins/speechhandler/sonoscontrol/textproc_textrazor.py:62-70 | each VB/VBP word looks up "action"; a missing entry raises KeyError at the first verb, before any split, and otherwise the verbs are split as `HandleWords` says |
| TextprocTextrazor.Handle | plugins/speechhandler/sonoscontrol/textproc_textrazor.py:35-70 | entities get categories, then split the chunks, then (unless that raised) the verbs do |
| TextprocTextrazor.WordRequestsFrom | plugins/speechhandler/sonoscontrol/textproc_textrazor.py:62-70 | every verb request tags a VB/VBP word with an action one of whose synonyms names it |
| TextprocTextrazor.ActionRequestsFrom | plugins/speechhandler/sonoscontrol/textproc_textrazor.py:64-70 | every request for a word names an action whose synonyms include it |
| TextprocTextrazor.HandleNewChunks | plugins/speechhandler/sonoscontrol/textproc_textrazor.py:55-70 | every chunk after `handle` was there before, is untagged, or is an entity or action tag |
| TextprocTextrazor.HandleKeepsValid | plugins/speechhandler/sonoscontrol/textproc_textrazor.py:55-70 | `handle` keeps ids unique and fresh |

## Left out

- Audio input and output are not modelled: PyAudio streams, `wave` and `tempfile` packaging, `speaker.play` and `say`. A listener reads its frames from an input sequence instead. A device failure is not modelled: each listener requires enough input frames. For the streaming producer "enough" also means that the input holds speech (see the next line).
- MicStreaming.Capture, MicStreaming.Gen and MicStreaming.ActiveListenStreaming require `Stops`. `gen` loops until a stop condition holds, and its counter only advances after the first loud chunk, so a stream that stays silent never ends it; `NoSpeechNeverStops` states that no input of silent chunks satisfies `Stops`, and `SilenceNeverStopsLoop` that on such an input no pass of the loop meets a stop test. The model therefore covers only inputs with speech, and the 76-chunk timeout counts from the trigger and not from the start of listening.
- `audioop.rms`, `is_silent` and `math.sqrt` are inputs: an `rms` function from a frame to a natural, and a silence flag per streaming chunk.
- The `array`/`struct` repacking in `gen` is reduced to its effect: each chunk appends 4096 words to `data`.
- Floating-point thresholds are `real`; float rounding is not modelled.
- The speech-to-text engines, `requests.post` and the JSON response are inputs: transcriber and recogniser functions. The hard-coded key, logging and `print` are left out.
- The TextRazor client, its API calls, the filter lists sent to it, and the YAML loading of filters and dictionary are left out. `handle` starts from the words and entities of the response. `IntentAnalysis._analyse`, `add_intent` and the logging loop are left out too.
- Python dictionaries are sequences of (key, value) pairs in a fixed order. The `types` ranking in `_get_entity_type` is scanned in insertion order; Python 2 iterates a dict in hash order. `Tagging.Lookup`, the dictionary lookup, takes the first entry for a key. The TextRazor filters are scanned whole, so when a filter list repeats a category key, every entry for it is counted. A Python dict cannot hold a repeated key, and the model does not exclude one. A null filter entry is an empty list.
- Uuid chunk ids are fresh naturals from a counter in each chunk list.
- The regex `\bW\b` is modelled with W read literally; regex metacharacters in a phrase are not modelled. `\w`, `str.lower` and `str.strip` are their ASCII (byte string) versions.
- An exception raised by `split_chunk` (IndexError) or by a missing "action" key (KeyError) is modelled as the processor returning false. The list keeps its state at the raise.
- `Chunks.__iter__`, `Chunks.__getitem__`, `Chunk.__enter__`/`__exit__` and `Chunk.add_meaning` are not modelled separately: a chunk is created with its meaning.
- IntentAnalysis.Intent.GetChunkMeaningValues: has no contract of its own; it returns `MeaningValues` of the intent's list, where the properties are stated.
- The Sonos control plugin, the Sonos client, the Nuance engine and the plugin test file are not part of this model.
