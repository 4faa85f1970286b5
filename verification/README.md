# PlayAI PDF reader — a Dafny model

This project models the text-to-speech pipeline of a small web application.
A reader uploads a PDF, and the application reads a page aloud by cutting the
page's text into chunks. It sends the chunks one at a time to a speech
service and plays the returned audio clips in order. A second panel does the
same for any text it is handed. The model covers:

- **the two chunkers.** `ViewerChunker` is the page reader's
  `splitTextIntoChunks`: it collapses white space, keeps a short text whole,
  and packs sentences into chunks of about 200 characters. `TtsChunker` is the
  text panel's `splitIntoChunks`: it packs sentences verbatim and cuts
  over-long ones at a space or a comma. Both use the sentence pattern
  `/[^.!?]+[.!?]+/g`, which `Sentences` models. The JavaScript string
  primitives they rely on are in `Text`: the `\s` class, `trim`, `replace`,
  `lastIndexOf` and number rendering.
- **the sequential generation loop** (`Sequencer`), shared by both panels. It
  is a pure function of two inputs: the outcome of each chunk's request, and
  the moment the cancel flag flips. It yields the handles delivered to the
  player, the handles released, and whether the loop reached the statement
  that clears the "generating" flag. The cancel flag is read against a
  clock that counts completed awaits: each request, and the 50 ms pause
  after a later chunk that produced audio (`CheckClock` for the check before
  a chunk, `ArrivalClock` for the arrival of its clip). The same module holds
  the progress formulas: rounded for the page reader, floored for the text
  panel.
- **the speech client** (`SpeechClient`). This is `generateSpeech`: it
  validates the input, builds the POST request and classifies what came back.
  The module also holds the five-voice catalogue.
- **the audio player** (`Player`). This is a state machine over one media
  element. It takes the queue copy, the current index, the play intent and
  the play-in-flight lock. Its events are the parent's props, the buttons,
  the element's events, promise settlements and timers.
- **the upload zone** (`Uploader`): file validation, drop and picker
  handlers, and the drag highlight.
- **the two panels' controls.** `ViewerSession` covers the page reader's
  Read Aloud button, page navigation, reset and per-chunk request.
  `TtsSession` covers the text panel's play button, reset, reaction to new
  text, per-chunk request and progress bar.

Four behaviours of the code are stated as lemmas rather than corrected:

- **Stopping before the first clip arrives leaves a panel stuck for good.**
  If Stop is pressed before the first chunk's audio arrives, the loop returns
  early and never clears the generating or processing flag. No later click
  can start a run (`ViewerSession.StopBeforeFirstChunkSticks`,
  `ViewerSession.StuckForever`, `TtsSession.StopBeforeFirstChunkSticks`,
  `TtsSession.StuckForever`).
- **Changing page or text does not cancel a run.** Whenever the change
  comes, the clips still to be generated land in the new page's (or new
  text's) list (`ViewerSession.PageChangeKeepsRun`,
  `TtsSession.TextChangeKeepsRun`).
- **The text panel hands the player clips it has already released.** Its
  list-cleanup effect releases the whole previous list every time a clip is
  appended, so every queued clip but the newest is already released
  (`TtsSession.QueuedClipsReleased`, `TtsSession.SecondClipReleasesFirst`).
- **In the page reader, the player's reset resumes playback 50 ms later**
  whenever playback was wanted, even if the parent has meanwhile said
  "paused" (`Player.ResetResumes`). In the text panel the same reset empties
  the list, so the player is unmounted and its timer finds no element and
  does nothing; the player model covers the mounted player only.

The "No file selected", "No text chunks generated" and "No text available"
errors can never be shown (`Uploader.NoFileMessageUnreachable`,
`ViewerSession.ToggleOutcomes`, `TtsSession.PlayOutcomes`).

Inputs stand in for what the model cannot see:

- what extracting a page's text yields, on a click that finds the page text
  blank and on a page change: whether the document loaded, whether the page
  gave its text, and that text;
- the outcome of every request: a response with its timing, status, body and
  size, or the error `fetch` rejected with;
- the object URL created for a clip;
- the clock reading of each player event;
- the point at which the cancel flag reads "stop".

## Model

| member | source | states |
|---|---|---|
| Text.Trim | playai-pdf-agent/utils/api.ts:76 | `trim()` leaves no white space at either end, keeps every non-space character in order, is empty exactly for blank input, and returns a string that is already trimmed unchanged |
| Text.TrimStripsEnds | playai-pdf-agent/utils/api.ts:76 | the input is white space, then the trimmed result as one contiguous slice, then white space: only the two ends are removed |
| Text.TrimKeepsWords | playai-pdf-agent/utils/api.ts:76 | trimming keeps every word (maximal run of non-space characters), in order |
| Text.TrimIdempotent | playai-pdf-agent/app/components/PDFViewer.tsx:205 | trimming a chunk that was already trimmed (as `generateSpeech` does again) gives the same text |
| Text.Collapse | playai-pdf-agent/app/components/PDFViewer.tsx:131 | `replace(/\s+/g, ' ')` leaves only single plain spaces, keeps the same words in the same order (so each gap between two words stays as exactly one space), keeps the non-space content, is empty only for empty input, and starts and ends with white space exactly when the input does |
| Text.Normalize | playai-pdf-agent/app/components/PDFViewer.tsx:131 | the cleaned text is trimmed and single-spaced, has the same words in the same order (one space between each two), holds the same non-space content, and is empty exactly for blank input |
| Text.NormalizeIdempotent | playai-pdf-agent/app/components/PDFViewer.tsx:131 | cleaning an already cleaned text changes nothing |
| Text.LastIndexOf | playai-pdf-agent/app/components/TextToSpeech.tsx:32-33 | `lastIndexOf(c, from)` finds `c` at the result and nowhere after it up to `from`, or gives -1 |
| Text.Decimal | playai-pdf-agent/app/components/PDFViewer.tsx:321 | a number in a template string is a non-empty run of digits with no leading zero |
| Text.DecimalRoundTrip | playai-pdf-agent/app/components/PDFViewer.tsx:321 | reading the rendered digits back gives the number |
| Sentences.SentencesOrWhole | playai-pdf-agent/app/components/TextToSpeech.tsx:19 | `match(...) \|\| [text]` is the match list when there is a match and the whole text otherwise, never empty |
| Sentences.MatchesFrom | playai-pdf-agent/app/components/PDFViewer.tsx:139-140 | scanning from any position, every match is a run of non-terminators followed by a run of terminators |
| Sentences.Matches | playai-pdf-agent/app/components/PDFViewer.tsx:139-140 | every match has the shape of a sentence, and there is none exactly when no non-terminator is directly followed by a terminator |
| Sentences.MatchesEmptyIff | playai-pdf-agent/app/components/PDFViewer.tsx:140 | the pattern finds nothing exactly when no non-terminator is directly followed by a terminator |
| Sentences.MatchesCover | playai-pdf-agent/app/components/PDFViewer.tsx:139-140 | the matches joined are the text from after any leading terminators up to the last terminator: the unterminated tail is dropped |
| Sentences.SentencesContent | playai-pdf-agent/app/components/PDFViewer.tsx:140 | the fallback list holds that covered span when there is a sentence end, and the whole text otherwise |
| Sentences.SentencesHaveContent | playai-pdf-agent/app/components/PDFViewer.tsx:140 | a text with a non-space character gives sentences with non-space content |
| ViewerChunker.NextCut | playai-pdf-agent/app/components/PDFViewer.tsx:157-165 | the cut moves strictly forward by at most 200; a rest of at most 200 characters is taken whole; otherwise it lands on a space more than 100 past the start, or is a hard cut at 200 with no such space |
| ViewerChunker.Pieces | playai-pdf-agent/app/components/PDFViewer.tsx:154-169 | the pieces of an over-long sentence are trimmed and at most 200 long, and a non-empty rest gives at least one |
| ViewerChunker.PiecesContent | playai-pdf-agent/app/components/PDFViewer.tsx:154-169 | the pieces hold the sentence's non-space characters, in order, with none lost |
| ViewerChunker.NonEmptyParts | playai-pdf-agent/app/components/PDFViewer.tsx:171 | the filter keeps exactly the non-empty pieces, and the joined text is unchanged |
| ViewerChunker.AddSentenceOk | playai-pdf-agent/app/components/PDFViewer.tsx:143-181 | one loop iteration keeps every pushed chunk and the buffer non-empty, trimmed and at most 201 long |
| ViewerChunker.AddSentenceContent | playai-pdf-agent/app/components/PDFViewer.tsx:143-181 | one loop iteration appends exactly the sentence's non-space content to what the loop holds |
| ViewerChunker.FoldInvariant | playai-pdf-agent/app/components/PDFViewer.tsx:143-181 | the loop keeps the chunk bounds and holds the sentences' content in order |
| ViewerChunker.FinishInvariant | playai-pdf-agent/app/components/PDFViewer.tsx:183-185 | the final push keeps the bounds and the content |
| ViewerChunker.ChunkSentences | playai-pdf-agent/app/components/PDFViewer.tsx:143-185 | over any sentence list, every chunk is non-empty, trimmed and at most 201 long, and the chunks hold the sentences' content in order; when no trimmed sentence is longer than 200, each chunk is a run of consecutive non-blank trimmed sentences joined by single spaces, and each chunk but the last was pushed only because the next sentence would have taken it past 200 |
| ViewerChunker.ShortTextChunks | playai-pdf-agent/app/components/PDFViewer.tsx:126-135 | empty text gives no chunk; a cleaned text under 300 characters is the only chunk, so blank text gives `[""]` |
| ViewerChunker.SplitTextIntoChunks | playai-pdf-agent/app/components/PDFViewer.tsx:125-192 | the result is empty exactly for empty text; on the long path every chunk is non-empty, trimmed and at most 201 long, the chunks hold the sentences' content in order, and when no trimmed sentence is longer than 200 they are the trimmed sentences joined by single spaces and packed greedily up to 200 |
| ViewerChunker.LongTextCoverage | playai-pdf-agent/app/components/PDFViewer.tsx:139-185 | a long text's chunks hold its content up to the last terminator (the words after it are dropped), or all of it when it has no sentence end |
| ViewerChunker.NonBlankTextHasChunks | playai-pdf-agent/app/components/PDFViewer.tsx:125-192 | a text with any non-space character gives at least one chunk, and the first is not blank |
| TtsChunker.BreakPoint | playai-pdf-agent/app/components/TextToSpeech.tsx:30-39 | the break point lies in 1..max+1 and inside the text, is the whole text when it fits, and is max+1 only just after a comma at index max |
| TtsChunker.BreakPointCases | playai-pdf-agent/app/components/TextToSpeech.tsx:30-39 | an over-long text breaks at the last space at or before max (not at 0), else just after the last comma, else at max |
| TtsChunker.PieceWithin | playai-pdf-agent/app/components/TextToSpeech.tsx:41 | the trimmed piece has at most max characters, or max+1 ending in a comma |
| TtsChunker.SplitLong | playai-pdf-agent/app/components/TextToSpeech.tsx:28-43 | the inner loop terminates; every piece is within the bound and trimmed, and a non-empty sentence gives at least one piece |
| TtsChunker.SplitLongContent | playai-pdf-agent/app/components/TextToSpeech.tsx:28-43 | the pieces hold the sentence's non-space characters in order |
| TtsChunker.EmptyFirstPiece | playai-pdf-agent/app/components/TextToSpeech.tsx:32-41 | a sentence that opens with two spaces and has no other space within max yields an empty first piece |
| TtsChunker.AddSentenceHeld | playai-pdf-agent/app/components/TextToSpeech.tsx:22-53 | a sentence that fits is appended verbatim; an over-long one adds exactly its non-space content |
| TtsChunker.FoldHeld | playai-pdf-agent/app/components/TextToSpeech.tsx:21-54 | the loop keeps the buffer at most max and every pushed chunk within the bound; with no over-long sentence the chunks and buffer are the sentences verbatim |
| TtsChunker.FoldLeavesSomething | playai-pdf-agent/app/components/TextToSpeech.tsx:45-58 | a non-empty first sentence always leaves a chunk to return |
| TtsChunker.ChunksOfSentences | playai-pdf-agent/app/components/TextToSpeech.tsx:21-58 | every chunk is within the bound and the chunks keep the sentences' content in order; when no sentence is empty or over-long, the chunks are runs of whole consecutive sentences joined verbatim, and each chunk but the last was closed only because the next sentence would have taken it past max |
| TtsChunker.SplitIntoChunks | playai-pdf-agent/app/components/TextToSpeech.tsx:13-61 | the result is empty exactly for empty text; every chunk is within the bound; the chunks hold the non-space content of the pattern's sentences (or of the whole text) in order; when no sentence is longer than max, the chunks are runs of whole consecutive sentences, packed greedily |
| TtsChunker.ShortUnterminatedText | playai-pdf-agent/app/components/TextToSpeech.tsx:14-19 | a text with no sentence end that fits is returned whole, white space included |
| SpeechClient.DefaultVoice | playai-pdf-agent/utils/api.ts:4-14 | the default voice is the catalogue's first, Angelo |
| SpeechClient.FindByName | playai-pdf-agent/app/components/VoiceSelector.tsx:37 | the lookup returns a catalogue voice with that name, and nothing exactly when no voice has it |
| SpeechClient.CatalogueShape | playai-pdf-agent/utils/api.ts:4-55 | the catalogue has five voices with pairwise distinct names |
| SpeechClient.CatalogueByName | playai-pdf-agent/utils/api.ts:4-55 | looking up any catalogue voice by name finds exactly that voice |
| SpeechClient.EnvOr | playai-pdf-agent/utils/api.ts:58-60 | `X \|\| fallback`: a set, non-empty variable wins, otherwise the fallback |
| SpeechClient.ConfigFrom | playai-pdf-agent/utils/api.ts:58-60 | the endpoint is never empty and defaults to the public stream URL |
| SpeechClient.GenerateSpeech | playai-pdf-agent/utils/api.ts:75-135 | no request is sent exactly when the text trims to nothing, which fails with the empty-text message; a sent request carries the trimmed text to the configured URL; success returns the handle |
| SpeechClient.BuildRequest | playai-pdf-agent/utils/api.ts:75-102 | the request is a POST to the configured URL with the JSON, bearer-key and user-id headers; the body carries the text and voice as given, temperature 0.5 and speed 1 when absent, and model PlayDialog |
| SpeechClient.Classify | playai-pdf-agent/utils/api.ts:110-126 | a classified outcome that succeeds is the clip's handle |
| SpeechClient.RequestShape | playai-pdf-agent/utils/api.ts:89-102 | the request is a POST with the JSON, bearer and user-id headers; the body has the trimmed text, the voice, temperature 0.5 and speed 1 by default, and model PlayDialog |
| SpeechClient.SuccessIff | playai-pdf-agent/utils/api.ts:76-126 | a handle comes back exactly when the text is not blank and a response arrived within 30000 ms with a 2xx status and a non-empty body |
| SpeechClient.FailureMessages | playai-pdf-agent/utils/api.ts:110-134 | an abort or late response gives the timeout message; a non-2xx status gives the status-and-body message; an empty body gives the empty-audio message; other rejections pass unchanged; no AbortError escapes |
| SpeechClient.StatusReadBack | playai-pdf-agent/utils/api.ts:113 | the status error message is the prefix, the status in decimal (readable back) and the body |
| Sequencer.Loop | playai-pdf-agent/app/components/PDFViewer.tsx:248-277 | chunks i..n-1 are requested in order and the loop stops at the first check that reads "stop"; a clip is delivered exactly when the flag reads "go" on its arrival, else revoked; delivered plus revoked is exactly what was produced; the loop always reaches its end |
| Sequencer.Sequence | playai-pdf-agent/app/components/PDFViewer.tsx:222-281 | chunk 0 first, then in order; the run stops at the first check that reads "stop", and a clip is delivered exactly when the flag reads "go" on its arrival, else revoked; a stop seen after chunk 0 returns early without clearing the flag and delivers nothing; otherwise the flag is cleared (the text panel's copy, TextToSpeech.tsx lines 127-172, is the same loop without the 50 ms pause) |
| Sequencer.ClocksAdvance | playai-pdf-agent/app/components/PDFViewer.tsx:230-271 | an earlier chunk arrives no later than a later chunk's check, and checks come in strictly increasing order |
| Sequencer.StopDuringLaterChunk | playai-pdf-agent/app/components/PDFViewer.tsx:248-280 | three produced chunks with a stop from the third await on: the first two are delivered, the third is revoked on arrival, and the flag is still cleared |
| Sequencer.NoCancelDeliversAll | playai-pdf-agent/app/components/PDFViewer.tsx:228-280 | without a stop every produced handle is delivered, failed chunks are skipped, nothing is revoked and the flag is cleared |
| Sequencer.DeliveredInOrder | playai-pdf-agent/app/components/PDFViewer.tsx:249-268 | delivered handles are in strictly ascending chunk order, each the handle its chunk produced |
| Sequencer.ReachedAllIff | playai-pdf-agent/app/components/PDFViewer.tsx:264 | the processed count reaches n exactly when the last chunk was delivered, and never exceeds n |
| Sequencer.NeverRun | playai-pdf-agent/app/components/PDFViewer.tsx:229-280 | without a stop the count reaches n exactly when the last chunk produced audio |
| Sequencer.RoundPercent | playai-pdf-agent/app/components/PDFViewer.tsx:265 | `Math.round(i / n * 100)` is the nearest whole percent, at most 100 |
| Sequencer.RoundPercentFull | playai-pdf-agent/app/components/PDFViewer.tsx:265 | 100% is shown exactly when the count is within half a percent of n; with fewer than 200 chunks only when the count is n |
| Sequencer.RoundMonotone | playai-pdf-agent/app/components/PDFViewer.tsx:265 | a larger count never shows a smaller percentage |
| Sequencer.ProgressTrail | playai-pdf-agent/app/components/PDFViewer.tsx:239-265 | over a run the percentages shown never go down and never exceed 100 |
| Sequencer.FloorPercent | playai-pdf-agent/app/components/TextToSpeech.tsx:229 | the progress is the floor of the exact percentage, and 0 with no total |
| Sequencer.FloorPercentBounds | playai-pdf-agent/app/components/TextToSpeech.tsx:229 | the progress stays within 0..100 and is 100 exactly when every chunk was reached |
| Player.Switch | playai-pdf-agent/app/components/AudioPlayer.tsx:172-198 | switching to a track with a handle pauses the element and points it there; a play is scheduled only if playback is wanted; without a handle nothing changes |
| Player.GoTo | playai-pdf-agent/app/components/AudioPlayer.tsx:104-107 | setting the index runs the switch only when the index changes |
| Player.Advance | playai-pdf-agent/app/components/AudioPlayer.tsx:100-114 | with a next track the index moves to it, the element is pointed there and paused, and nothing is reported; at the last track the intent and the state shown are cleared and "paused" is reported; the queue never changes |
| Player.OnTimeUpdate | playai-pdf-agent/app/components/AudioPlayer.tsx:127-154 | nothing happens unless intent is set, the element plays, the position is within 100 ms of a positive duration and 500 ms have passed; then the player advances |
| Player.OnError | playai-pdf-agent/app/components/AudioPlayer.tsx:117-124 | an error reloads the current track when it has a handle, keeping index, queue, intent, lock and state shown; with no handle nothing changes |
| Player.SafePlay | playai-pdf-agent/app/components/AudioPlayer.tsx:35-55 | the guarded play does nothing exactly while the element plays or a play is in flight; otherwise it records the start, sets intent and lock, and starts the element |
| Player.SafePause | playai-pdf-agent/app/components/AudioPlayer.tsx:58-65 | the guarded pause does nothing exactly when already paused; otherwise it clears intent and pauses |
| Player.SyncQueue | playai-pdf-agent/app/components/AudioPlayer.tsx:68-81 | a non-empty list replaces the queue, the first handle becomes the source only when there is none, and the index is kept |
| Player.OnPlayingChanged | playai-pdf-agent/app/components/AudioPlayer.tsx:201-216 | the intent follows the parent's prop; "not playing" pauses the element; "playing" starts it unless a play is in flight |
| Player.OnToggle | playai-pdf-agent/app/components/AudioPlayer.tsx:219-234 | a click flips the state shown and the intent, starts or pauses to match, and reports the new state |
| Player.OnReset | playai-pdf-agent/app/components/AudioPlayer.tsx:237-270 | reset goes to track 0, pauses, reports "paused" then the reset, and schedules a resume exactly when playback was wanted |
| Player.OnResumeTimer | playai-pdf-agent/app/components/AudioPlayer.tsx:261-268 | the 50 ms timer after a reset shows and reports "playing" and makes the guarded play: the element plays unless a play was in flight, and a paused element with no play in flight takes the lock and the intent; track, queue and source stay; with no timer pending nothing happens |
| Player.OnSwitchTimer | playai-pdf-agent/app/components/AudioPlayer.tsx:186-195 | the 100 ms timer after a switch counts one pending timer down and plays the element, unguarded, exactly when playback is still wanted; nothing else changes, not even the lock |
| Player.Apply | playai-pdf-agent/app/components/AudioPlayer.tsx:68-270 | only a new list changes the queue, and only the handlers that call the parent report anything |
| Player.Mount | playai-pdf-agent/app/components/AudioPlayer.tsx:68-216 | mounting starts on track 0 with the given list and intent, the element on the first handle (none for an empty list), playing and locked exactly when the parent says so |
| Player.MountTracks | playai-pdf-agent/app/components/AudioPlayer.tsx:68-216 | mounting with a list points the element at the first handle and plays exactly when the parent says so |
| Player.TrackingPreserved | playai-pdf-agent/app/components/AudioPlayer.tsx:100-154 | while the list only grows, every event keeps the index inside the queue and the element on the current track |
| Player.EndedIff | playai-pdf-agent/app/components/AudioPlayer.tsx:100-114 | `ended` leaves the element paused and moves to the next track exactly when there is one; at the last track it clears the intent and reports "paused" |
| Player.PlaysThrough | playai-pdf-agent/app/components/AudioPlayer.tsx:100-114 | after k `ended` events the index is min(i+k, n-1), and "paused" is reported exactly once the end is passed |
| Player.TimeUpdateIsEnded | playai-pdf-agent/app/components/AudioPlayer.tsx:127-154 | a time update near the end reports what `ended` reports and reaches the same state except that at the last track the element is not paused; with a next track the two are identical; otherwise it changes nothing |
| Player.FreshPlaybackNotSkipped | playai-pdf-agent/app/components/AudioPlayer.tsx:137-141 | a playback started less than 500 ms ago is never taken as finished |
| Player.ErrorReloads | playai-pdf-agent/app/components/AudioPlayer.tsx:117-124 | an error reloads the current track and keeps index, queue and intent; a second error gives the same state (no retry limit) |
| Player.PlayLocked | playai-pdf-agent/app/components/AudioPlayer.tsx:37 | while a guarded play is in flight, another guarded play changes nothing |
| Player.PlaySettles | playai-pdf-agent/app/components/AudioPlayer.tsx:44-54 | resolving releases only the lock; rejecting also clears intent, reports "paused" and lets a new play start |
| Player.AppendKeepsPlayback | playai-pdf-agent/app/components/AudioPlayer.tsx:68-81 | a list that grows during playback changes only the queue: the track, the source and the play state stay |
| Player.ResetResumes | playai-pdf-agent/app/components/AudioPlayer.tsx:237-270 | reset while playing reports "paused" and the reset, and 50 ms later reports "playing" and restarts track 0, whatever the parent did meanwhile |
| Player.SwitchTimerFollowsIntent | playai-pdf-agent/app/components/AudioPlayer.tsx:100-198 | a track that ends while playback is wanted moves to the next track, and the scheduled play leaves the element playing exactly when the parent still wants playback when it fires, with nothing reported and no timer left over |
| Player.ResetWhilePausedStays | playai-pdf-agent/app/components/AudioPlayer.tsx:237-261 | reset while paused stays paused on track 0 and schedules nothing |
| Uploader.Validate | playai-pdf-agent/app/components/PDFUploader.tsx:39-59 | a file passes exactly when it is present, typed `application/pdf` and at most 10 MiB; passing clears the error and failing sets one |
| Uploader.RejectionMessages | playai-pdf-agent/app/components/PDFUploader.tsx:39-59 | no file gives "No file selected"; the type is checked before the size; exactly 10485760 bytes passes |
| Uploader.OnDrop | playai-pdf-agent/app/components/PDFUploader.tsx:62-75 | a drop always ends the highlight, and only the first dropped file can be handed on |
| Uploader.OnFileChange | playai-pdf-agent/app/components/PDFUploader.tsx:78-84 | picking nothing changes nothing, and the highlight is untouched |
| Uploader.Apply | playai-pdf-agent/app/components/PDFUploader.tsx:16-84 | a file is handed on only by a drop or pick, only as the first of its list, exactly when that file passes the checks, and is then shown by name with no error; a rejected file leaves an error |
| Uploader.SelectionIff | playai-pdf-agent/app/components/PDFUploader.tsx:62-84 | a file is handed on exactly when the first file is acceptable, which shows its name and clears the error; a rejection keeps the old name and sets an error |
| Uploader.OnlyFirstFileCounts | playai-pdf-agent/app/components/PDFUploader.tsx:67-69 | files after the first never affect the outcome |
| Uploader.NoFileMessageUnreachable | playai-pdf-agent/app/components/PDFUploader.tsx:39-84 | no sequence of events shows "No file selected", and every file handed on is acceptable |
| Uploader.DragFlag | playai-pdf-agent/app/components/PDFUploader.tsx:16-36 | the highlight is on exactly after enter or over (or unchanged by the picker); drag events hand nothing on and keep the name and error |
| ViewerSession.Initial | playai-pdf-agent/app/components/PDFViewer.tsx:29-46 | the reader starts on page 1, idle, with no audio and the default voice |
| ViewerSession.Fallback | playai-pdf-agent/app/components/PDFViewer.tsx:320-324 | the page-N-of-M fallback text is never blank |
| ViewerSession.ReadText | playai-pdf-agent/app/components/PDFViewer.tsx:305-324 | the text read is the page text unless blank, else the page's re-extracted text unless blank or the document did not load, else the fallback; it is never blank |
| ViewerSession.TogglePlayback | playai-pdf-agent/app/components/PDFViewer.tsx:284-346 | a run starts exactly when not playing, without audio, and neither generating nor extracting; it has at least one chunk and shows playing and generating; playing stops and cancels |
| ViewerSession.ClickRereadsBlankPage | playai-pdf-agent/app/components/PDFViewer.tsx:301-318 | a click that starts a run keeps a blank page text when the document does not load, empties it when the page fails, and sets it to the extracted text otherwise; a page text that is not blank is read as it is |
| ViewerSession.PageChange | playai-pdf-agent/app/components/PDFViewer.tsx:82-122 | a page outside 1..numPages changes nothing; otherwise the page is set, every handle is released and dropped, the page text becomes the new page's text (empty when the page fails, unchanged when the document does not load), and the run is not cancelled |
| ViewerSession.Reset | playai-pdf-agent/app/components/PDFViewer.tsx:195-201 | reset stops, cancels and zeroes the counters, but keeps the handles and the generating flag |
| ViewerSession.ProcessTextChunk | playai-pdf-agent/app/components/PDFViewer.tsx:204-219 | a blank chunk is rejected with "Cannot process empty text" and no request; otherwise the trimmed chunk is sent with the selected voice, temperature and speed |
| ViewerSession.BeginRun | playai-pdf-agent/app/components/PDFViewer.tsx:222-226 | a run starts by resetting the cancel flag and zeroing progress with the total set to n |
| ViewerSession.EndRun | playai-pdf-agent/app/components/PDFViewer.tsx:228-280 | with clips in chunk order, chunk 0 replaces the list and later clips are appended; the counters show the last clip delivered; only the revoked clip is released; the flag clears exactly when the run reached its end; nothing else changes |
| ViewerSession.ToggleOutcomes | playai-pdf-agent/app/components/PDFViewer.tsx:284-346 | a run starts exactly when not playing, without audio, and neither generating nor extracting; playing stops and cancels; audio resumes; a busy panel does nothing; a run's first chunk is never blank |
| ViewerSession.ReadAloudWithoutCancel | playai-pdf-agent/app/components/PDFViewer.tsx:222-346 | an uncancelled run gives the player every produced handle in order, releases nothing and clears the flag; it shows 100% when the last chunk produced audio, and with fewer than 200 chunks only then |
| ViewerSession.EndRunNoCancel | playai-pdf-agent/app/components/PDFViewer.tsx:228-280 | the same, for any panel with no audio and zeroed counters |
| ViewerSession.EndRunClean | playai-pdf-agent/app/components/PDFViewer.tsx:239-280 | a run that released nothing and reached its end leaves its handles as the list and the counters at the index reached |
| ViewerSession.EndRunLists | playai-pdf-agent/app/components/PDFViewer.tsx:239-260 | the delivered handles become the list, and the released list is unchanged |
| ViewerSession.EndRunCounters | playai-pdf-agent/app/components/PDFViewer.tsx:240-280 | the counters show the index reached, the percentage stays within 100, and the flag is cleared |
| ViewerSession.PageChangeKeepsRun | playai-pdf-agent/app/components/PDFViewer.tsx:106-122 | a page change after any number k of a run's clips keeps the run going: the first k clips are released with the old list, the later ones form the new page's list, the counters reach the last clip, and only the run's end clears the flag |
| ViewerSession.StopBeforeFirstChunkSticks | playai-pdf-agent/app/components/PDFViewer.tsx:232-236 | Stop before the first clip leaves the reader generating, without audio and not playing, and the next click does nothing |
| ViewerSession.EarlyEndSticks | playai-pdf-agent/app/components/PDFViewer.tsx:232-236 | a run that ends early without delivering leaves a stopped reader stuck |
| ViewerSession.StuckForever | playai-pdf-agent/app/components/PDFViewer.tsx:284-296 | a stuck reader stays stuck through any clicks, page changes and resets, and never starts a run |
| TtsSession.Initial | playai-pdf-agent/app/components/TextToSpeech.tsx:64-74 | the panel starts idle, with no audio and the default voice |
| TtsSession.ReadText | playai-pdf-agent/app/components/TextToSpeech.tsx:198 | only empty text is replaced by the placeholder; the text read is never empty |
| TtsSession.PlayText | playai-pdf-agent/app/components/TextToSpeech.tsx:175-220 | a run starts exactly when not playing, without audio, and neither processing nor generating; its chunk list is non-empty and the panel shows processing and playing |
| TtsSession.Reset | playai-pdf-agent/app/components/TextToSpeech.tsx:76-107 | reset releases and drops every handle (the cleanup effect releases them a second time), zeroes the counters, stops and cancels, and keeps the generating reference |
| TtsSession.TextChanged | playai-pdf-agent/app/components/TextToSpeech.tsx:76-94 | the same text changes nothing; a new text releases and drops any audio (twice, with the cleanup effect) and zeroes the counters; with no audio only the text changes; a run is never cancelled |
| TtsSession.ProcessChunk | playai-pdf-agent/app/components/TextToSpeech.tsx:110-124 | a blank chunk is rejected with "Empty text chunk" and no request; otherwise the trimmed chunk is sent with the selected voice, temperature and speed |
| TtsSession.BeginRun | playai-pdf-agent/app/components/TextToSpeech.tsx:127-129 | a run starts by resetting the cancel flag to "go", and nothing else changes |
| TtsSession.EndRun | playai-pdf-agent/app/components/TextToSpeech.tsx:76-172 | on a panel with no audio, the clips in chunk order become the list, the cleanup releases every clip but the newest and the revoked clip is released, the counter shows the last clip; both flags clear exactly when the run reached its end |
| TtsSession.DeliverAllGrows | playai-pdf-agent/app/components/TextToSpeech.tsx:76-81 | clips arriving in chunk order are appended in order, and before each append the cleanup releases the list as it stood |
| TtsSession.ReleasedExactly | playai-pdf-agent/app/components/TextToSpeech.tsx:76-81 | growing a list one clip at a time releases exactly the clips of the grown list except the newest |
| TtsSession.Progress | playai-pdf-agent/app/components/TextToSpeech.tsx:229 | the bar shows 0 with no total, otherwise the floor of the exact share of chunks reached |
| TtsSession.PlayOutcomes | playai-pdf-agent/app/components/TextToSpeech.tsx:175-220 | a run starts exactly when not playing, without audio, and neither processing nor generating, over non-empty chunks of at most 150 (151 with a comma); playing stops and cancels; audio resumes; a busy panel does nothing |
| TtsSession.ResetReenables | playai-pdf-agent/app/components/TextToSpeech.tsx:97-195 | after a reset, a panel not left generating starts a fresh run on the next click, with progress 0 |
| TtsSession.PlayWithoutCancel | playai-pdf-agent/app/components/TextToSpeech.tsx:76-220 | an uncancelled run gives the player every produced handle in order, has released every one but the newest, clears both flags, and fills the bar exactly when the last chunk produced audio |
| TtsSession.RunNoCancel | playai-pdf-agent/app/components/TextToSpeech.tsx:76-172 | the same, for any panel with no audio, a zero counter and the total set |
| TtsSession.QueuedClipsReleased | playai-pdf-agent/app/components/TextToSpeech.tsx:76-81 | after an uncancelled run a handle is released exactly when it was released before or is queued behind the newest one |
| TtsSession.SecondClipReleasesFirst | playai-pdf-agent/app/components/TextToSpeech.tsx:76-81 | with two produced chunks the player is handed `[a, b]` after `a` has already been released |
| TtsSession.CounterClearedKept | playai-pdf-agent/app/components/TextToSpeech.tsx:84-160 | with no audio the counter is zero, and every handler and the end of a run keep that |
| TtsSession.EndRunClean | playai-pdf-agent/app/components/TextToSpeech.tsx:76-171 | a run that revoked nothing and reached its end leaves its handles as the list, every one but the newest released, and the counter at the index reached |
| TtsSession.EndRunCounters | playai-pdf-agent/app/components/TextToSpeech.tsx:137-171 | the counter shows the index reached, both flags are cleared, and the bar is full exactly when the last index was reached |
| TtsSession.StopBeforeFirstChunkSticks | playai-pdf-agent/app/components/TextToSpeech.tsx:134-146 | Stop before the first clip leaves the panel processing, without audio and not playing, and the next click does nothing |
| TtsSession.EarlyEndSticks | playai-pdf-agent/app/components/TextToSpeech.tsx:138-142 | a run that ends early without delivering leaves a processing panel stuck |
| TtsSession.StuckForever | playai-pdf-agent/app/components/TextToSpeech.tsx:84-188 | a stuck panel stays stuck through any clicks and new texts, and never starts a run |
| TtsSession.TextChangeKeepsRun | playai-pdf-agent/app/components/TextToSpeech.tsx:76-94 | new text after any number k of a run's clips keeps the run going: the first k clips are released, the later ones form the new list, and the processing state clears at once if some clip had arrived, else only at the run's end; the same text again leaves the run's end exactly as without it |
| TtsSession.ProgressBounds | playai-pdf-agent/app/components/TextToSpeech.tsx:229 | the progress is within 0..100 while the counter is at most the total, 0 with no total, and 100 exactly at the total |

## Left out

- Text extraction by pdf.js: loading the document, reading page text and rendering the page. The page text and the outcome of an extraction are inputs.
- PDFViewerAlt.tsx is not part of this model. It is an alternative viewer that loads pdf.js from a CDN and makes one un-chunked request.
- page.tsx, the VoiceSelector markup beyond its name lookup, next.config.ts, pdfjs-worker.js, all JSX and styling, and the show-text toggle: presentation only.
- Browser primitives are replaced:
  - `fetch`, `AbortController` and the response body become a `Network` input: a rejection, or a response with the time its headers arrived, its status and its body size. The abort timer is cleared as soon as the headers arrive (api.ts:106), before the body is read, so classifying a response by the time of its headers is what the source itself does. Only headers arriving at exactly 30000 ms are not modelled faithfully: which of the timer and the response wins there is not decided by the source, and the model takes it as timed out.
  - Object URLs are opaque handle strings, and revocation is appending to a list of released handles.
  - The media element is reduced to its source and paused flag. Its playback position, `currentTime = 0` on reset and the actual loading of sources are not modelled.
- Timers (50 ms pause between chunks, 50 ms resume, 100 ms play-after-switch) are pending-timer counters and firing events, or one more await in the cancellation clock; their durations play no part.
- React batching and interleavings: every event, effect and promise settlement is an atomic step. Two runs overlapping in time is not modelled. In the text panel that can happen, because a reset clears the processing state while a run is still under way, and both runs share one cancel flag.
- Console logging, the missing-credentials warning and the error display markup.
- JSON serialisation of the request body: the body is a record.
- `minTrackDuration` (AudioPlayer.tsx:89-97) is computed but never read; it and the audio-ready flag are left out.
- Sequencer.RoundPercent: `Math.round((i / n) * 100)` is computed in binary64, and the model uses exact rational arithmetic. The two do not always agree. For example, i = 23 and n = 40 gives 57 in JavaScript, because 23/40 times 100 comes out just below 57.5; the model gives 58. There are 10 such pairs with i <= n <= 300.
- Sequencer.FloorPercent: `Math.floor((i / n) * 100)` is computed in binary64, and the model uses exact rational arithmetic. For example, i = 29 and n = 50 gives 57 in JavaScript, because 29/50 times 100 comes out just below 58; the model gives 58. There are 12 such pairs with i <= n <= 300. The exact bound `100 * current < (r + 1) * total` is therefore not what the browser shows for those pairs.
- Strings are modelled as sequences of characters, while JavaScript strings are UTF-16 code units. For text outside the Basic Multilingual Plane, `length` counts two units per character. That changes which texts fall under the 300-character short limit, where the 150, 200 and 300 bounds fall, and where chunks are cut, and a cut can split a surrogate pair. None of this is modelled.
- Player.TimeUpdateIsEnded: times are integer milliseconds, and a NaN or infinite duration is written as no duration.
- The player after it is unmounted: its pending timers and the parent's state updates are not modelled.
- TtsChunker.SplitIntoChunks requires a maximum of at least 1. With 0 the JavaScript loop never terminates; the only caller passes 150.
- ViewerSession.PageChange and ViewerSession.TogglePlayback apply the extraction's outcome in the same step. In the code, extraction finishes later, and a click in between sees the page text already emptied.
- TtsChunker.SplitIntoChunks and ViewerChunker.SplitTextIntoChunks state the packing of whole consecutive sentences only when no sentence is longer than the chunk size. Where an over-long sentence is cut, only the bounds and the non-space content are stated.
- ViewerChunker.LongTextCoverage and TtsChunker.SplitLongContent state content preservation for non-space characters only. Trimming and joining with single spaces change the white space, so equality of the joined text does not hold.
- Temperature and speed are kept as opaque real values; the sliders that set them and the voice menu are not modelled.
