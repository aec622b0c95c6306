# EchoEase core, modelled in Dafny

EchoEase is a speech app with a small Python backend and two modes.

- **Safe mode** listens to the microphone. It cuts the stream into utterances with a voice-activity detector, transcribes each one, and can add punctuation. It censors banned words as "beep". When stopped, it replays the whole session as one text.
- **Group mode** records audio and re-pitches it and changes its tempo with the SoundStretch command-line tool.
- An HTTP API (`main.py`) starts and stops both modes and keeps the list of censored words.

This project models the sequential logic of that backend as pure functions over immutable records. The speech-to-text and punctuation models are uninterpreted functions. The model covers these parts:

- **Segmentation** (`segmentation.dfy`). Safe mode's listen loop is a two-state engine, idle or triggered, folded over frames that each carry a voice-activity label. A ten-entry look-back window is pushed on every frame.
  - While idle, the engine triggers when at least 7 of the window's entries are voiced. It then seeds the pending utterance with the whole window and empties the window.
  - While triggered, every frame joins the pending utterance. When at least 4 of the window's entries are unvoiced, the utterance is emitted and the engine goes idle.
  - The thresholds `0.6 * 10` and `0.3 * 10` are exact in Python's floating point, so "more than 6.0" and "more than 3.0" are stated as `>= 7` and `>= 4`.
  - `segmentation_scenario.dfy` works one stream through the engine, frame by frame.
- **Transcription** (`transcription.dfy`). The utterance is zero-padded to two seconds (32000 samples) and transcribed. A blank transcript is dropped. Otherwise it is punctuated, falling back to the raw text, and then censored.
- **Censor** (`censor.dfy`). This is the `re.sub` scan of the pattern `\b(w1|w2|…)\b`, case-insensitive, replacing each match with "beep". For banned words made of word characters, it is proved equal to an independent word-by-word description, and `censor_examples.dfy` works concrete sentences.
- **Session lifecycle** (`safe_mode.dfy`). Start is guarded. Stop is guarded, flushes a pending partial utterance through transcription once, and offers the captured texts, joined by spaces, for replay.
- **Group mode** (`group_mode.dfy`). This covers the parameters, the start/stop guard and the SoundStretch argument list.
- **API** (`api.dfy`). This covers the word-list handlers, the run-flag guards of both modes, the status report, and a request server that folds the handlers over a request sequence.

`text.dfy` gives Python's `str.strip`, `str.join` and `str(int)`. `audio.dfy` gives 16-bit samples and frames. `wrappers.dfy` gives `Option` and `Result`.

## Behaviour worth noting

- **Length of the first utterance.** Onset seeds the utterance with the whole ten-entry window, unvoiced entries included. In a stream of 5 unvoiced, 27 voiced and 4 unvoiced frames, the window at onset holds 3 unvoiced and 7 voiced frames. The one utterance emitted therefore runs from the third frame to the last, 34 frames in all. `SegmentationScenario.ScenarioUtterance` proves the 34.
- **When the transcript is cleared.** `captured_texts` is cleared only when the next listen loop begins (safe_mode.py:145), not at stop. `SafeMode.RestartClearsTranscript` states this.
- **The window at offset.** The look-back window is cleared at onset only, not at offset. Right after an utterance is emitted, the window still holds its last 4 to 10 frames. The next onset can seed the next utterance with frames that were already emitted. `Segmentation.OffsetKeepsTail` states this.

## Model

| member | source | states |
|---|---|---|
| Segmentation.Push | safe_mode.py:149-169 | The bounded deque append: the window grows by one up to 10 entries and then stays at 10. It holds the newest entries in arrival order, and the oldest entry is dropped when the window is full. |
| Segmentation.Step | safe_mode.py:166-192 | One iteration of the loop on one labelled frame. Its contract is carried by `Segmentation.OnsetRule` for the idle engine and `Segmentation.OffsetRule` for the triggered one. `Segmentation.StepPreservesInv` gives the invariant it keeps. |
| Segmentation.OnsetRule | safe_mode.py:169-177 | While idle: the engine triggers exactly when at least 7 entries of the window (with the new frame pushed) are voiced. The pending utterance then becomes exactly that window in order, and the window becomes empty. Otherwise only the window changes. Nothing is emitted. |
| Segmentation.OffsetRule | safe_mode.py:178-188 | While triggered: the frame is pushed onto the window. An utterance is emitted exactly when at least 4 window entries are unvoiced. The emitted utterance is the pending frames followed by the new frame. The engine is then idle with nothing pending. Otherwise the frame is appended to the pending utterance. |
| Segmentation.StepPreservesInv | safe_mode.py:143-192 | One loop iteration keeps the engine invariant: window at most 10 entries; idle means nothing pending and at most 6 voiced; triggered means at most 3 unvoiced, a window that is the tail of the pending utterance, and 7 voiced seed frames. Every emitted utterance has at least 11 frames, at least 7 of them voiced. |
| Segmentation.IdleStepPreservesInv | safe_mode.py:171-177 | The idle half of the invariant step. |
| Segmentation.TriggeredStepPreservesInv | safe_mode.py:178-192 | The triggered half of the invariant step, including the well-formedness of the emitted utterance. |
| Segmentation.Feed | safe_mode.py:162-192 | The loop over a whole stream, collecting the emitted utterances in order. Its contract is carried by `Segmentation.FeedPreservesInv`, `Segmentation.RunSplit`, `Segmentation.FeedEmitsSlices` and `Segmentation.FeedFromIdle`. |
| Segmentation.FeedPreservesInv | safe_mode.py:162-192 | Over any stream of frames the invariant survives. No emitted utterance is ever empty: each has at least 11 frames, 7 voiced. |
| Segmentation.RunSplit | safe_mode.py:162-169 | Running the loop over a stream in two pieces gives the same end state and the same utterances, in order, as running it over the whole stream. |
| Segmentation.StepFromStream | safe_mode.py:169-188 | The window and the pending utterance always consist of the newest frames of the stream seen so far. An emitted utterance ends at the current frame. |
| Segmentation.FeedEmitsSlices | safe_mode.py:162-192 | Every emitted utterance is a contiguous run of the input stream: no frame is reordered, skipped or invented. |
| Segmentation.RunKeeps | safe_mode.py:162-192 | A fold over the stream keeps any invariant of the state and of the frames seen so far that each single iteration keeps. Every output is good for the whole stream when each iteration emits only outputs that are good at that point. |
| Segmentation.FeedFromIdle | safe_mode.py:146-192 | From the loop's initial state, every emitted utterance is a contiguous run of the input with at least 11 frames, 7 of them voiced, and a pending utterance left at the end is a contiguous run of the input too. |
| Segmentation.FeedFromIdleEmitsSlices | safe_mode.py:146-192 | From the loop's initial state, every utterance is a contiguous run of the input frames. |
| Segmentation.OffsetKeepsTail | safe_mode.py:176-188 | After an offset, the window keeps 4 to 10 frames, and they are the tail of the utterance just emitted. |
| SegmentationScenario.StepAt | safe_mode.py:169-188 | In the worked stream, each of the first 11 frames leaves the engine idle with the last ten frames in its window. The twelfth frame triggers with frames 2 to 11 pending. Each later frame joins the pending utterance while the window refills from empty without reaching 4 unvoiced entries, and the last frame emits. |
| SegmentationScenario.ScenarioTrace | safe_mode.py:162-192 | After any prefix of the worked stream the engine is in the state given frame by frame, and nothing has been emitted before the last frame. |
| SegmentationScenario.ScenarioUtterance | safe_mode.py:143-192 | For the stream of 5 unvoiced, 27 voiced and 4 unvoiced frames: exactly one utterance is emitted. It is frames 2 to 35, 34 frames long. The engine ends idle, still holding the last ten frames. |
| Audio.FlattenAppend | safe_mode.py:186 | Joining the frames' sample data of two runs is joining each run and concatenating the results. |
| Transcription.Pad | safe_mode.py:96-100 | The output length is max(n, 32000). The input is a prefix of the output and every added sample is zero, so input of 32000 samples or more is unchanged. |
| Transcription.PadIdempotent | safe_mode.py:97-100 | Padding an already padded input changes nothing. |
| Transcription.Punctuated | safe_mode.py:112-131 | An unconfigured or failing punctuation model leaves the raw text as it is, and so does a reply with neither text nor candidates. A reply text wins and is stripped: the result is that text with whitespace cut from both ends, and it neither begins nor ends with whitespace. Otherwise the first candidate's parts are concatenated and stripped in the same sense. By `Text.StrippedUnique` these two facts determine the result. |
| Transcription.Transcribe | safe_mode.py:103-108 | There is no result exactly when the joined speech-to-text segments are blank (all whitespace). |
| Transcription.TranscribePassThrough | safe_mode.py:113-136 | When no punctuation model is configured for the prompt and the censor list is empty, a non-blank transcript comes back unchanged as the stripped speech-to-text output. |
| Transcription.Record | safe_mode.py:190-192 | Only a present, non-empty text is recorded, and it goes at the end. A missing or empty one leaves the captured texts unchanged. |
| Transcription.RecordKeepsNonEmpty | safe_mode.py:191-192 | Recording keeps every captured text non-empty and only ever extends the list. |
| Censor.FirstMatch | safe_mode.py:89-90 | The alternative the pattern commits to at a position is the first banned word, in list order, that matches there as a whole word ignoring case. There is none exactly when no banned word matches there. |
| Censor.CensorText | safe_mode.py:86-88 | With an empty banned list the text is returned unchanged. |
| Censor.Substitute | safe_mode.py:89-90 | The left-to-right `re.sub` scan from a position. Its contract is carried by `Censor.NoMatchCopies` and `Censor.SubstituteByRuns`, and through `Censor.CensorText` by `Censor.NoWholeWordUnchanged` and `Censor.CensorRedactsWholeWords`. |
| Censor.NoMatchCopies | safe_mode.py:89-90 | From a position after which no banned word matches, the scan copies the rest of the text unchanged. |
| Censor.NoWholeWordUnchanged | safe_mode.py:86-90 | A text in which no banned word occurs as a whole word, in any letter case, comes back unchanged. |
| Censor.MatchIffWholeRun | safe_mode.py:89 | At the start of a word run, a banned word made of word characters matches exactly when it equals the whole run ignoring case: `\b` on both sides rules out partial words. |
| Censor.SubstituteByRuns | safe_mode.py:89-90 | From any run boundary, the regex scan equals the word-by-word redaction. |
| Censor.CensorRedactsWholeWords | safe_mode.py:86-90 | When the banned words are made of word characters, censoring equals an independent word-by-word description. The text is cut into maximal runs of word and non-word characters. Each word run equal to a banned word ignoring case becomes "beep", and everything else is kept. |
| CensorExamples.BannedWordCensored | safe_mode.py:86-90 | Against ["hate"], "I hate carrots" and "I HATE carrots" both become "I beep carrots". |
| CensorExamples.CensorExamples | safe_mode.py:86-90 | The same two sentences, stated on the literals. |
| CensorExamples.ContainingWordKept | safe_mode.py:86-90 | Against ["hate"], "hateful" is kept as it is. |
| SafeMode.StartRecording | safe_mode.py:199-207 | A start while listening is a no-op. Otherwise listening begins with an empty transcript and a fresh engine. |
| SafeMode.StopRecording | safe_mode.py:210-234 | A stop while not listening is a no-op. Otherwise listening ends and the engine is left idle. A non-empty pending utterance is flushed: it is transcribed exactly once and its text recorded. The captured texts, joined by single spaces in order, are offered for replay exactly when there are any. |
| SafeMode.Hear | safe_mode.py:166-192 | One loop iteration with transcription of an emitted utterance. Its contract is carried by `SafeMode.HearAllIsFeed`. |
| SafeMode.HearAll | safe_mode.py:162-192 | The loop with transcription over a whole stream. Its contract is carried by `SafeMode.HearAllIsFeed`. |
| SafeMode.Listen | safe_mode.py:162-192 | The running loop: nothing happens unless a session is listening. Its contract is carried by `SafeMode.ListenPreservesInv` and `SafeMode.SessionTranscript`. |
| SafeMode.TranscribeAll | safe_mode.py:186-192 | Transcribing emitted utterances in order and recording the non-empty results. Its contract is carried by `SafeMode.TranscribeAllSplit` and `SafeMode.TranscribeAllKeepsNonEmpty`. |
| SafeMode.HearAllIsFeed | safe_mode.py:162-192 | Listening is segmentation followed by transcription. The engine ends where segmentation alone ends. The captured texts are those of the emitted utterances, in order, appended to what was captured before. |
| SafeMode.TranscribeAllSplit | safe_mode.py:190-192 | Transcribing two lists of utterances in sequence is transcribing their concatenation. |
| SafeMode.InitialInv | safe_mode.py:35-40 | The module's start-up state satisfies the session invariant. |
| SafeMode.StartPreservesInv | safe_mode.py:199-207 | Starting keeps the session invariant. |
| SafeMode.TranscribeAllKeepsNonEmpty | safe_mode.py:190-192 | Transcribing utterances keeps every captured text non-empty and only appends. |
| SafeMode.ListenPreservesInv | safe_mode.py:162-192 | The loop keeps the session invariant, only ever appends captured texts, and does not change the listening flag. |
| SafeMode.StopPreservesInv | safe_mode.py:218-228 | Stopping keeps the session invariant. A flushed utterance has at least 7 frames, at least 7 of them voiced. |
| SafeMode.StopFlushes | safe_mode.py:218-228 | Stopping a running session transcribes what is pending in the same way the loop transcribes an emitted utterance, and a flush happens exactly when something is pending. |
| SafeMode.SessionTranscript | safe_mode.py:143-234 | A whole session from a stopped state: start, the loop consumes the frames, stop. The captured texts are the transcriptions of the segmented utterances, in order, followed by that of the flushed partial utterance. A flush happens exactly when an utterance was pending. Every utterance is a well-formed contiguous run of the input. The replay text is the captured texts joined by spaces. |
| SafeMode.RestartClearsTranscript | safe_mode.py:145 | Starting again after a stop begins with an empty transcript. |
| Text.Strip | main.py:79 | The result is a contiguous piece of the input with only whitespace cut from both ends, and it neither begins nor ends with whitespace. |
| Text.StrippedUnique | main.py:79 | Cutting whitespace from both ends down to a string with no whitespace at either end has exactly one outcome, so the contract of `Strip` determines Python's `str.strip()`. |
| Text.StripEmptyIffAllSpace | main.py:79-81 | A string strips to nothing exactly when it is all whitespace. |
| Text.StripIdempotent | main.py:79 | Stripping twice is stripping once. |
| Text.Join | safe_mode.py:234 | Python's `sep.join(parts)`. Its contract is carried by `Text.JoinLength`, `Text.JoinAppend` and `Text.JoinConcat`. |
| Text.JoinLength | safe_mode.py:234 | A space-joined text is as long as its parts plus one separator between each neighbouring pair. |
| Text.JoinAppend | safe_mode.py:234 | Joining one more part extends the joined text by the separator and the new part. |
| Text.JoinConcat | safe_mode.py:234 | Joining two non-empty lists is joining their two joins with one separator. |
| Text.DecimalOf | group_mode.py:43 | Python's `str(n)` for an integer: never empty, and it begins with a minus sign exactly when the integer is negative. `Text.DecimalRoundTrip` shows it reads back as the same integer. |
| Text.DecimalRoundTrip | group_mode.py:43 | An integer's decimal text reads back as the same integer. |
| GroupMode.SetParameters | group_mode.py:24-26 | All three parameters are replaced at once, and the recording flag is untouched. |
| GroupMode.StartRecording | group_mode.py:84-93 | A start while recording is a no-op. Afterwards the mode is recording and the parameters are unchanged. |
| GroupMode.StopRecording | group_mode.py:95-104 | A stop while not recording is a no-op. Afterwards the mode is not recording and the parameters are unchanged. |
| GroupMode.GuardsIdempotent | group_mode.py:84-104 | Starting twice is starting once, and stopping twice is stopping once. |
| GroupMode.SoundStretchCommand | group_mode.py:37-43 | The command begins with `["soundstretch", input, output, "-speech"]` and has 4 to 6 arguments. A pitch option appears exactly when the pitch is non-zero, always at index 4. A tempo option appears exactly when the speed is not 1, and it is always last. |
| GroupMode.TempoRoundTrip | group_mode.py:41-43 | The tempo option reads back as exactly the caller's percentage. |
| GroupMode.ProcessingCommand | group_mode.py:70 | The recording thread's call runs SoundStretch from the raw recording file to the processed file, the names fixed at group_mode.py:17-18. |
| Api.IndexOf | main.py:92 | The position of the first occurrence of the word. |
| Api.RemoveFirst | main.py:92 | `list.remove`: the list with its first occurrence of the word cut out and all other entries in their original order. |
| Api.RemoveFirstExact | main.py:90-92 | In a list without duplicates, removing a word keeps the list duplicate-free, drops exactly that word, and shortens the list by one. |
| Api.StartSafeMode | main.py:51-61 | `POST /safe_mode/start`. By `Api.ResponsesReportChange`, while safe mode runs it answers `already_running` and changes nothing. Otherwise it answers `started`, sets the run flag and starts the session with `SafeMode.StartRecording`. `Api.GuardsIdempotent`, `Api.ModesIndependent` and `Api.HandlePreservesInv` add the rest of its contract. |
| Api.StopSafeMode | main.py:63-71 | `POST /safe_mode/stop` with the text offered for replay. By `Api.ResponsesReportChange`, while safe mode is stopped it answers `not_running`, changes nothing and offers no replay. Otherwise it answers `stopped`, clears the run flag, and stops the session with `SafeMode.StopRecording`, offering that call's replay text. `Api.GuardsIdempotent`, `Api.ModesIndependent` and `Api.SafeSessionThroughApi` add the rest of its contract. |
| Api.ListenSafeMode | main.py:56-58 | The safe-mode loop reading the API's word list through the shared reference. Its contract is carried by `Api.HandlePreservesInv` and `Api.SafeSessionThroughApi`. |
| Api.GetSafeModeWords | main.py:73-75 | `GET /safe_mode/words`. `Api.StatusReflectsModes` states it is the word list in insertion order, the same list the status report gives. |
| Api.AddSafeWord | main.py:77-86 | An all-whitespace word is refused with 400 "Empty word". A stripped word already listed, compared exactly, is refused with 400 "Word already exists". Nothing changes on refusal. Otherwise the stripped word is appended at the end. |
| Api.DeleteSafeWord | main.py:88-94 | An unlisted word is refused with 404 "Word not found" and nothing changes. Otherwise its first occurrence is removed, keeping the order of the rest. |
| Api.StartGroupMode | main.py:99-108 | `POST /group_mode/start`. Its contract is carried by `Api.ResponsesReportChange`, `Api.GroupStartParams`, `Api.GuardsIdempotent` and `Api.ModesIndependent`. |
| Api.StopGroupMode | main.py:110-118 | `POST /group_mode/stop`. Its contract is carried by `Api.ResponsesReportChange`, `Api.GroupStartParams`, `Api.GuardsIdempotent` and `Api.ModesIndependent`. |
| Api.Status | main.py:120-126 | `GET /status`. Its contract is carried by `Api.StatusReflectsModes`. |
| Api.Handle | main.py:51-118 | Dispatches one request to its handler. Its contract is carried by `Api.HandlePreservesInv`, `Api.Serve` and `Api.ReachableInv`. |
| Api.InitialInv | main.py:31-46 | The start-up state satisfies the API invariant. |
| Api.AddPreservesInv | main.py:77-86 | Adding keeps the word list free of duplicates and of blank or unstripped entries. |
| Api.DeletePreservesInv | main.py:88-94 | Deleting keeps the invariant and removes exactly the named word. |
| Api.HandlePreservesInv | main.py:51-118 | Every request keeps the invariant: the word list is clean, and the run flags agree with each mode's own flag and session state. |
| Api.Serve | main.py:51-118 | Serving any sequence of requests one at a time from an invariant state ends in an invariant state. |
| Api.ReachableInv | main.py:31-118 | From start-up, whatever sequence of requests is served one at a time, the word list never holds a duplicate or a blank entry. |
| Api.ResponsesReportChange | main.py:51-118 | Every start leaves its mode running and every stop leaves it stopped. A start answers `already_running` exactly when its mode was already running, and a stop answers `not_running` exactly when its mode was not running. Those answers come exactly when the request changed nothing, and a refused stop offers no replay. An actual safe-mode start or stop hands the session to `SafeMode.StartRecording` or `SafeMode.StopRecording`, and the stop returns that call's replay text. |
| Api.GroupStartParams | main.py:99-108 | Group mode takes the request's parameters only when it actually starts. A start while running ignores them, and stopping keeps them. |
| Api.GuardsIdempotent | main.py:51-118 | Repeating a start answers `already_running`, and repeating a stop answers `not_running`. Neither repeat changes anything, for both modes. |
| Api.ModesIndependent | main.py:51-118 | Group-mode requests never touch safe mode's flag, session or word list. Safe-mode requests never touch group mode's flag or recorder. |
| Api.StatusReflectsModes | main.py:120-126 | The status report gives exactly the two modes' running states and the word list in insertion order. |
| Api.SafeSessionThroughApi | main.py:51-71 | Start, frames, stop through the API: the stop answers `stopped`, and the word list is unchanged. The captured texts are the censored transcriptions of the segmented utterances and the flush. The replay offers their space-join, or nothing if there are none. |

## Left out

- Microphone streams, their callbacks and the busy-wait polling (safe_mode.py:153-166, group_mode.py:53-62) are driver I/O. Frames arrive as a sequence of labelled frames, and the voice-activity verdict is part of each frame's label.
- Threads, the stop event and `join(timeout=5)` are not modelled. A stop is an atomic step taken after the loop has consumed all frames it will see. A loop that outlives the five-second join is not modelled.
- The float conversions of PCM data are not modelled: `* 32768` to int16 and `/ 32768.0` back to float (safe_mode.py:156, 187, 224). Samples are 16-bit integers throughout.
- Whisper, webrtcvad, Gemini and ElevenLabs are external models and network services. Speech-to-text and punctuation are uninterpreted functions supplied by the caller. The voice-activity detector is the frame label. Text-to-speech is replaced by the text offered for replay (the client set-up, voice-id lookup and playback at safe_mode.py:237-253 are not modelled).
- Every collaborator call outside a `try` is assumed never to raise. These are the speech-to-text call (safe_mode.py:104), the punctuation set-up `get_gemini_model()` (safe_mode.py:114, before the `try` at :116, raising if `ai.configure` or the model constructor at :78-79 raises), and the text-to-speech set-up `get_eleven_client()` (safe_mode.py:237, before the `try` at :240). That last one raises a `TypeError` when a key is set but the `elevenlabs` package is missing, because `ElevenLabs` is then `None` (safe_mode.py:29, 63) and, unlike :75, nothing checks for that.
  - If a raise happened in the loop, the pending frames would already be cleared (safe_mode.py:188) before the call at safe_mode.py:190. That utterance would be lost, the listen thread would end, and `is_listening` would stay True.
  - If a raise happened during stop (the flush at safe_mode.py:225, or the replay set-up at :237), `is_listening` would already be False (safe_mode.py:218). The exception would escape `stop_safe_mode` at main.py:68, so main.py:69 would never clear `safe_mode_running`, and the run flag would no longer agree with the session's listening flag (`a.safeRunning == a.safe.listening` in `Api.Inv`).
  - `Api.HandlePreservesInv`, `Api.Serve` and `Api.ReachableInv` rely on that agreement, so they hold only under this assumption. A failure inside the punctuation `try` (safe_mode.py:116-129) is caught, and it is modelled.
- Requests are assumed to be served one at a time. FastAPI runs the plain `def` handlers of main.py:51-126 on a worker thread pool, so a check and the update that follows it are not atomic. Two concurrent adds of the same word can both pass main.py:82 and both append at :84. Two concurrent starts can both pass main.py:53 and both reach :58-59. `Api.HandlePreservesInv`, `Api.Serve` and `Api.ReachableInv` hold only for requests served one at a time.
- Frame length is not constrained. A frame is any sequence of samples, not the 480 samples the microphone stream delivers (safe_mode.py:44-46, 161).
- Which punctuation model is configured (safe_mode.py:67-80) is part of the collaborator's answer (`Unconfigured`), not a modelled lookup of API keys.
- The censor list is read at the moment an utterance is transcribed, through the shared list reference (safe_mode.py:82-84). The model passes the API's word list as it stands when the frames are heard. Updates that race with a running transcription are not modelled.
- Group mode's recording loop, the SoundStretch subprocess, sound-file reads and writes, `adjust_volume` clipping and playback (group_mode.py:29-35, 44, 49-79) are I/O or floating point.
- GroupMode.Params: pitch, volume and speed are exact finite reals. In the source they are Python floats (main.py:37-40), and request decoding also accepts `NaN` and `±Infinity`. With such values, group_mode.py:40 would emit `-pitch=nan` or `-pitch=inf`, and `int((speed - 1.0) * 100)` at group_mode.py:42 would raise in the recording thread, so nothing would be processed. Neither non-finite values nor that raise are modelled: the model always yields a command.
- GroupMode.SoundStretchCommand: the tempo percentage is an integer supplied by the caller, because `int((speed - 1.0) * 100)` depends on float rounding (speed 0.9 gives -9). The pitch option's text comes from a formatting function parameter, because Python's `str` of floats is not modelled.
- Censor.CensorText: banned words must be non-empty, which the API's word list guarantees. Python's empty-match rules for `re.sub` are not modelled. `\b` and case-insensitive matching use ASCII word characters `[A-Za-z0-9_]` and ASCII case folding, not Python's Unicode rules. Banned words are matched literally, as `re.escape` makes them.
- Censor.CensorRedactsWholeWords: the word-by-word description is proved only for banned words made of word characters. For other words, the regex scan `Censor.Substitute` is still the model used.
- FastAPI routing, CORS, request and response JSON encoding, the root endpoint and all logging are not modelled. Handlers return the new state with their status or error value.
- The React UI (App.js, index.js) is not modelled.
