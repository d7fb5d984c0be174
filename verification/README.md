# Realtime Whisper transcription: the stateful core in Dafny

This project models the deterministic core of a small family of speech-to-text tools built around
the Whisper engine and ffmpeg:

- **Live sessions of the web app** (`Web/routes/realtime.py`, `Web/services/sessions.py`). A
  browser pushes compressed audio fragments. An ffmpeg pipe turns them into 16 kHz PCM. A worker
  re-decodes the growing recording and adopts a new transcript only when it is at least as long as
  the current one. Server-sent-event streams relay every adopted transcript. Stopping a session runs
  one final unconditional decode.
- **The transcode pipe** (`Web/services/ffmpeg_pipe.py`). It maps the media type to ffmpeg input
  arguments and has a two-state process lifecycle. Its reader cuts the output into blocks of at most
  4096 bytes.
- **The desktop live clients** (`tk_whisper_realtime.py`, `step3.py`, `chank3.py`). Each has an
  overlapping chunker with a bounded drop-oldest queue and a flush on stop. Around it sit:
  - the `fmt_tc` time codes for SRT and WebVTT;
  - sample-rate candidate de-duplication and device auto-pick;
  - the auto-send and "send last" job gates;
  - the text shown for a server reply or a local transcription.
- **The conversion server** (`convert_server.py`). It validates the upload and the format, builds
  the ffmpeg argument list, and derives the download name, the media type and the temporary suffix.

Everything is modelled as immutable datatypes and pure functions:

| module | file | what it holds |
|---|---|---|
| `Common` | `common.dfy` | `Option` and round-half-to-even |
| `Text` | `text.dfy` | decimal digits, padding, ASCII lower-casing, `str.strip`, `splitext`/`basename` |
| `Timecode` | `timecode.dfy` | `fmt_tc` |
| `FfmpegPipe` | `ffmpeg_pipe.dfy` | the transcode pipe |
| `Sessions` | `sessions.dfy` | the session record and store |
| `Realtime` | `realtime.dfy` | the routes |
| `Chunker` | `chunker.dfy` | the chunker |
| `Devices` | `devices.dfy` | device and rate selection |
| `Jobs` | `jobs.dfy` | job gating and displayed text |
| `Convert` | `convert.dfy` | the conversion server |

Several things outside the core are parameters:

- The speech engine is an uninterpreted function from a decode request to segments or an error.
- The spawn and write failures of the live pipe are boolean arguments. The conversion server's ffmpeg run is an argument too: spawn failure, exit code with stderr, or time-out.
- `try_open` is a predicate on (device index, rate).
- The energy gate's verdict is an optional silence message.
- The HTTP outcome of a POST is a datatype.

`auto_pick_device_and_sr` is `Devices.AutoPick`: the generic device search `Devices.Search` applied to
each device's de-duplicated candidates `Devices.SampleRates`. The search is proved for any
per-device rate lists, and the candidate lists are proved separately.

Chunker times are sample counts: a chunk `(start, end)` stands for `(start/sr, end/sr)` seconds.

## Model

| member | source | states |
|---|---|---|
| Common.RoundHalfEven | step3.py:96-97 | Python `round` on a non-negative value: the result is within one half of the input, and an exact tie goes to the even neighbour |
| Text.NatToString | tk_whisper_realtime.py:46 | the decimal rendering is non-empty digits with no leading zero that read back as the number; single-digit exactly for numbers below ten |
| Text.IntToString | convert_server.py:75-77 | `str(n)`: digits reading back as n, with a leading minus sign and the digits of -n for negative n |
| Text.PadNat | tk_whisper_realtime.py:46 | `{n:0wd}` reads back as n and has width max(w, digits of n) |
| Text.LeadingZerosValue | tk_whisper_realtime.py:46 | zero padding on the left never changes the value of a digit string |
| Text.Lower | Web/services/ffmpeg_pipe.py:11 | lower-casing keeps the length and maps every character independently |
| Text.Strip | step3.py:328 | `str.strip` removes exactly the maximal whitespace runs at both ends; the result starts and ends with non-space |
| Text.StripTrimmed | step3.py:328 | stripping a text that already starts and ends with non-space returns it unchanged |
| Text.StripIdempotent | step3.py:328-329 | stripping twice equals stripping once |
| Text.StripBlank | step3.py:328-329 | the stripped text is empty exactly when every character is whitespace |
| Text.Contains | Web/services/ffmpeg_pipe.py:19-21 | the `in` test on strings holds iff the needle occurs at some position |
| Text.RFind | convert_server.py:47 | the last occurrence of a character: nothing after it matches, -1 when absent |
| Text.SplitExt | convert_server.py:47 | `os.path.splitext`: the two parts concatenate back to the path, and the extension is empty or one dot followed by no dot and no slash |
| Text.SplitExtFindsExtension | convert_server.py:118-119 | the extension is non-empty iff the last path component has a non-dot followed later by a dot |
| Text.SplitExtAppend | convert_server.py:159-162 | appending a dot-extension to a name with a stem splits back into exactly that name and extension |
| Text.Basename | convert_server.py:158 | `os.path.basename`: a slash-free suffix of the path that is preceded by a slash unless it is the whole path |
| Timecode.Split | tk_whisper_realtime.py:45 | the three `divmod` steps give minutes and seconds below 60 and milliseconds below 1000, totalling the clamped millisecond count |
| Timecode.Millis | tk_whisper_realtime.py:45 | negative times become 0, and otherwise the rounded millisecond count is within half a millisecond of the time, an exact tie going to the even count |
| Timecode.FmtTcRoundTrip | tk_whisper_realtime.py:44-46 | `FmtTc` (`fmt_tc`): a rendered time code reads back as its fields for any separator, so the rendering loses nothing |
| Timecode.SrtVttDiffer | tk_whisper_realtime.py:343-346 | the SRT and WebVTT codes of one time have the same length and differ in exactly one position, the separator |
| Timecode.FmtSecondsRoundTrip | tk_whisper_realtime.py:44-46 | reading back `fmt_tc(x)` yields the millisecond rounding of x |
| FfmpegPipe.New | Web/services/ffmpeg_pipe.py:10-15 | a new pipe has no process and no reader, and stores the media type lower-cased, with a missing type stored as "" |
| FfmpegPipe.InArgs | Web/services/ffmpeg_pipe.py:17-22 | the input format is chosen by substring in priority order ogg, webm, mp4/mpeg, else none, each case as an iff |
| FfmpegPipe.CommandShape | Web/services/ffmpeg_pipe.py:26-27 | the command starts with the fixed prefix, ends with the 16 kHz mono s16le output arguments, and forces the input format `_in_args` chose |
| FfmpegPipe.Start | Web/services/ffmpeg_pipe.py:24-41 | start is a no-op when a process exists; otherwise it spawns the command with an empty input and a running reader, or raises |
| FfmpegPipe.StartIdempotent | Web/services/ffmpeg_pipe.py:25 | starting a started pipe changes nothing |
| FfmpegPipe.Write | Web/services/ffmpeg_pipe.py:43-52 | write succeeds iff a process exists and the write does not fail, and only a success appends the data to what the process received |
| FfmpegPipe.Close | Web/services/ffmpeg_pipe.py:54-67 | after close there is neither process nor reader |
| FfmpegPipe.CloseFinal | Web/services/ffmpeg_pipe.py:43-67 | a write after close fails and leaves the pipe closed, and closing twice equals closing once |
| FfmpegPipe.ReadLoop | Web/services/ffmpeg_pipe.py:31-38 | the reader hands over non-empty blocks of at most 4096 bytes whose concatenation is exactly the output |
| Sessions.OpenWavWriter | Web/services/sessions.py:43-47 | the recording is mono, 16-bit and 16000 Hz, so one frame is two bytes |
| Sessions.NewSession | Web/services/sessions.py:5-20 | a fresh session has no frames, no stop flag, nothing decoded, empty text, no subscribers and no pipe |
| Sessions.Add | Web/services/sessions.py:27-29 | after add, get of that sid returns the session and every other sid is unaffected; the count grows only for a new sid |
| Sessions.Get | Web/services/sessions.py:31-33 | get finds a session iff its sid is stored |
| Sessions.Pop | Web/services/sessions.py:35-37 | pop returns what get would have, removes that sid only, and decrements the count iff the sid was present |
| Sessions.Count | Web/services/sessions.py:39-41 | the count is the number of distinct stored sids |
| Sessions.PopTwice | Web/services/sessions.py:35-37 | a second pop of the same sid returns nothing and changes nothing |
| Sessions.AddPopRoundTrip | Web/services/sessions.py:27-37 | popping a freshly added sid returns the session and restores the store |
| Realtime.LanguageOf | Web/routes/realtime.py:52 | the session language when set and non-empty, else "ja" |
| Realtime.Request | Web/routes/realtime.py:49-57 | the decode request uses the session audio and language, VAD off, no-speech threshold 0.3, temperature 0 and beam size 5, the conditions finalize repeats |
| Realtime.Target | Web/routes/realtime.py:42-43 | the decode horizon is the duration minus two seconds, never below zero |
| Realtime.TextUpToAppend | Web/routes/realtime.py:59 | `TextUpTo` (the worker's end filter): the filtered text of a concatenation is the concatenation of the filtered texts |
| Realtime.TextUpToAll | Web/routes/realtime.py:59 | when every segment ends by the horizon, `TextUpTo` keeps all of the text |
| Realtime.Notify | Web/routes/realtime.py:28-31 | every subscriber whose put succeeds gets the text appended in order, a refusing one is left as it was, and the list itself is unchanged |
| Realtime.NotifyKeepsWellFormed | Web/routes/realtime.py:28-31 | notifying keeps the subscriber ids distinct and below the next id |
| Realtime.OnPcm | Web/routes/realtime.py:100-104 | a PCM block is appended to an open recording, adds len/2 frames and raises one wake, touching nothing else; a closed recording raises and takes nothing |
| Realtime.OnPcmAllEffect | Web/services/ffmpeg_pipe.py:31-38 | feeding the reader's blocks to an open recording appends all output, counts every frame and one wake per block, and changes nothing else; a closed recording takes none of them |
| Realtime.Decode | Web/routes/realtime.py:42-68 | a decode never moves the horizon back or shortens the text; either nothing changes or the horizon jumps to a target more than 0.5 s past the last one; audio and pipe are untouched |
| Realtime.SkipIgnoresEngine | Web/routes/realtime.py:44-45 | when the target is not half a second past the last horizon the session is unchanged whatever the engine would answer |
| Realtime.DecodeAdoption | Web/routes/realtime.py:42-64 | a wake changes the session iff the horizon moves, iff the target is more than 0.5 s ahead, the engine answers and the filtered text is not shorter; then the horizon is the target, the text is that of the segments ending by it, and every subscriber that does not refuse has it as its newest entry |
| Realtime.WorkerTurn | Web/routes/realtime.py:35-45 | a set stop flag exits, no wake keeps waiting, a stop seen after the wake exits, and otherwise the wake is consumed by one decode |
| Realtime.Push | Web/routes/realtime.py:85-110 | the checks run in order: missing sid 400, unknown sid 410, a missing chunk or one with an empty file name 400, empty data "ok"; with data, a spawn failure on the first push raises (500), a write that reaches a process answers "ok", and any other write 410 "gone"; no other session is touched |
| Realtime.PushPipe | Web/routes/realtime.py:98-110 | a non-empty push leaves a pipe on the session, keeps an existing pipe's media type and gives a new pipe the lower-cased type; it raises iff the first spawn fails, leaving the pipe without a process, answers "ok" iff the write reached a process, appending the data to what it was fed, and otherwise 410 "gone" with an existing pipe unchanged |
| Realtime.RepeatedPushReusesPipe | Web/routes/realtime.py:99-108 | two pushes share one pipe: the first push's media type and command, with both fragments fed in order |
| Realtime.StreamOpen | Web/routes/realtime.py:115-122 | a bad or unknown sid is refused, and otherwise a new subscriber is appended and the current text is the first event |
| Realtime.Detach | Web/routes/realtime.py:133-135 | removing the stream's queue removes at most one entry and tolerates its absence |
| Realtime.DetachRemoves | Web/routes/realtime.py:133-135 | after removal the stream's id is gone and a second removal is harmless |
| Realtime.DetachKeepsOthers | Web/routes/realtime.py:133-135 | removal keeps every other subscriber |
| Realtime.DetachWellFormed | Web/routes/realtime.py:133-135 | removal keeps the subscriber ids distinct |
| Realtime.StreamTurn | Web/routes/realtime.py:127-135 | a stopped session ends the stream and detaches it; otherwise it emits, and with nothing pending it re-emits the current text |
| Realtime.IndexOf | Web/routes/realtime.py:129 | locates the first subscriber with the stream's id |
| Realtime.StreamRelaysBroadcast | Web/routes/realtime.py:127-132 | a broadcast reaches an idle stream, which emits exactly that text next |
| Realtime.TurnEmitsHead | Web/routes/realtime.py:129-132 | a stream with pending texts emits the oldest one |
| Realtime.StreamFirstEvents | Web/routes/realtime.py:124-132 | a freshly opened stream's first event and first turn both carry the current text |
| Realtime.Finalize | Web/routes/realtime.py:142-163 | closing a pipe that has a process first delivers the PCM ffmpeg still held into the open recording (a pipe whose spawn failed delivers nothing); then the recording is closed and the final decode of the whole recording sets the text to `FullText`, all segments, with no filter and no length check, and notifies; an engine error keeps the text; the sid, path, stop flag and subscriber counter are untouched, and each drained block raises one wake |
| Realtime.FinalizeMatchesWorker | Web/routes/realtime.py:148-160 | when every final segment ends by the trailing-guard target, finalize confirms the same text a worker decode at that target would |
| Realtime.FinalizeMayShrink | Web/routes/realtime.py:159-160 | unlike a worker decode, finalize can shorten the transcript |
| Realtime.StepKeepsInvariant | Web/routes/realtime.py:33-68 | a PCM block or a worker turn keeps the session well formed, never moves the horizon back and never shortens the text |
| Realtime.PcmKeepsInvariant | Web/routes/realtime.py:100-104 | a PCM block keeps the session well formed |
| Realtime.WorkerKeepsInvariant | Web/routes/realtime.py:35-68 | a worker turn keeps the session well formed and is monotone in horizon and text length |
| Realtime.RunMonotone | Web/routes/realtime.py:33-68 | across any interleaving of PCM blocks and worker turns the horizon and the transcript length only grow |
| Chunker.Make | tk_whisper_realtime.py:115-121 | a new chunker is empty, with chunk and overlap lengths the rounded sample counts of the given seconds |
| Chunker.DesktopChunker | tk_whisper_realtime.py:115-121 | the desktop client cuts 3 s chunks with 0.5 s overlap at 16 kHz into a queue of 3 |
| Chunker.ClientChunker | step3.py:94-100 | the other clients cut 3 s chunks into a queue of 8 |
| Chunker.Column | tk_whisper_realtime.py:124-127 | mono input passes unchanged, and multi-channel input contributes exactly its first channel |
| Chunker.TailShape | tk_whisper_realtime.py:160-165 | `Tail` (`_tail`): the tail is overlap long, zeros followed by the first min(overlap, buffered) remaining samples |
| Chunker.Enqueue | tk_whisper_realtime.py:137-143 | a put on a full queue drops the oldest first, so the queue stays bounded and ends with the new chunk |
| Chunker.KeepLast | tk_whisper_realtime.py:137-143 | the queue holds the newest chunks, at most capacity of them |
| Chunker.EnqueueKeepsLast | tk_whisper_realtime.py:137-143 | drop-oldest puts keep exactly the last capacity chunks ever put |
| Chunker.Head | tk_whisper_realtime.py:130-136 | one emitted chunk spans chunk_n samples from the emitted count, and its audio is tail plus chunk |
| Chunker.HeadCore | tk_whisper_realtime.py:130-133 | after the tail, a chunk's audio is the first chunk_n buffered samples |
| Chunker.Cut | tk_whisper_realtime.py:129-136 | after cutting, fewer than chunk_n samples stay buffered |
| Chunker.CutCoversStream | tk_whisper_realtime.py:129-133 | the chunk bodies followed by the remainder are exactly the buffered stream |
| Chunker.CutIsContiguous | tk_whisper_realtime.py:134-136 | chunks all have overlap + chunk_n samples and consecutive time stamps meet, starting at the emitted count |
| Chunker.CutStarts | tk_whisper_realtime.py:134-136 | the i-th chunk of the as-written cutter starts i chunk lengths after the emitted count |
| Chunker.Feed | tk_whisper_realtime.py:123-143 | feed emits what the cutter produces, leaves fewer than chunk_n samples, keeps emitted + buffered equal to everything fed, and bounds the queue |
| Chunker.WindowCut | tk_whisper_realtime.py:130-133 | the corrected cutter keeps an overlap-long history and leaves fewer than chunk_n samples |
| Chunker.WindowCutIsWindows | tk_whisper_realtime.py:130-136 | with the corrected cutter the i-th chunk is the window of overlap + chunk_n samples starting i·chunk_n into the zero-padded stream, stamped emitted + i·chunk_n |
| Chunker.LookaheadPrefix | tk_whisper_realtime.py:130-133 | with the cutter as written, a chunk's prefix comes from samples after it, so the chunk is not a window of the stream |
| Chunker.Flush | tk_whisper_realtime.py:145-158 | flush emits iff more than int(0.8·sr) samples remain; it then empties the buffer, continues the time stamps, and the prefix is all zeros |
| Chunker.Take | step3.py:265-269 | taking from the queue returns its oldest chunk iff it is non-empty and keeps the cutter state |
| Devices.Round | step3.py:77 | `round` on the default rate is within one half and breaks ties to even |
| Devices.Candidates | step3.py:75-78 | the candidates are the rounded default, when there is one, followed by 48000, 44100, 32000 and 16000 |
| Devices.KeepFirstSound | step3.py:80-84 | de-duplication gives a list without repeats holding exactly the candidates |
| Devices.KeepFirstHead | step3.py:80-84 | the first candidate stays first |
| Devices.Dedup | step3.py:80-84 | the seen-set loop computes the order-preserving de-duplication |
| Devices.Without | step3.py:80-84 | removing a value keeps exactly the other elements |
| Devices.KeepFirstSnoc | step3.py:81-84 | a later candidate is appended iff it was not seen before |
| Devices.KeepFirstFront | step3.py:80-84 | de-duplicating a value in front of a repeat-free list keeps the value first and drops its later copy |
| Devices.SampleRatesShape | step3.py:75-84 | the rate list is the standard rates, or the rounded default followed by the standard rates other than it |
| Devices.SampleRatesDistinct | chank3.py:50-59 | every rate is tried once, every standard rate is tried, and nothing but the default is added |
| Devices.KeepFirstLength | step3.py:80-84 | de-duplication never lengthens the list |
| Devices.FirstOpen | step3.py:85-88 | a chosen rate is a candidate that opens |
| Devices.FirstOpenIsFirst | step3.py:85-88 | no rate is chosen iff none opens, and a chosen rate is preceded only by rates that fail |
| Devices.FirstUsableIsFirst | step3.py:74-88 | the device found can open one of its rates and every earlier device cannot |
| Devices.Search | step3.py:73-89 | `AutoPick` is `Search` over the standard rate lists; for any per-device rate lists, the pick is the first usable device at its first opening rate with the `[i] name @ sr Hz` message, or the failure message when no device is usable |
| Devices.SearchFails | step3.py:73-89 | the search fails iff no device opens at any of its rates |
| Devices.SearchNothingEarlier | step3.py:85-89 | every device before the one picked was tried at every one of its rates and none opened |
| Jobs.Fresh | step3.py:156-158 | a new client has no last chunk, no auto-sent start and no jobs |
| Jobs.Receive | step3.py:270-274 | a chunk always becomes the last chunk, and it is queued iff auto-send is on, its time stamp start/sr differs from the recorded one and fewer than 4 jobs wait; only then is that time stamp recorded |
| Jobs.SendLast | step3.py:340-346 | "send last" refuses with no chunk, refuses with 6 or more jobs, and otherwise queues exactly that chunk |
| Jobs.SendMessage | step3.py:341-345 | a refusal carries a message and a queued job does not |
| Jobs.TakeJob | step3.py:297 | the worker takes the oldest job iff one is waiting |
| Jobs.Stop | step3.py:276-280 | stop flushes, drains the queue into the last chunk, and leaves jobs and the auto-send record alone |
| Jobs.SentBy | step3.py:271-274 | only an arriving chunk is auto-sent, under its own time stamp |
| Jobs.AutoSentNoRepeat | step3.py:271-274 | over any run, no two consecutive auto-sent chunks share a time stamp, and the record is the last time stamp sent |
| Jobs.StepBounded | step3.py:271-274 | one event never pushes the job queue past the refusal limit |
| Jobs.RunBounded | step3.py:340-346 | any run keeps the job queue within the refusal limit |
| Jobs.ClientsBounded | chank3.py:282-289 | from a fresh start the remote client never queues more than 6 jobs and the local client more than 5 |
| Jobs.Restart | step3.py:239-247 | restarting live keeps the auto-send record and the queued jobs, and starts a new empty chunker counting samples from 0 |
| Jobs.RestartSkipsFirstChunk | step3.py:247-274 | when the last auto-sent time stamp was 0 s, the first chunk the restarted chunker cuts starts at 0 and is not auto-sent, whatever the queue |
| Jobs.RestartAtOtherRate | step3.py:271-274 | the record is in seconds: after auto-sending sample 48000 at 16000 Hz, a restart at 48000 Hz refuses the chunk at sample 144000, also 3 s |
| Jobs.RestartFresh | step3.py:158 | the corrected restart clears the auto-send record and builds the same new chunker |
| Jobs.RestartFreshSendsFirst | step3.py:247-274 | after the corrected restart the first chunk the new chunker cuts is auto-sent whenever the queue has room |
| Jobs.Settle | step3.py:328-329 | the shown text is the stripped text, or "(no speech detected)" when that is blank; never empty and trimmed |
| Jobs.SettleIdempotent | step3.py:328-329 | settling a settled text changes nothing |
| Jobs.SegmentTexts | step3.py:328 | a segment without text contributes "", and the join fails iff some segment text is not a string |
| Jobs.ReplyRaw | step3.py:328 | a non-empty "text" string wins, a falsy one falls back to the segment texts joined by single spaces, and reading fails iff "text" is a truthy non-string or the fallback meets a non-string segment text |
| Jobs.TextFieldWins | step3.py:328-329 | with a non-empty text field the segments, even malformed ones, do not matter |
| Jobs.RemoteShownOk | step3.py:326-336 | `RemoteShown` (the worker's remote branch): a successful reply shows the error line when its body cannot be read, otherwise its stripped raw text, and "(no speech detected)" iff that text is blank or is that very phrase |
| Jobs.NullSegmentShowsError | step3.py:326-336 | a segment whose text is JSON null shows the error line, where a missing text shows the placeholder |
| Jobs.LocalShown | chank3.py:270-275 | the local worker always shows a non-empty trimmed line |
| Jobs.LocalShownCases | chank3.py:272-275 | it shows the stripped concatenated segments, "(no speech detected)" when they are blank, and "(error: …)" on an exception |
| Convert.Header | convert_server.py:70-71 | the command starts with the fixed seven-element header ending in the input path |
| Convert.CodecOpts | convert_server.py:79-101 | a codec is chosen iff the format is one of the six allowed |
| Convert.BuildCmd | convert_server.py:69-104 | a command is built iff the format is allowed, with the fixed header first and the output path last, and otherwise the 400 detail names the format |
| Convert.CodecReadsBack | convert_server.py:79-99 | the codec is the one fixed per format, and a bit-rate appears only for lossy formats with a non-empty `ab` |
| Convert.OptsLookup | convert_server.py:73-99 | `-ar` and `-ac` appear iff their values are truthy, and the codec options read back as above |
| Convert.BuildCmdReadsBack | convert_server.py:69-104 | reading the built command back yields exactly the intended settings |
| Convert.ReadCmdOf | convert_server.py:71-103 | the reader recovers the input, output and options of any command of that shape |
| Convert.Validate | convert_server.py:116-122 | 415 iff the upload names a non-empty extension outside the allowed set, otherwise 400 for an unknown lower-cased format, otherwise accepted |
| Convert.TempSuffix | convert_server.py:46-48 | the temporary suffix always starts with a dot |
| Convert.ValidatedSuffix | convert_server.py:46-48 | for an accepted upload the suffix is an allowed extension or ".bin" |
| Convert.MediaType | convert_server.py:165-173 | the media type is specific iff the lower-cased format is allowed, and application/octet-stream otherwise |
| Convert.DownloadNameSplits | convert_server.py:157-162 | `DownloadName`: the download name splits back into its base and "." + the lower-cased format |
| Convert.FormatExtension | convert_server.py:157-162 | every allowed format makes a one-dot extension |
| Convert.Prefix | convert_server.py:137 | `[:500]` keeps a short text whole and exactly the first 500 characters of a longer one |
| Convert.Convert | convert_server.py:116-173 | validation errors pass through, an unknown raw format gets the builder's 400, a spawn failure escapes as an exception (500) and only then, a time-out gets 504 and only then, a failed run 400 with at most 500 characters of stderr; a stream, under the derived name and media type, iff the upload is valid, the raw format allowed and ffmpeg exits 0 |
| Convert.DefaultRequestConverts | convert_server.py:107-114 | with only the upload given, the query defaults make a 16000 Hz mono libmp3lame 64k command writing to `JoinPath(tmpDir, hex + ".mp3")` (`os.path.join`) and an audio/mpeg reply |
| Convert.UpperCaseFormatRejected | convert_server.py:121-130 | "MP3" passes validation and then fails in the builder with 400 |
| Convert.ConvertFixed | convert_server.py:121-139 | with the builder given the lower-cased format, a stream is returned iff the upload is valid and ffmpeg exits 0 |
| Convert.ConvertFixedBuilds | convert_server.py:125-130 | a valid request builds the command for the saved input and the lower-cased output path, with the mapped media type |
| Convert.ConvertFixedAgrees | convert_server.py:121-130 | for a lower-case format the corrected handler answers exactly like the one as written |

## Left out

- Speech engine: the Whisper model is an uninterpreted function of the decode request (audio,
  language and the fixed options). How it produces segments is not modelled.
- ffmpeg and threads: the subprocess, the reader thread, `Popen`/`wait`/`join` timeouts, locks,
  `queue.Queue` blocking waits and the asyncio semaphore are not modelled. Their outcomes (spawn
  failure, write failure, exit code and stderr, time-out, the bytes the process produces) are
  arguments.
- Recording duration: `_duration_sec` reads the WAV header. The model takes the duration as the
  recorded frame count over 16000.
- Hidden parts of `rt_stop` (Web/routes/realtime.py:141): the session lookup and stop flag are not
  shown in the source, so only the finalize part is modelled.
- Floating point: times in seconds and `round` are exact reals, `int(0.8*sr)` is `4*sr/5`, and
  chunk times are integer sample counts. The RMS/peak energy gate and the level meter are replaced by
  an optional silence message.
- GUI and devices: Tkinter, `sounddevice`, `soundfile`, `LiveRecorder`, message boxes and the
  "Queued chunk" status line. `try_open` is a predicate.
- Server URL, debug chunk files and the language form field of the remote POST are I/O.
- Upload I/O: `_save_to_temp` is modelled only for its suffix choice. The temporary path is an
  argument, and so are the system temp directory and the random hex name.
- Content-Disposition header and the streamed body of the conversion reply are transport.
- Unrelated files: `app.py`, `app_gpu.py`, `Whisper_Server.py`, `Web/app.py`, `Web/config.py`, the
  remaining blueprints, `henkan.py`, `test_voicevox.py`, `tk_whisper_app.py` and the benchmarks.
- Text.Lower: lower-cases ASCII letters only. Python's `str.lower` is Unicode-aware, which matters
  only for non-ASCII media types, extensions or formats.
- Chunker.Column: a frame with zero channels is reported as `None`, standing for the failure of
  the source's concatenation. The kind of that error is not modelled.
- Chunker.Cut: the contract states the remainder bound, coverage and contiguity, but not the
  position of every as-written chunk's prefix in the stream. That position is out of order (see
  Findings), and the corrected cutter's positions are stated by Chunker.WindowCutIsWindows.
- Chunker.Feed: requires a positive chunk length; with a zero chunk length the source loops forever.
- Convert.ReadCmd: reads options from the command without checking that they come in pairs. It is a
  reference reader for the builder's output, not a general argv parser.
- Jobs.Stop: leaves the job list as it is. The worker thread keeps draining it independently, which
  is concurrency.
- Jobs.Receive: the recorded time stamp `start / sr` is an exact rational. Python divides in
  floating point, which gives equal stamps for equal ratios as well, but for very large sample
  counts could also merge two stamps that differ.
- Realtime.Finalize: `drained` stands for the blocks the reader delivers before `close` returns. The
  1-second join time-out can cut that short, which is timing and not modelled.
- Jobs.ReplyRaw: the body is taken to be a JSON object whose `segments` is a list of objects. Any
  other shape raises in the source, before or inside the join.
- Jobs.RemoteShown: the message of the exception raised by a malformed body is an argument, not
  Python's text.
- Text.SplitExt: follows POSIX path rules (`posixpath`), as on the Linux server. Windows clients
  would also split at `\\`. The same goes for Text.Basename.
- Realtime.Decode: engine exceptions are one error outcome. The kind of exception and the log line
  are not modelled.

## Findings

| source | as written | input that shows it | evidently intended | confidence | as-written member | corrected member |
|---|---|---|---|---|---|---|
| tk_whisper_realtime.py:130-133 | the overlap prefix of each chunk is taken from the samples that remain after the chunk and is placed in front of it | chunk_n 2, overlap_n 1, stream 1,2,3,4: the first chunk is 3,1,2 | the prefix is the last overlap_n samples before the chunk, giving 0,1,2 | not executed | Chunker.LookaheadPrefix | Chunker.WindowCutIsWindows |
| convert_server.py:121-130 | validation lower-cases `fmt`, but the builder compares it as given | fmt "MP3" | "MP3" converts like "mp3", as the download name and media type already assume | not executed | Convert.UpperCaseFormatRejected | Convert.ConvertFixedBuilds |
| step3.py:271-274 | `_last_auto_sent_s` survives stop and start while the new chunker restarts its time stamps at 0 | stop after auto-sending the chunk at 0, start again: the new first chunk at 0 is not auto-sent | a fresh live run auto-sends its first chunk | not executed | Jobs.RestartSkipsFirstChunk | Jobs.RestartFreshSendsFirst |
