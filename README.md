# ConvertToMp3: a Dafny model of the conversion core

ConvertToMp3 is a desktop tool that batch-converts dropped audio and video
files with an external transcoder (FFmpeg). This project models its core
and proves properties of that model:

- the transcoder wrapper: the argument vectors built for audio and video
  targets, the default output name, how a conversion run ends, and the
  parser that reads media information from the transcoder's diagnostic
  text (`FFmpeg`, `ffmpeg_wrapper.dfy`);
- the file handler: input validation, the collision-free output name and
  the removal of temporary files (`FileHandling`, `file_handler.dfy`);
- the controller's batch loop, with its per-file error isolation and its
  progress calls (`Controller`, `converter_controller.dfy`);
- the tokenizer that cuts a drag-and-drop string into paths
  (`DragDrop`, `drop_tokenizer.dfy`).

Supporting modules: `Wrappers` (Option, Result), `PyStrings` (the Python
string operations the code relies on: `in`, `split(sep)`, `split()`,
`strip()`, `lower()`, `str(int)`) and `OsPath` (POSIX `splitext`,
`basename`, `dirname`, `join`, and the disk as a `FileSystem` object holding
the set of existing paths).

Each imperative routine of the source is a method with the same loop or
the same sequence of appends, proved equal to a specification function.
The properties are proved about those functions, as lemmas and as their
`ensures`. The outside world enters as parameters:

- the transcoder process is an oracle `Transcoder` from an argument vector
  to a return code with the error stream and whether a file was left at the
  output path, or to an exception from the run (the process could not be
  started, or its error stream could not be decoded as text after it
  exited), again with whether a file was left;
- the disk is a `FileSystem`. Existence is membership. A finished
  conversion adds its output. A failed run adds a partial output when the
  oracle says it left one, and nothing removes it. A removal may fail for
  paths in its `undeletable` set;
- `os.path.normpath` is a function value held by the file handler;
- the configuration's `max_files` and per-format settings are maps given
  to the constructors;
- the progress callback is a flag saying whether one is set, and the
  `events` log of the calls it received. Each call is a kind, a numerator
  and a denominator; its percentage is `Percent`, an exact `real`.

Behaviour of the code worth noting:

- Failed files: a file that fails gets only its "processing" call, plus
  the video notice if the probe succeeded. It gets no completion call.
- Video inputs: a video input gets one extra call, at the same value as its
  start.
- Progress values never decrease, and they may repeat: a file's start value
  equals the previous file's completion value.
- Partial outputs: the transcoder runs with `-y`, so it creates the output
  before it encodes. A failed run can leave a partial file there, and the
  controller never removes it. The run reads the error stream as text, so
  an error stream that cannot be decoded raises after the transcoder has
  exited: the file then counts as failed although its output is complete. A later file with the same stem then gets the
  next free name, `stem_converted_1.fmt`.
- Quality presets: only `high_compression` and `medium_compression` have
  their own tuning. `ultra_compression`, `hell_compression` and every other
  name get the default tuning.
- Bitrate: the field is read only when the text contains `bitrate: `. It is
  the first whitespace-separated word of the whole text that contains
  `kb/s`. For the usual layout `bitrate: 320 kb/s` that word is the unit
  alone (`BitrateOfUsualLayout`).
- Overwriting: every conversion overwrites its output (`-y`). The format
  panel has an overwrite checkbox (src/ui/components.py:203-210, 260-272),
  but its value never reaches the controller or the wrapper.
- Video extensions: `.mov` counts as a video extension when probing, but it
  is not an accepted input format.

## Model

| member | source | states |
|---|---|---|
| FFmpeg.DefaultOutputPath | src/services/ffmpeg_wrapper.py:53-55 | the default output name: the input without its extension, then `_converted.` and the format (facts: `DefaultOutputPathProperties`) |
| FFmpeg.DefaultOutputPathProperties | src/services/ffmpeg_wrapper.py:53-55 | without an output path, the output is the input minus its extension followed by `_converted.` and the format: never the input itself, for every format; in the same directory; with the format as its extension when the format holds no dot or slash |
| FFmpeg.AudioArgv | src/services/ffmpeg_wrapper.py:65-92 | the audio argument vector (facts: `AudioArgvShape`, `AudioArgvFormatFlags`) |
| FFmpeg.AudioArgvShape | src/services/ffmpeg_wrapper.py:65-92 | an audio argument vector starts with the executable, `-i`, the input, `-vn`, `-y`, ends with the output path, and has `-y` exactly once (at index 4) when no caller string is `-y` |
| FFmpeg.AudioArgvFormatFlags | src/services/ffmpeg_wrapper.py:78-92 | mp3 adds the LAME encoder with bitrate, sample rate and channels from the settings or 192k/44100/2; wav adds the PCM encoder with sample rate and channels and no bitrate; any other format adds nothing between `-y` and the output |
| FFmpeg.VideoArgv | src/services/ffmpeg_wrapper.py:141-180 | the video argument vector (facts: `VideoArgvShape`, `VideoArgvKeepsVideo`, `VideoArgvOverwritesOnce`) |
| FFmpeg.PresetTuning | src/services/ffmpeg_wrapper.py:155-177 | the preset table (facts: `PresetOutcomes`) |
| FFmpeg.VideoArgvShape | src/services/ffmpeg_wrapper.py:141-180 | a video argument vector starts with the executable, `-i`, the input, `-y`, ends with the output; for mp4 `-c:v libx264 -c:a aac` come next, then the preset's tuning; any other format has no codec flags |
| FFmpeg.VideoArgvKeepsVideo | src/services/ffmpeg_wrapper.py:141-152 | a video argument vector never contains `-vn` when no caller string (executable, input, output) is `-vn` |
| FFmpeg.VideoArgvOverwritesOnce | src/services/ffmpeg_wrapper.py:141-145 | `-y` occurs exactly once in a video argument vector when no caller string (executable, input, output) is `-y` |
| FFmpeg.PresetOutcomes | src/services/ffmpeg_wrapper.py:155-177 | the three tunings of the preset table; every other name, the UI's ultra and hell presets included, gets the default, with no video bitrate cap and no scaling |
| FFmpeg.RunConversion | src/services/ffmpeg_wrapper.py:96-108 | a conversion succeeds exactly when the input exists and the transcoder exits with 0; it then returns the output path, which now exists; a failed run leaves the disk as it was, except for a file the transcoder left at the output path before a non-zero exit or an exception (a complete one when only decoding its error stream raised); a missing input fails with "not found" |
| FFmpeg.AudioConversion | src/services/ffmpeg_wrapper.py:41-112 | `convert_audio` as a value: the audio vector for the given or default output, run as `RunConversion` says |
| FFmpeg.VideoConversion | src/services/ffmpeg_wrapper.py:114-200 | `convert_video` as a value: the video vector with the preset, run as `RunConversion` says |
| PyStrings.ContainsIff | src/services/ffmpeg_wrapper.py:237-239 | Python's `t in s`, as the parser uses it, holds exactly when `t` occurs at some position of `s` |
| FFmpeg.AudioLine | src/services/ffmpeg_wrapper.py:237-240 | the audio line is the first line of the text (split at `\n`) that mentions `Audio: `, and there is none exactly when no line mentions it (facts: `AudioLineExists`) |
| FFmpeg.FormatField | src/services/ffmpeg_wrapper.py:242-246 | the codec field (facts: `FormatFieldFacts`, `FieldsAreDetermined`) |
| FFmpeg.SampleRateField | src/services/ffmpeg_wrapper.py:248-254 | the sample-rate field (facts: `SampleRateFacts`) |
| FFmpeg.ChannelsField | src/services/ffmpeg_wrapper.py:258-269 | the channels field (facts: `ChannelsFacts`) |
| FFmpeg.DurationField | src/services/ffmpeg_wrapper.py:275-281 | the duration field (facts: `DurationFacts`, `FieldsAreDetermined`) |
| FFmpeg.BitrateField | src/services/ffmpeg_wrapper.py:285-290 | the bitrate field (facts: `BitrateFacts`, `BitrateOfUsualLayout`) |
| FFmpeg.AudioLineExists | src/services/ffmpeg_wrapper.py:237-241 | an audio line is found exactly when the text contains `Audio: ` |
| FFmpeg.NoMarkersAllUnknown | src/services/ffmpeg_wrapper.py:227-234 | text without any marker leaves every field "unknown" |
| FFmpeg.FormatFieldFacts | src/services/ffmpeg_wrapper.py:242-246 | the codec directly follows the first `Audio: ` of the audio line, holds no comma and no second `Audio: `, and ends at a comma, at a second `Audio: ` or at the end of the line (`FieldAt`) |
| FFmpeg.SampleRateFacts | src/services/ffmpeg_wrapper.py:248-254 | the sample rate is the last run of non-space characters before the first `Hz` of the audio line, and "unknown" if there is none |
| FFmpeg.ChannelsFacts | src/services/ffmpeg_wrapper.py:258-269 | "2" for stereo, else "1" for mono, else (when `channels` occurs) a word is found: the first word of the `, `-part mentioning a channel that no earlier part precedes in mentioning one, else "unknown" |
| FFmpeg.DurationFacts | src/services/ffmpeg_wrapper.py:275-281 | the duration is `Strip(g)` for the text `g` directly behind the first `Duration: ` that holds no comma and no second marker and ends at a comma, a second marker or the end (`FieldAt`); it occurs in the text, holds no comma and has no surrounding whitespace; "unknown" without the marker |
| FFmpeg.FieldsAreDetermined | src/services/ffmpeg_wrapper.py:242-246 | only one text has the shape `FieldAt` gives the codec, and only one the shape it gives the duration, so the two lemmas above pin both fields down |
| FFmpeg.BitrateFacts | src/services/ffmpeg_wrapper.py:285-290 | with a `bitrate: ` marker the bitrate is the first whitespace-separated word of the whole text containing `kb/s`; otherwise "unknown" |
| FFmpeg.BitrateOfUsualLayout | src/services/ffmpeg_wrapper.py:285-290 | for `bitrate: <rate> kb/s` the field is the unit `kb/s`, not the rate |
| FFmpeg.ProbeOutcome | src/services/ffmpeg_wrapper.py:202-234 | probing raises exactly for a missing file; otherwise `is_video` is the extension test, and a probe that cannot be run leaves every field "unknown" |
| FFmpeg.ParseDiagnostics | src/services/ffmpeg_wrapper.py:227-295 | the step-by-step parse equals the field functions, and each absent marker leaves its fields "unknown" |
| FFmpeg.ParseAudioStream | src/services/ffmpeg_wrapper.py:237-271 | the audio-line section computes codec, sample rate and channels as the field functions say |
| FFmpeg.ParseDuration | src/services/ffmpeg_wrapper.py:275-281 | the duration section computes the duration field |
| FFmpeg.ParseBitrate | src/services/ffmpeg_wrapper.py:285-290 | the bitrate section computes the bitrate field |
| FFmpeg.FFmpegWrapper.constructor | src/services/ffmpeg_wrapper.py:10-13 | the wrapper keeps the executable path and the format settings |
| FFmpeg.FFmpegWrapper.AudioCommand | src/services/ffmpeg_wrapper.py:65-92 | the command built by appending is the audio argument vector |
| FFmpeg.FFmpegWrapper.VideoCommand | src/services/ffmpeg_wrapper.py:141-180 | the command built by appending is the video argument vector |
| FFmpeg.FFmpegWrapper.Execute | src/services/ffmpeg_wrapper.py:96-112 | running the command ends as `RunConversion` says, on the disk too |
| FFmpeg.FFmpegWrapper.ConvertAudio | src/services/ffmpeg_wrapper.py:41-112 | `convert_audio`: missing input raises first, then the default output, then the run |
| FFmpeg.FFmpegWrapper.ConvertVideo | src/services/ffmpeg_wrapper.py:114-200 | `convert_video`: the same with the video argument vector and the preset, "normal" when none is given |
| FFmpeg.FFmpegWrapper.GetAudioInfo | src/services/ffmpeg_wrapper.py:202-308 | `get_audio_info` returns `ProbeOutcome` and leaves the disk alone |
| FileHandling.Prefix | src/services/file_handler.py:27 | Python's `xs[:n]`, a negative `n` included: a prefix of the stated length |
| FileHandling.Considered | src/services/file_handler.py:24-27 | at most `max_files` paths are looked at, all of them when there are few enough |
| FileHandling.Accepted | src/services/file_handler.py:29-51 | every kept path passes the test, and there are no more kept paths than inputs |
| FileHandling.ValidFiles | src/services/file_handler.py:19-61 | `validate_files` returns at most `max_files` paths, each existing and with a supported extension |
| FileHandling.AcceptedIsSubsequence | src/services/file_handler.py:29-51 | the accepted paths are the normalised inputs with some left out, in input order |
| FileHandling.AcceptedMembers | src/services/file_handler.py:29-58 | a path is accepted exactly when it is acceptable and some considered input normalises to it: rejecting one never stops the later ones |
| FileHandling.ValidFilesFromFirst | src/services/file_handler.py:24-33 | the result is an ordered subsequence of the normalised first `max_files` inputs |
| FileHandling.CandidateInjective | src/services/file_handler.py:69-76 | different counters give different candidate names |
| FileHandling.FirstFree | src/services/file_handler.py:73-77 | the probe loop stops within `|files| + 1` names, at a free name, with every earlier name taken |
| FileHandling.FirstFreeIsLeast | src/services/file_handler.py:73-79 | the name chosen is the least free one |
| FileHandling.ResolvedOutputPath | src/services/file_handler.py:63-79 | the output name does not exist; it is `stem_converted.fmt` when that is free, else `stem_converted_k.fmt` with every earlier name taken |
| FileHandling.CandidateExtension | src/services/file_handler.py:69-76 | every candidate name has the target format as its extension |
| FileHandling.AfterCleanup | src/services/file_handler.py:86-97 | afterwards no listed removable path exists, unlisted paths stay, and a failed removal leaves only that path |
| FileHandling.FileHandler.constructor | src/services/file_handler.py:9-16 | `max_files` comes from the settings, 20 by default; the nine supported formats, without mov |
| FileHandling.FileHandler.ValidateFiles | src/services/file_handler.py:19-61 | the truncate-then-filter loop computes `ValidFiles` |
| FileHandling.FileHandler.GetOutputPath | src/services/file_handler.py:63-84 | the probe loop computes `ResolvedOutputPath` and only reads the disk |
| FileHandling.FileHandler.CleanupTempFiles | src/services/file_handler.py:86-97 | the removal loop leaves the disk `AfterCleanup` says |
| Controller.Status | src/controllers/converter_controller.py:57-76 | a result's status is "success" exactly when it is a conversion record |
| Controller.Notice | src/controllers/converter_controller.py:40-45 | one notice exactly for a video input with a callback, at `(i-1)/n`, "converting" for mp4 and "extracting" otherwise |
| Controller.ProcessFile | src/controllers/converter_controller.py:31-78 | one file: its result names it, and a success records the target format |
| Controller.ProcessFileDisk | src/controllers/converter_controller.py:48-64 | a converted file adds its output to the disk; a failed one adds at most a partial file at its output name |
| Controller.ProcessFileEvents | src/controllers/converter_controller.py:33-69 | a file's calls: none without a callback; else the start at `(i-1)/n` first, a notice for a probed video, and the completion at `i/n` last exactly when it converted |
| Controller.Run | src/controllers/converter_controller.py:26-80 | the loop gives exactly one result per file |
| Controller.RunResults | src/controllers/converter_controller.py:30-78 | the results are in the order of the files, each naming its file, and the disk only grows |
| Controller.RunEvents | src/controllers/converter_controller.py:33-69 | all progress values are out of `n`, at most the number of files done, and never decrease |
| Controller.RunQuiet | src/controllers/converter_controller.py:28-35 | without a callback there are no calls; an empty batch has no results and no calls |
| Controller.RunPercents | src/controllers/converter_controller.py:34-68 | every call has a non-zero denominator and a percentage in [0, 100] |
| Controller.RunPercentsNonDecreasing | src/controllers/converter_controller.py:34-68 | all calls of a batch share one non-zero denominator, and no call reports a smaller percentage than one before it |
| Controller.RunResultAt | src/controllers/converter_controller.py:30-78 | each result is the outcome of its file on the disk the earlier files left: an error never stops the files after it |
| Controller.RunEventCounts | src/controllers/converter_controller.py:33-69 | with a callback, one start per file and one completion per success |
| Controller.FileEventCounts | src/controllers/converter_controller.py:33-69 | one file's calls hold one start, and a completion exactly when it converted |
| Controller.PercentBounds | src/controllers/converter_controller.py:34 | `done <= total` gives a percentage in [0, 100] |
| Controller.PercentMonotone | src/controllers/converter_controller.py:34-68 | for one total, more files done is never less progress |
| Controller.RunStep | src/controllers/converter_controller.py:30-78 | one more iteration extends the loop's state by the next file's outcome |
| Controller.Convert | src/controllers/converter_controller.py:50-54 | mp4 runs the video command with the preset, any other format the audio command; success exactly when the input exists and the transcoder exits with 0, adding the output; a failure, by a non-zero exit or an exception from the run, adds only the file the run left at the output name (`Leftover`) |
| Controller.Command | src/controllers/converter_controller.py:50-54 | the command a file is converted with: `VideoArgv` with the preset for mp4, `AudioArgv` with the format's settings otherwise (facts: the argument-vector lemmas above) |
| Controller.ProcessFileOutcome | src/controllers/converter_controller.py:38-64 | with the real services a file converts exactly when it exists and its command exits with 0; its output is a name that did not exist; a missing input fails with "not found"; a failed file leaves the disk as it was, except for the file its run left at that name before a non-zero exit or an exception |
| Controller.ConverterController.constructor | src/controllers/converter_controller.py:10-14 | no callback, the "normal" preset, no calls yet |
| Controller.ConverterController.SetProgressCallback | src/controllers/converter_controller.py:16-18 | a callback is set and nothing else changes |
| Controller.ConverterController.SetQualityPreset | src/controllers/converter_controller.py:20-22 | the preset is replaced and nothing else changes |
| Controller.ConverterController.ConvertFiles | src/controllers/converter_controller.py:24-80 | validates, then leaves the results, the callback's calls and the disk that `Run` gives on the valid files |
| Controller.ConverterController.ProcessAll | src/controllers/converter_controller.py:28-80 | the enumerated loop over the valid files computes `Run` |
| Controller.ConverterController.ConvertOne | src/controllers/converter_controller.py:31-78 | the `try` block for one file computes `ProcessFile` |
| Controller.ConverterController.ConvertProbed | src/controllers/converter_controller.py:40-69 | after a successful probe, the notice, conversion and completion call compute the rest of `ProcessFile` |
| Controller.ConverterController.AnnounceVideo | src/controllers/converter_controller.py:40-45 | the calls so far, followed by exactly the video notice `Notice` gives for the batch's callback and format |
| Controller.ConverterController.ConvertNamed | src/controllers/converter_controller.py:47-54 | naming then converting gives the services' answer and its disk |
| Controller.ConverterController.ConvertTo | src/controllers/converter_controller.py:50-54 | the dispatch on the format computes `Convert` |
| DragDrop.Scan | src/ui/components.py:46-63 | the paths the character loop emits from a given state (facts: `ScanClean`, `ScanConcat`) |
| DragDrop.Tokens | src/ui/components.py:42-64 | the paths of a whole drop string (facts: the `Tokens` lemmas below) |
| DragDrop.ParseDropData | src/ui/components.py:42-63 | the character loop and the final flush compute `Tokens` |
| DragDrop.TokensClean | src/ui/components.py:47-63 | no path is empty and none contains a brace |
| DragDrop.TokensConcat | src/ui/components.py:46-63 | the paths run together are the input without its braces and without the whitespace outside braces |
| DragDrop.BareToken | src/ui/components.py:59-63 | a non-empty input without braces or whitespace is one path, the input |
| DragDrop.BareWords | src/ui/components.py:55-60 | whitespace outside braces ends the current path |
| DragDrop.BracedToken | src/ui/components.py:47-54 | inside braces whitespace is kept within one path, which the closing brace ends |
| DragDrop.BracedRoundTrip | src/ui/components.py:46-63 | paths without braces written one per brace pair, one space apart, read back as the same list |

## Left out

- Process execution: running the transcoder (`subprocess.run`) is the oracle `Transcoder`. The return code, the error stream, an exception from the run, and whether a file was left at the output path are its answers.
- FFmpeg.RunConversion: a run that exits with 0 is taken to have written its output, and a probe run (no output path) is taken to write nothing.
- `_verify_ffmpeg` (src/services/ffmpeg_wrapper.py:16-39) is not part of this model: it only checks the executable at start-up by running it.
- Logging and `print` output: they are side effects with no bearing on results.
- Configuration loading (src/utils/config_loader.py) is not part of this model. Its values are constructor parameters.
- `os.path.normpath` is a function value supplied from outside; its rules are not modelled. The `normpath` the drop handler applies after tokenizing (src/ui/components.py:69) is left out with it.
- Paths use POSIX semantics: '/' is the only separator. `lower()` maps ASCII letters only.
- The user interface, threading and the callback's message texts are left out. A progress call is kept as its kind and its fraction; a callback that raises is not modelled.
- ExtendResults, RunResultEarlier and the other unlisted lemmas are steps of the listed proofs.
- The `except` branch of `validate_files` (src/services/file_handler.py:55-58) cannot be reached in the model, because nothing in its `try` block raises there.
- The `except` branch of `get_audio_info` (src/services/ffmpeg_wrapper.py:297-308) is reached when running the probe raises: the process could not be started, or its error stream could not be decoded as text. In the model that is `Raised`, which gives the same "unknown" record. An exception from the parsing code itself cannot happen, because every index it takes is guarded.
- FFmpeg.RunConversion: the exception message texts are kept as the error stream, not as formatted strings.
- Controller.ProcessFile: a raised exception is kept as a `ConversionError` value, not as its `str(e)` text.
