/** The wrapper around the external transcoder: the argument vectors it
    builds for converting audio and video, the default output name, the
    conversion run itself, and the parser that turns the transcoder's
    diagnostic text into media information.

    The transcoder is an oracle: `Transcoder` maps an argument vector to
    how the process ended (its return code, its error stream and whether a
    file was left at the output path, or an exception from the run). */
module FFmpeg {
  import opened Wrappers
  import opened PyStrings
  import opened OsPath

  /** Input extensions treated as video files. */
  const VideoExtensions: set<string> := {"mp4", "mkv", "mov"}

  predicate IsVideoPath(path: string) {
    Extension(path) in VideoExtensions
  }

  /** The information dictionary `get_audio_info` returns. */
  datatype MediaInfo = MediaInfo(
    format: string,
    duration: string,
    bitrate: string,
    channels: string,
    sampleRate: string,
    isVideo: bool)

  function UnknownInfo(isVideo: bool): MediaInfo {
    MediaInfo("unknown", "unknown", "unknown", "unknown", "unknown", isVideo)
  }

  /** How one run of the transcoder process ended. With `-y` the transcoder
      creates its output before it encodes, so a run that fails may still
      leave a partial file behind: `leftOutput` says whether it did. A run
      that exits with 0 has written its output. `Raised` is a run that
      raised instead of returning: the process could not be started, or
      its error stream could not be decoded as text after it had exited,
      in which case the output may already be complete. */
  datatype ToolRun =
    | Exited(returnCode: int, stderr: string, leftOutput: bool)
    | Raised(reason: string, leftOutput: bool)

  type Transcoder = seq<string> -> ToolRun

  /** The exceptions the wrapper raises. */
  datatype ConversionError =
    | InputNotFound(path: string)                 // FileNotFoundError before any work
    | TranscoderFailed(video: bool, stderr: string)  // RuntimeError on a non-zero return code
    | RunRaised(reason: string)                   // running the process raised

  /** `settings.get(key, default)`. */
  function Setting(settings: map<string, string>, key: string, default: string): string {
    if key in settings then settings[key] else default
  }

  /** The configuration's per-format settings, empty for a format it lacks. */
  function FormatSettings(config: map<string, map<string, string>>, format: string): map<string, string> {
    if format in config then config[format] else map[]
  }

  // ----------------------------------------------------------------------
  // Output naming

  /** The output path used when the caller gives none: the input path
      without its extension, then `_converted.` and the target format. */
  function DefaultOutputPath(inputPath: string, outputFormat: string): string {
    SplitExt(inputPath).0 + "_converted." + outputFormat
  }

  /** The default output never coincides with the input and keeps the
      input's directory and name; a format without a dot or a slash is its
      extension. */
  lemma DefaultOutputPathProperties(inputPath: string, outputFormat: string)
    ensures DefaultOutputPath(inputPath, outputFormat) != inputPath
    ensures SplitExt(inputPath).0 <= DefaultOutputPath(inputPath, outputFormat)
    ensures '.' !in outputFormat && '/' !in outputFormat ==>
              Extension(DefaultOutputPath(inputPath, outputFormat)) == Lower(outputFormat)
  {
    DefaultOutputDiffers(inputPath, outputFormat);
    if '.' !in outputFormat && '/' !in outputFormat {
      DefaultOutputExtension(inputPath, outputFormat);
    }
  }

  lemma DefaultOutputDiffers(inputPath: string, outputFormat: string)
    ensures DefaultOutputPath(inputPath, outputFormat) != inputPath
    ensures SplitExt(inputPath).0 <= DefaultOutputPath(inputPath, outputFormat)
  {
    var (root, ext) := SplitExt(inputPath);
    var tail := "_converted." + outputFormat;
    assert DefaultOutputPath(inputPath, outputFormat) == root + tail;
    OtherSuffixDiffers(root, ext, tail);
  }

  lemma DefaultOutputExtension(inputPath: string, outputFormat: string)
    requires '.' !in outputFormat && '/' !in outputFormat
    ensures Extension(DefaultOutputPath(inputPath, outputFormat)) == Lower(outputFormat)
  {
    var root := SplitExt(inputPath).0;
    ExtensionOfTarget(root + "_converted", outputFormat);
    ConvertedDot(root, outputFormat);
  }

  lemma ConvertedDot(root: string, outputFormat: string)
    ensures root + "_converted" + "." + outputFormat == root + "_converted." + outputFormat
  {
    assert "_converted" + "." == "_converted.";
    assert root + "_converted" + "." == root + ("_converted" + ".");
  }

  /** A suffix starting with '_' never gives the same string as an empty
      suffix or one starting with '.'. */
  lemma OtherSuffixDiffers(root: string, ext: string, tail: string)
    requires ext == [] || ext[0] == '.'
    requires tail != [] && tail[0] == '_'
    ensures root + tail != root + ext
  {
    if ext == [] {
      assert |root + tail| > |root + ext|;
    } else {
      assert (root + tail)[|root|] != (root + ext)[|root|];
    }
  }

  // ----------------------------------------------------------------------
  // Argument vectors

  /** Codec flags for an audio target: MP3 and WAV each have their own;
      any other format adds none. Missing settings fall back to 192k,
      44100 Hz and two channels. */
  function AudioCodecFlags(outputFormat: string, settings: map<string, string>): seq<string> {
    if outputFormat == "mp3" then
      ["-acodec", "libmp3lame",
       "-b:a", Setting(settings, "bitrate", "192k"),
       "-ar", Setting(settings, "sample_rate", "44100"),
       "-ac", Setting(settings, "channels", "2")]
    else if outputFormat == "wav" then
      ["-acodec", "pcm_s16le",
       "-ar", Setting(settings, "sample_rate", "44100"),
       "-ac", Setting(settings, "channels", "2")]
    else
      []
  }

  function AudioArgv(ffmpegPath: string, inputPath: string, outputFormat: string,
                     outputPath: string, settings: map<string, string>): seq<string>
  {
    [ffmpegPath, "-i", inputPath, "-vn", "-y"] + AudioCodecFlags(outputFormat, settings) + [outputPath]
  }

  /** The encoder tuning a quality preset selects for an MP4 target. */
  datatype Tuning = Tuning(
    crf: string,
    speed: string,
    videoBitrate: Option<string>,
    audioBitrate: string,
    scale: Option<string>)

  /** The preset table: two named presets, and one default for every other
      name. */
  function PresetTuning(preset: string): Tuning {
    if preset == "high_compression" then Tuning("28", "slow", Some("500k"), "64k", Some("scale=-2:720"))
    else if preset == "medium_compression" then Tuning("23", "medium", Some("1500k"), "128k", None)
    else Tuning("20", "medium", None, "192k", None)
  }

  function TuningFlags(t: Tuning): seq<string> {
    ["-crf", t.crf, "-preset", t.speed]
    + (if t.videoBitrate.Some? then ["-b:v", t.videoBitrate.value] else [])
    + ["-b:a", t.audioBitrate]
    + (if t.scale.Some? then ["-vf", t.scale.value] else [])
  }

  function VideoArgv(ffmpegPath: string, inputPath: string, outputFormat: string,
                     outputPath: string, preset: string): seq<string>
  {
    [ffmpegPath, "-i", inputPath, "-y"]
    + (if outputFormat == "mp4" then ["-c:v", "libx264", "-c:a", "aac"] + TuningFlags(PresetTuning(preset)) else [])
    + [outputPath]
  }

  /** None of the caller-supplied strings of an argument vector is `flag`. */
  predicate NoneIs(flag: string, ffmpegPath: string, inputPath: string, outputPath: string) {
    ffmpegPath != flag && inputPath != flag && outputPath != flag
  }

  /** Every audio argument vector starts with the executable, `-i`, the
      input, `-vn` and `-y`, and ends with the output path; `-y` occurs
      once unless a caller-supplied string is itself `-y`. */
  lemma AudioArgvShape(ffmpegPath: string, inputPath: string, outputFormat: string,
                       outputPath: string, settings: map<string, string>)
    ensures var a := AudioArgv(ffmpegPath, inputPath, outputFormat, outputPath, settings);
      && a[..5] == [ffmpegPath, "-i", inputPath, "-vn", "-y"]
      && a[|a| - 1] == outputPath
      && (NoneIs("-y", ffmpegPath, inputPath, outputPath) && "-y" !in settings.Values ==> CountOf(a, "-y") == 1)
  {
    var a := AudioArgv(ffmpegPath, inputPath, outputFormat, outputPath, settings);
    var head := [ffmpegPath, "-i", inputPath, "-vn", "-y"];
    var flags := AudioCodecFlags(outputFormat, settings);
    if NoneIs("-y", ffmpegPath, inputPath, outputPath) && "-y" !in settings.Values {
      CountOfAppend(head + flags, [outputPath], "-y");
      CountOfAppend(head, flags, "-y");
      CountOfAppend([ffmpegPath, "-i", inputPath, "-vn"], ["-y"], "-y");
      CountOfAbsent([ffmpegPath, "-i", inputPath, "-vn"], "-y");
      CountOfAbsent([outputPath], "-y");
      CountOfAbsent(flags, "-y");
      assert a == head + flags + [outputPath];
      assert head == [ffmpegPath, "-i", inputPath, "-vn"] + ["-y"];
    }
  }

  /** The codec flags between `-y` and the output path: the MP3 encoder with
      bitrate, sample rate and channels; the PCM encoder with sample rate and
      channels but no bitrate; nothing for any other format. */
  lemma AudioArgvFormatFlags(ffmpegPath: string, inputPath: string, outputFormat: string,
                             outputPath: string, settings: map<string, string>)
    ensures var a := AudioArgv(ffmpegPath, inputPath, outputFormat, outputPath, settings);
      && (outputFormat == "mp3" ==>
            a[5..|a| - 1] == ["-acodec", "libmp3lame",
                              "-b:a", if "bitrate" in settings then settings["bitrate"] else "192k",
                              "-ar", if "sample_rate" in settings then settings["sample_rate"] else "44100",
                              "-ac", if "channels" in settings then settings["channels"] else "2"])
      && (outputFormat == "wav" ==>
            a[5..|a| - 1] == ["-acodec", "pcm_s16le",
                              "-ar", if "sample_rate" in settings then settings["sample_rate"] else "44100",
                              "-ac", if "channels" in settings then settings["channels"] else "2"])
      && (outputFormat != "mp3" && outputFormat != "wav" ==> |a| == 6)
  {
    var a := AudioArgv(ffmpegPath, inputPath, outputFormat, outputPath, settings);
    assert a[5..|a| - 1] == AudioCodecFlags(outputFormat, settings);
  }

  /** The codec flags and tuning of a video argument vector. */
  function VideoCodecFlags(outputFormat: string, preset: string): seq<string> {
    if outputFormat == "mp4" then ["-c:v", "libx264", "-c:a", "aac"] + TuningFlags(PresetTuning(preset)) else []
  }

  lemma VideoArgvSplit(ffmpegPath: string, inputPath: string, outputFormat: string, outputPath: string, preset: string)
    ensures VideoArgv(ffmpegPath, inputPath, outputFormat, outputPath, preset)
         == [ffmpegPath, "-i", inputPath] + ["-y"] + VideoCodecFlags(outputFormat, preset) + [outputPath]
  {
  }

  /** No codec or tuning flag is `-y` or `-vn`. */
  lemma VideoCodecFlagsAreFixed(outputFormat: string, preset: string)
    ensures forall k :: 0 <= k < |VideoCodecFlags(outputFormat, preset)| ==>
      VideoCodecFlags(outputFormat, preset)[k] != "-y" && VideoCodecFlags(outputFormat, preset)[k] != "-vn"
  {
  }

  /** Every video argument vector starts with the executable, `-i`, the
      input and `-y`, and ends with the output path. For MP4 the H.264 and
      AAC encoders come first, then the preset's tuning; any other format
      gets no codec flags. */
  lemma VideoArgvShape(ffmpegPath: string, inputPath: string, outputFormat: string,
                       outputPath: string, preset: string)
    ensures var v := VideoArgv(ffmpegPath, inputPath, outputFormat, outputPath, preset);
      && v[..4] == [ffmpegPath, "-i", inputPath, "-y"]
      && v[|v| - 1] == outputPath
      && (outputFormat == "mp4" ==>
            v[4..8] == ["-c:v", "libx264", "-c:a", "aac"]
            && v[8..|v| - 1] == TuningFlags(PresetTuning(preset)))
      && (outputFormat != "mp4" ==> |v| == 5)
  {
    var v := VideoArgv(ffmpegPath, inputPath, outputFormat, outputPath, preset);
    VideoArgvSplit(ffmpegPath, inputPath, outputFormat, outputPath, preset);
    if outputFormat == "mp4" {
      var codecs := VideoCodecFlags(outputFormat, preset);
      var tuning := TuningFlags(PresetTuning(preset));
      assert codecs == ["-c:v", "libx264", "-c:a", "aac"] + tuning;
      assert v[4..|v| - 1] == codecs;
      assert v[4..8] == codecs[..4];
      assert v[8..|v| - 1] == codecs[4..];
    }
  }

  /** A video conversion never asks to drop the video stream. */
  lemma VideoArgvKeepsVideo(ffmpegPath: string, inputPath: string, outputFormat: string,
                            outputPath: string, preset: string)
    requires NoneIs("-vn", ffmpegPath, inputPath, outputPath)
    ensures "-vn" !in VideoArgv(ffmpegPath, inputPath, outputFormat, outputPath, preset)
  {
    var v := VideoArgv(ffmpegPath, inputPath, outputFormat, outputPath, preset);
    var codecs := VideoCodecFlags(outputFormat, preset);
    VideoArgvSplit(ffmpegPath, inputPath, outputFormat, outputPath, preset);
    VideoCodecFlagsAreFixed(outputFormat, preset);
    forall k | 0 <= k < |v| ensures v[k] != "-vn" {
      if 4 <= k < |v| - 1 {
        assert v[k] == codecs[k - 4];
      }
    }
  }

  /** The overwrite flag occurs exactly once in a video argument vector. */
  lemma VideoArgvOverwritesOnce(ffmpegPath: string, inputPath: string, outputFormat: string,
                                outputPath: string, preset: string)
    requires NoneIs("-y", ffmpegPath, inputPath, outputPath)
    ensures CountOf(VideoArgv(ffmpegPath, inputPath, outputFormat, outputPath, preset), "-y") == 1
  {
    var head := [ffmpegPath, "-i", inputPath];
    var codecs := VideoCodecFlags(outputFormat, preset);
    VideoArgvSplit(ffmpegPath, inputPath, outputFormat, outputPath, preset);
    VideoCodecFlagsAreFixed(outputFormat, preset);
    CountOfAppend(head + ["-y"] + codecs, [outputPath], "-y");
    CountOfAppend(head + ["-y"], codecs, "-y");
    CountOfAppend(head, ["-y"], "-y");
    CountOfAbsent(head, "-y");
    CountOfAbsent(codecs, "-y");
    CountOfAbsent([outputPath], "-y");
  }

  /** The preset table has three outcomes. The strongest compression sets a
      720p scale and caps both bitrates; the medium one caps both bitrates;
      every other name, the UI's `ultra_compression` and `hell_compression`
      included, gets the default tuning with an audio cap only. */
  lemma PresetOutcomes(preset: string)
    ensures preset == "high_compression" ==>
      TuningFlags(PresetTuning(preset)) == ["-crf", "28", "-preset", "slow", "-b:v", "500k", "-b:a", "64k", "-vf", "scale=-2:720"]
    ensures preset == "medium_compression" ==>
      TuningFlags(PresetTuning(preset)) == ["-crf", "23", "-preset", "medium", "-b:v", "1500k", "-b:a", "128k"]
    ensures preset != "high_compression" && preset != "medium_compression" ==>
      && TuningFlags(PresetTuning(preset)) == ["-crf", "20", "-preset", "medium", "-b:a", "192k"]
      && "-b:v" !in TuningFlags(PresetTuning(preset))
      && "-vf" !in TuningFlags(PresetTuning(preset))
    ensures PresetTuning("ultra_compression") == PresetTuning("hell_compression") == PresetTuning("normal")
  {
  }

  // ----------------------------------------------------------------------
  // Running a conversion

  /** Whether a run of `argv` on an existing input ended with a file left
      at the output path although it failed: it raised, or it exited with
      a non-zero code. */
  predicate LeftPartial(files: set<string>, tool: Transcoder, inputPath: string, argv: seq<string>) {
    inputPath in files && tool(argv).leftOutput && (tool(argv).Raised? || tool(argv).returnCode != 0)
  }

  /** How a conversion ends and which paths exist afterwards: a missing
      input raises before anything runs; a run that raises or a non-zero
      return code raises, and a failed run may have left a partial output;
      otherwise the output exists and is returned. Nothing removes a
      partial output. */
  function RunConversion(files: set<string>, tool: Transcoder, inputPath: string,
                         argv: seq<string>, outputPath: string, video: bool): (r: (Result<string, ConversionError>, set<string>))
    ensures r.0.Success? <==> inputPath in files && tool(argv).Exited? && tool(argv).returnCode == 0
    ensures r.0.Success? ==> r.0.value == outputPath && r.1 == files + {outputPath}
    ensures r.0.Failure? ==> r.1 == if LeftPartial(files, tool, inputPath, argv) then files + {outputPath} else files
    ensures r.0.Failure? && inputPath !in files ==> r.0.error == InputNotFound(inputPath)
  {
    if inputPath !in files then (Failure(InputNotFound(inputPath)), files)
    else match tool(argv)
      case Raised(reason, leftOutput) => (Failure(RunRaised(reason)), if leftOutput then files + {outputPath} else files)
      case Exited(code, stderr, leftOutput) =>
        if code != 0 then (Failure(TranscoderFailed(video, stderr)), if leftOutput then files + {outputPath} else files)
        else (Success(outputPath), files + {outputPath})
  }

  function OutputOrDefault(inputPath: string, outputFormat: string, outputPath: Option<string>): string {
    if outputPath.Some? then outputPath.value else DefaultOutputPath(inputPath, outputFormat)
  }

  function AudioConversion(ffmpegPath: string, config: map<string, map<string, string>>, files: set<string>,
                           tool: Transcoder, inputPath: string, outputFormat: string,
                           outputPath: Option<string>): (Result<string, ConversionError>, set<string>)
  {
    var out := OutputOrDefault(inputPath, outputFormat, outputPath);
    RunConversion(files, tool, inputPath,
                  AudioArgv(ffmpegPath, inputPath, outputFormat, out, FormatSettings(config, outputFormat)),
                  out, false)
  }

  function VideoConversion(ffmpegPath: string, files: set<string>, tool: Transcoder, inputPath: string,
                           outputFormat: string, outputPath: Option<string>, preset: string): (Result<string, ConversionError>, set<string>)
  {
    var out := OutputOrDefault(inputPath, outputFormat, outputPath);
    RunConversion(files, tool, inputPath, VideoArgv(ffmpegPath, inputPath, outputFormat, out, preset), out, true)
  }

  // ----------------------------------------------------------------------
  // Probing: the diagnostic text and what is read from it

  /** The first line of the diagnostic text that mentions an audio stream. */
  function AudioLine(output: string): (r: Option<string>)
    ensures r.Some? ==> Contains(r.value, "Audio: ")
    ensures r.Some? ==> exists k :: 0 <= k < |Split(output, "\n")| && Split(output, "\n")[k] == r.value
                          && forall j :: 0 <= j < k ==> !Contains(Split(output, "\n")[j], "Audio: ")
    ensures r.None? ==> forall k :: 0 <= k < |Split(output, "\n")| ==> !Contains(Split(output, "\n")[k], "Audio: ")
  {
    var lines := FilterContaining(Split(output, "\n"), "Audio: ");
    if lines == [] then None
    else
      FilterFirst(Split(output, "\n"), "Audio: ");
      Some(lines[0])
  }

  /** An audio line is found exactly when the text mentions an audio
      stream at all. */
  lemma AudioLineExists(output: string)
    ensures AudioLine(output).Some? <==> Contains(output, "Audio: ")
  {
    var lines := Split(output, "\n");
    if Contains(output, "Audio: ") {
      assert forall k :: 0 <= k < |"Audio: "| ==> "Audio: "[k] !in "\n";
      OccurrenceInPiece(output, "\n", "Audio: ");
    }
    if AudioLine(output).Some? {
      var lineSeq := FilterContaining(lines, "Audio: ");
      assert lineSeq[0] in lines;
      var k :| 0 <= k < |lines| && lines[k] == lineSeq[0];
      PieceContains(output, "\n", "Audio: ", k);
    }
  }

  /** The audio codec: after the first "Audio: " of the audio line, up to the
      next comma (or a second "Audio: "). */
  function FormatField(output: string): string {
    match AudioLine(output)
    case None => "unknown"
    case Some(line) => UpTo(UpTo(After(line, "Audio: "), "Audio: "), ",")
  }

  /** The sample rate: the last whitespace-separated word before the first
      "Hz" of the audio line. */
  function SampleRateField(output: string): string {
    match AudioLine(output)
    case None => "unknown"
    case Some(line) =>
      if !Contains(line, "Hz") then "unknown"
      else
        var words := SplitWs(UpTo(line, "Hz"));
        if words == [] then "unknown" else words[|words| - 1]
  }

  /** The channel count: "2" for stereo, "1" for mono, otherwise, when the
      line speaks of "channels", the first word of the first comma-separated
      part that mentions a channel. */
  function ChannelsField(output: string): string {
    match AudioLine(output)
    case None => "unknown"
    case Some(line) =>
      if Contains(line, "stereo") then "2"
      else if Contains(line, "mono") then "1"
      else if Contains(line, "channels") then
        var parts := FilterContaining(Split(line, ", "), "channel");
        if parts == [] then "unknown"
        else
          var words := SplitWs(parts[0]);
          if words == [] then "unknown" else words[0]
      else "unknown"
  }

  /** The duration: after the first "Duration: ", up to the next comma, with
      surrounding whitespace removed. */
  function DurationField(output: string): string {
    if Contains(output, "Duration: ") then Strip(UpTo(UpTo(After(output, "Duration: "), "Duration: "), ","))
    else "unknown"
  }

  /** The bitrate: when the text has a "bitrate: " marker, the first
      whitespace-separated word of the whole text containing "kb/s". */
  function BitrateField(output: string): string {
    if Contains(output, "bitrate: ") then
      var words := FilterContaining(SplitWs(output), "kb/s");
      if words == [] then "unknown" else words[0]
    else "unknown"
  }

  function DiagnosticInfo(output: string, isVideo: bool): MediaInfo {
    MediaInfo(FormatField(output), DurationField(output), BitrateField(output),
              ChannelsField(output), SampleRateField(output), isVideo)
  }

  /** Text without any of the three markers leaves every field "unknown":
      a missing field never raises. */
  lemma NoMarkersAllUnknown(output: string, isVideo: bool)
    requires !Contains(output, "Audio: ") && !Contains(output, "Duration: ") && !Contains(output, "bitrate: ")
    ensures DiagnosticInfo(output, isVideo) == UnknownInfo(isVideo)
  {
    AudioLineExists(output);
  }

  /** The codec is read from the audio line: it directly follows the
      first "Audio: " of that line, holds no comma and no second "Audio: ",
      and ends at a comma, at a second "Audio: " or at the end of the line. */
  lemma FormatFieldFacts(output: string)
    ensures var f := FormatField(output);
      match AudioLine(output)
      case None => f == "unknown"
      case Some(line) => FieldAt(line, "Audio: ", ",", f)
  {
    if AudioLine(output).Some? {
      FieldBounds(AudioLine(output).value, "Audio: ", ",");
    }
  }

  /** The sample rate is the final run of non-space characters before the
      first "Hz" of the audio line; without such a run it stays unknown. */
  lemma SampleRateFacts(output: string)
    ensures var r := SampleRateField(output);
      match AudioLine(output)
      case None => r == "unknown"
      case Some(line) =>
        if Contains(line, "Hz") && !AllSpace(UpTo(line, "Hz")) then
          r != [] && NoSpace(r) && exists i: nat :: FinalRun(UpTo(line, "Hz"), r, i)
        else r == "unknown"
  {
    if AudioLine(output).Some? {
      var line := AudioLine(output).value;
      if Contains(line, "Hz") {
        var before := UpTo(line, "Hz");
        SplitWsEmpty(before);
        if !AllSpace(before) {
          LastWord(before);
          assert SampleRateField(output) == Last(SplitWs(before));
        }
      }
    }
  }

  /** The channel count: "2" for stereo, "1" for mono; otherwise, when the
      line speaks of "channels", a word is always found, and it is the first
      word of a comma-separated part of the line that mentions a channel. */
  lemma ChannelsFacts(output: string)
    ensures var c := ChannelsField(output);
      match AudioLine(output)
      case None => c == "unknown"
      case Some(line) =>
        && (Contains(line, "stereo") ==> c == "2")
        && (!Contains(line, "stereo") && Contains(line, "mono") ==> c == "1")
        && (!Contains(line, "stereo") && !Contains(line, "mono") && Contains(line, "channels") ==>
              c != [] && NoSpace(c)
              && exists k :: 0 <= k < |Split(line, ", ")| && Contains(Split(line, ", ")[k], "channel")
                             && (forall j :: 0 <= j < k ==> !Contains(Split(line, ", ")[j], "channel"))
                             && SplitWs(Split(line, ", ")[k]) != [] && c == SplitWs(Split(line, ", ")[k])[0])
        && (!Contains(line, "stereo") && !Contains(line, "mono") && !Contains(line, "channels") ==> c == "unknown")
  {
    if AudioLine(output).Some? {
      var line := AudioLine(output).value;
      if !Contains(line, "stereo") && !Contains(line, "mono") && Contains(line, "channels") {
        ContainsPrefixOf(line, "channels", "channel");
        ChannelWordShape();
        MatchingPieceHasWord(line, ", ", "channel");
        FilterFirst(Split(line, ", "), "channel");
      }
    }
  }

  lemma ChannelWordShape()
    ensures "channel" != [] && !IsSpace("channel"[0])
    ensures forall k :: 0 <= k < |"channel"| ==> "channel"[k] !in ", "
  {
  }

  /** The duration is the text after the first "Duration: " up to the next
      comma, trimmed: the text `g` directly behind the first marker, without
      a comma or a second marker, that ends at a comma, at a second marker or
      at the end, with surrounding whitespace stripped. It occurs in the
      diagnostic text, holds no comma and neither starts nor ends with
      whitespace. */
  lemma DurationFacts(output: string)
    ensures !Contains(output, "Duration: ") ==> DurationField(output) == "unknown"
    ensures Contains(output, "Duration: ") ==>
      var d := DurationField(output);
      && (exists g :: FieldAt(output, "Duration: ", ",", g) && d == Strip(g))
      && Contains(output, d) && !Contains(d, ",")
      && (d == [] || (!IsSpace(d[0]) && !IsSpace(d[|d| - 1])))
  {
    if Contains(output, "Duration: ") {
      var marker := "Duration: ";
      var f := UpTo(UpTo(After(output, marker), marker), ",");
      FieldAfterMarker(output, marker, ",");
      FieldBounds(output, marker, ",");
      SuffixOfJoin(marker, f);
      ContainsTrans(output, marker + f, f);
      StripInside(f);
      ContainsTrans(output, f, Strip(f));
      StripAvoids(f, ",");
    }
  }

  /** The two markers the fields are read behind cannot overlap
      themselves, and no comma is part of them: each has one field. */
  lemma MarkersDoNotOverlap()
    ensures ',' !in "Audio: " && forall d :: 0 < d < |"Audio: "| ==> "Audio: "[d] != "Audio: "[0]
    ensures ',' !in "Duration: " && forall d :: 0 < d < |"Duration: "| ==> "Duration: "[d] != "Duration: "[0]
  {
  }

  /** The codec and the duration are the only texts of their shape. */
  lemma FieldsAreDetermined(line: string, output: string, f: string, g: string)
    ensures FieldAt(line, "Audio: ", ",", f) && FieldAt(line, "Audio: ", ",", g) ==> f == g
    ensures FieldAt(output, "Duration: ", ",", f) && FieldAt(output, "Duration: ", ",", g) ==> f == g
  {
    MarkersDoNotOverlap();
    if FieldAt(line, "Audio: ", ",", f) && FieldAt(line, "Audio: ", ",", g) {
      FieldAtUnique(line, "Audio: ", ',', f, g);
    }
    if FieldAt(output, "Duration: ", ",", f) && FieldAt(output, "Duration: ", ",", g) {
      FieldAtUnique(output, "Duration: ", ',', f, g);
    }
  }

  /** The bitrate is the first whitespace-separated word of the whole text
      that contains "kb/s", provided a "bitrate: " marker is present. */
  lemma BitrateFacts(output: string)
    ensures !Contains(output, "bitrate: ") ==> BitrateField(output) == "unknown"
    ensures Contains(output, "bitrate: ") ==>
      var words := SplitWs(output);
      var b := BitrateField(output);
      && ((forall k :: 0 <= k < |words| ==> !Contains(words[k], "kb/s")) ==> b == "unknown")
      && ((exists k :: 0 <= k < |words| && Contains(words[k], "kb/s")) ==>
            exists k :: 0 <= k < |words| && words[k] == b && Contains(b, "kb/s")
                        && forall i :: 0 <= i < k ==> !Contains(words[i], "kb/s"))
  {
    var words := SplitWs(output);
    var found := FilterContaining(words, "kb/s");
    if Contains(output, "bitrate: ") {
      if found == [] {
        assert BitrateField(output) == "unknown";
      } else {
        assert BitrateField(output) == found[0];
        FilterFirst(words, "kb/s");
      }
    }
  }

  /** With the usual "bitrate: 320 kb/s" layout the word that contains
      "kb/s" is the unit alone, so the number is not part of the field. */
  lemma BitrateOfUsualLayout(rate: string)
    requires rate != [] && NoSpace(rate) && '/' !in rate
    ensures BitrateField("bitrate: " + rate + " kb/s") == "kb/s"
  {
    var output := "bitrate: " + rate + " kb/s";
    assert output[..9] == "bitrate: ";
    OccursThenContains(output, "bitrate: ", 0);
    UsualLayoutWords(rate);
    UsualLayoutFilter(rate);
  }

  lemma UsualLayoutWords(rate: string)
    requires rate != [] && NoSpace(rate)
    ensures SplitWs("bitrate: " + rate + " kb/s") == ["bitrate:", rate, "kb/s"]
  {
    var marker, unit := "bitrate:", "kb/s";
    assert "bitrate: " + rate + " kb/s" == marker + " " + (rate + " " + unit);
    LayoutMarkersAreWords();
    ThreeWords(marker, rate, unit);
  }

  lemma ThreeWords(a: string, b: string, c: string)
    requires a != [] && NoSpace(a) && b != [] && NoSpace(b) && c != [] && NoSpace(c)
    ensures SplitWs(a + " " + (b + " " + c)) == [a, b, c]
  {
    SplitWsSpaced(a, b + " " + c);
    SplitWsSpaced(b, c);
    SplitWsOfWord(c);
  }

  lemma LayoutMarkersAreWords()
    ensures NoSpace("bitrate:") && NoSpace("kb/s")
  {
  }

  lemma UsualLayoutFilter(rate: string)
    requires '/' !in rate
    ensures FilterContaining(["bitrate:", rate, "kb/s"], "kb/s") == ["kb/s"]
  {
    var marker, unit := "bitrate:", "kb/s";
    MissingCharNotContained(marker, unit, '/');
    MissingCharNotContained(rate, unit, '/');
    assert unit[0..4] == unit;
    OccursThenContains(unit, unit, 0);
    assert [marker, rate, unit] == [marker] + ([rate] + [unit]);
    FilterCons(marker, [rate] + [unit], unit);
    FilterCons(rate, [unit], unit);
    FilterCons(unit, [], unit);
    assert [unit] == [unit] + [];
  }

  function ProbeArgv(ffmpegPath: string, path: string): seq<string> {
    [ffmpegPath, "-i", path]
  }

  /** What `get_audio_info` returns. It raises only for a missing file; if
      running the probe raises, every field is "unknown". In every case
      `isVideo` comes from the extension alone. */
  function ProbeOutcome(ffmpegPath: string, files: set<string>, tool: Transcoder, path: string): (r: Result<MediaInfo, ConversionError>)
    ensures r.Failure? <==> path !in files
    ensures r.Failure? ==> r.error == InputNotFound(path)
    ensures r.Success? ==> r.value.isVideo == IsVideoPath(path)
    ensures r.Success? && tool(ProbeArgv(ffmpegPath, path)).Raised? ==> r.value == UnknownInfo(IsVideoPath(path))
  {
    if path !in files then Failure(InputNotFound(path))
    else match tool(ProbeArgv(ffmpegPath, path))
      case Raised(_, _) => Success(UnknownInfo(IsVideoPath(path)))
      case Exited(_, stderr, _) => Success(DiagnosticInfo(stderr, IsVideoPath(path)))
  }

  /** The parsing part of `get_audio_info`, step by step: every field starts
      as "unknown" and is overwritten when its marker is found. The stream
      line, the duration and the bitrate are read by three sections. */
  method ParseDiagnostics(output: string, isVideo: bool) returns (info: MediaInfo)
    ensures info == DiagnosticInfo(output, isVideo)
    ensures !Contains(output, "Audio: ") ==> info.format == info.sampleRate == info.channels == "unknown"
    ensures !Contains(output, "Duration: ") ==> info.duration == "unknown"
    ensures !Contains(output, "bitrate: ") ==> info.bitrate == "unknown"
  {
    var format, sampleRate, channels := ParseAudioStream(output);
    var duration := ParseDuration(output);
    var bitrate := ParseBitrate(output);
    info := MediaInfo(format, duration, bitrate, channels, sampleRate, isVideo);
  }

  /** The audio stream section: codec, sample rate and channels. */
  method ParseAudioStream(output: string) returns (format: string, sampleRate: string, channels: string)
    ensures format == FormatField(output) && sampleRate == SampleRateField(output) && channels == ChannelsField(output)
    ensures !Contains(output, "Audio: ") ==> format == sampleRate == channels == "unknown"
  {
    format, sampleRate, channels := "unknown", "unknown", "unknown";
    AudioLineExists(output);
    if Contains(output, "Audio: ") {
      var audioLines := FilterContaining(Split(output, "\n"), "Audio: ");
      if |audioLines| > 0 {
        var audioLine := audioLines[0];
        assert AudioLine(output) == Some(audioLine);
        var audioParts := Split(audioLine, "Audio: ");
        SplitSecond(audioLine, "Audio: ");
        if |audioParts| > 1 {
          var formatParts := Split(audioParts[1], ",");
          format := formatParts[0];
        }
        assert format == FormatField(output);
        if Contains(audioLine, "Hz") {
          var hzParts := Split(audioLine, "Hz");
          var sampleRateParts := SplitWs(hzParts[0]);
          if |sampleRateParts| > 0 {
            sampleRate := sampleRateParts[|sampleRateParts| - 1];
          }
        }
        assert sampleRate == SampleRateField(output);
        if Contains(audioLine, "stereo") {
          channels := "2";
        } else if Contains(audioLine, "mono") {
          channels := "1";
        } else if Contains(audioLine, "channels") {
          var channelParts := FilterContaining(Split(audioLine, ", "), "channel");
          if |channelParts| > 0 {
            var channelValue := SplitWs(channelParts[0]);
            if |channelValue| > 0 {
              channels := channelValue[0];
            }
          }
        }
      }
    }
  }

  method ParseDuration(output: string) returns (duration: string)
    ensures duration == DurationField(output)
  {
    duration := "unknown";
    if Contains(output, "Duration: ") {
      var durationParts := Split(output, "Duration: ");
      SplitSecond(output, "Duration: ");
      if |durationParts| > 1 {
        duration := Strip(Split(durationParts[1], ",")[0]);
      }
    }
  }

  method ParseBitrate(output: string) returns (bitrate: string)
    ensures bitrate == BitrateField(output)
  {
    bitrate := "unknown";
    if Contains(output, "bitrate: ") {
      var bitrateParts := FilterContaining(SplitWs(output), "kb/s");
      if |bitrateParts| > 0 {
        bitrate := bitrateParts[0];
      }
    }
  }

  /** The wrapper object: the executable's path and the per-format settings
      of the configuration, both fixed when it is created. */
  class FFmpegWrapper {
    const ffmpegPath: string
    const formatConfig: map<string, map<string, string>>

    constructor (ffmpegPath: string, formatConfig: map<string, map<string, string>>)
      ensures this.ffmpegPath == ffmpegPath && this.formatConfig == formatConfig
    {
      this.ffmpegPath := ffmpegPath;
      this.formatConfig := formatConfig;
    }

    /** The argument vector of `convert_audio`, built by appending. */
    method AudioCommand(inputPath: string, outputFormat: string, outputPath: string) returns (command: seq<string>)
      ensures command == AudioArgv(ffmpegPath, inputPath, outputFormat, outputPath, FormatSettings(formatConfig, outputFormat))
    {
      var settings := FormatSettings(formatConfig, outputFormat);
      command := [ffmpegPath, "-i", inputPath, "-vn", "-y"];
      if outputFormat == "mp3" {
        command := command + ["-acodec", "libmp3lame",
                              "-b:a", Setting(settings, "bitrate", "192k"),
                              "-ar", Setting(settings, "sample_rate", "44100"),
                              "-ac", Setting(settings, "channels", "2")];
      } else if outputFormat == "wav" {
        command := command + ["-acodec", "pcm_s16le",
                              "-ar", Setting(settings, "sample_rate", "44100"),
                              "-ac", Setting(settings, "channels", "2")];
      }
      command := command + [outputPath];
    }

    /** The argument vector of `convert_video`, built by appending. */
    method VideoCommand(inputPath: string, outputFormat: string, outputPath: string, qualityPreset: string)
      returns (command: seq<string>)
      ensures command == VideoArgv(ffmpegPath, inputPath, outputFormat, outputPath, qualityPreset)
    {
      command := [ffmpegPath, "-i", inputPath, "-y"];
      if outputFormat == "mp4" {
        command := command + ["-c:v", "libx264", "-c:a", "aac"];
        if qualityPreset == "high_compression" {
          command := command + ["-crf", "28", "-preset", "slow", "-b:v", "500k", "-b:a", "64k", "-vf", "scale=-2:720"];
        } else if qualityPreset == "medium_compression" {
          command := command + ["-crf", "23", "-preset", "medium", "-b:v", "1500k", "-b:a", "128k"];
        } else {
          command := command + ["-crf", "20", "-preset", "medium", "-b:a", "192k"];
        }
      }
      command := command + [outputPath];
    }

    /** Runs the transcoder on `command`; on success the output exists, and
        a failed run may leave a partial one. */
    method Execute(fs: FileSystem, tool: Transcoder, inputPath: string, command: seq<string>,
                   outputPath: string, video: bool) returns (r: Result<string, ConversionError>)
      requires inputPath in fs.files
      modifies fs`files
      ensures (r, fs.files) == RunConversion(old(fs.files), tool, inputPath, command, outputPath, video)
    {
      var run := tool(command);
      match run
      case Raised(reason, leftOutput) =>
        if leftOutput {
          fs.Create(outputPath);
        }
        r := Failure(RunRaised(reason));
      case Exited(code, stderr, leftOutput) =>
        if code != 0 {
          if leftOutput {
            fs.Create(outputPath);
          }
          r := Failure(TranscoderFailed(video, stderr));
        } else {
          fs.Create(outputPath);
          r := Success(outputPath);
        }
    }

    /** `convert_audio`: strips the video stream and encodes the audio for
        the target format. */
    method ConvertAudio(fs: FileSystem, tool: Transcoder, inputPath: string, outputFormat: string,
                        outputPath: Option<string>) returns (r: Result<string, ConversionError>)
      modifies fs`files
      ensures (r, fs.files) == AudioConversion(ffmpegPath, formatConfig, old(fs.files), tool, inputPath, outputFormat, outputPath)
    {
      if inputPath !in fs.files {
        return Failure(InputNotFound(inputPath));
      }
      var out := if outputPath.Some? then outputPath.value else DefaultOutputPath(inputPath, outputFormat);
      var command := AudioCommand(inputPath, outputFormat, out);
      r := Execute(fs, tool, inputPath, command, out, false);
    }

    /** `convert_video`: re-encodes to MP4 with the preset's tuning. */
    method ConvertVideo(fs: FileSystem, tool: Transcoder, inputPath: string, outputFormat: string,
                        outputPath: Option<string>, qualityPreset: string := "normal")
      returns (r: Result<string, ConversionError>)
      modifies fs`files
      ensures (r, fs.files) == VideoConversion(ffmpegPath, old(fs.files), tool, inputPath, outputFormat, outputPath, qualityPreset)
    {
      if inputPath !in fs.files {
        return Failure(InputNotFound(inputPath));
      }
      var out := if outputPath.Some? then outputPath.value else DefaultOutputPath(inputPath, outputFormat);
      var command := VideoCommand(inputPath, outputFormat, out, qualityPreset);
      r := Execute(fs, tool, inputPath, command, out, true);
    }

    /** `get_audio_info`: probes the file and parses the diagnostic stream. */
    method GetAudioInfo(fs: FileSystem, tool: Transcoder, filePath: string) returns (r: Result<MediaInfo, ConversionError>)
      ensures r == ProbeOutcome(ffmpegPath, fs.files, tool, filePath)
    {
      if filePath !in fs.files {
        return Failure(InputNotFound(filePath));
      }
      var isVideo := Extension(filePath) in VideoExtensions;
      var run := tool([ffmpegPath, "-i", filePath]);
      match run
      case Raised(_, _) =>
        r := Success(UnknownInfo(isVideo));
      case Exited(_, stderr, _) =>
        var info := ParseDiagnostics(stderr, isVideo);
        r := Success(info);
    }
  }
}
