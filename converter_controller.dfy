/** `ConverterController`: the batch loop that validates the dropped paths,
    then probes, names and converts each file in turn, collecting one result
    per file and reporting progress to the callback if one is set.

    The callback is represented by whether one is set; the calls it
    receives are kept, in order, in the controller's `events`. */
module Controller {
  import opened Wrappers
  import opened OsPath
  import opened FFmpeg
  import opened FileHandling

  /** Which message a progress call carries. */
  datatype EventKind =
    | Processing        // "processing file i/n" before a file
    | ConvertingVideo   // a video input converted to mp4
    | ExtractingAudio   // a video input whose audio is extracted
    | Completed         // "conversion finished (i/n)" after a success

  /** One progress call: its message kind and the progress `done / total`,
      reported to the callback as `done / total * 100`. */
  datatype ProgressEvent = ProgressEvent(kind: EventKind, done: nat, total: nat)

  function Percent(e: ProgressEvent): real
    requires e.total > 0
  {
    e.done as real / e.total as real * 100.0
  }

  /** One entry of the list `convert_files` returns. */
  datatype ConversionResult =
    | Converted(inputPath: string, outputPath: string, originalFormat: string, newFormat: string,
                originalInfo: MediaInfo)
    | Failed(inputPath: string, error: ConversionError)

  /** The `status` entry of a result. */
  function Status(r: ConversionResult): (s: string)
    ensures s == "success" <==> r.Converted?
  {
    if r.Converted? then "success" else "error"
  }

  /** The three calls the loop makes for a file, each of which returns or
      raises: the probe (`get_audio_info`), the choice of output name
      (`get_output_path`) and the conversion proper, given the disk, the
      input and the output name. A conversion that returns has written the
      output it returns; `leftover` says whether one that raises has left a
      partial file at the output name, which nothing removes. */
  datatype Services = Services(
    probe: (set<string>, string) -> Result<MediaInfo, ConversionError>,
    outputPath: (set<string>, string) -> string,
    convert: (set<string>, string, string) -> Result<string, ConversionError>,
    leftover: (set<string>, string, string) -> bool)

  /** The disk after a conversion to `out` that raised. */
  function AfterFailure(env: Env, files: set<string>, path: string, out: string): set<string> {
    if env.services.leftover(files, path, out) then files + {out} else files
  }

  /** What stays fixed during one batch: the services, the target format
      and whether a callback is set. */
  datatype Env = Env(services: Services, outputFormat: string, notify: bool)

  /** The call made to the callback, if there is one. */
  function Notify(env: Env, kind: EventKind, done: nat, total: nat): (r: seq<ProgressEvent>)
    ensures env.notify ==> r == [ProgressEvent(kind, done, total)]
    ensures !env.notify ==> r == []
  {
    if env.notify then [ProgressEvent(kind, done, total)] else []
  }

  /** The result, progress calls and resulting disk of processing the
      `i`-th of `total` files. */
  datatype FileOutcome = FileOutcome(result: ConversionResult, events: seq<ProgressEvent>, files: set<string>)

  /** The notice for a probed input that is a video: "converting video"
      for mp4 output, "extracting audio" otherwise. */
  function Notice(env: Env, info: MediaInfo, i: nat, total: nat): (r: seq<ProgressEvent>)
    requires 1 <= i
    ensures |r| <= 1
    ensures |r| == 1 <==> env.notify && info.isVideo
    ensures r != [] ==> r[0].done == i - 1 && r[0].total == total && r[0].kind in {ConvertingVideo, ExtractingAudio}
    ensures r != [] ==> (r[0].kind == ConvertingVideo <==> env.outputFormat == "mp4")
  {
    if info.isVideo then Notify(env, if env.outputFormat == "mp4" then ConvertingVideo else ExtractingAudio, i - 1, total)
    else []
  }

  /** The body of the loop for the `i`-th of `total` files: announce it,
      probe it, announce a video input, pick an output name, convert, and
      announce completion only on success. */
  function ProcessFile(env: Env, files: set<string>, path: string, i: nat, total: nat): (o: FileOutcome)
    requires 1 <= i <= total
    ensures o.result.inputPath == path
    ensures o.result.Converted? ==> o.result.newFormat == env.outputFormat
  {
    var start := Notify(env, Processing, i - 1, total);
    match env.services.probe(files, path)
    case Failure(e) => FileOutcome(Failed(path, e), start, files)
    case Success(info) =>
      var notice := Notice(env, info, i, total);
      var out := env.services.outputPath(files, path);
      match env.services.convert(files, path, out)
      case Failure(e) => FileOutcome(Failed(path, e), start + notice, AfterFailure(env, files, path, out))
      case Success(converted) =>
        FileOutcome(Converted(path, converted, info.format, env.outputFormat, info),
                    start + notice + Notify(env, Completed, i, total), files + {converted})
  }

  /** A converted file adds its output to the disk; a failed one adds at
      most the partial output left at its output name. */
  lemma ProcessFileDisk(env: Env, files: set<string>, path: string, i: nat, total: nat)
    requires 1 <= i <= total
    ensures var o := ProcessFile(env, files, path, i, total);
      && (o.result.Converted? ==> o.files == files + {o.result.outputPath})
      && (o.result.Failed? ==> files <= o.files <= files + {env.services.outputPath(files, path)})
  {
  }

  /** The progress calls of one file: none without a callback; otherwise
      the announcement at `(i - 1) / total` first, a notice at the same value
      for a probed video input, and the completion at `i / total` last,
      exactly when the file converted. */
  lemma ProcessFileEvents(env: Env, files: set<string>, path: string, i: nat, total: nat)
    requires 1 <= i <= total
    ensures var o := ProcessFile(env, files, path, i, total);
      var probe := env.services.probe(files, path);
      var video := if probe.Success? && probe.value.isVideo then 1 else 0;
      && (!env.notify ==> o.events == [])
      && (env.notify ==>
          && o.events[0] == ProgressEvent(Processing, i - 1, total)
          && |o.events| == 1 + video + (if o.result.Converted? then 1 else 0)
          && (o.result.Converted? <==> o.events[|o.events| - 1] == ProgressEvent(Completed, i, total)))
      && (forall k :: 0 <= k < |o.events| ==> o.events[k].total == total)
      && (forall k :: 0 <= k < |o.events| ==>
            o.events[k].done == (if o.events[k].kind == Completed then i else i - 1))
      && (forall k :: 0 <= k < |o.events| - 1 ==> o.events[k].kind != Completed)
  {
  }

  /** The state after the loop has processed some files. */
  datatype BatchState = BatchState(results: seq<ConversionResult>, events: seq<ProgressEvent>, files: set<string>)

  predicate NonDecreasing(events: seq<ProgressEvent>) {
    forall a, b :: 0 <= a < b < |events| ==> events[a].done <= events[b].done
  }

  /** The loop over the files `ps`, which are the first `|ps|` of `total`:
      one result per file. */
  function Run(env: Env, files: set<string>, ps: seq<string>, total: nat): (st: BatchState)
    requires |ps| <= total
    ensures |st.results| == |ps|
    decreases |ps|
  {
    if ps == [] then BatchState([], [], files)
    else
      var i := |ps|;
      var before := Run(env, files, ps[..i - 1], total);
      var o := ProcessFile(env, before.files, ps[i - 1], i, total);
      BatchState(before.results + [o.result], before.events + o.events, o.files)
  }

  /** The results are in the order of the files, each naming its file,
      and the disk only grows. */
  lemma {:induction false} RunResults(env: Env, files: set<string>, ps: seq<string>, total: nat)
    requires |ps| <= total
    ensures var st := Run(env, files, ps, total);
      && (forall k :: 0 <= k < |ps| ==> st.results[k].inputPath == ps[k])
      && files <= st.files
    decreases |ps|
  {
    if ps != [] {
      var i := |ps|;
      var front := ps[..i - 1];
      var before := Run(env, files, front, total);
      RunResults(env, files, front, total);
      assert forall k :: 0 <= k < |before.results| ==> before.results[k].inputPath == ps[k] by {
        assert forall k :: 0 <= k < |front| ==> front[k] == ps[k];
      }
      var o := ProcessFile(env, before.files, ps[i - 1], i, total);
      ProcessFileDisk(env, before.files, ps[i - 1], i, total);
      ExtendResults(before.results, o.result, ps);
    }
  }

  lemma ExtendResults(rs: seq<ConversionResult>, r: ConversionResult, ps: seq<string>)
    requires ps != [] && |rs| == |ps| - 1
    requires forall k :: 0 <= k < |rs| ==> rs[k].inputPath == ps[k]
    requires r.inputPath == ps[|ps| - 1]
    ensures forall k :: 0 <= k < |ps| ==> (rs + [r])[k].inputPath == ps[k]
  {
    forall k | 0 <= k < |ps| ensures (rs + [r])[k].inputPath == ps[k] {
      if k < |rs| {
        assert (rs + [r])[k] == rs[k];
      }
    }
  }

  /** The calls of the `i`-th file: all out of `total`, at `i` when they
      report completion and at `i - 1` otherwise, with a completion only
      as the last call. */
  predicate FileEvents(b: seq<ProgressEvent>, i: nat, total: nat) {
    && (forall k :: 0 <= k < |b| ==> b[k].total == total && b[k].done == (if b[k].kind == Completed then i else i - 1))
    && (forall k :: 0 <= k < |b| - 1 ==> b[k].kind != Completed)
  }

  /** Calls out of `total` that never exceed `n` and never decrease. */
  predicate Progressing(events: seq<ProgressEvent>, total: nat, n: nat) {
    && (forall k :: 0 <= k < |events| ==> events[k].total == total && events[k].done <= n)
    && NonDecreasing(events)
  }

  lemma ProcessFileEventValues(env: Env, files: set<string>, path: string, i: nat, total: nat)
    requires 1 <= i <= total
    ensures FileEvents(ProcessFile(env, files, path, i, total).events, i, total)
  {
    ProcessFileEvents(env, files, path, i, total);
  }

  /** Every progress value of the loop lies between 0 and `|ps|` out of
      `total`, and the values never decrease. */
  lemma {:induction false} RunEvents(env: Env, files: set<string>, ps: seq<string>, total: nat)
    requires |ps| <= total
    ensures Progressing(Run(env, files, ps, total).events, total, |ps|)
    decreases |ps|
  {
    if ps != [] {
      var i := |ps|;
      var before := Run(env, files, ps[..i - 1], total);
      RunEvents(env, files, ps[..i - 1], total);
      ProcessFileEventValues(env, before.files, ps[i - 1], i, total);
      var o := ProcessFile(env, before.files, ps[i - 1], i, total);
      EventsStep(before.events, o.events, i, total);
    }
  }

  /** Without a callback nothing is reported, and an empty batch has
      neither results nor calls. */
  lemma {:induction false} RunQuiet(env: Env, files: set<string>, ps: seq<string>, total: nat)
    requires |ps| <= total
    ensures var st := Run(env, files, ps, total);
      && (!env.notify ==> st.events == [])
      && (ps == [] ==> st.results == [] && st.events == [])
    decreases |ps|
  {
    if ps != [] && !env.notify {
      var i := |ps|;
      RunQuiet(env, files, ps[..i - 1], total);
      var before := Run(env, files, ps[..i - 1], total);
      ProcessFileEvents(env, before.files, ps[i - 1], i, total);
    }
  }

  lemma EventsStep(a: seq<ProgressEvent>, b: seq<ProgressEvent>, i: nat, total: nat)
    requires 1 <= i
    requires Progressing(a, total, i - 1)
    requires FileEvents(b, i, total)
    ensures Progressing(a + b, total, i)
  {
    assert NonDecreasing(b) by {
      forall x, y | 0 <= x < y < |b| ensures b[x].done <= b[y].done {
        assert b[x].kind != Completed;
      }
    }
    AppendNonDecreasing(a, b, i - 1);
    forall k | 0 <= k < |a + b| ensures (a + b)[k].total == total && (a + b)[k].done <= i {
      if k < |a| {
        assert (a + b)[k] == a[k];
      } else {
        assert (a + b)[k] == b[k - |a|];
      }
    }
  }

  lemma AppendNonDecreasing(a: seq<ProgressEvent>, b: seq<ProgressEvent>, m: nat)
    requires NonDecreasing(a) && NonDecreasing(b)
    requires forall k :: 0 <= k < |a| ==> a[k].done <= m
    requires forall k :: 0 <= k < |b| ==> m <= b[k].done
    ensures NonDecreasing(a + b)
  {
    var c := a + b;
    forall x, y | 0 <= x < y < |c| ensures c[x].done <= c[y].done {
      if y < |a| {
        assert c[x] == a[x] && c[y] == a[y];
      } else if x >= |a| {
        assert c[x] == b[x - |a|] && c[y] == b[y - |a|];
      } else {
        assert c[x] == a[x] && c[y] == b[y - |a|];
      }
    }
  }

  /** The loop over `ps` has produced `results`, extended the log
      `events0` to `events` and left the disk `files`. */
  predicate Reached(env: Env, files0: set<string>, ps: seq<string>, total: nat,
                    results: seq<ConversionResult>, events0: seq<ProgressEvent>, events: seq<ProgressEvent>,
                    files: set<string>)
    requires |ps| <= total
  {
    var st := Run(env, files0, ps, total);
    results == st.results && events == events0 + st.events && files == st.files
  }

  /** One more file: the state after the first `i - 1` files, extended by
      the outcome of the `i`-th. */
  lemma RunStep(env: Env, files0: set<string>, ps: seq<string>, total: nat, i: nat,
                results: seq<ConversionResult>, events0: seq<ProgressEvent>, events: seq<ProgressEvent>,
                disk: set<string>, result: ConversionResult, newEvents: seq<ProgressEvent>, after: set<string>)
    requires 1 <= i <= |ps| <= total
    requires Reached(env, files0, ps[..i - 1], total, results, events0, events, disk)
    requires ProcessFile(env, disk, ps[i - 1], i, total) == FileOutcome(result, newEvents, after)
    ensures Reached(env, files0, ps[..i], total, results + [result], events0, events + newEvents, after)
  {
    assert ps[..i][..i - 1] == ps[..i - 1];
    assert ps[..i][i - 1] == ps[i - 1];
  }

  /** Each result is what processing that file gives on the disk left by
      the files before it: an error never stops the files after it. */
  lemma {:induction false} RunResultAt(env: Env, files: set<string>, ps: seq<string>, total: nat, k: nat)
    requires |ps| <= total && k < |ps|
    ensures Run(env, files, ps, total).results[k]
      == ProcessFile(env, Run(env, files, ps[..k], total).files, ps[k], k + 1, total).result
    decreases |ps|
  {
    var i := |ps|;
    if k < i - 1 {
      var front := ps[..i - 1];
      PrefixOfFront(ps, k);
      assert Run(env, files, front[..k], total) == Run(env, files, ps[..k], total);
      RunResultEarlier(env, files, ps, total, k);
      RunResultAt(env, files, front, total, k);
    } else {
      RunResultLast(env, files, ps, total);
    }
  }

  lemma PrefixOfFront(ps: seq<string>, k: nat)
    requires k < |ps| - 1
    ensures ps[..|ps| - 1][..k] == ps[..k] && ps[..|ps| - 1][k] == ps[k]
  {
  }

  lemma RunResultEarlier(env: Env, files: set<string>, ps: seq<string>, total: nat, k: nat)
    requires |ps| <= total && k < |ps| - 1
    ensures Run(env, files, ps, total).results[k] == Run(env, files, ps[..|ps| - 1], total).results[k]
  {
  }

  lemma RunResultLast(env: Env, files: set<string>, ps: seq<string>, total: nat)
    requires 0 < |ps| <= total
    ensures var k := |ps| - 1;
      Run(env, files, ps, total).results[k] == ProcessFile(env, Run(env, files, ps[..k], total).files, ps[k], k + 1, total).result
  {
  }

  function CountKind(events: seq<ProgressEvent>, kind: EventKind): nat {
    if events == [] then 0
    else CountKind(events[..|events| - 1], kind) + (if events[|events| - 1].kind == kind then 1 else 0)
  }

  function Successes(results: seq<ConversionResult>): nat {
    if results == [] then 0
    else Successes(results[..|results| - 1]) + (if results[|results| - 1].Converted? then 1 else 0)
  }

  lemma {:induction false} CountKindAppend(a: seq<ProgressEvent>, b: seq<ProgressEvent>, kind: EventKind)
    ensures CountKind(a + b, kind) == CountKind(a, kind) + CountKind(b, kind)
    decreases |b|
  {
    if b == [] {
      assert a + b == a;
    } else {
      var n := |b| - 1;
      assert (a + b)[..|a + b| - 1] == a + b[..n];
      CountKindAppend(a, b[..n], kind);
    }
  }

  /** With a callback set, every file is announced once and every converted
      file is reported complete once. */
  lemma {:induction false} RunEventCounts(env: Env, files: set<string>, ps: seq<string>, total: nat)
    requires |ps| <= total && env.notify
    ensures var st := Run(env, files, ps, total);
      CountKind(st.events, Processing) == |ps| && CountKind(st.events, Completed) == Successes(st.results)
    decreases |ps|
  {
    if ps != [] {
      var i := |ps|;
      var before := Run(env, files, ps[..i - 1], total);
      var o := ProcessFile(env, before.files, ps[i - 1], i, total);
      RunEventCounts(env, files, ps[..i - 1], total);
      ProcessFileEvents(env, before.files, ps[i - 1], i, total);
      FileEventCounts(env, before.files, ps[i - 1], i, total);
      CountKindAppend(before.events, o.events, Processing);
      CountKindAppend(before.events, o.events, Completed);
      var results := before.results + [o.result];
      assert results[..|results| - 1] == before.results;
    }
  }

  /** One file's calls hold one announcement, and a completion exactly when
      it converted. */
  lemma FileEventCounts(env: Env, files: set<string>, path: string, i: nat, total: nat)
    requires 1 <= i <= total && env.notify
    ensures var o := ProcessFile(env, files, path, i, total);
      && CountKind(o.events, Processing) == 1
      && CountKind(o.events, Completed) == if o.result.Converted? then 1 else 0
  {
    var start := Notify(env, Processing, i - 1, total);
    CountKindOne(start[0], Processing);
    CountKindOne(start[0], Completed);
    var probe := env.services.probe(files, path);
    if probe.Success? {
      var info := probe.value;
      var notice := Notice(env, info, i, total);
      if notice != [] {
        CountKindOne(notice[0], Processing);
        CountKindOne(notice[0], Completed);
      }
      CountKindAppend(start, notice, Processing);
      CountKindAppend(start, notice, Completed);
      var out := env.services.outputPath(files, path);
      var done := Notify(env, Completed, i, total);
      CountKindOne(done[0], Processing);
      CountKindOne(done[0], Completed);
      CountKindAppend(start + notice, done, Processing);
      CountKindAppend(start + notice, done, Completed);
    }
  }

  lemma CountKindOne(e: ProgressEvent, kind: EventKind)
    ensures CountKind([e], kind) == if e.kind == kind then 1 else 0
  {
    assert [e][..0] == [];
  }

  /** With a callback set, each call's progress lies in [0, 100]. */
  lemma PercentBounds(e: ProgressEvent)
    requires 0 < e.total && e.done <= e.total
    ensures 0.0 <= Percent(e) <= 100.0
  {
    var d, t := e.done as real, e.total as real;
    assert d / t <= 1.0 by {
      assert d <= t;
      assert d / t <= t / t;
    }
  }

  /** For a fixed total, later calls never report less progress. */
  lemma PercentMonotone(e: ProgressEvent, f: ProgressEvent)
    requires 0 < e.total && e.total == f.total && e.done <= f.done
    ensures Percent(e) <= Percent(f)
  {
    var t := e.total as real;
    var c := 100.0 / t;
    assert Percent(e) == e.done as real * c && Percent(f) == f.done as real * c;
    ScaleMonotone(e.done as real, f.done as real, c);
  }

  /** Every call of a batch has a non-zero denominator and a percentage in
      [0, 100]: an empty batch makes no call, so nothing divides by zero. */
  lemma RunPercents(env: Env, files: set<string>, ps: seq<string>, total: nat)
    requires |ps| <= total
    ensures var st := Run(env, files, ps, total);
      forall k :: 0 <= k < |st.events| ==> 0 < st.events[k].total && 0.0 <= Percent(st.events[k]) <= 100.0
  {
    var st := Run(env, files, ps, total);
    RunEvents(env, files, ps, total);
    RunQuiet(env, files, ps, total);
    forall k | 0 <= k < |st.events| ensures 0 < st.events[k].total && 0.0 <= Percent(st.events[k]) <= 100.0 {
      PercentBounds(st.events[k]);
    }
  }

  /** With a callback set, the percentages a batch reports never go down:
      each call's share is at least that of every call before it. */
  lemma RunPercentsNonDecreasing(env: Env, files: set<string>, ps: seq<string>, total: nat)
    requires |ps| <= total
    ensures var st := Run(env, files, ps, total);
      forall a, b :: 0 <= a < b < |st.events| ==>
        0 < st.events[a].total == st.events[b].total && Percent(st.events[a]) <= Percent(st.events[b])
  {
    var st := Run(env, files, ps, total);
    RunEvents(env, files, ps, total);
    RunQuiet(env, files, ps, total);
    forall a, b | 0 <= a < b < |st.events|
      ensures 0 < st.events[a].total == st.events[b].total && Percent(st.events[a]) <= Percent(st.events[b])
    {
      PercentMonotone(st.events[a], st.events[b]);
    }
  }

  lemma ScaleMonotone(a: real, b: real, c: real)
    requires a <= b && 0.0 <= c
    ensures a * c <= b * c
  {
  }

  /** The three ways a file can end, spelt out from the services' answers. */
  lemma ProcessFileProbeFailed(env: Env, files: set<string>, path: string, i: nat, total: nat, e: ConversionError)
    requires 1 <= i <= total && env.services.probe(files, path) == Failure(e)
    ensures ProcessFile(env, files, path, i, total)
      == FileOutcome(Failed(path, e), Notify(env, Processing, i - 1, total), files)
  {
  }

  lemma ProcessFileConvertFailed(env: Env, files: set<string>, path: string, i: nat, total: nat,
                                 info: MediaInfo, e: ConversionError)
    requires 1 <= i <= total && env.services.probe(files, path) == Success(info)
    requires env.services.convert(files, path, env.services.outputPath(files, path)) == Failure(e)
    ensures ProcessFile(env, files, path, i, total)
      == FileOutcome(Failed(path, e), Notify(env, Processing, i - 1, total) + Notice(env, info, i, total),
                     AfterFailure(env, files, path, env.services.outputPath(files, path)))
  {
  }

  lemma ProcessFileConverted(env: Env, files: set<string>, path: string, i: nat, total: nat,
                             info: MediaInfo, converted: string)
    requires 1 <= i <= total && env.services.probe(files, path) == Success(info)
    requires env.services.convert(files, path, env.services.outputPath(files, path)) == Success(converted)
    ensures ProcessFile(env, files, path, i, total)
      == FileOutcome(Converted(path, converted, info.format, env.outputFormat, info),
                     Notify(env, Processing, i - 1, total) + Notice(env, info, i, total) + Notify(env, Completed, i, total),
                     files + {converted})
  {
  }

  /** Both ways a probed file can end, as one case split on the answer
      of the conversion. */
  lemma ProcessFileAfterProbe(env: Env, files: set<string>, path: string, i: nat, total: nat,
                              info: MediaInfo, converted: Result<string, ConversionError>)
    requires 1 <= i <= total && env.services.probe(files, path) == Success(info)
    requires env.services.convert(files, path, env.services.outputPath(files, path)) == converted
    ensures var start := Notify(env, Processing, i - 1, total) + Notice(env, info, i, total);
      ProcessFile(env, files, path, i, total)
      == if converted.Failure? then
           FileOutcome(Failed(path, converted.error), start, AfterFailure(env, files, path, env.services.outputPath(files, path)))
         else FileOutcome(Converted(path, converted.value, info.format, env.outputFormat, info),
                          start + Notify(env, Completed, i, total), files + {converted.value})
  {
    if converted.Failure? {
      ProcessFileConvertFailed(env, files, path, i, total, info, converted.error);
    } else {
      ProcessFileConverted(env, files, path, i, total, info, converted.value);
    }
  }

  // ----------------------------------------------------------------------
  // The services the controller really calls

  /** The transcoder command for one file: the video one for mp4, the audio
      one otherwise. */
  function Command(ffmpegPath: string, formatConfig: map<string, map<string, string>>, preset: string,
                   outputFormat: string, path: string, out: string): seq<string> {
    if outputFormat == "mp4" then VideoArgv(ffmpegPath, path, outputFormat, out, preset)
    else AudioArgv(ffmpegPath, path, outputFormat, out, FormatSettings(formatConfig, outputFormat))
  }

  /** Whether the command for one file failed and left a partial output. */
  predicate Leftover(ffmpegPath: string, formatConfig: map<string, map<string, string>>, tool: Transcoder,
                     preset: string, outputFormat: string, files: set<string>, path: string, out: string) {
    LeftPartial(files, tool, path, Command(ffmpegPath, formatConfig, preset, outputFormat, path, out))
  }

  /** The conversion of one file to `out`: `convert_video` with the preset
      for mp4, `convert_audio` for every other format. */
  function Convert(ffmpegPath: string, formatConfig: map<string, map<string, string>>, tool: Transcoder,
                   preset: string, outputFormat: string, files: set<string>, path: string, out: string)
    : (r: (Result<string, ConversionError>, set<string>))
    ensures var run := tool(Command(ffmpegPath, formatConfig, preset, outputFormat, path, out));
      r.0.Success? <==> path in files && run.Exited? && run.returnCode == 0
    ensures r.0.Success? ==> r.0.value == out && r.1 == files + {out}
    ensures r.0.Failure? ==> r.1 == if Leftover(ffmpegPath, formatConfig, tool, preset, outputFormat, files, path, out)
                                    then files + {out} else files
  {
    if outputFormat == "mp4" then VideoConversion(ffmpegPath, files, tool, path, outputFormat, Some(out), preset)
    else AudioConversion(ffmpegPath, formatConfig, files, tool, path, outputFormat, Some(out))
  }

  /** The wrapper's probe, the file handler's naming and the wrapper's
      conversion, as the controller calls them. */
  function WrapperServices(ffmpegPath: string, formatConfig: map<string, map<string, string>>, tool: Transcoder,
                           preset: string, outputFormat: string): Services {
    Services(
      (files: set<string>, path: string) => ProbeOutcome(ffmpegPath, files, tool, path),
      (files: set<string>, path: string) => ResolvedOutputPath(files, path, outputFormat),
      (files: set<string>, path: string, out: string) =>
        Convert(ffmpegPath, formatConfig, tool, preset, outputFormat, files, path, out).0,
      (files: set<string>, path: string, out: string) =>
        Leftover(ffmpegPath, formatConfig, tool, preset, outputFormat, files, path, out))
  }

  lemma WrapperProbe(ffmpegPath: string, formatConfig: map<string, map<string, string>>, tool: Transcoder,
                     preset: string, outputFormat: string, files: set<string>, path: string)
    ensures WrapperServices(ffmpegPath, formatConfig, tool, preset, outputFormat).probe(files, path)
      == ProbeOutcome(ffmpegPath, files, tool, path)
  {
  }

  lemma WrapperConvert(ffmpegPath: string, formatConfig: map<string, map<string, string>>, tool: Transcoder,
                       preset: string, outputFormat: string, files: set<string>, path: string)
    ensures var svc := WrapperServices(ffmpegPath, formatConfig, tool, preset, outputFormat);
      var out := ResolvedOutputPath(files, path, outputFormat);
      && svc.outputPath(files, path) == out
      && svc.convert(files, path, out) == Convert(ffmpegPath, formatConfig, tool, preset, outputFormat, files, path, out).0
      && svc.leftover(files, path, out) == Leftover(ffmpegPath, formatConfig, tool, preset, outputFormat, files, path, out)
  {
  }

  /** With the real services a file converts exactly when it exists and the
      transcoder, run on the command for a free output name, exits with 0;
      the output is then that name, which did not exist before. A file
      that fails leaves the disk as it was, except for a partial output
      the failed run left at that name. */
  lemma ProcessFileOutcome(ffmpegPath: string, formatConfig: map<string, map<string, string>>, tool: Transcoder,
                           preset: string, outputFormat: string, notify: bool,
                           files: set<string>, path: string, i: nat, total: nat)
    requires 1 <= i <= total
    ensures var env := Env(WrapperServices(ffmpegPath, formatConfig, tool, preset, outputFormat), outputFormat, notify);
      var o := ProcessFile(env, files, path, i, total);
      var out := ResolvedOutputPath(files, path, outputFormat);
      var run := tool(Command(ffmpegPath, formatConfig, preset, outputFormat, path, out));
      && (o.result.Converted? <==> path in files && run.Exited? && run.returnCode == 0)
      && (o.result.Converted? ==> o.result.outputPath == out && out !in files)
      && (o.result.Failed? && path !in files ==> o.result.error == InputNotFound(path))
      && (o.result.Failed? ==>
            o.files == if path in files && run.leftOutput && (run.Raised? || run.returnCode != 0) then files + {out} else files)
  {
    var svc := WrapperServices(ffmpegPath, formatConfig, tool, preset, outputFormat);
    var out := ResolvedOutputPath(files, path, outputFormat);
    assert svc.outputPath(files, path) == out;
    assert svc.probe(files, path) == ProbeOutcome(ffmpegPath, files, tool, path);
    assert svc.convert(files, path, out) == Convert(ffmpegPath, formatConfig, tool, preset, outputFormat, files, path, out).0;
    assert svc.leftover(files, path, out) == Leftover(ffmpegPath, formatConfig, tool, preset, outputFormat, files, path, out);
  }

  /** The controller: the wrapper and file handler it drives, the quality
      preset for mp4 output and the progress callback. */
  class ConverterController {
    const ffmpeg: FFmpegWrapper
    const fileHandler: FileHandler
    var hasProgressCallback: bool
    var qualityPreset: string
    /** The calls the progress callback has received. */
    var events: seq<ProgressEvent>

    /** A new controller has no callback and the "normal" preset. */
    constructor (ffmpeg: FFmpegWrapper, fileHandler: FileHandler)
      ensures this.ffmpeg == ffmpeg && this.fileHandler == fileHandler
      ensures !hasProgressCallback && qualityPreset == "normal" && events == []
    {
      this.ffmpeg := ffmpeg;
      this.fileHandler := fileHandler;
      hasProgressCallback := false;
      qualityPreset := "normal";
      events := [];
    }

    /** `set_progress_callback`: later batches report their progress. */
    method SetProgressCallback()
      modifies this`hasProgressCallback
      ensures hasProgressCallback
    {
      hasProgressCallback := true;
    }

    /** `set_quality_preset`: replaces the preset and nothing else. */
    method SetQualityPreset(preset: string)
      modifies this`qualityPreset
      ensures qualityPreset == preset
    {
      qualityPreset := preset;
    }

    /** The batch's fixed parameters in the current state. */
    function BatchEnv(tool: Transcoder, outputFormat: string): Env
      reads this`qualityPreset, this`hasProgressCallback
    {
      Env(WrapperServices(ffmpeg.ffmpegPath, ffmpeg.formatConfig, tool, qualityPreset, outputFormat),
          outputFormat, hasProgressCallback)
    }

    /** `convert_files`: validates the paths, then processes each valid one,
        recording one result per file; the callback receives the progress
        calls of `Run`. */
    method ConvertFiles(fs: FileSystem, tool: Transcoder, filePaths: seq<string>, outputFormat: string)
      returns (results: seq<ConversionResult>)
      modifies this`events, fs`files
      ensures var valid := ValidFiles(old(fs.files), fileHandler.supportedFormats, fileHandler.normalize,
                                      filePaths, fileHandler.maxFiles);
        Reached(BatchEnv(tool, outputFormat), old(fs.files), valid, |valid|, results, old(events), events, fs.files)
    {
      var validFiles := fileHandler.ValidateFiles(fs, filePaths);
      results := ProcessAll(fs, tool, validFiles, outputFormat);
    }

    /** The loop of `convert_files` over the valid paths. */
    method ProcessAll(fs: FileSystem, tool: Transcoder, validFiles: seq<string>, outputFormat: string)
      returns (results: seq<ConversionResult>)
      modifies this`events, fs`files
      ensures Reached(BatchEnv(tool, outputFormat), old(fs.files), validFiles, |validFiles|,
                      results, old(events), events, fs.files)
    {
      var totalFiles := |validFiles|;
      ghost var env := BatchEnv(tool, outputFormat);
      ghost var files0 := fs.files;
      ghost var events0 := events;
      results := [];
      assert validFiles[..0] == [];
      for i := 1 to totalFiles + 1
        invariant env == BatchEnv(tool, outputFormat)
        invariant Reached(env, files0, validFiles[..i - 1], totalFiles, results, events0, events, fs.files)
      {
        ghost var before := fs.files;
        var result, newEvents := ConvertOne(fs, tool, validFiles[i - 1], outputFormat, i, totalFiles);
        RunStep(env, files0, validFiles, totalFiles, i, results, events0, events, before, result, newEvents, fs.files);
        results := results + [result];
        events := events + newEvents;
      }
      assert validFiles[..totalFiles] == validFiles;
    }

    /** The `try` block for the `i`-th of `total` files. */
    method ConvertOne(fs: FileSystem, tool: Transcoder, filePath: string, outputFormat: string, i: nat, total: nat)
      returns (result: ConversionResult, newEvents: seq<ProgressEvent>)
      requires 1 <= i <= total
      modifies fs`files
      ensures ProcessFile(BatchEnv(tool, outputFormat), old(fs.files), filePath, i, total)
        == FileOutcome(result, newEvents, fs.files)
    {
      ghost var env := BatchEnv(tool, outputFormat);
      newEvents := [];
      if hasProgressCallback {
        newEvents := newEvents + [ProgressEvent(Processing, i - 1, total)];
      }
      assert newEvents == Notify(env, Processing, i - 1, total);
      var fileInfo := ffmpeg.GetAudioInfo(fs, tool, filePath);
      WrapperProbe(ffmpeg.ffmpegPath, ffmpeg.formatConfig, tool, qualityPreset, outputFormat, fs.files, filePath);
      if fileInfo.Failure? {
        ProcessFileProbeFailed(env, fs.files, filePath, i, total, fileInfo.error);
        return Failed(filePath, fileInfo.error), newEvents;
      }
      result, newEvents := ConvertProbed(fs, tool, filePath, outputFormat, i, total, fileInfo.value, newEvents);
    }

    /** The rest of the `try` block once the probe has answered `info`: the
        video notice, naming, conversion and the completion call. */
    method ConvertProbed(fs: FileSystem, tool: Transcoder, filePath: string, outputFormat: string, i: nat, total: nat,
                         info: MediaInfo, start: seq<ProgressEvent>)
      returns (result: ConversionResult, newEvents: seq<ProgressEvent>)
      requires 1 <= i <= total
      requires BatchEnv(tool, outputFormat).services.probe(fs.files, filePath) == Success(info)
      requires start == Notify(BatchEnv(tool, outputFormat), Processing, i - 1, total)
      modifies fs`files
      ensures ProcessFile(BatchEnv(tool, outputFormat), old(fs.files), filePath, i, total)
        == FileOutcome(result, newEvents, fs.files)
    {
      ghost var env := BatchEnv(tool, outputFormat);
      newEvents := AnnounceVideo(tool, outputFormat, i, total, info, start);
      ghost var files0 := fs.files;
      var converted := ConvertNamed(fs, tool, filePath, outputFormat);
      ProcessFileAfterProbe(env, files0, filePath, i, total, info, converted);
      if converted.Failure? {
        return Failed(filePath, converted.error), newEvents;
      }
      result := Converted(filePath, converted.value, info.format, outputFormat, info);
      if hasProgressCallback {
        newEvents := newEvents + [ProgressEvent(Completed, i, total)];
      }
    }

    /** The video notice of the `try` block, after the calls in `start`. */
    method AnnounceVideo(tool: Transcoder, outputFormat: string, i: nat, total: nat, info: MediaInfo,
                         start: seq<ProgressEvent>)
      returns (newEvents: seq<ProgressEvent>)
      requires 1 <= i
      ensures newEvents == start + Notice(BatchEnv(tool, outputFormat), info, i, total)
    {
      newEvents := start;
      if info.isVideo && hasProgressCallback {
        var kind := if outputFormat == "mp4" then ConvertingVideo else ExtractingAudio;
        newEvents := newEvents + [ProgressEvent(kind, i - 1, total)];
      }
    }

    /** The naming and conversion steps of the `try` block: the answer of
        the service the batch uses, and the disk it leaves. */
    method ConvertNamed(fs: FileSystem, tool: Transcoder, filePath: string, outputFormat: string)
      returns (converted: Result<string, ConversionError>)
      modifies fs`files
      ensures var svc := BatchEnv(tool, outputFormat).services;
        converted == svc.convert(old(fs.files), filePath, svc.outputPath(old(fs.files), filePath))
      ensures fs.files == if converted.Success? then old(fs.files) + {converted.value}
        else AfterFailure(BatchEnv(tool, outputFormat), old(fs.files), filePath,
                          BatchEnv(tool, outputFormat).services.outputPath(old(fs.files), filePath))
    {
      ghost var files0 := fs.files;
      var outputPath := fileHandler.GetOutputPath(fs, filePath, outputFormat);
      converted := ConvertTo(fs, tool, filePath, outputFormat, outputPath);
      WrapperConvert(ffmpeg.ffmpegPath, ffmpeg.formatConfig, tool, qualityPreset, outputFormat, files0, filePath);
    }

    /** The conversion call of the `try` block: `convert_video` with the
        preset for mp4, `convert_audio` otherwise. */
    method ConvertTo(fs: FileSystem, tool: Transcoder, filePath: string, outputFormat: string, outputPath: string)
      returns (converted: Result<string, ConversionError>)
      modifies fs`files
      ensures (converted, fs.files)
        == Convert(ffmpeg.ffmpegPath, ffmpeg.formatConfig, tool, qualityPreset, outputFormat, old(fs.files), filePath, outputPath)
    {
      if outputFormat == "mp4" {
        converted := ffmpeg.ConvertVideo(fs, tool, filePath, outputFormat, Some(outputPath), qualityPreset);
      } else {
        converted := ffmpeg.ConvertAudio(fs, tool, filePath, outputFormat, Some(outputPath));
      }
    }
  }
}
