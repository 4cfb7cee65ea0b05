/** `FileHandler`: which dropped paths are accepted for conversion, the
    name a converted file gets without overwriting an existing file, and
    the removal of temporary files. The disk is a `FileSystem`. */
module FileHandling {
  import opened PyStrings
  import opened OsPath

  /** `max_files` when the application settings do not set it. */
  const DefaultMaxFiles: int := 20

  /** The extensions accepted as input, lower case and without the dot
      (".mov" is not among them). */
  const SupportedFormats: set<string> := {"mp3", "wav", "aac", "m4a", "wma", "ogg", "flac", "mkv", "mp4"}

  // ----------------------------------------------------------------------
  // validate_files

  /** Python's `xs[:n]`: a negative `n` counts from the end. */
  function Prefix(xs: seq<string>, n: int): (r: seq<string>)
    ensures r <= xs
    ensures 0 <= n ==> |r| == if n < |xs| then n else |xs|
    ensures n < 0 ==> |r| == if |xs| + n > 0 then |xs| + n else 0
  {
    if 0 <= n then (if n < |xs| then xs[..n] else xs)
    else if |xs| + n > 0 then xs[..|xs| + n] else []
  }

  /** The paths looked at: all of them, or only the first `maxFiles` when
      there are more. */
  function Considered(paths: seq<string>, maxFiles: int): (r: seq<string>)
    ensures r <= paths
    ensures 0 <= maxFiles ==> |r| <= maxFiles
    ensures |paths| <= maxFiles ==> r == paths
  {
    if |paths| > maxFiles then Prefix(paths, maxFiles) else paths
  }

  /** A normalised path is kept when it exists and its extension is supported. */
  predicate Acceptable(files: set<string>, supported: set<string>, p: string) {
    p in files && Extension(p) in supported
  }

  /** The normalised form of each path, in order. */
  function Normalized(normalize: string -> string, ps: seq<string>): (r: seq<string>)
    ensures |r| == |ps| && forall k :: 0 <= k < |ps| ==> r[k] == normalize(ps[k])
  {
    seq(|ps|, k requires 0 <= k < |ps| => normalize(ps[k]))
  }

  /** The test `validate_files` applies to a normalised path. */
  function AcceptedBy(files: set<string>, supported: set<string>): string -> bool {
    p => Acceptable(files, supported, p)
  }

  /** The normalised paths of `ps` that pass `keep`, in the order of `ps`. */
  function Accepted(keep: string -> bool, normalize: string -> string, ps: seq<string>): (r: seq<string>)
    ensures |r| <= |ps|
    ensures forall k :: 0 <= k < |r| ==> keep(r[k])
    decreases |ps|
  {
    if ps == [] then []
    else
      var n := normalize(ps[|ps| - 1]);
      Accepted(keep, normalize, ps[..|ps| - 1]) + (if keep(n) then [n] else [])
  }

  /** What `validate_files` returns: never more than `maxFiles` paths, each
      existing and of a supported format. */
  function ValidFiles(files: set<string>, supported: set<string>, normalize: string -> string,
                      paths: seq<string>, maxFiles: int): (r: seq<string>)
    ensures 0 <= maxFiles ==> |r| <= maxFiles
    ensures |r| <= |paths|
    ensures forall k :: 0 <= k < |r| ==> r[k] in files && Extension(r[k]) in supported
  {
    var r := Accepted(AcceptedBy(files, supported), normalize, Considered(paths, maxFiles));
    assert forall k :: 0 <= k < |r| ==> AcceptedBy(files, supported)(r[k]);
    r
  }

  /** `a` is `b` with some elements left out, the rest in their order. */
  predicate Subsequence(a: seq<string>, b: seq<string>)
    decreases |b|
  {
    if a == [] then true
    else if b == [] then false
    else (a[|a| - 1] == b[|b| - 1] && Subsequence(a[..|a| - 1], b[..|b| - 1])) || Subsequence(a, b[..|b| - 1])
  }

  lemma {:induction false} SubsequenceDrop(a: seq<string>, b: seq<string>)
    requires Subsequence(a, b)
    ensures a != [] ==> Subsequence(a[..|a| - 1], b)
    decreases |b|
  {
    if a != [] && b != [] {
      if a[|a| - 1] == b[|b| - 1] && Subsequence(a[..|a| - 1], b[..|b| - 1]) {
        SubsequenceExtend(a[..|a| - 1], b[..|b| - 1], b[|b| - 1]);
        assert b[..|b| - 1] + [b[|b| - 1]] == b;
      } else {
        SubsequenceDrop(a, b[..|b| - 1]);
        SubsequenceExtend(a[..|a| - 1], b[..|b| - 1], b[|b| - 1]);
        assert b[..|b| - 1] + [b[|b| - 1]] == b;
      }
    }
  }

  /** Appending to the longer sequence keeps a subsequence one. */
  lemma SubsequenceExtend(a: seq<string>, b: seq<string>, x: string)
    requires Subsequence(a, b)
    ensures Subsequence(a, b + [x])
  {
    assert (b + [x])[..|b + [x]| - 1] == b;
  }

  /** The accepted paths are the normalised inputs with the rejected ones
      left out, in their original order. */
  lemma {:induction false} AcceptedIsSubsequence(keep: string -> bool, normalize: string -> string, ps: seq<string>)
    ensures Subsequence(Accepted(keep, normalize, ps), Normalized(normalize, ps))
    decreases |ps|
  {
    if ps != [] {
      var front := ps[..|ps| - 1];
      var n := normalize(ps[|ps| - 1]);
      var a := Accepted(keep, normalize, front);
      var all := Normalized(normalize, ps);
      AcceptedIsSubsequence(keep, normalize, front);
      assert all[..|all| - 1] == Normalized(normalize, front);
      assert all[|all| - 1] == n;
      if keep(n) {
        assert (a + [n])[..|a + [n]| - 1] == a;
      } else {
        assert a + [] == a;
      }
    }
  }

  /** A path is accepted exactly when some input normalises to it and it is
      acceptable: a rejected path never keeps a later one out. */
  lemma {:induction false} AcceptedMembers(keep: string -> bool, normalize: string -> string, ps: seq<string>, x: string)
    ensures x in Accepted(keep, normalize, ps) <==> keep(x) && exists k :: 0 <= k < |ps| && normalize(ps[k]) == x
    decreases |ps|
  {
    if ps != [] {
      var front := ps[..|ps| - 1];
      var last := |ps| - 1;
      AcceptedMembers(keep, normalize, front, x);
      if exists k :: 0 <= k < |front| && normalize(front[k]) == x {
        var k :| 0 <= k < |front| && normalize(front[k]) == x;
        assert ps[k] == front[k];
      }
      if exists k :: 0 <= k < |ps| && normalize(ps[k]) == x {
        var k :| 0 <= k < |ps| && normalize(ps[k]) == x;
        if k < last {
          assert front[k] == ps[k];
        }
      }
    }
  }

  /** Only the first `maxFiles` inputs are looked at; that these are the ones
      kept is `AcceptedMembers` on `Considered`. */
  lemma ValidFilesFromFirst(files: set<string>, supported: set<string>, normalize: string -> string,
                            paths: seq<string>, maxFiles: int)
    requires 0 <= maxFiles
    ensures Subsequence(ValidFiles(files, supported, normalize, paths, maxFiles),
                        Normalized(normalize, paths[..if |paths| <= maxFiles then |paths| else maxFiles]))
  {
    var c := Considered(paths, maxFiles);
    assert c == paths[..if |paths| <= maxFiles then |paths| else maxFiles];
    AcceptedIsSubsequence(AcceptedBy(files, supported), normalize, c);
  }

  // ----------------------------------------------------------------------
  // get_output_path

  /** The counter part of the `k`-th name tried: nothing, then "_k". */
  function Counter(k: nat): (r: string)
    ensures k == 0 <==> r == []
  {
    if k == 0 then "" else "_" + IntToString(k)
  }

  /** The file name of the input without its extension. */
  function Stem(inputPath: string): (r: string)
    ensures '/' !in r
  {
    var base := BaseName(inputPath);
    var r := SplitExt(base).0;
    assert r <= base;
    r
  }

  /** The `k`-th name tried: `stem_converted.fmt` for 0, then
      `stem_converted_k.fmt`, in the directory of the input. */
  function Candidate(inputPath: string, outputFormat: string, k: nat): string {
    Named(DirName(inputPath), Stem(inputPath), outputFormat, k)
  }

  function Named(directory: string, stem: string, outputFormat: string, k: nat): string {
    JoinPath(directory, FileName(stem, outputFormat, k))
  }

  function FileName(stem: string, outputFormat: string, k: nat): string {
    Converted(stem, k) + "." + outputFormat
  }

  /** The name before the dot: `stem_converted` or `stem_converted_k`. */
  function Converted(stem: string, k: nat): string {
    stem + "_converted" + Counter(k)
  }

  /** A file name never starts with '/', so joining only puts the directory
      in front of it. */
  lemma NamedParts(directory: string, stem: string, outputFormat: string, k: nat)
    requires '/' !in stem
    ensures Named(directory, stem, outputFormat, k) == JoinHead(directory) + FileName(stem, outputFormat, k)
  {
    var x := FileName(stem, outputFormat, k);
    assert x[0] != '/' by {
      if stem == [] {
        assert x[0] == "_converted"[0];
      } else {
        assert x[0] == stem[0];
      }
    }
  }

  lemma CancelPrefix(a: string, u: string, v: string)
    requires a + u == a + v
    ensures u == v
  {
    assert u == (a + u)[|a|..];
  }

  lemma CancelSuffix(u: string, v: string, d: string, t: string)
    requires u + d + t == v + d + t
    ensures u == v
  {
    assert |u| == |v|;
    assert u == (u + d + t)[..|u|];
    assert v == (v + d + t)[..|v|];
  }

  /** Different counters give different file names. */
  lemma FileNameInjective(stem: string, outputFormat: string, j: nat, k: nat)
    requires FileName(stem, outputFormat, j) == FileName(stem, outputFormat, k)
    ensures j == k
  {
    ConvertedOfFileName(stem, outputFormat, j, k);
    CounterOfConverted(stem, j, k);
    CounterInjective(j, k);
  }

  lemma ConvertedOfFileName(stem: string, outputFormat: string, j: nat, k: nat)
    requires FileName(stem, outputFormat, j) == FileName(stem, outputFormat, k)
    ensures Converted(stem, j) == Converted(stem, k)
  {
    CancelSuffix(Converted(stem, j), Converted(stem, k), ".", outputFormat);
  }

  lemma CounterOfConverted(stem: string, j: nat, k: nat)
    requires Converted(stem, j) == Converted(stem, k)
    ensures Counter(j) == Counter(k)
  {
    CancelPrefix(stem + "_converted", Counter(j), Counter(k));
  }

  /** Different counters are written differently. */
  lemma CounterInjective(j: nat, k: nat)
    requires Counter(j) == Counter(k)
    ensures j == k
  {
    if j != 0 && k != 0 {
      CancelPrefix("_", IntToString(j), IntToString(k));
      IntToStringInjective(j, k);
    }
  }

  /** Different counters give different names. */
  lemma NamedInjective(directory: string, stem: string, outputFormat: string, j: nat, k: nat)
    requires '/' !in stem
    requires Named(directory, stem, outputFormat, j) == Named(directory, stem, outputFormat, k)
    ensures j == k
  {
    NamedParts(directory, stem, outputFormat, j);
    NamedParts(directory, stem, outputFormat, k);
    CancelPrefix(JoinHead(directory), FileName(stem, outputFormat, j), FileName(stem, outputFormat, k));
    FileNameInjective(stem, outputFormat, j, k);
  }

  lemma CandidateInjective(inputPath: string, outputFormat: string, j: nat, k: nat)
    requires Candidate(inputPath, outputFormat, j) == Candidate(inputPath, outputFormat, k)
    ensures j == k
  {
    NamedInjective(DirName(inputPath), Stem(inputPath), outputFormat, j, k);
  }

  lemma FirstName(stem: string, outputFormat: string)
    ensures stem + "_converted." + outputFormat == stem + "_converted" + Counter(0) + "." + outputFormat
  {
  }

  lemma NextName(stem: string, outputFormat: string, k: nat)
    requires k != 0
    ensures stem + "_converted_" + IntToString(k) + "." + outputFormat == stem + "_converted" + Counter(k) + "." + outputFormat
  {
  }

  /** The names tried for one input, by counter. */
  function CandidateNames(inputPath: string, outputFormat: string): (name: nat -> string)
    ensures forall k: nat :: name(k) == Candidate(inputPath, outputFormat, k)
  {
    (k: nat) => Candidate(inputPath, outputFormat, k)
  }

  /** Different counters give different names. */
  ghost predicate Injective(name: nat -> string) {
    forall i: nat, j: nat :: name(i) == name(j) ==> i == j
  }

  lemma CandidateNamesInjective(inputPath: string, outputFormat: string)
    ensures Injective(CandidateNames(inputPath, outputFormat))
  {
    var name := CandidateNames(inputPath, outputFormat);
    forall i: nat, j: nat | name(i) == name(j) ensures i == j {
      CandidateInjective(inputPath, outputFormat, i, j);
    }
  }

  /** The names of the counters below `n`. */
  function NamesBelow(name: nat -> string, n: nat): (r: set<string>)
    requires Injective(name)
    ensures |r| == n
    ensures forall x :: x in r <==> exists k: nat :: k < n && name(k) == x
  {
    if n == 0 then {} else NamesBelow(name, n - 1) + {name(n - 1)}
  }

  /** When the first `n` names all exist, there are at least `n` files. */
  lemma NamesFit(files: set<string>, name: nat -> string, n: nat)
    requires Injective(name)
    requires forall j: nat :: j < n ==> name(j) in files
    ensures n <= |files|
  {
    SubsetCard(NamesBelow(name, n), files);
  }

  lemma {:induction false} SubsetCard(a: set<string>, b: set<string>)
    requires a <= b
    ensures |a| <= |b|
    decreases |a|
  {
    if a != {} {
      var x :| x in a;
      SubsetCard(a - {x}, b - {x});
    }
  }

  /** The first counter from `k` on whose name does not exist; it is found
      within the first `|files| + 1` names because the names differ. */
  function FirstFree(files: set<string>, name: nat -> string, k: nat): (r: nat)
    requires Injective(name)
    requires forall j: nat :: j < k ==> name(j) in files
    ensures k <= r <= |files| && name(r) !in files
    ensures forall j: nat :: j < r ==> name(j) in files
    decreases |files| - k
  {
    NamesFit(files, name, k);
    if name(k) !in files then k
    else
      NamesFit(files, name, k + 1);
      FirstFree(files, name, k + 1)
  }

  /** The least counter with a free name is the one found by the search. */
  lemma {:induction false} FirstFreeIsLeast(files: set<string>, name: nat -> string, m: nat, k: nat)
    requires Injective(name)
    requires m <= k && name(k) !in files
    requires forall j: nat :: j < k ==> name(j) in files
    ensures FirstFree(files, name, m) == k
    decreases k - m
  {
    if m < k {
      FirstFreeIsLeast(files, name, m + 1, k);
    }
  }

  /** What `get_output_path` returns: a name that does not exist, and the
      first such name among `stem_converted.fmt`, `stem_converted_1.fmt`, ... */
  function ResolvedOutputPath(files: set<string>, inputPath: string, outputFormat: string): (r: string)
    ensures r !in files
    ensures Candidate(inputPath, outputFormat, 0) !in files ==> r == Candidate(inputPath, outputFormat, 0)
    ensures exists k: nat ::
      (r == Candidate(inputPath, outputFormat, k) && forall j: nat :: j < k ==> Candidate(inputPath, outputFormat, j) in files)
  {
    var name := CandidateNames(inputPath, outputFormat);
    CandidateNamesInjective(inputPath, outputFormat);
    var k := FirstFree(files, name, 0);
    assert forall j: nat :: j < k ==> Candidate(inputPath, outputFormat, j) in files;
    name(k)
  }

  /** Every name tried carries the requested format as its extension. */
  lemma CandidateExtension(inputPath: string, outputFormat: string, k: nat)
    requires '.' !in outputFormat && '/' !in outputFormat
    ensures Extension(Candidate(inputPath, outputFormat, k)) == Lower(outputFormat)
  {
    NamedExtension(DirName(inputPath), Stem(inputPath), outputFormat, k);
  }

  lemma NamedExtension(directory: string, stem: string, outputFormat: string, k: nat)
    requires '/' !in stem && '.' !in outputFormat && '/' !in outputFormat
    ensures Extension(Named(directory, stem, outputFormat, k)) == Lower(outputFormat)
  {
    NamedParts(directory, stem, outputFormat, k);
    var h := JoinHead(directory);
    var y := Converted(stem, k);
    ConvertedEnd(stem, k);
    AppendKeepsEnd(h, y);
    JoinDotted(h, y, outputFormat);
    TargetExtension(Named(directory, stem, outputFormat, k), h + y, outputFormat);
  }

  lemma JoinDotted(h: string, y: string, outputFormat: string)
    ensures h + (y + "." + outputFormat) == (h + y) + "." + outputFormat
  {
  }

  lemma AppendKeepsEnd(h: string, y: string)
    requires y != []
    ensures (h + y)[|h + y| - 1] == y[|y| - 1]
  {
  }

  /** A stem with `_converted` and a counter ends in a letter or a digit. */
  lemma ConvertedEnd(stem: string, k: nat)
    ensures var y := Converted(stem, k); y != [] && y[|y| - 1] != '.' && y[|y| - 1] != '/'
  {
    var a := stem + "_converted";
    assert a[|a| - 1] == 'd';
    if k != 0 {
      var digits := IntToString(k);
      assert Converted(stem, k)[|Converted(stem, k)| - 1] == digits[|digits| - 1];
    }
  }

  lemma TargetExtension(p: string, q: string, outputFormat: string)
    requires p == q + "." + outputFormat && q != [] && q[|q| - 1] != '.' && q[|q| - 1] != '/'
    requires '.' !in outputFormat && '/' !in outputFormat
    ensures Extension(p) == Lower(outputFormat)
  {
    ExtensionOfTarget(q, outputFormat);
  }

  // ----------------------------------------------------------------------
  // cleanup_temp_files

  /** The paths left after removing each listed path: those that were not
      listed, and the listed ones whose removal raises. */
  function AfterCleanup(files: set<string>, undeletable: set<string>, paths: seq<string>): (r: set<string>)
    ensures r <= files
    ensures forall p :: p in paths && p !in undeletable ==> p !in r
    ensures forall p :: p in files && (p !in paths || p in undeletable) ==> p in r
  {
    files - (set p | p in paths && p !in undeletable)
  }

  /** `FileHandler`: the limit on the number of files, the accepted formats
      and the path normalisation it applies. */
  class FileHandler {
    const maxFiles: int
    const supportedFormats: set<string>
    /** `os.path.normpath`, whose rules are not part of this model. */
    const normalize: string -> string

    /** `max_files` comes from the application settings, 20 by default. */
    constructor (appSettings: map<string, int>, normalize: string -> string)
      ensures maxFiles == if "max_files" in appSettings then appSettings["max_files"] else DefaultMaxFiles
      ensures supportedFormats == SupportedFormats && this.normalize == normalize
    {
      maxFiles := if "max_files" in appSettings then appSettings["max_files"] else DefaultMaxFiles;
      supportedFormats := SupportedFormats;
      this.normalize := normalize;
    }

    /** `validate_files`: truncates the list, then keeps each normalised path
        that exists and has a supported extension, skipping the others. */
    method ValidateFiles(fs: FileSystem, filePaths: seq<string>) returns (validFiles: seq<string>)
      ensures validFiles == ValidFiles(fs.files, supportedFormats, normalize, filePaths, maxFiles)
    {
      var paths := filePaths;
      if |paths| > maxFiles {
        paths := Prefix(paths, maxFiles);
      }
      validFiles := [];
      for i := 0 to |paths|
        invariant validFiles == Accepted(AcceptedBy(fs.files, supportedFormats), normalize, paths[..i])
      {
        assert paths[..i + 1][..i] == paths[..i];
        var normalizedPath := normalize(paths[i]);
        if normalizedPath !in fs.files {
          continue;
        }
        var ext := Extension(normalizedPath);
        if ext !in supportedFormats {
          continue;
        }
        validFiles := validFiles + [normalizedPath];
      }
      assert paths[..|paths|] == paths;
    }

    /** `get_output_path`: tries `stem_converted.fmt`, then
        `stem_converted_1.fmt`, `stem_converted_2.fmt`, ... until one does
        not exist. The disk is only read. */
    method GetOutputPath(fs: FileSystem, inputPath: string, outputFormat: string) returns (outputPath: string)
      ensures outputPath == ResolvedOutputPath(fs.files, inputPath, outputFormat)
    {
      var directory := DirName(inputPath);
      var filename := SplitExt(BaseName(inputPath)).0;
      assert filename == Stem(inputPath);
      outputPath := JoinPath(directory, filename + "_converted." + outputFormat);
      FirstName(filename, outputFormat);
      var counter := 1;
      ghost var name := CandidateNames(inputPath, outputFormat);
      CandidateNamesInjective(inputPath, outputFormat);
      while outputPath in fs.files
        invariant 1 <= counter && outputPath == name(counter - 1)
        invariant forall j: nat :: j < counter - 1 ==> name(j) in fs.files
        decreases |fs.files| - counter
      {
        NamesFit(fs.files, name, counter);
        outputPath := JoinPath(directory, filename + "_converted_" + IntToString(counter) + "." + outputFormat);
        NextName(filename, outputFormat, counter);
        counter := counter + 1;
      }
      FirstFreeIsLeast(fs.files, name, 0, counter - 1);
    }

    /** `cleanup_temp_files`: removes each listed path that exists; a path
        whose removal raises stays, and the loop goes on. */
    method CleanupTempFiles(fs: FileSystem, filePaths: seq<string>)
      modifies fs`files
      ensures fs.files == AfterCleanup(old(fs.files), fs.undeletable, filePaths)
    {
      for i := 0 to |filePaths|
        invariant fs.files == AfterCleanup(old(fs.files), fs.undeletable, filePaths[..i])
      {
        var path := filePaths[i];
        assert filePaths[..i + 1] == filePaths[..i] + [path];
        if path in fs.files {
          var removed := fs.Remove(path);
        }
      }
      assert filePaths[..|filePaths|] == filePaths;
    }
  }
}
