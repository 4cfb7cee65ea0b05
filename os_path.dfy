/** The parts of Python's `os.path` module the converter uses, with POSIX
    semantics ('/' is the only separator), and the file system itself as a
    set of existing paths. */
module OsPath {
  import opened PyStrings

  /** `s.rfind(c)` for one character: the last index of `c`, or -1. */
  function RFind(s: string, c: char): (r: int)
    ensures -1 <= r < |s|
    ensures r >= 0 ==> s[r] == c
    ensures forall k :: r < k < |s| ==> s[k] != c
  {
    if s == [] then -1 else if s[|s| - 1] == c then |s| - 1 else RFind(s[..|s| - 1], c)
  }

  lemma {:induction false} RFindAppend(q: string, x: string, c: char)
    ensures RFind(q + x, c) == if c in x then |q| + RFind(x, c) else RFind(q, c)
    decreases |x|
  {
    if x == [] {
      assert q + x == q;
    } else {
      var n := |x| - 1;
      assert (q + x)[..|q + x| - 1] == q + x[..n];
      RFindAppend(q, x[..n], c);
      if x[n] != c {
        assert c in x <==> c in x[..n] by {
          assert x == x[..n] + [x[n]];
        }
      }
    }
  }

  /** `os.path.splitext(p)`: the extension runs from the last '.' of the
      final path component, provided something other than '.' comes before
      that dot in the component (so `.bashrc` has no extension). */
  function SplitExt(p: string): (r: (string, string))
    ensures r.0 + r.1 == p
    ensures r.1 == [] || (r.1[0] == '.' && '.' !in r.1[1..] && '/' !in r.1)
  {
    var sepIndex := RFind(p, '/');
    var dotIndex := RFind(p, '.');
    if dotIndex > sepIndex && exists k :: sepIndex + 1 <= k < dotIndex && p[k] != '.' then
      (p[..dotIndex], p[dotIndex..])
    else
      (p, [])
  }

  function LStripChar(s: string, c: char): (r: string)
    ensures |r| <= |s| && r == s[|s| - |r|..]
    ensures r == [] || r[0] != c
    ensures forall k :: 0 <= k < |s| - |r| ==> s[k] == c
  {
    if s != [] && s[0] == c then LStripChar(s[1..], c) else s
  }

  function RStripChar(s: string, c: char): (r: string)
    ensures |r| <= |s| && r == s[..|r|]
    ensures r == [] || r[|r| - 1] != c
  {
    if s != [] && s[|s| - 1] == c then RStripChar(s[..|s| - 1], c) else s
  }

  /** `os.path.splitext(p)[1].lower().lstrip(".")`: the extension of `p` in
      lower case and without its dot. */
  function Extension(p: string): (e: string)
    ensures '.' !in e
    ensures e == if SplitExt(p).1 == [] then [] else Lower(SplitExt(p).1[1..])
  {
    var ext := SplitExt(p).1;
    LowerExtension(ext);
    LStripChar(Lower(ext), '.')
  }

  /** Lower-casing keeps the single leading dot of an extension and adds
      no other dot. */
  lemma LowerExtension(ext: string)
    requires ext == [] || (ext[0] == '.' && '.' !in ext[1..])
    ensures ext != [] ==> Lower(ext)[0] == '.' && Lower(ext)[1..] == Lower(ext[1..]) && '.' !in Lower(ext[1..])
  {
    if ext != [] {
      var tail := Lower(ext[1..]);
      forall k | 0 <= k < |tail| ensures tail[k] != '.' {
        assert ext[1..][k] in ext[1..];
      }
    }
  }

  /** The extension of `q + "." + fmt`, when `q` ends inside a file name
      with something other than a dot, is `fmt` in lower case. */
  lemma ExtensionOfTarget(q: string, fmt: string)
    requires q != [] && q[|q| - 1] != '.' && q[|q| - 1] != '/'
    requires '.' !in fmt && '/' !in fmt
    ensures SplitExt(q + "." + fmt) == (q, "." + fmt)
    ensures Extension(q + "." + fmt) == Lower(fmt)
  {
    var p := q + "." + fmt;
    LastSeparatorsOfTarget(q, fmt);
    assert p[|q| - 1] != '.';
    assert p[..|q|] == q && p[|q|..] == "." + fmt;
  }

  /** In `q + "." + fmt` the last dot is the one added, and the last '/'
      is that of `q`, strictly before the character ahead of the dot. */
  lemma LastSeparatorsOfTarget(q: string, fmt: string)
    requires q != [] && q[|q| - 1] != '/'
    requires '.' !in fmt && '/' !in fmt
    ensures RFind(q + "." + fmt, '.') == |q|
    ensures RFind(q + "." + fmt, '/') == RFind(q, '/') < |q| - 1
  {
    var x := "." + fmt;
    assert q + "." + fmt == q + x;
    assert x[1..] == fmt;
    DotLeadsSuffix(x);
    RFindAbsent(x, '/');
    RFindAppend(q, x, '/');
    RFindAppend(q, x, '.');
  }

  lemma DotLeadsSuffix(x: string)
    requires x != [] && x[0] == '.' && '.' !in x[1..]
    ensures RFind(x, '.') == 0
  {
    forall k | 1 <= k < |x| ensures x[k] != '.' {
      assert x[k] == x[1..][k - 1];
    }
  }

  lemma RFindAbsent(x: string, c: char)
    requires c !in x
    ensures RFind(x, c) == -1
  {
  }

  /** `os.path.basename(p)`: the text after the last '/'. */
  function BaseName(p: string): (r: string)
    ensures '/' !in r && r <= p[RFind(p, '/') + 1..]
  {
    p[RFind(p, '/') + 1..]
  }

  /** `os.path.dirname(p)`: the text up to the last '/', with trailing
      slashes removed unless it consists of slashes only. */
  function DirName(p: string): string {
    var head := p[..RFind(p, '/') + 1];
    if head != [] && exists k :: 0 <= k < |head| && head[k] != '/' then RStripChar(head, '/') else head
  }

  /** What `os.path.join(a, b)` puts before a relative `b`: `a`, with a
      '/' added unless it is empty or already ends with one. */
  function JoinHead(a: string): (h: string)
    ensures h == a || h == a + "/"
    ensures h == [] || h[|h| - 1] == '/'
  {
    if a == [] || a[|a| - 1] == '/' then a else a + "/"
  }

  /** `os.path.join(a, b)` for two components. */
  function JoinPath(a: string, b: string): (r: string)
    ensures b != [] && b[0] == '/' ==> r == b
    ensures (b == [] || b[0] != '/') ==> r == JoinHead(a) + b
  {
    if b != [] && b[0] == '/' then b
    else if a == [] || a[|a| - 1] == '/' then a + b
    else a + "/" + b
  }

  /** The state of the disk: the paths that exist. `os.path.exists` is
      membership, `os.remove` deletes, and a finished transcode adds its
      output. */
  class FileSystem {
    var files: set<string>
    /** Paths whose removal raises (a file in use, or without permission). */
    const undeletable: set<string>

    constructor (files: set<string>, undeletable: set<string>)
      ensures this.files == files && this.undeletable == undeletable
    {
      this.files := files;
      this.undeletable := undeletable;
    }

    /** `os.remove(path)` on an existing path: `ok` is false when it raises. */
    method Remove(path: string) returns (ok: bool)
      requires path in files
      modifies this`files
      ensures ok == (path !in undeletable)
      ensures files == if ok then old(files) - {path} else old(files)
    {
      ok := path !in undeletable;
      if ok {
        files := files - {path};
      }
    }

    /** The transcoder writes `path` (it is run with `-y`, so an existing
        file is overwritten). */
    method Create(path: string)
      modifies this`files
      ensures files == old(files) + {path}
    {
      files := files + {path};
    }
  }
}
