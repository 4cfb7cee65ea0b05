/** The drop target's tokenizer: Tk hands a drop over as one string in
    which paths are separated by whitespace and a path holding spaces is
    wrapped in braces. A character loop with two pieces of state (inside
    braces or not, and the path read so far) cuts it into paths. */
module DragDrop {
  import opened PyStrings

  /** `if current_path: file_paths.append(current_path)`. */
  function Flush(cur: string): (r: seq<string>)
    ensures cur == [] ==> r == []
    ensures cur != [] ==> r == [cur]
  {
    if cur == [] then [] else [cur]
  }

  /** The paths the loop emits from `data` onwards, starting inside braces
      or not and with `cur` read so far. An opening brace only enters brace
      mode; a closing brace leaves it and ends the current path; inside
      braces every other character is kept; outside them whitespace ends
      the current path and anything else is kept. */
  function Scan(data: string, inBraces: bool, cur: string): seq<string>
    decreases |data|
  {
    if data == [] then Flush(cur)
    else
      var c := data[0];
      if c == '{' then Scan(data[1..], true, cur)
      else if c == '}' then Flush(cur) + Scan(data[1..], false, [])
      else if inBraces then Scan(data[1..], true, cur + [c])
      else if IsSpace(c) then Flush(cur) + Scan(data[1..], false, [])
      else Scan(data[1..], false, cur + [c])
  }

  /** The paths of a whole drop string. */
  function Tokens(data: string): seq<string> {
    Scan(data, false, [])
  }

  /** The loop of `_on_drop`, followed by the final flush. */
  method ParseDropData(data: string) returns (filePaths: seq<string>)
    ensures filePaths == Tokens(data)
  {
    filePaths := [];
    var currentPath: string := [];
    var inBraces := false;
    for i := 0 to |data|
      invariant filePaths + Scan(data[i..], inBraces, currentPath) == Tokens(data)
    {
      var c := data[i];
      assert data[i..][1..] == data[i + 1..];
      if c == '{' {
        inBraces := true;
      } else if c == '}' {
        inBraces := false;
        if currentPath != [] {
          filePaths := filePaths + [currentPath];
          currentPath := [];
        }
      } else if inBraces {
        currentPath := currentPath + [c];
      } else if IsSpace(c) && !inBraces {
        if currentPath != [] {
          filePaths := filePaths + [currentPath];
          currentPath := [];
        }
      } else {
        currentPath := currentPath + [c];
      }
    }
    if currentPath != [] {
      filePaths := filePaths + [currentPath];
    }
  }

  /** A path the tokenizer can emit: non-empty and free of braces. */
  predicate Clean(p: string) {
    p != [] && '{' !in p && '}' !in p
  }

  lemma CleanAppend(a: seq<string>, b: seq<string>)
    requires forall k :: 0 <= k < |a| ==> Clean(a[k])
    requires forall k :: 0 <= k < |b| ==> Clean(b[k])
    ensures forall k :: 0 <= k < |a + b| ==> Clean((a + b)[k])
  {
    forall k | 0 <= k < |a + b| ensures Clean((a + b)[k]) {
      if k < |a| {
        assert (a + b)[k] == a[k];
      } else {
        assert (a + b)[k] == b[k - |a|];
      }
    }
  }

  /** No emitted path is empty, and none holds a brace. */
  lemma {:induction false} ScanClean(data: string, inBraces: bool, cur: string)
    requires '{' !in cur && '}' !in cur
    ensures forall k :: 0 <= k < |Scan(data, inBraces, cur)| ==> Clean(Scan(data, inBraces, cur)[k])
    decreases |data|
  {
    if data != [] {
      var c, rest := data[0], data[1..];
      if c == '{' {
        ScanClean(rest, true, cur);
      } else if c == '}' || (!inBraces && IsSpace(c)) {
        ScanClean(rest, false, []);
        CleanAppend(Flush(cur), Scan(rest, false, []));
      } else {
        ScanClean(rest, inBraces, cur + [c]);
      }
    }
  }

  lemma TokensClean(data: string)
    ensures forall k :: 0 <= k < |Tokens(data)| ==> Tokens(data)[k] != []
    ensures forall k :: 0 <= k < |Tokens(data)| ==> '{' !in Tokens(data)[k] && '}' !in Tokens(data)[k]
  {
    ScanClean(data, false, []);
  }

  /** The characters that end up in some path: `data` without its braces
      and without the whitespace met outside braces. */
  function Kept(data: string, inBraces: bool): (r: string)
    ensures |r| <= |data|
    decreases |data|
  {
    if data == [] then []
    else
      var c := data[0];
      if c == '{' then Kept(data[1..], true)
      else if c == '}' then Kept(data[1..], false)
      else if inBraces || !IsSpace(c) then [c] + Kept(data[1..], inBraces)
      else Kept(data[1..], false)
  }

  lemma ConcatFlush(cur: string, ps: seq<string>)
    ensures Concat(Flush(cur) + ps) == cur + Concat(ps)
  {
    if cur == [] {
      assert Flush(cur) + ps == ps;
    } else {
      var xs := Flush(cur) + ps;
      assert xs != [] && xs[0] == cur && xs[1..] == ps;
    }
  }

  /** The emitted paths, run together, are the text read so far followed
      by the kept characters of the rest. */
  lemma {:induction false} ScanConcat(data: string, inBraces: bool, cur: string)
    ensures Concat(Scan(data, inBraces, cur)) == cur + Kept(data, inBraces)
    decreases |data|
  {
    if data == [] {
      ConcatFlush(cur, []);
    } else {
      var c, rest := data[0], data[1..];
      if c == '{' {
        ScanConcat(rest, true, cur);
      } else if c == '}' || (!inBraces && IsSpace(c)) {
        ScanConcat(rest, false, []);
        ConcatFlush(cur, Scan(rest, false, []));
      } else {
        ScanConcat(rest, inBraces, cur + [c]);
      }
    }
  }

  lemma TokensConcat(data: string)
    ensures Concat(Tokens(data)) == Kept(data, false)
  {
    ScanConcat(data, false, []);
  }

  /** A word: text without braces or whitespace. */
  predicate Bare(x: string) {
    '{' !in x && '}' !in x && NoSpace(x)
  }

  /** Outside braces a word is read into the current path. */
  lemma {:induction false} ScanBare(x: string, rest: string, cur: string)
    requires Bare(x)
    ensures Scan(x + rest, false, cur) == Scan(rest, false, cur + x)
    decreases |x|
  {
    if x == [] {
      assert x + rest == rest && cur + x == cur;
    } else {
      assert (x + rest)[0] == x[0] && (x + rest)[1..] == x[1..] + rest;
      assert !IsSpace(x[0]);
      assert Bare(x[1..]) by {
        assert forall k :: 0 <= k < |x[1..]| ==> x[1..][k] == x[k + 1];
      }
      ScanBare(x[1..], rest, cur + [x[0]]);
      assert cur + [x[0]] + x[1..] == cur + x;
    }
  }

  /** A non-empty word alone is one path, the word itself. */
  lemma BareToken(x: string)
    requires x != [] && Bare(x)
    ensures Tokens(x) == [x]
  {
    ScanBare(x, [], []);
    assert x + [] == x && [] + x == x;
  }

  /** Whitespace outside braces separates two words. */
  lemma BareWords(x: string, c: char, y: string)
    requires x != [] && Bare(x) && y != [] && Bare(y)
    requires IsSpace(c) && c != '{' && c != '}'
    ensures Tokens(x + [c] + y) == [x, y]
  {
    ScanBare(x, [c] + y, []);
    assert x + [c] + y == x + ([c] + y);
    assert ([c] + y)[1..] == y;
    ScanBare(y, [], []);
    assert y + [] == y && [] + x == x && [] + y == y;
  }

  /** Inside braces every character but a brace is kept, whitespace
      included, until the closing brace ends the path. */
  lemma {:induction false} ScanBraced(p: string, rest: string, cur: string)
    requires '{' !in p && '}' !in p
    ensures Scan(p + ['}'] + rest, true, cur) == Flush(cur + p) + Scan(rest, false, [])
    decreases |p|
  {
    var s := p + ['}'] + rest;
    if p == [] {
      assert s[0] == '}' && s[1..] == rest;
      assert cur + p == cur;
    } else {
      assert s[0] == p[0] && s[1..] == p[1..] + ['}'] + rest;
      assert p[0] in p;
      assert '{' !in p[1..] && '}' !in p[1..] by {
        assert forall k :: 0 <= k < |p[1..]| ==> p[1..][k] == p[k + 1];
      }
      ScanBraced(p[1..], rest, cur + [p[0]]);
      assert cur + [p[0]] + p[1..] == cur + p;
    }
  }

  /** A braced path is one path with its spaces, and whatever follows is
      read afresh. */
  lemma BracedToken(p: string, rest: string)
    requires Clean(p)
    ensures Tokens(['{'] + p + ['}'] + rest) == [p] + Tokens(rest)
  {
    var s := ['{'] + p + ['}'] + rest;
    assert s[0] == '{' && s[1..] == p + ['}'] + rest;
    ScanBraced(p, rest, []);
    assert [] + p == p;
  }

  /** How Tk writes a list of paths: each in braces, separated by one
      space. */
  function Braced(ps: seq<string>): string {
    if ps == [] then []
    else if |ps| == 1 then ['{'] + ps[0] + ['}']
    else ['{'] + ps[0] + ['}'] + ([' '] + Braced(ps[1..]))
  }

  /** Reading back a list written that way gives the list: any path without
      braces, spaces included, survives the trip. */
  lemma {:induction false} BracedRoundTrip(ps: seq<string>)
    requires forall k :: 0 <= k < |ps| ==> Clean(ps[k])
    ensures Tokens(Braced(ps)) == ps
  {
    if ps == [] {
    } else if |ps| == 1 {
      BracedToken(ps[0], []);
      assert ['{'] + ps[0] + ['}'] + [] == Braced(ps);
      assert Tokens([]) == [];
    } else {
      var tail := Braced(ps[1..]);
      BracedToken(ps[0], [' '] + tail);
      assert ([' '] + tail)[0] == ' ' && ([' '] + tail)[1..] == tail;
      assert Tokens([' '] + tail) == Tokens(tail);
      assert forall k :: 0 <= k < |ps[1..]| ==> ps[1..][k] == ps[k + 1];
      BracedRoundTrip(ps[1..]);
      assert [ps[0]] + ps[1..] == ps;
    }
  }
}
