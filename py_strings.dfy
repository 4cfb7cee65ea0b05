/** The few Python `str` operations the converter relies on, written as
    functions over `seq<char>` with the behaviour CPython gives them:
    `t in s`, `s.split(sep)`, `s.split()`, `s.strip()`, `s.lower()` and
    `str(n)` for a non-negative integer. */
module PyStrings {
  import opened Wrappers

  /** `c.isspace()`: the characters CPython treats as whitespace, which are
      also the separators of `split()` and the characters `strip()` removes. */
  predicate IsSpace(c: char) {
    var n := c as int;
    n == 0x20 || 0x09 <= n <= 0x0D || 0x1C <= n <= 0x1F || n == 0x85 || n == 0xA0
    || n == 0x1680 || 0x2000 <= n <= 0x200A || n == 0x2028 || n == 0x2029
    || n == 0x202F || n == 0x205F || n == 0x3000
  }

  predicate NoSpace(s: string) {
    forall k :: 0 <= k < |s| ==> !IsSpace(s[k])
  }

  predicate AllSpace(s: string) {
    forall k :: 0 <= k < |s| ==> IsSpace(s[k])
  }

  // ----------------------------------------------------------------------
  // Substring search: `t in s`, `s.find(t)`

  predicate OccursAt(s: string, t: string, i: nat) {
    i + |t| <= |s| && s[i..i + |t|] == t
  }

  /** The first index at or after `i` where `t` occurs in `s`. */
  function FindFrom(s: string, t: string, i: nat): (r: Option<nat>)
    requires i <= |s|
    ensures r.Some? ==> i <= r.value && OccursAt(s, t, r.value)
    ensures r.Some? ==> forall j :: i <= j < r.value ==> !OccursAt(s, t, j)
    ensures r.None? ==> forall j :: i <= j <= |s| ==> !OccursAt(s, t, j)
    decreases |s| - i
  {
    if OccursAt(s, t, i) then Some(i)
    else if i == |s| then None
    else FindFrom(s, t, i + 1)
  }

  /** `s.find(t)`, with `None` for -1. */
  function Find(s: string, t: string): Option<nat> {
    FindFrom(s, t, 0)
  }

  /** Python's `t in s`. */
  predicate Contains(s: string, t: string) {
    Find(s, t).Some?
  }

  lemma OccursThenContains(s: string, t: string, j: nat)
    requires OccursAt(s, t, j)
    ensures Contains(s, t) && Find(s, t).value <= j
  {
  }

  /** `t in s` holds exactly when `t` occurs somewhere in `s`. */
  lemma ContainsIff(s: string, t: string)
    ensures Contains(s, t) <==> exists j: nat :: OccursAt(s, t, j)
  {
    if Contains(s, t) {
      assert OccursAt(s, t, Find(s, t).value);
    }
  }

  /** Every character of a contained string is a character of the string. */
  lemma ContainsChars(s: string, t: string, c: char)
    requires Contains(s, t) && c in t
    ensures c in s
  {
    var j := Find(s, t).value;
    var k :| 0 <= k < |t| && t[k] == c;
    assert s[j..j + |t|][k] == s[j + k];
  }

  /** A character of `t` that `s` lacks rules out `t in s`. */
  lemma MissingCharNotContained(s: string, t: string, c: char)
    requires c in t && c !in s
    ensures !Contains(s, t)
  {
    if Contains(s, t) {
      ContainsChars(s, t, c);
    }
  }

  /** An occurrence of `t` is also an occurrence of each prefix of `t`. */
  lemma ContainsPrefixOf(s: string, t: string, u: string)
    requires Contains(s, t) && u <= t
    ensures Contains(s, u)
  {
    var j := Find(s, t).value;
    assert s[j..j + |u|] == t[..|u|];
    OccursThenContains(s, u, j);
  }

  /** What occurs in an occurring string occurs in the whole. */
  lemma ContainsTrans(s: string, u: string, t: string)
    requires Contains(s, u) && Contains(u, t)
    ensures Contains(s, t)
  {
    var i := Find(s, u).value;
    assert s[i..i + |u|] == u;
    ContainsInSlice(s, t, i, i + |u|);
  }

  lemma SuffixOfJoin(a: string, b: string)
    ensures Contains(a + b, b)
  {
    assert (a + b)[|a|..|a| + |b|] == b;
    OccursThenContains(a + b, b, |a|);
  }

  /** An occurrence inside a slice is an occurrence in the whole string. */
  lemma ContainsInSlice(s: string, t: string, a: nat, b: nat)
    requires a <= b <= |s| && Contains(s[a..b], t)
    ensures Contains(s, t)
  {
    var j := Find(s[a..b], t).value;
    assert OccursAt(s[a..b], t, j);
    assert s[a..b][j..j + |t|] == s[a + j..a + j + |t|];
    OccursThenContains(s, t, a + j);
  }

  /** The text before the first occurrence of `t` (all of `s` when absent):
      what `s.split(t)[0]` yields. */
  function UpTo(s: string, t: string): (r: string)
    ensures r <= s
  {
    match Find(s, t)
    case None => s
    case Some(i) => s[..i]
  }

  /** The text after the first occurrence of `t`. */
  function After(s: string, t: string): (r: string)
    requires Contains(s, t)
    ensures |r| <= |s|
  {
    s[Find(s, t).value + |t|..]
  }

  /** Nothing before the first occurrence of a non-empty `t` contains `t`. */
  lemma UpToAvoids(s: string, t: string)
    requires t != []
    ensures !Contains(UpTo(s, t), t)
  {
    match Find(s, t)
    case None =>
    case Some(i) =>
      forall j | 0 <= j <= i ensures !OccursAt(s[..i], t, j) {
        if j + |t| <= i {
          assert !OccursAt(s, t, j);
          assert s[..i][j..j + |t|] == s[j..j + |t|];
        }
      }
  }

  // ----------------------------------------------------------------------
  // `s.split(sep)` for a non-empty separator, and its inverse `sep.join(pieces)`

  function Split(s: string, sep: string): (r: seq<string>)
    requires sep != []
    ensures |r| >= 1 && r[0] == UpTo(s, sep)
    decreases |s|
  {
    match Find(s, sep)
    case None => [s]
    case Some(i) => [s[..i]] + Split(s[i + |sep|..], sep)
  }

  function Join(pieces: seq<string>, sep: string): string
    requires |pieces| >= 1
  {
    if |pieces| == 1 then pieces[0] else pieces[0] + sep + Join(pieces[1..], sep)
  }

  /** When the separator occurs, the second piece is the text between its
      first and second occurrences: what `s.split(sep)[1]` yields. */
  lemma SplitSecond(s: string, sep: string)
    requires sep != [] && Contains(s, sep)
    ensures |Split(s, sep)| >= 2 && Split(s, sep)[1] == UpTo(After(s, sep), sep)
  {
  }

  /** The text after the first `marker`, cut at the next `marker` and
      then at the next `stop`, directly follows that marker in `s` and
      contains neither. */
  lemma FieldAfterMarker(s: string, marker: string, stop: string)
    requires marker != [] && stop != [] && Contains(s, marker)
    ensures var f := UpTo(UpTo(After(s, marker), marker), stop);
      Contains(s, marker + f) && !Contains(f, stop) && !Contains(f, marker)
  {
    var a := After(s, marker);
    var u := UpTo(a, marker);
    var f := UpTo(u, stop);
    MarkerThenPrefix(s, marker, f);
    UpToAvoids(u, stop);
    UpToAvoids(a, marker);
    if Contains(f, marker) {
      PrefixContains(u, f, marker);
    }
  }

  /** Whatever prefix of the text after the first `marker` is taken, the
      marker followed by it occurs. */
  lemma MarkerThenPrefix(s: string, marker: string, f: string)
    requires Contains(s, marker) && f <= After(s, marker)
    ensures Contains(s, marker + f)
  {
    var j := Find(s, marker).value;
    assert s[j..j + |marker|] == marker;
    assert s[j + |marker|..j + |marker| + |f|] == f;
    assert s[j..j + |marker + f|] == marker + f;
    OccursThenContains(s, marker + f, j);
  }

  /** `UpTo` stops at the end of `s` or where `t` begins. */
  lemma UpToEnds(s: string, t: string)
    ensures UpTo(s, t) == s || OccursAt(s, t, |UpTo(s, t)|)
  {
  }

  lemma OccursInPrefix(u: string, s: string, t: string, i: nat)
    requires u <= s && OccursAt(u, t, i)
    ensures OccursAt(s, t, i)
  {
    assert s[i..i + |t|] == u[i..i + |t|];
  }

  lemma OccursInSuffix(s: string, m: nat, t: string, i: nat)
    requires m <= |s| && OccursAt(s[m..], t, i)
    ensures OccursAt(s, t, m + i)
  {
    assert s[m + i..m + i + |t|] == s[m..][i..i + |t|];
  }

  /** `f` is the field behind the first `marker` of `s`: it directly
      follows that marker, holds neither `stop` nor `marker`, and ends at the
      end of `s`, at a `stop` or at the next `marker`. */
  predicate FieldAt(s: string, marker: string, stop: string, f: string) {
    && Contains(s, marker)
    && var j := Find(s, marker).value;
       var e := j + |marker| + |f|;
       && OccursAt(s, marker + f, j)
       && (forall i :: 0 <= i < j ==> !OccursAt(s, marker, i))
       && !Contains(f, stop) && !Contains(f, marker)
       && (e == |s| || OccursAt(s, stop, e) || OccursAt(s, marker, e))
  }

  /** Cutting the text after the first `marker` at the next `marker` and
      then at the next `stop` gives that field. */
  lemma FieldBounds(s: string, marker: string, stop: string)
    requires marker != [] && stop != [] && Contains(s, marker)
    ensures FieldAt(s, marker, stop, UpTo(UpTo(After(s, marker), marker), stop))
  {
    var f := UpTo(UpTo(After(s, marker), marker), stop);
    FieldAfterMarker(s, marker, stop);
    MarkerAt(s, marker, f);
    FieldEnd(s, marker, stop);
  }

  lemma FieldEnd(s: string, marker: string, stop: string)
    requires marker != [] && stop != [] && Contains(s, marker)
    ensures var m := Find(s, marker).value + |marker|;
      var f := UpTo(UpTo(After(s, marker), marker), stop);
      var e := m + |f|;
      e == |s| || OccursAt(s, stop, e) || OccursAt(s, marker, e)
  {
    var m := Find(s, marker).value + |marker|;
    var a := After(s, marker);
    var f := UpTo(UpTo(a, marker), stop);
    assert a == s[m..];
    CutEnd(a, marker, stop);
    if OccursAt(a, stop, |f|) {
      OccursInSuffix(s, m, stop, |f|);
    } else if OccursAt(a, marker, |f|) {
      OccursInSuffix(s, m, marker, |f|);
    }
  }

  /** Cutting at the first `marker` and then at the first `stop` ends at
      the end of `a`, at a `stop` or at a `marker`. */
  lemma CutEnd(a: string, marker: string, stop: string)
    ensures var f := UpTo(UpTo(a, marker), stop);
      |f| == |a| || OccursAt(a, stop, |f|) || OccursAt(a, marker, |f|)
  {
    var u := UpTo(a, marker);
    var f := UpTo(u, stop);
    UpToEnds(u, stop);
    UpToEnds(a, marker);
    if f != u {
      OccursInPrefix(u, a, stop, |f|);
    }
  }

  /** A marker whose first character does not recur in it cannot overlap
      itself, so with a one-character stop outside the marker there is only
      one such field. */
  lemma FieldAtUnique(s: string, marker: string, c: char, f: string, g: string)
    requires marker != [] && c !in marker && forall d :: 0 < d < |marker| ==> marker[d] != marker[0]
    requires FieldAt(s, marker, [c], f) && FieldAt(s, marker, [c], g)
    ensures f == g
  {
    FieldText(s, marker, [c], f);
    FieldText(s, marker, [c], g);
    FieldNotShorter(s, marker, c, f, g);
    FieldNotShorter(s, marker, c, g, f);
  }

  /** Where the field sits in `s`. */
  lemma FieldText(s: string, marker: string, stop: string, f: string)
    requires FieldAt(s, marker, stop, f)
    ensures var m := Find(s, marker).value + |marker|;
      m + |f| <= |s| && s[m..m + |f|] == f
  {
    var j := Find(s, marker).value;
    assert s[j..j + |marker + f|] == marker + f;
    assert s[j + |marker|..j + |marker| + |f|] == s[j..j + |marker + f|][|marker|..];
  }

  lemma OccursInSlice(s: string, t: string, a: nat, b: nat, p: nat)
    requires a <= p && p + |t| <= b <= |s| && OccursAt(s, t, p)
    ensures Contains(s[a..b], t)
  {
    var u, j: nat := s[a..b], p - a;
    forall k | 0 <= k < |t| ensures u[j..j + |t|][k] == t[k] {
      assert u[j + k] == s[p + k];
      assert s[p..p + |t|][k] == s[p + k];
    }
    assert u[j..j + |t|] == t;
    OccursThenContains(u, t, j);
  }

  lemma CharOfOccurrence(s: string, t: string, p: nat, k: nat)
    requires OccursAt(s, t, p) && k < |t|
    ensures s[p + k] == t[k]
  {
    assert s[p..p + |t|][k] == s[p + k];
  }

  /** Inside `s`, the field is followed by the stop or by the marker. */
  lemma FieldEndChar(s: string, marker: string, c: char, g: string)
    requires marker != [] && FieldAt(s, marker, [c], g)
    requires Find(s, marker).value + |marker| + |g| < |s|
    ensures var e := Find(s, marker).value + |marker| + |g|;
      s[e] == c || s[e] == marker[0]
  {
    var e := Find(s, marker).value + |marker| + |g|;
    if OccursAt(s, [c], e) {
      CharOfOccurrence(s, [c], e, 0);
    } else {
      CharOfOccurrence(s, marker, e, 0);
    }
  }

  lemma FieldNotShorter(s: string, marker: string, c: char, f: string, g: string)
    requires marker != [] && c !in marker && forall d :: 0 < d < |marker| ==> marker[d] != marker[0]
    requires FieldAt(s, marker, [c], f) && FieldAt(s, marker, [c], g)
    ensures |g| <= |f|
  {
    if |f| < |g| {
      var m := Find(s, marker).value + |marker|;
      var ef, eg := m + |f|, m + |g|;
      FieldText(s, marker, [c], g);
      assert g == s[m..eg];
      if OccursAt(s, [c], ef) {
        OccursInSlice(s, [c], m, eg, ef);
        assert false;
      } else if ef + |marker| <= eg {
        OccursInSlice(s, marker, m, eg, ef);
        assert false;
      } else {
        CharOfOccurrence(s, marker, ef, eg - ef);
        FieldEndChar(s, marker, c, g);
        assert false;
      }
    }
  }

  /** A prefix of the text after the first `marker` directly follows it. */
  lemma MarkerAt(s: string, marker: string, f: string)
    requires Contains(s, marker) && f <= After(s, marker)
    ensures OccursAt(s, marker + f, Find(s, marker).value)
  {
    var j := Find(s, marker).value;
    assert s[j..j + |marker|] == marker;
    assert s[j + |marker|..j + |marker| + |f|] == f;
    assert s[j..j + |marker + f|] == marker + f;
  }

  lemma SplitCons(s: string, sep: string, i: nat)
    requires sep != [] && Find(s, sep) == Some(i)
    ensures Split(s, sep) == [s[..i]] + Split(s[i + |sep|..], sep)
  {
  }

  lemma JoinCons(a: string, xs: seq<string>, sep: string)
    requires |xs| >= 1
    ensures Join([a] + xs, sep) == a + sep + Join(xs, sep)
  {
    assert ([a] + xs)[1..] == xs;
  }

  /** Joining the pieces with the separator gives back the string. */
  lemma {:induction false} JoinSplit(s: string, sep: string)
    requires sep != []
    ensures Join(Split(s, sep), sep) == s
    decreases |s|
  {
    var f := Find(s, sep);
    if f.Some? {
      var i := f.value;
      var rest := s[i + |sep|..];
      JoinSplit(rest, sep);
      SplitCons(s, sep, i);
      JoinCons(s[..i], Split(rest, sep), sep);
      assert s[i..i + |sep|] == sep;
      assert s == s[..i] + s[i..i + |sep|] + rest;
    }
  }

  /** No piece of a split contains the separator. */
  lemma {:induction false} SplitAvoids(s: string, sep: string)
    requires sep != []
    ensures forall k :: 0 <= k < |Split(s, sep)| ==> !Contains(Split(s, sep)[k], sep)
    decreases |s|
  {
    UpToAvoids(s, sep);
    var f := Find(s, sep);
    if f.Some? {
      var i := f.value;
      var rest := s[i + |sep|..];
      SplitAvoids(rest, sep);
      SplitCons(s, sep, i);
    }
  }

  /** An occurrence of `t` that overlaps an occurrence of `sep` shares a
      character with it. */
  lemma OverlapSharesChar(s: string, sep: string, t: string, i: nat, j: nat)
    requires OccursAt(s, sep, i) && OccursAt(s, t, j)
    requires sep != [] && t != [] && j < i + |sep| && i < j + |t|
    ensures exists k :: 0 <= k < |t| && t[k] in sep
  {
    var p := if i < j then j else i;
    assert s[j..j + |t|][p - j] == s[p];
    assert s[i..i + |sep|][p - i] == s[p];
    assert t[p - j] in sep;
  }

  /** Some element of `xs` mentions `t`. */
  predicate SomeContains(xs: seq<string>, t: string) {
    exists k :: 0 <= k < |xs| && Contains(xs[k], t)
  }

  /** If no character of `t` is a character of `sep`, an occurrence of `t` in
      `s` never straddles a separator, so it lies inside one of the pieces. */
  lemma {:induction false} OccurrenceInPiece(s: string, sep: string, t: string)
    requires sep != [] && Contains(s, t)
    requires forall k :: 0 <= k < |t| ==> t[k] !in sep
    ensures SomeContains(Split(s, sep), t)
    decreases |s|
  {
    var f := Find(s, sep);
    if t == [] || f.None? {
      FirstPieceHas(s, sep, t);
    } else {
      var i := f.value;
      var j := Find(s, t).value;
      if j + |t| <= i {
        FirstPieceHas(s, sep, t);
      } else {
        NoStraddle(s, sep, t, i, j);
        var rest := s[i + |sep|..];
        InRest(s, t, i + |sep|, j);
        OccurrenceInPiece(rest, sep, t);
        LiftPiece(s, sep, t, i, rest);
      }
    }
  }

  /** The first piece holds the occurrence when it ends before the first
      separator (or there is none), and always holds the empty string. */
  lemma FirstPieceHas(s: string, sep: string, t: string)
    requires sep != [] && Contains(s, t)
    requires t == [] || Find(s, sep).None? || Find(s, t).value + |t| <= Find(s, sep).value
    ensures Contains(Split(s, sep)[0], t) && SomeContains(Split(s, sep), t)
  {
    var p := Split(s, sep)[0];
    if t == [] {
      OccursThenContains(p, t, 0);
    } else if Find(s, sep).None? {
      assert p == s;
    } else {
      InFirstPiece(s, t, Find(s, sep).value, Find(s, t).value);
    }
  }

  /** An occurrence that is not before the first separator starts after it. */
  lemma NoStraddle(s: string, sep: string, t: string, i: nat, j: nat)
    requires sep != [] && t != [] && OccursAt(s, sep, i) && OccursAt(s, t, j) && i < j + |t|
    requires forall k :: 0 <= k < |t| ==> t[k] !in sep
    ensures i + |sep| <= j
  {
    if j < i + |sep| {
      OverlapSharesChar(s, sep, t, i, j);
      assert false;
    }
  }

  /** A piece after the first separator is a piece of the whole split. */
  lemma LiftPiece(s: string, sep: string, t: string, i: nat, rest: string)
    requires sep != [] && Find(s, sep) == Some(i) && rest == s[i + |sep|..]
    requires SomeContains(Split(rest, sep), t)
    ensures SomeContains(Split(s, sep), t)
  {
    SplitCons(s, sep, i);
    SomeContainsCons(s[..i], Split(rest, sep), t);
  }

  lemma SomeContainsCons(x: string, xs: seq<string>, t: string)
    requires SomeContains(xs, t)
    ensures SomeContains([x] + xs, t)
  {
    var k :| 0 <= k < |xs| && Contains(xs[k], t);
    assert ([x] + xs)[k + 1] == xs[k];
  }

  /** Whatever a piece of a split contains, the string contains. */
  lemma PieceContains(s: string, sep: string, t: string, k: nat)
    requires sep != [] && k < |Split(s, sep)| && Contains(Split(s, sep)[k], t)
    ensures Contains(s, t)
  {
    JoinSplit(s, sep);
    JoinedPieceContains(Split(s, sep), sep, t, k);
  }

  lemma {:induction false} JoinedPieceContains(xs: seq<string>, sep: string, t: string, k: nat)
    requires k < |xs| && Contains(xs[k], t)
    ensures Contains(Join(xs, sep), t)
    decreases |xs|
  {
    if |xs| > 1 {
      var rest := Join(xs[1..], sep);
      assert Join(xs, sep) == xs[0] + sep + rest;
      if k == 0 {
        PrefixContains(Join(xs, sep), xs[0], t);
      } else {
        assert xs[1..][k - 1] == xs[k];
        JoinedPieceContains(xs[1..], sep, t, k - 1);
        assert Join(xs, sep)[|xs[0] + sep|..] == rest;
        SuffixContains(Join(xs, sep), |xs[0] + sep|, t);
      }
    }
  }

  lemma PrefixContains(s: string, p: string, t: string)
    requires p <= s && Contains(p, t)
    ensures Contains(s, t)
  {
    var j := Find(p, t).value;
    assert s[j..j + |t|] == p[j..j + |t|];
    OccursThenContains(s, t, j);
  }

  lemma SuffixContains(s: string, m: nat, t: string)
    requires m <= |s| && Contains(s[m..], t)
    ensures Contains(s, t)
  {
    var j := Find(s[m..], t).value;
    assert s[m + j..m + j + |t|] == s[m..][j..j + |t|];
    OccursThenContains(s, t, m + j);
  }

  lemma InFirstPiece(s: string, t: string, i: nat, j: nat)
    requires OccursAt(s, t, j) && j + |t| <= i <= |s|
    ensures Contains(s[..i], t)
  {
    assert s[..i][j..j + |t|] == s[j..j + |t|];
    OccursThenContains(s[..i], t, j);
  }

  lemma InRest(s: string, t: string, m: nat, j: nat)
    requires OccursAt(s, t, j) && m <= j
    ensures Contains(s[m..], t)
  {
    assert s[m..][j - m..j - m + |t|] == s[j..j + |t|];
    OccursThenContains(s[m..], t, j - m);
  }

  // ----------------------------------------------------------------------
  // List comprehensions `[x for x in xs if t in x]`

  function FilterContaining(xs: seq<string>, t: string): (r: seq<string>)
    ensures |r| <= |xs|
    ensures forall k :: 0 <= k < |r| ==> Contains(r[k], t) && r[k] in xs
    ensures r == [] <==> forall k :: 0 <= k < |xs| ==> !Contains(xs[k], t)
  {
    if xs == [] then []
    else (if Contains(xs[0], t) then [xs[0]] else []) + FilterContaining(xs[1..], t)
  }

  lemma FilterCons(x: string, xs: seq<string>, t: string)
    ensures FilterContaining([x] + xs, t) == (if Contains(x, t) then [x] else []) + FilterContaining(xs, t)
  {
    assert ([x] + xs)[1..] == xs;
  }

  /** The first element of the filtered list is the first element that
      contains `t`. */
  lemma {:induction false} FilterHead(xs: seq<string>, t: string, k: nat)
    requires k < |xs| && Contains(xs[k], t)
    requires forall j :: 0 <= j < k ==> !Contains(xs[j], t)
    ensures FilterContaining(xs, t) != [] && FilterContaining(xs, t)[0] == xs[k]
  {
    if k > 0 {
      FilterHead(xs[1..], t, k - 1);
    }
  }

  /** The first element of a non-empty filtered list is the first element
      of the list that contains `t`. */
  lemma {:induction false} FilterFirst(xs: seq<string>, t: string)
    requires FilterContaining(xs, t) != []
    ensures exists k :: 0 <= k < |xs| && xs[k] == FilterContaining(xs, t)[0]
                        && forall j :: 0 <= j < k ==> !Contains(xs[j], t)
  {
    if Contains(xs[0], t) {
      assert xs[0] == FilterContaining(xs, t)[0];
    } else {
      FilterCons(xs[0], xs[1..], t);
      assert xs == [xs[0]] + xs[1..];
      FilterFirst(xs[1..], t);
      var k :| 0 <= k < |xs[1..]| && xs[1..][k] == FilterContaining(xs[1..], t)[0]
               && forall j :: 0 <= j < k ==> !Contains(xs[1..][j], t);
      assert xs[k + 1] == FilterContaining(xs, t)[0];
      forall j | 0 <= j < k + 1 ensures !Contains(xs[j], t) {
        if j > 0 {
          assert xs[j] == xs[1..][j - 1];
        }
      }
    }
  }

  /** When `t` occurs and shares no character with `sep`, some piece of
      the split mentions `t`; the first such piece has a first word when
      `t` starts with a non-space character. */
  lemma MatchingPieceHasWord(s: string, sep: string, t: string)
    requires sep != [] && Contains(s, t) && t != [] && !IsSpace(t[0])
    requires forall k :: 0 <= k < |t| ==> t[k] !in sep
    ensures var parts := FilterContaining(Split(s, sep), t);
      && parts != [] && SplitWs(parts[0]) != []
      && exists k :: 0 <= k < |Split(s, sep)| && Split(s, sep)[k] == parts[0]
  {
    var pieces := Split(s, sep);
    OccurrenceInPiece(s, sep, t);
    var parts := FilterContaining(pieces, t);
    ContainsHasWord(parts[0], t);
    assert parts[0] in pieces;
  }

  // ----------------------------------------------------------------------
  // `s.split()`: runs of whitespace separate, empty pieces are dropped

  /** The longest prefix of `s` without whitespace. */
  function Word(s: string): (w: string)
    ensures w <= s && NoSpace(w)
    ensures |w| == |s| || IsSpace(s[|w|])
  {
    if s == [] || IsSpace(s[0]) then [] else [s[0]] + Word(s[1..])
  }

  function SplitWs(s: string): (r: seq<string>)
    ensures forall k :: 0 <= k < |r| ==> r[k] != [] && NoSpace(r[k])
    decreases |s|
  {
    if s == [] then []
    else if IsSpace(s[0]) then SplitWs(s[1..])
    else
      var w := Word(s);
      [w] + SplitWs(s[|w|..])
  }

  function Concat(xs: seq<string>): string {
    if xs == [] then [] else xs[0] + Concat(xs[1..])
  }

  /** `s` with every whitespace character removed. */
  function RemoveSpaces(s: string): (r: string)
    ensures NoSpace(r)
  {
    if s == [] then [] else (if IsSpace(s[0]) then [] else [s[0]]) + RemoveSpaces(s[1..])
  }

  lemma {:induction false} RemoveSpacesAppend(a: string, b: string)
    ensures RemoveSpaces(a + b) == RemoveSpaces(a) + RemoveSpaces(b)
  {
    if a != [] {
      assert (a + b)[1..] == a[1..] + b;
      RemoveSpacesAppend(a[1..], b);
    } else {
      assert a + b == b;
    }
  }

  lemma {:induction false} RemoveSpacesOfWord(w: string)
    requires NoSpace(w)
    ensures RemoveSpaces(w) == w
  {
    if w != [] {
      RemoveSpacesOfWord(w[1..]);
    }
  }

  /** The pieces of `s.split()`, run together, are `s` without its whitespace. */
  lemma {:induction false} SplitWsConcat(s: string)
    ensures Concat(SplitWs(s)) == RemoveSpaces(s)
    decreases |s|
  {
    if s == [] {
    } else if IsSpace(s[0]) {
      SplitWsConcat(s[1..]);
    } else {
      var w := Word(s);
      var rest := s[|w|..];
      SplitWsConcat(rest);
      assert s == w + rest;
      RemoveSpacesAppend(w, rest);
      RemoveSpacesOfWord(w);
      assert SplitWs(s) == [w] + SplitWs(rest);
      assert SplitWs(s)[1..] == SplitWs(rest);
    }
  }

  /** `s.split()` is empty exactly when `s` is all whitespace. */
  lemma {:induction false} SplitWsEmpty(s: string)
    ensures SplitWs(s) == [] <==> AllSpace(s)
    decreases |s|
  {
    if s != [] && IsSpace(s[0]) {
      SplitWsEmpty(s[1..]);
      assert forall k :: 1 <= k < |s| ==> s[1..][k - 1] == s[k];
    }
  }

  /** A string with a non-space character has at least one word. */
  lemma SplitWsNotEmpty(s: string, j: nat)
    requires j < |s| && !IsSpace(s[j])
    ensures SplitWs(s) != []
  {
    SplitWsEmpty(s);
  }

  /** `xs[-1]`. */
  function Last(xs: seq<string>): string
    requires xs != []
  {
    xs[|xs| - 1]
  }

  /** `w` occurs at `i` in `s` as the final run of non-space characters:
      only whitespace follows it, and whitespace or nothing precedes it. */
  predicate FinalRun(s: string, w: string, i: nat) {
    i + |w| <= |s| && s[i..i + |w|] == w && AllSpace(s[i + |w|..]) && (i == 0 || IsSpace(s[i - 1]))
  }

  /** A string containing something that starts with a non-space
      character has a word. */
  lemma ContainsHasWord(p: string, t: string)
    requires Contains(p, t) && t != [] && !IsSpace(t[0])
    ensures SplitWs(p) != []
  {
    var j := Find(p, t).value;
    assert p[j..j + |t|][0] == p[j];
    SplitWsNotEmpty(p, j);
  }

  /** The last word of `s.split()` is the final run of non-space characters
      of `s`. */
  lemma {:induction false} LastWord(s: string)
    requires SplitWs(s) != []
    ensures exists i: nat :: FinalRun(s, Last(SplitWs(s)), i)
    decreases |s|
  {
    var words := SplitWs(s);
    var w := Last(words);
    if IsSpace(s[0]) {
      var tail := s[1..];
      assert words == SplitWs(tail);
      LastWord(tail);
      var i': nat :| FinalRun(tail, w, i');
      ShiftRun(s, w, i');
    } else {
      var w0 := Word(s);
      var rest := s[|w0|..];
      assert words == [w0] + SplitWs(rest);
      if SplitWs(rest) == [] {
        SplitWsEmpty(rest);
        assert w == w0;
        assert s[0..|w|] == w && s[|w|..] == rest;
        assert FinalRun(s, w, 0);
      } else {
        LastWord(rest);
        assert w == Last(SplitWs(rest));
        var i': nat :| FinalRun(rest, w, i');
        assert IsSpace(rest[0]);
        assert w != [] && rest[i'..i' + |w|][0] == rest[i'];
        assert i' > 0;
        SkipRun(s, w, |w0|, i');
      }
    }
  }

  lemma ShiftRun(s: string, w: string, i: nat)
    requires s != [] && IsSpace(s[0]) && FinalRun(s[1..], w, i)
    ensures FinalRun(s, w, i + 1)
  {
    assert s[i + 1..i + 1 + |w|] == s[1..][i..i + |w|];
    assert s[i + 1 + |w|..] == s[1..][i + |w|..];
    if i > 0 {
      assert s[i] == s[1..][i - 1];
    }
  }

  lemma SkipRun(s: string, w: string, m: nat, i: nat)
    requires m <= |s| && i > 0 && FinalRun(s[m..], w, i)
    ensures FinalRun(s, w, m + i)
  {
    assert s[m + i..m + i + |w|] == s[m..][i..i + |w|];
    assert s[m + i + |w|..] == s[m..][i + |w|..];
    assert s[m + i - 1] == s[m..][i - 1];
  }

  /** A non-empty string without whitespace is a single word. */
  lemma SplitWsOfWord(w: string)
    requires w != [] && NoSpace(w)
    ensures SplitWs(w) == [w]
  {
    WordOfNoSpace(w);
  }

  lemma {:induction false} WordOfNoSpace(w: string)
    requires NoSpace(w)
    ensures Word(w) == w
  {
    if w != [] {
      WordOfNoSpace(w[1..]);
    }
  }

  lemma {:induction false} WordAppend(a: string, b: string)
    ensures Word(a + b) == if NoSpace(a) then a + Word(b) else Word(a)
  {
    if a == [] {
      assert a + b == b;
    } else if IsSpace(a[0]) {
      assert (a + b)[0] == a[0];
      assert !NoSpace(a);
    } else {
      var tail := a[1..];
      WordStep(a, b);
      WordAppend(tail, b);
      NoSpaceCons(a);
      if NoSpace(tail) {
        assert [a[0]] + (tail + Word(b)) == a + Word(b);
      }
    }
  }

  lemma WordStep(a: string, b: string)
    requires a != [] && !IsSpace(a[0])
    ensures Word(a + b) == [a[0]] + Word(a[1..] + b) && Word(a) == [a[0]] + Word(a[1..])
  {
    assert (a + b)[0] == a[0];
    assert (a + b)[1..] == a[1..] + b;
  }

  lemma NoSpaceCons(a: string)
    requires a != []
    ensures NoSpace(a) <==> !IsSpace(a[0]) && NoSpace(a[1..])
  {
    if !IsSpace(a[0]) && NoSpace(a[1..]) {
      forall k | 0 <= k < |a| ensures !IsSpace(a[k]) {
        if k > 0 {
          assert a[k] == a[1..][k - 1];
        }
      }
    }
  }

  /** A whitespace boundary between two strings is a split point of `split()`. */
  lemma {:induction false} SplitWsAppend(a: string, b: string)
    requires a == [] || b == [] || IsSpace(a[|a| - 1]) || IsSpace(b[0])
    ensures SplitWs(a + b) == SplitWs(a) + SplitWs(b)
    decreases |a|
  {
    if a == [] {
      assert a + b == b;
    } else if IsSpace(a[0]) {
      LastOfSuffix(a, 1);
      SplitWsAppend(a[1..], b);
      SplitWsDropSpace(a, b);
    } else if NoSpace(a) {
      SplitWsAppendWord(a, b);
    } else {
      SplitWsWordStep(a, b);
      LastOfSuffix(a, |Word(a)|);
      SplitWsAppend(a[|Word(a)|..], b);
      SplitWsJoinStep(a, b);
    }
  }

  lemma LastOfSuffix(a: string, m: nat)
    requires m <= |a| && a != []
    ensures a[m..] == [] || a[m..][|a[m..]| - 1] == a[|a| - 1]
  {
  }

  /** Dropping a leading blank changes neither side of the split law. */
  lemma SplitWsDropSpace(a: string, b: string)
    requires a != [] && IsSpace(a[0]) && SplitWs(a[1..] + b) == SplitWs(a[1..]) + SplitWs(b)
    ensures SplitWs(a + b) == SplitWs(a) + SplitWs(b)
  {
    assert (a + b)[1..] == a[1..] + b;
  }

  lemma SplitWsWordStep(a: string, b: string)
    requires a != [] && !IsSpace(a[0]) && !NoSpace(a)
    ensures |Word(a)| < |a|
    ensures SplitWs(a + b) == [Word(a)] + SplitWs(a[|Word(a)|..] + b)
    ensures SplitWs(a) == [Word(a)] + SplitWs(a[|Word(a)|..])
  {
    var w := Word(a);
    WordAppend(a, b);
    assert Word(a + b) == w;
    assert (a + b)[|w|..] == a[|w|..] + b;
  }

  /** The split law for what follows the first word gives it for the whole. */
  lemma SplitWsJoinStep(a: string, b: string)
    requires a != [] && !IsSpace(a[0]) && !NoSpace(a)
    requires |Word(a)| < |a|
    requires SplitWs(a + b) == [Word(a)] + SplitWs(a[|Word(a)|..] + b)
    requires SplitWs(a) == [Word(a)] + SplitWs(a[|Word(a)|..])
    requires SplitWs(a[|Word(a)|..] + b) == SplitWs(a[|Word(a)|..]) + SplitWs(b)
    ensures SplitWs(a + b) == SplitWs(a) + SplitWs(b)
  {
    var w := Word(a);
    var rest := a[|w|..];
    assert [w] + (SplitWs(rest) + SplitWs(b)) == ([w] + SplitWs(rest)) + SplitWs(b);
  }

  /** A word followed by a blank is the first word. */
  lemma SplitWsSpaced(a: string, b: string)
    requires a != [] && NoSpace(a)
    ensures SplitWs(a + " " + b) == [a] + SplitWs(b)
  {
    assert a + " " + b == a + (" " + b);
    SplitWsAppendWord(a, " " + b);
    SplitWsOfWord(a);
    assert (" " + b)[1..] == b;
  }

  lemma SplitWsAppendWord(a: string, b: string)
    requires a != [] && NoSpace(a) && (b == [] || IsSpace(b[0]))
    ensures SplitWs(a + b) == SplitWs(a) + SplitWs(b)
  {
    SplitWsOfWord(a);
    if b == [] {
      assert a + b == a;
    } else {
      WordAppend(a, b);
      assert Word(a + b) == a;
      assert (a + b)[|a|..] == b;
      assert SplitWs(a + b) == [a] + SplitWs(b);
    }
  }

  // ----------------------------------------------------------------------
  // `s.strip()`

  /** The index of the first non-space character at or after `i`. */
  function SkipSpace(s: string, i: nat): (j: nat)
    requires i <= |s|
    ensures i <= j <= |s| && AllSpace(s[i..j]) && (j == |s| || !IsSpace(s[j]))
    decreases |s| - i
  {
    if i < |s| && IsSpace(s[i]) then
      var j := SkipSpace(s, i + 1);
      assert s[i..j] == [s[i]] + s[i + 1..j];
      j
    else i
  }

  /** Searching back from `j` to `lo`, the index just past the last
      non-space character. */
  function BackSpace(s: string, lo: nat, j: nat): (e: nat)
    requires lo <= j <= |s|
    ensures lo <= e <= j && AllSpace(s[e..j]) && (e == lo || !IsSpace(s[e - 1]))
    decreases j
  {
    if j > lo && IsSpace(s[j - 1]) then
      var e := BackSpace(s, lo, j - 1);
      assert s[e..j] == s[e..j - 1] + [s[j - 1]];
      e
    else j
  }

  /** `s.strip()`: a slice of `s` that neither starts nor ends with
      whitespace (`StripCutsSpace` says what is cut off). */
  function Strip(s: string): (r: string)
    ensures |r| <= |s|
    ensures r == [] || (!IsSpace(r[0]) && !IsSpace(r[|r| - 1]))
  {
    var a := SkipSpace(s, 0);
    s[a..BackSpace(s, a, |s|)]
  }

  /** `strip()` removes whitespace, and only whitespace, from both ends. */
  lemma StripCutsSpace(s: string)
    ensures exists a: nat, b: nat :: a <= b <= |s| && Strip(s) == s[a..b] && AllSpace(s[..a]) && AllSpace(s[b..])
  {
    var a := SkipSpace(s, 0);
    var b := BackSpace(s, a, |s|);
    assert s[..a] == s[0..a];
    assert s[b..] == s[b..|s|];
  }

  /** The stripped text occurs in the original. */
  lemma StripInside(u: string)
    ensures Contains(u, Strip(u))
  {
    var a := SkipSpace(u, 0);
    SliceIsContained(u, a, BackSpace(u, a, |u|));
  }

  lemma SliceIsContained(u: string, a: nat, b: nat)
    requires a <= b <= |u|
    ensures Contains(u, u[a..b])
  {
    OccursThenContains(u, u[a..b], a);
  }

  /** Stripping cannot introduce an occurrence. */
  lemma StripAvoids(u: string, t: string)
    requires !Contains(u, t)
    ensures !Contains(Strip(u), t)
  {
    var a := SkipSpace(u, 0);
    var b := BackSpace(u, a, |u|);
    if Contains(Strip(u), t) {
      ContainsInSlice(u, t, a, b);
    }
  }

  // ----------------------------------------------------------------------
  // `s.lower()`, restricted to ASCII letters

  function LowerChar(c: char): char {
    if 'A' <= c <= 'Z' then (c as int + 32) as char else c
  }

  function Lower(s: string): (r: string)
    ensures |r| == |s| && forall k :: 0 <= k < |s| ==> r[k] == LowerChar(s[k])
  {
    if s == [] then [] else [LowerChar(s[0])] + Lower(s[1..])
  }

  // ----------------------------------------------------------------------
  // `str(n)` for a non-negative integer

  function DigitChar(d: nat): (c: char)
    requires d < 10
    ensures '0' <= c <= '9'
  {
    (48 + d) as char
  }

  /** Decimal digits of `n`, most significant first, without leading zeros. */
  function IntToString(n: nat): (r: string)
    ensures |r| >= 1 && (n >= 10 ==> |r| >= 2)
    ensures forall k :: 0 <= k < |r| ==> '0' <= r[k] <= '9'
    ensures |r| > 1 ==> r[0] != '0'
    decreases n
  {
    if n < 10 then [DigitChar(n)] else IntToString(n / 10) + [DigitChar(n % 10)]
  }

  /** Different numbers have different decimal spellings. */
  lemma {:induction false} IntToStringInjective(m: nat, n: nat)
    requires IntToString(m) == IntToString(n)
    ensures m == n
    decreases m
  {
    if m >= 10 && n >= 10 {
      var sm, sn := IntToString(m), IntToString(n);
      assert sm[|sm| - 1] == DigitChar(m % 10) && sn[|sn| - 1] == DigitChar(n % 10);
      assert IntToString(m / 10) == sm[..|sm| - 1];
      assert IntToString(n / 10) == sn[..|sn| - 1];
      IntToStringInjective(m / 10, n / 10);
    }
  }

  // ----------------------------------------------------------------------
  // Occurrences of one value in a list of strings

  function CountOf(xs: seq<string>, x: string): nat {
    if xs == [] then 0 else (if xs[0] == x then 1 else 0) + CountOf(xs[1..], x)
  }

  lemma {:induction false} CountOfAppend(a: seq<string>, b: seq<string>, x: string)
    ensures CountOf(a + b, x) == CountOf(a, x) + CountOf(b, x)
  {
    if a == [] {
      assert a + b == b;
    } else {
      assert (a + b)[1..] == a[1..] + b;
      CountOfAppend(a[1..], b, x);
    }
  }

  lemma {:induction false} CountOfAbsent(xs: seq<string>, x: string)
    requires forall k :: 0 <= k < |xs| ==> xs[k] != x
    ensures CountOf(xs, x) == 0
  {
    if xs != [] {
      CountOfAbsent(xs[1..], x);
    }
  }
}
