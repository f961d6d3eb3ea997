/** The handful of Python `str` operations the generator relies on:
    `strip()`, `split(c)`, `split()` (on runs of whitespace),
    `split(sep, maxsplit=1)`, `startswith` and `sep.join(...)`.
 */
module Text {
  import opened Results

  /** Python's `str.isspace()`: the characters `strip()` and `split()` treat as whitespace. */
  predicate IsSpace(c: char) {
    if c <= ' ' then '\t' <= c <= '\r' || '\U{1C}' <= c
    else if c < '\U{85}' then false
    else
      || c == '\U{85}' || c == '\U{A0}' || c == '\U{1680}'
      || ('\U{2000}' <= c <= '\U{200A}') || c == '\U{2028}' || c == '\U{2029}'
      || c == '\U{202F}' || c == '\U{205F}' || c == '\U{3000}'
  }

  predicate AllSpace(s: string) {
    forall i :: 0 <= i < |s| ==> IsSpace(s[i])
  }

  predicate NoSpace(s: string) {
    forall i :: 0 <= i < |s| ==> !IsSpace(s[i])
  }

  /** Neither the first nor the last character is whitespace. */
  predicate Trimmed(s: string) {
    |s| == 0 || (!IsSpace(s[0]) && !IsSpace(s[|s| - 1]))
  }

  predicate StartsWith(s: string, prefix: string) {
    |prefix| <= |s| && s[..|prefix|] == prefix
  }

  /** `sep.join(parts)`. */
  function Join(parts: seq<string>, sep: string): string
  {
    if |parts| == 0 then ""
    else if |parts| == 1 then parts[0]
    else parts[0] + sep + Join(parts[1..], sep)
  }

  /** Python's `s[n:]`: slicing past the end yields the empty string. */
  function Drop(s: string, n: nat): (r: string)
    ensures n <= |s| ==> |r| == |s| - n && r == s[n..]
    ensures n >= |s| ==> r == ""
  {
    if n <= |s| then s[n..] else ""
  }

  // ---------------------------------------------------------------------
  // strip()

  /** `lstrip()`: `s` with its leading whitespace removed. */
  function TrimLeft(s: string): (r: string)
    ensures |r| <= |s|
    decreases |s|
  {
    if |s| > 0 && IsSpace(s[0]) then TrimLeft(s[1..]) else s
  }

  /** `rstrip()`: `s` with its trailing whitespace removed. */
  function TrimRight(s: string): (r: string)
    ensures |r| <= |s|
    decreases |s|
  {
    if |s| > 0 && IsSpace(s[|s| - 1]) then TrimRight(s[..|s| - 1]) else s
  }

  /** `lstrip()` keeps a suffix and removes only whitespace, up to the first
      non-whitespace character. */
  lemma {:induction false} TrimLeftShape(s: string)
    ensures var r := TrimLeft(s);
      && r == s[|s| - |r|..]
      && AllSpace(s[..|s| - |r|])
      && (|r| == 0 || !IsSpace(r[0]))
    decreases |s|
  {
    if |s| > 0 && IsSpace(s[0]) {
      TrimLeftShape(s[1..]);
      var r := TrimLeft(s);
      assert r == TrimLeft(s[1..]);
      assert s[1..][..|s| - 1 - |r|] == s[1..|s| - |r|];
      assert s[..|s| - |r|] == [s[0]] + s[1..|s| - |r|];
      assert s[|s| - |r|..] == s[1..][|s| - 1 - |r|..];
    }
  }

  /** `rstrip()` keeps a prefix and removes only whitespace, back to the last
      non-whitespace character. */
  lemma {:induction false} TrimRightShape(s: string)
    ensures var r := TrimRight(s);
      && r == s[..|r|]
      && AllSpace(s[|r|..])
      && (|r| == 0 || !IsSpace(r[|r| - 1]))
    decreases |s|
  {
    if |s| > 0 && IsSpace(s[|s| - 1]) {
      var t := s[..|s| - 1];
      TrimRightShape(t);
      var r := TrimRight(s);
      assert r == t[..|r|];
      assert t[|r|..] + [s[|s| - 1]] == s[|r|..];
    }
  }

  /** `strip()`: `s` with whitespace removed at both ends. */
  function Strip(s: string): string {
    TrimRight(TrimLeft(s))
  }

  /** `r` sits at offset `i` of `s` with nothing but whitespace around it. */
  predicate StripsTo(s: string, i: nat, r: string) {
    i + |r| <= |s| && r == s[i..i + |r|] && AllSpace(s[..i]) && AllSpace(s[i + |r|..])
  }

  /** `strip()` returns a contiguous slice of `s` that neither starts nor
      ends with whitespace, and cuts off nothing but whitespace. */
  lemma StripShape(s: string)
    ensures Trimmed(Strip(s))
    ensures exists i :: StripsTo(s, i, Strip(s))
  {
    var l := TrimLeft(s);
    var r := TrimRight(l);
    TrimLeftShape(s);
    TrimRightShape(l);
    var i := |s| - |l|;
    assert |r| > 0 ==> r[0] == l[0];
    assert s[i..i + |r|] == l[..|r|];
    assert s[i + |r|..] == l[|r|..];
    assert StripsTo(s, i, r);
  }

  /** A string without surrounding whitespace is left alone by `strip()`. */
  lemma StripTrimmed(s: string)
    requires Trimmed(s)
    ensures Strip(s) == s
  {
  }

  /** `strip()` is idempotent. */
  lemma StripIdempotent(s: string)
    ensures Strip(Strip(s)) == Strip(s)
  {
    StripShape(s);
    StripTrimmed(Strip(s));
  }

  lemma {:induction false} TrimLeftPadding(a: string, s: string)
    requires AllSpace(a)
    ensures TrimLeft(a + s) == TrimLeft(s)
    decreases |a|
  {
    if |a| > 0 {
      assert (a + s)[1..] == a[1..] + s;
      TrimLeftPadding(a[1..], s);
    } else {
      assert a + s == s;
    }
  }

  lemma {:induction false} TrimRightPadding(s: string, b: string)
    requires AllSpace(b)
    ensures TrimRight(s + b) == TrimRight(s)
    decreases |b|
  {
    if |b| > 0 {
      assert (s + b)[..|s + b| - 1] == s + b[..|b| - 1];
      TrimRightPadding(s, b[..|b| - 1]);
    } else {
      assert s + b == s;
    }
  }

  lemma {:induction false} TrimLeftKeepsTail(s: string, b: string)
    requires |TrimLeft(s)| > 0
    ensures TrimLeft(s + b) == TrimLeft(s) + b
    decreases |s|
  {
    if |s| > 0 && IsSpace(s[0]) {
      assert (s + b)[1..] == s[1..] + b;
      TrimLeftKeepsTail(s[1..], b);
    } else {
      assert |s| > 0;
    }
  }

  /** Whitespace padding on either side does not change what `strip()` returns. */
  lemma StripPadding(a: string, s: string, b: string)
    requires AllSpace(a) && AllSpace(b)
    ensures Strip(a + s + b) == Strip(s)
  {
    assert a + s + b == a + (s + b);
    TrimLeftPadding(a, s + b);
    var l := TrimLeft(s);
    if |l| == 0 {
      TrimLeftShape(s);
      assert s[..|s|] == s;
      assert AllSpace(s + b);
      TrimLeftPadding(s + b, "");
      assert s + b + "" == s + b;
      assert TrimLeft("") == "";
    } else {
      TrimLeftKeepsTail(s, b);
      TrimRightPadding(l, b);
    }
  }

  /** A closing newline makes no difference to `strip()`. */
  lemma StripNewline(t: string)
    ensures Strip(t + "\n") == Strip(t)
  {
    StripPadding("", t, "\n");
    assert "" + t + "\n" == t + "\n";
  }

  // ---------------------------------------------------------------------
  // split(c) and join

  /** `s.split(c)` for a one-character separator: the maximal pieces between separators. */
  function Split(s: string, c: char): (r: seq<string>)
    ensures |r| >= 1
    ensures forall i :: 0 <= i < |r| ==> c !in r[i]
    decreases |s|
  {
    if |s| == 0 then [""]
    else
      var rest := Split(s[1..], c);
      if s[0] == c then [""] + rest
      else [[s[0]] + rest[0]] + rest[1..]
  }

  lemma JoinCons(x: string, xs: seq<string>, sep: string)
    requires |xs| >= 1
    ensures Join([x] + xs, sep) == x + sep + Join(xs, sep)
  {
    assert ([x] + xs)[1..] == xs;
  }

  lemma JoinExtendFirst(c: char, xs: seq<string>, sep: string)
    requires |xs| >= 1
    ensures Join([[c] + xs[0]] + xs[1..], sep) == [c] + Join(xs, sep)
  {
    if |xs| > 1 {
      JoinCons([c] + xs[0], xs[1..], sep);
      JoinCons(xs[0], xs[1..], sep);
      assert [xs[0]] + xs[1..] == xs;
    }
  }

  /** Joining the pieces of `split(c)` with `c` gives back the input. */
  lemma {:induction false} JoinSplit(s: string, c: char)
    ensures Join(Split(s, c), [c]) == s
    decreases |s|
  {
    if |s| > 0 {
      var rest := Split(s[1..], c);
      JoinSplit(s[1..], c);
      if s[0] == c {
        JoinCons("", rest, [c]);
      } else {
        JoinExtendFirst(s[0], rest, [c]);
      }
      assert s == [s[0]] + s[1..];
    }
  }

  lemma SplitNoSeparator(s: string, c: char)
    requires c !in s
    ensures Split(s, c) == [s]
    decreases |s|
  {
    if |s| > 0 {
      SplitNoSeparator(s[1..], c);
      assert [s[0]] + s[1..] == s;
    }
  }

  lemma {:induction false} SplitPrefix(x: string, c: char, t: string)
    requires c !in x
    ensures Split(x + [c] + t, c) == [x] + Split(t, c)
    decreases |x|
  {
    if |x| == 0 {
      assert x + [c] + t == [c] + t;
      assert ([c] + t)[1..] == t;
    } else {
      assert (x + [c] + t)[1..] == x[1..] + [c] + t;
      SplitPrefix(x[1..], c, t);
      assert [x[0]] + x[1..] == x;
    }
  }

  /** Splitting separator-free pieces joined by `c` gives back the pieces. */
  lemma {:induction false} SplitJoin(parts: seq<string>, c: char)
    requires |parts| >= 1
    requires forall i :: 0 <= i < |parts| ==> c !in parts[i]
    ensures Split(Join(parts, [c]), c) == parts
    decreases |parts|
  {
    if |parts| == 1 {
      SplitNoSeparator(parts[0], c);
    } else {
      JoinCons(parts[0], parts[1..], [c]);
      SplitPrefix(parts[0], c, Join(parts[1..], [c]));
      SplitJoin(parts[1..], c);
      assert [parts[0]] + parts[1..] == parts;
    }
  }

  /** `split(c)` yields one more piece than there are separators. */
  lemma {:induction false} SplitCount(s: string, c: char)
    ensures |Split(s, c)| == multiset(s)[c] + 1
    decreases |s|
  {
    if |s| > 0 {
      SplitCount(s[1..], c);
      assert s == [s[0]] + s[1..];
      assert multiset(s) == multiset([s[0]]) + multiset(s[1..]);
    }
  }

  /** `a + c + b` splits into exactly `a` and `b` when neither holds `c`. */
  lemma SplitTwo(a: string, c: char, b: string)
    requires c !in a && c !in b
    ensures Split(a + [c] + b, c) == [a, b]
  {
    SplitPrefix(a, c, b);
    SplitNoSeparator(b, c);
  }

  lemma {:induction false} JoinSnoc(xs: seq<string>, y: string, sep: string)
    requires |xs| >= 1
    ensures Join(xs + [y], sep) == Join(xs, sep) + sep + y
    decreases |xs|
  {
    if |xs| == 1 {
      JoinCons(xs[0], [y], sep);
    } else {
      JoinSnoc(xs[1..], y, sep);
      assert xs + [y] == [xs[0]] + (xs[1..] + [y]);
      JoinCons(xs[0], xs[1..] + [y], sep);
      JoinCons(xs[0], xs[1..], sep);
    }
  }

  lemma {:induction false} JoinFirstChar(lines: seq<string>, sep: string)
    requires |lines| >= 1 && |lines[0]| > 0
    ensures |Join(lines, sep)| > 0 && Join(lines, sep)[0] == lines[0][0]
  {
    if |lines| > 1 {
      JoinCons(lines[0], lines[1..], sep);
      assert [lines[0]] + lines[1..] == lines;
    }
  }

  lemma {:induction false} JoinLastChar(lines: seq<string>, sep: string)
    requires |lines| >= 1 && |lines[|lines| - 1]| > 0
    ensures |Join(lines, sep)| > 0
    ensures Join(lines, sep)[|Join(lines, sep)| - 1] == lines[|lines| - 1][|lines[|lines| - 1]| - 1]
    decreases |lines|
  {
    if |lines| > 1 {
      JoinCons(lines[0], lines[1..], sep);
      assert [lines[0]] + lines[1..] == lines;
      JoinLastChar(lines[1..], sep);
    }
  }

  // ---------------------------------------------------------------------
  // find / split(sep, maxsplit=1)

  predicate OccursAt(s: string, sep: string, i: nat) {
    i + |sep| <= |s| && s[i..i + |sep|] == sep
  }

  /** An occurrence in the tail is an occurrence one position further in `s`. */
  lemma OccursShift(s: string, sep: string, j: nat)
    requires |s| > 0
    ensures OccursAt(s, sep, j + 1) <==> OccursAt(s[1..], sep, j)
  {
    if j + |sep| <= |s[1..]| {
      assert s[1..][j..j + |sep|] == s[j + 1..j + 1 + |sep|];
    }
  }

  /** `s.find(sep)`: the first position where `sep` occurs, if any. */
  function IndexOf(s: string, sep: string): (r: Option<nat>)
    ensures r.Some? ==> r.value + |sep| <= |s|
    decreases |s|
  {
    if |s| < |sep| then None
    else if s[..|sep|] == sep then Some(0)
    else
      match IndexOf(s[1..], sep)
      case None => None
      case Some(i) => Some(i + 1)
  }

  /** `find` reports the first occurrence, and `None` only when there is none. */
  lemma {:induction false} IndexOfShape(s: string, sep: string)
    ensures IndexOf(s, sep).Some? ==> OccursAt(s, sep, IndexOf(s, sep).value)
    ensures IndexOf(s, sep).Some? ==> forall j: nat :: j < IndexOf(s, sep).value ==> !OccursAt(s, sep, j)
    ensures IndexOf(s, sep).None? ==> forall j: nat :: !OccursAt(s, sep, j)
    decreases |s|
  {
    if |s| < |sep| {
    } else if s[..|sep|] == sep {
    } else {
      IndexOfShape(s[1..], sep);
      assert !OccursAt(s, sep, 0);
      forall j: nat | j > 0 && (IndexOf(s, sep).None? || j < IndexOf(s, sep).value)
        ensures !OccursAt(s, sep, j)
      {
        OccursShift(s, sep, j - 1);
      }
      if IndexOf(s, sep).Some? {
        OccursShift(s, sep, IndexOf(s, sep).value - 1);
      }
    }
  }

  /** `s.split(sep, maxsplit=1)` unpacked into two names: the text before the
      first `sep` and the text after it, or `None` when `sep` does not occur. */
  function SplitFirst(s: string, sep: string): Option<(string, string)> {
    match IndexOf(s, sep)
    case None => None
    case Some(i) => Some((s[..i], s[i + |sep|..]))
  }

  /** The split happens at the first occurrence of `sep`, and fails only when
      `sep` does not occur at all. */
  lemma SplitFirstShape(s: string, sep: string)
    ensures SplitFirst(s, sep).None? <==> forall j: nat :: !OccursAt(s, sep, j)
    ensures SplitFirst(s, sep).Some? ==> SplitFirst(s, sep).value.0 + sep + SplitFirst(s, sep).value.1 == s
    ensures SplitFirst(s, sep).Some? ==>
      forall j: nat :: j < |SplitFirst(s, sep).value.0| ==> !OccursAt(s, sep, j)
  {
    IndexOfShape(s, sep);
    match IndexOf(s, sep)
    case None =>
    case Some(i) =>
      assert s == s[..i] + s[i..i + |sep|] + s[i + |sep|..];
  }

  /** When `sep` does not start anywhere inside `x`, the split is right after `x`. */
  lemma SplitFirstBefore(x: string, sep: string, y: string)
    requires forall j: nat :: j < |x| ==> !OccursAt(x + sep + y, sep, j)
    ensures SplitFirst(x + sep + y, sep) == Some((x, y))
  {
    var s := x + sep + y;
    assert OccursAt(s, sep, |x|) by {
      assert s[|x|..|x| + |sep|] == sep;
    }
    SplitFirstShape(s, sep);
    var r := SplitFirst(s, sep).value;
    var i := |r.0|;
    assert OccursAt(s, sep, i) by {
      assert s[i..i + |sep|] == sep;
    }
    assert i == |x|;
    assert r.0 == s[..i] == x;
    assert r.1 == s[i + |sep|..] == y;
  }

  /** When `sep` is a single character absent from `x`, the first split point is right after `x`. */
  lemma SplitFirstAt(x: string, c: char, y: string)
    requires c !in x
    ensures SplitFirst(x + [c] + y, [c]) == Some((x, y))
  {
    forall j: nat | j < |x|
      ensures !OccursAt(x + [c] + y, [c], j)
    {
      assert (x + [c] + y)[j] == x[j];
    }
    SplitFirstBefore(x, [c], y);
  }

  // ---------------------------------------------------------------------
  // split() on runs of whitespace

  /** The longest whitespace-free prefix. */
  function Word(s: string): (r: string)
    ensures |r| <= |s|
    ensures |s| > 0 && !IsSpace(s[0]) ==> |r| > 0
    decreases |s|
  {
    if |s| == 0 || IsSpace(s[0]) then "" else [s[0]] + Word(s[1..])
  }

  /** `Word` is a prefix without whitespace that stops at whitespace or at the end. */
  lemma {:induction false} WordShape(s: string)
    ensures var r := Word(s);
      && r == s[..|r|]
      && NoSpace(r)
      && (|r| < |s| ==> IsSpace(s[|r|]))
    decreases |s|
  {
    if |s| > 0 && !IsSpace(s[0]) {
      WordShape(s[1..]);
    }
  }

  /** `s.split()`: the maximal runs of non-whitespace characters, in order. */
  function Words(s: string): seq<string>
    decreases |s|
  {
    if |s| == 0 then []
    else if IsSpace(s[0]) then Words(s[1..])
    else
      var w := Word(s);
      [w] + Words(s[|w|..])
  }

  /** A word is non-empty and contains no whitespace. */
  predicate IsWord(w: string) { |w| > 0 && NoSpace(w) }

  /** Every piece `split()` returns is a word. */
  lemma {:induction false} WordsShape(s: string)
    ensures forall i :: 0 <= i < |Words(s)| ==> IsWord(Words(s)[i])
    decreases |s|
  {
    if |s| > 0 {
      if IsSpace(s[0]) {
        WordsShape(s[1..]);
      } else {
        var w := Word(s);
        WordShape(s);
        WordsShape(s[|w|..]);
        assert Words(s) == [w] + Words(s[|w|..]);
      }
    }
  }

  lemma {:induction false} WordOf(w: string, t: string)
    requires NoSpace(w)
    requires |t| == 0 || IsSpace(t[0])
    ensures Word(w + t) == w
    decreases |w|
  {
    if |w| > 0 {
      assert (w + t)[0] == w[0];
      assert (w + t)[1..] == w[1..] + t;
      WordOf(w[1..], t);
      assert [w[0]] + w[1..] == w;
    } else {
      assert w + t == t;
    }
  }

  /** A leading run of whitespace does not change the words. */
  lemma {:induction false} WordsAfterSpace(a: string, t: string)
    requires AllSpace(a)
    ensures Words(a + t) == Words(t)
    decreases |a|
  {
    if |a| > 0 {
      assert (a + t)[0] == a[0];
      assert (a + t)[1..] == a[1..] + t;
      WordsAfterSpace(a[1..], t);
    } else {
      assert a + t == t;
    }
  }

  lemma WordsAfterBlank(t: string)
    ensures Words(" " + t) == Words(t)
  {
    WordsAfterSpace(" ", t);
  }

  lemma WordsStep(w: string, t: string)
    requires |w| > 0 && NoSpace(w)
    requires |t| == 0 || IsSpace(t[0])
    ensures Words(w + t) == [w] + Words(t)
  {
    var s := w + t;
    assert s[0] == w[0];
    WordOf(w, t);
    assert s[|w|..] == t;
  }

  lemma WordsSingle(w: string)
    requires |w| > 0 && NoSpace(w)
    ensures Words(w) == [w]
  {
    WordsStep(w, "");
    assert w + "" == w;
  }

  lemma WordsCons(w: string, rest: string)
    requires |w| > 0 && NoSpace(w)
    ensures Words(w + " " + rest) == [w] + Words(rest)
  {
    var t := " " + rest;
    assert w + " " + rest == w + t;
    WordsStep(w, t);
    WordsAfterBlank(rest);
  }

  /** Re-splitting words joined by single spaces gives back the words. */
  lemma {:induction false} WordsJoin(ws: seq<string>)
    requires forall i :: 0 <= i < |ws| ==> IsWord(ws[i])
    ensures Words(Join(ws, " ")) == ws
    decreases |ws|
  {
    if |ws| == 1 {
      WordsSingle(ws[0]);
    } else if |ws| > 1 {
      var tail := ws[1..];
      var rest := Join(tail, " ");
      WordsJoin(tail);
      JoinCons(ws[0], tail, " ");
      WordsCons(ws[0], rest);
      assert Words(Join(ws, " ")) == [ws[0]] + tail;
      assert [ws[0]] + tail == ws;
    }
  }
}
