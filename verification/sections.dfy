/** Splitting a raw input document at every line that starts with `--- `
    (the multi-line regular-expression split `^--- ` of the generator).
    The delimiter itself is consumed; the text before the first delimiter is
    the first segment, so a document that starts with a delimiter yields an
    empty first segment.
 */
module Sections {
  import opened Text

  const Delim: string := "--- "

  /** Position `j` of `s` is at the start of a line. Position 0 is a line start
      only when `atStart` holds, i.e. when nothing (or a newline) precedes `s`. */
  predicate LineStart(s: string, j: nat, atStart: bool) {
    if j == 0 then atStart else j <= |s| && s[j - 1] == '\n'
  }

  /** A delimiter begins at position `j`. */
  predicate DelimAt(s: string, j: nat, atStart: bool) {
    j + |Delim| <= |s| && LineStart(s, j, atStart) && s[j..j + |Delim|] == Delim
  }

  /** `s` contains no delimiter. */
  predicate Clean(s: string, atStart: bool) {
    forall j: nat :: j < |s| ==> !DelimAt(s, j, atStart)
  }

  /** The scan behind the split: `atStart` says whether the current position
      is at the start of a line. */
  function SplitFrom(s: string, atStart: bool): (r: seq<string>)
    ensures |r| >= 1
    decreases |s|
  {
    if |s| == 0 then [""]
    else if atStart && |s| >= |Delim| && s[..|Delim|] == Delim then
      [""] + SplitFrom(s[|Delim|..], false)
    else
      var rest := SplitFrom(s[1..], s[0] == '\n');
      [[s[0]] + rest[0]] + rest[1..]
  }

  /** `re.split(r'^--- ', raw, flags=re.MULTILINE)`. */
  function SplitSections(raw: string): (r: seq<string>)
    ensures |r| >= 1
  {
    SplitFrom(raw, true)
  }

  /** Putting the delimiters back between the segments restores the document. */
  lemma {:induction false} JoinSplitFrom(s: string, atStart: bool)
    ensures Join(SplitFrom(s, atStart), Delim) == s
    decreases |s|
  {
    if |s| == 0 {
    } else if atStart && |s| >= |Delim| && s[..|Delim|] == Delim {
      JoinSplitFrom(s[|Delim|..], false);
      JoinCons("", SplitFrom(s[|Delim|..], false), Delim);
      assert s == Delim + s[|Delim|..];
    } else {
      var rest := SplitFrom(s[1..], s[0] == '\n');
      JoinSplitFrom(s[1..], s[0] == '\n');
      JoinExtendFirst(s[0], rest, Delim);
      assert s == [s[0]] + s[1..];
    }
  }

  /** Joining the segments of a split with the delimiter gives back the document. */
  lemma JoinSplitSections(raw: string)
    ensures Join(SplitSections(raw), Delim) == raw
  {
    JoinSplitFrom(raw, true);
  }

  /** A delimiter-free text is one segment. */
  lemma {:induction false} SplitClean(s: string, atStart: bool)
    requires Clean(s, atStart)
    ensures SplitFrom(s, atStart) == [s]
    decreases |s|
  {
    if |s| > 0 {
      assert !DelimAt(s, 0, atStart);
      var st := s[0] == '\n';
      assert Clean(s[1..], st) by {
        forall j: nat | j < |s[1..]|
          ensures !DelimAt(s[1..], j, st)
        {
          assert !DelimAt(s, j + 1, atStart);
          if j + |Delim| <= |s[1..]| {
            assert s[1..][j..j + |Delim|] == s[j + 1..j + 1 + |Delim|];
          }
        }
      }
      SplitClean(s[1..], st);
      assert [s[0]] + s[1..] == s;
    }
  }

  /** The text before a delimiter that sits at a line start. */
  predicate EndsAtLineStart(s: string, atStart: bool) {
    LineStart(s, |s|, atStart)
  }

  lemma DelimNotAtFront(seg: string, atStart: bool, rest: string)
    requires Clean(seg, atStart) && EndsAtLineStart(seg, atStart) && |seg| > 0
    ensures !(atStart && |seg + Delim + rest| >= |Delim| && (seg + Delim + rest)[..|Delim|] == Delim)
  {
    var s := seg + Delim + rest;
    if |seg| >= |Delim| {
      assert s[..|Delim|] == seg[..|Delim|];
      assert !DelimAt(seg, 0, atStart);
    } else {
      assert seg[|seg| - 1] == '\n';
      assert s[|seg| - 1] == '\n';
      assert Delim[|seg| - 1] != '\n';
    }
  }

  lemma {:induction false} SplitBeforeDelim(seg: string, atStart: bool, rest: string)
    requires Clean(seg, atStart) && EndsAtLineStart(seg, atStart)
    ensures SplitFrom(seg + Delim + rest, atStart) == [seg] + SplitFrom(rest, false)
    decreases |seg|
  {
    var s := seg + Delim + rest;
    if |seg| == 0 {
      assert s == Delim + rest;
      assert s[|Delim|..] == rest;
    } else {
      DelimNotAtFront(seg, atStart, rest);
      var st := seg[0] == '\n';
      assert Clean(seg[1..], st) by {
        forall j: nat | j < |seg[1..]|
          ensures !DelimAt(seg[1..], j, st)
        {
          assert !DelimAt(seg, j + 1, atStart);
          if j + |Delim| <= |seg[1..]| {
            assert seg[1..][j..j + |Delim|] == seg[j + 1..j + 1 + |Delim|];
          }
        }
      }
      assert s[1..] == seg[1..] + Delim + rest;
      SplitBeforeDelim(seg[1..], st, rest);
      assert [seg[0]] + seg[1..] == seg;
    }
  }

  /** Segments that can be put between delimiters and read back: none contains
      a delimiter, and each one but the last ends where a line starts. */
  predicate Separable(segs: seq<string>, atStart: bool) {
    && |segs| >= 1
    && (forall k :: 0 <= k < |segs| ==> Clean(segs[k], k == 0 && atStart))
    && (forall k :: 0 <= k < |segs| - 1 ==> EndsAtLineStart(segs[k], k == 0 && atStart))
  }

  lemma {:induction false} SplitJoinFrom(segs: seq<string>, atStart: bool)
    requires Separable(segs, atStart)
    ensures SplitFrom(Join(segs, Delim), atStart) == segs
    decreases |segs|
  {
    if |segs| == 1 {
      SplitClean(segs[0], atStart);
    } else {
      var tail := segs[1..];
      assert Separable(tail, false) by {
        forall k | 0 <= k < |tail|
          ensures Clean(tail[k], k == 0 && false)
        {
          assert Clean(segs[k + 1], k + 1 == 0 && atStart);
        }
        forall k | 0 <= k < |tail| - 1
          ensures EndsAtLineStart(tail[k], k == 0 && false)
        {
          assert EndsAtLineStart(segs[k + 1], k + 1 == 0 && atStart);
        }
      }
      SplitJoinFrom(tail, false);
      assert [segs[0]] + tail == segs;
      JoinCons(segs[0], tail, Delim);
      assert Clean(segs[0], atStart);
      assert EndsAtLineStart(segs[0], atStart);
      SplitBeforeDelim(segs[0], atStart, Join(tail, Delim));
    }
  }

  /** Splitting delimiter-free segments joined by delimiters gives back the segments. */
  lemma SplitJoinSections(segs: seq<string>)
    requires Separable(segs, true)
    ensures SplitSections(Join(segs, Delim)) == segs
  {
    SplitJoinFrom(segs, true);
  }
}
