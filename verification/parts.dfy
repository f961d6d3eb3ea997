/** The part parser: one raw input document to its `meta`, `content` and
    `footer` sections (miniwww.py, `extract_parts`).
 */
module Parts {
  import opened Results
  import opened Text
  import opened Sections

  type MetaDict = map<string, string>

  const MetaSep: string := ": "

  /** One parsed section. */
  datatype Section = Meta(fields: MetaDict) | Content(body: string) | Footer(body: string)

  /** The part dictionary: each entry is present when the document had such a section. */
  datatype PartDict = PartDict(meta: Option<MetaDict>, content: Option<string>, footer: Option<string>)

  const NoParts := PartDict(None, None, None)

  // ---------------------------------------------------------------------
  // meta

  /** Adds the meta lines, in order, to `acc`; a line without `": "` stops the parse. */
  function MetaLines(lines: seq<string>, acc: MetaDict): (r: Result<MetaDict>)
    decreases |lines|
  {
    if |lines| == 0 then Ok(acc)
    else
      match SplitFirst(lines[0], MetaSep)
      case None => Err(MalformedMetaLine(lines[0]))
      case Some((k, v)) => MetaLines(lines[1..], acc[k := v])
  }

  /** A `meta` body: stripped, cut into lines, each line split at its first `": "`. */
  function ParseMeta(data: string): Result<MetaDict> {
    MetaLines(Split(Strip(data), '\n'), map[])
  }

  /** Reference reading of key/value pairs: the later of two equal keys wins. */
  function PairsDict(ps: seq<(string, string)>): MetaDict
    decreases |ps|
  {
    if |ps| == 0 then map[]
    else
      var last := ps[|ps| - 1];
      PairsDict(ps[..|ps| - 1])[last.0 := last.1]
  }

  /** The value `PairsDict` keeps for a key is the one of its last pair. */
  lemma {:induction false} PairsDictLastWins(ps: seq<(string, string)>, i: nat)
    requires i < |ps|
    requires forall j :: i < j < |ps| ==> ps[j].0 != ps[i].0
    ensures ps[i].0 in PairsDict(ps) && PairsDict(ps)[ps[i].0] == ps[i].1
    decreases |ps|
  {
    if i < |ps| - 1 {
      var init := ps[..|ps| - 1];
      assert init[i] == ps[i];
      PairsDictLastWins(init, i);
    }
  }

  /** Exactly the keys of the pairs. */
  lemma {:induction false} PairsDictKeys(ps: seq<(string, string)>)
    ensures PairsDict(ps).Keys == set i | 0 <= i < |ps| :: ps[i].0
    decreases |ps|
  {
    if |ps| > 0 {
      var init := ps[..|ps| - 1];
      PairsDictKeys(init);
      var s := set i | 0 <= i < |ps| :: ps[i].0;
      var t := set i | 0 <= i < |init| :: init[i].0;
      assert s == t + {ps[|ps| - 1].0} by {
        forall x | x in s ensures x in t + {ps[|ps| - 1].0} {
          var i :| 0 <= i < |ps| && ps[i].0 == x;
          if i < |ps| - 1 { assert init[i] == ps[i]; }
        }
        forall x | x in t ensures x in s {
          var i :| 0 <= i < |init| && init[i].0 == x;
          assert ps[i] == init[i];
        }
      }
    }
  }

  /** The text line of one pair. */
  function MetaLine(p: (string, string)): string {
    p.0 + MetaSep + p.1
  }

  function MetaLineSeq(ps: seq<(string, string)>): (r: seq<string>)
    ensures |r| == |ps|
    ensures forall i :: 0 <= i < |ps| ==> r[i] == MetaLine(ps[i])
  {
    seq(|ps|, i requires 0 <= i < |ps| => MetaLine(ps[i]))
  }

  /** The `meta` body that lists the pairs, one `key: value` per line. */
  function MetaText(ps: seq<(string, string)>): string {
    Join(MetaLineSeq(ps), "\n")
  }

  /** `": "` does not occur in `s`. */
  predicate NoMetaSep(s: string) {
    forall j: nat :: j < |s| ==> !OccursAt(s, MetaSep, j)
  }

  /** A pair that the line format can carry: the key holds no `": "` and
      neither side holds a newline. The value may contain `": "`. */
  predicate LinePair(p: (string, string)) {
    NoMetaSep(p.0) && '\n' !in p.0 && '\n' !in p.1
  }

  /** A line is split at the first `": "`, which is the one after the key. */
  lemma MetaLineSplits(k: string, v: string)
    requires NoMetaSep(k)
    ensures SplitFirst(k + MetaSep + v, MetaSep) == Some((k, v))
  {
    var s := k + MetaSep + v;
    forall j: nat | j < |k|
      ensures !OccursAt(s, MetaSep, j)
    {
      if j + 2 <= |k| {
        assert s[j..j + 2] == k[j..j + 2];
        assert !OccursAt(k, MetaSep, j);
      } else {
        assert s[j + 1] == ':';
      }
    }
    SplitFirstBefore(k, MetaSep, v);
  }

  lemma MetaLineSeqSnoc(ps: seq<(string, string)>)
    requires |ps| > 0
    ensures MetaLineSeq(ps) == MetaLineSeq(ps[..|ps| - 1]) + [MetaLine(ps[|ps| - 1])]
  {
  }

  lemma PairsDictOver(acc: MetaDict, ps: seq<(string, string)>)
    requires |ps| > 0
    ensures (acc + PairsDict(ps[..|ps| - 1]))[ps[|ps| - 1].0 := ps[|ps| - 1].1] == acc + PairsDict(ps)
  {
  }

  /** Lines written from pairs parse back to the pairs, later keys overriding earlier ones. */
  lemma {:induction false} MetaLinesPairs(ps: seq<(string, string)>, acc: MetaDict)
    requires forall i :: 0 <= i < |ps| ==> NoMetaSep(ps[i].0)
    ensures MetaLines(MetaLineSeq(ps), acc) == Ok(acc + PairsDict(ps))
    decreases |ps|
  {
    if |ps| == 0 {
      assert acc + map[] == acc;
      assert MetaLineSeq(ps) == [];
    } else {
      var last := ps[|ps| - 1];
      var init := ps[..|ps| - 1];
      MetaLinesPairs(init, acc);
      MetaLinesSnoc(MetaLineSeq(init), last, acc);
      MetaLineSeqSnoc(ps);
      PairsDictOver(acc, ps);
    }
  }

  /** One more well-formed line at the end adds its pair last. */
  lemma {:induction false} MetaLinesSnoc(lines: seq<string>, p: (string, string), acc: MetaDict)
    requires NoMetaSep(p.0)
    requires MetaLines(lines, acc).Ok?
    ensures MetaLines(lines + [MetaLine(p)], acc) == Ok(MetaLines(lines, acc).value[p.0 := p.1])
    decreases |lines|
  {
    if |lines| == 0 {
      MetaLineSplits(p.0, p.1);
      assert lines + [MetaLine(p)] == [MetaLine(p)];
    } else {
      var kv := SplitFirst(lines[0], MetaSep).value;
      assert (lines + [MetaLine(p)])[1..] == lines[1..] + [MetaLine(p)];
      MetaLinesSnoc(lines[1..], p, acc[kv.0 := kv.1]);
    }
  }

  /** The meta parse fails exactly when some line has no `": "`, and it
      names the first such line. */
  lemma {:induction false} MetaLinesFails(lines: seq<string>, acc: MetaDict, i: nat)
    requires i < |lines| && SplitFirst(lines[i], MetaSep).None?
    requires forall j :: 0 <= j < i ==> SplitFirst(lines[j], MetaSep).Some?
    ensures MetaLines(lines, acc) == Err(MalformedMetaLine(lines[i]))
    decreases i
  {
    if i > 0 {
      var kv := SplitFirst(lines[0], MetaSep).value;
      assert forall j :: 0 <= j < i - 1 ==> lines[1..][j] == lines[j + 1];
      MetaLinesFails(lines[1..], acc[kv.0 := kv.1], i - 1);
    }
  }

  /** A successful meta parse saw a `": "` on every line. */
  lemma {:induction false} MetaLinesOk(lines: seq<string>, acc: MetaDict)
    requires MetaLines(lines, acc).Ok?
    ensures forall j :: 0 <= j < |lines| ==> SplitFirst(lines[j], MetaSep).Some?
    decreases |lines|
  {
    if |lines| > 0 {
      var kv := SplitFirst(lines[0], MetaSep).value;
      MetaLinesOk(lines[1..], acc[kv.0 := kv.1]);
      assert forall j :: 1 <= j < |lines| ==> lines[j] == lines[1..][j - 1];
    }
  }

  // ---------------------------------------------------------------------
  // one segment

  predicate IsSectionName(name: string) {
    name == "meta" || name == "content" || name == "footer"
  }

  /** One non-empty segment: its first line names the section, the rest is the body. */
  function ParseSegment(seg: string): (r: Result<Section>)
  {
    match SplitFirst(seg, "\n")
    case None => Err(SectionWithoutNewline(seg))
    case Some((name, data)) =>
      if name == "meta" then
        var m :- ParseMeta(data);
        Ok(Meta(m))
      else if name == "content" then Ok(Content(Strip(data)))
      else if name == "footer" then Ok(Footer(Strip(data)))
      else Err(UnknownPart(name))
  }

  /** The segments in order, empty ones skipped; the first failure stops the parse. */
  function ParseSegments(segs: seq<string>): (r: Result<seq<Section>>)
    decreases |segs|
  {
    if |segs| == 0 then Ok([])
    else if segs[0] == "" then ParseSegments(segs[1..])
    else
      var sec :- ParseSegment(segs[0]);
      var rest :- ParseSegments(segs[1..]);
      Ok([sec] + rest)
  }

  /** Stores one section; a later section of the same name replaces an earlier one. */
  function Record(parts: PartDict, sec: Section): PartDict {
    match sec
    case Meta(m) => parts.(meta := Some(m))
    case Content(c) => parts.(content := Some(c))
    case Footer(f) => parts.(footer := Some(f))
  }

  /** The loop storing the parsed sections, first to last. */
  function Collect(secs: seq<Section>, acc: PartDict): PartDict
    decreases |secs|
  {
    if |secs| == 0 then acc else Collect(secs[1..], Record(acc, secs[0]))
  }

  /** `extract_parts(raw_content)`. */
  function ExtractParts(raw: string): Result<PartDict> {
    var secs :- ParseSegments(SplitSections(raw));
    Ok(Collect(secs, NoParts))
  }

  // ---------------------------------------------------------------------
  // properties of the segment parser

  /** The first line of a segment is its section name, the remainder its body. */
  lemma SegmentParts(name: string, data: string)
    requires '\n' !in name
    ensures SplitFirst(name + "\n" + data, "\n") == Some((name, data))
  {
    SplitFirstAt(name, '\n', data);
    assert name + "\n" + data == name + ['\n'] + data;
  }

  /** Section names decide the outcome: `content` and `footer` bodies are
      stored stripped, any name but the three recognised ones is an error. */
  lemma SegmentByName(name: string, data: string)
    requires '\n' !in name
    ensures name == "content" ==> ParseSegment(name + "\n" + data) == Ok(Content(Strip(data)))
    ensures name == "footer" ==> ParseSegment(name + "\n" + data) == Ok(Footer(Strip(data)))
    ensures name == "meta" ==> ParseSegment(name + "\n" + data).Ok? == ParseMeta(data).Ok?
    ensures name == "meta" && ParseMeta(data).Ok? ==>
      ParseSegment(name + "\n" + data) == Ok(Meta(ParseMeta(data).value))
    ensures !IsSectionName(name) ==> ParseSegment(name + "\n" + data) == Err(UnknownPart(name))
  {
    SegmentParts(name, data);
  }

  /** A non-empty segment that parses is followed by the parse of the rest. */
  lemma ParseSegmentsCons(seg: string, rest: seq<string>)
    requires seg != "" && ParseSegment(seg).Ok? && ParseSegments(rest).Ok?
    ensures ParseSegments([seg] + rest) == Ok([ParseSegment(seg).value] + ParseSegments(rest).value)
  {
    assert ([seg] + rest)[1..] == rest;
  }

  lemma ParseMetaLines(data: string, lines: seq<string>)
    requires Split(Strip(data), '\n') == lines
    ensures ParseMeta(data) == MetaLines(lines, map[])
  {
  }

  /** Non-empty segments that each parse give the sequence of their sections. */
  lemma {:induction false} ParseEach(segs: seq<string>, secs: seq<Section>)
    requires |segs| == |secs|
    requires forall i :: 0 <= i < |segs| ==> segs[i] != "" && ParseSegment(segs[i]) == Ok(secs[i])
    ensures ParseSegments(segs) == Ok(secs)
    decreases |segs|
  {
    if |segs| > 0 {
      ParseEach(segs[1..], secs[1..]);
      ParseSegmentsCons(segs[0], segs[1..]);
      assert [segs[0]] + segs[1..] == segs;
      assert [secs[0]] + secs[1..] == secs;
    }
  }

  /** Empty segments are skipped: one inserted anywhere changes nothing. */
  lemma {:induction false} ParseSegmentsSkipEmpty(segs: seq<string>, i: nat)
    requires i <= |segs|
    ensures ParseSegments(segs[..i] + [""] + segs[i..]) == ParseSegments(segs)
    decreases i
  {
    InsertEmpty(segs, i);
    if i > 0 {
      ParseSegmentsSkipEmpty(segs[1..], i - 1);
    }
  }

  lemma InsertEmpty(segs: seq<string>, i: nat)
    requires i <= |segs|
    ensures var t := segs[..i] + [""] + segs[i..];
      && (i == 0 ==> t[0] == "" && t[1..] == segs)
      && (i > 0 ==> t[0] == segs[0] && t[1..] == segs[1..][..i - 1] + [""] + segs[1..][i - 1..])
  {
    var t := segs[..i] + [""] + segs[i..];
    if i > 0 {
      assert t[1..] == segs[1..][..i - 1] + [""] + segs[1..][i - 1..];
    }
  }

  /** A non-empty segment without a newline cannot be split into name and body. */
  lemma SegmentWithoutNewline(seg: string)
    requires '\n' !in seg
    ensures ParseSegment(seg) == Err(SectionWithoutNewline(seg))
  {
    forall j: nat
      ensures !OccursAt(seg, "\n", j)
    {
      if j + 1 <= |seg| {
        assert seg[j..j + 1] == [seg[j]];
      }
    }
    SplitFirstShape(seg, "\n");
  }

  /** A non-empty segment whose parse fails. */
  predicate BadSegment(seg: string) {
    seg != "" && ParseSegment(seg).Err?
  }

  lemma ParseSegmentsStep(segs: seq<string>)
    requires |segs| > 0
    ensures ParseSegments(segs).Err? <==> BadSegment(segs[0]) || ParseSegments(segs[1..]).Err?
  {
  }

  /** The parse of the segments fails exactly when one non-empty segment fails. */
  lemma {:induction false} ParseSegmentsFails(segs: seq<string>)
    ensures ParseSegments(segs).Err? <==> exists k :: 0 <= k < |segs| && BadSegment(segs[k])
    decreases |segs|
  {
    if |segs| > 0 {
      var tail := segs[1..];
      ParseSegmentsFails(tail);
      ParseSegmentsStep(segs);
      if exists k :: 1 <= k < |segs| && BadSegment(segs[k]) {
        var k :| 1 <= k < |segs| && BadSegment(segs[k]);
        assert tail[k - 1] == segs[k];
      }
      if exists k :: 0 <= k < |tail| && BadSegment(tail[k]) {
        var k :| 0 <= k < |tail| && BadSegment(tail[k]);
        assert segs[k + 1] == tail[k];
      }
    }
  }

  /** A document parses only if every non-empty segment has a name line with
      a recognised name; otherwise `extract_parts` fails. */
  lemma ExtractPartsFails(raw: string)
    ensures ExtractParts(raw).Err? <==>
      exists k :: 0 <= k < |SplitSections(raw)| && BadSegment(SplitSections(raw)[k])
  {
    ParseSegmentsFails(SplitSections(raw));
  }

  // ---------------------------------------------------------------------
  // last section wins

  function LastMeta(secs: seq<Section>): Option<MetaDict>
    decreases |secs|
  {
    if |secs| == 0 then None
    else if secs[|secs| - 1].Meta? then Some(secs[|secs| - 1].fields)
    else LastMeta(secs[..|secs| - 1])
  }

  function LastContent(secs: seq<Section>): Option<string>
    decreases |secs|
  {
    if |secs| == 0 then None
    else if secs[|secs| - 1].Content? then Some(secs[|secs| - 1].body)
    else LastContent(secs[..|secs| - 1])
  }

  function LastFooter(secs: seq<Section>): Option<string>
    decreases |secs|
  {
    if |secs| == 0 then None
    else if secs[|secs| - 1].Footer? then Some(secs[|secs| - 1].body)
    else LastFooter(secs[..|secs| - 1])
  }

  lemma {:induction false} CollectSnoc(secs: seq<Section>, sec: Section, acc: PartDict)
    ensures Collect(secs + [sec], acc) == Record(Collect(secs, acc), sec)
    decreases |secs|
  {
    if |secs| == 0 {
      assert secs + [sec] == [sec];
    } else {
      assert (secs + [sec])[1..] == secs[1..] + [sec];
      CollectSnoc(secs[1..], sec, Record(acc, secs[0]));
    }
  }

  /** Storing sections in order keeps, for each name, the last section of that name. */
  lemma {:induction false} CollectLastWins(secs: seq<Section>)
    ensures Collect(secs, NoParts) == PartDict(LastMeta(secs), LastContent(secs), LastFooter(secs))
    decreases |secs|
  {
    if |secs| > 0 {
      var init := secs[..|secs| - 1];
      CollectLastWins(init);
      CollectSnoc(init, secs[|secs| - 1], NoParts);
      assert init + [secs[|secs| - 1]] == secs;
    }
  }
}
