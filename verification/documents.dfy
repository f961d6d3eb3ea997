/** Input documents written from their sections, and the theorem that the
    part parser reads such a document back: `content` and `footer` bodies
    come back stripped, `meta` lines come back as their key/value map, and
    for each section name the last section of that name wins.
 */
module Documents {
  import opened Results
  import opened Text
  import opened Sections
  import opened Parts

  /** A section as an author writes it. */
  datatype SourceSection =
    | MetaSource(pairs: seq<(string, string)>)
    | ContentSource(text: string)
    | FooterSource(text: string)

  function Name(src: SourceSection): string {
    match src
    case MetaSource(_) => "meta"
    case ContentSource(_) => "content"
    case FooterSource(_) => "footer"
  }

  function Body(src: SourceSection): string {
    match src
    case MetaSource(ps) => MetaText(ps)
    case ContentSource(t) => t
    case FooterSource(t) => t
  }

  /** The text after a section's `--- `: name line, body, closing newline. */
  function SegmentText(src: SourceSection): string {
    Name(src) + "\n" + Body(src) + "\n"
  }

  /** The whole document: every section introduced by its delimiter line. */
  function Serialize(doc: seq<SourceSection>): string
    decreases |doc|
  {
    if |doc| == 0 then "" else Delim + SegmentText(doc[0]) + Serialize(doc[1..])
  }

  /** What the parser should make of one section. */
  function Expected(src: SourceSection): Section {
    match src
    case MetaSource(ps) => Meta(PairsDict(ps))
    case ContentSource(t) => Content(Strip(t))
    case FooterSource(t) => Footer(Strip(t))
  }

  function ExpectedAll(doc: seq<SourceSection>): (r: seq<Section>)
    ensures |r| == |doc|
    ensures forall i :: 0 <= i < |doc| ==> r[i] == Expected(doc[i])
  {
    seq(|doc|, i requires 0 <= i < |doc| => Expected(doc[i]))
  }

  /** Meta pairs that survive the round trip: at least one line, each pair
      carried by one line, and the block neither starts nor ends with
      whitespace (the parser strips the block before cutting it into lines,
      so a last value that is empty or ends in whitespace would be damaged). */
  predicate MetaBlock(ps: seq<(string, string)>) {
    && |ps| >= 1
    && (forall i :: 0 <= i < |ps| ==> LinePair(ps[i]))
    && (|ps[0].0| == 0 || !IsSpace(ps[0].0[0]))
    && |ps[|ps| - 1].1| > 0 && !IsSpace(ps[|ps| - 1].1[|ps[|ps| - 1].1| - 1])
  }

  /** A section that can be written and read back: no body line starts with
      `--- `, and meta pairs fit the line format. */
  predicate Writable(src: SourceSection) {
    && Clean(Body(src), true)
    && (src.MetaSource? ==> MetaBlock(src.pairs))
  }

  // ---------------------------------------------------------------------

  function Segments(doc: seq<SourceSection>): (r: seq<string>)
    ensures |r| == |doc|
    ensures forall i :: 0 <= i < |doc| ==> r[i] == SegmentText(doc[i])
  {
    seq(|doc|, i requires 0 <= i < |doc| => SegmentText(doc[i]))
  }

  lemma JoinAfterEmpty(segs: seq<string>)
    ensures Join([""] + segs, Delim) == if |segs| == 0 then "" else Delim + Join(segs, Delim)
  {
    if |segs| > 0 {
      JoinCons("", segs, Delim);
    } else {
      assert [""] + segs == [""];
    }
  }

  lemma SegmentsCons(doc: seq<SourceSection>)
    requires |doc| > 0
    ensures Segments(doc) == [SegmentText(doc[0])] + Segments(doc[1..])
  {
  }

  /** The document is its segments with a delimiter in front of each. */
  lemma {:induction false} SerializeJoin(doc: seq<SourceSection>)
    ensures Serialize(doc) == Join([""] + Segments(doc), Delim)
    decreases |doc|
  {
    JoinAfterEmpty(Segments(doc));
    if |doc| > 0 {
      var head := SegmentText(doc[0]);
      var tail := Segments(doc[1..]);
      SerializeJoin(doc[1..]);
      JoinAfterEmpty(tail);
      SegmentsCons(doc);
      if |tail| == 0 {
        assert Join([head] + tail, Delim) == head;
      } else {
        JoinCons(head, tail, Delim);
      }
    }
  }

  lemma CleanSegment(name: string, body: string)
    requires '\n' !in name && Clean(body, true)
    ensures Clean(name + "\n" + body + "\n", false)
  {
    var s := name + "\n" + body + "\n";
    var off := |name| + 1;
    forall j: nat | j < |s|
      ensures !DelimAt(s, j, false)
    {
      if j <= |name| {
        if 0 < j {
          assert s[j - 1] == name[j - 1];
        }
      } else if j + |Delim| <= |s| && j < off + |body| {
        var m := j - off;
        if m + |Delim| > |body| {
          assert s[|s| - 1] == '\n';
          assert s[j..j + |Delim|][|s| - 1 - j] == '\n';
        } else {
          assert s[j..j + |Delim|] == body[m..m + |Delim|];
          assert !DelimAt(body, m, true);
          if m > 0 {
            assert s[j - 1] == body[m - 1];
          } else {
            assert s[j - 1] == '\n';
          }
        }
      }
    }
  }

  lemma SegmentSeparable(src: SourceSection)
    requires Writable(src)
    ensures Clean(SegmentText(src), false) && EndsAtLineStart(SegmentText(src), false)
  {
    CleanSegment(Name(src), Body(src));
    var s := SegmentText(src);
    assert s[|s| - 1] == '\n';
  }

  lemma SegmentsSeparable(doc: seq<SourceSection>)
    requires forall i :: 0 <= i < |doc| ==> Writable(doc[i])
    ensures Separable([""] + Segments(doc), true)
  {
    var segs := [""] + Segments(doc);
    forall k | 0 < k < |segs|
      ensures Clean(segs[k], false) && EndsAtLineStart(segs[k], false)
    {
      SegmentSeparable(doc[k - 1]);
    }
    assert Clean(segs[0], true);
  }

  lemma MetaTextTrimmed(ps: seq<(string, string)>)
    requires MetaBlock(ps)
    ensures Trimmed(MetaText(ps))
  {
    var lines := MetaLineSeq(ps);
    var first := MetaLine(ps[0]);
    var last := MetaLine(ps[|ps| - 1]);
    assert |first| > 0;
    JoinFirstChar(lines, "\n");
    if |ps[0].0| == 0 {
      assert first[0] == ':';
    } else {
      assert first[0] == ps[0].0[0];
    }
    JoinLastChar(lines, "\n");
    assert last[|last| - 1] == ps[|ps| - 1].1[|ps[|ps| - 1].1| - 1];
  }

  lemma MetaTextStrip(ps: seq<(string, string)>)
    requires MetaBlock(ps)
    ensures Strip(MetaText(ps) + "\n") == MetaText(ps)
  {
    StripNewline(MetaText(ps));
    MetaTextTrimmed(ps);
    StripTrimmed(MetaText(ps));
  }

  lemma MetaTextLines(ps: seq<(string, string)>)
    requires MetaBlock(ps)
    ensures Split(MetaText(ps), '\n') == MetaLineSeq(ps)
  {
    var lines := MetaLineSeq(ps);
    forall i | 0 <= i < |lines|
      ensures '\n' !in lines[i]
    {
      assert LinePair(ps[i]);
      assert lines[i] == ps[i].0 + MetaSep + ps[i].1;
    }
    SplitJoin(lines, '\n');
    assert "\n" == ['\n'];
  }

  lemma MetaBlockKeys(ps: seq<(string, string)>)
    requires MetaBlock(ps)
    ensures forall i :: 0 <= i < |ps| ==> NoMetaSep(ps[i].0)
  {
    forall i | 0 <= i < |ps|
      ensures NoMetaSep(ps[i].0)
    {
      assert LinePair(ps[i]);
    }
  }

  /** A meta block written from pairs parses back to the pairs' dictionary. */
  lemma MetaRoundTrip(ps: seq<(string, string)>)
    requires MetaBlock(ps)
    ensures ParseMeta(MetaText(ps) + "\n") == Ok(PairsDict(ps))
  {
    MetaTextStrip(ps);
    MetaTextLines(ps);
    ParseMetaLines(MetaText(ps) + "\n", MetaLineSeq(ps));
    MetaBlockKeys(ps);
    MetaLinesPairs(ps, map[]);
    assert map[] + PairsDict(ps) == PairsDict(ps);
  }

  lemma MetaSegmentRoundTrip(ps: seq<(string, string)>)
    requires MetaBlock(ps)
    ensures ParseSegment("meta" + "\n" + (MetaText(ps) + "\n")) == Ok(Meta(PairsDict(ps)))
  {
    SegmentByName("meta", MetaText(ps) + "\n");
    MetaRoundTrip(ps);
  }

  lemma TextSegmentRoundTrip(name: string, t: string)
    requires name == "content" || name == "footer"
    ensures name == "content" ==> ParseSegment(name + "\n" + (t + "\n")) == Ok(Content(Strip(t)))
    ensures name == "footer" ==> ParseSegment(name + "\n" + (t + "\n")) == Ok(Footer(Strip(t)))
  {
    SegmentByName(name, t + "\n");
    StripNewline(t);
  }

  /** One written section parses back to what is expected of it. */
  lemma SegmentRoundTrip(src: SourceSection)
    requires Writable(src)
    ensures ParseSegment(SegmentText(src)) == Ok(Expected(src))
  {
    var data := Body(src) + "\n";
    assert SegmentText(src) == Name(src) + "\n" + data;
    match src
    case MetaSource(ps) => MetaSegmentRoundTrip(ps);
    case ContentSource(t) => TextSegmentRoundTrip("content", t);
    case FooterSource(t) => TextSegmentRoundTrip("footer", t);
  }

  lemma SegmentsParse(doc: seq<SourceSection>)
    requires forall i :: 0 <= i < |doc| ==> Writable(doc[i])
    ensures ParseSegments(Segments(doc)) == Ok(ExpectedAll(doc))
  {
    var segs := Segments(doc);
    var secs := ExpectedAll(doc);
    forall i | 0 <= i < |segs|
      ensures segs[i] != "" && ParseSegment(segs[i]) == Ok(secs[i])
    {
      SegmentRoundTrip(doc[i]);
    }
    ParseEach(segs, secs);
  }

  /** The parser inverts the writer: a document written from sections parses
      to the last `meta`, `content` and `footer` section of each name, with
      `content`/`footer` bodies stripped and meta lines read as a dictionary. */
  lemma ExtractRoundTrip(doc: seq<SourceSection>)
    requires forall i :: 0 <= i < |doc| ==> Writable(doc[i])
    ensures ExtractParts(Serialize(doc)) == Ok(PartDict(
      LastMeta(ExpectedAll(doc)), LastContent(ExpectedAll(doc)), LastFooter(ExpectedAll(doc))))
  {
    SerializeJoin(doc);
    SegmentsSeparable(doc);
    SplitJoinSections([""] + Segments(doc));
    assert ([""] + Segments(doc))[0] == "";
    assert ([""] + Segments(doc))[1..] == Segments(doc);
    SegmentsParse(doc);
    CollectLastWins(ExpectedAll(doc));
  }
}
