/** The stylesheet part of a page: the queue of linked and embedded
    stylesheets built from the `style` and `extra_css` meta values, and the
    `css_html` text assembled from that queue.
 */
module Styles {
  import opened Results
  import opened Text

  /** Stylesheets queued for a page: file names to link, in order, and style
      texts to embed, in order. */
  datatype Queue = Queue(links: seq<string>, embeds: seq<string>)

  /** Queues one `extra_css` token `name!mode`. The token must hold exactly
      one `!`. Mode `embed` embeds the named extra stylesheet, stripped; any
      other mode links the name. */
  function QueueToken(tok: string, extras: map<string, string>, q: Queue): Result<Queue> {
    var fields := Split(tok, '!');
    if |fields| != 2 then Err(MalformedExtraCss(tok))
    else if fields[1] == "embed" then
      if fields[0] in extras then Ok(Queue(q.links, q.embeds + [Strip(extras[fields[0]])]))
      else Err(MissingExtraAsset(fields[0]))
    else Ok(Queue(q.links + [fields[0]], q.embeds))
  }

  /** Queues the tokens left to right; the first bad token stops the page. */
  function QueueExtra(tokens: seq<string>, extras: map<string, string>, q: Queue): Result<Queue>
    decreases |tokens|
  {
    if |tokens| == 0 then Ok(q)
    else
      var next :- QueueToken(tokens[0], extras, q);
      QueueExtra(tokens[1..], extras, next)
  }

  // ---------------------------------------------------------------------
  // reference meaning of a token list

  /** An `extra_css` entry as an author means it. */
  datatype ExtraCss = ExtraCss(name: string, mode: string)

  function TokenText(x: ExtraCss): string {
    x.name + "!" + x.mode
  }

  function TokenTexts(xs: seq<ExtraCss>): (r: seq<string>)
    ensures |r| == |xs|
    ensures forall i :: 0 <= i < |xs| ==> r[i] == TokenText(xs[i])
  {
    seq(|xs|, i requires 0 <= i < |xs| => TokenText(xs[i]))
  }

  /** Neither part holds a `!`, so the token text reads back as this entry. */
  predicate Plain(x: ExtraCss) {
    '!' !in x.name && '!' !in x.mode
  }

  predicate Embeds(x: ExtraCss) {
    x.mode == "embed"
  }

  /** Every embedded entry names an extra stylesheet that exists. */
  predicate Available(xs: seq<ExtraCss>, extras: map<string, string>) {
    forall i :: 0 <= i < |xs| ==> (Embeds(xs[i]) ==> xs[i].name in extras)
  }

  /** The names of the linked entries, in order. */
  function LinkNames(xs: seq<ExtraCss>): seq<string>
    decreases |xs|
  {
    if |xs| == 0 then []
    else (if Embeds(xs[0]) then [] else [xs[0].name]) + LinkNames(xs[1..])
  }

  /** The stripped texts of the embedded entries, in order. */
  function EmbedTexts(xs: seq<ExtraCss>, extras: map<string, string>): seq<string>
    requires Available(xs, extras)
    decreases |xs|
  {
    if |xs| == 0 then []
    else (if Embeds(xs[0]) then [Strip(extras[xs[0].name])] else []) + EmbedTexts(xs[1..], extras)
  }

  /** A plain entry is queued by its mode. */
  lemma QueueTokenText(x: ExtraCss, extras: map<string, string>, q: Queue)
    requires Plain(x)
    ensures Embeds(x) && x.name in extras ==>
      QueueToken(TokenText(x), extras, q) == Ok(Queue(q.links, q.embeds + [Strip(extras[x.name])]))
    ensures Embeds(x) && x.name !in extras ==>
      QueueToken(TokenText(x), extras, q) == Err(MissingExtraAsset(x.name))
    ensures !Embeds(x) ==> QueueToken(TokenText(x), extras, q) == Ok(Queue(q.links + [x.name], q.embeds))
  {
    SplitTwo(x.name, '!', x.mode);
    assert TokenText(x) == x.name + ['!'] + x.mode;
  }

  /** A token whose `!` count is not exactly one is rejected, whatever its mode. */
  lemma QueueTokenMalformed(tok: string, extras: map<string, string>, q: Queue)
    requires multiset(tok)['!'] != 1
    ensures QueueToken(tok, extras, q) == Err(MalformedExtraCss(tok))
  {
    SplitCount(tok, '!');
  }

  // Re-associates apart from any `QueueExtra` term: inline next to one, the step is costly.
  lemma ConcatAssoc(a: seq<string>, b: seq<string>, c: seq<string>)
    ensures a + b + c == a + (b + c)
  {
  }

  /** The reference lists of a non-empty entry list: the first entry's
      contribution, then the rest's. */
  lemma ExtraCons(xs: seq<ExtraCss>, extras: map<string, string>)
    requires |xs| > 0 && Available(xs, extras)
    ensures Available(xs[1..], extras)
    ensures TokenTexts(xs) == [TokenText(xs[0])] + TokenTexts(xs[1..])
    ensures Embeds(xs[0]) ==> LinkNames(xs) == LinkNames(xs[1..])
    ensures Embeds(xs[0]) ==>
      EmbedTexts(xs, extras) == [Strip(extras[xs[0].name])] + EmbedTexts(xs[1..], extras)
    ensures !Embeds(xs[0]) ==> LinkNames(xs) == [xs[0].name] + LinkNames(xs[1..])
    ensures !Embeds(xs[0]) ==> EmbedTexts(xs, extras) == EmbedTexts(xs[1..], extras)
  {
    forall i | 0 <= i < |xs[1..]|
      ensures Embeds(xs[1..][i]) ==> xs[1..][i].name in extras
    {
      assert xs[1..][i] == xs[i + 1];
    }
  }

  /** Queueing plain entries links the link-mode names and embeds the
      embed-mode texts, each kind in the order given, after what was queued
      before. */
  lemma {:induction false} QueueExtraOk(xs: seq<ExtraCss>, extras: map<string, string>, q: Queue)
    requires forall i :: 0 <= i < |xs| ==> Plain(xs[i])
    requires Available(xs, extras)
    ensures QueueExtra(TokenTexts(xs), extras, q) ==
      Ok(Queue(q.links + LinkNames(xs), q.embeds + EmbedTexts(xs, extras)))
    decreases |xs|
  {
    if |xs| > 0 {
      var x := xs[0];
      var tokens := TokenTexts(xs);
      ExtraCons(xs, extras);
      assert Plain(x);
      QueueTokenText(x, extras, q);
      var next := QueueToken(TokenText(x), extras, q).value;
      QueueExtraOk(xs[1..], extras, next);
      assert QueueExtra(tokens, extras, q) == QueueExtra(TokenTexts(xs[1..]), extras, next);
      if Embeds(x) {
        ConcatAssoc(q.embeds, [Strip(extras[x.name])], EmbedTexts(xs[1..], extras));
      } else {
        ConcatAssoc(q.links, [x.name], LinkNames(xs[1..]));
      }
    } else {
      assert TokenTexts(xs) == [];
      assert q.links + LinkNames(xs) == q.links;
      assert q.embeds + EmbedTexts(xs, extras) == q.embeds;
    }
  }

  /** The entries before the first missing embed are queued, and then the
      page fails naming that stylesheet. */
  lemma {:induction false} QueueExtraMissing(xs: seq<ExtraCss>, extras: map<string, string>, q: Queue, i: nat)
    requires forall j :: 0 <= j < |xs| ==> Plain(xs[j])
    requires i < |xs| && Embeds(xs[i]) && xs[i].name !in extras
    requires Available(xs[..i], extras)
    ensures QueueExtra(TokenTexts(xs), extras, q) == Err(MissingExtraAsset(xs[i].name))
    decreases |xs|
  {
    var x := xs[0];
    var tokens := TokenTexts(xs);
    QueueTokenText(x, extras, q);
    if i > 0 {
      assert Available([x], extras) by {
        assert xs[..i][0] == x;
      }
      assert tokens[1..] == TokenTexts(xs[1..]);
      var pre := xs[1..][..i - 1];
      assert Available(pre, extras) by {
        forall j | 0 <= j < |pre|
          ensures Embeds(pre[j]) ==> pre[j].name in extras
        {
          assert pre[j] == xs[..i][j + 1];
        }
      }
      var next := QueueToken(tokens[0], extras, q).value;
      QueueExtraMissing(xs[1..], extras, next, i - 1);
    }
  }

  /** A malformed token fails the page once the tokens before it are queued. */
  lemma {:induction false} QueueExtraMalformed(xs: seq<ExtraCss>, extras: map<string, string>, q: Queue, bad: string)
    requires forall j :: 0 <= j < |xs| ==> Plain(xs[j])
    requires Available(xs, extras)
    requires multiset(bad)['!'] != 1
    ensures forall rest :: QueueExtra(TokenTexts(xs) + [bad] + rest, extras, q) == Err(MalformedExtraCss(bad))
    decreases |xs|
  {
    forall rest
      ensures QueueExtra(TokenTexts(xs) + [bad] + rest, extras, q) == Err(MalformedExtraCss(bad))
    {
      var tokens := TokenTexts(xs) + [bad] + rest;
      if |xs| == 0 {
        assert tokens == [bad] + rest;
        QueueTokenMalformed(bad, extras, q);
      } else {
        var x := xs[0];
        QueueTokenText(x, extras, q);
        assert tokens[0] == TokenText(x);
        assert tokens[1..] == TokenTexts(xs[1..]) + [bad] + rest;
        assert Available(xs[1..], extras) by {
          forall j | 0 <= j < |xs[1..]|
            ensures Embeds(xs[1..][j]) ==> xs[1..][j].name in extras
          {
            assert xs[1..][j] == xs[j + 1];
          }
        }
        var next := QueueToken(tokens[0], extras, q).value;
        QueueExtraMalformed(xs[1..], extras, next, bad);
      }
    }
  }

  // ---------------------------------------------------------------------
  // css_html

  function LinkTag(base: string, url: string): string {
    "<link rel=\"stylesheet\" href=\"" + base + url + "\">"
  }

  /** One link line per linked stylesheet, each ended by a newline. */
  function LinkLines(base: string, links: seq<string>): string
    decreases |links|
  {
    if |links| == 0 then "" else LinkTag(base, links[0]) + "\n" + LinkLines(base, links[1..])
  }

  function StyleBlock(embeds: seq<string>): string {
    "<style>\n" + Join(embeds, "\n") + "\n</style>"
  }

  /** `css_html`: the link lines, then one style block when anything is
      embedded, with surrounding whitespace stripped. */
  function CssHtml(base: string, q: Queue): string {
    Strip(LinkLines(base, q.links) + (if |q.embeds| == 0 then "" else StyleBlock(q.embeds)))
  }

  // ---------------------------------------------------------------------
  // reference layout of css_html

  function LinkTags(base: string, links: seq<string>): (r: seq<string>)
    ensures |r| == |links|
    ensures forall i :: 0 <= i < |links| ==> r[i] == LinkTag(base, links[i])
  {
    seq(|links|, i requires 0 <= i < |links| => LinkTag(base, links[i]))
  }

  /** The HTML elements of `css_html` in order: one link per linked
      stylesheet, then a single style block if anything is embedded. */
  function CssBlocks(base: string, q: Queue): seq<string> {
    LinkTags(base, q.links) + (if |q.embeds| == 0 then [] else [StyleBlock(q.embeds)])
  }

  /** A piece of markup that starts with `<` and ends with `>`. */
  predicate Element(s: string) {
    |s| > 0 && s[0] == '<' && s[|s| - 1] == '>'
  }

  lemma {:induction false} LinkLinesJoin(base: string, links: seq<string>)
    requires |links| > 0
    ensures LinkLines(base, links) == Join(LinkTags(base, links), "\n") + "\n"
    decreases |links|
  {
    var tags := LinkTags(base, links);
    if |links| == 1 {
      assert LinkLines(base, links[1..]) == "";
    } else {
      LinkLinesJoin(base, links[1..]);
      assert tags == [tags[0]] + LinkTags(base, links[1..]);
      JoinCons(tags[0], LinkTags(base, links[1..]), "\n");
    }
  }

  lemma BlocksElements(base: string, q: Queue)
    ensures forall i :: 0 <= i < |CssBlocks(base, q)| ==> Element(CssBlocks(base, q)[i])
  {
    var blocks := CssBlocks(base, q);
    forall i | 0 <= i < |blocks|
      ensures Element(blocks[i])
    {
      if i < |q.links| {
        var t := LinkTag(base, q.links[i]);
        assert blocks[i] == t;
        assert t[|t| - 1] == '>';
      } else {
        var b := StyleBlock(q.embeds);
        assert blocks[i] == b;
        assert b[|b| - 1] == '>';
      }
    }
  }

  /** Markup elements joined by newlines have nothing to strip. */
  lemma JoinElementsTrimmed(blocks: seq<string>)
    requires forall i :: 0 <= i < |blocks| ==> Element(blocks[i])
    ensures Trimmed(Join(blocks, "\n"))
  {
    if |blocks| > 0 {
      assert Element(blocks[0]);
      assert Element(blocks[|blocks| - 1]);
      JoinFirstChar(blocks, "\n");
      JoinLastChar(blocks, "\n");
    }
  }

  /** `css_html` is its elements joined by single newlines: the links in
      queue order, then the style block; the final strip removes only the
      newline after the last link. */
  lemma CssLayout(base: string, q: Queue)
    ensures CssHtml(base, q) == Join(CssBlocks(base, q), "\n")
  {
    var blocks := CssBlocks(base, q);
    var tags := LinkTags(base, q.links);
    BlocksElements(base, q);
    JoinElementsTrimmed(blocks);
    var joined := Join(blocks, "\n");
    if |q.links| == 0 {
      assert LinkLines(base, q.links) == "";
      if |q.embeds| > 0 {
        assert blocks == [StyleBlock(q.embeds)];
      }
      StripTrimmed(joined);
    } else {
      LinkLinesJoin(base, q.links);
      if |q.embeds| == 0 {
        assert blocks == tags;
        assert LinkLines(base, q.links) + "" == joined + "\n";
        StripNewline(joined);
        StripTrimmed(joined);
      } else {
        var block := StyleBlock(q.embeds);
        JoinSnoc(tags, block, "\n");
        assert LinkLines(base, q.links) + block == joined;
        StripTrimmed(joined);
      }
    }
  }
}
