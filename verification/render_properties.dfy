/** What `render_page` and the driver promise: which meta keys are required
    and which have defaults, how the stylesheets are laid out, which footer
    and logo are chosen, what the two substitutions produce, and how a whole
    input document reaches the renderer.
 */
module RenderProperties {
  import opened Results
  import opened Text
  import opened Templates
  import opened Sections
  import opened Parts
  import opened Documents
  import opened Styles
  import opened Render

  // ---------------------------------------------------------------------
  // required keys and defaults

  /** The titles and the style are looked up first, in this order; the
      first one missing is the error the page fails with. */
  lemma RequiredKeysFirst(meta: MetaDict, content: string, footer: Option<string>,
                          assets: Assets, extras: map<string, string>)
    ensures "page_title" !in meta ==>
      RenderPage(meta, content, footer, assets, extras) == Err(MissingMetaKey("page_title"))
    ensures "page_title" in meta && "header_title" !in meta ==>
      RenderPage(meta, content, footer, assets, extras) == Err(MissingMetaKey("header_title"))
    ensures "page_title" in meta && "header_title" in meta && "style" !in meta ==>
      RenderPage(meta, content, footer, assets, extras) == Err(MissingMetaKey("style"))
  {
  }

  /** A rendered page had every required key: the titles, `style`, `logo`,
      and `footer` unless a footer section was given; and the page template. */
  lemma RenderedHasRequiredKeys(meta: MetaDict, content: string, footer: Option<string>,
                                assets: Assets, extras: map<string, string>)
    requires RenderPage(meta, content, footer, assets, extras).Ok?
    ensures "page_title" in meta && "header_title" in meta && "style" in meta && "logo" in meta
    ensures footer.None? ==> "footer" in meta
    ensures meta["style"] == "embed" ==> "style.css" in assets
    ensures BuildPage(meta, content, footer, assets, extras).Ok?
    ensures "logo-" + BuildPage(meta, content, footer, assets, extras).value.1 + ".html" in assets
    ensures "template.html" in assets
  {
  }

  /** An embedded main stylesheet needs the `style.css` asset. */
  lemma MissingStyleAsset(meta: MetaDict, content: string, footer: Option<string>,
                          assets: Assets, extras: map<string, string>)
    requires "page_title" in meta && "header_title" in meta
    requires "style" in meta && meta["style"] == "embed" && "style.css" !in assets
    ensures RenderPage(meta, content, footer, assets, extras) == Err(MissingAsset("style.css"))
  {
  }

  /** The logo style must name a `logo-<style>.html` asset. */
  lemma MissingLogoAsset(p: Page, style: string, assets: Assets)
    requires "logo-" + style + ".html" !in assets
    ensures Substitute(p, style, assets) == Err(MissingAsset("logo-" + style + ".html"))
  {
  }

  /** The optional keys and their defaults: `logo_href` is `/`, `base` is
      empty and `html_title` is `page_title | header_title`; the content is
      passed through untouched; the footer and the logo style and base are
      the ones the footer and logo rules choose. */
  lemma PageDefaults(meta: MetaDict, content: string, footer: Option<string>,
                     assets: Assets, extras: map<string, string>)
    requires BuildPage(meta, content, footer, assets, extras).Ok?
    ensures var p := BuildPage(meta, content, footer, assets, extras).value.0;
      && p.pageTitle == meta["page_title"]
      && p.headerTitle == meta["header_title"]
      && p.logoHref == (if "logo_href" in meta then meta["logo_href"] else "/")
      && p.base == (if "base" in meta then meta["base"] else "")
      && p.htmlTitle == (if "html_title" in meta then meta["html_title"]
                         else meta["page_title"] + " | " + meta["header_title"])
      && p.contentHtml == content
    ensures var p := BuildPage(meta, content, footer, assets, extras).value.0;
      && ResolveFooter(meta, footer, assets).Ok?
      && p.footerHtml == ResolveFooter(meta, footer, assets).value
    ensures var built := BuildPage(meta, content, footer, assets, extras).value;
      && ResolveLogo(meta, built.0.base).Ok?
      && (built.1, built.0.logoBase) == ResolveLogo(meta, built.0.base).value
  {
  }

  /** `logo: style!base` (say `dark!/alt/`) substitutes the snippet
      `logo-<style>.html` with `logo_base` set to `base`, whatever the page
      base. */
  lemma LogoBaseInPage(meta: MetaDict, content: string, footer: Option<string>,
                       assets: Assets, extras: map<string, string>, style: string, logoBase: string)
    requires "logo" in meta && meta["logo"] == style + "!" + logoBase
    requires '!' !in style && '!' !in logoBase
    requires BuildPage(meta, content, footer, assets, extras).Ok?
    ensures var built := BuildPage(meta, content, footer, assets, extras).value;
      && built.1 == style
      && LogoContext(built.0)["logo_base"] == logoBase
  {
    var built := BuildPage(meta, content, footer, assets, extras).value;
    PageDefaults(meta, content, footer, assets, extras);
    LogoWithBase(meta, built.0.base, style, logoBase);
    ContextKeys(built.0, "");
  }

  // ---------------------------------------------------------------------
  // stylesheets

  /** The main stylesheet's place in the queue. */
  function MainLinks(meta: MetaDict): seq<string>
    requires "style" in meta
  {
    if meta["style"] == "embed" then [] else ["style.css"]
  }

  function MainEmbeds(meta: MetaDict, assets: Assets): seq<string>
    requires "style" in meta
    requires meta["style"] == "embed" ==> "style.css" in assets
  {
    if meta["style"] == "embed" then [assets["style.css"]] else []
  }

  /** The `extra_css` value split on whitespace gives `name!mode` tokens:
      the main stylesheet is queued first, then the link-mode names and the
      embed-mode texts in the order written. */
  lemma StyleQueueOrder(meta: MetaDict, assets: Assets, extras: map<string, string>, xs: seq<ExtraCss>)
    requires "style" in meta && (meta["style"] == "embed" ==> "style.css" in assets)
    requires forall i :: 0 <= i < |xs| ==> Plain(xs[i])
    requires Available(xs, extras)
    requires Words(GetOr(meta, "extra_css", "")) == TokenTexts(xs)
    ensures StyleQueue(meta, assets, extras) ==
      Ok(Queue(MainLinks(meta) + LinkNames(xs), MainEmbeds(meta, assets) + EmbedTexts(xs, extras)))
  {
    var q := Queue(MainLinks(meta), MainEmbeds(meta, assets));
    assert BaseStyle(meta, assets) == Ok(q);
    QueueExtraOk(xs, extras, q);
  }

  /** An entry whose token text is one whitespace-free word. */
  predicate Spelled(x: ExtraCss) {
    Plain(x) && NoSpace(x.name) && NoSpace(x.mode)
  }

  lemma TokenIsWord(x: ExtraCss)
    requires Spelled(x)
    ensures IsWord(TokenText(x))
  {
    var t := TokenText(x);
    assert t == x.name + "!" + x.mode;
    forall i | 0 <= i < |t|
      ensures !IsSpace(t[i])
    {
      if i < |x.name| {
        assert t[i] == x.name[i];
      } else if i > |x.name| {
        assert t[i] == x.mode[i - |x.name| - 1];
      }
    }
  }

  /** In particular, entries written one space apart are read back as written. */
  lemma SpacedTokens(xs: seq<ExtraCss>)
    requires forall i :: 0 <= i < |xs| ==> Spelled(xs[i])
    ensures Words(Join(TokenTexts(xs), " ")) == TokenTexts(xs)
  {
    var tokens := TokenTexts(xs);
    forall i | 0 <= i < |tokens|
      ensures IsWord(tokens[i])
    {
      TokenIsWord(xs[i]);
    }
    WordsJoin(tokens);
  }

  /** `css_html` is one link element per queued link, then one style block
      holding every queued embed, joined by newlines. */
  lemma PageCss(meta: MetaDict, content: string, footer: Option<string>,
                assets: Assets, extras: map<string, string>)
    requires BuildPage(meta, content, footer, assets, extras).Ok?
    ensures StyleQueue(meta, assets, extras).Ok?
    ensures var p := BuildPage(meta, content, footer, assets, extras).value.0;
      p.cssHtml == Join(CssBlocks(p.base, StyleQueue(meta, assets, extras).value), "\n")
  {
    var p := BuildPage(meta, content, footer, assets, extras).value.0;
    CssLayout(p.base, StyleQueue(meta, assets, extras).value);
  }

  // ---------------------------------------------------------------------
  // footer

  /** Removing `footer` from the meta values changes none of the other lookups. */
  lemma WithoutFooterKey(meta: MetaDict, k: string, default: string)
    requires k != "footer"
    ensures Need(meta - {"footer"}, k) == Need(meta, k)
    ensures GetOr(meta - {"footer"}, k, default) == GetOr(meta, k, default)
  {
  }

  lemma StylesWithoutFooterKey(meta: MetaDict, assets: Assets, extras: map<string, string>, base: string)
    ensures StyleQueue(meta - {"footer"}, assets, extras) == StyleQueue(meta, assets, extras)
    ensures ResolveLogo(meta - {"footer"}, base) == ResolveLogo(meta, base)
  {
    WithoutFooterKey(meta, "style", "");
    WithoutFooterKey(meta, "extra_css", "");
    WithoutFooterKey(meta, "logo", "");
  }

  /** A footer section wins: the page does not depend on the `footer` meta
      value at all, and the footer section becomes `footer_html`. */
  lemma ExplicitFooterWins(meta: MetaDict, content: string, f: string,
                           assets: Assets, extras: map<string, string>)
    ensures BuildPage(meta, content, Some(f), assets, extras) ==
      BuildPage(meta - {"footer"}, content, Some(f), assets, extras)
    ensures BuildPage(meta, content, Some(f), assets, extras).Ok? ==>
      BuildPage(meta, content, Some(f), assets, extras).value.0.footerHtml == f
  {
    WithoutFooterKey(meta, "page_title", "");
    WithoutFooterKey(meta, "header_title", "");
    var pt := GetOr(meta, "page_title", "");
    var ht := GetOr(meta, "header_title", "");
    WithoutFooterKey(meta, "base", "");
    WithoutFooterKey(meta, "html_title", pt + " | " + ht);
    WithoutFooterKey(meta, "logo_href", "/");
    StylesWithoutFooterKey(meta, assets, extras, GetOr(meta, "base", ""));
  }

  /** Hence the rendered page too ignores the `footer` meta value. */
  lemma ExplicitFooterIgnoresMeta(meta: MetaDict, content: string, f: string,
                                  assets: Assets, extras: map<string, string>)
    ensures RenderPage(meta, content, Some(f), assets, extras) ==
      RenderPage(meta - {"footer"}, content, Some(f), assets, extras)
  {
    ExplicitFooterWins(meta, content, f, assets, extras);
  }

  /** `custom!text` puts `text` in the footer. */
  lemma CustomFooter(meta: MetaDict, text: string, assets: Assets)
    requires "footer" in meta && meta["footer"] == "custom!" + text
    ensures ResolveFooter(meta, None, assets) == Ok(text)
  {
    var v := meta["footer"];
    assert v[..6] == "custom";
    assert v[7..] == text;
  }

  /** A bare `custom` footer is empty: slicing past the end yields nothing. */
  lemma CustomFooterEmpty(meta: MetaDict, assets: Assets)
    requires "footer" in meta && meta["footer"] == "custom"
    ensures ResolveFooter(meta, None, assets) == Ok("")
  {
    assert meta["footer"][..6] == "custom";
  }

  /** Any value that starts with `custom` gives its text from the eighth
      character on, whatever follows `custom`; the assets are not consulted. */
  lemma CustomPrefixFooter(meta: MetaDict, assets: Assets)
    requires "footer" in meta && StartsWith(meta["footer"], "custom")
    ensures |meta["footer"]| <= 7 ==> ResolveFooter(meta, None, assets) == Ok("")
    ensures |meta["footer"]| > 7 ==> ResolveFooter(meta, None, assets) == Ok(meta["footer"][7..])
  {
  }

  /** So `customer` is the footer `r`. */
  lemma CustomerFooter(meta: MetaDict, assets: Assets)
    requires "footer" in meta && meta["footer"] == "customer"
    ensures ResolveFooter(meta, None, assets) == Ok("r")
  {
    assert meta["footer"][..6] == "custom";
    assert meta["footer"][7..] == "r";
  }

  /** Any other value `v` is the asset `footer-<v>`. */
  lemma AssetFooter(meta: MetaDict, assets: Assets)
    requires "footer" in meta && !StartsWith(meta["footer"], "custom")
    requires "footer-" + meta["footer"] in assets
    ensures ResolveFooter(meta, None, assets) == Ok(assets["footer-" + meta["footer"]])
  {
  }

  /** Any other `footer` value names an asset `footer-<value>`; the two
      built-in footers are there unless an asset file replaces them. */
  lemma NamedFooter(meta: MetaDict, files: map<string, string>, template: string)
    requires "footer" in meta && meta["footer"] == "copyright"
    requires "footer-copyright" !in files
    ensures ResolveFooter(meta, None, LoadAssets(files, template)) ==
      Ok(BuiltinFooters["footer-copyright"])
  {
    assert !StartsWith("copyright", "custom") by {
      assert "copyright"[1] != "custom"[1];
    }
    LoadAssetsContents(files, template, "footer-copyright");
    assert "footer-" + "copyright" == "footer-copyright";
  }

  /** A footer name without an asset is an error naming the asset. */
  lemma MissingFooterAsset(meta: MetaDict, assets: Assets)
    requires "footer" in meta && !StartsWith(meta["footer"], "custom")
    requires "footer-" + meta["footer"] !in assets
    ensures ResolveFooter(meta, None, assets) == Err(MissingAsset("footer-" + meta["footer"]))
  {
  }

  // ---------------------------------------------------------------------
  // logo

  /** `style!base` selects the logo style and overrides the logo base. */
  lemma LogoWithBase(meta: MetaDict, base: string, style: string, logoBase: string)
    requires "logo" in meta && meta["logo"] == style + "!" + logoBase
    requires '!' !in style && '!' !in logoBase
    ensures ResolveLogo(meta, base) == Ok((style, logoBase))
  {
    assert meta["logo"] == style + ['!'] + logoBase;
    assert meta["logo"][|style|] == '!';
    SplitTwo(style, '!', logoBase);
  }

  /** Without `!` the whole value is the style and the page base is the logo base. */
  lemma LogoWithoutBase(meta: MetaDict, base: string)
    requires "logo" in meta && '!' !in meta["logo"]
    ensures ResolveLogo(meta, base) == Ok((meta["logo"], base))
  {
  }

  /** A logo value with more than one `!` is rejected. */
  lemma LogoMalformed(meta: MetaDict, base: string)
    requires "logo" in meta && multiset(meta["logo"])['!'] >= 2
    ensures ResolveLogo(meta, base) == Err(MalformedLogo(meta["logo"]))
  {
    SplitCount(meta["logo"], '!');
  }

  // ---------------------------------------------------------------------
  // the two substitutions

  /** The logo snippet is substituted before `logo_img_html` exists, so a
      snippet that uses it fails the page. */
  lemma LogoCannotUseItself(p: Page, style: string, assets: Assets, lps: seq<Piece>, i: nat)
    requires "logo-" + style + ".html" in assets && assets["logo-" + style + ".html"] == Source(lps)
    requires ValidPieces(lps) && i < |lps| && lps[i] == Field("logo_img_html")
    ensures Substitute(p, style, assets).Err?
  {
    ContextKeys(p, "");
    FormatSourceMissing(lps, LogoContext(p), i);
    SubstituteLogoFails(p, style, assets);
  }

  /** With templates written as pieces, the page is the page template
      expanded against the page values and the expanded logo snippet. */
  lemma SubstituteExpands(p: Page, style: string, assets: Assets, lps: seq<Piece>, tps: seq<Piece>)
    requires "logo-" + style + ".html" in assets && assets["logo-" + style + ".html"] == Source(lps)
    requires ValidPieces(lps) && forall i :: 0 <= i < |lps| && lps[i].Field? ==> lps[i].name in LogoKeys
    requires "template.html" in assets && assets["template.html"] == Source(tps) && ValidPieces(tps)
    ensures Expand(lps, LogoContext(p)).Ok?
    ensures Substitute(p, style, assets) == Expand(tps, PageContext(p, Expand(lps, LogoContext(p)).value))
  {
    ContextKeys(p, "");
    FormatSource(lps, LogoContext(p));
    ExpandFails(lps, LogoContext(p));
    var img := Expand(lps, LogoContext(p)).value;
    SubstituteLogoOk(p, style, assets, img);
    FormatSource(tps, PageContext(p, img));
  }

  /** A logo snippet without braces is inserted as written. */
  lemma PlainLogo(p: Page, style: string, assets: Assets)
    requires "logo-" + style + ".html" in assets && BraceFree(assets["logo-" + style + ".html"])
    requires "template.html" in assets
    ensures Substitute(p, style, assets) ==
      Format(assets["template.html"], PageContext(p, assets["logo-" + style + ".html"]))
  {
    var logo := assets["logo-" + style + ".html"];
    FormatBraceFree(logo, LogoContext(p));
    SubstituteLogoOk(p, style, assets, logo);
  }

  // ContentName keeps the literal's brace check out of ContentField's context.
  lemma ContentName()
    ensures BraceFree("content_html")
  {
  }

  /** A template whose one placeholder is `{content_html}`. */
  lemma ContentField(p: Page, img: string, before: string, after: string)
    ensures Format(Escape(before) + "{" + "content_html" + "}" + Escape(after), PageContext(p, img)) ==
      Ok(before + p.contentHtml + after)
  {
    ContextKeys(p, img);
    ContentName();
    FormatBetween(before, "content_html", after, PageContext(p, img));
  }

  /** The content is inserted verbatim: braces in it are not substituted,
      whatever the logo snippet formats to. */
  lemma ContentVerbatim(p: Page, style: string, assets: Assets, img: string, before: string, after: string)
    requires "logo-" + style + ".html" in assets
    requires Format(assets["logo-" + style + ".html"], LogoContext(p)) == Ok(img)
    requires "template.html" in assets
    requires assets["template.html"] == Escape(before) + "{" + "content_html" + "}" + Escape(after)
    ensures Substitute(p, style, assets) == Ok(before + p.contentHtml + after)
  {
    SubstituteLogoOk(p, style, assets, img);
    ContentField(p, img, before, after);
  }

  // ---------------------------------------------------------------------
  // the driver

  /** A document written from sections is rendered from its last `meta`,
      `content` and `footer` sections; a document without `meta` or
      without `content` fails naming the missing part, `meta` first. */
  lemma GenerateDocument(doc: seq<SourceSection>, assets: Assets, extras: map<string, string>)
    requires forall i :: 0 <= i < |doc| ==> Writable(doc[i])
    ensures var secs := ExpectedAll(doc);
      GeneratePage(Serialize(doc), assets, extras) ==
        if LastMeta(secs).None? then Err(MissingPart("meta"))
        else if LastContent(secs).None? then Err(MissingPart("content"))
        else RenderPage(LastMeta(secs).value, LastContent(secs).value, LastFooter(secs), assets, extras)
  {
    ExtractRoundTrip(doc);
  }
}
