/** Rendering one page: the asset table, the substitution context built from
    the page's `meta` values, the stylesheet and footer and logo choices, the
    two-stage placeholder substitution (the logo snippet first, then the page
    template), and the driver step that feeds a parsed input file to it.
 */
module Render {
  import opened Results
  import opened Text
  import opened Templates
  import opened Parts
  import opened Styles

  /** The asset table: file name to text. */
  type Assets = map<string, string>

  /** The two footers that exist before any asset file is read. */
  const BuiltinFooters: Assets := map[
    "footer-copyright" :=
      "copyright \U{A9} 2009\U{2013}2017 <a href=\"https://chriswarrick.com/contact/\">Chris Warrick</a>",
    "footer-operation" :=
      "a <a href=\"https://chriswarrick.com/contact/\">Chris Warrick</a> operation"
  ]

  /** The asset table as the generator builds it: the built-in footers, then
      every asset file whose name does not start with `.`, stripped, then the
      page template read as is. `files` holds the contents of the asset
      directory and `template` the contents of `template.html`. */
  function LoadAssets(files: map<string, string>, template: string): Assets {
    var loaded := map name | name in files.Keys && !StartsWith(name, ".") :: Strip(files[name]);
    (BuiltinFooters + loaded)["template.html" := template]
  }

  /** Which text each asset name ends up with. */
  lemma LoadAssetsContents(files: map<string, string>, template: string, name: string)
    ensures var a := LoadAssets(files, template);
      && (name == "template.html" ==> name in a && a[name] == template)
      && (name != "template.html" && name in files && !StartsWith(name, ".") ==>
            name in a && a[name] == Strip(files[name]))
      && (name != "template.html" && (name !in files || StartsWith(name, ".")) ==>
            (name in a <==> name in BuiltinFooters) && (name in a ==> a[name] == BuiltinFooters[name]))
  {
  }

  // ---------------------------------------------------------------------
  // the substitution context

  /** Every value of the context except `logo_img_html`. */
  datatype Page = Page(
    pageTitle: string,
    headerTitle: string,
    logoHref: string,
    base: string,
    cssHtml: string,
    contentHtml: string,
    htmlTitle: string,
    footerHtml: string,
    logoBase: string)

  /** The names the logo snippet may use. */
  const LogoKeys: set<string> := {
    "page_title", "header_title", "logo_href", "base", "css_html",
    "content_html", "html_title", "footer_html", "logo_base"
  }

  /** The context the logo snippet is substituted against: it does not yet
      hold `logo_img_html`. */
  function LogoContext(p: Page): Context {
    map[
      "page_title" := p.pageTitle,
      "header_title" := p.headerTitle,
      "logo_href" := p.logoHref,
      "base" := p.base,
      "css_html" := p.cssHtml,
      "content_html" := p.contentHtml,
      "html_title" := p.htmlTitle,
      "footer_html" := p.footerHtml,
      "logo_base" := p.logoBase
    ]
  }

  /** The context the page template is substituted against. */
  function PageContext(p: Page, logoImg: string): Context {
    LogoContext(p)["logo_img_html" := logoImg]
  }

  /** The logo snippet sees exactly the nine page values; the page template
      sees those and the substituted logo snippet. */
  lemma ContextKeys(p: Page, logoImg: string)
    ensures LogoContext(p).Keys == LogoKeys
    ensures "logo_img_html" !in LogoContext(p)
    ensures PageContext(p, logoImg).Keys == LogoKeys + {"logo_img_html"}
    ensures PageContext(p, logoImg)["logo_img_html"] == logoImg
    ensures forall k :: k in LogoKeys ==> PageContext(p, logoImg)[k] == LogoContext(p)[k]
    ensures PageContext(p, logoImg)["content_html"] == p.contentHtml
    ensures LogoContext(p)["logo_base"] == p.logoBase
  {
  }

  // ---------------------------------------------------------------------
  // lookups

  /** `meta[key]`: a required key. */
  function Need(meta: MetaDict, key: string): Result<string> {
    if key in meta then Ok(meta[key]) else Err(MissingMetaKey(key))
  }

  /** `meta.get(key, default)`. */
  function GetOr(meta: MetaDict, key: string, default: string): string {
    if key in meta then meta[key] else default
  }

  /** `ASSETS[name]`. */
  function Asset(assets: Assets, name: string): Result<string> {
    if name in assets then Ok(assets[name]) else Err(MissingAsset(name))
  }

  // ---------------------------------------------------------------------
  // stylesheets, footer, logo

  /** The main stylesheet: embedded from `style.css` when `style` is `embed`,
      otherwise linked. */
  function BaseStyle(meta: MetaDict, assets: Assets): Result<Queue> {
    var style :- Need(meta, "style");
    if style == "embed" then
      var css :- Asset(assets, "style.css");
      Ok(Queue([], [css]))
    else Ok(Queue(["style.css"], []))
  }

  /** The main stylesheet followed by the whitespace-separated `extra_css` tokens. */
  function StyleQueue(meta: MetaDict, assets: Assets, extras: map<string, string>): Result<Queue> {
    var q :- BaseStyle(meta, assets);
    QueueExtra(Words(GetOr(meta, "extra_css", "")), extras, q)
  }

  /** The footer: the `footer` section when the input has one; otherwise the
      `footer` meta value, either `custom…` (the text from its eighth
      character on) or the name of a `footer-…` asset. */
  function ResolveFooter(meta: MetaDict, footer: Option<string>, assets: Assets): Result<string> {
    match footer
    case Some(f) => Ok(f)
    case None =>
      var v :- Need(meta, "footer");
      if StartsWith(v, "custom") then Ok(Drop(v, 7)) else Asset(assets, "footer-" + v)
  }

  /** The logo style and logo base: `logo` is `style!base` or just `style`,
      in which case the page base is the logo base. */
  function ResolveLogo(meta: MetaDict, base: string): Result<(string, string)> {
    var logo :- Need(meta, "logo");
    if '!' in logo then
      var fields := Split(logo, '!');
      if |fields| != 2 then Err(MalformedLogo(logo)) else Ok((fields[0], fields[1]))
    else Ok((logo, base))
  }

  // ---------------------------------------------------------------------
  // the page

  /** Every context value but the logo image, and the logo style, in the
      order the generator computes them; the first failure stops the page. */
  function BuildPage(meta: MetaDict, content: string, footer: Option<string>,
                     assets: Assets, extras: map<string, string>): Result<(Page, string)>
  {
    var pageTitle :- Need(meta, "page_title");
    var headerTitle :- Need(meta, "header_title");
    var base := GetOr(meta, "base", "");
    var htmlTitle := GetOr(meta, "html_title", pageTitle + " | " + headerTitle);
    var q :- StyleQueue(meta, assets, extras);
    var footerHtml :- ResolveFooter(meta, footer, assets);
    var logo :- ResolveLogo(meta, base);
    Ok((Page(pageTitle, headerTitle, GetOr(meta, "logo_href", "/"), base, CssHtml(base, q),
             content, htmlTitle, footerHtml, logo.1), logo.0))
  }

  /** The two substitutions: the logo snippet `logo-<style>.html` against
      the page values, then the page template against the page values and
      the substituted logo. */
  function Substitute(p: Page, logoStyle: string, assets: Assets): Result<string> {
    var logoTemplate :- Asset(assets, "logo-" + logoStyle + ".html");
    var logoImg :- Format(logoTemplate, LogoContext(p));
    var template :- Asset(assets, "template.html");
    Format(template, PageContext(p, logoImg))
  }

  /** A logo snippet that does not substitute fails the page. */
  lemma SubstituteLogoFails(p: Page, logoStyle: string, assets: Assets)
    requires "logo-" + logoStyle + ".html" in assets
    requires Format(assets["logo-" + logoStyle + ".html"], LogoContext(p)).Err?
    ensures Substitute(p, logoStyle, assets) == Err(Format(assets["logo-" + logoStyle + ".html"], LogoContext(p)).error)
  {
  }

  /** A logo snippet that substitutes to `img` makes the page the page
      template substituted against the page values and `img`. */
  lemma SubstituteLogoOk(p: Page, logoStyle: string, assets: Assets, img: string)
    requires "logo-" + logoStyle + ".html" in assets
    requires Format(assets["logo-" + logoStyle + ".html"], LogoContext(p)) == Ok(img)
    ensures "template.html" !in assets ==> Substitute(p, logoStyle, assets) == Err(MissingAsset("template.html"))
    ensures "template.html" in assets ==>
      Substitute(p, logoStyle, assets) == Format(assets["template.html"], PageContext(p, img))
  {
  }

  /** `render_page`. */
  function RenderPage(meta: MetaDict, content: string, footer: Option<string>,
                      assets: Assets, extras: map<string, string>): Result<string>
  {
    var built :- BuildPage(meta, content, footer, assets, extras);
    Substitute(built.0, built.1, assets)
  }

  /** One input file through the driver: parse it, then render its `meta`,
      `content` and (optional) `footer`; `meta` and `content` are required. */
  function GeneratePage(raw: string, assets: Assets, extras: map<string, string>): Result<string> {
    var parts :- ExtractParts(raw);
    if parts.meta.None? then Err(MissingPart("meta"))
    else if parts.content.None? then Err(MissingPart("content"))
    else RenderPage(parts.meta.value, parts.content.value, parts.footer, assets, extras)
  }
}
