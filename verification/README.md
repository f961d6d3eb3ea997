# miniwww page rendering, modelled in Dafny

miniwww is a small static page generator. Each input file consists of
sections, and each section starts with a line `--- <name>`:

- `meta` holds `key: value` lines.
- `content` holds the page body.
- `footer` is optional and replaces the footer chosen in `meta`.

The generator turns one input file into one HTML page in four steps:

1. It splits the file into parts (`extract_parts`).
2. It builds a substitution context from the `meta` values.
3. It chooses the stylesheets, the footer and the logo snippet.
4. It substitutes the logo snippet first, then the page template, with
   `str.format`.

This project models that pipeline as pure functions over strings, maps and
sequences. Every exception the generator can raise on bad input becomes a
`Result` error (`results.dfy`). The modules are:

- `Text`: Python string semantics.
  - `str.strip` and the `str.isspace` character set.
  - `split('\n')` and `split('!')`.
  - `split(': ', 1)` as `SplitFirst`.
  - Whitespace `split()` as `Words`.
  - Slicing `[7:]` as `Drop`.
- `Sections`: the multi-line regular-expression split at `^--- `, written
  as a line-start scan.
- `Parts`: `extract_parts`.
  - The meta dictionary.
  - The content and footer bodies.
  - The section order: the last section of each name wins.
- `Documents`: a writer for input documents and the proof that
  `extract_parts` reads such a document back.
- `Templates`: flat `str.format`: `{name}` fields and `{{`/`}}` escapes.
  - The reference meaning is a list of pieces, each a literal text or a
    field.
- `Styles`: the stylesheet queue built from `style` and `extra_css`, and
  the assembled `css_html`.
- `Render`: the asset table, the context, the footer and logo choices, the
  two substitutions, and the driver step `extract_parts` → `render_page`.
- `RenderProperties`: what the renderer promises.

The assets, the template text and the embedded `extra_css` files are
parameters. In the generator, these are files read from disk.

Where the written description and the code differ, the model follows the
code. A `footer` meta value that starts with `custom` yields its text from
the eighth character on. So a bare `custom` gives an empty footer (Python
slicing past the end), and `customer` gives `r`.

## Model

| member | source | states |
|---|---|---|
| Text.StripShape | miniwww.py:133 | `strip` removes exactly the leading and trailing whitespace: the result is trimmed and is the slice of the input between two all-whitespace runs |
| Text.StripIdempotent | miniwww.py:138 | stripping a stripped body changes nothing |
| Text.SplitJoin | miniwww.py:133 | `split('\n')` of lines joined by newlines gives the lines back, when no line holds a newline |
| Text.JoinSplit | miniwww.py:133 | joining the pieces of `split(c)` with `c` restores the text |
| Text.SplitCount | miniwww.py:91 | `split('!')` yields one more piece than there are `!` characters |
| Text.SplitFirstShape | miniwww.py:134 | `split(': ', 1)` fails to produce two parts exactly when `': '` does not occur; otherwise the parts surround the first occurrence |
| Text.WordsShape | miniwww.py:89 | whitespace `split()` yields non-empty, whitespace-free words |
| Text.WordsJoin | miniwww.py:89 | whitespace `split()` of words joined by spaces gives the words back |
| Sections.JoinSplitSections | miniwww.py:125 | putting `--- ` back between the split segments restores the document |
| Sections.SplitJoinSections | miniwww.py:125 | segments without a line-start `--- ` inside them, each ending at a line start, are split back exactly |
| Parts.PairsDictLastWins | miniwww.py:133-135 | a later line with the same key overwrites an earlier one: the dictionary keeps each key's last value |
| Parts.PairsDictKeys | miniwww.py:133-136 | the meta dictionary has exactly the keys of its lines |
| Parts.MetaLinesPairs | miniwww.py:133-136 | `key: value` lines parse to the dictionary of their pairs, later keys overriding earlier ones |
| Parts.MetaLineSplits | miniwww.py:134 | a line is split at the first `': '`, so the value may itself contain `': '` |
| Parts.MetaLinesFails | miniwww.py:133-135 | a meta line without `': '` (a blank interior line included) fails the parse, naming the first such line |
| Parts.MetaLinesOk | miniwww.py:133-135 | a meta block that parses has `': '` on every line |
| Parts.SegmentByName | miniwww.py:130-140 | the first line names the section; `content` and `footer` bodies are stored stripped; `meta` is parsed; any other name is an `UnknownPart` error |
| Parts.SegmentWithoutNewline | miniwww.py:130 | a non-empty segment without a newline cannot be unpacked into name and body and is an error |
| Parts.ParseEach | miniwww.py:127-140 | non-empty segments that each parse give their sections in order |
| Parts.ParseSegmentsSkipEmpty | miniwww.py:127-129 | empty segments are skipped: inserting one at any position, leading, interior or trailing, leaves the parse unchanged |
| Parts.ParseSegmentsFails | miniwww.py:127-140 | parsing the segments fails exactly when some non-empty segment fails |
| Parts.ExtractPartsFails | miniwww.py:123-141 | `extract_parts` fails exactly when some non-empty segment of the split document fails to parse |
| Parts.CollectLastWins | miniwww.py:126-141 | storing the sections in order keeps, for each section name, the last section of that name |
| Documents.MetaRoundTrip | miniwww.py:131-136 | a meta block written from pairs parses back to the dictionary of those pairs |
| Documents.SegmentRoundTrip | miniwww.py:130-140 | one written section parses back to its expected section |
| Documents.ExtractRoundTrip | miniwww.py:123-141 | a document written from sections parses to its last `meta`, `content` and `footer` sections, with bodies stripped and meta read as a dictionary |
| Templates.FormatEscape | miniwww.py:118-120 | formatting reproduces any text whose braces are doubled, whatever the context |
| Templates.FormatField | miniwww.py:118-120 | a `{name}` field becomes its context value verbatim; a name missing from the context is an error |
| Templates.FormatBraceFree | miniwww.py:118-120 | text without braces formats to itself |
| Templates.FormatSource | miniwww.py:118-120 | formatting a template written as literal texts and plain keyword fields equals the reference expansion of those pieces |
| Templates.ExpandFails | miniwww.py:118-120 | expansion fails exactly when some field names a key the context lacks |
| Templates.FormatBetween | miniwww.py:118-120 | a field between two literal texts puts its value between them |
| Templates.FormatSourceMissing | miniwww.py:118-120 | a template that uses a key missing from the context fails |
| Styles.QueueTokenText | miniwww.py:90-97 | a `name!mode` token with mode `embed` appends the stripped extra stylesheet, or fails when it is missing; any other mode appends `name` to the links |
| Styles.QueueTokenMalformed | miniwww.py:91 | a token without exactly one `!` fails the page |
| Styles.QueueExtraOk | miniwww.py:89-97 | the tokens queue the link-mode names and the embed-mode texts, each in the order written, after what was queued before |
| Styles.QueueExtraMissing | miniwww.py:92-95 | the first embed whose stylesheet is missing fails the page, naming it |
| Styles.QueueExtraMalformed | miniwww.py:89-91 | a malformed token fails the page, whatever follows it |
| Styles.CssLayout | miniwww.py:99-103 | `css_html` is the link elements in queue order, then at most one style block, joined by single newlines |
| Render.LoadAssetsContents | miniwww.py:57-69 | the asset table holds the stripped asset files except hidden ones, then the built-in footers where no file replaces them, and the unstripped page template |
| Render.ContextKeys | miniwww.py:74-118 | the logo snippet sees the nine page values but not `logo_img_html`, and its `logo_base` is the page's logo base; the page template sees them and `logo_img_html` |
| Render.SubstituteLogoFails | miniwww.py:118 | a logo snippet that does not format fails the page with its error |
| Render.SubstituteLogoOk | miniwww.py:118-120 | after the logo snippet formats, the page is the page template formatted with the snippet as `logo_img_html`, or an error when the template is missing |
| RenderProperties.RequiredKeysFirst | miniwww.py:74-85 | `page_title`, `header_title` and `style` are required, and the first one missing is the error |
| RenderProperties.RenderedHasRequiredKeys | miniwww.py:72-120 | a rendered page had `page_title`, `header_title`, `style` and `logo`, `footer` unless a footer section was given, `style.css` when the style is embedded, the `logo-<style>.html` asset of its logo style, and the page template |
| RenderProperties.MissingStyleAsset | miniwww.py:85-86 | an embedded main stylesheet without a `style.css` asset fails the page, naming the asset |
| RenderProperties.MissingLogoAsset | miniwww.py:118 | a logo style without a `logo-<style>.html` asset fails the page, naming the asset |
| RenderProperties.PageDefaults | miniwww.py:74-82 | the defaults are `logo_href` `/`, `base` empty, and `html_title` the page title and header title joined by a space, a vertical bar and a space; the content is passed through; the footer is the one the footer rules resolve and the logo style and logo base are the ones the `logo` rules resolve |
| RenderProperties.StyleQueueOrder | miniwww.py:83-97 | when the whitespace split of `extra_css` gives `name!mode` tokens, the main stylesheet is queued first, linked or embedded by `style`, then the link-mode names and embed-mode texts in the order written |
| RenderProperties.SpacedTokens | miniwww.py:89 | tokens written one space apart are split back into exactly those tokens |
| RenderProperties.PageCss | miniwww.py:83-103 | the page's `css_html` is the layout of its stylesheet queue |
| RenderProperties.ExplicitFooterWins | miniwww.py:105-106 | with a footer section, the page values do not depend on the `footer` meta value, and `footer_html` is the section |
| RenderProperties.ExplicitFooterIgnoresMeta | miniwww.py:105-110 | with a footer section, the rendered page is the same with or without the `footer` meta value |
| RenderProperties.CustomFooter | miniwww.py:107-108 | `custom!text` makes `text` the footer |
| RenderProperties.CustomFooterEmpty | miniwww.py:107-108 | a bare `custom` makes the footer empty |
| RenderProperties.CustomPrefixFooter | miniwww.py:107-108 | any `footer` value starting with `custom` gives its text from the eighth character on, or nothing when it is shorter, whatever the assets |
| RenderProperties.CustomerFooter | miniwww.py:107-108 | `customer` gives the footer `r` |
| RenderProperties.AssetFooter | miniwww.py:109-110 | any other `footer` value `v` gives the asset `footer-<v>` when it exists |
| RenderProperties.NamedFooter | miniwww.py:109-110 | `copyright` selects the built-in copyright footer unless an asset file replaces it |
| RenderProperties.MissingFooterAsset | miniwww.py:109-110 | a footer name without a `footer-<name>` asset fails, naming the asset |
| RenderProperties.LogoWithBase | miniwww.py:112-114 | `style!base` selects the logo style and overrides the logo base |
| RenderProperties.LogoBaseInPage | miniwww.py:112-118 | on a built page, `logo: style!base` (say `dark!/alt/`) selects the style and the snippet sees `logo_base` equal to `base` |
| RenderProperties.LogoWithoutBase | miniwww.py:115-117 | without `!` the whole value is the style and the page base is the logo base |
| RenderProperties.LogoMalformed | miniwww.py:112-113 | a logo value with two or more `!` fails |
| RenderProperties.LogoCannotUseItself | miniwww.py:118 | a logo snippet that uses `logo_img_html` fails the page |
| RenderProperties.SubstituteExpands | miniwww.py:118-120 | with templates written as pieces, the page is the template expansion against the page values and the expanded logo snippet |
| RenderProperties.ContentVerbatim | miniwww.py:118-120 | for any logo snippet that formats, the content lands verbatim where `{content_html}` stands; braces in it are not substituted again |
| RenderProperties.PlainLogo | miniwww.py:118 | a logo snippet without braces is inserted into the page template as written |
| RenderProperties.GenerateDocument | miniwww.py:152-155 | a written document renders from its last `meta`, `content` and `footer` sections; a missing `meta` or `content` fails, `meta` checked first |

## Left out

- Directory creation (miniwww.py:52-54), the file reads, and the page writes in `main`: these are file-system effects. File contents are parameters instead: the asset map, the template text, and the extra stylesheet map.
- Enumerating input files and printing progress in `main` (miniwww.py:144-150): output only.
- Path semantics of `extra_css` embed names: the generator opens `ASSET_PATH / filename`, so a name containing `/`, or `..`, reaches other files, and an empty name opens the directory and fails. The model looks the name up in the extra stylesheet map, and a missing name is the error.
- `str.format` beyond flat `{name}` fields, `{{` and `}}`: format specs (`{x:>5}`), conversions (`{x!r}`), attribute and index access (`{x.y}`, `{x[0]}`), positional fields (`{}`), and nested braces. The model treats the whole text between the braces as a key, so these forms are an error unless that exact key exists. `Templates.FieldName` marks the names on which the model and Python agree: a name with an ASCII letter or `_` and none of `{`, `}`, `.`, `[`, `!`, `:`. The piece-level lemmas are stated for those names.
- The regular-expression engine: the split at `^--- ` is written as an explicit scan. Only `\n` ends a line, as in Python's `re.MULTILINE`.
- Text encodings and newline translation on reading: the model starts from decoded text.
- The kind of each exception (`KeyError`, `ValueError`, …): each becomes one `Error` constructor with the offending text.
