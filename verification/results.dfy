/** Failure-compatible wrappers and the error kinds of the page generator.

    Every exception the Python generator can raise on malformed input becomes
    one constructor of `Error`; each carries the offending text so that the
    failure can be attributed.
 */
module Results {

  datatype Option<+T> = None | Some(value: T)

  datatype Error =
    /** `part.split('\n', maxsplit=1)` found no newline: the unpack fails. */
    | SectionWithoutNewline(segment: string)
    /** A section name other than `meta`, `content` or `footer`. */
    | UnknownPart(name: string)
    /** A meta line without the `": "` separator. */
    | MalformedMetaLine(line: string)
    /** The driver's `parts['meta']` / `parts['content']` found no such section. */
    | MissingPart(name: string)
    /** A required meta key (`page_title`, `header_title`, `style`, `footer`, `logo`) is absent. */
    | MissingMetaKey(key: string)
    /** A lookup in the asset table failed (`style.css`, `footer-…`, `logo-….html`, `template.html`). */
    | MissingAsset(name: string)
    /** An `extra_css` file to embed could not be read. */
    | MissingExtraAsset(name: string)
    /** An `extra_css` token that does not split on `!` into exactly two parts. */
    | MalformedExtraCss(token: string)
    /** A `logo` value containing `!` that does not split into exactly two parts. */
    | MalformedLogo(logo: string)
    /** A `{name}` placeholder whose name the substitution context lacks. */
    | MissingContextKey(name: string)
    /** A single `{` without a closing `}`, or a single `}`. */
    | MalformedTemplate(template: string)

  datatype Result<+T> = Ok(value: T) | Err(error: Error) {

    predicate IsFailure() {
      Err?
    }

    function PropagateFailure<U>(): Result<U>
      requires Err?
    {
      Err(error)
    }

    function Extract(): T
      requires Ok?
    {
      value
    }
  }
}
