/** Flat placeholder substitution: the part of Python's `str.format(**context)`
    that the page generator uses. A template is literal text with `{name}`
    fields; `{{` and `}}` stand for literal braces. A field whose name the
    context lacks, a `{` that is never closed and a lone `}` are errors.
 */
module Templates {
  import opened Results
  import opened Text

  type Context = map<string, string>

  /** `template.format(**ctx)`. Left to right; a field's value is copied
      verbatim and never scanned again. */
  function Format(t: string, ctx: Context): (r: Result<string>)
    decreases |t|
  {
    if |t| == 0 then Ok("")
    else if t[0] == '{' then
      if |t| >= 2 && t[1] == '{' then
        var rest :- Format(t[2..], ctx);
        Ok("{" + rest)
      else
        match IndexOf(t[1..], "}")
        case None => Err(MalformedTemplate(t))
        case Some(j) =>
          var name := t[1..1 + j];
          if name !in ctx then Err(MissingContextKey(name))
          else
            var rest :- Format(t[j + 2..], ctx);
            Ok(ctx[name] + rest)
    else if t[0] == '}' then
      if |t| >= 2 && t[1] == '}' then
        var rest :- Format(t[2..], ctx);
        Ok("}" + rest)
      else Err(MalformedTemplate(t))
    else
      var rest :- Format(t[1..], ctx);
      Ok([t[0]] + rest)
  }

  predicate IsBrace(c: char) {
    c == '{' || c == '}'
  }

  predicate BraceFree(s: string) {
    forall i :: 0 <= i < |s| ==> !IsBrace(s[i])
  }

  /** Doubles every brace, so that `Format` reproduces `s` literally. */
  function Escape(s: string): string
    decreases |s|
  {
    if |s| == 0 then "" else EscapeChar(s[0]) + Escape(s[1..])
  }

  function EscapeChar(c: char): string {
    if IsBrace(c) then [c, c] else [c]
  }

  /** A template as the sequence of literal runs and named fields it stands for. */
  datatype Piece = Lit(text: string) | Field(name: string)

  predicate IsNameLetter(c: char) {
    'a' <= c <= 'z' || 'A' <= c <= 'Z' || c == '_'
  }

  /** A name that Python's `str.format` looks up as one keyword argument:
      it holds a letter (so it is not a positional index made of digits),
      and no brace and none of `.`, `[`, `!`, `:`, which would start an
      attribute, an index, a conversion or a format spec. `Format` agrees
      with Python on fields with such names. */
  predicate FieldName(n: string) {
    && (exists i :: 0 <= i < |n| && IsNameLetter(n[i]))
    && (forall i :: 0 <= i < |n| ==> !IsBrace(n[i]) && n[i] !in ".[!:")
  }

  predicate ValidPieces(ps: seq<Piece>) {
    forall i :: 0 <= i < |ps| ==> (ps[i].Field? ==> FieldName(ps[i].name))
  }

  /** The template text for a sequence of pieces. */
  function Source(ps: seq<Piece>): string
    decreases |ps|
  {
    if |ps| == 0 then ""
    else
      var head := match ps[0]
        case Lit(s) => Escape(s)
        case Field(n) => "{" + n + "}";
      head + Source(ps[1..])
  }

  /** Reference meaning of a template: every field replaced by its value, the
      first missing field reported. */
  function Expand(ps: seq<Piece>, ctx: Context): (r: Result<string>)
    decreases |ps|
  {
    if |ps| == 0 then Ok("")
    else
      var head :- match ps[0]
        case Lit(s) => Ok(s)
        case Field(n) => if n in ctx then Ok(ctx[n]) else Err(MissingContextKey(n));
      var rest :- Expand(ps[1..], ctx);
      Ok(head + rest)
  }

  /** Prefixing a successful result; failures pass through. */
  function Prefix(p: string, r: Result<string>): Result<string> {
    match r
    case Ok(v) => Ok(p + v)
    case Err(e) => Err(e)
  }

  /** One ordinary character is copied through. */
  lemma FormatPlain(c: char, t: string, ctx: Context)
    requires !IsBrace(c)
    ensures Format([c] + t, ctx) == Prefix([c], Format(t, ctx))
  {
    assert ([c] + t)[1..] == t;
  }

  /** A doubled brace stands for one literal brace. */
  lemma FormatDoubled(c: char, t: string, ctx: Context)
    requires IsBrace(c)
    ensures Format([c, c] + t, ctx) == Prefix([c], Format(t, ctx))
  {
    assert ([c, c] + t)[2..] == t;
  }

  lemma PrefixPrefix(a: string, b: string, r: Result<string>)
    ensures Prefix(a, Prefix(b, r)) == Prefix(a + b, r)
  {
    if r.Ok? {
      assert a + (b + r.value) == (a + b) + r.value;
    }
  }

  lemma FormatEscapedChar(c: char, t: string, ctx: Context)
    ensures Format(EscapeChar(c) + t, ctx) == Prefix([c], Format(t, ctx))
  {
    if IsBrace(c) {
      FormatDoubled(c, t, ctx);
    } else {
      FormatPlain(c, t, ctx);
    }
  }

  /** Escaped literal text is reproduced in front of whatever follows it. */
  lemma {:induction false} FormatEscaped(s: string, rest: string, ctx: Context)
    ensures Format(Escape(s) + rest, ctx) == Prefix(s, Format(rest, ctx))
    decreases |s|
  {
    if |s| == 0 {
      assert Escape(s) + rest == rest;
      if Format(rest, ctx).Ok? {
        assert s + Format(rest, ctx).value == Format(rest, ctx).value;
      }
    } else {
      var tail := Escape(s[1..]) + rest;
      FormatEscaped(s[1..], rest, ctx);
      assert Escape(s) + rest == EscapeChar(s[0]) + tail;
      FormatEscapedChar(s[0], tail, ctx);
      PrefixPrefix([s[0]], s[1..], Format(rest, ctx));
      assert [s[0]] + s[1..] == s;
    }
  }

  /** Escaped literal text in front of a template that formats to `v`. */
  lemma FormatEscapedOk(s: string, rest: string, ctx: Context, v: string)
    requires Format(rest, ctx) == Ok(v)
    ensures Format(Escape(s) + rest, ctx) == Ok(s + v)
  {
    FormatEscaped(s, rest, ctx);
  }

  /** `Format` inverts `Escape`: an escaped text comes back unchanged, whatever the context. */
  lemma FormatEscape(s: string, ctx: Context)
    ensures Format(Escape(s), ctx) == Ok(s)
  {
    FormatEscaped(s, "", ctx);
    assert Escape(s) + "" == Escape(s);
    assert s + "" == s;
  }

  /** A field is replaced by its context value verbatim; a value containing
      braces is not expanded again. A missing name is reported. */
  lemma FormatField(n: string, rest: string, ctx: Context)
    requires BraceFree(n)
    ensures n in ctx ==> Format("{" + n + "}" + rest, ctx) == Prefix(ctx[n], Format(rest, ctx))
    ensures n !in ctx ==> Format("{" + n + "}" + rest, ctx) == Err(MissingContextKey(n))
  {
    var t := "{" + n + "}" + rest;
    assert t[1..] == n + ['}'] + rest;
    SplitFirstAt(n, '}', rest);
    assert t[1] != '{' by {
      if |n| > 0 { assert t[1] == n[0]; } else { assert t[1] == '}'; }
    }
    var j := IndexOf(t[1..], "}");
    assert j == Some(|n|);
    assert t[1..1 + |n|] == n;
    assert t[|n| + 2..] == rest;
  }

  /** Text without braces needs no escaping. */
  lemma {:induction false} EscapeBraceFree(s: string)
    requires BraceFree(s)
    ensures Escape(s) == s
    decreases |s|
  {
    if |s| > 0 {
      EscapeBraceFree(s[1..]);
      assert [s[0]] + s[1..] == s;
    }
  }

  /** Brace-free text is its own template: formatting leaves it unchanged. */
  lemma FormatBraceFree(s: string, ctx: Context)
    requires BraceFree(s)
    ensures Format(s, ctx) == Ok(s)
  {
    EscapeBraceFree(s);
    FormatEscape(s, ctx);
  }

  /** A template written as pieces formats to exactly the reference expansion. */
  lemma {:induction false} FormatSource(ps: seq<Piece>, ctx: Context)
    requires ValidPieces(ps)
    ensures Format(Source(ps), ctx) == Expand(ps, ctx)
    decreases |ps|
  {
    if |ps| == 0 {
    } else {
      var rest := Source(ps[1..]);
      FormatSource(ps[1..], ctx);
      match ps[0]
      case Lit(s) =>
        FormatEscaped(s, rest, ctx);
      case Field(n) =>
        assert FieldName(n);
        assert BraceFree(n);
        FormatField(n, rest, ctx);
    }
  }

  /** Expansion fails exactly when some field names a key the context lacks. */
  lemma {:induction false} ExpandFails(ps: seq<Piece>, ctx: Context)
    ensures Expand(ps, ctx).Err? <==>
      exists i :: 0 <= i < |ps| && ps[i].Field? && ps[i].name !in ctx
    decreases |ps|
  {
    if |ps| > 0 {
      ExpandFails(ps[1..], ctx);
      if exists i :: 1 <= i < |ps| && ps[i].Field? && ps[i].name !in ctx {
        var i :| 1 <= i < |ps| && ps[i].Field? && ps[i].name !in ctx;
        assert ps[1..][i - 1] == ps[i];
      }
      if exists i :: 0 <= i < |ps[1..]| && ps[1..][i].Field? && ps[1..][i].name !in ctx {
        var i :| 0 <= i < |ps[1..]| && ps[1..][i].Field? && ps[1..][i].name !in ctx;
        assert ps[i + 1] == ps[1..][i];
      }
    }
  }

  /** A field followed by escaped text. */
  lemma FormatFieldThenText(n: string, after: string, ctx: Context)
    requires BraceFree(n) && n in ctx
    ensures Format("{" + n + "}" + Escape(after), ctx) == Ok(ctx[n] + after)
  {
    FormatEscape(after, ctx);
    FormatField(n, Escape(after), ctx);
  }

  // FieldAssoc and ValueAssoc re-associate concatenations apart from any
  // `Format` term: done inline next to `Format`, the step is costly.
  lemma FieldAssoc(a: string, n: string, b: string)
    ensures a + "{" + n + "}" + b == a + ("{" + n + "}" + b)
  {
  }

  lemma ValueAssoc(a: string, v: string, b: string)
    ensures a + (v + b) == a + v + b
  {
  }

  /** A field between two literal texts: the value lands between them. */
  lemma FormatBetween(before: string, n: string, after: string, ctx: Context)
    requires BraceFree(n) && n in ctx
    ensures Format(Escape(before) + "{" + n + "}" + Escape(after), ctx) == Ok(before + ctx[n] + after)
  {
    var rest := "{" + n + "}" + Escape(after);
    FieldAssoc(Escape(before), n, Escape(after));
    FormatFieldThenText(n, after, ctx);
    FormatEscapedOk(before, rest, ctx, ctx[n] + after);
    ValueAssoc(before, ctx[n], after);
  }

  /** A template written as pieces fails when one of its fields is missing. */
  lemma FormatSourceMissing(ps: seq<Piece>, ctx: Context, i: nat)
    requires ValidPieces(ps) && i < |ps| && ps[i].Field? && ps[i].name !in ctx
    ensures Format(Source(ps), ctx).Err?
  {
    FormatSource(ps, ctx);
    ExpandFails(ps, ctx);
  }
}
