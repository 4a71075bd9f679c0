/** Rendering one template string, shared by `render` and `renderAsync`: a
    string without expressions comes back as it is; a string that is a single
    expression, up to surrounding white space, becomes the expression's value
    with its own type; anything else becomes a string in which each
    expression is replaced by its value as text. Also the errors rendering
    throws, and the key that marks a spread entry. */
module StringRender {
  import opened JsValue
  import opened BraceScanner

  /** Evaluation of one expression's text against the input JSON. */
  type Evaluate = string -> Value

  /** The errors rendering throws. */
  datatype RenderError =
    | Syntax(scan: ScanError)
    | KeyType(key: string, evaluated: Value)                    // a key rendered to a non-string
    | SpreadType(key: string, original: Value, evaluated: Value) // a spread value rendered to a non-object
    | EntriesOfNull                                              // `Object.entries(null)`

  /** The message of the thrown error. */
  function ErrorMessage(json: Stringifier, e: RenderError): (m: string)
    ensures e.Syntax? ==> m == Message(e.scan)
  {
    match e
    case Syntax(s) => Message(s)
    case KeyType(key, evaluated) =>
      "Evaluated object key should be undefined, null or string. Original key: " + key
      + ", evaluated to: " + JsonText(json, evaluated)
    case SpreadType(key, original, evaluated) =>
      "Evaluated value should be an object if the key is " + key + ". Original value: "
      + ToJsString(json, original) + ", evaluated to: " + JsonText(json, evaluated)
    case EntriesOfNull => "Cannot convert undefined or null to object"
  }

  /** The text an expression's value contributes to a larger string: a string
      as it is, anything else as JSON. */
  function SubstitutionText(json: Stringifier, v: Value): (r: string)
    ensures v.Str? ==> r == v.s
    ensures !v.Str? ==> r == JsonText(json, v)
    ensures v.Undefined? ==> r == "undefined"
  {
    if v.Str? then v.s else JsonText(json, v)
  }

  /** `template.trim().startsWith('{{') && template.trim().endsWith('}}')`. */
  predicate WholeExpression(t: string)
  {
    var m := Trim(t);
    |m| >= 2 && m[..2] == "{{" && m[|m| - 2..] == "}}"
  }

  /** The literal text after span i: up to the next `{{`, or to the end. */
  function Gap(t: string, spans: seq<Span>, i: nat): string
    requires WellFormed(t, spans) && i < |spans|
  {
    t[spans[i].end + 2..if i + 1 == |spans| then |t| else spans[i + 1].start - 2]
  }

  /** The text before the first span, then for each of the first n spans its
      substitution and the literal text after it. */
  function Interleave(t: string, spans: seq<Span>, subs: seq<string>, n: nat): string
    requires WellFormed(t, spans) && spans != [] && |subs| == |spans| && n <= |spans|
  {
    if n == 0 then t[..spans[0].start - 2]
    else Interleave(t, spans, subs, n - 1) + subs[n - 1] + Gap(t, spans, n - 1)
  }

  /** The substitution of every span, in order. */
  function Substitutions(eval: Evaluate, json: Stringifier, t: string, spans: seq<Span>): (r: seq<string>)
    requires WellFormed(t, spans)
    ensures |r| == |spans|
    ensures forall i | 0 <= i < |spans| :: r[i] == SubstitutionText(json, eval(t[spans[i].start..spans[i].end]))
  {
    seq(|spans|, i requires 0 <= i < |spans| => SubstitutionText(json, eval(t[spans[i].start..spans[i].end])))
  }

  /** What rendering the template string t gives. */
  function RenderedString(eval: Evaluate, json: Stringifier, d: Dialect, t: string): (r: Result<Value, RenderError>)
    ensures r.Err? <==> Scan(t, d).Err?
    ensures r.Err? ==> r.error == Syntax(Scan(t, d).error)
  {
    match Scan(t, d)
    case Err(e) => Err(Syntax(e))
    case Ok(spans) =>
      if spans == [] then Ok(Str(t))
      else if |spans| == 1 && WholeExpression(t) then Ok(eval(t[spans[0].start..spans[0].end]))
      else Ok(Str(Interleave(t, spans, Substitutions(eval, json, t, spans), |spans|)))
  }

  /** The `result +=` loop over the spans. */
  method Splice(eval: Evaluate, json: Stringifier, t: string, spans: seq<Span>) returns (result: string)
    requires WellFormed(t, spans) && spans != []
    ensures result == Interleave(t, spans, Substitutions(eval, json, t, spans), |spans|)
  {
    ghost var subs := Substitutions(eval, json, t, spans);
    result := t[..spans[0].start - 2];
    var i := 0;
    while i < |spans|
      invariant i <= |spans|
      invariant result == Interleave(t, spans, subs, i)
    {
      var jqResult := eval(t[spans[i].start..spans[i].end]);
      var after := t[spans[i].end + 2..if i + 1 == |spans| then |t| else spans[i + 1].start - 2];
      result := result + SubstitutionText(json, jqResult) + after;
      i := i + 1;
    }
  }

  /** The end of the text the first n spans account for. */
  function Covered(t: string, spans: seq<Span>, n: nat): nat
    requires WellFormed(t, spans) && spans != [] && n <= |spans|
  {
    if n == |spans| then |t| else spans[n].start - 2
  }

  /** Each expression's own source text, `{{` and `}}` included. */
  function SourceTexts(t: string, spans: seq<Span>): (r: seq<string>)
    requires WellFormed(t, spans)
    ensures |r| == |spans|
    ensures forall i | 0 <= i < |spans| :: r[i] == t[spans[i].start - 2..spans[i].end + 2]
  {
    seq(|spans|, i requires 0 <= i < |spans| => t[spans[i].start - 2..spans[i].end + 2])
  }

  /** If every expression rendered as its own source text, splicing the first
      n of them gives back the template up to the next expression: the literal
      text is kept, in order, and nothing else is added. */
  lemma {:induction false} InterleaveOriginal(t: string, spans: seq<Span>, n: nat)
    requires WellFormed(t, spans) && spans != [] && n <= |spans|
    ensures Interleave(t, spans, SourceTexts(t, spans), n) == t[..Covered(t, spans, n)]
  {
    if n > 0 {
      var texts := SourceTexts(t, spans);
      var a, b, c := spans[n - 1].start - 2, spans[n - 1].end + 2, Covered(t, spans, n);
      assert a <= b <= c && Covered(t, spans, n - 1) == a;
      InterleaveOriginal(t, spans, n - 1);
      assert texts[n - 1] == t[a..b];
      assert Gap(t, spans, n - 1) == t[b..c];
      PrefixSlices(t, a, b, c);
    }
  }

  lemma PrefixSlices(t: string, a: nat, b: nat, c: nat)
    requires a <= b <= c <= |t|
    ensures t[..a] + t[a..b] + t[b..c] == t[..c]
  {
  }

  /** Splicing every expression's own source text gives back the template. */
  lemma SpliceOriginal(t: string, spans: seq<Span>)
    requires WellFormed(t, spans) && spans != []
    ensures Interleave(t, spans, SourceTexts(t, spans), |spans|) == t
  {
    InterleaveOriginal(t, spans, |spans|);
  }

  /** A string without braces is returned as it is. */
  lemma TextWithoutBraces(eval: Evaluate, json: Stringifier, d: Dialect, t: string)
    requires NoBraces(t)
    ensures RenderedString(eval, json, d, t) == Ok(Str(t))
  {
    BraceFree(t, d);
  }

  /** An expression of plain characters between `{{` at p and `}}` at q, with
      no third brace on either side, is found as one span. */
  lemma ScanExpression(t: string, d: Dialect, p: nat, q: nat, spans: seq<Span>)
    requires p + 2 <= q && q + 2 <= |t|
    requires t[p] == '{' && t[p + 1] == '{' && t[q] == '}' && t[q + 1] == '}'
    requires p == 0 || t[p - 1] != '{'
    requires q + 2 == |t| || t[q + 2] != '}'
    requires forall k | p + 2 <= k < q :: Plain(t[k])
    ensures ScanFrom(t, d, p, None, None, spans) == ScanFrom(t, d, q + 2, None, None, spans + [Span(p + 2, q)])
  {
    assert ScanFrom(t, d, p, None, None, spans) == ScanFrom(t, d, p + 1, None, None, spans);
    assert p + 2 == q || t[p + 2] != '{';
    assert ScanFrom(t, d, p + 1, None, None, spans) == ScanFrom(t, d, p + 2, None, Some(p + 2), spans);
    OpenRun(t, d, p + 2, q, p + 2, spans);
    assert t[q - 1] != '}';
    assert ScanFrom(t, d, q, None, Some(p + 2), spans) == ScanFrom(t, d, q + 1, None, Some(p + 2), spans);
    assert Skip(t, q + 1, '}') == q + 2;
  }

  /** A template whose only braces are the `{{` at p and the `}}` at q, with
      plain characters between them, has exactly one expression. */
  lemma ScanSingle(t: string, d: Dialect, p: nat, q: nat)
    requires p + 2 <= q && q + 2 <= |t|
    requires t[p] == '{' && t[p + 1] == '{' && t[q] == '}' && t[q + 1] == '}'
    requires forall k | 0 <= k < p :: t[k] != '{' && t[k] != '}'
    requires forall k | q + 2 <= k < |t| :: t[k] != '{' && t[k] != '}'
    requires forall k | p + 2 <= k < q :: Plain(t[k])
    ensures Scan(t, d) == Ok([Span(p + 2, q)])
  {
    ClosedRun(t, d, 0, p, []);
    ScanExpression(t, d, p, q, []);
    ClosedRun(t, d, q + 2, |t|, [Span(p + 2, q)]);
    assert [] + [Span(p + 2, q)] == [Span(p + 2, q)];
  }

  /** Text, one expression of plain characters, and text, none of it braces. */
  lemma ScanOne(d: Dialect, a: string, e: string, b: string)
    requires NoBraces(a)
    requires NoBraces(b)
    requires forall k | 0 <= k < |e| :: Plain(e[k])
    ensures var t := a + "{{" + e + "}}" + b;
      && Scan(t, d) == Ok([Span(|a| + 2, |a| + 2 + |e|)])
      && t[|a| + 2..|a| + 2 + |e|] == e && t[..|a|] == a && t[|a| + 2 + |e| + 2..] == b
  {
    var t := a + "{{" + e + "}}" + b;
    var p, q := |a|, |a| + 2 + |e|;
    assert t[..p] == a && t[p + 2..q] == e && t[q + 2..] == b;
    assert t[p] == '{' && t[p + 1] == '{' && t[q] == '}' && t[q + 1] == '}';
    ScanSingle(t, d, p, q);
  }

  /** One expression that is the whole template, up to white space: its value. */
  lemma RenderWhole(eval: Evaluate, json: Stringifier, d: Dialect, t: string, spans: seq<Span>)
    requires Scan(t, d) == Ok(spans) && |spans| == 1 && WholeExpression(t)
    ensures RenderedString(eval, json, d, t) == Ok(eval(t[spans[0].start..spans[0].end]))
  {
  }

  /** Only a template that is one expression, up to white space, can render
      to something other than a string. */
  lemma TypedOnlyWhenWhole(eval: Evaluate, json: Stringifier, d: Dialect, t: string)
    requires RenderedString(eval, json, d, t).Ok? && !RenderedString(eval, json, d, t).value.Str?
    ensures Scan(t, d).Ok? && |Scan(t, d).value| == 1 && WholeExpression(t)
  {
  }

  /** One expression with text around it: the text with the value spliced in. */
  lemma RenderEmbedded(eval: Evaluate, json: Stringifier, d: Dialect, t: string, spans: seq<Span>)
    requires Scan(t, d) == Ok(spans) && |spans| == 1 && !WholeExpression(t)
    ensures RenderedString(eval, json, d, t)
      == Ok(Str(t[..spans[0].start - 2] + SubstitutionText(json, eval(t[spans[0].start..spans[0].end]))
                + t[spans[0].end + 2..]))
  {
    var subs := Substitutions(eval, json, t, spans);
    assert subs[0] == SubstitutionText(json, eval(t[spans[0].start..spans[0].end]));
    assert Gap(t, spans, 0) == t[spans[0].end + 2..];
    assert Interleave(t, spans, subs, 1) == Interleave(t, spans, subs, 0) + subs[0] + Gap(t, spans, 0);
  }

  /** White space, an expression and white space is one whole expression. */
  lemma WholeBetweenSpaces(a: string, e: string, b: string)
    requires AllSpace(a) && AllSpace(b)
    ensures WholeExpression(a + "{{" + e + "}}" + b)
  {
    var m := "{{" + e + "}}";
    assert a + "{{" + e + "}}" + b == a + m + b;
    TrimAround(a, m, b);
    assert m[..2] == "{{" && m[|m| - 2..] == "}}";
  }

  /** White space has no braces. */
  lemma SpacesHaveNoBraces(a: string)
    requires AllSpace(a)
    ensures NoBraces(a)
  {
  }

  /** A string that is one expression, up to white space around it, renders
      to the expression's value, whatever its type. */
  lemma SingleExpression(eval: Evaluate, json: Stringifier, d: Dialect, a: string, e: string, b: string)
    requires AllSpace(a) && AllSpace(b)
    requires forall k | 0 <= k < |e| :: Plain(e[k])
    ensures RenderedString(eval, json, d, a + "{{" + e + "}}" + b) == Ok(eval(e))
  {
    var t := a + "{{" + e + "}}" + b;
    SpacesHaveNoBraces(a);
    SpacesHaveNoBraces(b);
    ScanOne(d, a, e, b);
    WholeBetweenSpaces(a, e, b);
    RenderWhole(eval, json, d, t, [Span(|a| + 2, |a| + 2 + |e|)]);
  }

  /** Text around a single expression makes the result a string: the text
      with the expression's value spliced in. */
  lemma EmbeddedExpression(eval: Evaluate, json: Stringifier, d: Dialect, a: string, e: string, b: string)
    requires NoBraces(a)
    requires NoBraces(b)
    requires b != [] && !IsSpace(b[|b| - 1])
    requires forall k | 0 <= k < |e| :: Plain(e[k])
    ensures RenderedString(eval, json, d, a + "{{" + e + "}}" + b) == Ok(Str(a + SubstitutionText(json, eval(e)) + b))
  {
    var t := a + "{{" + e + "}}" + b;
    var spans := [Span(|a| + 2, |a| + 2 + |e|)];
    assert Scan(t, d) == Ok(spans) by {
      ScanOne(d, a, e, b);
    }
    assert t[..spans[0].start - 2] == a && t[spans[0].start..spans[0].end] == e && t[spans[0].end + 2..] == b by {
      ScanOne(d, a, e, b);
    }
    // the trimmed text ends with the last character of b, which is not a brace
    assert !WholeExpression(t) by {
      assert t[|t| - 1] == b[|b| - 1];
      TrimKeepsLast(t);
    }
    RenderEmbedded(eval, json, d, t, spans);
  }

  /** Both ways of testing for an open expression render every string alike. */
  lemma DialectsRenderAlike(eval: Evaluate, json: Stringifier, t: string)
    ensures RenderedString(eval, json, TruthyStart, t) == RenderedString(eval, json, NotNullStart, t)
  {
    DialectsAgree(t);
  }

  /** A template with no braces anywhere, whose object keys are non-empty and
      each appear once. */
  predicate Literal(v: Value)
  {
    match v
    case Str(s) => NoBraces(s)
    case Arr(items) => forall i | 0 <= i < |items| :: Literal(items[i])
    case Obj(entries) =>
      && UniqueKeys(entries)
      && forall i | 0 <= i < |entries| :: entries[i].key != [] && NoBraces(entries[i].key) && Literal(entries[i].value)
    case _ => true
  }
}
