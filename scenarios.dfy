/** The templates of the renderers' test suites, worked through the model:
    the malformed template strings and the exact messages they throw (for
    both copies of the scan), an escaped quote inside an expression, quotes
    outside an expression, and the key and spread errors with their
    messages. */
module Scenarios {
  import opened JsValue
  import opened BraceScanner
  import opened StringRender
  import opened SpreadKey
  import Template
  import TemplateAsync

  /** The decimal text of a two-digit index. */
  lemma TwoDigits(n: nat, hi: char, lo: char)
    requires 10 <= n < 100 && Digit(n / 10) == hi && Digit(n % 10) == lo
    ensures NatToDecimal(n) == [hi, lo]
  {
  }

  /** `prefix{{.foo}postfix`: a single `}` does not close, so the `{{` at
      index 6 is reported unclosed. */
  lemma UnclosedAtSix(eval: Evaluate, json: Stringifier, d: Dialect)
    ensures RenderedString(eval, json, d, "prefix{{.foo}postfix") == Err(Syntax(Unclosed(6)))
    ensures Message(Unclosed(6)) == "Found opening double braces in index " + "6" + " without closing double braces"
  {
    UnclosedAtSixScan(d);
    assert NatToDecimal(6) == "6" by {
      assert Digit(6) == '6';
    }
  }

  lemma UnclosedAtSixScan(d: Dialect)
    ensures Scan("prefix{{.foo}postfix", d) == Err(Unclosed(6))
  {
    var s := "prefix{{.foo}postfix";
    ClosedRun(s, d, 0, 6, []);
    assert ScanFrom(s, d, 6, None, None, []) == ScanFrom(s, d, 8, None, Some(8), []);
    OpenRun(s, d, 8, 12, 8, []);
    assert ScanFrom(s, d, 12, None, Some(8), []) == ScanFrom(s, d, 13, None, Some(8), []);
    OpenRun(s, d, 13, 20, 8, []);
  }

  /** `prefix{.foo}}postfix`: a single `{` does not open, so the `}}` at
      index 11 is a stray closing pair. */
  lemma StrayAtEleven(eval: Evaluate, json: Stringifier, d: Dialect)
    ensures RenderedString(eval, json, d, "prefix{.foo}}postfix") == Err(Syntax(StrayClose(11)))
    ensures Message(StrayClose(11)) == "Found closing double braces in index " + "11" + " without opening double braces"
  {
    StrayAtElevenScan(d);
    TwoDigits(11, '1', '1');
  }

  lemma StrayAtElevenScan(d: Dialect)
    ensures Scan("prefix{.foo}}postfix", d) == Err(StrayClose(11))
  {
    var s := "prefix{.foo}}postfix";
    ClosedRun(s, d, 0, 6, []);
    assert ScanFrom(s, d, 6, None, None, []) == ScanFrom(s, d, 7, None, None, []);
    ClosedRun(s, d, 7, 11, []);
    assert ScanFrom(s, d, 11, None, None, []) == ScanFrom(s, d, 12, None, None, []);
  }

  /** `prefix{{ .foo {{ }}postfix`: the second `{{`, at index 14, is nested
      in the one at index 6. */
  lemma NestedAtFourteen(eval: Evaluate, json: Stringifier, d: Dialect)
    ensures RenderedString(eval, json, d, "prefix{{ .foo {{ }}postfix") == Err(Syntax(NestedOpen(14, 6)))
    ensures Message(NestedOpen(14, 6)) == "Found double braces in index " + "14" + " inside other one in index " + "6"
  {
    NestedAtFourteenScan(d);
    TwoDigits(14, '1', '4');
    assert NatToDecimal(6) == "6" by {
      assert Digit(6) == '6';
    }
  }

  lemma NestedAtFourteenScan(d: Dialect)
    ensures Scan("prefix{{ .foo {{ }}postfix", d) == Err(NestedOpen(14, 6))
  {
    assert "prefix{{ .foo {{ }}postfix" == "prefix" + "{{" + " .foo " + "{{" + " }}postfix";
    NestedReported(d, "prefix", " .foo ", " }}postfix");
  }

  /** `prefix{{ .foo }} }}postfix`: after the expression closes at index 14,
      the `}}` at index 17 has nothing to close. */
  lemma StrayAtSeventeen(eval: Evaluate, json: Stringifier, d: Dialect)
    ensures RenderedString(eval, json, d, "prefix{{ .foo }} }}postfix") == Err(Syntax(StrayClose(17)))
    ensures Message(StrayClose(17)) == "Found closing double braces in index " + "17" + " without opening double braces"
  {
    StrayAtSeventeenScan(d);
    TwoDigits(17, '1', '7');
  }

  lemma StrayAtSeventeenScan(d: Dialect)
    ensures Scan("prefix{{ .foo }} }}postfix", d) == Err(StrayClose(17))
  {
    var s := "prefix{{ .foo }} }}postfix";
    assert Scan(s, d) == ScanFrom(s, d, 16, None, None, [Span(8, 14)]) by {
      ClosedRun(s, d, 0, 6, []);
      ScanExpression(s, d, 6, 14, []);
    }
    assert ScanFrom(s, d, 16, None, None, [Span(8, 14)]) == ScanFrom(s, d, 17, None, None, [Span(8, 14)]);
    assert ScanFrom(s, d, 17, None, None, [Span(8, 14)]) == ScanFrom(s, d, 18, None, None, [Span(8, 14)]);
  }

  /** `prefix{{ "{{" + .foo }} }}postfix`, with either kind of quote: the
      quoted `{{` is part of the expression, which closes at index 21, so the
      `}}` at index 24 is the stray one. */
  lemma QuotedBracesThenStray(eval: Evaluate, json: Stringifier, d: Dialect, c: char)
    requires IsQuote(c)
    ensures RenderedString(eval, json, d, "prefix{{ " + [c] + "{{" + [c] + " + .foo }} }}postfix")
              == Err(Syntax(StrayClose(24)))
    ensures Message(StrayClose(24)) == "Found closing double braces in index " + "24" + " without opening double braces"
  {
    QuotedBracesThenStrayScan(d, c);
    TwoDigits(24, '2', '4');
  }

  lemma QuotedBracesThenStrayScan(d: Dialect, c: char)
    requires IsQuote(c)
    ensures Scan("prefix{{ " + [c] + "{{" + [c] + " + .foo }} }}postfix", d) == Err(StrayClose(24))
  {
    var s := "prefix{{ " + [c] + "{{" + [c] + " + .foo }} }}postfix";
    QuotedBracesOpening(d, c);
    OpenRun(s, d, 13, 21, 8, []);
    assert ScanFrom(s, d, 21, None, Some(8), []) == ScanFrom(s, d, 22, None, Some(8), []);
    assert [] + [Span(8, 21)] == [Span(8, 21)];
    assert ScanFrom(s, d, 22, None, Some(8), []) == ScanFrom(s, d, 23, None, None, [Span(8, 21)]);
    assert ScanFrom(s, d, 23, None, None, [Span(8, 21)]) == ScanFrom(s, d, 24, None, None, [Span(8, 21)]);
    assert ScanFrom(s, d, 24, None, None, [Span(8, 21)]) == ScanFrom(s, d, 25, None, None, [Span(8, 21)]);
  }

  /** Up to the quoted `{{` and past its closing quote. */
  lemma QuotedBracesOpening(d: Dialect, c: char)
    requires IsQuote(c)
    ensures var s := "prefix{{ " + [c] + "{{" + [c] + " + .foo }} }}postfix";
      Scan(s, d) == ScanFrom(s, d, 13, None, Some(8), [])
  {
    var s := "prefix{{ " + [c] + "{{" + [c] + " + .foo }} }}postfix";
    ClosedRun(s, d, 0, 6, []);
    assert ScanFrom(s, d, 6, None, None, []) == ScanFrom(s, d, 8, None, Some(8), []);
    assert ScanFrom(s, d, 8, None, Some(8), []) == ScanFrom(s, d, 9, None, Some(8), []);
    assert ScanFrom(s, d, 9, None, Some(8), []) == ScanFrom(s, d, 10, Some(c), Some(8), []);
    QuotedRun(s, d, 10, 12, 8, c, []);
    assert ScanFrom(s, d, 12, Some(c), Some(8), []) == ScanFrom(s, d, 13, None, Some(8), []);
  }

  /** `{{"\"foo\""}}`: the escaped quotes neither end the quoted string nor
      hide the closing braces; the one expression is the whole template. */
  lemma EscapedQuotesScan(d: Dialect)
    ensures Scan("{{\"\\\"foo\\\"\"}}", d) == Ok([Span(2, 11)])
  {
    var s := "{{\"\\\"foo\\\"\"}}";
    assert ScanFrom(s, d, 0, None, None, []) == ScanFrom(s, d, 2, None, Some(2), []);
    assert ScanFrom(s, d, 2, None, Some(2), []) == ScanFrom(s, d, 3, Some('"'), Some(2), []);
    assert ScanFrom(s, d, 3, Some('"'), Some(2), []) == ScanFrom(s, d, 5, Some('"'), Some(2), []);
    QuotedRun(s, d, 5, 8, 2, '"', []);
    assert ScanFrom(s, d, 8, Some('"'), Some(2), []) == ScanFrom(s, d, 10, Some('"'), Some(2), []);
    assert ScanFrom(s, d, 10, Some('"'), Some(2), []) == ScanFrom(s, d, 11, None, Some(2), []);
    assert ScanFrom(s, d, 11, None, Some(2), []) == ScanFrom(s, d, 12, None, Some(2), []);
    assert [] + [Span(2, 11)] == [Span(2, 11)];
    assert ScanFrom(s, d, 12, None, Some(2), []) == Ok([Span(2, 11)]);
  }

  lemma EscapedQuotesWhole()
    ensures WholeExpression("{{\"\\\"foo\\\"\"}}")
  {
    var e := "\"\\\"foo\\\"\"";
    WholeBetweenSpaces("", e, "");
    assert "" + "{{" + e + "}}" + "" == "{{\"\\\"foo\\\"\"}}";
  }

  /** ... so it renders to the value of `"\"foo\""` itself. */
  lemma EscapedQuotesRender(eval: Evaluate, json: Stringifier, d: Dialect)
    ensures RenderedString(eval, json, d, "{{\"\\\"foo\\\"\"}}") == Ok(eval("\"\\\"foo\\\"\""))
  {
    var s := "{{\"\\\"foo\\\"\"}}";
    var e := "\"\\\"foo\\\"\"";
    assert s[2..11] == e;
    assert RenderedString(eval, json, d, s) == Ok(eval(s[2..11])) by {
      EscapedQuotesScan(d);
      EscapedQuotesWhole();
      RenderWhole(eval, json, d, s, [Span(2, 11)]);
    }
  }

  /** `"{{.foo}}"` and `'{{.foo}}'`: quotes outside an expression are plain
      text, so the value is spliced between them. */
  lemma QuotesOutside(eval: Evaluate, json: Stringifier, d: Dialect, c: char)
    requires IsQuote(c)
    ensures RenderedString(eval, json, d, [c] + "{{.foo}}" + [c])
              == Ok(Str([c] + SubstitutionText(json, eval(".foo")) + [c]))
  {
    assert [c] + "{{.foo}}" + [c] == [c] + "{{" + ".foo" + "}}" + [c];
    EmbeddedExpression(eval, json, d, [c], ".foo", [c]);
  }

  /** `{"{{1}}": "bar"}` and `{"{{true}}": "bar"}`: a key that is one
      expression whose value is a number or a boolean throws the key error,
      naming the key as written and its value ... */
  lemma KeyErrorRender(cx: Template.Context, e: string, value: Value)
    requires forall k | 0 <= k < |e| :: Plain(e[k])
    requires !IsSpreadKey("{{" + e + "}}")
    requires Template.Evaluator(cx)(e).Num? || Template.Evaluator(cx)(e).Bool?
    ensures Template.RenderEntry(cx, Entry("{{" + e + "}}", value)) == Err(KeyType("{{" + e + "}}", Template.Evaluator(cx)(e)))
  {
    var key := "{{" + e + "}}";
    var eval := Template.Evaluator(cx);
    assert RenderedString(eval, cx.json, TruthyStart, key) == Ok(eval(e)) by {
      assert "" + "{{" + e + "}}" + "" == key;
      SingleExpression(eval, cx.json, TruthyStart, "", e, "");
    }
    Template.KeyTypeError(cx, key, value);
  }

  /** ... as JSON: the message the tests expect. */
  lemma KeyErrorMessage(json: Stringifier, key: string, v: Value)
    requires v.Num? || v.Bool?
    ensures ErrorMessage(json, KeyType(key, v))
              == "Evaluated object key should be undefined, null or string. Original key: " + key
                 + ", evaluated to: " + json(v)
  {
    assert JsonText(json, v) == json(v);
  }

  /** `{"{{ spreadValue() }}": "str"}`: a spread value that renders to a
      string throws the spread error, with the value as written and its
      rendering as JSON. */
  lemma SpreadStringMessage(cx: TemplateAsync.Context, result: seq<Entry>, key: string, s: string)
    requires IsSpreadKey(key) && NoBraces(s)
    ensures TemplateAsync.AssignField(cx, result, Entry(key, Str(s))) == Err(SpreadType(key, Str(s), Str(s)))
    ensures ErrorMessage(cx.json, SpreadType(key, Str(s), Str(s)))
              == "Evaluated value should be an object if the key is " + key + ". Original value: " + s
                 + ", evaluated to: " + cx.json(Str(s))
  {
    TextWithoutBraces(TemplateAsync.Evaluator(cx), cx.json, NotNullStart, s);
    TemplateAsync.SpreadRejected(cx, result, Entry(key, Str(s)), Str(s));
  }
}
