/** `findInsideDoubleBracesIndices`: the scan of a template string for its
    `{{ … }}` expressions. Inside an expression a backslash skips the next
    character and quotes hide braces; a third brace in a row is not the start
    of another pair. Both template modules carry a copy of the scan; they
    differ only in how they test whether an expression is open. */
module BraceScanner {
  import opened JsValue

  /** The text of one expression: `template.slice(start, end)`, between the
      `{{` ending at `start` and the `}}` starting at `end`. */
  datatype Span = Span(start: nat, end: nat)

  /** The three errors the scan throws, with the positions they report. */
  datatype ScanError =
    | NestedOpen(at: nat, outer: nat)  // `{{` at `at` while the one at `outer` is open
    | StrayClose(at: nat)              // `}}` at `at` with no `{{` open
    | Unclosed(at: nat)                // `{{` at `at` never closed

  /** The message of the thrown `Error`. */
  function Message(e: ScanError): (m: string)
    ensures |m| > 40
  {
    match e
    case NestedOpen(at, outer) =>
      "Found double braces in index " + NatToDecimal(at) + " inside other one in index " + NatToDecimal(outer)
    case StrayClose(at) =>
      "Found closing double braces in index " + NatToDecimal(at) + " without opening double braces"
    case Unclosed(at) =>
      "Found opening double braces in index " + NatToDecimal(at) + " without closing double braces"
  }

  /** Digits followed by a non-digit: where the digits end is fixed. */
  lemma DigitsThenText(d1: string, x1: string, d2: string, x2: string)
    requires IsDigits(d1) && IsDigits(d2)
    requires x1 != [] && !('0' <= x1[0] <= '9') && x2 != [] && !('0' <= x2[0] <= '9')
    requires d1 + x1 == d2 + x2
    ensures d1 == d2 && x1 == x2
  {
    var s := d1 + x1;
    assert |d1| == |d2| by {
      // otherwise the shorter digit string's text starts inside the longer one's digits
      assert s[|d1|] == x1[0];
      assert s == d2 + x2 && s[|d2|] == x2[0];
    }
    assert d1 == s[..|d1|] && d2 == s[..|d2|];
  }

  /** The seventh character of a message tells the kind of error: 'd', 'c'
      or 'o' for a nested, a stray closing or an unclosed double brace. */
  lemma NestedKind(at: nat, outer: nat)
    ensures Message(NestedOpen(at, outer))[6] == 'd'
  {
    var p := "Found double braces in index ";
    assert p[6] == 'd';
    assert Message(NestedOpen(at, outer)) == p + (NatToDecimal(at) + " inside other one in index " + NatToDecimal(outer));
  }

  lemma StrayKind(at: nat)
    ensures Message(StrayClose(at))[6] == 'c'
  {
    var p := "Found closing double braces in index ";
    assert p[6] == 'c';
    assert Message(StrayClose(at)) == p + (NatToDecimal(at) + " without opening double braces");
  }

  lemma UnclosedKind(at: nat)
    ensures Message(Unclosed(at))[6] == 'o'
  {
    var p := "Found opening double braces in index ";
    assert p[6] == 'o';
    assert Message(Unclosed(at)) == p + (NatToDecimal(at) + " without closing double braces");
  }

  /** The character that tells the kind of an error in its message. */
  function KindChar(e: ScanError): (c: char)
    ensures Message(e)[6] == c
  {
    match e
    case NestedOpen(at, outer) => NestedKind(at, outer); 'd'
    case StrayClose(at) => StrayKind(at); 'c'
    case Unclosed(at) => UnclosedKind(at); 'o'
  }

  /** Which of the three kinds an error is can be read from its message. */
  lemma MessageKind(e1: ScanError, e2: ScanError)
    requires Message(e1) == Message(e2)
    ensures e1.NestedOpen? == e2.NestedOpen? && e1.StrayClose? == e2.StrayClose?
  {
    var c1, c2 := KindChar(e1), KindChar(e2);
    assert c1 == c2;
  }

  /** A fixed text, digits, a fixed text that starts with a non-digit, and
      digits: the two runs of digits are determined. */
  lemma TwoNumbers(p: string, q: string, a1: string, b1: string, a2: string, b2: string)
    requires IsDigits(a1) && IsDigits(b1) && IsDigits(a2) && IsDigits(b2)
    requires q != [] && !('0' <= q[0] <= '9')
    requires p + a1 + q + b1 == p + a2 + q + b2
    ensures a1 == a2 && b1 == b2
  {
    var m := p + a1 + q + b1;
    assert m == p + (a1 + (q + b1)) && p + a2 + q + b2 == p + (a2 + (q + b2));
    assert a1 + (q + b1) == m[|p|..] == a2 + (q + b2);
    DigitsThenText(a1, q + b1, a2, q + b2);
    assert b1 == (q + b1)[|q|..] && b2 == (q + b2)[|q|..];
  }

  /** A fixed text, digits and a fixed text that starts with a non-digit: the
      digits are determined. */
  lemma OneNumber(p: string, q: string, a1: string, a2: string)
    requires IsDigits(a1) && IsDigits(a2)
    requires q != [] && !('0' <= q[0] <= '9')
    requires p + a1 + q == p + a2 + q
    ensures a1 == a2
  {
    var m := p + a1 + q;
    assert m == p + (a1 + q) && p + a2 + q == p + (a2 + q);
    assert a1 + q == m[|p|..] == a2 + q;
    DigitsThenText(a1, q, a2, q);
  }

  /** Different errors have different messages: the kind of error and the
      indices it reports can be read back from the message. */
  lemma MessageInjective(e1: ScanError, e2: ScanError)
    requires Message(e1) == Message(e2)
    ensures e1 == e2
  {
    MessageKind(e1, e2);
    match e1
    case NestedOpen(at, outer) =>
      TwoNumbers("Found double braces in index ", " inside other one in index ",
                 NatToDecimal(at), NatToDecimal(outer), NatToDecimal(e2.at), NatToDecimal(e2.outer));
      NatToDecimalInjective(at, e2.at);
      NatToDecimalInjective(outer, e2.outer);
    case StrayClose(at) =>
      OneNumber("Found closing double braces in index ", " without opening double braces",
                NatToDecimal(at), NatToDecimal(e2.at));
      NatToDecimalInjective(at, e2.at);
    case Unclosed(at) =>
      OneNumber("Found opening double braces in index ", " without closing double braces",
                NatToDecimal(at), NatToDecimal(e2.at));
      NatToDecimalInjective(at, e2.at);
  }

  /** How "an expression is open" is tested: the synchronous copy tests the
      start index for truthiness, the asynchronous copy compares it with `null`. */
  datatype Dialect = TruthyStart | NotNullStart

  predicate IsOpen(d: Dialect, open: Option<nat>)
  {
    match d
    case TruthyStart => open.Some? && open.value != 0
    case NotNullStart => open.Some?
  }

  predicate IsQuote(c: char)
  {
    c == '"' || c == '\''
  }

  /** The spans are in the text: each is framed by `{{` and `}}`, and each
      closing pair ends before the next opening pair starts. */
  predicate WellFormed(input: string, spans: seq<Span>)
  {
    && (forall k | 0 <= k < |spans| ::
          && 2 <= spans[k].start <= spans[k].end && spans[k].end + 2 <= |input|
          && input[spans[k].start - 2] == '{' && input[spans[k].start - 1] == '{'
          && input[spans[k].end] == '}' && input[spans[k].end + 1] == '}')
    && (forall k | 0 <= k < |spans| - 1 :: spans[k].end + 2 <= spans[k + 1].start - 2)
  }

  /** An error reports the positions of real delimiters. */
  predicate Placed(input: string, e: ScanError)
  {
    match e
    case NestedOpen(at, outer) =>
      outer + 2 <= at && at + 2 <= |input| && input[outer] == '{' && input[outer + 1] == '{'
      && input[at] == '{' && input[at + 1] == '{'
    case StrayClose(at) => at + 2 <= |input| && input[at] == '}' && input[at + 1] == '}'
    case Unclosed(at) => at + 2 <= |input| && input[at] == '{' && input[at + 1] == '{'
  }

  /** What holds of the scan's variables at the top of each iteration. */
  predicate Framed(input: string, i: nat, quote: Option<char>, open: Option<nat>, spans: seq<Span>)
  {
    && i <= |input| + 1
    && (quote.Some? ==> open.Some?)
    && WellFormed(input, spans)
    && (open.Some? ==>
          && 2 <= open.value <= i && open.value <= |input|
          && (open.value == i && i < |input| ==> input[i] != '{')
          && input[open.value - 2] == '{' && input[open.value - 1] == '{'
          && (|spans| > 0 ==> spans[|spans| - 1].end + 2 <= open.value - 2))
    && (open.None? && |spans| > 0 ==> spans[|spans| - 1].end + 2 <= i)
  }

  /** Moving past a character that is not a delimiter keeps the frame. */
  lemma FramedAdvance(input: string, i: nat, i': nat, quote: Option<char>, quote': Option<char>, open: Option<nat>, spans: seq<Span>)
    requires Framed(input, i, quote, open, spans)
    requires i < i' <= |input| + 1 && (quote'.Some? ==> open.Some?)
    ensures Framed(input, i', quote', open, spans)
  {
  }

  /** Opening an expression at i keeps the frame. */
  lemma FramedOpen(input: string, i: nat, spans: seq<Span>)
    requires Framed(input, i, None, None, spans)
    requires 0 < i < |input| && input[i - 1] == '{' && input[i] == '{'
    ensures Framed(input, Skip(input, i, '{'), None, Some(i + 1), spans)
  {
  }

  /** Closing the open expression at i keeps the frame. */
  lemma FramedClose(input: string, i: nat, open: nat, spans: seq<Span>)
    requires Framed(input, i, None, Some(open), spans)
    requires 0 < i < |input| && input[i - 1] == '}' && input[i] == '}'
    ensures Framed(input, Skip(input, i, '}'), None, None, spans + [Span(open, i - 1)])
  {
    var spans' := spans + [Span(open, i - 1)];
    assert open < i;
    forall k | 0 <= k < |spans'| - 1 ensures spans'[k].end + 2 <= spans'[k + 1].start - 2 {
      if k < |spans| - 1 {
        assert spans'[k] == spans[k] && spans'[k + 1] == spans[k + 1];
      }
    }
  }

  /** The bounds the scan's variables keep: enough for the positions it
      reports to be indices. */
  predicate Bounded(input: string, i: nat, open: Option<nat>)
  {
    i <= |input| + 1 && (open.Some? ==> 2 <= open.value)
  }

  /** Where the scan goes after a delimiter at i: one past it, or two past
      when a third brace of the same kind follows. */
  function Skip(input: string, i: nat, c: char): nat
  {
    if i + 1 < |input| && input[i + 1] == c then i + 2 else i + 1
  }

  /** The scan from position i with the given quote, open expression and
      spans found so far, one iteration of the loop per call. */
  function ScanFrom(input: string, d: Dialect, i: nat, quote: Option<char>, open: Option<nat>, spans: seq<Span>)
    : (r: Result<seq<Span>, ScanError>)
    requires Bounded(input, i, open)
    ensures r.Ok? ==> spans <= r.value
    decreases |input| + 1 - i
  {
    if i >= |input| then
      if IsOpen(d, open) then Err(Unclosed(open.value - 2)) else Ok(spans)
    else
      var c := input[i];
      var next := if IsOpen(d, open) && c == '\\' then i + 2 else i + 1;
      if IsOpen(d, open) && IsQuote(c) then
        var quote' := if quote.None? then Some(c) else if quote == Some(c) then None else quote;
        ScanFrom(input, d, next, quote', open, spans)
      else if quote.None? && c == '{' && i > 0 && input[i - 1] == '{' then
        if IsOpen(d, open) then Err(NestedOpen(i - 1, open.value - 2))
        else ScanFrom(input, d, Skip(input, i, '{'), quote, Some(i + 1), spans)
      else if quote.None? && c == '}' && i > 0 && input[i - 1] == '}' then
        if IsOpen(d, open) then
          ScanFrom(input, d, Skip(input, i, '}'), quote, None, spans + [Span(open.value, i - 1)])
        else Err(StrayClose(i - 1))
      else
        ScanFrom(input, d, next, quote, open, spans)
  }

  /** A result of the scan from a state holding `spans`: it extends them with
      framed spans, or its error points at real delimiters. */
  predicate Sound(input: string, spans: seq<Span>, r: Result<seq<Span>, ScanError>)
  {
    && (r.Ok? ==> spans <= r.value && WellFormed(input, r.value))
    && (r.Err? ==> Placed(input, r.error))
  }

  /** The scan only adds spans, every span it finds is framed by braces in
      the text, and every error it throws points at real delimiters. */
  lemma {:induction false} ScanFromSound(input: string, d: Dialect, i: nat, quote: Option<char>, open: Option<nat>, spans: seq<Span>)
    requires Framed(input, i, quote, open, spans)
    ensures Sound(input, spans, ScanFrom(input, d, i, quote, open, spans))
    decreases |input| + 1 - i
  {
    if i < |input| {
      var c := input[i];
      var next := if IsOpen(d, open) && c == '\\' then i + 2 else i + 1;
      if IsOpen(d, open) && IsQuote(c) {
        var quote' := if quote.None? then Some(c) else if quote == Some(c) then None else quote;
        FramedAdvance(input, i, next, quote, quote', open, spans);
        ScanFromSound(input, d, next, quote', open, spans);
      } else if quote.None? && c == '{' && i > 0 && input[i - 1] == '{' {
        if !IsOpen(d, open) {
          assert open.None?;
          FramedOpen(input, i, spans);
          ScanFromSound(input, d, Skip(input, i, '{'), quote, Some(i + 1), spans);
        } else {
          assert open.value < i;
        }
      } else if quote.None? && c == '}' && i > 0 && input[i - 1] == '}' {
        if IsOpen(d, open) {
          FramedClose(input, i, open.value, spans);
          var spans' := spans + [Span(open.value, i - 1)];
          ScanFromSound(input, d, Skip(input, i, '}'), quote, None, spans');
        }
      } else {
        FramedAdvance(input, i, next, quote, quote, open, spans);
        ScanFromSound(input, d, next, quote, open, spans);
      }
    }
  }

  /** The spans of a template, or the error the scan throws. */
  function Scan(input: string, d: Dialect): (r: Result<seq<Span>, ScanError>)
    ensures r.Ok? ==> WellFormed(input, r.value)
    ensures r.Err? ==> Placed(input, r.error)
  {
    ScanFromSound(input, d, 0, None, None, []);
    ScanFrom(input, d, 0, None, None, [])
  }

  /** The loop of `findInsideDoubleBracesIndices`. */
  method FindSpans(input: string, d: Dialect) returns (r: Result<seq<Span>, ScanError>)
    ensures r == Scan(input, d)
  {
    var quote: Option<char> := None;
    var open: Option<nat> := None;
    var spans: seq<Span> := [];
    var i: nat := 0;
    while i < |input|
      invariant Bounded(input, i, open)
      invariant ScanFrom(input, d, i, quote, open, spans) == Scan(input, d)
      decreases |input| + 1 - i
    {
      var c := input[i];
      if IsOpen(d, open) && c == '\\' {
        // the escaped character is skipped; a backslash matches no other branch
        i := i + 1;
      } else if IsOpen(d, open) && IsQuote(c) {
        if quote.None? {
          quote := Some(c);
        } else if quote == Some(c) {
          quote := None;
        }
      } else if quote.None? && c == '{' && i > 0 && input[i - 1] == '{' {
        if IsOpen(d, open) {
          return Err(NestedOpen(i - 1, open.value - 2));
        }
        open := Some(i + 1);
        if i + 1 < |input| && input[i + 1] == '{' {
          i := i + 1;
        }
      } else if quote.None? && c == '}' && i > 0 && input[i - 1] == '}' {
        if IsOpen(d, open) {
          spans := spans + [Span(open.value, i - 1)];
          open := None;
          if i + 1 < |input| && input[i + 1] == '}' {
            i := i + 1;
          }
        } else {
          return Err(StrayClose(i - 1));
        }
      }
      i := i + 1;
    }
    if IsOpen(d, open) {
      return Err(Unclosed(open.value - 2));
    }
    return Ok(spans);
  }

  /** No brace of either kind. */
  predicate NoBraces(s: string)
  {
    forall k | 0 <= k < |s| :: s[k] != '{' && s[k] != '}'
  }

  /** Characters that the scan passes over inside an expression. */
  predicate Plain(c: char)
  {
    c != '{' && c != '}' && c != '"' && c != '\'' && c != '\\'
  }

  /** Outside an expression, characters other than braces are passed over. */
  lemma {:induction false} ClosedRun(input: string, d: Dialect, i: nat, j: nat, spans: seq<Span>)
    requires i <= j <= |input|
    requires forall k | i <= k < j :: input[k] != '{' && input[k] != '}'
    ensures ScanFrom(input, d, i, None, None, spans) == ScanFrom(input, d, j, None, None, spans)
    decreases j - i
  {
    if i < j {
      ClosedRun(input, d, i + 1, j, spans);
    }
  }

  /** Inside an expression, plain characters are passed over. */
  lemma {:induction false} OpenRun(input: string, d: Dialect, i: nat, j: nat, open: nat, spans: seq<Span>)
    requires i <= j <= |input| && 2 <= open
    requires forall k | i <= k < j :: Plain(input[k])
    ensures ScanFrom(input, d, i, None, Some(open), spans) == ScanFrom(input, d, j, None, Some(open), spans)
    decreases j - i
  {
    if i < j {
      OpenRun(input, d, i + 1, j, open, spans);
    }
  }

  /** Inside an expression a backslash skips the character after it, so an
      escaped quote or brace has no effect. */
  lemma EscapeSkips(input: string, d: Dialect, i: nat, quote: Option<char>, open: nat, spans: seq<Span>)
    requires i < |input| && input[i] == '\\' && 2 <= open
    ensures ScanFrom(input, d, i, quote, Some(open), spans) == ScanFrom(input, d, i + 2, quote, Some(open), spans)
  {
  }

  /** Inside a quote within an expression, everything up to the closing
      quote or a backslash is passed over, braces included. */
  lemma {:induction false} QuotedRun(input: string, d: Dialect, i: nat, j: nat, open: nat, c: char, spans: seq<Span>)
    requires i <= j <= |input| && 2 <= open && IsQuote(c)
    requires forall k | i <= k < j :: input[k] != c && input[k] != '\\'
    ensures ScanFrom(input, d, i, Some(c), Some(open), spans) == ScanFrom(input, d, j, Some(c), Some(open), spans)
    decreases j - i
  {
    if i < j {
      QuotedRun(input, d, i + 1, j, open, c, spans);
    }
  }

  /** An expression that is one quoted string, from `{{` at p to `}}` at q. */
  lemma ScanQuoted(t: string, d: Dialect, p: nat, q: nat, c: char, spans: seq<Span>)
    requires p + 4 <= q && q + 2 <= |t| && IsQuote(c)
    requires t[p] == '{' && t[p + 1] == '{' && t[p + 2] == c && t[q - 1] == c && t[q] == '}' && t[q + 1] == '}'
    requires p == 0 || t[p - 1] != '{'
    requires q + 2 == |t| || t[q + 2] != '}'
    requires forall k | p + 3 <= k < q - 1 :: t[k] != c && t[k] != '\\'
    ensures ScanFrom(t, d, p, None, None, spans) == ScanFrom(t, d, q + 2, None, None, spans + [Span(p + 2, q)])
  {
    assert ScanFrom(t, d, p, None, None, spans) == ScanFrom(t, d, p + 1, None, None, spans);
    assert ScanFrom(t, d, p + 1, None, None, spans) == ScanFrom(t, d, p + 2, None, Some(p + 2), spans);
    assert ScanFrom(t, d, p + 2, None, Some(p + 2), spans) == ScanFrom(t, d, p + 3, Some(c), Some(p + 2), spans);
    QuotedRun(t, d, p + 3, q - 1, p + 2, c, spans);
    assert ScanFrom(t, d, q - 1, Some(c), Some(p + 2), spans) == ScanFrom(t, d, q, None, Some(p + 2), spans);
    assert ScanFrom(t, d, q, None, Some(p + 2), spans) == ScanFrom(t, d, q + 1, None, Some(p + 2), spans);
    assert Skip(t, q + 1, '}') == q + 2;
  }

  /** Braces inside a quoted string within an expression are part of the
      expression: `{{'…'}}` is one span whatever the quotes enclose. */
  lemma QuotedBracesIgnored(d: Dialect, p: string, c: char, inner: string, b: string)
    requires NoBraces(p) && NoBraces(b) && IsQuote(c)
    requires forall k | 0 <= k < |inner| :: inner[k] != c && inner[k] != '\\'
    ensures Scan(p + "{{" + [c] + inner + [c] + "}}" + b, d) == Ok([Span(|p| + 2, |p| + 4 + |inner|)])
  {
    var s := p + "{{" + [c] + inner + [c] + "}}" + b;
    var n := |p|;
    var q := n + 4 + |inner|;
    assert forall k | 0 <= k < n :: s[k] == p[k];
    assert forall k | n + 3 <= k < q - 1 :: s[k] == inner[k - n - 3];
    assert forall k | q + 2 <= k < |s| :: s[k] == b[k - q - 2];
    ClosedRun(s, d, 0, n, []);
    ScanQuoted(s, d, n, q, c, []);
    assert [] + [Span(n + 2, q)] == [Span(n + 2, q)];
    ClosedRun(s, d, q + 2, |s|, [Span(n + 2, q)]);
  }

  /** `{{` that is never closed is reported at its own index. */
  lemma UnclosedReported(d: Dialect, p: string, e: string)
    requires NoBraces(p)
    requires forall k | 0 <= k < |e| :: Plain(e[k])
    ensures Scan(p + "{{" + e, d) == Err(Unclosed(|p|))
  {
    var s := p + "{{" + e;
    var n := |p|;
    assert forall k | 0 <= k < n :: s[k] == p[k];
    assert forall k | n + 2 <= k < |s| :: s[k] == e[k - n - 2];
    ClosedRun(s, d, 0, n, []);
    assert ScanFrom(s, d, n, None, None, []) == ScanFrom(s, d, n + 1, None, None, []);
    assert ScanFrom(s, d, n + 1, None, None, []) == ScanFrom(s, d, n + 2, None, Some(n + 2), []);
    OpenRun(s, d, n + 2, |s|, n + 2, []);
  }

  /** `{{` met while an expression is open is reported at its own index,
      together with the index of the `{{` that opened the expression. */
  lemma NestedReported(d: Dialect, p: string, e: string, rest: string)
    requires NoBraces(p)
    requires forall k | 0 <= k < |e| :: Plain(e[k])
    ensures Scan(p + "{{" + e + "{{" + rest, d) == Err(NestedOpen(|p| + 2 + |e|, |p|))
  {
    var s := p + "{{" + e + "{{" + rest;
    var n, m := |p|, |p| + 2 + |e|;
    assert forall k | 0 <= k < n :: s[k] == p[k];
    assert forall k | n + 2 <= k < m :: s[k] == e[k - n - 2];
    assert s[m] == '{' && s[m + 1] == '{';
    ClosedRun(s, d, 0, n, []);
    assert ScanFrom(s, d, n, None, None, []) == ScanFrom(s, d, n + 1, None, None, []);
    if e == [] {
      // `{{{{`: the third brace is skipped, and the fourth is the nested pair
      assert ScanFrom(s, d, n + 1, None, None, []) == ScanFrom(s, d, n + 3, None, Some(n + 2), []);
    } else {
      assert ScanFrom(s, d, n + 1, None, None, []) == ScanFrom(s, d, n + 2, None, Some(n + 2), []);
      OpenRun(s, d, n + 2, m, n + 2, []);
      assert ScanFrom(s, d, m, None, Some(n + 2), []) == ScanFrom(s, d, m + 1, None, Some(n + 2), []);
    }
  }

  /** `}}` with no expression open is reported at its own index. */
  lemma StrayCloseReported(d: Dialect, p: string, rest: string)
    requires NoBraces(p)
    ensures Scan(p + "}}" + rest, d) == Err(StrayClose(|p|))
  {
    var s := p + "}}" + rest;
    var n := |p|;
    assert forall k | 0 <= k < n :: s[k] == p[k];
    assert s[n] == '}' && s[n + 1] == '}';
    ClosedRun(s, d, 0, n, []);
    assert ScanFrom(s, d, n, None, None, []) == ScanFrom(s, d, n + 1, None, None, []);
  }

  /** The two ways of testing for an open expression agree, because an open
      expression never starts at index 0. */
  lemma {:induction false} DialectsAgreeFrom(input: string, i: nat, quote: Option<char>, open: Option<nat>, spans: seq<Span>)
    requires Bounded(input, i, open)
    ensures ScanFrom(input, TruthyStart, i, quote, open, spans) == ScanFrom(input, NotNullStart, i, quote, open, spans)
    decreases |input| + 1 - i
  {
    assert IsOpen(TruthyStart, open) == IsOpen(NotNullStart, open);
    if i < |input| {
      var c := input[i];
      var next := if open.Some? && c == '\\' then i + 2 else i + 1;
      if open.Some? && IsQuote(c) {
        var quote' := if quote.None? then Some(c) else if quote == Some(c) then None else quote;
        DialectsAgreeFrom(input, next, quote', open, spans);
      } else if quote.None? && c == '{' && i > 0 && input[i - 1] == '{' {
        if open.None? {
          DialectsAgreeFrom(input, Skip(input, i, '{'), quote, Some(i + 1), spans);
        }
      } else if quote.None? && c == '}' && i > 0 && input[i - 1] == '}' {
        if open.Some? {
          DialectsAgreeFrom(input, Skip(input, i, '}'), quote, None, spans + [Span(open.value, i - 1)]);
        }
      } else {
        DialectsAgreeFrom(input, next, quote, open, spans);
      }
    }
  }

  /** The synchronous and asynchronous scans find the same spans and throw
      the same errors. */
  lemma DialectsAgree(input: string)
    ensures Scan(input, TruthyStart) == Scan(input, NotNullStart)
  {
    DialectsAgreeFrom(input, 0, None, None, []);
  }

  /** Text with no braces at all is scanned without finding anything. */
  lemma {:induction false} BraceFreeFrom(input: string, d: Dialect, i: nat, spans: seq<Span>)
    requires i <= |input| + 1
    requires forall k | 0 <= k < |input| :: input[k] != '{' && input[k] != '}'
    ensures ScanFrom(input, d, i, None, None, spans) == Ok(spans)
    decreases |input| + 1 - i
  {
    if i < |input| {
      BraceFreeFrom(input, d, i + 1, spans);
    }
  }

  lemma BraceFree(input: string, d: Dialect)
    requires NoBraces(input)
    ensures Scan(input, d) == Ok([])
  {
    BraceFreeFrom(input, d, 0, []);
  }
}
