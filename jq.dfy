/** The wrapper around the native jq binding: the filter is pre-processed
    (loose single quotes become double quotes, and unless the environment is
    enabled a preamble hides it), the native call is made, and any exception
    becomes `null`. */
module Jq {
  import opened JsValue

  /** What the native binding does with `(JSON.stringify(root), filter)`:
      returns an object whose `value` is the jq result, or throws. */
  datatype Native = Returned(value: Value) | Threw(message: string)

  /** The native binding, with the serialisation of the root folded in. */
  type NativeExec = (Value, string) -> Native

  /** Prefixed to the filter unless `enableEnv` is set: `env` and `$ENV` both
      see an empty object. */
  const EnvPreamble: string := "def env: {}; {} as $ENV | "

  /** The negative lookbehind `(?<!\s|")` at position p. */
  predicate LookbehindOk(s: string, p: nat)
    requires p <= |s|
  {
    p == 0 || !(IsSpace(s[p - 1]) || s[p - 1] == '"')
  }

  /** The negative lookahead `(?!\s|")` at position p. */
  predicate LookaheadOk(s: string, p: nat)
  {
    p >= |s| || !(IsSpace(s[p]) || s[p] == '"')
  }

  /** A match of the quote pattern: its length and the text of its two groups. */
  datatype QuoteMatch = QuoteMatch(length: nat, group1: string, group2: string)

  /** The match of `(^|\s)'(?!\s|")|(?<!\s|")'(\s|$)` that starts exactly at p,
      if any, trying the alternatives in the order the regular expression does. */
  function MatchAt(s: string, p: nat): (m: Option<QuoteMatch>)
    requires p < |s|
    ensures m.Some? ==> 1 <= m.value.length && p + m.value.length <= |s|
  {
    // first alternative, `^` before `\s`
    if p == 0 && s[p] == '\'' && LookaheadOk(s, p + 1) then Some(QuoteMatch(1, "", ""))
    else if IsSpace(s[p]) && p + 1 < |s| && s[p + 1] == '\'' && LookaheadOk(s, p + 2) then
      Some(QuoteMatch(2, [s[p]], ""))
    // second alternative, `\s` before `$`
    else if s[p] == '\'' && LookbehindOk(s, p) && p + 1 < |s| && IsSpace(s[p + 1]) then
      Some(QuoteMatch(2, "", [s[p + 1]]))
    else if s[p] == '\'' && LookbehindOk(s, p) && p + 1 == |s| then Some(QuoteMatch(1, "", ""))
    else None
  }

  /** `s.replace(/…/g, '$1"$2')` from position p on: a global replace resumes
      after the end of each match, so a character a match consumed is never
      the start of another, while the lookbehind still reads the original. */
  function ReplaceFrom(s: string, p: nat): (r: string)
    requires p <= |s|
    ensures |r| == |s| - p
    decreases |s| - p
  {
    if p == |s| then []
    else match MatchAt(s, p)
      case Some(m) => m.group1 + "\"" + m.group2 + ReplaceFrom(s, p + m.length)
      case None => [s[p]] + ReplaceFrom(s, p + 1)
  }

  /** The quote normalisation of `formatFilter`. */
  function NormalizeQuotes(s: string): (r: string)
    ensures |r| == |s|
  {
    ReplaceFrom(s, 0)
  }

  /** s[j] is white space that a match of `'\s` starting at j - 1 consumed. */
  predicate ConsumedSpace(s: string, j: nat)
    requires j < |s|
  {
    1 <= j && s[j - 1] == '\'' && LookbehindOk(s, j - 1) && IsSpace(s[j])
  }

  /** Position p lies inside a two-character match that started at p - 1, so
      the global replace never tries to match at p. */
  predicate InsideMatch(s: string, p: nat)
    requires p < |s|
  {
    || ConsumedSpace(s, p)
    || (1 <= p && IsSpace(s[p - 1]) && s[p] == '\'' && LookaheadOk(s, p + 1) && !ConsumedSpace(s, p - 1))
  }

  /** Which single quotes the replace rewrites, stated without the scan: an
      opening quote (at the start, or after white space that the previous
      match did not consume, and not followed by white space or `"`), or a
      closing quote (not after white space or `"`, and followed by white space
      or the end). */
  predicate Rewritten(s: string, k: nat)
    requires k < |s|
  {
    && s[k] == '\''
    && (|| (k == 0 && LookaheadOk(s, 1))
        || (1 <= k && IsSpace(s[k - 1]) && !ConsumedSpace(s, k - 1) && LookaheadOk(s, k + 1))
        || (LookbehindOk(s, k) && (k + 1 == |s| || IsSpace(s[k + 1]))))
  }

  /** The character the normalisation puts at position k. */
  function NormalizedAt(s: string, k: nat): char
    requires k < |s|
  {
    if Rewritten(s, k) then '"' else s[k]
  }

  /** No match at a position the scan reaches: the character is not one that
      is rewritten, and the scan reaches the next position. */
  lemma NoMatchStep(s: string, p: nat)
    requires p < |s| && !InsideMatch(s, p) && MatchAt(s, p).None?
    ensures !Rewritten(s, p)
    ensures p + 1 < |s| ==> !InsideMatch(s, p + 1)
  {
  }

  /** A one-character match is a rewritten quote, and the scan reaches the
      next position. */
  lemma ShortMatchStep(s: string, p: nat)
    requires p < |s| && !InsideMatch(s, p)
    requires MatchAt(s, p).Some? && MatchAt(s, p).value.length == 1
    ensures MatchAt(s, p).value == QuoteMatch(1, "", "")
    ensures Rewritten(s, p)
    ensures p + 1 < |s| ==> !InsideMatch(s, p + 1)
  {
  }

  /** A two-character match: white space then a rewritten opening quote, or a
      rewritten closing quote then white space; the scan skips to p + 2. */
  lemma LongMatchStep(s: string, p: nat)
    requires p < |s| && !InsideMatch(s, p)
    requires MatchAt(s, p).Some? && MatchAt(s, p).value.length == 2
    ensures var m := MatchAt(s, p).value;
      || (m == QuoteMatch(2, [s[p]], "") && !Rewritten(s, p) && Rewritten(s, p + 1))
      || (m == QuoteMatch(2, "", [s[p + 1]]) && Rewritten(s, p) && !Rewritten(s, p + 1))
    ensures p + 2 < |s| ==> !InsideMatch(s, p + 2)
  {
    if !IsSpace(s[p]) {
      assert ConsumedSpace(s, p + 1);
    }
  }

  /** The scan from a position it reaches agrees, character by character,
      with the closed-form description. */
  lemma {:induction false} ReplaceFromAt(s: string, p: nat)
    requires p <= |s|
    requires p < |s| ==> !InsideMatch(s, p)
    ensures forall k | p <= k < |s| :: ReplaceFrom(s, p)[k - p] == NormalizedAt(s, k)
    decreases |s| - p
  {
    if p < |s| {
      var r := ReplaceFrom(s, p);
      match MatchAt(s, p)
      case None =>
        NoMatchStep(s, p);
        ReplaceFromAt(s, p + 1);
      case Some(m) =>
        if m.length == 1 {
          ShortMatchStep(s, p);
          ReplaceFromAt(s, p + 1);
        } else {
          LongMatchStep(s, p);
          ReplaceFromAt(s, p + 2);
        }
    }
  }

  /** The normalisation keeps the length and changes only the single quotes
      that `Rewritten` picks out, each into a double quote. */
  lemma NormalizeQuotesAt(s: string)
    ensures |NormalizeQuotes(s)| == |s|
    ensures forall k | 0 <= k < |s| :: NormalizeQuotes(s)[k] == NormalizedAt(s, k)
  {
    if 0 < |s| {
      assert !InsideMatch(s, 0);
    }
    ReplaceFromAt(s, 0);
  }

  /** Only single quotes change, and only into double quotes. */
  lemma NormalizeOnlyQuotes(s: string, k: nat)
    requires k < |s|
    ensures |NormalizeQuotes(s)| == |s|
    ensures NormalizeQuotes(s)[k] == s[k] || (s[k] == '\'' && NormalizeQuotes(s)[k] == '"')
  {
    NormalizeQuotesAt(s);
  }

  /** A quote that opens a string is rewritten: at the start, or after white
      space not taken by the previous match, and followed by neither white
      space nor `"`. */
  lemma OpeningQuoteRewritten(s: string, k: nat)
    requires k < |s| && s[k] == '\''
    requires k == 0 || (IsSpace(s[k - 1]) && !ConsumedSpace(s, k - 1))
    requires LookaheadOk(s, k + 1)
    ensures NormalizeQuotes(s)[k] == '"'
  {
    NormalizeQuotesAt(s);
  }

  /** A quote that closes a string is rewritten: not after white space or `"`,
      and followed by white space or the end. */
  lemma ClosingQuoteRewritten(s: string, k: nat)
    requires k < |s| && s[k] == '\''
    requires LookbehindOk(s, k)
    requires k + 1 == |s| || IsSpace(s[k + 1])
    ensures NormalizeQuotes(s)[k] == '"'
  {
    NormalizeQuotesAt(s);
  }

  /** A quote inside a word, with no white space on either side, stays. */
  lemma MidWordQuoteKept(s: string, k: nat)
    requires 0 < k && k + 1 < |s| && s[k] == '\''
    requires !IsSpace(s[k - 1]) && !IsSpace(s[k + 1])
    ensures NormalizeQuotes(s)[k] == '\''
  {
    NormalizeQuotesAt(s);
  }

  /** In `'a' 'b'` the space after the first closing quote is consumed by its
      match, so the opening quote of the second string is left alone. */
  lemma AdjacentStringsKeepSecondOpeningQuote()
    ensures NormalizeQuotes("'a' 'b'") == "\"a\" 'b\""
  {
    var s := "'a' 'b'";
    NormalizeQuotesAt(s);
    assert ConsumedSpace(s, 3);
    assert !Rewritten(s, 4);
    assert Rewritten(s, 0) && Rewritten(s, 2) && Rewritten(s, 6);
  }

  /** `formatFilter(filter, {enableEnv})`: the normalised filter, after the
      preamble unless the environment is enabled. */
  function FormatFilter(filter: string, enableEnv: bool): (r: string)
    ensures |r| == |filter| + (if enableEnv then 0 else |EnvPreamble|)
    ensures r[..|r| - |filter|] == (if enableEnv then "" else EnvPreamble)
    ensures forall k | 0 <= k < |filter| :: r[|r| - |filter| + k] == NormalizedAt(filter, k)
  {
    NormalizeQuotesAt(filter);
    var body := NormalizeQuotes(filter);
    if enableEnv then body else EnvPreamble + body
  }

  /** `exec(root, filter, {enableEnv})`: the native result's value, or `null`
      whenever anything throws, including `formatFilter` on a filter that is
      not a string. */
  function Exec(native: NativeExec, root: Value, filter: Value, enableEnv: bool): (r: Value)
    ensures !filter.Str? ==> r == Null
    ensures filter.Str? && native(root, FormatFilter(filter.s, enableEnv)).Threw? ==> r == Null
    ensures filter.Str? && native(root, FormatFilter(filter.s, enableEnv)).Returned? ==>
              r == native(root, FormatFilter(filter.s, enableEnv)).value
  {
    if !filter.Str? then Null
    else
      match native(root, FormatFilter(filter.s, enableEnv))
      case Returned(v) => v
      case Threw(_) => Null
  }
}
