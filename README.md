# jq-node-bindings templating, modelled in Dafny

jq-node-bindings lets a JavaScript program run jq filters on JSON values and
render templates: JSON-shaped values whose strings contain `{{ … }}` jq
expressions. This project models the JavaScript layer of the library:

- `lib/jq.js`: `formatFilter` and `exec`. `formatFilter` rewrites loose single
  quotes into double quotes, using one global regular-expression replace. It
  also prefixes an env-hiding preamble unless `enableEnv` is set. `exec` turns
  any exception into `null`. The native jq call is kept abstract.
- `lib/template.js`: the synchronous renderer.
  - `findInsideDoubleBracesIndices` is the brace scanner.
  - `render` handles one template string.
  - `renderRecursively` walks strings, arrays and objects. Objects have spread
    keys (`{{ spreadValue() }}`), keys that render to nothing, and keys that
    render to a non-string.
- `lib/templateAsync.js`: the asynchronous renderer. Every `await` finishes
  before the next one starts, so it is modelled as sequential code. It has
  its own copy of the scanner and of the string renderer. Its structural
  renderer fills a pre-sized array with `push` and builds objects by
  assignment, using `??=`.

Modules, one file each:

| file | module | models |
|---|---|---|
| js_value.dfy | `JsValue` | JavaScript values and the built-ins the code relies on: `typeof`, truthiness, `\s` and `trim`, property reads and assignment, `Object.entries`, `Object.fromEntries`, string conversion, decimal printing |
| jq.dfy | `Jq` | `formatFilter` (the quote rewrite as an explicit scan that reproduces a global, non-overlapping regex replace) and `exec` |
| brace_scanner.dfy | `BraceScanner` | `findInsideDoubleBracesIndices`, both copies: the sync copy tests the open index for truthiness, the async copy compares it with `null` |
| spread_key.dfy | `SpreadKey` | the spread-key pattern `^\s*\{\{\s*spreadValue\(\s*\)\s*\}\}\s*$` |
| string_render.dfy | `StringRender` | the three branches shared by `render` and `renderAsync`, and the error messages |
| template.dfy | `Template` | `render` and `renderRecursively` |
| template_async.dfy | `TemplateAsync` | `renderAsync` and `renderRecursivelyAsync` |
| scenarios.dfy | `Scenarios` | the templates of the renderers' test suites worked through the model: the malformed ones with their exact messages, the key and spread errors with their messages, escaped quotes, quotes outside an expression |

How the source's forms are kept:

- The scanner and the two string renderers are loops in the source. Here they
  are methods with loops: `FindSpans`, `Splice`, `Render` and `RenderAsync`.
  Each is proved equal to a specification function (`Scan` and `Interleave`
  are recursive; `Rendered` and `RenderedAsync` select a branch and call
  `RenderedString`), and the properties are proved about those functions.
- `renderRecursivelyAsync` is also a method. It has its `push` loop. For an
  object it calls `RenderObjectAsync`, which holds the `for…of` loop over the
  entries with the spread, the key check and `??=` in its body, and the inner
  loop that copies the spread entries. Both are proved equal to
  `RenderedRecursivelyAsync`.
- The synchronous `renderRecursively` is written with `map`, `flatMap` and
  `Object.fromEntries`, so it is modelled as functions.

Values:

- Objects are entry lists in insertion order.
- `Undefined` also stands for jq's `empty` and for array holes.
- A thrown error is the `Err` case of a `Result`, and `:-` propagates it the
  way a throw does.

The native jq engine, `JSON.stringify`, and the async library's `execAsync`
are parameters. `execAsync` is not defined in `lib/jq.js`.

Where the code and its tests disagree, the model follows the code:

- `test/template.test.js` builds spread keys from `tempSpreadKeyword()`. The
  code matches only the keyword `spreadValue` (`lib/template.js:96`).
- `test/template-async.test.js` expects an array of n elements to render to n
  elements. The code's `new Array(n)` followed by `push` gives n holes and then
  the n rendered elements. `TemplateAsync.ArrayLayout` states this.
- The tests pass a `throwOnError` option. The shown `exec` ignores it and
  returns `null` on every error.

## Model

| member | source | states |
|---|---|---|
| JsValue.TrimStart | lib/template.js:65 | `trimStart` removes exactly the leading run of white space: the result is a suffix that starts with a non-space character, and everything removed is white space |
| JsValue.TrimEnd | lib/template.js:65 | `trimEnd` removes exactly the trailing run of white space |
| JsValue.TrimAround | lib/template.js:65 | trimming white space around a core that starts and ends with non-space characters gives back that core |
| JsValue.TrimKeepsLast | lib/template.js:65 | a string ending in a non-space character keeps that character last after `trim` |
| JsValue.NatToDecimal | lib/template.js:25 | the decimal text of an index is non-empty digits without a leading zero, and it denotes the index |
| JsValue.NatToDecimalInjective | lib/template.js:25 | different indices print differently |
| JsValue.Lookup | lib/templateAsync.js:49 | reading a property finds nothing exactly when the object has no such key; what it finds is the value of the first entry with that key |
| JsValue.Put | lib/templateAsync.js:37 | `obj[k] = v`: k then reads v and every other key reads as before; the keys stay unique; a new key is appended and an existing one keeps its place |
| JsValue.FromEntries | lib/template.js:94 | `Object.fromEntries` gives each key once, holding the value of its last entry |
| JsValue.FromEntriesOfUnique | lib/template.js:94 | `Object.fromEntries` of entries with distinct keys gives them back unchanged |
| JsValue.OwnEntries | lib/template.js:106 | `Object.entries` of an object gives its entries in order; of an array, one entry per element, keyed by the decimal index |
| Jq.MatchAt | lib/jq.js:5 | a match of the quote pattern is one or two characters inside the string |
| Jq.ReplaceFrom | lib/jq.js:5 | the global replace from a position produces exactly as many characters as remain |
| Jq.NormalizeQuotes | lib/jq.js:5 | the quote rewrite keeps the filter's length |
| Jq.NoMatchStep | lib/jq.js:5 | where the pattern does not match, the character is not one the rewrite changes |
| Jq.ShortMatchStep | lib/jq.js:5 | a one-character match is a quote that the rewrite changes |
| Jq.LongMatchStep | lib/jq.js:5 | a two-character match is white space then a rewritten opening quote, or a rewritten closing quote then white space; the replace resumes after both characters |
| Jq.ReplaceFromAt | lib/jq.js:5 | from any position the replace reaches, each output character is the one given by the closed-form description `Rewritten` |
| Jq.NormalizeQuotesAt | lib/jq.js:5 | the whole rewrite agrees character by character with `Rewritten`, which is independent of the scan |
| Jq.NormalizeOnlyQuotes | lib/jq.js:5 | only single quotes change, and only into double quotes |
| Jq.OpeningQuoteRewritten | lib/jq.js:5 | a quote at the start, or after white space that no match consumed, and not followed by white space or `"`, becomes `"` |
| Jq.ClosingQuoteRewritten | lib/jq.js:5 | a quote not after white space or `"`, and followed by white space or the end, becomes `"` |
| Jq.MidWordQuoteKept | lib/jq.js:5 | a quote with no white space on either side is kept |
| Jq.AdjacentStringsKeepSecondOpeningQuote | lib/jq.js:5 | `'a' 'b'` becomes `"a" 'b"`: the first match consumes the space, so the second opening quote is not rewritten |
| Jq.FormatFilter | lib/jq.js:3-8 | the filter comes out rewritten and preceded by the env preamble exactly when `enableEnv` is false |
| Jq.Exec | lib/jq.js:9-17 | `exec` returns the native result's value, and `null` when the native call throws or the filter is not a string |
| BraceScanner.KindChar | lib/template.js:25-48 | each error kind has its own seventh character in the message text: 'd' for nested, 'c' for a stray closing and 'o' for an unclosed brace pair |
| BraceScanner.MessageKind | lib/template.js:25-48 | two errors with the same message are of the same kind |
| BraceScanner.MessageInjective | lib/template.js:25-48 | different errors have different messages, so the kind and every reported index can be read back from the text |
| BraceScanner.FramedAdvance | lib/template.js:8-45 | moving past a character that is not a delimiter keeps the scan invariant |
| BraceScanner.FramedOpen | lib/template.js:22-31 | opening an expression at `{{` keeps the scan invariant |
| BraceScanner.FramedClose | lib/template.js:32-40 | closing an expression at `}}` adds a span framed by braces that starts after the previous span |
| BraceScanner.Message | lib/template.js:25-48 | every error message is longer than 40 characters (the messages are distinguished by BraceScanner.MessageInjective) |
| BraceScanner.ScanFrom | lib/template.js:8-49 | a successful scan from any state keeps the spans already found as a prefix |
| BraceScanner.ScanFromSound | lib/template.js:8-49 | the scan only adds spans; every span is framed by `{{` and `}}`, in order and not overlapping; every error points at real delimiters |
| BraceScanner.Scan | lib/template.js:3-52 | the spans found are well formed, and an error reports the positions of real delimiters |
| BraceScanner.FindSpans | lib/template.js:3-52 | the scanning loop returns exactly what `Scan` specifies |
| BraceScanner.ClosedRun | lib/template.js:22-44 | outside an expression, characters other than braces change nothing |
| BraceScanner.OpenRun | lib/template.js:8-45 | inside an expression, characters other than braces, quotes and backslashes change nothing |
| BraceScanner.EscapeSkips | lib/template.js:11-14 | inside an expression, a backslash skips the next character |
| BraceScanner.QuotedRun | lib/template.js:15-22 | inside a quoted string within an expression, everything up to the closing quote or a backslash is passed over, braces included |
| BraceScanner.ScanQuoted | lib/template.js:15-40 | an expression holding one quoted string is one span, whatever the quotes enclose |
| BraceScanner.QuotedBracesIgnored | lib/template.js:15-40 | braces inside quotes inside `{{ }}` neither open nor close an expression |
| BraceScanner.UnclosedReported | lib/template.js:47-49 | a `{{` that is never closed is reported at its own index |
| BraceScanner.NestedReported | lib/template.js:22-26 | a `{{` inside an open expression is reported at its index, together with the index of the outer `{{` |
| BraceScanner.StrayCloseReported | lib/template.js:32-43 | a `}}` with no expression open is reported at its own index |
| BraceScanner.DialectsAgreeFrom | lib/templateAsync.js:98-143 | the truthiness test and the `!== null` test give the same scan from any state |
| BraceScanner.DialectsAgree | lib/templateAsync.js:93-146 | the sync and async copies of the scanner give the same spans and the same errors on every input |
| BraceScanner.BraceFreeFrom | lib/template.js:8-45 | text without braces adds no spans and throws nothing |
| BraceScanner.BraceFree | lib/template.js:3-52 | a string without braces has no expressions |
| SpreadKey.ExpectAfterSpaces | lib/template.js:97 | white space followed by a token is consumed by matching that token |
| SpreadKey.ExpectSplit | lib/template.js:97 | what matching a token consumes is white space and then the token |
| SpreadKey.MatchTokensAccepts | lib/template.js:97-99 | the tokens with any runs of white space around them are matched |
| SpreadKey.MatchTokensSplit | lib/template.js:97-99 | only the tokens with runs of white space around them are matched |
| SpreadKey.SpreadKeyShape | lib/templateAsync.js:10 | a key is a spread key exactly when it is `{{`, `spreadValue(`, `)` and `}}` with white space before, between and after them |
| SpreadKey.IsSpreadKey | lib/templateAsync.js:10 | a key that matches the spread pattern starts, after white space, with `{{` |
| SpreadKey.SpreadKeyHasBrace | lib/template.js:97 | every spread key contains `{` |
| StringRender.SubstitutionText | lib/template.js:75 | a string value is spliced as it is; any other value as its `JSON.stringify` text, with `undefined` as the text "undefined" |
| StringRender.Substitutions | lib/template.js:71-75 | there is one substitution per span, and the i-th is the substitution text of the evaluator's result on the i-th span's source |
| StringRender.ErrorMessage | lib/template.js:25-48 | a scanner error is thrown with exactly the scanner's message |
| StringRender.RenderedString | lib/template.js:56-84 | rendering a string throws exactly when the scan throws, and then with the scan's error |
| StringRender.TypedOnlyWhenWhole | lib/template.js:64-68 | a rendered string yields a value that is not a string only when the scan found one span and the trimmed template starts with `{{` and ends with `}}` |
| StringRender.Splice | lib/template.js:70-83 | the `result +=` loop builds the prefix, then each substitution followed by the text up to the next `{{` |
| StringRender.InterleaveOriginal | lib/template.js:70-81 | splicing every expression's own source text over the first n spans gives back the template up to the next expression |
| StringRender.SpliceOriginal | lib/template.js:70-83 | splicing every expression's own source text gives back the whole template, so the literal text is kept in order |
| StringRender.TextWithoutBraces | lib/template.js:58-62 | a string without braces renders to itself |
| StringRender.ScanExpression | lib/template.js:22-40 | `{{`, plain characters and `}}` make exactly one span |
| StringRender.ScanSingle | lib/template.js:3-52 | a template with one expression between brace-free texts scans to that single span |
| StringRender.ScanOne | lib/template.js:3-52 | text, `{{e}}` and text scan to the one span of e |
| StringRender.RenderWhole | lib/template.js:64-68 | a single expression that makes up the whole trimmed string renders to the expression's value, whatever its type |
| StringRender.RenderEmbedded | lib/template.js:70-83 | a single expression with other text around it renders to a string with the value spliced in |
| StringRender.WholeBetweenSpaces | lib/template.js:65 | white space, `{{e}}`, white space counts as a whole expression |
| StringRender.SingleExpression | lib/template.js:64-68 | a template of one expression with white space around it renders to the evaluator's result |
| StringRender.EmbeddedExpression | lib/template.js:70-83 | a template of text, one expression and text that ends in a non-space character renders to the text with the substitution in place |
| StringRender.DialectsRenderAlike | lib/templateAsync.js:59-91 | `render` and `renderAsync` treat every template string alike, given the same evaluator |
| Template.Render | lib/template.js:54-84 | `render` gives `null` for a non-string; otherwise the string, the single whole expression's value, or the spliced string |
| Template.Rendered | lib/template.js:54-56 | `render` of a value that is not a string gives `null`, and `render` only ever throws a scanner error |
| Template.RenderEntry | lib/template.js:94-116 | an entry whose key is not a spread key contributes at most one entry, and never one with an empty key |
| Template.RenderRecursively | lib/template.js:86-121 | a rendered array has as many elements as the template; a rendered object has each key once |
| Template.RenderItems | lib/template.js:90-92 | `map` keeps the number of elements |
| Template.ArrayElementwise | lib/template.js:90-92 | an array renders exactly when every element does, with each element's rendering at its index; a failure is the first failing element's error |
| Template.EntriesConcat | lib/template.js:94-117 | `flatMap` over two runs of entries renders the first run, then the second, and concatenates them |
| Template.LaterEntryWins | lib/template.js:94-117 | every key of a rendered object holds the value of the last entry with that key, spread entries included |
| Template.FalsyKeyDropped | lib/template.js:109-115 | a key that renders to `undefined`, `null` or `""` drops its entry without rendering its value |
| Template.KeyTypeError | lib/template.js:109-114 | a key that renders to a number, a boolean, an array or an object throws the key error, whatever the value |
| Template.KeyKept | lib/template.js:109-115 | a key that renders to a non-empty string keeps the entry under that string, with the rendered value or its error |
| Template.SpreadSpliced | lib/template.js:99-106 | a spread key is replaced by the entries of its rendered object or array |
| Template.SpreadRejected | lib/template.js:99-106 | a spread value that renders to a non-object throws the spread error, and `null` makes `Object.entries` throw |
| Template.LiteralUnchanged | lib/template.js:86-121 | a template without braces renders to itself |
| Template.LiteralItemsUnchanged | lib/template.js:90-92 | an array of brace-free elements renders to itself |
| Template.LiteralEntriesUnchanged | lib/template.js:94-116 | entries with non-empty brace-free keys and brace-free values render to themselves |
| TemplateAsync.RenderedAsync | lib/templateAsync.js:59-91 | `renderAsync` only ever throws a scanner error |
| TemplateAsync.RenderAsync | lib/templateAsync.js:59-91 | `renderAsync` gives the string, the single whole expression's value, or the spliced string |
| TemplateAsync.Holes | lib/templateAsync.js:18 | `new Array(n)` has n empty slots |
| TemplateAsync.RenderRecursivelyAsync | lib/templateAsync.js:12-57 | the recursive renderer with its `push` and entry loops returns exactly what `RenderedRecursivelyAsync` specifies |
| TemplateAsync.RenderObjectAsync | lib/templateAsync.js:25-54 | the entry loop, with the spread check, the spread copy, the key check and `??=` in its body, returns exactly what `RenderedRecursivelyAsync` specifies for the object |
| TemplateAsync.SpreadStep | lib/templateAsync.js:29-39 | an entry whose key is not a spread key leaves the result as it is before key rendering |
| TemplateAsync.KeyStep | lib/templateAsync.js:41-50 | the key part of the loop body loses no key and adds at most one entry |
| TemplateAsync.AssignOwn | lib/templateAsync.js:36-38 | the loop assigning the spread value's entries one after another |
| TemplateAsync.PushAllSucceeds | lib/templateAsync.js:19-21 | the `push` loop succeeds exactly when every element renders |
| TemplateAsync.PushAllShape | lib/templateAsync.js:19-21 | the `push` loop keeps what the array already holds and appends each element's rendering in order |
| TemplateAsync.ArrayLayout | lib/templateAsync.js:17-23 | an array of n elements renders to 2n elements: n empty slots, then the n renderings in order |
| TemplateAsync.AssignAllLookup | lib/templateAsync.js:36-38 | after the assignments, each key holds the value of its last entry, other keys are unchanged, and keys stay unique |
| TemplateAsync.AssignFieldUnique | lib/templateAsync.js:28-51 | one pass of the entry loop keeps the result's keys unique |
| TemplateAsync.AssignFieldsUnique | lib/templateAsync.js:28-51 | the entry loop keeps the result's keys unique |
| TemplateAsync.ObjectKeysUnique | lib/templateAsync.js:25-54 | a rendered object has each key once |
| TemplateAsync.SpreadFallsThrough | lib/templateAsync.js:29-41 | a spread value that renders to an object or array has its entries assigned, with the last one winning per key; the spread key itself then goes through ordinary key rendering |
| TemplateAsync.SpreadRejected | lib/templateAsync.js:29-35 | a spread value that renders to `null` or a non-object throws the spread error |
| TemplateAsync.PlainKey | lib/templateAsync.js:29-41 | a key that is not a spread key goes straight to key rendering |
| TemplateAsync.AssignedValueKept | lib/templateAsync.js:26-49 | `??=` keeps an existing non-nullish value, and does nothing for a name that `{}` inherits from `Object.prototype` (`constructor`, `toString`, …); either way it never renders the entry's value |
| TemplateAsync.NullishAssigned | lib/templateAsync.js:48-50 | otherwise (a missing property that is not an inherited name, or a `null` or `undefined` one) the rendered value, or its error, is assigned |
| TemplateAsync.InheritedKeyIgnored | lib/templateAsync.js:26-50 | an entry whose brace-free key is an inherited `Object.prototype` name not yet assigned adds nothing, whatever its value |
| TemplateAsync.FalsyKeyIgnored | lib/templateAsync.js:48-50 | a key that renders to `undefined`, `null` or `""` adds nothing, and its value is not rendered |
| TemplateAsync.KeyTypeError | lib/templateAsync.js:41-46 | a key that renders to something other than `null`, `undefined` or a string throws the key error |
| TemplateAsync.LiteralUnchanged | lib/templateAsync.js:12-57 | a template without braces, arrays or inherited `Object.prototype` names as keys renders to itself |
| TemplateAsync.NewEntryAppended | lib/templateAsync.js:41-50 | an entry with a new brace-free key that is not an inherited name, whose value renders to itself, is appended as it is |
| TemplateAsync.LiteralFieldsUnchanged | lib/templateAsync.js:28-51 | brace-free entries with new, distinct keys that are not inherited names are appended in order |
| TemplateAsync.LiteralArrayDoubled | lib/templateAsync.js:17-23 | an array of brace-free, array-free elements without inherited names as keys comes back with as many empty slots in front of its elements |
| Scenarios.UnclosedAtSix | test/template.test.js:89 | `prefix{{.foo}postfix` fails with the unclosed-braces error at index 6, whose message is exactly the one the test expects, in either scanner copy |
| Scenarios.StrayAtEleven | test/template.test.js:90 | `prefix{.foo}}postfix` fails with the stray-close error at index 11 and its exact message |
| Scenarios.NestedAtFourteen | test/template.test.js:91 | `prefix{{ .foo {{ }}postfix` fails with the nested-braces error for index 14 inside index 6 and its exact message |
| Scenarios.StrayAtSeventeen | test/template.test.js:92-93 | `prefix{{ .foo }} }}postfix` fails with the stray-close error at index 17 and its exact message |
| Scenarios.QuotedBracesThenStray | test/template.test.js:94-95 | with `"` or `'` quoting the inner `{{`, the expression closes at 21 and the `}}` at index 24 is reported stray, with its exact message |
| Scenarios.EscapedQuotesScan | test/template.test.js:152 | in `{{"\"foo\""}}` the escaped quotes neither end the quoted text nor hide the closing braces: one span, from 2 to 11 |
| Scenarios.EscapedQuotesRender | test/template.test.js:152 | that template is one whole expression, so it renders to the value of `"\"foo\""` with its own type |
| Scenarios.KeyErrorRender | test/template.test.js:96-97 | a key `{{e}}` whose expression gives a number or a boolean throws the key error with that key and value, whatever the entry's value |
| Scenarios.KeyErrorMessage | lib/template.js:110-113 | the key error's message is the text the tests expect: the original key, then the `JSON.stringify` text of the evaluated key |
| Scenarios.SpreadStringMessage | test/template-async.test.js:177-178 | a spread key whose value is a brace-free string throws the spread error, with the message naming the key, the original value and its `JSON.stringify` text |
| Scenarios.QuotesOutside | test/template.test.js:145-146 | quotes around `{{.foo}}` are literal text: the result is the quote, the substitution text of `.foo`'s value, the quote |

## Left out

- The native jq binding and the jq language. `exec` receives the binding as a function parameter that returns a value or throws. The C++ sources are not part of this model.
- `jq.execAsync`, its worker pool, timeouts and the `throwOnError` option. `lib/jq.js` does not define `execAsync`, so the async renderer receives it as a parameter. The pool's concurrency is not modelled.
- `JSON.stringify` and number formatting are a parameter. Numbers are reals, so NaN and the infinities are not represented.
- Property order: JavaScript lists integer-like keys first, in numeric order. The model keeps insertion order for every key.
- Assigning special property names such as `__proto__`: JavaScript treats them differently on assignment. The model treats the assignment as an ordinary one. Reading them through `??=` is modelled: the object made by `{}` inherits the names in `TemplateAsync.InheritedNames` (the ones `Object.prototype` defines), and `??=` finds them set.
- TemplateAsync.InheritedNames: lists the names of a standard `Object.prototype`. Names added to it at run time are not modelled.
- BraceScanner.Scan: reported indices count Unicode code points, while JavaScript strings count UTF-16 code units. A character outside the Basic Multilingual Plane before a delimiter makes JavaScript report an index one higher per such character than the model does.
- Array holes are modelled as `undefined` elements. `Object.entries` skips holes, so spreading an array that the async renderer produced lists them here, while JavaScript does not.
- SpreadKey.IsSpreadKey: matches the tokens one after another and does not model regex backtracking. A run of `\s` is always followed by a non-space token or the end, so no backtracking can change the outcome. SpreadKey.SpreadKeyShape proves that the result is exactly the pattern's language.
- BraceScanner.UnclosedReported: stated for text without braces before the `{{` and plain characters after it, not for every input. For every input, BraceScanner.Scan guarantees only that an error points at real delimiters.
- BraceScanner.NestedReported: stated for text without braces before the outer `{{` and plain characters between the two, not for every input.
- BraceScanner.StrayCloseReported: stated for text without braces before the `}}`, not for every input.
- StringRender.SingleExpression: stated for an expression of plain characters (no braces, quotes or backslashes). StringRender.RenderWhole states the same for any single span the scan finds.
- StringRender.EmbeddedExpression: stated for an expression of plain characters. StringRender.RenderEmbedded states the same for any single span the scan finds.
- TemplateAsync.LiteralUnchanged: stated only for templates without arrays, because an array never renders to itself here (see TemplateAsync.ArrayLayout).
