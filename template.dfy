/** The synchronous renderer of `lib/template.js`: `render` on one template
    string, evaluating each expression with `exec`, and `renderRecursively`
    over arrays and objects, with spread keys, keys that render to nothing
    and keys that render to a non-string. */
module Template {
  import opened JsValue
  import opened Jq
  import opened BraceScanner
  import opened StringRender
  import opened SpreadKey

  /** What every call receives: the native binding and `JSON.stringify`, the
      input JSON and the `enableEnv` option of `execOptions`. */
  datatype Context = Context(native: NativeExec, json: Stringifier, root: Value, enableEnv: bool)

  /** `jq.exec(inputJson, expression, execOptions)`. */
  function Evaluator(cx: Context): Evaluate
  {
    e => Exec(cx.native, cx.root, Str(e), cx.enableEnv)
  }

  /** What `render(inputJson, template, execOptions)` gives: `null` for a
      template that is not a string. */
  function Rendered(cx: Context, template: Value): (r: Result<Value, RenderError>)
    ensures !template.Str? ==> r == Ok(Null)
    ensures r.Err? ==> r.error.Syntax?
  {
    if !template.Str? then Ok(Null)
    else RenderedString(Evaluator(cx), cx.json, TruthyStart, template.s)
  }

  /** `render`: find the expressions, then return the string, the one
      expression's value, or the spliced string. */
  method Render(cx: Context, template: Value) returns (r: Result<Value, RenderError>)
    ensures r == Rendered(cx, template)
  {
    if !template.Str? {
      return Ok(Null);
    }
    var t := template.s;
    var found := FindSpans(t, TruthyStart);
    if found.Err? {
      return Err(Syntax(found.error));
    }
    var indices := found.value;
    if |indices| == 0 {
      return Ok(template);
    }
    var first := indices[0];
    if |indices| == 1 && WholeExpression(t) {
      return Ok(Exec(cx.native, cx.root, Str(t[first.start..first.end]), cx.enableEnv));
    }
    var result := Splice(Evaluator(cx), cx.json, t, indices);
    return Ok(Str(result));
  }

  /** `renderRecursively`: strings are rendered, arrays mapped, objects
      rebuilt from their rendered entries, and anything else returned as it
      is. A rendered array has as many elements as the template; a rendered
      object has each key once. */
  function RenderRecursively(cx: Context, template: Value): (r: Result<Value, RenderError>)
    ensures r.Ok? && template.Arr? ==> r.value.Arr? && |r.value.items| == |template.items|
    ensures r.Ok? && template.Obj? ==> r.value.Obj? && UniqueKeys(r.value.entries)
    decreases template
  {
    match template
    case Str(_) => Rendered(cx, template)
    case Arr(items) =>
      var rendered :- RenderItems(cx, items);
      Ok(Arr(rendered))
    case Obj(entries) =>
      var rendered :- RenderEntries(cx, entries);
      Ok(Obj(FromEntries(rendered)))
    case _ => Ok(template)
  }

  /** `template.map(...)`: each element in order; the first error is thrown. */
  function RenderItems(cx: Context, items: seq<Value>): (r: Result<seq<Value>, RenderError>)
    ensures r.Ok? ==> |r.value| == |items|
    decreases items
  {
    if items == [] then Ok([])
    else
      var first :- RenderRecursively(cx, items[0]);
      var rest :- RenderItems(cx, items[1..]);
      Ok([first] + rest)
  }

  /** `Object.entries(template).flatMap(...)`: the entries each template entry
      turns into, concatenated in order. */
  function RenderEntries(cx: Context, entries: seq<Entry>): Result<seq<Entry>, RenderError>
    decreases entries
  {
    if entries == [] then Ok([])
    else
      var first :- RenderEntry(cx, entries[0]);
      var rest :- RenderEntries(cx, entries[1..]);
      Ok(first + rest)
  }

  /** The callback of `flatMap` for one entry. A spread key renders its value,
      which must be an object (`typeof`, so `null` passes and then makes
      `Object.entries` throw) and gives its entries. Any other key is
      rendered: it must come out undefined, null or a string, and only a
      non-empty string keeps the entry, whose value is rendered after it. */
  function RenderEntry(cx: Context, entry: Entry): (r: Result<seq<Entry>, RenderError>)
    ensures r.Ok? && !IsSpreadKey(entry.key) ==> |r.value| <= 1 && (r.value != [] ==> r.value[0].key != [])
    decreases entry
  {
    var Entry(key, value) := entry;
    if IsSpreadKey(key) then
      var evaluated :- RenderRecursively(cx, value);
      if !TypeofObject(evaluated) then Err(SpreadType(key, value, evaluated))
      else if evaluated.Null? then Err(EntriesOfNull)
      else Ok(OwnEntries(evaluated))
    else
      var evaluatedKey :- RenderedString(Evaluator(cx), cx.json, TruthyStart, key);
      if !(evaluatedKey.Undefined? || evaluatedKey.Str? || evaluatedKey.Null?) then
        Err(KeyType(key, evaluatedKey))
      else if Truthy(evaluatedKey) then
        var evaluatedValue :- RenderRecursively(cx, value);
        Ok([Entry(evaluatedKey.s, evaluatedValue)])
      else Ok([])
  }

  /** Arrays are rendered element by element: the result holds each element's
      rendering at its index, and an error is the first element's error. */
  lemma {:induction false} ArrayElementwise(cx: Context, items: seq<Value>)
    ensures RenderItems(cx, items).Ok? <==> forall i | 0 <= i < |items| :: RenderRecursively(cx, items[i]).Ok?
    ensures RenderItems(cx, items).Ok? ==>
              forall i | 0 <= i < |items| :: RenderItems(cx, items).value[i] == RenderRecursively(cx, items[i]).value
    ensures RenderItems(cx, items).Err? ==>
              exists i | 0 <= i < |items| ::
                && (forall j | 0 <= j < i :: RenderRecursively(cx, items[j]).Ok?)
                && RenderRecursively(cx, items[i]) == Err(RenderItems(cx, items).error)
    decreases items
  {
    if items != [] {
      ArrayElementwise(cx, items[1..]);
      var r := RenderItems(cx, items);
      if RenderRecursively(cx, items[0]).Ok? {
        forall i | 1 <= i < |items| ensures RenderRecursively(cx, items[i]) == RenderRecursively(cx, items[1..][i - 1]) {
        }
        if r.Err? {
          var i :| 0 <= i < |items[1..]| && (forall j | 0 <= j < i :: RenderRecursively(cx, items[1..][j]).Ok?)
                   && RenderRecursively(cx, items[1..][i]) == Err(r.error);
          assert forall j | 0 <= j < i + 1 :: RenderRecursively(cx, items[j]).Ok?;
        }
      }
    }
  }

  /** Flattening distributes over the entries: rendering two runs of entries
      renders the first, then the second, and concatenates. */
  lemma {:induction false} EntriesConcat(cx: Context, a: seq<Entry>, b: seq<Entry>)
    ensures RenderEntries(cx, a + b) ==
              match RenderEntries(cx, a)
              case Err(e) => Err(e)
              case Ok(ra) =>
                match RenderEntries(cx, b)
                case Err(e) => Err(e)
                case Ok(rb) => Ok(ra + rb)
    decreases a
  {
    if a != [] {
      assert (a + b)[0] == a[0] && (a + b)[1..] == a[1..] + b;
      EntriesConcat(cx, a[1..], b);
      match RenderEntry(cx, a[0])
      case Err(_) =>
      case Ok(first) =>
        match RenderEntries(cx, a[1..])
        case Err(_) =>
        case Ok(rest) =>
          if RenderEntries(cx, b).Ok? {
            assert first + (rest + RenderEntries(cx, b).value) == (first + rest) + RenderEntries(cx, b).value;
          }
    } else {
      assert a + b == b;
      if RenderEntries(cx, b).Ok? {
        assert [] + RenderEntries(cx, b).value == RenderEntries(cx, b).value;
      }
    }
  }

  /** A later key overrides an earlier one: every key of a rendered object
      holds the value of the last rendered entry with that key, spread
      entries included. */
  lemma LaterEntryWins(cx: Context, entries: seq<Entry>)
    requires RenderRecursively(cx, Obj(entries)).Ok?
    ensures RenderEntries(cx, entries).Ok?
    ensures forall k :: Lookup(RenderRecursively(cx, Obj(entries)).value.entries, k)
                          == LastLookup(RenderEntries(cx, entries).value, k)
  {
  }

  /** A key that renders to `undefined`, `null` or the empty string drops its
      entry, and its value is never rendered, so it cannot throw. */
  lemma FalsyKeyDropped(cx: Context, key: string, value: Value)
    requires !IsSpreadKey(key)
    requires var k := RenderedString(Evaluator(cx), cx.json, TruthyStart, key);
      k == Ok(Undefined) || k == Ok(Null) || k == Ok(Str(""))
    ensures RenderEntry(cx, Entry(key, value)) == Ok([])
  {
    var k := RenderedString(Evaluator(cx), cx.json, TruthyStart, key).value;
    assert !Truthy(k) && (k.Undefined? || k.Str? || k.Null?);
  }

  /** A key that renders to a number, a boolean, an array or an object
      throws, naming the key and its value, whatever the entry's value. */
  lemma KeyTypeError(cx: Context, key: string, value: Value)
    requires !IsSpreadKey(key)
    requires var k := RenderedString(Evaluator(cx), cx.json, TruthyStart, key);
      k.Ok? && (k.value.Num? || k.value.Bool? || k.value.Arr? || k.value.Obj?)
    ensures RenderEntry(cx, Entry(key, value))
              == Err(KeyType(key, RenderedString(Evaluator(cx), cx.json, TruthyStart, key).value))
  {
  }

  /** A key that renders to a non-empty string keeps the entry under that
      string, with the value rendered. */
  lemma KeyKept(cx: Context, key: string, value: Value, k: string)
    requires !IsSpreadKey(key)
    requires RenderedString(Evaluator(cx), cx.json, TruthyStart, key) == Ok(Str(k)) && k != []
    ensures RenderEntry(cx, Entry(key, value)) ==
              match RenderRecursively(cx, value)
              case Err(e) => Err(e)
              case Ok(v) => Ok([Entry(k, v)])
  {
  }

  /** A spread key splices in the entries of its rendered value: an object's
      own entries, or an array's elements under their indices. */
  lemma SpreadSpliced(cx: Context, key: string, value: Value)
    requires IsSpreadKey(key)
    requires RenderRecursively(cx, value).Ok?
    requires RenderRecursively(cx, value).value.Obj? || RenderRecursively(cx, value).value.Arr?
    ensures RenderEntry(cx, Entry(key, value)) == Ok(OwnEntries(RenderRecursively(cx, value).value))
  {
  }

  /** A spread value that renders to anything but an array, an object or
      `null` throws the spread error; `null` makes `Object.entries` throw. */
  lemma SpreadRejected(cx: Context, key: string, value: Value)
    requires IsSpreadKey(key)
    requires RenderRecursively(cx, value).Ok?
    requires !(RenderRecursively(cx, value).value.Obj? || RenderRecursively(cx, value).value.Arr?)
    ensures var v := RenderRecursively(cx, value).value;
      RenderEntry(cx, Entry(key, value)) == if v.Null? then Err(EntriesOfNull) else Err(SpreadType(key, value, v))
  {
  }

  /** A template without expressions renders to itself. */
  lemma {:induction false} LiteralUnchanged(cx: Context, v: Value)
    requires Literal(v)
    ensures RenderRecursively(cx, v) == Ok(v)
    decreases v, 1
  {
    match v
    case Str(s) => TextWithoutBraces(Evaluator(cx), cx.json, TruthyStart, s);
    case Arr(items) => LiteralItemsUnchanged(cx, items);
    case Obj(entries) =>
      LiteralEntriesUnchanged(cx, entries);
      FromEntriesOfUnique(entries);
    case _ =>
  }

  lemma {:induction false} LiteralItemsUnchanged(cx: Context, items: seq<Value>)
    requires forall i | 0 <= i < |items| :: Literal(items[i])
    ensures RenderItems(cx, items) == Ok(items)
    decreases items
  {
    if items != [] {
      LiteralUnchanged(cx, items[0]);
      LiteralItemsUnchanged(cx, items[1..]);
      assert [items[0]] + items[1..] == items;
    }
  }

  lemma {:induction false} LiteralEntriesUnchanged(cx: Context, entries: seq<Entry>)
    requires forall i | 0 <= i < |entries| ::
      entries[i].key != [] && NoBraces(entries[i].key) && Literal(entries[i].value)
    ensures RenderEntries(cx, entries) == Ok(entries)
    decreases entries
  {
    if entries != [] {
      var e := entries[0];
      if IsSpreadKey(e.key) {
        SpreadKeyHasBrace(e.key);
        assert false;
      }
      TextWithoutBraces(Evaluator(cx), cx.json, TruthyStart, e.key);
      LiteralUnchanged(cx, e.value);
      assert RenderEntry(cx, e) == Ok([e]);
      LiteralEntriesUnchanged(cx, entries[1..]);
      assert [e] + entries[1..] == entries;
    }
  }
}
