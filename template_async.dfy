/** The asynchronous renderer of `lib/templateAsync.js`. Every `await` runs
    to completion before the next one starts, so the renderer is modelled as
    sequential code: `renderAsync` on one template string, and
    `renderRecursivelyAsync`, which fills a pre-sized array by pushing and
    builds objects by assignment, with `??=` for ordinary keys. */
module TemplateAsync {
  import opened JsValue
  import opened BraceScanner
  import opened StringRender
  import opened SpreadKey

  /** What every call receives: `jq.execAsync`, with the input JSON as its
      first argument, `JSON.stringify`, and the input JSON. */
  datatype Context = Context(execAsync: (Value, string) -> Value, json: Stringifier, root: Value)

  /** `jq.execAsync(json, expression)`. */
  function Evaluator(cx: Context): Evaluate
  {
    e => cx.execAsync(cx.root, e)
  }

  /** What `renderAsync(json, template)` gives. */
  function RenderedAsync(cx: Context, template: string): (r: Result<Value, RenderError>)
    ensures r.Err? ==> r.error.Syntax?
  {
    RenderedString(Evaluator(cx), cx.json, NotNullStart, template)
  }

  /** `renderAsync`: find the expressions, then return the string, the one
      expression's value, or the spliced string. */
  method RenderAsync(cx: Context, template: string) returns (r: Result<Value, RenderError>)
    ensures r == RenderedAsync(cx, template)
  {
    var found := FindSpans(template, NotNullStart);
    if found.Err? {
      return Err(Syntax(found.error));
    }
    var indices := found.value;
    if |indices| == 0 {
      return Ok(Str(template));
    }
    var first := indices[0];
    if |indices| == 1 && WholeExpression(template) {
      return Ok(cx.execAsync(cx.root, template[first.start..first.end]));
    }
    var result := Splice(Evaluator(cx), cx.json, template, indices);
    return Ok(Str(result));
  }

  /** `new Array(n)`: n empty slots. */
  function Holes(n: nat): (r: seq<Value>)
    ensures |r| == n && forall i | 0 <= i < n :: r[i] == Undefined
  {
    seq(n, _ => Undefined)
  }

  /** `result[k] = v` for each entry in order. */
  function AssignAll(acc: seq<Entry>, es: seq<Entry>): seq<Entry>
  {
    if es == [] then acc
    else Put(AssignAll(acc, es[..|es| - 1]), es[|es| - 1].key, es[|es| - 1].value)
  }

  /** `v == null`: `null` or `undefined`. */
  predicate Nullish(v: Value)
  {
    v.Null? || v.Undefined?
  }

  /** The names an object created by `{}` inherits from `Object.prototype`.
      Each holds a function, or for `__proto__` the prototype itself, so
      reading one of them never gives `null` or `undefined`. */
  const InheritedNames: set<string> :=
    {"constructor", "hasOwnProperty", "isPrototypeOf", "propertyIsEnumerable", "toLocaleString",
     "toString", "valueOf", "__defineGetter__", "__defineSetter__", "__lookupGetter__",
     "__lookupSetter__", "__proto__"}

  /** `result[k] != null` on the object being built: its own entry under k if
      it has one, and otherwise what `Object.prototype` supplies. */
  predicate Held(result: seq<Entry>, k: string)
  {
    if Lookup(result, k).Some? then !Nullish(Lookup(result, k).value) else k in InheritedNames
  }

  /** What `renderRecursivelyAsync(json, template)` gives. */
  function RenderedRecursivelyAsync(cx: Context, template: Value): Result<Value, RenderError>
    decreases template
  {
    match template
    case Str(s) => RenderedAsync(cx, s)
    case Arr(items) =>
      var result :- PushAll(cx, items, Holes(|items|));
      Ok(Arr(result))
    case Obj(entries) =>
      var result :- AssignFields(cx, entries, []);
      Ok(Obj(result))
    case _ => Ok(template)
  }

  /** The array loop from the element `items[0]` on, with `result` so far. */
  function PushAll(cx: Context, items: seq<Value>, result: seq<Value>): Result<seq<Value>, RenderError>
    decreases items
  {
    if items == [] then Ok(result)
    else
      var value :- RenderedRecursivelyAsync(cx, items[0]);
      PushAll(cx, items[1..], result + [value])
  }

  /** The object loop from the entry `entries[0]` on, with `result` so far. */
  function AssignFields(cx: Context, entries: seq<Entry>, result: seq<Entry>): Result<seq<Entry>, RenderError>
    decreases entries
  {
    if entries == [] then Ok(result)
    else
      var next :- AssignField(cx, result, entries[0]);
      AssignFields(cx, entries[1..], next)
  }

  /** One pass of the object loop: the spread, then the key. */
  function AssignField(cx: Context, result: seq<Entry>, entry: Entry): Result<seq<Entry>, RenderError>
    decreases entry, 1
  {
    var spread :- SpreadStep(cx, result, entry);
    KeyStep(cx, spread, entry)
  }

  /** A spread key's value is rendered and must be an object other than
      `null`; its entries are assigned. Other keys leave the result alone. */
  function SpreadStep(cx: Context, result: seq<Entry>, entry: Entry): (r: Result<seq<Entry>, RenderError>)
    ensures !IsSpreadKey(entry.key) ==> r == Ok(result)
    decreases entry, 0
  {
    if !IsSpreadKey(entry.key) then Ok(result)
    else
      var evaluated :- RenderedRecursivelyAsync(cx, entry.value);
      if evaluated.Null? || !TypeofObject(evaluated) then Err(SpreadType(entry.key, entry.value, evaluated))
      else Ok(AssignAll(result, OwnEntries(evaluated)))
  }

  /** Spread key or not, the key is rendered and must come out undefined, null
      or a string; a non-empty string gets the rendered value only if reading
      it from the result gives `null` or `undefined` (`??=`). */
  function KeyStep(cx: Context, result: seq<Entry>, entry: Entry): (r: Result<seq<Entry>, RenderError>)
    ensures r.Ok? ==> KeySet(result) <= KeySet(r.value) && |r.value| <= |result| + 1
    decreases entry, 0
  {
    var evaluatedKey :- RenderedAsync(cx, entry.key);
    if !Nullish(evaluatedKey) && !evaluatedKey.Str? then Err(KeyType(entry.key, evaluatedKey))
    else if !Truthy(evaluatedKey) then Ok(result)
    else
      var k := evaluatedKey.s;
      if Held(result, k) then Ok(result)
      else
        var evaluatedValue :- RenderedRecursivelyAsync(cx, entry.value);
        Ok(Put(result, k, evaluatedValue))
  }

  /** `renderRecursivelyAsync`. */
  method RenderRecursivelyAsync(cx: Context, template: Value) returns (r: Result<Value, RenderError>)
    ensures r == RenderedRecursivelyAsync(cx, template)
    decreases template, 1
  {
    match template
    case Str(s) =>
      r := RenderAsync(cx, s);
    case Arr(items) =>
      var result := Holes(|items|);
      var i := 0;
      while i < |items|
        invariant i <= |items|
        invariant PushAll(cx, items, Holes(|items|)) == PushAll(cx, items[i..], result)
      {
        assert items[i..][1..] == items[i + 1..];
        var value := RenderRecursivelyAsync(cx, items[i]);
        if value.Err? {
          return Err(value.error);
        }
        result := result + [value.value];
        i := i + 1;
      }
      return Ok(Arr(result));
    case Obj(entries) =>
      r := RenderObjectAsync(cx, entries);
    case _ =>
      return Ok(template);
  }

  /** The object branch of `renderRecursivelyAsync`: the entry loop, with
      the spread, the key check and `??=` in its body. */
  method RenderObjectAsync(cx: Context, entries: seq<Entry>) returns (r: Result<Value, RenderError>)
    ensures r == RenderedRecursivelyAsync(cx, Obj(entries))
    decreases Obj(entries), 0
  {
    var result: seq<Entry> := [];
    var i := 0;
    while i < |entries|
      invariant i <= |entries|
      invariant AssignFields(cx, entries, []) == AssignFields(cx, entries[i..], result)
    {
      var entry := entries[i];
      FieldsStep(cx, entries, i, result);
      var current := result;
      if IsSpreadKey(entry.key) {
        var evaluated := RenderRecursivelyAsync(cx, entry.value);
        if evaluated.Err? {
          SpreadFails(cx, result, entry, evaluated.error);
          return Err(evaluated.error);
        }
        var ev := evaluated.value;
        if ev.Null? || !TypeofObject(ev) {
          SpreadFails(cx, result, entry, SpreadType(entry.key, entry.value, ev));
          return Err(SpreadType(entry.key, entry.value, ev));
        }
        current := AssignOwn(current, OwnEntries(ev));
      }
      ghost var spread := current;
      assert SpreadStep(cx, result, entry) == Ok(spread);
      FieldAfterSpread(cx, result, entry, spread);
      var evaluatedKey := RenderAsync(cx, entry.key);
      if evaluatedKey.Err? {
        assert KeyStep(cx, spread, entry) == Err(evaluatedKey.error);
        return Err(evaluatedKey.error);
      }
      var k := evaluatedKey.value;
      if !Nullish(k) && !k.Str? {
        assert KeyStep(cx, spread, entry) == Err(KeyType(entry.key, k));
        return Err(KeyType(entry.key, k));
      }
      if Truthy(k) && !Held(current, k.s) {
        var evaluatedValue := RenderRecursivelyAsync(cx, entry.value);
        if evaluatedValue.Err? {
          assert KeyStep(cx, spread, entry) == Err(evaluatedValue.error);
          return Err(evaluatedValue.error);
        }
        current := Put(current, k.s, evaluatedValue.value);
      }
      assert KeyStep(cx, spread, entry) == Ok(current);
      result := current;
      i := i + 1;
    }
    return Ok(Obj(result));
  }

  /** One pass of the object loop, from the entry at index i. */
  lemma FieldsStep(cx: Context, entries: seq<Entry>, i: nat, result: seq<Entry>)
    requires i < |entries|
    ensures AssignFields(cx, entries[i..], result) ==
              match AssignField(cx, result, entries[i])
              case Err(e) => Err(e)
              case Ok(next) => AssignFields(cx, entries[i + 1..], next)
  {
    assert entries[i..][1..] == entries[i + 1..];
  }

  /** A spread that throws ends the pass. */
  lemma SpreadFails(cx: Context, result: seq<Entry>, entry: Entry, e: RenderError)
    requires SpreadStep(cx, result, entry) == Err(e)
    ensures AssignField(cx, result, entry) == Err(e)
  {
  }

  /** After the spread, the pass is the key step. */
  lemma FieldAfterSpread(cx: Context, result: seq<Entry>, entry: Entry, spread: seq<Entry>)
    requires SpreadStep(cx, result, entry) == Ok(spread)
    ensures AssignField(cx, result, entry) == KeyStep(cx, spread, entry)
  {
  }

  /** `for (const [k, v] of Object.entries(evaluated)) result[k] = v`. */
  method AssignOwn(result: seq<Entry>, own: seq<Entry>) returns (r: seq<Entry>)
    ensures r == AssignAll(result, own)
  {
    r := result;
    var j := 0;
    while j < |own|
      invariant j <= |own|
      invariant r == AssignAll(result, own[..j])
    {
      assert own[..j + 1][..j] == own[..j];
      r := Put(r, own[j].key, own[j].value);
      j := j + 1;
    }
    assert own[..|own|] == own;
  }

  /** The array loop succeeds exactly when every element renders. */
  lemma {:induction false} PushAllSucceeds(cx: Context, items: seq<Value>, result: seq<Value>)
    ensures PushAll(cx, items, result).Ok? <==> forall i | 0 <= i < |items| :: RenderedRecursivelyAsync(cx, items[i]).Ok?
    decreases items
  {
    if items != [] {
      var first := RenderedRecursivelyAsync(cx, items[0]);
      if first.Ok? {
        PushAllSucceeds(cx, items[1..], result + [first.value]);
        assert forall i | 1 <= i < |items| :: items[1..][i - 1] == items[i];
      }
    }
  }

  /** The array loop pushes after what is already there: it keeps the
      existing elements and adds each element's rendering in order. */
  lemma {:induction false} PushAllShape(cx: Context, items: seq<Value>, result: seq<Value>)
    requires PushAll(cx, items, result).Ok?
    ensures var out := PushAll(cx, items, result).value;
              && |out| == |result| + |items| && out[..|result|] == result
              && forall i | 0 <= i < |items| :: RenderedRecursivelyAsync(cx, items[i]) == Ok(out[|result| + i])
    decreases items
  {
    if items != [] {
      var first := RenderedRecursivelyAsync(cx, items[0]).value;
      var next := result + [first];
      var out := PushAll(cx, items, result).value;
      assert out == PushAll(cx, items[1..], next).value;
      PushAllShape(cx, items[1..], next);
      assert out[..|result|] == next[..|result|] by {
        assert out[..|next|] == next;
      }
      forall i | 0 <= i < |items| ensures RenderedRecursivelyAsync(cx, items[i]) == Ok(out[|result| + i]) {
        if i == 0 {
          assert out[|result|] == out[..|next|][|result|];
        } else {
          assert items[1..][i - 1] == items[i];
        }
      }
    }
  }

  /** An array of n elements renders to n empty slots followed by the n
      rendered elements in order: `new Array(n)` already has length n, and
      `push` appends after it. */
  lemma ArrayLayout(cx: Context, items: seq<Value>)
    ensures RenderedRecursivelyAsync(cx, Arr(items)).Ok? <==>
              forall i | 0 <= i < |items| :: RenderedRecursivelyAsync(cx, items[i]).Ok?
    ensures RenderedRecursivelyAsync(cx, Arr(items)).Ok? ==>
              var out := RenderedRecursivelyAsync(cx, Arr(items)).value;
              && out.Arr? && |out.items| == 2 * |items|
              && (forall i | 0 <= i < |items| :: out.items[i] == Undefined)
              && forall i | 0 <= i < |items| ::
                   RenderedRecursivelyAsync(cx, items[i]) == Ok(out.items[|items| + i])
  {
    var pushed := PushAll(cx, items, Holes(|items|));
    assert RenderedRecursivelyAsync(cx, Arr(items)) == if pushed.Ok? then Ok(Arr(pushed.value)) else Err(pushed.error);
    PushAllSucceeds(cx, items, Holes(|items|));
    if pushed.Ok? {
      PushAllShape(cx, items, Holes(|items|));
      var out := pushed.value;
      forall i | 0 <= i < |items| ensures out[i] == Undefined {
        assert out[i] == out[..|items|][i];
      }
    }
  }

  /** Assigning entries one after another: each key ends up holding the value
      of its last entry, keys without an entry keep their value, and no key
      is repeated. */
  lemma {:induction false} AssignAllLookup(acc: seq<Entry>, es: seq<Entry>)
    ensures forall k :: Lookup(AssignAll(acc, es), k) ==
              if LastLookup(es, k).Some? then LastLookup(es, k) else Lookup(acc, k)
    ensures UniqueKeys(acc) ==> UniqueKeys(AssignAll(acc, es))
    decreases es
  {
    if es != [] {
      AssignAllLookup(acc, es[..|es| - 1]);
    }
  }

  /** Every pass of the object loop keeps the keys of the result distinct. */
  lemma AssignFieldUnique(cx: Context, result: seq<Entry>, entry: Entry)
    requires UniqueKeys(result)
    ensures AssignField(cx, result, entry).Ok? ==> UniqueKeys(AssignField(cx, result, entry).value)
  {
    var spread := SpreadStep(cx, result, entry);
    if spread.Ok? {
      SpreadStepUnique(cx, result, entry);
      KeyStepUnique(cx, spread.value, entry);
    }
  }

  lemma SpreadStepUnique(cx: Context, result: seq<Entry>, entry: Entry)
    requires UniqueKeys(result)
    ensures SpreadStep(cx, result, entry).Ok? ==> UniqueKeys(SpreadStep(cx, result, entry).value)
  {
    if IsSpreadKey(entry.key) {
      var evaluated := RenderedRecursivelyAsync(cx, entry.value);
      if evaluated.Ok? && (evaluated.value.Obj? || evaluated.value.Arr?) {
        AssignAllLookup(result, OwnEntries(evaluated.value));
      }
    }
  }

  lemma KeyStepUnique(cx: Context, result: seq<Entry>, entry: Entry)
    requires UniqueKeys(result)
    ensures KeyStep(cx, result, entry).Ok? ==> UniqueKeys(KeyStep(cx, result, entry).value)
  {
  }

  lemma {:induction false} AssignFieldsUnique(cx: Context, entries: seq<Entry>, result: seq<Entry>)
    requires UniqueKeys(result)
    ensures AssignFields(cx, entries, result).Ok? ==> UniqueKeys(AssignFields(cx, entries, result).value)
    decreases entries
  {
    if entries != [] {
      AssignFieldUnique(cx, result, entries[0]);
      var next := AssignField(cx, result, entries[0]);
      if next.Ok? {
        AssignFieldsUnique(cx, entries[1..], next.value);
      }
    }
  }

  /** A rendered object has each key once. */
  lemma ObjectKeysUnique(cx: Context, entries: seq<Entry>)
    ensures RenderedRecursivelyAsync(cx, Obj(entries)).Ok? ==>
              var out := RenderedRecursivelyAsync(cx, Obj(entries)).value;
              out.Obj? && UniqueKeys(out.entries)
  {
    AssignFieldsUnique(cx, entries, []);
  }

  /** A spread value that renders to an object or an array has its entries
      assigned, each key ending up with the value of its last own entry, and
      the loop then goes on to render the spread key itself like any other
      key (so a spread key that renders to a number, say, still throws the
      key error). */
  lemma SpreadFallsThrough(cx: Context, result: seq<Entry>, entry: Entry, evaluated: Value)
    requires IsSpreadKey(entry.key)
    requires RenderedRecursivelyAsync(cx, entry.value) == Ok(evaluated) && (evaluated.Obj? || evaluated.Arr?)
    ensures var own := OwnEntries(evaluated);
      && AssignField(cx, result, entry) == KeyStep(cx, AssignAll(result, own), entry)
      && forall k :: Lookup(AssignAll(result, own), k) ==
           if LastLookup(own, k).Some? then LastLookup(own, k) else Lookup(result, k)
  {
    var own := OwnEntries(evaluated);
    assert SpreadStep(cx, result, entry) == Ok(AssignAll(result, own));
    AssignAllLookup(result, own);
  }

  /** A spread value that renders to `null` or to anything that is not an
      object throws the spread error. */
  lemma SpreadRejected(cx: Context, result: seq<Entry>, entry: Entry, evaluated: Value)
    requires IsSpreadKey(entry.key)
    requires RenderedRecursivelyAsync(cx, entry.value) == Ok(evaluated) && !(evaluated.Obj? || evaluated.Arr?)
    ensures AssignField(cx, result, entry) == Err(SpreadType(entry.key, entry.value, evaluated))
  {
  }

  /** Any other key goes straight to the key step. */
  lemma PlainKey(cx: Context, result: seq<Entry>, entry: Entry)
    requires !IsSpreadKey(entry.key)
    ensures AssignField(cx, result, entry) == KeyStep(cx, result, entry)
  {
  }

  /** `??=`: when reading the rendered key from the result gives a value
      other than `null` or `undefined`, an own one or one `Object.prototype`
      supplies, nothing is assigned and the entry's value is not rendered,
      so it cannot throw. */
  lemma AssignedValueKept(cx: Context, result: seq<Entry>, entry: Entry, k: string)
    requires RenderedAsync(cx, entry.key) == Ok(Str(k)) && k != []
    requires Held(result, k)
    ensures KeyStep(cx, result, entry) == Ok(result)
  {
  }

  /** `??=`: otherwise the rendered value is assigned under the rendered key. */
  lemma NullishAssigned(cx: Context, result: seq<Entry>, entry: Entry, k: string)
    requires RenderedAsync(cx, entry.key) == Ok(Str(k)) && k != []
    requires !Held(result, k)
    ensures RenderedRecursivelyAsync(cx, entry.value).Err? ==>
              KeyStep(cx, result, entry) == Err(RenderedRecursivelyAsync(cx, entry.value).error)
    ensures RenderedRecursivelyAsync(cx, entry.value).Ok? ==>
              KeyStep(cx, result, entry) == Ok(Put(result, k, RenderedRecursivelyAsync(cx, entry.value).value))
  {
    assert Truthy(Str(k)) && !Nullish(Str(k));
  }

  /** A brace-free key that names a member of `Object.prototype`, such as
      `constructor` or `toString`, and that the result does not hold as its
      own is never assigned: `??=` reads the inherited member, which is not
      nullish. Its value is not rendered, so it cannot throw. */
  lemma InheritedKeyIgnored(cx: Context, result: seq<Entry>, key: string, value: Value)
    requires key in InheritedNames && NoBraces(key) && key !in KeySet(result)
    ensures AssignField(cx, result, Entry(key, value)) == Ok(result)
  {
    var entry := Entry(key, value);
    if IsSpreadKey(key) {
      SpreadKeyHasBrace(key);
      assert false;
    }
    assert SpreadStep(cx, result, entry) == Ok(result);
    assert RenderedAsync(cx, key) == Ok(Str(key)) by {
      TextWithoutBraces(Evaluator(cx), cx.json, NotNullStart, key);
    }
    assert key != [] by {
      InheritedNonEmpty(key);
    }
    assert Held(result, key);
    AssignedValueKept(cx, result, entry, key);
  }

  lemma InheritedNonEmpty(k: string)
    requires k in InheritedNames
    ensures k != []
  {
  }

  /** A key that renders to `undefined`, `null` or the empty string adds
      nothing, and its value is never rendered. */
  lemma FalsyKeyIgnored(cx: Context, result: seq<Entry>, entry: Entry, evaluatedKey: Value)
    requires RenderedAsync(cx, entry.key) == Ok(evaluatedKey)
    requires evaluatedKey == Undefined || evaluatedKey == Null || evaluatedKey == Str("")
    ensures KeyStep(cx, result, entry) == Ok(result)
  {
  }

  /** A key that renders to a number, a boolean, an array or an object throws
      the key error. */
  lemma KeyTypeError(cx: Context, result: seq<Entry>, entry: Entry, evaluatedKey: Value)
    requires RenderedAsync(cx, entry.key) == Ok(evaluatedKey)
    requires !Nullish(evaluatedKey) && !evaluatedKey.Str?
    ensures KeyStep(cx, result, entry) == Err(KeyType(entry.key, evaluatedKey))
  {
  }

  /** No array anywhere in the value, and no key that `Object.prototype`
      already supplies. */
  predicate Ordinary(v: Value)
  {
    match v
    case Arr(_) => false
    case Obj(entries) =>
      forall i | 0 <= i < |entries| :: entries[i].key !in InheritedNames && Ordinary(entries[i].value)
    case _ => true
  }

  /** A template without expressions, arrays or inherited names renders to
      itself. */
  lemma {:induction false} LiteralUnchanged(cx: Context, template: Value)
    requires Literal(template) && Ordinary(template)
    ensures RenderedRecursivelyAsync(cx, template) == Ok(template)
    decreases template, 1
  {
    match template
    case Str(s) => TextWithoutBraces(Evaluator(cx), cx.json, NotNullStart, s);
    case Obj(entries) =>
      LiteralFieldsUnchanged(cx, entries, []);
      assert [] + entries == entries;
    case _ =>
  }

  /** An entry whose key has no braces, is new and is not inherited, and
      whose value renders to itself, is appended as it is. */
  lemma NewEntryAppended(cx: Context, result: seq<Entry>, e: Entry)
    requires e.key != [] && NoBraces(e.key) && e.key !in KeySet(result) && e.key !in InheritedNames
    requires RenderedRecursivelyAsync(cx, e.value) == Ok(e.value)
    ensures AssignField(cx, result, e) == Ok(result + [e])
  {
    if IsSpreadKey(e.key) {
      SpreadKeyHasBrace(e.key);
      assert false;
    }
    TextWithoutBraces(Evaluator(cx), cx.json, NotNullStart, e.key);
    NullishAssigned(cx, result, e, e.key);
  }

  /** Literal entries with new, distinct, not inherited keys are appended in
      order. */
  lemma {:induction false} LiteralFieldsUnchanged(cx: Context, entries: seq<Entry>, result: seq<Entry>)
    requires UniqueKeys(entries)
    requires forall i | 0 <= i < |entries| ::
      && entries[i].key != [] && NoBraces(entries[i].key) && entries[i].key !in KeySet(result)
      && entries[i].key !in InheritedNames && Literal(entries[i].value) && Ordinary(entries[i].value)
    ensures AssignFields(cx, entries, result) == Ok(result + entries)
    decreases entries
  {
    if entries != [] {
      var e := entries[0];
      var next := result + [e];
      assert AssignFields(cx, entries, result) == AssignFields(cx, entries[1..], next) by {
        LiteralUnchanged(cx, e.value);
        NewEntryAppended(cx, result, e);
      }
      assert AssignFields(cx, entries[1..], next) == Ok(next + entries[1..]) by {
        forall i | 0 <= i < |entries[1..]| ensures entries[1..][i].key !in KeySet(next) {
          assert entries[1..][i] == entries[i + 1];
          KeySetAppend(result, e);
        }
        LiteralFieldsUnchanged(cx, entries[1..], next);
      }
      assert next + entries[1..] == result + entries;
    } else {
      assert result + entries == result;
    }
  }

  /** An array of literal elements comes back with as many empty slots in
      front of its elements. */
  lemma LiteralArrayDoubled(cx: Context, items: seq<Value>)
    requires forall i | 0 <= i < |items| :: Literal(items[i]) && Ordinary(items[i])
    ensures RenderedRecursivelyAsync(cx, Arr(items)) == Ok(Arr(Holes(|items|) + items))
  {
    forall i | 0 <= i < |items| ensures RenderedRecursivelyAsync(cx, items[i]) == Ok(items[i]) {
      LiteralUnchanged(cx, items[i]);
    }
    ArrayLayout(cx, items);
    var out := RenderedRecursivelyAsync(cx, Arr(items)).value.items;
    assert out == Holes(|items|) + items;
  }
}
