/** JavaScript values as the templating code sees them, and the few JavaScript
    built-ins it relies on: `typeof`, truthiness, white space and `trim`,
    `Object.entries`, property assignment, `Object.fromEntries`, the string
    conversion of template literals and decimal printing of indices. */
module JsValue {

  /** A JSON-shaped JavaScript value. Objects are lists of entries in insertion
      order; `Undefined` also stands for jq's `empty` result and for array holes. */
  datatype Value =
    | Str(s: string)
    | Num(n: real)
    | Bool(b: bool)
    | Null
    | Undefined
    | Arr(items: seq<Value>)
    | Obj(entries: seq<Entry>)

  /** One own property of an object. */
  datatype Entry = Entry(key: string, value: Value)

  datatype Option<+T> = None | Some(value: T)

  /** A result or a thrown error; `:-` propagates the first error, as a throw does. */
  datatype Result<+T, +E> = Ok(value: T) | Err(error: E) {
    predicate IsFailure() { Err? }
    function PropagateFailure<U>(): Result<U, E> requires Err? { Err(error) }
    function Extract(): T requires Ok? { value }
  }

  /** `JSON.stringify` on a value other than `undefined`. Number and string
      formatting belong to the JavaScript engine and are not modelled. */
  type Stringifier = Value -> string

  /** The text `JSON.stringify(v)` contributes to a string concatenation or a
      template literal: `JSON.stringify(undefined)` is `undefined`, which
      converts to the text "undefined". */
  function JsonText(json: Stringifier, v: Value): string
  {
    if v.Undefined? then "undefined" else json(v)
  }

  /** `typeof v === "object"`: true of `null`, arrays and objects. */
  predicate TypeofObject(v: Value)
  {
    v.Null? || v.Arr? || v.Obj?
  }

  /** JavaScript truthiness (NaN is not representable here). */
  predicate Truthy(v: Value)
  {
    match v
    case Str(s) => s != []
    case Num(n) => n != 0.0
    case Bool(b) => b
    case Null => false
    case Undefined => false
    case Arr(_) => true
    case Obj(_) => true
  }

  /** The characters matched by `\s` in a JavaScript regular expression, which
      are also the characters `String.prototype.trim` removes. */
  predicate IsSpace(c: char)
  {
    || c == '\t' || c == '\n' || c == '\U{B}' || c == '\U{C}' || c == '\r' || c == ' '
    || c == '\U{A0}' || c == '\U{1680}' || ('\U{2000}' <= c <= '\U{200A}')
    || c == '\U{2028}' || c == '\U{2029}' || c == '\U{202F}' || c == '\U{205F}'
    || c == '\U{3000}' || c == '\U{FEFF}'
  }

  predicate AllSpace(s: string)
  {
    forall k | 0 <= k < |s| :: IsSpace(s[k])
  }

  /** `s.trimStart()`: the suffix of s from its first non-space character. */
  function TrimStart(s: string): (r: string)
    ensures |r| <= |s| && r == s[|s| - |r|..]
    ensures AllSpace(s[..|s| - |r|])
    ensures r == [] || !IsSpace(r[0])
  {
    if s != [] && IsSpace(s[0]) then
      var r := TrimStart(s[1..]);
      assert s[1..][..|s| - 1 - |r|] == s[1..|s| - |r|];
      r
    else s
  }

  /** `s.trimEnd()`: the prefix of s up to its last non-space character. */
  function TrimEnd(s: string): (r: string)
    ensures |r| <= |s| && r == s[..|r|]
    ensures AllSpace(s[|r|..])
    ensures r == [] || !IsSpace(r[|r| - 1])
  {
    if s != [] && IsSpace(s[|s| - 1]) then
      var t := s[..|s| - 1];
      var r := TrimEnd(t);
      assert t[..|r|] == s[..|r|];
      assert s[|r|..] == t[|r|..] + [s[|s| - 1]];
      r
    else s
  }

  /** `s.trim()`. */
  function Trim(s: string): string
  {
    TrimEnd(TrimStart(s))
  }

  /** A string that ends in a non-space character keeps it as the last
      character when trimmed. */
  lemma TrimKeepsLast(s: string)
    requires s != [] && !IsSpace(s[|s| - 1])
    ensures Trim(s) != [] && Trim(s)[|Trim(s)| - 1] == s[|s| - 1]
  {
    var f := TrimStart(s);
    assert f[|f| - 1] == s[|s| - 1];
  }

  /** White space in front of a string that does not start with white space is
      exactly what `trimStart` removes. */
  lemma {:induction false} TrimStartSpaces(a: string, r: string)
    requires AllSpace(a)
    requires r == [] || !IsSpace(r[0])
    ensures TrimStart(a + r) == r
  {
    if a != [] {
      assert (a + r)[1..] == a[1..] + r;
      TrimStartSpaces(a[1..], r);
    }
  }

  /** White space after a string that does not end with white space is exactly
      what `trimEnd` removes. */
  lemma {:induction false} TrimEndSpaces(r: string, b: string)
    requires AllSpace(b)
    requires r == [] || !IsSpace(r[|r| - 1])
    ensures TrimEnd(r + b) == r
  {
    if b != [] {
      assert (r + b)[..|r + b| - 1] == r + b[..|b| - 1];
      TrimEndSpaces(r, b[..|b| - 1]);
    } else {
      assert r + b == r;
    }
  }

  /** Trimming a string that is white space around a core which begins and
      ends with a non-space character leaves exactly that core. */
  lemma TrimAround(a: string, m: string, b: string)
    requires AllSpace(a) && AllSpace(b)
    requires m != [] && !IsSpace(m[0]) && !IsSpace(m[|m| - 1])
    ensures Trim(a + m + b) == m
  {
    assert a + m + b == a + (m + b);
    TrimStartSpaces(a, m + b);
    TrimEndSpaces(m, b);
  }

  /** The decimal digit for d. */
  function Digit(d: nat): char
    requires d < 10
  {
    "0123456789"[d]
  }

  predicate IsDigits(s: string)
  {
    forall k | 0 <= k < |s| :: '0' <= s[k] <= '9'
  }

  /** The number a string of decimal digits denotes. */
  function DecimalValue(s: string): nat
    requires IsDigits(s)
  {
    if s == [] then 0 else 10 * DecimalValue(s[..|s| - 1]) + (s[|s| - 1] as int - '0' as int)
  }

  /** The decimal text JavaScript prints for a non-negative integer, as in the
      offsets of the scanner's messages and the keys of `Object.entries` on an
      array: digits without leading zeros that denote n. */
  function NatToDecimal(n: nat): (r: string)
    ensures r != [] && IsDigits(r)
    ensures r[0] == '0' ==> r == "0"
    ensures DecimalValue(r) == n
  {
    if n < 10 then [Digit(n)]
    else
      var init := NatToDecimal(n / 10);
      var r := init + [Digit(n % 10)];
      assert r[..|r| - 1] == init && r[0] == init[0];
      assert DecimalValue(r) == 10 * (n / 10) + n % 10;
      r
  }

  /** The decimal text of a number determines the number. */
  lemma NatToDecimalInjective(m: nat, n: nat)
    requires NatToDecimal(m) == NatToDecimal(n)
    ensures m == n
  {
  }

  /** The keys of an object's own entries. */
  function KeySet(es: seq<Entry>): set<string>
  {
    set i | 0 <= i < |es| :: es[i].key
  }

  /** Reading property k of an object with own entries es (the first entry with
      that key; a JavaScript object never holds two). */
  function Lookup(es: seq<Entry>, k: string): (r: Option<Value>)
    ensures r.None? <==> k !in KeySet(es)
    ensures r.Some? ==> exists i | 0 <= i < |es| :: es[i] == Entry(k, r.value) && forall j | 0 <= j < i :: es[j].key != k
  {
    if es == [] then None
    else if es[0].key == k then
      assert es[0] == Entry(k, es[0].value);
      Some(es[0].value)
    else
      assert KeySet(es) == {es[0].key} + KeySet(es[1..]) by {
        forall key | key in KeySet(es) ensures key in {es[0].key} + KeySet(es[1..]) {
          var i :| 0 <= i < |es| && es[i].key == key;
          if i > 0 { assert es[1..][i - 1].key == key; }
        }
      }
      Lookup(es[1..], k)
  }

  lemma KeySetAppend(es: seq<Entry>, e: Entry)
    ensures KeySet(es + [e]) == KeySet(es) + {e.key}
  {
    var r := es + [e];
    forall key | key in KeySet(r) ensures key in KeySet(es) + {e.key} {
      var i :| 0 <= i < |r| && r[i].key == key;
      if i < |es| { assert es[i].key == key; }
    }
    forall key | key in KeySet(es) ensures key in KeySet(r) {
      var i :| 0 <= i < |es| && es[i].key == key;
      assert r[i].key == key;
    }
    assert r[|es|].key == e.key;
  }

  /** The value of the last entry with key k. */
  function LastLookup(es: seq<Entry>, k: string): Option<Value>
  {
    if es == [] then None
    else if es[|es| - 1].key == k then Some(es[|es| - 1].value)
    else LastLookup(es[..|es| - 1], k)
  }

  predicate UniqueKeys(es: seq<Entry>)
  {
    forall i, j | 0 <= i < j < |es| :: es[i].key != es[j].key
  }

  /** Reading a property of an object whose first entry is e. */
  lemma LookupCons(e: Entry, rest: seq<Entry>, k: string)
    ensures Lookup([e] + rest, k) == if e.key == k then Some(e.value) else Lookup(rest, k)
  {
    assert ([e] + rest)[1..] == rest;
  }

  /** The keys of an object whose first entry is e; with unique keys, e's key
      is not among the rest. */
  lemma KeySetCons(e: Entry, rest: seq<Entry>)
    ensures KeySet([e] + rest) == {e.key} + KeySet(rest)
    ensures UniqueKeys([e] + rest) <==> e.key !in KeySet(rest) && UniqueKeys(rest)
  {
    var es := [e] + rest;
    forall key | key in KeySet(es) ensures key in {e.key} + KeySet(rest) {
      var i :| 0 <= i < |es| && es[i].key == key;
      if i > 0 { assert rest[i - 1].key == key; }
    }
    forall key | key in KeySet(rest) ensures key in KeySet(es) {
      var i :| 0 <= i < |rest| && rest[i].key == key;
      assert es[i + 1].key == key;
    }
    assert es[0].key == e.key;
    if UniqueKeys(es) {
      forall i, j | 0 <= i < j < |rest| ensures rest[i].key != rest[j].key {
        assert es[i + 1].key != es[j + 1].key;
      }
      forall i | 0 <= i < |rest| ensures rest[i].key != e.key {
        assert es[0].key != es[i + 1].key;
      }
    }
    if e.key !in KeySet(rest) && UniqueKeys(rest) {
      forall i, j | 0 <= i < j < |es| ensures es[i].key != es[j].key {
        if i == 0 { assert es[j].key == rest[j - 1].key; }
        else { assert es[i].key == rest[i - 1].key && es[j].key == rest[j - 1].key; }
      }
    }
  }

  /** What `obj[k] = v` does to an object with own entries es, giving r: k now
      reads v, every other key reads as before, and keys stay unique; an
      existing property keeps its place, a new one is appended. */
  ghost predicate Assigned(es: seq<Entry>, k: string, v: Value, r: seq<Entry>)
  {
    && Lookup(r, k) == Some(v)
    && (forall k' | k' != k :: Lookup(r, k') == Lookup(es, k'))
    && KeySet(r) == KeySet(es) + {k}
    && (UniqueKeys(es) ==> UniqueKeys(r))
    && (Lookup(es, k).None? ==> r == es + [Entry(k, v)])
    && (Lookup(es, k).Some? ==> |r| == |es| && forall i | 0 <= i < |es| :: r[i].key == es[i].key)
  }

  /** Assigning to the key of the first entry replaces that entry. */
  lemma AssignedHead(es: seq<Entry>, k: string, v: Value)
    requires es != [] && es[0].key == k
    ensures Assigned(es, k, v, [Entry(k, v)] + es[1..])
  {
    var r := [Entry(k, v)] + es[1..];
    assert [es[0]] + es[1..] == es;
    KeySetCons(es[0], es[1..]);
    KeySetCons(Entry(k, v), es[1..]);
    forall k' ensures Lookup(r, k') == if k' == k then Some(v) else Lookup(es, k') {
      LookupCons(Entry(k, v), es[1..], k');
      LookupCons(es[0], es[1..], k');
    }
  }

  /** Assigning to another key leaves the first entry in front of the rest's
      assignment. */
  lemma AssignedTail(es: seq<Entry>, k: string, v: Value, rest: seq<Entry>)
    requires es != [] && es[0].key != k
    requires Assigned(es[1..], k, v, rest)
    ensures Assigned(es, k, v, [es[0]] + rest)
  {
    AssignedTailLookup(es, k, v, rest);
    AssignedTailKeys(es, k, rest);
    AssignedTailShape(es, k, v, rest);
  }

  /** The lookup half of `AssignedTail`. */
  lemma AssignedTailLookup(es: seq<Entry>, k: string, v: Value, rest: seq<Entry>)
    requires es != [] && es[0].key != k
    requires Lookup(rest, k) == Some(v)
    requires forall k' | k' != k :: Lookup(rest, k') == Lookup(es[1..], k')
    ensures Lookup([es[0]] + rest, k) == Some(v)
    ensures forall k' | k' != k :: Lookup([es[0]] + rest, k') == Lookup(es, k')
    ensures Lookup(es, k) == Lookup(es[1..], k)
  {
    assert [es[0]] + es[1..] == es;
    forall k' ensures Lookup([es[0]] + rest, k') == if k' == k then Some(v) else Lookup(es, k') {
      LookupCons(es[0], rest, k');
      LookupCons(es[0], es[1..], k');
    }
    LookupCons(es[0], es[1..], k);
  }

  /** The key half of `AssignedTail`. */
  lemma AssignedTailKeys(es: seq<Entry>, k: string, rest: seq<Entry>)
    requires es != []
    requires KeySet(rest) == KeySet(es[1..]) + {k}
    requires UniqueKeys(es[1..]) ==> UniqueKeys(rest)
    requires es[0].key != k
    ensures KeySet([es[0]] + rest) == KeySet(es) + {k}
    ensures UniqueKeys(es) ==> UniqueKeys([es[0]] + rest)
  {
    assert [es[0]] + es[1..] == es;
    KeySetCons(es[0], es[1..]);
    KeySetCons(es[0], rest);
  }

  /** The shape half of `AssignedTail`: appended, or keys in place. */
  lemma AssignedTailShape(es: seq<Entry>, k: string, v: Value, rest: seq<Entry>)
    requires es != [] && es[0].key != k
    requires Lookup(es[1..], k).None? ==> rest == es[1..] + [Entry(k, v)]
    requires Lookup(es[1..], k).Some? ==> |rest| == |es[1..]| && forall i | 0 <= i < |es[1..]| :: rest[i].key == es[1..][i].key
    ensures Lookup(es[1..], k).None? ==> [es[0]] + rest == es + [Entry(k, v)]
    ensures Lookup(es[1..], k).Some? ==> |[es[0]] + rest| == |es| && forall i | 0 <= i < |es| :: ([es[0]] + rest)[i].key == es[i].key
  {
    var r := [es[0]] + rest;
    if Lookup(es[1..], k).None? {
      assert r == [es[0]] + es[1..] + [Entry(k, v)];
      assert [es[0]] + es[1..] == es;
    } else {
      forall i | 0 <= i < |es| ensures r[i].key == es[i].key {
        if i > 0 {
          assert r[i] == rest[i - 1] && es[i] == es[1..][i - 1];
        }
      }
    }
  }

  /** `obj[k] = v` on an object with own entries es. */
  function Put(es: seq<Entry>, k: string, v: Value): (r: seq<Entry>)
    ensures Assigned(es, k, v, r)
  {
    if es == [] then [Entry(k, v)]
    else if es[0].key == k then
      AssignedHead(es, k, v);
      [Entry(k, v)] + es[1..]
    else
      var rest := Put(es[1..], k, v);
      AssignedTail(es, k, v, rest);
      [es[0]] + rest
  }

  /** `Object.fromEntries(es)`: every key once, holding the value of its last entry. */
  function FromEntries(es: seq<Entry>): (r: seq<Entry>)
    ensures UniqueKeys(r)
    ensures forall k :: Lookup(r, k) == LastLookup(es, k)
  {
    if es == [] then []
    else
      var init := FromEntries(es[..|es| - 1]);
      Put(init, es[|es| - 1].key, es[|es| - 1].value)
  }

  /** An object already free of repeated keys comes back unchanged. */
  lemma {:induction false} FromEntriesOfUnique(es: seq<Entry>)
    requires UniqueKeys(es)
    ensures FromEntries(es) == es
  {
    if es != [] {
      var init := es[..|es| - 1];
      FromEntriesOfUnique(init);
      assert Lookup(init, es[|es| - 1].key).None?;
    }
  }

  /** `Object.entries(v)` for an array or an object: an array's entries are
      keyed by the decimal text of their index. */
  function OwnEntries(v: Value): (r: seq<Entry>)
    requires v.Arr? || v.Obj?
    ensures v.Obj? ==> r == v.entries
    ensures v.Arr? ==> |r| == |v.items| && forall i | 0 <= i < |r| :: r[i] == Entry(NatToDecimal(i), v.items[i])
  {
    match v
    case Obj(es) => es
    case Arr(items) => seq(|items|, i requires 0 <= i < |items| => Entry(NatToDecimal(i), items[i]))
  }

  /** The text `${v}` produces in a template literal: `String(v)`. Arrays join
      their elements with commas, `null` and `undefined` elements giving "". */
  function ToJsString(json: Stringifier, v: Value): string
  {
    match v
    case Str(s) => s
    case Num(_) => json(v)
    case Bool(b) => if b then "true" else "false"
    case Null => "null"
    case Undefined => "undefined"
    case Arr(items) => JoinElements(json, items)
    case Obj(_) => "[object Object]"
  }

  /** `items.join(",")`. */
  function JoinElements(json: Stringifier, items: seq<Value>): string
  {
    if items == [] then ""
    else
      var first := if items[0].Null? || items[0].Undefined? then "" else ToJsString(json, items[0]);
      if |items| == 1 then first else first + "," + JoinElements(json, items[1..])
  }
}
