/** The key that marks a spread entry of an object template:
    `^\s*\{\{\s*spreadValue\(\s*\)\s*\}\}\s*$`. Both template modules test
    object keys against this pattern. */
module SpreadKey {
  import opened JsValue

  /** After white space, the token: the text that follows it. */
  function Expect(s: string, token: string): Option<string>
  {
    var a := TrimStart(s);
    if |a| >= |token| && a[..|token|] == token then Some(a[|token|..]) else None
  }

  /** The tokens in order, each after white space, then white space to the end. */
  predicate MatchTokens(s: string, tokens: seq<string>)
  {
    if tokens == [] then AllSpace(s)
    else match Expect(s, tokens[0])
      case None => false
      case Some(rest) => MatchTokens(rest, tokens[1..])
  }

  /** The literal parts of the pattern, between its runs of white space. */
  const SpreadTokens: seq<string> := ["{{", "spreadValue(", ")", "}}"]

  /** The spread key test. Each `\s*` of the pattern takes its run of white
      space whole, since the character after it is never white space, so the
      tokens can be matched one after the other. */
  predicate IsSpreadKey(s: string): (r: bool)
    ensures r ==> Expect(s, "{{").Some?
  {
    MatchTokens(s, SpreadTokens)
  }

  /** The tokens with the runs of white space ws[0], …, ws[n] around them. */
  function Join(ws: seq<string>, tokens: seq<string>): string
    requires |ws| == |tokens| + 1
  {
    if tokens == [] then ws[0] else ws[0] + tokens[0] + Join(ws[1..], tokens[1..])
  }

  predicate Spaces(ws: seq<string>)
  {
    forall i | 0 <= i < |ws| :: AllSpace(ws[i])
  }

  /** White space, then the token, is what `Expect` consumes. */
  lemma ExpectAfterSpaces(w: string, token: string, rest: string)
    requires AllSpace(w) && token != [] && !IsSpace(token[0])
    ensures Expect(w + token + rest, token) == Some(rest)
  {
    assert w + token + rest == w + (token + rest);
    TrimStartSpaces(w, token + rest);
    assert (token + rest)[..|token|] == token;
  }

  /** What `Expect` accepts is white space, the token and the rest. */
  lemma ExpectSplit(s: string, token: string) returns (w: string)
    requires Expect(s, token).Some?
    ensures AllSpace(w) && s == w + token + Expect(s, token).value
  {
    var a := TrimStart(s);
    var n := |s| - |a|;
    var m := n + |token|;
    w := s[..n];
    assert token == s[n..m] && Expect(s, token).value == s[m..] by {
      assert a == s[n..];
    }
    CutTwice(s, n, m);
  }

  lemma CutTwice(s: string, n: nat, m: nat)
    requires n <= m <= |s|
    ensures s == s[..n] + s[n..m] + s[m..]
  {
  }

  /** The tokens surrounded by any runs of white space are matched. */
  lemma {:induction false} MatchTokensAccepts(ws: seq<string>, tokens: seq<string>)
    requires |ws| == |tokens| + 1 && Spaces(ws)
    requires forall i | 0 <= i < |tokens| :: tokens[i] != [] && !IsSpace(tokens[i][0])
    ensures MatchTokens(Join(ws, tokens), tokens)
  {
    if tokens != [] {
      ExpectAfterSpaces(ws[0], tokens[0], Join(ws[1..], tokens[1..]));
      MatchTokensAccepts(ws[1..], tokens[1..]);
    }
  }

  /** Only the tokens surrounded by runs of white space are matched. */
  lemma {:induction false} MatchTokensSplit(s: string, tokens: seq<string>) returns (ws: seq<string>)
    requires MatchTokens(s, tokens)
    ensures |ws| == |tokens| + 1 && Spaces(ws) && s == Join(ws, tokens)
  {
    if tokens == [] {
      ws := [s];
    } else {
      var w := ExpectSplit(s, tokens[0]);
      var more := MatchTokensSplit(Expect(s, tokens[0]).value, tokens[1..]);
      ws := [w] + more;
      assert ws[0] == w && ws[1..] == more;
      assert Join(ws, tokens) == w + tokens[0] + Join(more, tokens[1..]);
      forall i | 0 <= i < |ws| ensures AllSpace(ws[i]) {
        if i > 0 {
          assert ws[i] == more[i - 1];
        }
      }
    }
  }

  /** A key is a spread key exactly when it is `{{`, `spreadValue(`, `)` and
      `}}` with runs of white space before, between and after them. */
  lemma SpreadKeyShape(s: string)
    ensures IsSpreadKey(s) <==> exists ws :: |ws| == 5 && Spaces(ws) && s == Join(ws, SpreadTokens)
  {
    if IsSpreadKey(s) {
      var ws := MatchTokensSplit(s, SpreadTokens);
      assert |ws| == 5 && Spaces(ws) && s == Join(ws, SpreadTokens);
    }
    forall ws | |ws| == 5 && Spaces(ws) && s == Join(ws, SpreadTokens) ensures IsSpreadKey(s) {
      MatchTokensAccepts(ws, SpreadTokens);
    }
  }

  /** A spread key contains a brace, so a key without braces is never one. */
  lemma SpreadKeyHasBrace(s: string)
    requires IsSpreadKey(s)
    ensures exists k | 0 <= k < |s| :: s[k] == '{'
  {
    var a := TrimStart(s);
    assert a[..2] == "{{";
    var k := |s| - |a|;
    assert s[k] == a[0];
  }
}
