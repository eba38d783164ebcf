/** The tokens a rendered document scans to: the bridge between the writer,
    the tokenizer and the parser. */
module TreeTokens {
  import opened Wrappers
  import opened Tokens
  import opened Tokenizer
  import opened JsonValues

  /** The items in order, each followed by a comma when its flag is set. */
  function Separated(items: seq<seq<Token>>, commas: seq<bool>): seq<Token>
    requires |commas| == |items|
  {
    if items == [] then []
    else items[0] + (if commas[0] then [Comma] else []) + Separated(items[1..], commas[1..])
  }

  /** The writer's separator policy: a comma between consecutive items, none after the last. */
  function Between(n: nat): (commas: seq<bool>)
    ensures |commas| == n
  {
    if n == 0 then [] else if n == 1 then [false] else [true] + Between(n - 1)
  }

  /** The tokens of a tree of objects, arrays and strings, each object's
      members in the order `order` visits them and separated as the writer
      separates them. */
  function TokensOf(v: JsonValue, order: KeyOrder): (ts: seq<Token>)
    requires StringTree(v)
    ensures |ts| > 0 && (ts[0] == LeftBrace || ts[0] == LeftBracket || ts[0].Identifier?)
  {
    match v
    case Object(m) =>
      var items := MemberTokenItems(m, order(m), order);
      [LeftBrace] + Separated(items, Between(|items|)) + [RightBrace]
    case Array(vs) =>
      var items := ElementTokenItems(vs, 0, order);
      [LeftBracket] + Separated(items, Between(|items|)) + [RightBracket]
    case String(s) => [Identifier(s)]
  }

  /** The tokens of each member of `m` that `ks` visits: key, colon, value. */
  function MemberTokenItems(m: map<string, JsonValue>, ks: seq<string>, order: KeyOrder): (items: seq<seq<Token>>)
    requires forall k :: k in m ==> StringTree(m[k])
    ensures |items| <= |ks|
    ensures (forall i :: 0 <= i < |ks| ==> ks[i] in m) ==> |items| == |ks|
    decreases Object(m), |ks|
  {
    if ks == [] then []
    else if ks[0] in m then [[Identifier(ks[0]), Colon] + TokensOf(m[ks[0]], order)] + MemberTokenItems(m, ks[1..], order)
    else MemberTokenItems(m, ks[1..], order)
  }

  /** The tokens of each of `vs[i..]`. */
  function ElementTokenItems(vs: seq<JsonValue>, i: nat, order: KeyOrder): (items: seq<seq<Token>>)
    requires forall j :: 0 <= j < |vs| ==> StringTree(vs[j])
    ensures |items| == if i <= |vs| then |vs| - i else 0
    decreases Array(vs), |vs| - i
  {
    if i >= |vs| then [] else [TokensOf(vs[i], order)] + ElementTokenItems(vs, i + 1, order)
  }

  /** The writer's output scans back to exactly the token image of the tree,
      provided no key or string holds a double quote. */
  lemma {:induction false} LexRender(v: JsonValue, order: KeyOrder)
    requires StringTree(v) && QuoteFree(v)
    ensures Lex(Render(v, order)) == Ok(TokensOf(v, order))
    decreases v, 1
  {
    match v
    case String(s) =>
      LexQuoted(s, []);
      assert "\"" + s + "\"" == ['"'] + s + ['"'] + [];
      assert Lex([]) == Ok([]);
      assert [Identifier(s)] + [] == [Identifier(s)];
    case Object(m) =>
      var ks := order(m);
      LexMemberItems(m, ks, order);
      var strs := MemberItems(m, ks, order);
      var toks := MemberTokenItems(m, ks, order);
      LexJoin(strs, toks);
      LexBracketed('{', Join(strs, ", "), '}', Separated(toks, Between(|toks|)));
    case Array(vs) =>
      LexElementItems(vs, 0, order);
      var strs := ElementItems(vs, 0, order);
      var toks := ElementTokenItems(vs, 0, order);
      LexJoin(strs, toks);
      LexBracketed('[', Join(strs, ", "), ']', Separated(toks, Between(|toks|)));
  }

  lemma {:induction false} LexMemberItems(m: map<string, JsonValue>, ks: seq<string>, order: KeyOrder)
    requires forall k :: k in m ==> StringTree(m[k]) && QuoteFree(m[k]) && '"' !in k
    ensures |MemberItems(m, ks, order)| == |MemberTokenItems(m, ks, order)|
    ensures forall i :: 0 <= i < |MemberItems(m, ks, order)| ==>
      Lex(MemberItems(m, ks, order)[i]) == Ok(MemberTokenItems(m, ks, order)[i])
    decreases Object(m), 0, |ks|
  {
    if ks != [] {
      LexMemberItems(m, ks[1..], order);
      if ks[0] in m {
        var k := ks[0];
        LexRender(m[k], order);
        LexMember(k, Render(m[k], order), TokensOf(m[k], order));
      }
    }
  }

  lemma {:induction false} LexElementItems(vs: seq<JsonValue>, i: nat, order: KeyOrder)
    requires forall j :: 0 <= j < |vs| ==> StringTree(vs[j]) && QuoteFree(vs[j])
    ensures |ElementItems(vs, i, order)| == |ElementTokenItems(vs, i, order)|
    ensures forall j :: 0 <= j < |ElementItems(vs, i, order)| ==>
      Lex(ElementItems(vs, i, order)[j]) == Ok(ElementTokenItems(vs, i, order)[j])
    decreases Array(vs), 0, |vs| - i
  {
    if i < |vs| {
      LexElementItems(vs, i + 1, order);
      LexRender(vs[i], order);
    }
  }

  /** A structural character then a space in front of some text scan to the
      character's token in front of the text's tokens. */
  lemma LexPunctSpace(c: char, text: string, ts: seq<Token>)
    requires Structural(c).Some? && Lex(text) == Ok(ts)
    ensures Lex([c, ' '] + text) == Ok([Structural(c).value] + ts)
  {
    var s := [c, ' '] + text;
    assert s[0] == c && s[1..] == [' '] + text;
    LexStructuralStep(s);
    assert ([' '] + text)[0] == ' ' && ([' '] + text)[1..] == text;
    LexWhitespaceStep([' '] + text);
  }

  /** A rendered member `"k": value` scans to key, colon and the value's tokens. */
  lemma LexMember(k: string, value: string, ts: seq<Token>)
    requires '"' !in k && Lex(value) == Ok(ts)
    ensures Lex("\"" + k + "\": " + value) == Ok([Identifier(k), Colon] + ts)
  {
    var rest := [':', ' '] + value;
    assert "\"" + k + "\": " + value == ['"'] + k + ['"'] + rest;
    LexQuoted(k, rest);
    LexPunctSpace(':', value, ts);
    assert [Identifier(k)] + ([Colon] + ts) == [Identifier(k), Colon] + ts;
  }

  /** The writer's commas: one after every item but the last. */
  lemma BetweenTail(n: nat)
    requires n > 1
    ensures Between(n)[0] && Between(n)[1..] == Between(n - 1)
  {
  }

  /** Separated items: the first one, its comma, then the others. */
  lemma SeparatedCons(toks: seq<seq<Token>>, commas: seq<bool>)
    requires |commas| == |toks| > 0
    ensures Separated(toks, commas)
         == toks[0] + (if commas[0] then [Comma] else []) + Separated(toks[1..], commas[1..])
  {
  }

  /** Rendered items joined with `", "` scan to their tokens with a comma between consecutive ones. */
  lemma {:induction false} LexJoin(strs: seq<string>, toks: seq<seq<Token>>)
    requires |strs| == |toks|
    requires forall i :: 0 <= i < |strs| ==> Lex(strs[i]) == Ok(toks[i])
    ensures Lex(Join(strs, ", ")) == Ok(Separated(toks, Between(|toks|)))
    decreases |strs|
  {
    if |strs| == 1 {
      SeparatedCons(toks, [false]);
      assert toks[0] + [] + [] == toks[0];
    } else if |strs| > 1 {
      LexJoin(strs[1..], toks[1..]);
      LexJoinStep(strs, toks, Separated(toks[1..], Between(|toks| - 1)));
    }
  }

  /** One step of `LexJoin`: the first item, `", "`, then the others. */
  lemma LexJoinStep(strs: seq<string>, toks: seq<seq<Token>>, later: seq<Token>)
    requires |strs| == |toks| > 1
    requires Lex(strs[0]) == Ok(toks[0])
    requires Lex(Join(strs[1..], ", ")) == Ok(later)
    requires later == Separated(toks[1..], Between(|toks| - 1))
    ensures Lex(Join(strs, ", ")) == Ok(Separated(toks, Between(|toks|)))
  {
    var rest := Join(strs[1..], ", ");
    var tail := [',', ' '] + rest;
    assert Join(strs, ", ") == strs[0] + tail;
    LexCommaJoin(strs[0], tail, rest, toks[0], later);
    SeparatedComma(toks, later);
  }

  /** An item, `", "` and more text scan to the item's tokens, a comma and the text's tokens. */
  lemma LexCommaJoin(first: string, tail: string, rest: string, ts: seq<Token>, later: seq<Token>)
    requires tail == [',', ' '] + rest
    requires Lex(first) == Ok(ts) && Lex(rest) == Ok(later)
    ensures Lex(first + tail) == Ok(ts + [Comma] + later)
  {
    LexAppend(first, tail);
    LexPunctSpace(',', rest, later);
    assert ts + ([Comma] + later) == ts + [Comma] + later;
  }

  /** The writer's separation of more than one item: the first, a comma, then the others. */
  lemma SeparatedComma(toks: seq<seq<Token>>, later: seq<Token>)
    requires |toks| > 1 && later == Separated(toks[1..], Between(|toks| - 1))
    ensures Separated(toks, Between(|toks|)) == toks[0] + [Comma] + later
  {
    BetweenTail(|toks|);
    SeparatedCons(toks, Between(|toks|));
  }

  /** An opening character, some text and a closing character, each of the two
      characters structural, scan to their tokens around those of the text. */
  lemma LexBracketed(open: char, body: string, close: char, ts: seq<Token>)
    requires Structural(open).Some? && Structural(close).Some?
    requires Lex(body) == Ok(ts)
    ensures Lex([open] + body + [close]) == Ok([Structural(open).value] + ts + [Structural(close).value])
  {
    var s := [open] + body + [close];
    assert s[0] == open && s[1..] == body + [close];
    LexStructuralStep(s);
    LexAppend(body, [close]);
    LexStructuralStep([close]);
    assert [close][0] == close && [close][1..] == [] && Lex([]) == Ok([]);
    assert [Structural(close).value] + [] == [Structural(close).value];
    assert Lex([close]) == Ok([Structural(close).value]);
    assert Lex(body + [close]) == Ok(ts + [Structural(close).value]);
    assert [Structural(open).value] + (ts + [Structural(close).value])
        == [Structural(open).value] + ts + [Structural(close).value];
  }
}
