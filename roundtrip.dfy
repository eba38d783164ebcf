/** The pipeline end to end: text written by the writer parses back to the
    tree it was written from, and the worked examples of the repository. */
module RoundTrip {
  import opened Wrappers
  import opened Tokens
  import opened Tokenizer
  import opened JsonValues
  import opened Writer
  import opened Parser
  import opened TreeTokens
  import opened ParserFacts

  lemma AtWhole(ts: seq<Token>)
    ensures At(ts, 0, ts)
  {
  }

  /** Writing an object tree of objects, arrays and strings, none of whose
      keys or strings holds a double quote, and parsing the text back gives
      the same tree, whatever order the writer visited the members in. */
  lemma ParseWrite(v: JsonValue, order: KeyOrder)
    requires v.Object? && StringTree(v) && QuoteFree(v) && ValidOrder(order)
    ensures Lex(Write(v, order)).Ok?
    ensures Parse(Write(v, order)) == Ok(v)
  {
    LexRender(v, order);
    var ts := TokensOf(v, order);
    AtWhole(ts);
    ParseValueTokens(ts, 0, v, order);
  }

  /** The writer's text for such a tree is accepted by `parse_string` as a
      method, with the same result. */
  method ParseWritten(v: JsonValue, order: KeyOrder) returns (r: Result<JsonValue, ParseError>)
    requires v.Object? && StringTree(v) && QuoteFree(v) && ValidOrder(order)
    ensures r == Ok(v)
  {
    ParseWrite(v, order);
    r := Parser.ParseString(Write(v, order));
  }

  /** A one-member object has a single visiting order. */
  lemma SingletonOrder(k: string, x: JsonValue, order: KeyOrder)
    requires ValidOrder(order)
    ensures order(map[k := x]) == [k]
  {
    var ks := order(map[k := x]);
    assert IsEnumeration(ks, {k});
    DistinctCount(ks, {k});
    assert ks[0] in {k};
  }

  /** `n` spaces. */
  function Spaces(n: nat): (s: string)
    ensures |s| == n && forall i :: 0 <= i < n ==> s[i] == ' '
  {
    if n == 0 then [] else [' '] + Spaces(n - 1)
  }

  /** Spaces, then a structural character. */
  lemma LexPunctAfter(n: nat, c: char, rest: string)
    requires Structural(c).Some?
    ensures Lex(Spaces(n) + ([c] + rest)) == Then([Structural(c).value], Lex(rest))
  {
    LexLeadingWhitespace(Spaces(n), [c] + rest);
    assert ([c] + rest)[1..] == rest;
    LexStructuralStep([c] + rest);
  }

  /** Spaces, then a quoted literal. */
  lemma LexQuotedAfter(n: nat, x: string, rest: string)
    requires '"' !in x
    ensures Lex(Spaces(n) + (['"'] + x + ['"'] + rest)) == Then([Identifier(x)], Lex(rest))
  {
    LexLeadingWhitespace(Spaces(n), ['"'] + x + ['"'] + rest);
    LexQuoted(x, rest);
  }

  /** The text of an object with one string member, with `n1` to `n5`
      spaces around its tokens. */
  function OneMemberText(n1: nat, n2: nat, n3: nat, n4: nat, n5: nat, k: string, x: string): string
  {
    Spaces(n1) + (['{'] + (Spaces(n2) + (['"'] + k + ['"'] + (Spaces(n3) + ([':'] + (Spaces(n4)
      + (['"'] + x + ['"'] + (Spaces(n5) + (['}'] + [])))))))))
  }

  /** However many spaces surround its tokens, an object with one string
      member scans to the same five tokens. */
  lemma LexOneMember(n1: nat, n2: nat, n3: nat, n4: nat, n5: nat, k: string, x: string)
    requires '"' !in k && '"' !in x
    ensures Lex(OneMemberText(n1, n2, n3, n4, n5, k, x)) == Ok([LeftBrace, Identifier(k), Colon, Identifier(x), RightBrace])
  {
    var r5 := Spaces(n5) + (['}'] + []);
    var r4 := Spaces(n4) + (['"'] + x + ['"'] + r5);
    var r3 := Spaces(n3) + ([':'] + r4);
    var r2 := Spaces(n2) + (['"'] + k + ['"'] + r3);
    LexPunctAfter(n5, '}', []);
    assert Lex([]) == Ok([]);
    LexQuotedAfter(n4, x, r5);
    LexPunctAfter(n3, ':', r4);
    LexQuotedAfter(n2, k, r3);
    LexPunctAfter(n1, '{', r2);
    assert [LeftBrace] + ([Identifier(k)] + ([Colon] + ([Identifier(x)] + ([RightBrace] + []))))
        == [LeftBrace, Identifier(k), Colon, Identifier(x), RightBrace];
  }

  /** The canonical text of an object with one string member: `{"k": "x"}`. */
  function OneMemberCanonical(k: string, x: string): string
  {
    ['{', '"'] + k + ['"', ':', ' ', '"'] + x + ['"', '}']
  }

  /** An object with one string member is written as `{"k": "x"}`, and that
      text parses back to it. */
  lemma OneMemberRoundTrip(k: string, x: string, order: KeyOrder)
    requires ValidOrder(order) && '"' !in k && '"' !in x
    ensures Write(Object(map[k := String(x)]), order) == OneMemberCanonical(k, x)
    ensures Lex(OneMemberCanonical(k, x)).Ok?
    ensures Parse(OneMemberCanonical(k, x)) == Ok(Object(map[k := String(x)]))
  {
    var m := map[k := String(x)];
    SingletonOrder(k, String(x), order);
    MemberItemsAre(m, [k], order);
    var item := "\"" + k + "\": " + Render(String(x), order);
    assert MemberItems(m, [k], order) == [item];
    assert Join([item], ", ") == item;
    assert Write(Object(m), order) == "{" + item + "}";
    assert "{" + item + "}" == OneMemberCanonical(k, x);
    ParseWrite(Object(m), order);
  }

  lemma UserText()
    ensures OneMemberCanonical("user", "thepolytheist") == "{\"user\": \"thepolytheist\"}"
  {
  }

  /** The test `parse_object_with_one_string_member`: the text
      `{"user": "thepolytheist"}` parses and is written back unchanged. */
  lemma UserExample(order: KeyOrder)
    requires ValidOrder(order)
    ensures Lex("{\"user\": \"thepolytheist\"}").Ok?
    ensures Parse("{\"user\": \"thepolytheist\"}") == Ok(Object(map["user" := String("thepolytheist")]))
    ensures Write(Object(map["user" := String("thepolytheist")]), order) == "{\"user\": \"thepolytheist\"}"
  {
    OneMemberRoundTrip("user", "thepolytheist", order);
    UserText();
  }

  /** The test `strip_whitespace`: text with whitespace between its tokens
      parses to the same object, which is written back without it. */
  lemma WhitespaceExample(order: KeyOrder)
    requires ValidOrder(order)
    ensures Lex("     {  \"whitespace\"    : \"true\"  }").Ok?
    ensures Parse("     {  \"whitespace\"    : \"true\"  }") == Ok(Object(map["whitespace" := String("true")]))
    ensures Write(Object(map["whitespace" := String("true")]), order) == "{\"whitespace\": \"true\"}"
  {
    OneMemberRoundTrip("whitespace", "true", order);
    LexOneMember(5, 2, 4, 1, 2, "whitespace", "true");
    LexOneMember(0, 0, 0, 1, 0, "whitespace", "true");
    SpacedText();
    CanonicalText();
    WhitespaceText();
  }

  lemma SpacedText()
    ensures OneMemberText(5, 2, 4, 1, 2, "whitespace", "true") == "     {  \"whitespace\"    : \"true\"  }"
  {
    SpaceRuns();
  }

  lemma CanonicalText()
    ensures OneMemberText(0, 0, 0, 1, 0, "whitespace", "true") == OneMemberCanonical("whitespace", "true")
  {
    SpaceRuns();
  }

  lemma WhitespaceText()
    ensures OneMemberCanonical("whitespace", "true") == "{\"whitespace\": \"true\"}"
  {
  }

  lemma SpaceRuns()
    ensures Spaces(0) == "" && Spaces(1) == " " && Spaces(2) == "  " && Spaces(4) == "    " && Spaces(5) == "     "
  {
    assert Spaces(1) == " ";
    assert Spaces(2) == "  ";
    assert Spaces(4) == "    ";
  }

  /** Text with an unexpected character after the root object, such as
      `{}x`, fails in the tokenizer, before the trailing-token check. */
  lemma LetterAfterRoot()
    ensures Lex("{}x") == Err(UnexpectedChar('x'))
  {
    LexPunctuation("{}");
    assert "{}" + ['x'] + [] == "{}x";
    LexUnexpected("{}", 'x', []);
  }

  /** Numbers, booleans and null render to text the tokenizer rejects at its
      first character, so trees holding them do not round-trip. */
  lemma ScalarsUnreadable(v: JsonValue, order: KeyOrder)
    requires v.Number? || v.Boolean? || v.Null?
    ensures Render(v, order) != []
    ensures Lex(Render(v, order)) == Err(UnexpectedChar(Render(v, order)[0]))
  {
    if v.Number? {
      DecimalDenotes(v.n);
      assert IsDigit(Decimal(v.n)[0]);
    }
    LexUnexpectedStep(Render(v, order));
  }
}
