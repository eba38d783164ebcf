/** The recursive-descent parser: tokens to a document tree. */
module Parser {
  import opened Wrappers
  import opened Tokens
  import opened Tokenizer
  import opened JsonValues

  /** The three ways parsing can fail. */
  datatype ParseError =
    | UnexpectedToken(found: Token)   // a token where the grammar wants another
    | UnexpectedEnd                   // the tokens ran out where the grammar wants one
    | TrailingTokens                  // tokens left over after the root object

  /** What a parsing routine returns, together with where it leaves the cursor.
      The cursor matters on failure too: the trailing-token check of
      `ParseString` reads it whether or not the root object was parsed. */
  datatype Step<+T> = Step(result: Result<T, ParseError>, pos: nat)

  /*
   * The grammar as functions of the token sequence and a cursor position.
   * Each one follows the parser method of the same name statement by
   * statement, and the methods of class Parser are proved equal to them.
   */

  /** `next_token_is`: the token under the cursor exists and is `t`. */
  predicate NextIs(ts: seq<Token>, pos: nat, t: Token)
  {
    pos < |ts| && ts[pos] == t
  }

  /** `expect_eq`: consume one token, which must be `t`. */
  function ExpectEqAt(ts: seq<Token>, pos: nat, t: Token): (r: Step<Token>)
    requires pos <= |ts|
    ensures r.result.Ok? <==> NextIs(ts, pos, t)
    ensures r.result.Ok? ==> r.result.value == t
    ensures r.pos == if pos < |ts| then pos + 1 else pos
  {
    if pos == |ts| then Step(Err(UnexpectedEnd), pos)
    else if ts[pos] == t then Step(Ok(ts[pos]), pos + 1)
    else Step(Err(UnexpectedToken(ts[pos])), pos + 1)
  }

  /** `expect_identifier`: consume one token, which must be an identifier, and return its text. */
  function ExpectIdentifierAt(ts: seq<Token>, pos: nat): (r: Step<string>)
    requires pos <= |ts|
    ensures r.result.Ok? <==> pos < |ts| && ts[pos].Identifier?
    ensures r.result.Ok? ==> ts[pos] == Identifier(r.result.value)
    ensures r.pos == if pos < |ts| then pos + 1 else pos
  {
    if pos == |ts| then Step(Err(UnexpectedEnd), pos)
    else if ts[pos].Identifier? then Step(Ok(ts[pos].text), pos + 1)
    else Step(Err(UnexpectedToken(ts[pos])), pos + 1)
  }

  /** `parse_object`: `{`, the members, `}`. */
  function ObjectAt(ts: seq<Token>, pos: nat): (r: Step<JsonValue>)
    requires pos <= |ts|
    ensures pos <= r.pos <= |ts|
    ensures r.result.Ok? ==> pos < r.pos && r.result.value.Object? && StringTree(r.result.value)
    ensures r.result != Err(TrailingTokens)
    decreases |ts| - pos, 1
  {
    var open := ExpectEqAt(ts, pos, LeftBrace);
    if open.result.Err? then Step(Err(open.result.error), open.pos)
    else
      var members := MembersAt(ts, open.pos, map[]);
      if members.result.Err? then Step(Err(members.result.error), members.pos)
      else
        var close := ExpectEqAt(ts, members.pos, RightBrace);
        if close.result.Err? then Step(Err(close.result.error), close.pos)
        else Step(Ok(Object(members.result.value)), close.pos)
  }

  /** `parse_members`: members until the next token is `}`, each optionally
      followed by one comma; a later duplicate key overwrites an earlier one.
      `acc` holds the members read so far. */
  function MembersAt(ts: seq<Token>, pos: nat, acc: map<string, JsonValue>): (r: Step<map<string, JsonValue>>)
    requires pos <= |ts|
    requires forall k :: k in acc ==> StringTree(acc[k])
    ensures pos <= r.pos <= |ts|
    ensures r.result.Ok? ==> acc.Keys <= r.result.value.Keys
    ensures r.result.Ok? ==> forall k :: k in r.result.value ==> StringTree(r.result.value[k])
    ensures r.result != Err(TrailingTokens)
    decreases |ts| - pos, 4
  {
    if NextIs(ts, pos, RightBrace) then Step(Ok(acc), pos)
    else
      var member := MemberAt(ts, pos);
      if member.result.Err? then Step(Err(member.result.error), member.pos)
      else
        var (key, value) := member.result.value;
        var next := if NextIs(ts, member.pos, Comma) then member.pos + 1 else member.pos;
        MembersAt(ts, next, acc[key := value])
  }

  /** `parse_member`: a key, `:`, a value. */
  function MemberAt(ts: seq<Token>, pos: nat): (r: Step<(string, JsonValue)>)
    requires pos <= |ts|
    ensures pos <= r.pos <= |ts|
    ensures r.result.Ok? ==> pos + 2 < r.pos && StringTree(r.result.value.1)
    ensures r.result != Err(TrailingTokens)
    decreases |ts| - pos, 3
  {
    var key := ExpectIdentifierAt(ts, pos);
    if key.result.Err? then Step(Err(key.result.error), key.pos)
    else
      var colon := ExpectEqAt(ts, key.pos, Colon);
      if colon.result.Err? then Step(Err(colon.result.error), colon.pos)
      else
        var value := ValueAt(ts, colon.pos);
        if value.result.Err? then Step(Err(value.result.error), value.pos)
        else Step(Ok((key.result.value, value.result.value)), value.pos)
  }

  /** `parse_value`: peek at the next token; `{` starts an object, `[` an
      array, and anything else must be an identifier, read as a string. */
  function ValueAt(ts: seq<Token>, pos: nat): (r: Step<JsonValue>)
    requires pos <= |ts|
    ensures pos <= r.pos <= |ts|
    ensures r.result.Ok? ==> pos < r.pos && StringTree(r.result.value)
    ensures r.result != Err(TrailingTokens)
    decreases |ts| - pos, 2
  {
    if pos == |ts| then Step(Err(UnexpectedEnd), pos)
    else if ts[pos] == LeftBrace then ObjectAt(ts, pos)
    else if ts[pos] == LeftBracket then ArrayAt(ts, pos)
    else
      var ident := ExpectIdentifierAt(ts, pos);
      if ident.result.Err? then Step(Err(ident.result.error), ident.pos)
      else Step(Ok(String(ident.result.value)), ident.pos)
  }

  /** `parse_array`: `[`, the elements, `]`. */
  function ArrayAt(ts: seq<Token>, pos: nat): (r: Step<JsonValue>)
    requires pos <= |ts|
    ensures pos <= r.pos <= |ts|
    ensures r.result.Ok? ==> pos < r.pos && r.result.value.Array? && StringTree(r.result.value)
    ensures r.result != Err(TrailingTokens)
    decreases |ts| - pos, 1
  {
    var open := ExpectEqAt(ts, pos, LeftBracket);
    if open.result.Err? then Step(Err(open.result.error), open.pos)
    else
      var values := ElementsAt(ts, open.pos, []);
      if values.result.Err? then Step(Err(values.result.error), values.pos)
      else
        var close := ExpectEqAt(ts, values.pos, RightBracket);
        if close.result.Err? then Step(Err(close.result.error), close.pos)
        else Step(Ok(Array(values.result.value)), close.pos)
  }

  /** `parse_array_values`: values until the next token is `]`, each
      optionally followed by one comma. `acc` holds the values read so far. */
  function ElementsAt(ts: seq<Token>, pos: nat, acc: seq<JsonValue>): (r: Step<seq<JsonValue>>)
    requires pos <= |ts|
    requires forall i :: 0 <= i < |acc| ==> StringTree(acc[i])
    ensures pos <= r.pos <= |ts|
    ensures r.result.Ok? ==> acc <= r.result.value
    ensures r.result.Ok? ==> forall i :: 0 <= i < |r.result.value| ==> StringTree(r.result.value[i])
    ensures r.result != Err(TrailingTokens)
    decreases |ts| - pos, 4
  {
    if NextIs(ts, pos, RightBracket) then Step(Ok(acc), pos)
    else
      var value := ValueAt(ts, pos);
      if value.result.Err? then Step(Err(value.result.error), value.pos)
      else
        var next := if NextIs(ts, value.pos, Comma) then value.pos + 1 else value.pos;
        ElementsAt(ts, next, acc + [value.result.value])
  }

  /** `parse_string` after tokenizing: the root object, then the check that
      every token was consumed, which replaces whatever the root gave. */
  function Document(ts: seq<Token>): (r: Result<JsonValue, ParseError>)
    ensures r.Ok? ==> r.value.Object? && StringTree(r.value)
  {
    var root := ObjectAt(ts, 0);
    if root.pos != |ts| then Err(TrailingTokens) else root.result
  }

  /** Parsing text: tokenizing must succeed (the source unwraps it). */
  function Parse(text: string): (r: Result<JsonValue, ParseError>)
    requires Lex(text).Ok?
    ensures r.Ok? ==> r.value.Object? && StringTree(r.value)
  {
    Document(Lex(text).value)
  }

  /** The parser state: the tokens and a cursor that only moves forward. */
  class Parser {
    const tokens: seq<Token>
    var pos: nat

    ghost predicate Valid()
      reads this
    {
      pos <= |tokens|
    }

    constructor (tokens: seq<Token>)
      ensures this.tokens == tokens && pos == 0 && Valid()
    {
      this.tokens := tokens;
      pos := 0;
    }

    /** `parse_string`: tokenize, parse the root object, then insist that no token is left. */
    static method ParseString(text: string) returns (r: Result<JsonValue, ParseError>)
      requires Lex(text).Ok?
      ensures r == Parse(text)
      ensures r.Ok? ==> r.value.Object?
    {
      var tokens := Tokenize(text);
      var parser := new Parser(tokens.value);
      var value := parser.ParseObject();
      if parser.pos != |parser.tokens| {
        return Err(TrailingTokens);
      }
      return value;
    }

    method NextTokenIs(expected: Token) returns (b: bool)
      requires Valid()
      ensures b <==> NextIs(tokens, pos, expected)
    {
      b := pos < |tokens| && tokens[pos] == expected;
    }

    method NextTokenIsNot(undesired: Token) returns (b: bool)
      requires Valid()
      ensures b <==> !NextIs(tokens, pos, undesired)
    {
      b := !(pos < |tokens| && tokens[pos] == undesired);
    }

    /** `next_token`: the token under the cursor, moving past it if there is one. */
    method NextToken() returns (t: Option<Token>)
      requires Valid()
      modifies this`pos
      ensures Valid()
      ensures old(pos) < |tokens| ==> t == Some(tokens[old(pos)]) && pos == old(pos) + 1
      ensures old(pos) == |tokens| ==> t == None && pos == old(pos)
    {
      if pos < |tokens| {
        t := Some(tokens[pos]);
        pos := pos + 1;
      } else {
        t := None;
      }
    }

    /** `peek_next_token`: the token under the cursor, without moving. */
    method PeekNextToken() returns (r: Result<Token, ParseError>)
      requires Valid()
      ensures pos < |tokens| ==> r == Ok(tokens[pos])
      ensures pos == |tokens| ==> r == Err(UnexpectedEnd)
    {
      if pos < |tokens| {
        r := Ok(tokens[pos]);
      } else {
        r := Err(UnexpectedEnd);
      }
    }

    /** `expect_matching`: consume one token, which must satisfy `f`. */
    method ExpectMatching(f: Token -> bool) returns (r: Result<Token, ParseError>)
      requires Valid()
      modifies this`pos
      ensures Valid()
      ensures old(pos) < |tokens| ==> pos == old(pos) + 1
      ensures old(pos) < |tokens| ==>
        r == if f(tokens[old(pos)]) then Ok(tokens[old(pos)]) else Err(UnexpectedToken(tokens[old(pos)]))
      ensures old(pos) == |tokens| ==> pos == old(pos) && r == Err(UnexpectedEnd)
    {
      var next := NextToken();
      match next
      case Some(token) =>
        if f(token) {
          r := Ok(token);
        } else {
          r := Err(UnexpectedToken(token));
        }
      case None =>
        r := Err(UnexpectedEnd);
    }

    method ExpectEq(token: Token) returns (r: Result<Token, ParseError>)
      requires Valid()
      modifies this`pos
      ensures Valid()
      ensures Step(r, pos) == ExpectEqAt(tokens, old(pos), token)
    {
      r := ExpectMatching((t: Token) => t == token);
    }

    method ExpectIdentifier() returns (r: Result<string, ParseError>)
      requires Valid()
      modifies this`pos
      ensures Valid()
      ensures Step(r, pos) == ExpectIdentifierAt(tokens, old(pos))
    {
      var token :- ExpectMatching((t: Token) => t.Identifier?);
      r := Ok(AsIdentifier(token).value);
    }

    /** `advance`: step over the comma just seen. */
    method Advance()
      requires Valid() && pos < |tokens|
      modifies this`pos
      ensures Valid() && pos == old(pos) + 1
    {
      pos := pos + 1;
    }

    method ParseObject() returns (r: Result<JsonValue, ParseError>)
      requires Valid()
      modifies this`pos
      ensures Valid()
      ensures Step(r, pos) == ObjectAt(tokens, old(pos))
      decreases |tokens| - pos, 1
    {
      var _ :- ExpectEq(LeftBrace);
      var members :- ParseMembers();
      var _ :- ExpectEq(RightBrace);
      r := Ok(Object(members));
    }

    method ParseMembers() returns (r: Result<map<string, JsonValue>, ParseError>)
      requires Valid()
      modifies this`pos
      ensures Valid()
      ensures Step(r, pos) == MembersAt(tokens, old(pos), map[])
      decreases |tokens| - pos, 4
    {
      var members := map[];
      var more := NextTokenIsNot(RightBrace);
      while more
        invariant Valid() && old(pos) <= pos
        invariant forall k :: k in members ==> StringTree(members[k])
        invariant MembersAt(tokens, pos, members) == MembersAt(tokens, old(pos), map[])
        invariant more <==> !NextIs(tokens, pos, RightBrace)
        decreases |tokens| - pos
      {
        var member :- ParseMember();
        var (key, value) := member;
        members := members[key := value];
        var comma := NextTokenIs(Comma);
        if comma {
          Advance();
        }
        more := NextTokenIsNot(RightBrace);
      }
      r := Ok(members);
    }

    method ParseMember() returns (r: Result<(string, JsonValue), ParseError>)
      requires Valid()
      modifies this`pos
      ensures Valid()
      ensures Step(r, pos) == MemberAt(tokens, old(pos))
      decreases |tokens| - pos, 3
    {
      var key :- ParseKey();
      var _ :- ExpectEq(Colon);
      var value :- ParseValue();
      r := Ok((key, value));
    }

    /** `parse_key`: the key of a member, an identifier. */
    method ParseKey() returns (r: Result<string, ParseError>)
      requires Valid()
      modifies this`pos
      ensures Valid()
      ensures Step(r, pos) == ExpectIdentifierAt(tokens, old(pos))
    {
      r := ExpectIdentifier();
    }

    method ParseValue() returns (r: Result<JsonValue, ParseError>)
      requires Valid()
      modifies this`pos
      ensures Valid()
      ensures Step(r, pos) == ValueAt(tokens, old(pos))
      decreases |tokens| - pos, 2
    {
      var next :- PeekNextToken();
      if next == LeftBrace {
        r := ParseObject();
      } else if next == LeftBracket {
        r := ParseArray();
      } else {
        var s :- ExpectIdentifier();
        r := Ok(String(s));
      }
    }

    method ParseArray() returns (r: Result<JsonValue, ParseError>)
      requires Valid()
      modifies this`pos
      ensures Valid()
      ensures Step(r, pos) == ArrayAt(tokens, old(pos))
      decreases |tokens| - pos, 1
    {
      var _ :- ExpectEq(LeftBracket);
      var values :- ParseArrayValues();
      var _ :- ExpectEq(RightBracket);
      r := Ok(Array(values));
    }

    method ParseArrayValues() returns (r: Result<seq<JsonValue>, ParseError>)
      requires Valid()
      modifies this`pos
      ensures Valid()
      ensures Step(r, pos) == ElementsAt(tokens, old(pos), [])
      decreases |tokens| - pos, 4
    {
      var values := [];
      var more := NextTokenIsNot(RightBracket);
      while more
        invariant Valid() && old(pos) <= pos
        invariant forall i :: 0 <= i < |values| ==> StringTree(values[i])
        invariant ElementsAt(tokens, pos, values) == ElementsAt(tokens, old(pos), [])
        invariant more <==> !NextIs(tokens, pos, RightBracket)
        decreases |tokens| - pos
      {
        var value :- ParseValue();
        values := values + [value];
        var comma := NextTokenIs(Comma);
        if comma {
          Advance();
        }
        more := NextTokenIsNot(RightBracket);
      }
      r := Ok(values);
    }
  }
}
