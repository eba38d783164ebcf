/** What the grammar functions promise about their results: where a
    successful loop stops, how a value is dispatched on its first token, how
    the end of input and stray tokens fail, and the trailing-token check. */
module ParserLaws {
  import opened Wrappers
  import opened Tokens
  import opened JsonValues
  import opened Parser
  import opened ParserFacts

  /** The member loop only succeeds by stopping in front of a `}`. */
  lemma {:induction false} MembersStopAtBrace(ts: seq<Token>, pos: nat, acc: map<string, JsonValue>)
    requires pos <= |ts|
    requires forall k :: k in acc ==> StringTree(acc[k])
    ensures MembersAt(ts, pos, acc).result.Ok? ==> NextIs(ts, MembersAt(ts, pos, acc).pos, RightBrace)
    decreases |ts| - pos
  {
    if !NextIs(ts, pos, RightBrace) {
      var member := MemberAt(ts, pos);
      if member.result.Ok? {
        var (key, value) := member.result.value;
        var next := if NextIs(ts, member.pos, Comma) then member.pos + 1 else member.pos;
        MembersStopAtBrace(ts, next, acc[key := value]);
      }
    }
  }

  /** The element loop only succeeds by stopping in front of a `]`. */
  lemma {:induction false} ElementsStopAtBracket(ts: seq<Token>, pos: nat, acc: seq<JsonValue>)
    requires pos <= |ts|
    requires forall i :: 0 <= i < |acc| ==> StringTree(acc[i])
    ensures ElementsAt(ts, pos, acc).result.Ok? ==> NextIs(ts, ElementsAt(ts, pos, acc).pos, RightBracket)
    decreases |ts| - pos
  {
    if !NextIs(ts, pos, RightBracket) {
      var value := ValueAt(ts, pos);
      if value.result.Ok? {
        var next := if NextIs(ts, value.pos, Comma) then value.pos + 1 else value.pos;
        ElementsStopAtBracket(ts, next, acc + [value.result.value]);
      }
    }
  }

  /** A successful object spans from a `{` to the matching `}` it stops after. */
  lemma ObjectSpan(ts: seq<Token>, pos: nat)
    requires pos <= |ts|
    ensures ObjectAt(ts, pos).result.Ok? ==>
      ts[pos] == LeftBrace && ts[ObjectAt(ts, pos).pos - 1] == RightBrace
  {
    if pos < |ts| && ts[pos] == LeftBrace {
      MembersStopAtBrace(ts, pos + 1, map[]);
    }
  }

  /** A successful array spans from a `[` to the matching `]` it stops after. */
  lemma ArraySpan(ts: seq<Token>, pos: nat)
    requires pos <= |ts|
    ensures ArrayAt(ts, pos).result.Ok? ==>
      ts[pos] == LeftBracket && ts[ArrayAt(ts, pos).pos - 1] == RightBracket
  {
    if pos < |ts| && ts[pos] == LeftBracket {
      ElementsStopAtBracket(ts, pos + 1, []);
    }
  }

  /** A successful parse is an object that consumed every token: the first
      token is `{` and the last is `}`. */
  lemma DocumentSpan(ts: seq<Token>)
    ensures Document(ts).Ok? ==>
      ObjectAt(ts, 0).pos == |ts| && ts[0] == LeftBrace && ts[|ts| - 1] == RightBrace
  {
    ObjectSpan(ts, 0);
  }

  /** Tokens left after the root object turn any outcome of the root,
      an error included, into the trailing-token error; with none left,
      the outcome of the root stands. */
  lemma TrailingOverrides(ts: seq<Token>)
    ensures ObjectAt(ts, 0).pos != |ts| <==> Document(ts) == Err(TrailingTokens)
    ensures ObjectAt(ts, 0).pos == |ts| ==> Document(ts) == ObjectAt(ts, 0).result
  {
  }

  /** `{:}`: the root fails at the colon where a key is expected, after
      consuming it, and the `}` left over turns that failure into the
      trailing-token error. */
  lemma ColonKeyIsTrailing()
    ensures ObjectAt([LeftBrace, Colon, RightBrace], 0) == Step(Err(UnexpectedToken(Colon)), 2)
    ensures Document([LeftBrace, Colon, RightBrace]) == Err(TrailingTokens)
  {
    var ts := [LeftBrace, Colon, RightBrace];
    assert MemberAt(ts, 1) == Step(Err(UnexpectedToken(Colon)), 2);
    assert MembersAt(ts, 1, map[]) == Step(Err(UnexpectedToken(Colon)), 2);
  }

  /** `parse_value` on its first token: `{` is an object, `[` an array, an
      identifier a string, any other token an unexpected-token error that
      consumes it, and no token at all the end-of-input error. */
  lemma ValueDispatch(ts: seq<Token>, pos: nat)
    requires pos <= |ts|
    ensures pos == |ts| ==> ValueAt(ts, pos) == Step(Err(UnexpectedEnd), pos)
    ensures pos < |ts| && ts[pos] == LeftBrace ==> ValueAt(ts, pos) == ObjectAt(ts, pos)
    ensures pos < |ts| && ts[pos] == LeftBracket ==> ValueAt(ts, pos) == ArrayAt(ts, pos)
    ensures pos < |ts| && ts[pos].Identifier? ==> ValueAt(ts, pos) == Step(Ok(String(ts[pos].text)), pos + 1)
    ensures pos < |ts| && ts[pos] in {RightBrace, RightBracket, Colon, Comma} ==>
      ValueAt(ts, pos) == Step(Err(UnexpectedToken(ts[pos])), pos + 1)
  {
  }

  /** A comma where a value is expected, as in `[,]`, is an unexpected token. */
  lemma CommaIsNoValue()
    ensures ArrayAt([LeftBracket, Comma, RightBracket], 0) == Step(Err(UnexpectedToken(Comma)), 2)
  {
    var ts := [LeftBracket, Comma, RightBracket];
    ValueDispatch(ts, 1);
    assert ElementsAt(ts, 1, []) == Step(Err(UnexpectedToken(Comma)), 2);
  }

  /** Running out of tokens inside an object or an array fails with the
      end-of-input error: the loops take the end for a missing closer and go
      on to read a member or a value. */
  lemma EndInsideLoops(ts: seq<Token>, macc: map<string, JsonValue>, vacc: seq<JsonValue>)
    requires forall k :: k in macc ==> StringTree(macc[k])
    requires forall i :: 0 <= i < |vacc| ==> StringTree(vacc[i])
    ensures MembersAt(ts, |ts|, macc) == Step(Err(UnexpectedEnd), |ts|)
    ensures ElementsAt(ts, |ts|, vacc) == Step(Err(UnexpectedEnd), |ts|)
    ensures ObjectAt(ts, |ts|) == Step(Err(UnexpectedEnd), |ts|)
  {
    assert MemberAt(ts, |ts|) == Step(Err(UnexpectedEnd), |ts|);
    ValueDispatch(ts, |ts|);
  }

  /** `{}` and `[]` are the empty object and the empty array. */
  lemma EmptyContainers()
    ensures Document([LeftBrace, RightBrace]) == Ok(Object(map[]))
    ensures ArrayAt([LeftBracket, RightBracket], 0) == Step(Ok(Array([])), 2)
  {
    assert MembersAt([LeftBrace, RightBrace], 1, map[]) == Step(Ok(map[]), 1);
    assert ElementsAt([LeftBracket, RightBracket], 1, []) == Step(Ok([]), 1);
  }

  /** `["a",]`: a comma after the last element is consumed and not required to be followed by a value. */
  lemma TrailingCommaArray()
    ensures ArrayAt([LeftBracket, Identifier("a"), Comma, RightBracket], 0) == Step(Ok(Array([String("a")])), 4)
  {
    var ts := [LeftBracket, Identifier("a"), Comma, RightBracket];
    ValueDispatch(ts, 1);
    assert [] + [String("a")] == [String("a")];
    ElementStep(ts, 1, [], String("a"), 2, 3);
    assert ElementsAt(ts, 3, [String("a")]) == Step(Ok([String("a")]), 3);
  }

  /** `{"a": "b" "c": "d"}`: members need no comma between them. */
  lemma MembersWithoutComma()
    ensures Document([LeftBrace, Identifier("a"), Colon, Identifier("b"), Identifier("c"), Colon, Identifier("d"), RightBrace])
         == Ok(Object(map["a" := String("b"), "c" := String("d")]))
  {
    TwoMembers([LeftBrace, Identifier("a"), Colon, Identifier("b"), Identifier("c"), Colon, Identifier("d"), RightBrace],
               "a", "b", "c", "d", 0);
  }

  /** `{"a": "x", "a": "y"}`: a repeated key keeps the value of its last occurrence. */
  lemma DuplicateKeyLastWins()
    ensures Document([LeftBrace, Identifier("a"), Colon, Identifier("x"), Comma,
                      Identifier("a"), Colon, Identifier("y"), RightBrace])
         == Ok(Object(map["a" := String("y")]))
  {
    TwoMembers([LeftBrace, Identifier("a"), Colon, Identifier("x"), Comma, Identifier("a"), Colon, Identifier("y"), RightBrace],
               "a", "x", "a", "y", 1);
    assert map["a" := String("x")]["a" := String("y")] == map["a" := String("y")];
  }

  /** An object of two string members, with (`c == 1`) or without (`c == 0`)
      a comma between them: the second is inserted after the first, so a
      repeated key takes the second value. */
  lemma TwoMembers(ts: seq<Token>, k1: string, x1: string, k2: string, x2: string, c: nat)
    requires c <= 1 && |ts| == 8 + c
    requires ts[0] == LeftBrace && ts[1] == Identifier(k1) && ts[2] == Colon && ts[3] == Identifier(x1)
    requires c == 1 ==> ts[4] == Comma
    requires ts[4 + c] == Identifier(k2) && ts[5 + c] == Colon && ts[6 + c] == Identifier(x2)
    requires ts[7 + c] == RightBrace
    ensures Document(ts) == Ok(Object(map[k1 := String(x1)][k2 := String(x2)]))
  {
    var m := map[k1 := String(x1)][k2 := String(x2)];
    ValueDispatch(ts, 3);
    ValueDispatch(ts, 6 + c);
    MemberStep(ts, 1, map[], k1, String(x1), 4, 4 + c);
    MemberStep(ts, 4 + c, map[k1 := String(x1)], k2, String(x2), 7 + c, 7 + c);
    assert MembersAt(ts, 7 + c, m) == Step(Ok(m), 7 + c);
    ObjectStep(ts, 0, m, 7 + c);
  }

  /** The members the loop of `parse_members` reads, in text order and with
      repeated keys kept: the loop's result before it is folded into a map. */
  function MemberListAt(ts: seq<Token>, pos: nat): (r: Step<seq<(string, JsonValue)>>)
    requires pos <= |ts|
    ensures pos <= r.pos <= |ts|
    decreases |ts| - pos
  {
    if NextIs(ts, pos, RightBrace) then Step(Ok([]), pos)
    else
      var member := MemberAt(ts, pos);
      if member.result.Err? then Step(Err(member.result.error), member.pos)
      else
        var next := if NextIs(ts, member.pos, Comma) then member.pos + 1 else member.pos;
        var rest := MemberListAt(ts, next);
        if rest.result.Err? then rest
        else Step(Ok([member.result.value] + rest.result.value), rest.pos)
  }

  /** After the insertions a key is present exactly when it was before or
      occurs in `ps`; it holds the value of its last occurrence, or keeps
      its earlier value when it does not occur. */
  lemma {:induction false} InsertPairsLastWins(acc: map<string, JsonValue>, ps: seq<(string, JsonValue)>, k: string)
    ensures k in InsertPairs(acc, ps) <==> k in acc || exists i :: 0 <= i < |ps| && ps[i].0 == k
    ensures forall i :: 0 <= i < |ps| && ps[i].0 == k && (forall j :: i < j < |ps| ==> ps[j].0 != k) ==>
      InsertPairs(acc, ps)[k] == ps[i].1
    ensures (forall i :: 0 <= i < |ps| ==> ps[i].0 != k) && k in acc ==> InsertPairs(acc, ps)[k] == acc[k]
    decreases |ps|
  {
    if ps != [] {
      var acc' := acc[ps[0].0 := ps[0].1];
      var tail := ps[1..];
      InsertPairsLastWins(acc', tail, k);
      assert forall i :: 0 <= i < |tail| ==> tail[i] == ps[i + 1];
      if exists i :: 0 <= i < |ps| && ps[i].0 == k {
        var i :| 0 <= i < |ps| && ps[i].0 == k;
        if i > 0 {
          assert tail[i - 1].0 == k;
        }
      }
      forall i | 0 <= i < |ps| && ps[i].0 == k && (forall j :: i < j < |ps| ==> ps[j].0 != k)
        ensures InsertPairs(acc, ps)[k] == ps[i].1
      {
        if i > 0 {
          assert tail[i - 1] == ps[i];
        }
      }
    }
  }

  /** The member loop succeeds exactly when reading its list of members
      does, stops at the same place and fails with the same error; its map
      is that list inserted in text order. */
  lemma {:induction false} MembersFold(ts: seq<Token>, pos: nat, acc: map<string, JsonValue>)
    requires pos <= |ts|
    requires forall k :: k in acc ==> StringTree(acc[k])
    ensures MembersAt(ts, pos, acc).pos == MemberListAt(ts, pos).pos
    ensures MembersAt(ts, pos, acc).result.Ok? <==> MemberListAt(ts, pos).result.Ok?
    ensures MemberListAt(ts, pos).result.Ok? ==>
      MembersAt(ts, pos, acc).result.value == InsertPairs(acc, MemberListAt(ts, pos).result.value)
    ensures MemberListAt(ts, pos).result.Err? ==>
      MembersAt(ts, pos, acc).result.error == MemberListAt(ts, pos).result.error
    decreases |ts| - pos
  {
    if !NextIs(ts, pos, RightBrace) {
      var member := MemberAt(ts, pos);
      if member.result.Ok? {
        var (key, value) := member.result.value;
        var next := if NextIs(ts, member.pos, Comma) then member.pos + 1 else member.pos;
        MembersFold(ts, next, acc[key := value]);
        var rest := MemberListAt(ts, next);
        if rest.result.Ok? {
          assert ([member.result.value] + rest.result.value)[1..] == rest.result.value;
        }
      }
    }
  }

  /** `m` holds exactly the keys occurring in `ps`, each with the value of
      its last occurrence. */
  ghost predicate LastOccurrences(m: map<string, JsonValue>, ps: seq<(string, JsonValue)>)
  {
    (forall k :: k in m <==> exists i :: 0 <= i < |ps| && ps[i].0 == k) &&
    (forall i :: 0 <= i < |ps| && (forall j :: i < j < |ps| ==> ps[j].0 != ps[i].0) ==>
       ps[i].0 in m && m[ps[i].0] == ps[i].1)
  }

  /** Whatever the tokens, every key of a successfully parsed object is one
      the member loop read, and it holds the value of the key's last
      occurrence: a later member with the same key overwrites an earlier one. */
  lemma LastOccurrenceWins(ts: seq<Token>, pos: nat)
    requires pos <= |ts| && ObjectAt(ts, pos).result.Ok?
    ensures pos < |ts| && MemberListAt(ts, pos + 1).result.Ok?
    ensures LastOccurrences(ObjectAt(ts, pos).result.value.members, MemberListAt(ts, pos + 1).result.value)
  {
    MembersFold(ts, pos + 1, map[]);
    var ps := MemberListAt(ts, pos + 1).result.value;
    forall k {
      InsertPairsLastWins(map[], ps, k);
    }
  }
}
