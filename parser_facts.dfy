/** What the parser does with the tokens of a tree: every tree of objects,
    arrays and strings is read back from its tokens, whichever commas follow
    the members and elements, and the reading stops right after them. */
module ParserFacts {
  import opened Wrappers
  import opened Tokens
  import opened JsonValues
  import opened TreeTokens
  import opened Parser

  /** Members inserted one after another into `acc`, each replacing any
      earlier value of its key, as the member loop inserts them. */
  function InsertPairs(acc: map<string, JsonValue>, ps: seq<(string, JsonValue)>): map<string, JsonValue>
    decreases |ps|
  {
    if ps == [] then acc else InsertPairs(acc[ps[0].0 := ps[0].1], ps[1..])
  }

  /** The members of `m` named by `ks`, in the order of `ks`. */
  function KeyPairs(m: map<string, JsonValue>, ks: seq<string>): (ps: seq<(string, JsonValue)>)
    requires forall i :: 0 <= i < |ks| ==> ks[i] in m
    ensures |ps| == |ks| && forall i :: 0 <= i < |ks| ==> ps[i] == (ks[i], m[ks[i]])
    decreases |ks|
  {
    if ks == [] then [] else [(ks[0], m[ks[0]])] + KeyPairs(m, ks[1..])
  }

  /** The members of `m` named by `ks` inserted one after another into `acc`. */
  function InsertKeys(acc: map<string, JsonValue>, m: map<string, JsonValue>, ks: seq<string>): map<string, JsonValue>
    requires forall i :: 0 <= i < |ks| ==> ks[i] in m
  {
    InsertPairs(acc, KeyPairs(m, ks))
  }

  /** Inserting the members `ks` names is inserting the first, then the rest. */
  lemma InsertKeysStep(acc: map<string, JsonValue>, m: map<string, JsonValue>, ks: seq<string>)
    requires forall i :: 0 <= i < |ks| ==> ks[i] in m
    requires ks != []
    ensures InsertKeys(acc, m, ks) == InsertKeys(acc[ks[0] := m[ks[0]]], m, ks[1..])
  {
    assert KeyPairs(m, ks)[1..] == KeyPairs(m, ks[1..]);
  }

  /** Inserting the members `ks` names adds exactly those entries of `m`. */
  lemma {:induction false} InsertKeysAdds(acc: map<string, JsonValue>, m: map<string, JsonValue>, ks: seq<string>)
    requires forall i :: 0 <= i < |ks| ==> ks[i] in m
    ensures InsertKeys(acc, m, ks) == acc + map k | k in ks && k in m :: m[k]
    decreases |ks|
  {
    var all := map k | k in ks && k in m :: m[k];
    if ks == [] {
      assert KeyPairs(m, ks) == [];
      assert all == map[];
    } else {
      var acc' := acc[ks[0] := m[ks[0]]];
      InsertKeysStep(acc, m, ks);
      InsertKeysAdds(acc', m, ks[1..]);
      AddFirst(acc, m, ks);
    }
  }

  /** Adding the entries `ks` names, the first one alone and then the rest. */
  lemma AddFirst(acc: map<string, JsonValue>, m: map<string, JsonValue>, ks: seq<string>)
    requires ks != [] && ks[0] in m
    ensures acc[ks[0] := m[ks[0]]] + (map k | k in ks[1..] && k in m :: m[k])
         == acc + (map k | k in ks && k in m :: m[k])
  {
    assert forall k :: k in ks <==> k == ks[0] || k in ks[1..];
  }

  /** Inserting every key of an enumeration of `m`'s keys into nothing rebuilds `m`. */
  lemma InsertAllKeys(m: map<string, JsonValue>, ks: seq<string>)
    requires IsEnumeration(ks, m.Keys)
    ensures forall i :: 0 <= i < |ks| ==> ks[i] in m
    ensures InsertKeys(map[], m, ks) == m
  {
    InsertKeysAdds(map[], m, ks);
  }

  /** `parse_object` on `{`, members that stop at a `}`, then that `}`. */
  lemma ObjectStep(ts: seq<Token>, pos: nat, m: map<string, JsonValue>, close: nat)
    requires pos < close < |ts| && ts[pos] == LeftBrace && ts[close] == RightBrace
    requires MembersAt(ts, pos + 1, map[]) == Step(Ok(m), close)
    ensures ValueAt(ts, pos) == Step(Ok(Object(m)), close + 1)
  {
  }

  /** `parse_array` on `[`, elements that stop at a `]`, then that `]`. */
  lemma ArrayStep(ts: seq<Token>, pos: nat, vs: seq<JsonValue>, close: nat)
    requires pos < close < |ts| && ts[pos] == LeftBracket && ts[close] == RightBracket
    requires ElementsAt(ts, pos + 1, []) == Step(Ok(vs), close)
    ensures ValueAt(ts, pos) == Step(Ok(Array(vs)), close + 1)
  {
  }

  /** One turn of the member loop: key, colon, a value read up to `after`,
      then `next` is past the comma if one follows. */
  lemma MemberStep(ts: seq<Token>, pos: nat, acc: map<string, JsonValue>, k: string, v: JsonValue, after: nat, next: nat)
    requires pos + 2 <= after <= |ts| && ts[pos] == Identifier(k) && ts[pos + 1] == Colon
    requires forall key :: key in acc ==> StringTree(acc[key])
    requires ValueAt(ts, pos + 2) == Step(Ok(v), after)
    requires next == if NextIs(ts, after, Comma) then after + 1 else after
    ensures next <= |ts|
    ensures MembersAt(ts, pos, acc) == MembersAt(ts, next, acc[k := v])
  {
  }

  /** One turn of the element loop: a value read up to `after`, then `next`
      is past the comma if one follows. */
  lemma ElementStep(ts: seq<Token>, pos: nat, acc: seq<JsonValue>, v: JsonValue, after: nat, next: nat)
    requires pos < after <= |ts| && ts[pos] != RightBracket
    requires forall j :: 0 <= j < |acc| ==> StringTree(acc[j])
    requires ValueAt(ts, pos) == Step(Ok(v), after)
    requires next == if NextIs(ts, after, Comma) then after + 1 else after
    ensures StringTree(v) && next <= |ts|
    ensures ElementsAt(ts, pos, acc) == ElementsAt(ts, next, acc + [v])
  {
  }

  /** `xs` occurs in `ts` starting at `pos`. */
  ghost predicate At(ts: seq<Token>, pos: nat, xs: seq<Token>)
  {
    pos + |xs| <= |ts| && forall j :: 0 <= j < |xs| ==> ts[pos + j] == xs[j]
  }

  lemma AtSplit(ts: seq<Token>, pos: nat, a: seq<Token>, b: seq<Token>)
    requires At(ts, pos, a + b)
    ensures At(ts, pos, a) && At(ts, pos + |a|, b)
  {
    forall j | 0 <= j < |a| ensures ts[pos + j] == a[j] {
      assert ts[pos + j] == (a + b)[j];
    }
    forall j | 0 <= j < |b| ensures ts[pos + |a| + j] == b[j] {
      assert ts[pos + (|a| + j)] == (a + b)[|a| + j];
    }
  }

  lemma AtHead(ts: seq<Token>, pos: nat, xs: seq<Token>)
    requires At(ts, pos, xs) && |xs| > 0
    ensures pos < |ts| && ts[pos] == xs[0]
  {
    assert ts[pos + 0] == xs[0];
  }

  /** The first of the member tokens, if any, is the first key. */
  lemma MembersHead(m: map<string, JsonValue>, ks: seq<string>, commas: seq<bool>, order: KeyOrder)
    requires StringTree(Object(m))
    requires forall i :: 0 <= i < |ks| ==> ks[i] in m
    requires |commas| == |ks| && |ks| > 0
    ensures Separated(MemberTokenItems(m, ks, order), commas) != []
    ensures Separated(MemberTokenItems(m, ks, order), commas)[0] == Identifier(ks[0])
  {
  }

  /** The first of the element tokens, if any, opens the first element. */
  lemma ElementsHead(vs: seq<JsonValue>, i: nat, commas: seq<bool>, order: KeyOrder)
    requires i < |vs| && |commas| == |vs| - i
    requires forall j :: 0 <= j < |vs| ==> StringTree(vs[j])
    ensures Separated(ElementTokenItems(vs, i, order), commas) != []
    ensures Separated(ElementTokenItems(vs, i, order), commas)[0] == TokensOf(vs[i], order)[0]
  {
  }

  /** The tokens of an object: its braces around its members' tokens, in
      the order the key order visits them, separated as the writer does. */
  lemma ObjectTokens(m: map<string, JsonValue>, order: KeyOrder)
    requires StringTree(Object(m))
    requires forall i :: 0 <= i < |order(m)| ==> order(m)[i] in m
    ensures TokensOf(Object(m), order)
         == [LeftBrace] + Separated(MemberTokenItems(m, order(m), order), Between(|order(m)|)) + [RightBrace]
  {
  }

  /** The tokens of an array: its brackets around its elements' tokens. */
  lemma ArrayTokens(vs: seq<JsonValue>, order: KeyOrder)
    requires StringTree(Array(vs))
    ensures TokensOf(Array(vs), order) == [LeftBracket] + Separated(ElementTokenItems(vs, 0, order), Between(|vs|)) + [RightBracket]
  {
  }

  /** Member tokens: the first key, a colon, the first value, its comma if
      any, then the other members. */
  lemma MembersCons(m: map<string, JsonValue>, ks: seq<string>, commas: seq<bool>, order: KeyOrder)
    requires StringTree(Object(m))
    requires forall i :: 0 <= i < |ks| ==> ks[i] in m
    requires |commas| == |ks| && |ks| > 0
    ensures Separated(MemberTokenItems(m, ks, order), commas)
         == [Identifier(ks[0]), Colon] + TokensOf(m[ks[0]], order) + (if commas[0] then [Comma] else [])
            + Separated(MemberTokenItems(m, ks[1..], order), commas[1..])
  {
    var items := MemberTokenItems(m, ks, order);
    assert items[0] == [Identifier(ks[0]), Colon] + TokensOf(m[ks[0]], order);
    assert items[1..] == MemberTokenItems(m, ks[1..], order);
  }

  /** Element tokens: the first element, its comma if any, then the others. */
  lemma ElementsCons(vs: seq<JsonValue>, i: nat, commas: seq<bool>, order: KeyOrder)
    requires i < |vs| && |commas| == |vs| - i
    requires forall j :: 0 <= j < |vs| ==> StringTree(vs[j])
    ensures Separated(ElementTokenItems(vs, i, order), commas)
         == TokensOf(vs[i], order) + (if commas[0] then [Comma] else [])
            + Separated(ElementTokenItems(vs, i + 1, order), commas[1..])
  {
    var items := ElementTokenItems(vs, i, order);
    assert items[1..] == ElementTokenItems(vs, i + 1, order);
  }

  lemma AppendNext(acc: seq<JsonValue>, vs: seq<JsonValue>, i: nat)
    requires i < |vs|
    ensures acc + [vs[i]] + vs[i + 1..] == acc + vs[i..]
  {
    assert vs[i..] == [vs[i]] + vs[i + 1..];
  }

  /** An opening token, a body and a closing token. */
  lemma BracketLayout(ts: seq<Token>, pos: nat, open: Token, body: seq<Token>, close: Token)
    requires At(ts, pos, [open] + body + [close])
    ensures pos + 1 + |body| < |ts| && ts[pos] == open && ts[pos + 1 + |body|] == close
    ensures At(ts, pos + 1, body)
  {
    AtSplit(ts, pos, [open] + body, [close]);
    AtSplit(ts, pos, [open], body);
    AtHead(ts, pos, [open]);
    AtHead(ts, pos + 1 + |body|, [close]);
  }

  /** An item, an optional comma, then more tokens up to a closing token,
      where neither the closing token nor what follows the comma is a comma:
      the comma is next after the item exactly when it was written. */
  lemma ItemLayout(ts: seq<Token>, pos: nat, item: seq<Token>, comma: bool, rest: seq<Token>, close: Token)
    requires At(ts, pos, item + (if comma then [Comma] else []) + rest)
    requires pos + |item + (if comma then [Comma] else []) + rest| < |ts|
    requires ts[pos + |item + (if comma then [Comma] else []) + rest|] == close
    requires close != Comma && (rest != [] ==> rest[0] != Comma)
    ensures At(ts, pos, item)
    ensures pos + |item| < |ts| && NextIs(ts, pos + |item|, Comma) == comma
    ensures At(ts, pos + |item| + (if comma then 1 else 0), rest)
  {
    var sep: seq<Token> := if comma then [Comma] else [];
    AtSplit(ts, pos, item + sep, rest);
    AtSplit(ts, pos, item, sep);
    if comma {
      AtHead(ts, pos + |item|, sep);
    } else if rest != [] {
      AtHead(ts, pos + |item|, rest);
    }
  }

  /** A key and a colon, then more tokens. */
  lemma KeyColonLayout(ts: seq<Token>, pos: nat, k: string, tail: seq<Token>)
    requires At(ts, pos, [Identifier(k), Colon] + tail)
    ensures pos + 1 < |ts| && ts[pos] == Identifier(k) && ts[pos + 1] == Colon
    ensures At(ts, pos + 2, tail)
  {
    AtSplit(ts, pos, [Identifier(k), Colon], tail);
    AtHead(ts, pos, [Identifier(k), Colon]);
    assert ts[pos + 1] == Colon by {
      assert [Identifier(k), Colon][1] == Colon;
    }
  }

  /** A key, a colon, a value's tokens, an optional comma, then more tokens
      up to a closing token that is not a comma. */
  lemma KeyItemLayout(ts: seq<Token>, pos: nat, whole: seq<Token>, k: string, vt: seq<Token>, comma: bool,
                      rest: seq<Token>, close: Token, after: nat, next: nat)
    requires whole == [Identifier(k), Colon] + vt + (if comma then [Comma] else []) + rest
    requires At(ts, pos, whole) && pos + |whole| < |ts| && ts[pos + |whole|] == close
    requires close != Comma && (rest != [] ==> rest[0] != Comma)
    requires after == pos + 2 + |vt| && next == if comma then after + 1 else after
    ensures pos + 1 < |ts| && ts[pos] == Identifier(k) && ts[pos + 1] == Colon
    ensures At(ts, pos + 2, vt)
    ensures after < |ts| && NextIs(ts, after, Comma) == comma
    ensures At(ts, next, rest) && next + |rest| == pos + |whole|
  {
    ItemLayout(ts, pos, [Identifier(k), Colon] + vt, comma, rest, close);
    KeyColonLayout(ts, pos, k, vt);
  }

  /** Where member tokens occur, followed by `}`: the first key, `:`, the
      first value, a comma exactly when its flag is set, then the others. */
  lemma MembersLayout(ts: seq<Token>, pos: nat, m: map<string, JsonValue>, ks: seq<string>, commas: seq<bool>,
                      order: KeyOrder, whole: seq<Token>, after: nat, next: nat, rest: seq<Token>)
    requires StringTree(Object(m))
    requires forall i :: 0 <= i < |ks| ==> ks[i] in m
    requires |commas| == |ks| && |ks| > 0
    requires whole == Separated(MemberTokenItems(m, ks, order), commas)
    requires At(ts, pos, whole) && pos + |whole| < |ts| && ts[pos + |whole|] == RightBrace
    requires after == pos + 2 + |TokensOf(m[ks[0]], order)|
    requires next == if commas[0] then after + 1 else after
    requires rest == Separated(MemberTokenItems(m, ks[1..], order), commas[1..])
    ensures pos + 1 < |ts| && ts[pos] == Identifier(ks[0]) && ts[pos + 1] == Colon
    ensures At(ts, pos + 2, TokensOf(m[ks[0]], order))
    ensures after < |ts| && NextIs(ts, after, Comma) == commas[0]
    ensures At(ts, next, rest) && next + |rest| == pos + |whole|
  {
    MembersCons(m, ks, commas, order);
    if ks[1..] != [] {
      MembersHead(m, ks[1..], commas[1..], order);
    }
    KeyItemLayout(ts, pos, whole, ks[0], TokensOf(m[ks[0]], order), commas[0], rest, RightBrace, after, next);
  }

  /** Where element tokens occur, followed by `]`: the first element, a comma
      exactly when its flag is set, then the others. */
  lemma ElementsLayout(ts: seq<Token>, pos: nat, vs: seq<JsonValue>, i: nat, commas: seq<bool>, order: KeyOrder)
    requires i < |vs| && |commas| == |vs| - i
    requires forall j :: 0 <= j < |vs| ==> StringTree(vs[j])
    requires At(ts, pos, Separated(ElementTokenItems(vs, i, order), commas))
    requires pos + |Separated(ElementTokenItems(vs, i, order), commas)| < |ts|
    requires ts[pos + |Separated(ElementTokenItems(vs, i, order), commas)|] == RightBracket
    ensures pos < |ts| && ts[pos] != RightBracket
    ensures At(ts, pos, TokensOf(vs[i], order))
    ensures var after := pos + |TokensOf(vs[i], order)|;
            var next := if commas[0] then after + 1 else after;
            var rest := Separated(ElementTokenItems(vs, i + 1, order), commas[1..]);
            after < |ts| && NextIs(ts, after, Comma) == commas[0] && At(ts, next, rest) &&
            next + |rest| == pos + |Separated(ElementTokenItems(vs, i, order), commas)|
  {
    var vt := TokensOf(vs[i], order);
    var rest := Separated(ElementTokenItems(vs, i + 1, order), commas[1..]);
    ElementsCons(vs, i, commas, order);
    if i + 1 < |vs| {
      ElementsHead(vs, i + 1, commas[1..], order);
    }
    ItemLayout(ts, pos, vt, commas[0], rest, RightBracket);
    AtHead(ts, pos, vt);
  }

  /** Reading a value where its own tokens occur gives back that value and
      stops right after them, whatever surrounds them. */
  lemma {:induction false} ParseValueTokens(ts: seq<Token>, pos: nat, v: JsonValue, order: KeyOrder)
    requires StringTree(v) && ValidOrder(order)
    requires At(ts, pos, TokensOf(v, order))
    ensures ValueAt(ts, pos) == Step(Ok(v), pos + |TokensOf(v, order)|)
    decreases v, 2
  {
    match v
    case String(s) =>
      AtHead(ts, pos, TokensOf(v, order));
    case Object(m) =>
      ParseObjectTokens(ts, pos, m, order);
    case Array(vs) =>
      ParseArrayTokens(ts, pos, vs, order);
  }

  /** Reading an object where its tokens occur. */
  lemma {:induction false} ParseObjectTokens(ts: seq<Token>, pos: nat, m: map<string, JsonValue>, order: KeyOrder)
    requires StringTree(Object(m)) && ValidOrder(order)
    requires At(ts, pos, TokensOf(Object(m), order))
    ensures ValueAt(ts, pos) == Step(Ok(Object(m)), pos + |TokensOf(Object(m), order)|)
    decreases Object(m), 1
  {
    var ks := order(m);
    assert IsEnumeration(ks, m.Keys);
    InsertAllKeys(m, ks);
    var body := Separated(MemberTokenItems(m, ks, order), Between(|ks|));
    ObjectTokens(m, order);
    BracketLayout(ts, pos, LeftBrace, body, RightBrace);
    ParseMembersTokens(ts, pos + 1, m, ks, Between(|ks|), map[], order);
    ObjectStep(ts, pos, m, pos + 1 + |body|);
  }

  /** Reading an array where its tokens occur. */
  lemma {:induction false} ParseArrayTokens(ts: seq<Token>, pos: nat, vs: seq<JsonValue>, order: KeyOrder)
    requires StringTree(Array(vs)) && ValidOrder(order)
    requires At(ts, pos, TokensOf(Array(vs), order))
    ensures ValueAt(ts, pos) == Step(Ok(Array(vs)), pos + |TokensOf(Array(vs), order)|)
    decreases Array(vs), 1
  {
    var body := Separated(ElementTokenItems(vs, 0, order), Between(|vs|));
    ArrayTokens(vs, order);
    BracketLayout(ts, pos, LeftBracket, body, RightBracket);
    ParseElementsTokens(ts, pos + 1, vs, 0, Between(|vs|), [], order);
    assert [] + vs[0..] == vs;
    ArrayStep(ts, pos, vs, pos + 1 + |body|);
  }

  /** One turn of the member loop followed by the rest of the loop: reading
      the first member and then the others inserts all of them. */
  lemma MembersTurn(ts: seq<Token>, pos: nat, m: map<string, JsonValue>, ks: seq<string>,
                    acc: map<string, JsonValue>, after: nat, next: nat, stop: nat)
    requires StringTree(Object(m))
    requires forall i :: 0 <= i < |ks| ==> ks[i] in m
    requires |ks| > 0
    requires forall k :: k in acc ==> StringTree(acc[k])
    requires pos + 1 < |ts| && ts[pos] == Identifier(ks[0]) && ts[pos + 1] == Colon
    requires pos + 2 <= after <= |ts|
    requires ValueAt(ts, pos + 2) == Step(Ok(m[ks[0]]), after)
    requires next == if NextIs(ts, after, Comma) then after + 1 else after
    requires MembersAt(ts, next, acc[ks[0] := m[ks[0]]]) == Step(Ok(InsertKeys(acc[ks[0] := m[ks[0]]], m, ks[1..])), stop)
    ensures MembersAt(ts, pos, acc) == Step(Ok(InsertKeys(acc, m, ks)), stop)
  {
    MemberStep(ts, pos, acc, ks[0], m[ks[0]], after, next);
    InsertKeysStep(acc, m, ks);
  }

  /** The member loop reads the members `ks` names, written with any choice
      of commas after them, inserting them in order, and stops at the
      closing brace. */
  lemma {:induction false} ParseMembersTokens(ts: seq<Token>, pos: nat, m: map<string, JsonValue>, ks: seq<string>,
                                              commas: seq<bool>, acc: map<string, JsonValue>, order: KeyOrder)
    requires StringTree(Object(m)) && ValidOrder(order)
    requires forall i :: 0 <= i < |ks| ==> ks[i] in m
    requires |commas| == |ks|
    requires forall k :: k in acc ==> StringTree(acc[k])
    requires At(ts, pos, Separated(MemberTokenItems(m, ks, order), commas))
    requires pos + |Separated(MemberTokenItems(m, ks, order), commas)| < |ts|
    requires ts[pos + |Separated(MemberTokenItems(m, ks, order), commas)|] == RightBrace
    ensures MembersAt(ts, pos, acc) == Step(Ok(InsertKeys(acc, m, ks)), pos + |Separated(MemberTokenItems(m, ks, order), commas)|)
    decreases Object(m), 0, |ks|
  {
    if ks != [] {
      var after := pos + 2 + |TokensOf(m[ks[0]], order)|;
      var next := if commas[0] then after + 1 else after;
      var rest := Separated(MemberTokenItems(m, ks[1..], order), commas[1..]);
      MembersLayout(ts, pos, m, ks, commas, order, Separated(MemberTokenItems(m, ks, order), commas), after, next, rest);
      ParseValueTokens(ts, pos + 2, m[ks[0]], order);
      ParseMembersTokens(ts, next, m, ks[1..], commas[1..], acc[ks[0] := m[ks[0]]], order);
      MembersTurn(ts, pos, m, ks, acc, after, next, next + |rest|);
    }
  }

  /** The element loop reads elements written with any choice of commas after
      them, keeping their order, and stops at the closing bracket. */
  lemma {:induction false} ParseElementsTokens(ts: seq<Token>, pos: nat, vs: seq<JsonValue>, i: nat, commas: seq<bool>,
                                               acc: seq<JsonValue>, order: KeyOrder)
    requires i <= |vs| && |commas| == |vs| - i && ValidOrder(order)
    requires forall j :: 0 <= j < |vs| ==> StringTree(vs[j])
    requires forall j :: 0 <= j < |acc| ==> StringTree(acc[j])
    requires At(ts, pos, Separated(ElementTokenItems(vs, i, order), commas))
    requires pos + |Separated(ElementTokenItems(vs, i, order), commas)| < |ts|
    requires ts[pos + |Separated(ElementTokenItems(vs, i, order), commas)|] == RightBracket
    ensures ElementsAt(ts, pos, acc) == Step(Ok(acc + vs[i..]), pos + |Separated(ElementTokenItems(vs, i, order), commas)|)
    decreases Array(vs), 0, |vs| - i
  {
    if i == |vs| {
      assert acc + vs[i..] == acc;
    } else {
      ElementsLayout(ts, pos, vs, i, commas, order);
      ParseValueTokens(ts, pos, vs[i], order);
      var after := pos + |TokensOf(vs[i], order)|;
      var next := if commas[0] then after + 1 else after;
      ElementStep(ts, pos, acc, vs[i], after, next);
      ParseElementsTokens(ts, next, vs, i + 1, commas[1..], acc + [vs[i]], order);
      AppendNext(acc, vs, i);
    }
  }
}
