/** The in-memory document tree and its textual rendering. */
module JsonValues {

  /** One node of a document. Object members form a map: keys are unique and
      equality ignores member order, as for the hash map behind them. */
  datatype JsonValue =
    | Object(members: map<string, JsonValue>)
    | Array(values: seq<JsonValue>)
    | String(text: string)
    | Number(n: nat)
    | Boolean(b: bool)
    | Null

  /** The order in which the members of an object are visited when it is
      rendered. The hash map fixes that order and says nothing about it, so
      rendering takes it as a parameter. */
  type KeyOrder = map<string, JsonValue> -> seq<string>

  /** `ks` lists every key of `keys` exactly once. */
  ghost predicate IsEnumeration(ks: seq<string>, keys: set<string>)
  {
    (forall i, j :: 0 <= i < j < |ks| ==> ks[i] != ks[j]) &&
    (forall k :: k in ks <==> k in keys)
  }

  /** A hash map visits each of its keys exactly once, in some order. */
  ghost predicate ValidOrder(order: KeyOrder)
  {
    forall m :: IsEnumeration(order(m), m.Keys)
  }

  /** Built from objects, arrays and strings only: the values a parse can produce. */
  predicate StringTree(v: JsonValue)
  {
    match v
    case Object(m) => forall k :: k in m ==> StringTree(m[k])
    case Array(vs) => forall i :: 0 <= i < |vs| ==> StringTree(vs[i])
    case String(_) => true
    case _ => false
  }

  /** No key and no string anywhere in `v` contains a double quote. */
  predicate QuoteFree(v: JsonValue)
  {
    match v
    case Object(m) => forall k :: k in m ==> '"' !in k && QuoteFree(m[k])
    case Array(vs) => forall i :: 0 <= i < |vs| ==> QuoteFree(vs[i])
    case String(s) => '"' !in s
    case _ => true
  }

  /** `items` joined with `sep` between consecutive items. */
  function Join(items: seq<string>, sep: string): string
  {
    if |items| == 0 then ""
    else if |items| == 1 then items[0]
    else items[0] + sep + Join(items[1..], sep)
  }

  /** The decimal digits of `n`, most significant first, without leading zeros. */
  function Decimal(n: nat): (s: string)
    ensures |s| > 0
  {
    if n < 10 then [Digit(n)] else Decimal(n / 10) + [Digit(n % 10)]
  }

  function Digit(d: nat): char
    requires d < 10
  {
    "0123456789"[d]
  }

  predicate IsDigit(c: char)
  {
    '0' <= c <= '9'
  }

  /** The number a string of decimal digits denotes. */
  function DigitsValue(s: string): nat
    requires forall i :: 0 <= i < |s| ==> IsDigit(s[i])
  {
    if s == [] then 0
    else
      assert IsDigit(s[|s| - 1]);
      10 * DigitsValue(s[..|s| - 1]) + (s[|s| - 1] as int - '0' as int)
  }

  /** The `Display` rendering: a single line with `", "` between items and
      `": "` after keys, strings wrapped in quotes without escaping. */
  function Render(v: JsonValue, order: KeyOrder): (r: string)
    ensures |r| > 0
  {
    match v
    case Object(m) => "{" + Join(MemberItems(m, order(m), order), ", ") + "}"
    case Array(vs) => "[" + Join(ElementItems(vs, 0, order), ", ") + "]"
    case String(s) => "\"" + s + "\""
    case Number(n) => Decimal(n)
    case Boolean(b) => if b then "true" else "false"
    case Null => "null"
  }

  /** The member renderings of `m`, in the order `ks` visits its keys: each
      one the quoted key, a colon and a space, then the value. */
  function MemberItems(m: map<string, JsonValue>, ks: seq<string>, order: KeyOrder): seq<string>
    decreases Object(m), |ks|
  {
    if ks == [] then []
    else if ks[0] in m then ["\"" + ks[0] + "\": " + Render(m[ks[0]], order)] + MemberItems(m, ks[1..], order)
    else MemberItems(m, ks[1..], order)
  }

  /** The renderings of `vs[i..]`, in order. */
  function ElementItems(vs: seq<JsonValue>, i: nat, order: KeyOrder): seq<string>
    decreases Array(vs), |vs| - i
  {
    if i >= |vs| then [] else [Render(vs[i], order)] + ElementItems(vs, i + 1, order)
  }

  /** The digit character for `d` has code `'0' + d`. */
  lemma DigitIs(d: nat)
    requires d < 10
    ensures IsDigit(Digit(d)) && Digit(d) as int - '0' as int == d
  {
  }

  /** `usize::to_string`: decimal digits only, no leading zero except for
      zero itself, and they denote `n` again. */
  lemma {:induction false} DecimalDenotes(n: nat)
    ensures forall i :: 0 <= i < |Decimal(n)| ==> IsDigit(Decimal(n)[i])
    ensures DigitsValue(Decimal(n)) == n
    ensures Decimal(n)[0] == '0' ==> n == 0
    decreases n
  {
    var s := Decimal(n);
    if n < 10 {
      DigitIs(n);
      assert s[..|s| - 1] == [];
    } else {
      DecimalDenotes(n / 10);
      DigitIs(n % 10);
      assert s[..|s| - 1] == Decimal(n / 10);
      assert s[0] == Decimal(n / 10)[0];
    }
  }

  /** The member renderings of `m` along keys that `m` holds: one per key, in
      the order of the keys, each the quoted key, `": "` and the rendered value. */
  lemma {:induction false} MemberItemsAre(m: map<string, JsonValue>, ks: seq<string>, order: KeyOrder)
    requires forall i :: 0 <= i < |ks| ==> ks[i] in m
    ensures |MemberItems(m, ks, order)| == |ks|
    ensures forall i :: 0 <= i < |ks| ==>
      MemberItems(m, ks, order)[i] == "\"" + ks[i] + "\": " + Render(m[ks[i]], order)
    decreases |ks|
  {
    if ks != [] {
      MemberItemsAre(m, ks[1..], order);
      var items := MemberItems(m, ks, order);
      assert items[1..] == MemberItems(m, ks[1..], order);
      forall i | 0 <= i < |ks|
        ensures items[i] == "\"" + ks[i] + "\": " + Render(m[ks[i]], order)
      {
        if i > 0 {
          assert items[i] == items[1..][i - 1];
        }
      }
    }
  }

  /** The element renderings of `vs[i..]`: one per element, in order. */
  lemma {:induction false} ElementItemsAre(vs: seq<JsonValue>, i: nat, order: KeyOrder)
    requires i <= |vs|
    ensures |ElementItems(vs, i, order)| == |vs| - i
    ensures forall j :: 0 <= j < |vs| - i ==> ElementItems(vs, i, order)[j] == Render(vs[i + j], order)
    decreases |vs| - i
  {
    if i < |vs| {
      ElementItemsAre(vs, i + 1, order);
      var items := ElementItems(vs, i, order);
      forall j | 0 <= j < |vs| - i
        ensures items[j] == Render(vs[i + j], order)
      {
        if j > 0 {
          assert items[j] == ElementItems(vs, i + 1, order)[j - 1];
        }
      }
    }
  }

  /** An object renders one member per key, each key exactly once: the
      member renderings are those of the keys in the order `order` visits them. */
  lemma ObjectMembersOnce(m: map<string, JsonValue>, order: KeyOrder)
    requires ValidOrder(order)
    ensures |MemberItems(m, order(m), order)| == |order(m)| == |m|
    ensures forall k :: k in m <==> exists i :: 0 <= i < |order(m)| && order(m)[i] == k
    ensures forall i, j :: 0 <= i < j < |order(m)| ==> order(m)[i] != order(m)[j]
    ensures forall i :: 0 <= i < |order(m)| ==>
      MemberItems(m, order(m), order)[i] == "\"" + order(m)[i] + "\": " + Render(m[order(m)[i]], order)
  {
    var ks := order(m);
    assert IsEnumeration(ks, m.Keys);
    assert forall i :: 0 <= i < |ks| ==> ks[i] in m;
    MemberItemsAre(m, ks, order);
    DistinctCount(ks, m.Keys);
  }

  /** A sequence without repetitions that lists exactly the elements of a set has the set's size. */
  lemma {:induction false} DistinctCount(ks: seq<string>, keys: set<string>)
    requires IsEnumeration(ks, keys)
    ensures |ks| == |keys|
    decreases |ks|
  {
    if ks != [] {
      var rest := keys - {ks[0]};
      assert IsEnumeration(ks[1..], rest) by {
        forall k ensures k in ks[1..] <==> k in rest {
          if k in ks[1..] {
            var j :| 0 <= j < |ks[1..]| && ks[1..][j] == k;
            assert ks[j + 1] == k && ks[0] != ks[j + 1];
          }
          if k in rest {
            assert k in ks;
            var j :| 0 <= j < |ks| && ks[j] == k;
            assert j != 0 && ks[1..][j - 1] == k;
          }
        }
      }
      DistinctCount(ks[1..], rest);
    } else {
      assert forall k :: k !in keys;
      assert keys == {};
    }
  }

  /** The empty object renders as `{}` and the empty array as `[]`, whatever
      the member order: no visited key is a member of the empty map. */
  lemma EmptyRenderings(order: KeyOrder)
    ensures Render(Object(map[]), order) == "{}"
    ensures Render(Array([]), order) == "[]"
  {
    EmptyMembers(order(map[]), order);
  }

  lemma {:induction false} EmptyMembers(ks: seq<string>, order: KeyOrder)
    ensures MemberItems(map[], ks, order) == []
    decreases |ks|
  {
    if ks != [] {
      EmptyMembers(ks[1..], order);
    }
  }
}
