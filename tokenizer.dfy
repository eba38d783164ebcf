/** The tokenizer: one left-to-right scan from text to tokens. */
module Tokenizer {
  import opened Wrappers
  import opened Tokens

  /** The two ways tokenizing can fail. */
  datatype TokenizeError =
    | UnterminatedString          // input ended before the closing quote
    | UnexpectedChar(c: char)     // any character the scanner has no rule for

  /** Unicode's White_Space property, the table behind Rust's `char::is_whitespace`. */
  predicate IsWhitespace(c: char)
  {
    ('\t' <= c <= '\r') || c == ' ' || c == '\U{0085}' || c == '\U{00A0}' || c == '\U{1680}'
    || ('\U{2000}' <= c <= '\U{200A}') || c == '\U{2028}' || c == '\U{2029}'
    || c == '\U{202F}' || c == '\U{205F}' || c == '\U{3000}'
  }

  /** The token of each of the six structural characters `{ } [ ] : ,`. */
  function Structural(c: char): Option<Token>
  {
    if c == '{' then Some(LeftBrace)
    else if c == '}' then Some(RightBrace)
    else if c == '[' then Some(LeftBracket)
    else if c == ']' then Some(RightBracket)
    else if c == ':' then Some(Colon)
    else if c == ',' then Some(Comma)
    else None
  }

  /** Prepends `ts` to a successful result; an error passes through. */
  function Then(ts: seq<Token>, r: Result<seq<Token>, TokenizeError>): Result<seq<Token>, TokenizeError>
  {
    if r.Ok? then Ok(ts + r.value) else r
  }

  /** Tokenizing `s1 + s2` when `s1` alone gave `r1`: the tokens of both, or the first error. */
  function Chain(r1: Result<seq<Token>, TokenizeError>, r2: Result<seq<Token>, TokenizeError>): Result<seq<Token>, TokenizeError>
  {
    if r1.Ok? then Then(r1.value, r2) else r1
  }

  /** The length of the longest prefix of `s` without a double quote. */
  function QuoteFreeLength(s: string): (n: nat)
    ensures n <= |s|
    ensures '"' !in s[..n]
    ensures n < |s| ==> s[n] == '"'
  {
    if s == [] || s[0] == '"' then 0
    else
      var n := 1 + QuoteFreeLength(s[1..]);
      assert s[..n] == [s[0]] + s[1..][..n - 1];
      n
  }

  /** What tokenizing `s` yields: the scan rules, one character (or one quoted
      literal) at a time, stopping at the first error. */
  function Lex(s: string): (r: Result<seq<Token>, TokenizeError>)
    decreases |s|
  {
    if s == [] then Ok([])
    else
      var c := s[0];
      match Structural(c)
      case Some(t) => Then([t], Lex(s[1..]))
      case None =>
        if IsWhitespace(c) then Lex(s[1..])
        else if c == '"' then
          var n := QuoteFreeLength(s[1..]);
          if n == |s| - 1 then Err(UnterminatedString)
          else Then([Identifier(s[1..1 + n])], Lex(s[n + 2..]))
        else Err(UnexpectedChar(c))
  }

  /** `tokenize`: the scan written as the source writes it, an outer loop over
      characters and an inner loop gathering a quoted literal. */
  method Tokenize(text: string) returns (r: Result<seq<Token>, TokenizeError>)
    ensures r == Lex(text)
  {
    var tokens: seq<Token> := [];
    var i := 0;
    ScanStart(text);
    while i < |text|
      invariant 0 <= i <= |text|
      invariant Scanned(text, i, tokens)
    {
      var c := text[i];
      i := i + 1;
      var punct := Structural(c);
      if punct.Some? {
        ScanStructural(text, i - 1, tokens);
        tokens := tokens + [punct.value];
      } else if IsWhitespace(c) {
        ScanWhitespace(text, i - 1, tokens);
        continue;
      } else if c == '"' {
        var start := i;
        var ident;
        ident, i := ScanLiteral(text, start);
        if i == |text| {
          ScanUnterminated(text, start, tokens);
          return Err(UnterminatedString);
        }
        ScanClosedLiteral(text, start, i, tokens);
        i := i + 1;
        tokens := tokens + [Identifier(ident)];
      } else {
        ScanUnexpected(text, i - 1, tokens);
        return Err(UnexpectedChar(c));
      }
    }
    ScanEnd(text, tokens);
    return Ok(tokens);
  }

  /** The loop invariant of `Tokenize`: `tokens` followed by the tokens of
      `text[i..]` are the tokens of `text`. */
  ghost predicate Scanned(text: string, i: nat, tokens: seq<Token>)
    requires i <= |text|
  {
    Lex(text) == Then(tokens, Lex(text[i..]))
  }

  lemma ScanStart(text: string)
    ensures Scanned(text, 0, [])
  {
    assert text[0..] == text;
    assert Lex(text).Ok? ==> [] + Lex(text).value == Lex(text).value;
  }

  lemma ScanEnd(text: string, tokens: seq<Token>)
    requires Scanned(text, |text|, tokens)
    ensures Lex(text) == Ok(tokens)
  {
    assert text[|text|..] == [] && tokens + [] == tokens;
  }

  lemma ScanStructural(text: string, i: nat, tokens: seq<Token>)
    requires i < |text| && Scanned(text, i, tokens) && Structural(text[i]).Some?
    ensures Scanned(text, i + 1, tokens + [Structural(text[i]).value])
  {
    assert text[i..][1..] == text[i + 1..];
    LexStructuralStep(text[i..]);
    ThenThen(tokens, [Structural(text[i]).value], Lex(text[i + 1..]));
  }

  lemma ScanWhitespace(text: string, i: nat, tokens: seq<Token>)
    requires i < |text| && Scanned(text, i, tokens) && IsWhitespace(text[i])
    ensures Scanned(text, i + 1, tokens)
  {
    assert text[i..][1..] == text[i + 1..];
    LexWhitespaceStep(text[i..]);
  }

  lemma ScanUnexpected(text: string, i: nat, tokens: seq<Token>)
    requires i < |text| && Scanned(text, i, tokens)
    requires Structural(text[i]).None? && !IsWhitespace(text[i]) && text[i] != '"'
    ensures Lex(text) == Err(UnexpectedChar(text[i]))
  {
    LexUnexpectedStep(text[i..]);
  }

  lemma ScanUnterminated(text: string, start: nat, tokens: seq<Token>)
    requires 0 < start <= |text| && Scanned(text, start - 1, tokens) && text[start - 1] == '"'
    requires forall k :: start <= k < |text| ==> text[k] != '"'
    ensures Lex(text) == Err(UnterminatedString)
  {
    LexUnterminatedAt(text, start);
  }

  lemma ScanClosedLiteral(text: string, start: nat, close: nat, tokens: seq<Token>)
    requires 0 < start <= close < |text| && Scanned(text, start - 1, tokens)
    requires text[start - 1] == '"' && text[close] == '"'
    requires forall k :: start <= k < close ==> text[k] != '"'
    ensures Scanned(text, close + 1, tokens + [Identifier(text[start..close])])
  {
    LexLiteralAt(text, start, close);
    ThenThen(tokens, [Identifier(text[start..close])], Lex(text[close + 1..]));
  }

  /** The inner loop of `tokenize`: gathers the characters of a literal from
      `start` up to (not including) the next quote, or to the end of the text. */
  method ScanLiteral(text: string, start: nat) returns (ident: string, stop: nat)
    requires start <= |text|
    ensures start <= stop <= |text|
    ensures ident == text[start..stop]
    ensures forall k :: start <= k < stop ==> text[k] != '"'
    ensures stop < |text| ==> text[stop] == '"'
  {
    ident, stop := [], start;
    while stop < |text| && text[stop] != '"'
      invariant start <= stop <= |text|
      invariant ident == text[start..stop]
      invariant forall k :: start <= k < stop ==> text[k] != '"'
    {
      ident := ident + [text[stop]];
      stop := stop + 1;
    }
  }

  /** A structural character yields its token ahead of the rest of the scan. */
  lemma LexStructuralStep(s: string)
    requires s != [] && Structural(s[0]).Some?
    ensures Lex(s) == Then([Structural(s[0]).value], Lex(s[1..]))
  {
  }

  /** A whitespace character yields nothing. */
  lemma LexWhitespaceStep(s: string)
    requires s != [] && IsWhitespace(s[0])
    ensures Lex(s) == Lex(s[1..])
  {
  }

  /** A character with no rule stops the scan. */
  lemma LexUnexpectedStep(s: string)
    requires s != [] && Structural(s[0]).None? && !IsWhitespace(s[0]) && s[0] != '"'
    ensures Lex(s) == Err(UnexpectedChar(s[0]))
  {
  }

  /** A literal opened at `text[start - 1]` and closed at `text[close]` yields one
      identifier holding exactly the characters in between. */
  lemma LexLiteralAt(text: string, start: nat, close: nat)
    requires 0 < start <= close < |text|
    requires text[start - 1] == '"' && text[close] == '"'
    requires forall k :: start <= k < close ==> text[k] != '"'
    ensures Lex(text[start - 1..]) == Then([Identifier(text[start..close])], Lex(text[close + 1..]))
  {
    var s := text[start - 1..];
    var n := close - start;
    assert s[1..] == text[start..];
    assert s[1..][..n] == text[start..close] == s[1..1 + n];
    QuoteFreeLengthIs(s[1..], n);
    assert s[n + 2..] == text[close + 1..];
    assert Structural(s[0]).None? && !IsWhitespace(s[0]);
  }

  /** A literal opened at `text[start - 1]` and never closed makes the scan fail. */
  lemma LexUnterminatedAt(text: string, start: nat)
    requires 0 < start <= |text| && text[start - 1] == '"'
    requires forall k :: start <= k < |text| ==> text[k] != '"'
    ensures Lex(text[start - 1..]) == Err(UnterminatedString)
  {
    var s := text[start - 1..];
    assert s[1..][..|s| - 1] == text[start..];
    QuoteFreeLengthIs(s[1..], |s| - 1);
  }

  lemma ThenThen(ts: seq<Token>, us: seq<Token>, r: Result<seq<Token>, TokenizeError>)
    ensures Then(ts, Then(us, r)) == Then(ts + us, r)
  {
    if r.Ok? {
      assert ts + (us + r.value) == (ts + us) + r.value;
    }
  }

  /** A prefix length with no quote that ends at a quote or at the end is the quote-free length. */
  lemma {:induction false} QuoteFreeLengthIs(s: string, n: nat)
    requires n <= |s| && '"' !in s[..n]
    requires n < |s| ==> s[n] == '"'
    ensures QuoteFreeLength(s) == n
  {
    if n > 0 {
      assert s[0] == s[..n][0];
      assert s[1..][..n - 1] == s[..n][1..];
      QuoteFreeLengthIs(s[1..], n - 1);
    }
  }

  /** Scanning never yields more tokens than there are characters. */
  lemma {:induction false} LexLength(s: string)
    requires Lex(s).Ok?
    ensures |Lex(s).value| <= |s|
    decreases |s|
  {
    if s != [] {
      var c := s[0];
      if Structural(c).Some? {
        LexLength(s[1..]);
      } else if IsWhitespace(c) {
        LexLength(s[1..]);
      } else {
        var n := QuoteFreeLength(s[1..]);
        LexLength(s[n + 2..]);
      }
    }
  }

  /** No identifier that the scan yields contains a double quote. */
  lemma {:induction false} LexIdentifiersQuoteFree(s: string)
    requires Lex(s).Ok?
    ensures forall t :: t in Lex(s).value && t.Identifier? ==> '"' !in t.text
    decreases |s|
  {
    if s != [] {
      var c := s[0];
      if Structural(c).Some? {
        LexIdentifiersQuoteFree(s[1..]);
      } else if IsWhitespace(c) {
        LexIdentifiersQuoteFree(s[1..]);
      } else {
        var n := QuoteFreeLength(s[1..]);
        assert s[1..1 + n] == s[1..][..n];
        LexIdentifiersQuoteFree(s[n + 2..]);
      }
    }
  }

  /** Scanning is compositional: unless the first part ends inside an open
      literal, tokenizing `s1 + s2` gives the tokens of `s1` followed by those
      of `s2`, or the first error met. */
  lemma {:induction false} LexAppend(s1: string, s2: string)
    requires Lex(s1) != Err(UnterminatedString)
    ensures Lex(s1 + s2) == Chain(Lex(s1), Lex(s2))
    decreases |s1|
  {
    if s1 == [] {
      assert s1 + s2 == s2;
      if Lex(s2).Ok? {
        assert [] + Lex(s2).value == Lex(s2).value;
      }
    } else {
      var s := s1 + s2;
      var c := s1[0];
      assert s[0] == c;
      assert s[1..] == s1[1..] + s2;
      if Structural(c).Some? {
        LexAppend(s1[1..], s2);
        ThenChain([Structural(c).value], Lex(s1[1..]), Lex(s2));
      } else if IsWhitespace(c) {
        LexAppend(s1[1..], s2);
      } else if c == '"' {
        var n := QuoteFreeLength(s1[1..]);
        assert n < |s1| - 1;
        assert s1[1..][..n] == s[1..][..n];
        QuoteFreeLengthIs(s[1..], n);
        assert s[1..1 + n] == s1[1..1 + n];
        assert s[n + 2..] == s1[n + 2..] + s2;
        LexAppend(s1[n + 2..], s2);
        ThenChain([Identifier(s1[1..1 + n])], Lex(s1[n + 2..]), Lex(s2));
      }
    }
  }

  lemma ThenChain(ts: seq<Token>, r1: Result<seq<Token>, TokenizeError>, r2: Result<seq<Token>, TokenizeError>)
    ensures Then(ts, Chain(r1, r2)) == Chain(Then(ts, r1), r2)
  {
    if r1.Ok? && r2.Ok? {
      assert ts + (r1.value + r2.value) == (ts + r1.value) + r2.value;
    }
  }

  /** Inserting whitespace anywhere outside a string literal leaves the tokens unchanged. */
  lemma WhitespaceInsensitive(s1: string, ws: string, s2: string)
    requires Lex(s1) != Err(UnterminatedString)
    requires forall i :: 0 <= i < |ws| ==> IsWhitespace(ws[i])
    ensures Lex(s1 + ws + s2) == Lex(s1 + s2)
  {
    assert s1 + ws + s2 == s1 + (ws + s2);
    LexAppend(s1, ws + s2);
    LexAppend(s1, s2);
    LexLeadingWhitespace(ws, s2);
  }

  /** Whitespace in front of the text contributes nothing. */
  lemma {:induction false} LexLeadingWhitespace(ws: string, s: string)
    requires forall i :: 0 <= i < |ws| ==> IsWhitespace(ws[i])
    ensures Lex(ws + s) == Lex(s)
    decreases |ws|
  {
    if ws == [] {
      assert ws + s == s;
    } else {
      assert (ws + s)[1..] == ws[1..] + s;
      LexWhitespaceStep(ws + s);
      LexLeadingWhitespace(ws[1..], s);
    }
  }

  /** The tokens of the structural characters of `s`, in order, whitespace dropped. */
  function Punctuation(s: string): seq<Token>
    requires forall i :: 0 <= i < |s| ==> Structural(s[i]).Some? || IsWhitespace(s[i])
  {
    if s == [] then []
    else if Structural(s[0]).Some? then [Structural(s[0]).value] + Punctuation(s[1..])
    else Punctuation(s[1..])
  }

  /** Text made only of structural characters and whitespace scans to exactly
      one token per structural character, in input order. */
  lemma {:induction false} LexPunctuation(s: string)
    requires forall i :: 0 <= i < |s| ==> Structural(s[i]).Some? || IsWhitespace(s[i])
    ensures Lex(s) == Ok(Punctuation(s))
    decreases |s|
  {
    if s != [] {
      LexPunctuation(s[1..]);
      if Structural(s[0]).Some? {
        LexStructuralStep(s);
      } else {
        LexWhitespaceStep(s);
      }
    }
  }

  /** A quoted literal yields one identifier holding its characters verbatim. */
  lemma LexQuoted(x: string, s: string)
    requires '"' !in x
    ensures Lex(['"'] + x + ['"'] + s) == Then([Identifier(x)], Lex(s))
  {
    var text := ['"'] + x + ['"'] + s;
    assert text[1..|x| + 1] == x;
    assert text[|x| + 2..] == s;
    forall k | 1 <= k < |x| + 1 ensures text[k] != '"' {
      assert text[k] == x[k - 1];
    }
    LexLiteralAt(text, 1, |x| + 1);
    assert text[0..] == text;
  }

  /** A literal left open at the end of the text fails the scan. */
  lemma LexUnterminated(s1: string, x: string)
    requires Lex(s1).Ok? && '"' !in x
    ensures Lex(s1 + ['"'] + x) == Err(UnterminatedString)
  {
    var tail := ['"'] + x;
    forall k | 1 <= k < |tail| ensures tail[k] != '"' {
      assert tail[k] == x[k - 1];
    }
    LexUnterminatedAt(tail, 1);
    assert tail[0..] == tail;
    assert s1 + ['"'] + x == s1 + tail;
    LexAppend(s1, tail);
  }

  /** Any character with no rule (a digit, a letter, a sign) fails the scan, carrying that character. */
  lemma LexUnexpected(s1: string, c: char, s2: string)
    requires Lex(s1).Ok?
    requires Structural(c).None? && !IsWhitespace(c) && c != '"'
    ensures Lex(s1 + [c] + s2) == Err(UnexpectedChar(c))
  {
    assert s1 + [c] + s2 == s1 + ([c] + s2);
    LexUnexpectedStep([c] + s2);
    LexAppend(s1, [c] + s2);
  }
}
