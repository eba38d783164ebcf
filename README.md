# toy-json in Dafny

A model of the core of `toy-json`, a small JSON reader and writer. The core
has three stages:

- **Tokenizer** (`Tokenizer`, `Tokens`). Reads text one character at a time.
  - The six structural characters `{ } [ ] : ,` become punctuation tokens.
  - Unicode whitespace is skipped.
  - A double quote opens a literal that runs to the next double quote. It becomes one `Identifier` token holding the characters in between, with no escapes.
  - Any other character is an error, and so is a literal that never closes.
- **Parser** (`Parser`). A recursive-descent parser over the token list, with a cursor `pos`. `parse_string` tokenizes the text, parses one root object, then rejects the text if any tokens are left.
  - Values are objects, arrays or strings.
  - Members and elements are read until the closing token. A comma after an item is consumed when present, but it is not required.
  - A repeated key keeps its last value.
- **Value and writer** (`JsonValues`, `Writer`). The document tree and its `Display` rendering, which `JsonWriter::write` returns.
  - Items are separated by `", "`, keys are followed by `": "`, and strings are quoted without escaping.
  - Numbers print as decimal digits, booleans as `true`/`false`, null as `null`.

The model follows the source's own form:

- The tokenizer is a `method Tokenize` with the source's outer loop and inner literal loop, proved equal to the function `Lex`.
- The parser is a `class Parser` with a `tokens` field and a `pos` field its methods advance. Each method is proved equal to a grammar function over `(tokens, pos)`, such as `ObjectAt` or `MembersAt`. Each grammar function returns the result together with the cursor where it stops.
- The object's member map is a Rust `HashMap`, whose iteration order decides the order the writer emits members in. That order is a parameter `order: KeyOrder`, a function from a map's contents to a listing of its keys. `ValidOrder` requires the listing to name every key exactly once.

Above the operations, the model proves the following:

- the tokenizer's laws:
  - each structural character yields one token, in order;
  - whitespace is ignored;
  - literals are verbatim and quote-free;
  - tokenizing is compositional;
- the parser's laws:
  - where each loop stops;
  - how a value is dispatched on its first token;
  - the end-of-input and trailing-token errors;
  - a repeated key keeps its last value;
- the round trip: writing any object tree of objects, arrays and strings whose keys and strings hold no double quote, then parsing the text, gives back the same tree, for every valid member order;
- the repository's two unit tests, as lemmas.

## Model

| member | source | states |
|---|---|---|
| Tokens.AsIdentifier | src/tokenizer/token.rs:14-19 | yields a payload exactly for identifier tokens, and the token is the identifier of that payload; punctuation yields none |
| Tokenizer.Tokenize | src/tokenizer.rs:19-49 | the character loop with its inner literal loop returns exactly `Lex(text)`, the scan rules applied from the start of the text and stopping at the first error |
| Tokenizer.ScanLiteral | src/tokenizer.rs:34-37 | the inner loop gathers exactly the characters from the opening quote up to the next quote or the end of the text, and none of them is a quote |
| Tokenizer.LexStructuralStep | src/tokenizer.rs:26-31 | each of the six structural characters yields its own token ahead of the tokens of the rest |
| Tokenizer.LexWhitespaceStep | src/tokenizer.rs:32 | a whitespace character contributes no token |
| Tokenizer.LexUnexpectedStep | src/tokenizer.rs:45 | a character that is not structural, not whitespace and not a quote is reported as the unexpected character itself |
| Tokenizer.LexLiteralAt | src/tokenizer.rs:33-43 | a literal closed by a quote yields one identifier holding exactly the characters between the quotes, and scanning resumes after the closing quote |
| Tokenizer.LexUnterminatedAt | src/tokenizer.rs:39-41 | a literal with no closing quote fails with the unterminated-string error |
| Tokenizer.LexLength | src/tokenizer.rs:19-49 | a successful scan yields no more tokens than the text has characters |
| Tokenizer.LexIdentifiersQuoteFree | src/tokenizer.rs:35-37 | no identifier produced by a successful scan contains a double quote |
| Tokenizer.LexAppend | src/tokenizer.rs:23-47 | the scan of a concatenation is the scan of the first part followed by the scan of the second, unless the first part ends inside an open literal; the first error wins |
| Tokenizer.WhitespaceInsensitive | src/tokenizer.rs:32 | inserting whitespace between two texts, outside any literal, does not change the result |
| Tokenizer.LexLeadingWhitespace | src/tokenizer.rs:32 | leading whitespace does not change the result |
| Tokenizer.LexPunctuation | src/tokenizer.rs:25-32 | text made of structural characters and whitespace yields one token per structural character, in order |
| Tokenizer.LexQuoted | src/tokenizer.rs:33-43 | a quoted quote-free string yields one identifier with that string, followed by the tokens of what comes after |
| Tokenizer.LexUnterminated | src/tokenizer.rs:39-41 | text that scans cleanly, followed by a quote that is never closed, fails with the unterminated-string error |
| Tokenizer.LexUnexpected | src/tokenizer.rs:45 | text that scans cleanly, followed by a character with no rule, fails with that character whatever follows |
| JsonValues.DecimalDenotes | src/parser/json_value.rs:26 | a number renders as decimal digits that denote the number, with no leading zero except for 0 itself |
| JsonValues.MemberItemsAre | src/parser/json_value.rs:17-20 | one member item per visited key, each being the quoted key, `": "`, and the rendering of its value |
| JsonValues.ElementItemsAre | src/parser/json_value.rs:21-24 | one item per element, in order, each being the element's rendering |
| JsonValues.ObjectMembersOnce | src/parser/json_value.rs:17-20 | under a valid member order, an object renders each of its members exactly once: as many items as keys, every key visited, no key twice |
| JsonValues.Render | src/parser/json_value.rs:14-30 | `Display::fmt`: every rendering is non-empty. Its shape is stated by `JsonValues.MemberItemsAre`, `JsonValues.ElementItemsAre`, `JsonValues.ObjectMembersOnce`, `JsonValues.DecimalDenotes`, `JsonValues.EmptyRenderings` and `Writer.Write`. `TreeTokens.LexRender` states that it scans back to the tree's tokens |
| JsonValues.EmptyRenderings | src/parser/json_value.rs:17-24 | the empty object renders as `{}` and the empty array as `[]`, whatever the member order |
| Writer.Write | src/writer.rs:7-10 | the written text of an object is enclosed in braces, of an array in brackets; a string is written between double quotes with its characters copied unchanged in between, with no escaping |
| Parser.ExpectEqAt | src/parser.rs:54-64 | succeeds exactly when the next token equals the expected one, returning it; the cursor moves past any token that exists, matched or not |
| Parser.ExpectIdentifierAt | src/parser.rs:49-52 | succeeds exactly when the next token is an identifier, returning its text; the cursor moves past any token that exists |
| Parser.ObjectAt | src/parser.rs:82-88 | the cursor never moves back or beyond the tokens; a success consumes tokens and is an object built from objects, arrays and strings; never the trailing-token error |
| Parser.MembersAt | src/parser.rs:90-102 | keeps the keys read before (a repeated key gets a new value), stays within the tokens, yields only object, array and string values, and never the trailing-token error |
| Parser.MemberAt | src/parser.rs:104-110 | a success consumes at least a key, a colon and a value, and the value is built from objects, arrays and strings |
| Parser.ValueAt | src/parser.rs:120-127 | a success consumes tokens and is an object, array or string tree, never a number, boolean or null |
| Parser.ArrayAt | src/parser.rs:129-135 | a success consumes tokens and is an array of object, array and string trees |
| Parser.ElementsAt | src/parser.rs:137-147 | the values read before are a prefix of the result, which holds only object, array and string trees |
| Parser.Document | src/parser.rs:30-34 | a successful parse is an object tree |
| Parser.Parse | src/parser.rs:28-35 | parsing text whose tokenizing succeeds yields, when it succeeds, an object tree |
| Parser.Parser.constructor | src/parser.rs:37-39 | the parser starts at position 0 on the given tokens |
| Parser.Parser.ParseString | src/parser.rs:28-35 | the method returns exactly `Parse(text)`, so its successes are objects |
| Parser.Parser.NextTokenIs | src/parser.rs:41-43 | true exactly when a next token exists and equals the expected one |
| Parser.Parser.NextTokenIsNot | src/parser.rs:45-47 | true exactly when no next token exists or it differs from the given one |
| Parser.Parser.NextToken | src/parser.rs:66-73 | returns the token under the cursor and advances by one, or returns none and stays put at the end |
| Parser.Parser.PeekNextToken | src/parser.rs:75-80 | returns the token under the cursor without moving, or the end-of-input error |
| Parser.Parser.ExpectMatching | src/parser.rs:58-64 | consumes one token when there is one: success when the predicate accepts it, the unexpected-token error otherwise; the end-of-input error when there is none |
| Parser.Parser.ExpectEq | src/parser.rs:54-56 | result and new cursor are those of `ExpectEqAt` |
| Parser.Parser.ExpectIdentifier | src/parser.rs:49-52 | result and new cursor are those of `ExpectIdentifierAt` |
| Parser.Parser.Advance | src/parser.rs:149-151 | moves the cursor forward by one token |
| Parser.Parser.ParseObject | src/parser.rs:82-88 | result and new cursor are those of `ObjectAt` |
| Parser.Parser.ParseMembers | src/parser.rs:90-102 | the member loop's result and new cursor are those of `MembersAt` from an empty map |
| Parser.Parser.ParseMember | src/parser.rs:104-110 | result and new cursor are those of `MemberAt` |
| Parser.Parser.ParseKey | src/parser.rs:113-118 | result and new cursor are those of `ExpectIdentifierAt` |
| Parser.Parser.ParseValue | src/parser.rs:120-127 | result and new cursor are those of `ValueAt` |
| Parser.Parser.ParseArray | src/parser.rs:129-135 | result and new cursor are those of `ArrayAt` |
| Parser.Parser.ParseArrayValues | src/parser.rs:137-147 | the element loop's result and new cursor are those of `ElementsAt` from an empty list |
| ParserLaws.MembersStopAtBrace | src/parser.rs:93-99 | a successful member loop stops with the cursor on a `}` |
| ParserLaws.ElementsStopAtBracket | src/parser.rs:139-144 | a successful element loop stops with the cursor on a `]` |
| ParserLaws.ObjectSpan | src/parser.rs:82-88 | a successful object starts at a `{` and its last consumed token is a `}` |
| ParserLaws.ArraySpan | src/parser.rs:129-135 | a successful array starts at a `[` and its last consumed token is a `]` |
| ParserLaws.DocumentSpan | src/parser.rs:28-35 | a successful parse consumed every token, the first being `{` and the last `}` |
| ParserLaws.TrailingOverrides | src/parser.rs:30-34 | the trailing-token error is returned exactly when the root stops short of the end, replacing even an error of the root; otherwise the root's outcome is returned |
| ParserLaws.ColonKeyIsTrailing | src/parser.rs:30-34 | for `{:}` the root fails on the colon after consuming it, and the leftover `}` turns that into the trailing-token error |
| ParserLaws.ValueDispatch | src/parser.rs:120-127 | on `{` a value is an object, on `[` an array, on an identifier a string; any other token is an unexpected-token error that consumes it; no token is the end-of-input error |
| ParserLaws.CommaIsNoValue | src/parser.rs:137-147 | `[,]` fails with the comma as an unexpected token |
| ParserLaws.EndInsideLoops | src/parser.rs:58-64 | at the end of the tokens, the member loop, the element loop and an object each fail with the end-of-input error, since the loops take the missing closer for another item |
| ParserLaws.EmptyContainers | src/parser.rs:82-102 | `{}` parses to the empty object and `[]` to the empty array |
| ParserLaws.TrailingCommaArray | src/parser.rs:137-147 | `["a",]` parses to the one-element array: a comma before the closer is accepted |
| ParserLaws.MembersWithoutComma | src/parser.rs:93-99 | `{"a": "b" "c": "d"}` parses to the two-member object: commas between members are optional |
| ParserLaws.DuplicateKeyLastWins | src/parser.rs:93-95 | `{"a": "x", "a": "y"}` parses to the object whose only member is `a` with value `"y"` |
| ParserLaws.TwoMembers | src/parser.rs:90-102 | two string members, with or without a comma between them, are inserted in text order, so a repeated key keeps the second value |
| ParserLaws.InsertPairsLastWins | src/parser.rs:93-95 | after inserting a list of members one by one, a key is present exactly when it was before or occurs in the list; it holds the value of its last occurrence, or its earlier value when it does not occur |
| ParserLaws.MembersFold | src/parser.rs:90-102 | the member loop succeeds exactly when reading its list of members (repeats kept, in text order) does, stops at the same position with the same error, and its map is that list inserted in order |
| ParserLaws.LastOccurrenceWins | src/parser.rs:90-102 | for any tokens, a successfully parsed object holds exactly the keys the member loop read, each with the value of its last occurrence |
| ParserFacts.InsertKeysAdds | src/parser.rs:93-95 | inserting members key by key adds exactly those members to the map, later keys overriding |
| ParserFacts.InsertAllKeys | src/parser.rs:93-95 | inserting every key of a map, in any listing that names each once, rebuilds the map |
| ParserFacts.MemberStep | src/parser.rs:93-98 | one turn of the member loop: read a member, insert it, skip one comma if present, and continue |
| ParserFacts.ElementStep | src/parser.rs:139-143 | one turn of the element loop: read a value, append it, skip one comma if present, and continue |
| ParserFacts.ParseValueTokens | src/parser.rs:120-127 | the tokens of any object, array or string tree, wherever they occur, parse back to that tree and stop right after them |
| ParserFacts.ParseObjectTokens | src/parser.rs:82-88 | the tokens of an object tree parse back to the object |
| ParserFacts.ParseArrayTokens | src/parser.rs:129-135 | the tokens of an array tree parse back to the array |
| ParserFacts.ParseMembersTokens | src/parser.rs:90-102 | member tokens separated by commas or not, before a `}`, parse to the previous members plus those members |
| ParserFacts.ParseElementsTokens | src/parser.rs:137-147 | element tokens separated by commas or not, before a `]`, parse to the previous values followed by those elements |
| TreeTokens.LexRender | src/parser/json_value.rs:17-25 | the rendering of any quote-free object, array or string tree scans to that tree's tokens |
| TreeTokens.LexMemberItems | src/parser/json_value.rs:18 | each rendered member scans to its key, a colon and its value's tokens |
| TreeTokens.LexElementItems | src/parser/json_value.rs:22 | each rendered element scans to its tokens |
| TreeTokens.LexJoin | src/parser/json_value.rs:19-20 | items joined with `", "` scan to their tokens separated by commas |
| TreeTokens.LexBracketed | src/parser/json_value.rs:17 | text between two structural characters scans to their tokens around the text's tokens |
| RoundTrip.ParseWrite | src/writer.rs:7-10 | writing a quote-free object tree of objects, arrays and strings gives text that tokenizes and parses back to the same tree, for every valid member order |
| RoundTrip.ParseWritten | src/parser.rs:28-35 | the `parse_string` method applied to the writer's text returns the original tree |
| RoundTrip.OneMemberRoundTrip | src/main.rs:18-23 | a one-string-member object is written as `{"k": "x"}`, and that text parses back to it |
| RoundTrip.LexOneMember | src/tokenizer.rs:32 | a one-member object text with any runs of spaces between its tokens scans to the same five tokens |
| RoundTrip.UserExample | src/main.rs:18-23 | `{"user": "thepolytheist"}` parses to the object with that one member, which is written back as the same text |
| RoundTrip.WhitespaceExample | src/main.rs:25-30 | `     {  "whitespace"    : "true"  }` parses to the object with that one member, which is written back as `{"whitespace": "true"}` |
| RoundTrip.LetterAfterRoot | src/tokenizer.rs:45 | `{}x` fails in the tokenizer on the letter, before the parser sees anything |
| RoundTrip.ScalarsUnreadable | src/parser/json_value.rs:26-28 | a number, boolean or null renders to text the tokenizer rejects at its first character |

## Left out

- Error messages are left out: the `Display` implementations of the errors (src/tokenizer.rs:10-14, src/parser.rs:12-16) and the message strings. Each error is a datatype variant carrying what the message reports: the unexpected character or token, the unterminated literal, the end of input, or the trailing tokens.
- The `main` demo (src/main.rs:9-16) only prints, so it is left out.
- Machine integers are not modelled. `usize` (the cursor, `Number`) is a `nat`, so the model does not capture overflow of the cursor or of a number.
- `HashMap` iteration order is not computed. It is the `KeyOrder` parameter, which must list each key exactly once and is a function of a map's contents.
- The Rust iterator machinery (`chars().peekable()`, `next_if`) and borrowing are left out. The scan uses an index into the text, and identifiers are copied strings.
- `expect_matching` takes a Rust closure; `Parser.Parser.ExpectMatching` takes a Dafny function value instead.
- `Parser.Parse` and `Parser.Parser.ParseString` require that tokenizing succeeds. The source unwraps the tokenizer's result, so a tokenizing error is a panic in the source. The model does not include that panic as an outcome.
- Text such as `{}x` is a tokenizer failure in the model, because the code's tokenizer rejects `x` before the parser runs. A trailing-token error on such text would not match the code. `RoundTrip.LetterAfterRoot` states this case.
- `Tokenizer.IsWhitespace` is `char::is_whitespace` written out as the Unicode `White_Space` code points. No lemma states that the table matches Rust's.
- `RoundTrip.ParseWrite`: the round trip is stated only for objects built from objects, arrays and strings whose keys and strings hold no double quote.
  - The writer does not escape quotes.
  - The tokenizer reads no numbers, booleans or null.
  - So other trees do not round-trip.
- `RoundTrip.ScalarsUnreadable`: the rejection of numbers, booleans and null is stated for the scalar rendered on its own, not nested inside an object or array.
- `RoundTrip.ParseWrite`: the member order is a function of a map's contents, so two equal objects in one tree are always written in the same member order. In the source, every object's `HashMap` has its own hasher, so two equal objects can be written in different orders. The round trip is not proved for that case.
