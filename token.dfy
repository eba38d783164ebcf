/** The lexical tokens produced by the tokenizer and consumed by the parser. */
module Tokens {
  import opened Wrappers

  /** One token. `Identifier` carries the text of a quoted literal, used both
      as an object key and as a string value: only its position in the
      grammar tells the two roles apart. Equality is structural. */
  datatype Token =
    | LeftBrace
    | RightBrace
    | LeftBracket
    | RightBracket
    | Colon
    | Comma
    | Identifier(text: string)

  /** The payload of an identifier token; `None` for punctuation. */
  function AsIdentifier(t: Token): (r: Option<string>)
    ensures r.Some? <==> t.Identifier?
    ensures r.Some? ==> t == Identifier(r.value)
  {
    match t
    case Identifier(ident) => Some(ident)
    case _ => None
  }
}
