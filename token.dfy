/** The lexer's vocabulary: keywords, literal constants and tokens. */
module Tokens {

  datatype Keyword =
    | U8 | U16 | U32 | U64
    | I8 | I16 | I32 | I64
    | F32 | F64 | C8
    | Mut | Return | Function | Struct

  /** A literal. Integers are the values of a signed 64-bit parse; a float keeps
      the digits it was read from (its numeric value is not modelled). */
  datatype Constant =
    | Int(value: int)
    | Float(text: string)
    | Str(chars: string)

  /** One token. The names of the two angle brackets are swapped with respect
      to the characters they stand for, exactly as in the lexer's table:
      `LessThan` is `>` and `GreaterThan` is `<`. */
  datatype Token =
    | LParen          // (
    | RParen          // )
    | LCBracket       // {
    | RCBracket       // }
    | LSBracket       // [
    | RSBracket       // ]
    | Ampersand       // &
    | Circumflex      // ^
    | Percent         // %
    | Equals          // =
    | Semicolon       // ;
    | Colon           // :
    | Comma           // ,
    | Period          // .
    | Plus            // +
    | Minus           // -
    | Asterisk        // *
    | RSlash          // /
    | LSlash          // \
    | LessThan        // >
    | GreaterThan     // <
    | Apostrophe      // '
    | Tilde           // ~
    | VBar            // |
    | Underscore      // _
    | Dollar          // $
    | Exclamation     // !
    | Question        // ?
    | Grave           // `
    | Constant(constant: Constant)
    | Keyword(keyword: Keyword)
    | Identifier(name: string)
    | Illegal
    | End
}
