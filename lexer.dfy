/** The character-to-token scanner. The pure functions below are the reference
    definition of what the scanner reads from a position of the input; the
    `Lexer` class is the step-by-step scanner over a character stream, and each
    of its methods is proved to do what the corresponding function says. */
module Lexing {
  import opened Outcomes
  import opened Tokens

  // ---------------------------------------------------------------- characters

  /** Unicode White_Space, the set Rust's `char::is_whitespace` tests. */
  predicate IsWhitespace(c: char) {
    ('\U{0009}' <= c <= '\U{000D}') || c == '\U{0020}' || c == '\U{0085}' || c == '\U{00A0}'
    || c == '\U{1680}' || ('\U{2000}' <= c <= '\U{200A}') || c == '\U{2028}' || c == '\U{2029}'
    || c == '\U{202F}' || c == '\U{205F}' || c == '\U{3000}'
  }

  /** Letters (ASCII only; see README). */
  predicate IsAlphabetic(c: char) {
    ('a' <= c <= 'z') || ('A' <= c <= 'Z')
  }

  predicate IsDigit(c: char) {
    '0' <= c <= '9'
  }

  /** A character that may start a word. */
  predicate IsLetter(c: char) {
    IsAlphabetic(c) || c == '_'
  }

  /** A character that may continue a word. */
  predicate IsWordChar(c: char) {
    IsAlphabetic(c) || c == '_' || IsDigit(c)
  }

  // ---------------------------------------------------------------- keywords

  function LookupKeyword(word: string): Option<Keyword> {
    if word == "u8" then Some(U8)
    else if word == "u16" then Some(U16)
    else if word == "u32" then Some(U32)
    else if word == "u64" then Some(U64)
    else if word == "i8" then Some(I8)
    else if word == "i16" then Some(I16)
    else if word == "i32" then Some(I32)
    else if word == "i64" then Some(I64)
    else if word == "f32" then Some(F32)
    else if word == "f64" then Some(F64)
    else if word == "c8" then Some(C8)
    else if word == "mut" then Some(Mut)
    else if word == "return" then Some(Return)
    else if word == "function" then Some(Function)
    else if word == "struct" then Some(Struct)
    else None
  }

  /** The spelling of each keyword: the inverse of `LookupKeyword`. */
  function KeywordText(k: Keyword): string {
    match k
    case U8 => "u8"
    case U16 => "u16"
    case U32 => "u32"
    case U64 => "u64"
    case I8 => "i8"
    case I16 => "i16"
    case I32 => "i32"
    case I64 => "i64"
    case F32 => "f32"
    case F64 => "f64"
    case C8 => "c8"
    case Mut => "mut"
    case Return => "return"
    case Function => "function"
    case Struct => "struct"
  }

  /** Exactly the fifteen keyword spellings are keywords, each naming its own keyword. */
  lemma KeywordTable(word: string, k: Keyword)
    ensures LookupKeyword(word) == Some(k) <==> word == KeywordText(k)
  {
    // Distinct keywords have distinct spellings.
    match k
    case U8 => assert "u8"[1] == '8';
    case U16 => assert "u16"[1] == '1';
    case U32 => assert "u32"[1] == '3';
    case U64 => assert "u64"[1] == '6';
    case I8 => assert "i8"[1] == '8';
    case I16 => assert "i16"[1] == '1';
    case I32 => assert "i32"[1] == '3';
    case I64 => assert "i64"[1] == '6';
    case F32 => assert "f32"[1] == '3';
    case F64 => assert "f64"[1] == '6';
    case C8 => assert "c8"[1] == '8';
    case Mut => assert "mut"[0] == 'm';
    case Return => assert "return"[0] == 'r';
    case Function => assert "function"[0] == 'f';
    case Struct => assert "struct"[0] == 's';
  }

  /** The token a scanned word becomes. */
  function WordToken(word: string): (t: Token)
    ensures t.Keyword? <==> LookupKeyword(word).Some?
    ensures t.Identifier? ==> t.name == word
  {
    match LookupKeyword(word)
    case Some(k) => Keyword(k)
    case None => Identifier(word)
  }

  // ---------------------------------------------------------------- punctuation

  /** The single-character tokens, in the order of the lexer's table. */
  function PunctuationToken(c: char): Option<Token> {
    match c
    case '&' => Some(Ampersand)
    case '|' => Some(VBar)
    case '=' => Some(Equals)
    case '(' => Some(LParen)
    case ')' => Some(RParen)
    case '{' => Some(LCBracket)
    case '}' => Some(RCBracket)
    case '[' => Some(LSBracket)
    case ']' => Some(RSBracket)
    case '^' => Some(Circumflex)
    case '%' => Some(Percent)
    case ';' => Some(Semicolon)
    case ':' => Some(Colon)
    case ',' => Some(Comma)
    case '.' => Some(Period)
    case '+' => Some(Plus)
    case '-' => Some(Minus)
    case '*' => Some(Asterisk)
    case '\\' => Some(LSlash)
    case '/' => Some(RSlash)
    case '<' => Some(GreaterThan)
    case '>' => Some(LessThan)
    case '\'' => Some(Apostrophe)
    case '~' => Some(Tilde)
    case '_' => Some(Underscore)
    case '$' => Some(Dollar)
    case '!' => Some(Exclamation)
    case '?' => Some(Question)
    case '`' => Some(Grave)
    case _ => None
  }

  /** The tokens made of one punctuation character. */
  predicate IsPunctuation(t: Token) {
    !(t.Constant? || t.Keyword? || t.Identifier? || t.Illegal? || t.End?)
  }

  /** The character each punctuation token is read from (the token comments). */
  function PunctuationChar(t: Token): char
    requires IsPunctuation(t)
  {
    match t
    case Ampersand => '&'
    case VBar => '|'
    case Equals => '='
    case LParen => '('
    case RParen => ')'
    case LCBracket => '{'
    case RCBracket => '}'
    case LSBracket => '['
    case RSBracket => ']'
    case Circumflex => '^'
    case Percent => '%'
    case Semicolon => ';'
    case Colon => ':'
    case Comma => ','
    case Period => '.'
    case Plus => '+'
    case Minus => '-'
    case Asterisk => '*'
    case LSlash => '\\'
    case RSlash => '/'
    case GreaterThan => '<'
    case LessThan => '>'
    case Apostrophe => '\''
    case Tilde => '~'
    case Underscore => '_'
    case Dollar => '$'
    case Exclamation => '!'
    case Question => '?'
    case Grave => '`'
  }

  /** The punctuation table and the token comments agree in both directions,
      including the swapped angle brackets, and no punctuation character is
      whitespace, a letter or a digit. */
  lemma PunctuationTable(c: char, t: Token)
    ensures PunctuationToken(c) == Some(t) <==> IsPunctuation(t) && PunctuationChar(t) == c
    ensures PunctuationToken(c).Some? ==> !IsWhitespace(c) && !IsAlphabetic(c) && !IsDigit(c) && c != '"'
    ensures PunctuationToken('<') == Some(GreaterThan) && PunctuationToken('>') == Some(LessThan)
  {
    PunctuationClass(c);
    if IsPunctuation(t) {
      PunctuationRoundTrip(t);
    }
  }

  /** Each punctuation token is read back from its own character. */
  lemma PunctuationRoundTrip(t: Token)
    requires IsPunctuation(t)
    ensures PunctuationToken(PunctuationChar(t)) == Some(t)
  {
    match t
    case Ampersand =>
    case VBar =>
    case Equals =>
    case LParen =>
    case RParen =>
    case LCBracket =>
    case RCBracket =>
    case LSBracket =>
    case RSBracket =>
    case Circumflex =>
    case Percent =>
    case Semicolon =>
    case Colon =>
    case Comma =>
    case Period =>
    case Plus =>
    case Minus =>
    case Asterisk =>
    case LSlash =>
    case RSlash =>
    case GreaterThan =>
    case LessThan =>
    case Apostrophe =>
    case Tilde =>
    case Underscore =>
    case Dollar =>
    case Exclamation =>
    case Question =>
    case Grave =>
  }

  /** A punctuation character is not whitespace, a letter, a digit or a quote. */
  lemma PunctuationClass(c: char)
    ensures PunctuationToken(c).Some? ==> !IsWhitespace(c) && !IsAlphabetic(c) && !IsDigit(c) && c != '"'
  {
  }

  // ---------------------------------------------------------------- scanning functions

  /** The first position at or after `pos` that does not hold whitespace. */
  function SkipWs(input: string, pos: nat): (p: nat)
    requires pos <= |input|
    ensures pos <= p <= |input|
    ensures forall k :: pos <= k < p ==> IsWhitespace(input[k])
    ensures p < |input| ==> !IsWhitespace(input[p])
    decreases |input| - pos
  {
    if pos < |input| && IsWhitespace(input[pos]) then SkipWs(input, pos + 1) else pos
  }

  /** The end of the run of word characters that starts at `pos`. */
  function WordEnd(input: string, pos: nat): (p: nat)
    requires pos <= |input|
    ensures pos <= p <= |input|
    ensures forall k :: pos <= k < p ==> IsWordChar(input[k])
    ensures p < |input| ==> !IsWordChar(input[p])
    decreases |input| - pos
  {
    if pos < |input| && IsWordChar(input[pos]) then WordEnd(input, pos + 1) else pos
  }

  /** The body of a string literal whose opening quote has been read, and the
      position after it: a backslash is dropped and the character after it kept
      as it is; the first unescaped quote ends the literal and is consumed. */
  function StringScan(input: string, pos: nat, escape: bool): (r: (string, nat))
    requires pos <= |input|
    ensures pos <= r.1 <= |input|
    ensures |r.0| <= r.1 - pos
    decreases |input| - pos
  {
    if pos == |input| then ([], pos)
    else if !escape && input[pos] == '"' then ([], pos + 1)
    else if !escape && input[pos] == '\\' then StringScan(input, pos + 1, true)
    else
      var (s, p) := StringScan(input, pos + 1, false);
      ([input[pos]] + s, p)
  }

  /** A string literal's body as written: no quote stands unescaped, and
      every backslash has a character after it to escape. */
  predicate Body(w: string) {
    if w == [] then true
    else if w[0] == '\\' then |w| >= 2 && Body(w[2..])
    else w[0] != '"' && Body(w[1..])
  }

  /** The text of an unterminated literal: no quote stands unescaped; a
      backslash may be the last character. */
  predicate Open(w: string) {
    if w == [] then true
    else if w[0] == '\\' then |w| == 1 || Open(w[2..])
    else w[0] != '"' && Open(w[1..])
  }

  /** The characters a body stands for: each escaping backslash removed and
      the character after it kept, whatever it is, so `a\nb` stands for
      `anb`; a backslash that ends the text stands for nothing. */
  function Unescape(w: string): string {
    if w == [] then []
    else if w[0] == '\\' then (if |w| >= 2 then [w[1]] + Unescape(w[2..]) else [])
    else [w[0]] + Unescape(w[1..])
  }

  /** When the first unescaped quote at or after `pos` is at `q`, the scan
      reads the body before `q` with its escaping backslashes removed and
      stops just after the quote. */
  lemma {:induction false} StringScanCloses(input: string, pos: nat, q: nat)
    requires pos <= q < |input| && input[q] == '"' && Body(input[pos..q])
    ensures StringScan(input, pos, false) == (Unescape(input[pos..q]), q + 1)
    decreases q - pos
  {
    var w := input[pos..q];
    if pos < q {
      if input[pos] == '\\' {
        assert w[2..] == input[pos + 2..q];
        StringScanCloses(input, pos + 2, q);
      } else {
        assert w[1..] == input[pos + 1..q];
        StringScanCloses(input, pos + 1, q);
      }
    }
  }

  /** With no unescaped quote left, the scan reads the rest of the input,
      escaping backslashes removed, and stops at its end. */
  lemma {:induction false} StringScanUnclosed(input: string, pos: nat)
    requires pos <= |input| && Open(input[pos..])
    ensures StringScan(input, pos, false) == (Unescape(input[pos..]), |input|)
    decreases |input| - pos
  {
    var w := input[pos..];
    if pos < |input| {
      if input[pos] == '\\' {
        if pos + 1 < |input| {
          assert w[2..] == input[pos + 2..];
          StringScanUnclosed(input, pos + 2);
        }
      } else {
        assert w[1..] == input[pos + 1..];
        StringScanUnclosed(input, pos + 1);
      }
    }
  }

  /** How a string literal's body is written: quotes and backslashes are
      preceded by a backslash. */
  function Escape(s: string): string {
    if s == [] then []
    else (if s[0] == '"' || s[0] == '\\' then ['\\', s[0]] else [s[0]]) + Escape(s[1..])
  }

  /** An escaped body is a body, and it stands for what was escaped. */
  lemma {:induction false} EscapeBody(s: string)
    ensures Body(Escape(s)) && Unescape(Escape(s)) == s
    decreases |s|
  {
    if s != [] {
      EscapeBody(s[1..]);
      var e := if s[0] == '"' || s[0] == '\\' then ['\\', s[0]] else [s[0]];
      var w := Escape(s);
      assert w == e + Escape(s[1..]);
      assert w[|e|..] == Escape(s[1..]);
      assert [s[0]] + s[1..] == s;
    }
  }

  /** Reading back an escaped body followed by a closing quote gives the body,
      and the scanner stops just after that quote. */
  lemma StringRoundTrip(input: string, pos: nat, s: string)
    requires pos + |Escape(s)| < |input|
    requires input[pos..pos + |Escape(s)| + 1] == Escape(s) + ['"']
    ensures StringScan(input, pos, false) == (s, pos + |Escape(s)| + 1)
  {
    var q := pos + |Escape(s)|;
    EscapeBody(s);
    assert input[pos..q] == input[pos..q + 1][..q - pos];
    assert input[q] == input[pos..q + 1][q - pos];
    StringScanCloses(input, pos, q);
  }

  function Periods(s: string): nat {
    if s == [] then 0 else (if s[0] == '.' then 1 else 0) + Periods(s[1..])
  }

  lemma {:induction false} PeriodsAppend(s: string, c: char)
    ensures Periods(s + [c]) == Periods(s) + (if c == '.' then 1 else 0)
  {
    if s != [] {
      assert (s + [c])[1..] == s[1..] + [c];
      PeriodsAppend(s[1..], c);
    }
  }

  /** The end of the run of digits and periods that starts at `pos`. */
  function NumberRunEnd(input: string, pos: nat): (p: nat)
    requires pos <= |input|
    ensures pos <= p <= |input|
    ensures forall k :: pos <= k < p ==> IsDigit(input[k]) || input[k] == '.'
    ensures p < |input| ==> !(IsDigit(input[p]) || input[p] == '.')
    decreases |input| - pos
  {
    if pos < |input| && (IsDigit(input[pos]) || input[pos] == '.') then NumberRunEnd(input, pos + 1) else pos
  }

  /** The rest of a number literal after its first digit: whether it is a float
      and where it ends. A second period is fatal. */
  function NumberScan(input: string, pos: nat, float: bool): (r: Result<(bool, nat)>)
    requires pos <= |input|
    ensures r.Ok? ==> r.value.1 == NumberRunEnd(input, pos)
    decreases |input| - pos
  {
    if pos < |input| && IsDigit(input[pos]) then NumberScan(input, pos + 1, float)
    else if pos < |input| && input[pos] == '.' then
      if float then Fatal("Two periods in number") else NumberScan(input, pos + 1, true)
    else Ok((float, pos))
  }

  /** The scan is a float exactly when it met a period, and fails exactly when
      the run of digits and periods holds two periods (counting one already met). */
  lemma {:induction false} NumberScanPeriods(input: string, pos: nat, float: bool)
    requires pos <= |input|
    ensures var r := NumberScan(input, pos, float);
            var ps := Periods(input[pos..NumberRunEnd(input, pos)]);
            && (r.Ok? ==> r.value.0 == (float || ps > 0))
            && (r.Ok? <==> ps + (if float then 1 else 0) <= 1)
    decreases |input| - pos
  {
    if pos < |input| && (IsDigit(input[pos]) || input[pos] == '.') {
      var e := NumberRunEnd(input, pos);
      assert input[pos..e][0] == input[pos];
      assert input[pos..e][1..] == input[pos + 1..e];
      NumberScanPeriods(input, pos + 1, float || input[pos] == '.');
    }
  }

  /** One step of `NumberScan`. */
  lemma NumberScanStep(input: string, pos: nat, float: bool)
    requires pos < |input|
    ensures IsDigit(input[pos]) ==> NumberScan(input, pos, float) == NumberScan(input, pos + 1, float)
    ensures input[pos] == '.' && float ==> NumberScan(input, pos, float).Fatal?
    ensures input[pos] == '.' && !float ==> NumberScan(input, pos, float) == NumberScan(input, pos + 1, true)
    ensures !IsDigit(input[pos]) && input[pos] != '.' ==> NumberScan(input, pos, float) == Ok((float, pos))
  {
  }

  function DigitValue(c: char): nat
    requires IsDigit(c)
  {
    (c as int - '0' as int) as nat
  }

  /** The value of a string of decimal digits. */
  function DecimalValue(s: string): nat
    requires forall k :: 0 <= k < |s| ==> IsDigit(s[k])
  {
    if s == [] then 0 else DecimalValue(s[..|s| - 1]) * 10 + DigitValue(s[|s| - 1])
  }

  const I64_MAX: int := 0x7FFF_FFFF_FFFF_FFFF

  /** A number literal whose first digit `c` has been read and whose remaining
      characters start at `pos`. Without a period it is parsed as a signed
      64-bit integer, which fails (fatally) above the largest such value. */
  function NumberToken(input: string, pos: nat, c: char): (r: Result<(Constant, nat)>)
    requires pos <= |input| && IsDigit(c)
  {
    var (float, end) :- NumberScan(input, pos, false);
    var text := [c] + input[pos..end];
    if float then Ok((Float(text), end))
    else
      assert forall k :: 0 <= k < |text| ==> IsDigit(text[k]) by {
        NumberScanPeriods(input, pos, false);
        NoPeriodsAllDigits(input, pos, end);
      }
      var v := DecimalValue(text);
      if v > I64_MAX then Fatal("number too large for i64") else Ok((Int(v), end))
  }

  lemma {:induction false} NoPeriodsAllDigits(input: string, pos: nat, end: nat)
    requires pos <= end <= |input|
    requires forall k :: pos <= k < end ==> IsDigit(input[k]) || input[k] == '.'
    requires Periods(input[pos..end]) == 0
    ensures forall k :: pos <= k < end ==> IsDigit(input[k])
    decreases end - pos
  {
    if pos < end {
      assert input[pos..end][0] == input[pos];
      assert input[pos..end][1..] == input[pos + 1..end];
      NoPeriodsAllDigits(input, pos + 1, end);
    }
  }

  /** `NumberToken` once the scan has succeeded. */
  lemma NumberTokenOfScan(input: string, pos: nat, c: char, float: bool, end: nat)
    requires pos <= |input| && IsDigit(c)
    requires NumberScan(input, pos, false) == Ok((float, end))
    ensures pos <= end <= |input|
    ensures float ==> NumberToken(input, pos, c) == Ok((Float([c] + input[pos..end]), end))
    ensures !float ==> (forall k :: 0 <= k < |[c] + input[pos..end]| ==> IsDigit(([c] + input[pos..end])[k]))
    ensures !float ==> NumberToken(input, pos, c) ==
                         (var v := DecimalValue([c] + input[pos..end]);
                          if v > I64_MAX then Fatal("number too large for i64") else Ok((Int(v), end)))
  {
    NumberScanPeriods(input, pos, false);
    if !float {
      NoPeriodsAllDigits(input, pos, end);
    }
  }

  /** What the scanner yields from `pos`: nothing at the end of the input, or
      one token and the position after it. */
  function NextTokenSpec(input: string, pos: nat): (r: Result<Option<(Token, nat)>>)
    requires pos <= |input|
    ensures r.Ok? && r.value.Some? ==> SkipWs(input, pos) < r.value.value.1 <= |input|
    ensures r.Ok? && r.value.None? <==> SkipWs(input, pos) == |input|
  {
    var p := SkipWs(input, pos);
    if p == |input| then Ok(None)
    else
      var c := input[p];
      match PunctuationToken(c)
      case Some(t) => Ok(Some((t, p + 1)))
      case None =>
        if c == '"' then
          var (s, q) := StringScan(input, p + 1, false);
          Ok(Some((Constant(Str(s)), q)))
        else if IsLetter(c) then
          var e := WordEnd(input, p + 1);
          Ok(Some((WordToken(input[p..e]), e)))
        else if IsDigit(c) then
          var (k, e) :- NumberToken(input, p + 1, c);
          Ok(Some((Constant(k), e)))
        else
          Ok(Some((Illegal, p + 1)))
  }

  /** Every token the scanner yields from `pos` to the end of the input. */
  function Tokenize(input: string, pos: nat): Result<seq<Token>>
    requires pos <= |input|
    decreases |input| - pos
  {
    var next :- NextTokenSpec(input, pos);
    match next
    case None => Ok([])
    case Some((t, p)) =>
      var rest :- Tokenize(input, p);
      Ok([t] + rest)
  }

  /** `xs` in front of the tokens of `r`, if `r` is not fatal. */
  function Prepend(xs: seq<Token>, r: Result<seq<Token>>): Result<seq<Token>> {
    match r
    case Ok(ts) => Ok(xs + ts)
    case Fatal(m) => Fatal(m)
  }

  lemma PrependNothing(r: Result<seq<Token>>)
    ensures Prepend([], r) == r
  {
    match r
    case Ok(ts) => assert [] + ts == ts;
    case Fatal(_) =>
  }

  lemma PrependTwice(xs: seq<Token>, ys: seq<Token>, r: Result<seq<Token>>)
    ensures Prepend(xs, Prepend(ys, r)) == Prepend(xs + ys, r)
  {
    match r
    case Ok(ts) => assert xs + (ys + ts) == (xs + ys) + ts;
    case Fatal(_) =>
  }

  /** `Tokenize` is one `NextTokenSpec` step followed by the rest. */
  lemma TokenizeStep(input: string, pos: nat)
    requires pos <= |input|
    ensures NextTokenSpec(input, pos).Fatal? ==> Tokenize(input, pos).Fatal?
    ensures NextTokenSpec(input, pos) == Ok(None) ==> Tokenize(input, pos) == Ok([])
    ensures NextTokenSpec(input, pos).Ok? && NextTokenSpec(input, pos).value.Some? ==>
              Tokenize(input, pos) == Prepend([NextTokenSpec(input, pos).value.value.0],
                                              Tokenize(input, NextTokenSpec(input, pos).value.value.1))
  {
  }

  // ---------------------------------------------------------------- properties

  /** The scanner never yields the end marker itself. */
  lemma {:induction false} TokenizeHasNoEnd(input: string, pos: nat)
    requires pos <= |input|
    ensures Tokenize(input, pos).Ok? ==> forall k :: 0 <= k < |Tokenize(input, pos).value| ==> !Tokenize(input, pos).value[k].End?
    decreases |input| - pos
  {
    var next := NextTokenSpec(input, pos);
    if next.Ok? && next.value.Some? {
      var (t, p) := next.value.value;
      TokenizeHasNoEnd(input, p);
    }
  }

  lemma {:induction false} SkipWsIdempotent(input: string, pos: nat)
    requires pos <= |input|
    ensures SkipWs(input, SkipWs(input, pos)) == SkipWs(input, pos)
  {
  }

  /** Whitespace in front of a token makes no difference to what is read, and
      a punctuation token is made of exactly the one non-whitespace character
      after it. */
  lemma WhitespaceSkipped(input: string, pos: nat)
    requires pos <= |input|
    ensures NextTokenSpec(input, pos) == NextTokenSpec(input, SkipWs(input, pos))
    ensures NextTokenSpec(input, pos).Ok? && NextTokenSpec(input, pos).value.Some?
            && IsPunctuation(NextTokenSpec(input, pos).value.value.0)
            ==> var p := SkipWs(input, pos);
                NextTokenSpec(input, pos).value.value.1 == p + 1
                && input[p] == PunctuationChar(NextTokenSpec(input, pos).value.value.0)
                && !IsWhitespace(input[p])
  {
    SkipWsIdempotent(input, pos);
    PunctuationRead(input, pos);
  }

  /** A punctuation token is the one character after the whitespace. */
  lemma PunctuationRead(input: string, pos: nat)
    requires pos <= |input|
    ensures NextTokenSpec(input, pos).Ok? && NextTokenSpec(input, pos).value.Some?
            && IsPunctuation(NextTokenSpec(input, pos).value.value.0)
            ==> var p := SkipWs(input, pos);
                NextTokenSpec(input, pos).value.value.1 == p + 1
                && input[p] == PunctuationChar(NextTokenSpec(input, pos).value.value.0)
                && !IsWhitespace(input[p])
  {
    var p := SkipWs(input, pos);
    var r := NextTokenSpec(input, pos);
    if r.Ok? && r.value.Some? && IsPunctuation(r.value.value.0) {
      PunctuationTable(input[p], r.value.value.0);
    }
  }

  /** A leading underscore is a token of its own, because the punctuation table
      is consulted before the letter test; a word never starts with `_`. */
  lemma LeadingUnderscore(input: string, pos: nat)
    requires pos <= |input|
    requires SkipWs(input, pos) < |input| && input[SkipWs(input, pos)] == '_'
    ensures NextTokenSpec(input, pos) == Ok(Some((Underscore, SkipWs(input, pos) + 1)))
  {
  }

  /** A word starting with a letter runs over letters, digits and `_`, and
      becomes a keyword exactly when it is one of the fifteen spellings. */
  lemma WordRead(input: string, pos: nat)
    requires pos <= |input|
    requires SkipWs(input, pos) < |input| && IsAlphabetic(input[SkipWs(input, pos)])
    ensures var p := SkipWs(input, pos);
            var e := WordEnd(input, p + 1);
            NextTokenSpec(input, pos) == Ok(Some((WordToken(input[p..e]), e)))
            && (forall k :: p <= k < e ==> IsWordChar(input[k]))
            && (e < |input| ==> !IsWordChar(input[e]))
  {
    var p := SkipWs(input, pos);
    PunctuationTable(input[p], Illegal);
  }

  /** A character that is neither punctuation, a quote, a letter nor a digit
      is an `Illegal` token, and nothing else is. */
  lemma IllegalCharacter(input: string, pos: nat)
    requires pos <= |input|
    requires SkipWs(input, pos) < |input|
    ensures var p := SkipWs(input, pos);
            var c := input[p];
            NextTokenSpec(input, pos) == Ok(Some((Illegal, p + 1)))
            <==> PunctuationToken(c).None? && c != '"' && !IsLetter(c) && !IsDigit(c)
  {
    var p := SkipWs(input, pos);
    var c := input[p];
    match PunctuationToken(c)
    case Some(t) => PunctuationTable(c, t);
    case None =>
  }

  /** A number reads the maximal run of digits and periods: with no period it
      is an integer, with one a float, and a second period is fatal. */
  lemma NumberRead(input: string, pos: nat, c: char)
    requires pos <= |input| && IsDigit(c)
    ensures var end := NumberRunEnd(input, pos);
            var ps := Periods(input[pos..end]);
            && (ps >= 2 <==> NumberToken(input, pos, c).Fatal? && NumberScan(input, pos, false).Fatal?)
            && (ps == 0 && NumberToken(input, pos, c).Ok? ==> NumberToken(input, pos, c).value.0.Int?)
            && (ps == 1 ==> NumberToken(input, pos, c) == Ok((Float([c] + input[pos..end]), end)))
  {
    NumberScanPeriods(input, pos, false);
    var r := NumberScan(input, pos, false);
    if r.Ok? {
      NumberTokenOfScan(input, pos, c, r.value.0, r.value.1);
    }
  }

  // ---------------------------------------------------------------- the scanner

  class Lexer {
    /** The characters of the input; `pos` of them have been read. */
    const input: string
    var pos: nat
    /** The token vector the scanner appends to. */
    var tokens: seq<Token>

    ghost predicate Valid()
      reads this
    {
      pos <= |input|
    }

    constructor (input: string, tokens: seq<Token>)
      ensures Valid() && this.input == input && pos == 0 && this.tokens == tokens
    {
      this.input := input;
      this.tokens := tokens;
      pos := 0;
    }

    function PeekChar(): (c: Option<char>)
      requires Valid()
      reads this
      ensures c.Some? <==> pos < |input|
      ensures c.Some? ==> c.value == input[pos]
    {
      if pos < |input| then Some(input[pos]) else None
    }

    method ReadChar() returns (c: Option<char>)
      requires Valid()
      modifies this`pos
      ensures Valid()
      ensures c == old(PeekChar())
      ensures pos == if old(pos) < |input| then old(pos) + 1 else old(pos)
    {
      if pos < |input| {
        c := Some(input[pos]);
        pos := pos + 1;
      } else {
        c := None;
      }
    }

    method SkipWhitespace()
      requires Valid()
      modifies this`pos
      ensures Valid() && pos == SkipWs(input, old(pos))
    {
      while PeekChar().Some?
        invariant Valid() && old(pos) <= pos
        invariant SkipWs(input, pos) == SkipWs(input, old(pos))
        decreases |input| - pos
      {
        var c := PeekChar().value;
        if IsWhitespace(c) {
          var _ := ReadChar();
        } else {
          break;
        }
      }
    }

    /** Reads the rest of a word whose first character `c` has been read. */
    method ReadWord(c: char) returns (word: string)
      requires Valid()
      modifies this`pos
      ensures Valid() && pos == WordEnd(input, old(pos))
      ensures word == [c] + input[old(pos)..pos]
    {
      word := [c];
      while PeekChar().Some?
        invariant Valid() && old(pos) <= pos
        invariant WordEnd(input, pos) == WordEnd(input, old(pos))
        invariant word == [c] + input[old(pos)..pos]
        decreases |input| - pos
      {
        var d := PeekChar().value;
        if IsWordChar(d) {
          var r := ReadChar();
          word := word + [r.value];
        } else {
          break;
        }
      }
    }

    /** Reads a string literal whose opening quote has been read. */
    method ReadString() returns (s: string)
      requires Valid()
      modifies this`pos
      ensures Valid() && (s, pos) == StringScan(input, old(pos), false)
    {
      s := [];
      var escape := false;
      while PeekChar().Some?
        invariant Valid() && old(pos) <= pos
        invariant s + StringScan(input, pos, escape).0 == StringScan(input, old(pos), false).0
        invariant StringScan(input, pos, escape).1 == StringScan(input, old(pos), false).1
        decreases |input| - pos
      {
        var c := PeekChar().value;
        if !escape && c == '"' {
          assert StringScan(input, pos, escape) == ([], pos + 1);
          assert s + [] == s;
          var _ := ReadChar();
          return;
        }
        if !escape && c == '\\' {
          var _ := ReadChar();
          escape := true;
        } else {
          var r := ReadChar();
          s := s + [r.value];
          escape := false;
        }
      }
      assert s + [] == s;
    }

    /** Reads the digits and periods of a number literal whose first digit `c`
        has been read; a second period is fatal. */
    method ScanNumber(c: char) returns (r: Result<(string, bool)>)
      requires Valid()
      modifies this`pos
      ensures Valid()
      ensures r.Ok? <==> NumberScan(input, old(pos), false).Ok?
      ensures r.Ok? ==> NumberScan(input, old(pos), false) == Ok((r.value.1, pos))
                        && r.value.0 == [c] + input[old(pos)..pos]
    {
      var text := [c];
      var float := false;
      while PeekChar().Some?
        invariant Valid() && old(pos) <= pos
        invariant text == [c] + input[old(pos)..pos]
        invariant NumberScan(input, old(pos), false) == NumberScan(input, pos, float)
        decreases |input| - pos
      {
        var d := PeekChar().value;
        NumberScanStep(input, pos, float);
        ghost var p0 := pos;
        assert input[old(pos)..p0 + 1] == input[old(pos)..p0] + [input[p0]];
        if IsDigit(d) {
          var ch := ReadChar();
          text := text + [ch.value];
        } else if d == '.' {
          if float {
            return Fatal("Two periods in number");
          }
          float := true;
          var ch := ReadChar();
          text := text + [ch.value];
        } else {
          break;
        }
      }
      r := Ok((text, float));
    }

    /** Reads the rest of a number literal whose first digit `c` has been read. */
    method ReadNumber(c: char) returns (r: Result<Constant>)
      requires Valid() && IsDigit(c)
      modifies this`pos
      ensures Valid()
      ensures r.Ok? <==> NumberToken(input, old(pos), c).Ok?
      ensures r.Ok? ==> (r.value, pos) == NumberToken(input, old(pos), c).value
    {
      var scanned :- ScanNumber(c);
      var (text, float) := scanned;
      NumberTokenOfScan(input, old(pos), c, float, pos);
      if float {
        r := Ok(Float(text));
      } else {
        var v := DecimalValue(text);
        if v > I64_MAX {
          return Fatal("number too large for i64");
        }
        r := Ok(Int(v));
      }
    }

    method NextToken() returns (r: Result<Option<Token>>)
      requires Valid()
      modifies this`pos
      ensures Valid()
      ensures r.Ok? <==> NextTokenSpec(input, old(pos)).Ok?
      ensures r.Ok? ==> (r.value.None? <==> NextTokenSpec(input, old(pos)).value.None?)
      ensures r.Ok? && r.value.Some? ==> NextTokenSpec(input, old(pos)).value == Some((r.value.value, pos))
    {
      SkipWhitespace();
      ghost var p := pos;
      var next := ReadChar();
      if next.None? {
        return Ok(None);
      }
      var c := next.value;
      match PunctuationToken(c)
      case Some(t) =>
        return Ok(Some(t));
      case None =>
        if c == '"' {
          var s := ReadString();
          return Ok(Some(Constant(Str(s))));
        } else if IsLetter(c) {
          var word := ReadWord(c);
          assert word == input[p..pos];
          return Ok(Some(WordToken(word)));
        } else if IsDigit(c) {
          var k :- ReadNumber(c);
          return Ok(Some(Constant(k)));
        } else {
          return Ok(Some(Illegal));
        }
    }

    /** Scans the whole remaining input, then appends the end marker. */
    method ReadTokens() returns (r: Outcome)
      requires Valid()
      modifies this
      ensures Valid()
      ensures r.Pass? <==> Tokenize(input, old(pos)).Ok?
      ensures r.Pass? ==> tokens == old(tokens) + Tokenize(input, old(pos)).value + [End]
    {
      ghost var n0 := |tokens|;
      assert tokens[n0..] == [];
      PrependNothing(Tokenize(input, pos));
      while true
        invariant Valid() && |tokens| >= n0 && tokens[..n0] == old(tokens)
        invariant Tokenize(input, old(pos)) == Prepend(tokens[n0..], Tokenize(input, pos))
        decreases |input| - pos
      {
        ghost var start := pos;
        TokenizeStep(input, start);
        var t := NextToken();
        if t.Fatal? {
          return Fail(t.msg);
        }
        match t.value
        case Some(token) =>
          ghost var before := tokens;
          tokens := tokens + [token];
          assert tokens[n0..] == before[n0..] + [token];
          PrependTwice(before[n0..], [token], Tokenize(input, pos));
        case None =>
          assert tokens[n0..] + [] == tokens[n0..];
          break;
      }
      assert Tokenize(input, old(pos)) == Ok(tokens[n0..]);
      tokens := tokens + [End];
      r := Pass;
    }
  }
}
