# A verified model of a small C-like compiler front end

This project models the front end of a small compiler for a C-like language, written in Rust. It covers the path from source text to a resolved, laid-out syntax tree, and proves what each stage promises. Nothing in it is executed: every statement below is a proof obligation that Dafny discharges.

The stages, leaves first, and the files that model them:

- **Lexer** (`token.dfy`, `lexer.dfy`). The keyword and punctuation tables, whitespace skipping, words, numbers and escaped strings; one token per call, and the whole token list ending in one `End`. `Lexing.Lexer` is a class over the input and position, with each method proved against a function of the input.
- **Parser engine** (`construct.dfy`, `ast.dfy`, `parser.dfy`). The node arena is `Trees.Ast`. `SetNode` either appends a node or overwrites a rewound slot, and links its children first-child/next-sibling. The cursor is a triple (token, node, child) with a checkpoint stack, a staging list of child indices and a stashed cursor. `Parsing.Parser` is a class whose methods mirror the specification functions on `Parsing.PState`. The laws `RejectLaw`, `AcceptLaw` and `ConfirmLaw` say what a grammar rule may leave behind: either exactly one committed node, or the state as it found it.
- **Grammar** (`match_*.dfy`, `precedence.dfy`). Every rule is a function on `PState` plus a method on the parser that is proved to do the same. Each rule has a law saying which tokens it accepts, which node it commits, and over which children. `precedence.dfy` reads the committed arena back as an expression term and proves how a chain of binary operators groups.
- **Symbol tables** (`symbol_table.dfy`, `checker.dfy`). A table maps each name to the index of its last mapping. Mappings are appended with a link to the binding they shadow, and a stack records where each scope starts. The table is generic in its payload; `Scopes.ScopeRoundTrip` proves that closing a scope restores every name to what it found before the scope opened. The checker's copy of the table adds a depth counter.
- **Resolver** (`generator.dfy`, `shapes.dfy`, `resolve.dfy`). `Generators.Generator` holds the arena and a tree cursor (a stack of node indices). Resolution runs three passes per scope: register declarations, rewrite datatype identifiers into `Reference(index)`, then lay out structures. The same members model the first pass in `src/generator/resolve/content.rs` and its textual copies in `src/generator/datatype.rs` and `src/generator/symbol.rs`.
- **Structure layout** (`layout.dfy`). Each member is placed at the next multiple of its own size. The structure size is rounded up to a multiple of its largest member. Size 0 is the "not yet laid out" sentinel.
- **Datatype information** (`datatype_info.dfy`). The size and register class of a datatype, and the type half of `validate_datatypes`, characterised by an independent key (`DatatypeInfos.KeyOf`).
- **Checker** (`checker_walk.dfy`, `checker_passes.dfy`). A second resolver over the same arena. It links each identifier to its declaration by setting the identifier's child. `CheckerWalks.ResolveAstLaw` proves that afterwards every identifier the walk visits is linked to a node that declares its name. The walk visits every identifier except those in function parameter and return types, which the program skips too (`src/checker/function.rs:46-88`).

`outcome.dfy` holds the `Result` and `Option` wrappers. A panic in the program is a `Fatal` result in the model.

Two behaviours of the program, followed as written, read differently from a description of the language:

- Operators of equal priority group to the right. The chain stops only when the next operator's priority number is strictly greater than its own (`src/parser/match/expression.rs:172`), so `1 - 2 - 3` builds `1 - (2 - 3)`. See `Precedence.SubtractionsGroupRight` and `Precedence.GroupsRight`.
- `<` is read as the `GreaterThan` token and `>` as `LessThan`, so `->` in a function header is `-` followed by `LessThan`.

## Model

| member | source | states |
|---|---|---|
| Lexing.KeywordTable | src/lexer/lexer.rs:28-47 | exactly the fifteen keyword spellings map to a keyword, each to its own one; every other word maps to none |
| Lexing.PunctuationTable | src/lexer/lexer.rs:123-151 | the punctuation table and the token comments agree in both directions, `<` giving `GreaterThan` and `>` giving `LessThan`; no punctuation character is whitespace, a letter or a digit |
| Lexing.PunctuationRoundTrip | src/lexer/lexer.rs:123-151 | every punctuation token is read back from the character the table gives for it |
| Lexing.PunctuationClass | src/lexer/lexer.rs:123-164 | a punctuation character is never whitespace, a letter, a digit or a quote, so the arms of `next_token` do not overlap |
| Lexing.SkipWs | src/lexer/lexer.rs:53-61 | the skipped-to position is at or after the start, everything skipped is whitespace and the character reached is not |
| Lexing.WordEnd | src/lexer/lexer.rs:63-74 | the word runs over letters, digits and `_` only, and the character after it is none of those |
| Lexing.StringScan | src/lexer/lexer.rs:76-92 | the scan ends within the input, and the body it returns is no longer than the text it passed over |
| Lexing.StringScanCloses | src/lexer/lexer.rs:76-92 | when the first unescaped `"` at or after the start is at `q`, the scan returns the text before `q` with each escaping backslash removed and the character after it kept (`a\nb` reads as `anb`), and ends at `q + 1` |
| Lexing.StringScanUnclosed | src/lexer/lexer.rs:76-92 | with no unescaped `"` left, the scan returns the rest of the input with escaping backslashes removed and ends at the end of the input |
| Lexing.EscapeBody | src/lexer/lexer.rs:76-92 | escaping a text (a backslash before each quote and backslash) gives a well-formed body that stands for that text again |
| Lexing.StringRoundTrip | src/lexer/lexer.rs:76-92 | reading back an escaped body followed by `"` yields that body: a backslash is dropped and the character after it is kept, and the closing quote is consumed but not kept |
| Lexing.NumberScan | src/lexer/lexer.rs:94-110 | a scan that succeeds ends at the end of the run of digits and periods, that is at the first other character (whether it is a float: `Lexing.NumberScanPeriods`) |
| Lexing.NumberScanPeriods | src/lexer/lexer.rs:99-108 | the scan is a float exactly when the run holds one period, and fails with the "two periods" error exactly when it holds two |
| Lexing.NumberTokenOfScan | src/lexer/lexer.rs:111-115 | a successful scan without a period gives `Int` of the digits' value, which fails when above the i64 range; with a period, `Float` of the text |
| Lexing.NextTokenSpec | src/lexer/lexer.rs:118-170 | at the end of the input nothing is read; otherwise one token and a position strictly after the start |
| Lexing.TokenizeStep | src/lexer/lexer.rs:172-180 | the tokens of the remaining input are the next token followed by the tokens after it, and nothing at the end |
| Lexing.TokenizeHasNoEnd | src/lexer/lexer.rs:118-170 | the scanner itself never yields the `End` marker, so `End` appears once, last, after `read_tokens` |
| Lexing.SkipWsIdempotent | src/lexer/lexer.rs:53-61 | skipping whitespace twice is the same as skipping it once |
| Lexing.WhitespaceSkipped | src/lexer/lexer.rs:53-61 | whitespace in front of a token changes nothing in what is read, and a punctuation token is exactly the one character after the whitespace (also line 119 of the same file) |
| Lexing.PunctuationRead | src/lexer/lexer.rs:119-151 | a punctuation character after the whitespace gives its token and moves one character past it |
| Lexing.LeadingUnderscore | src/lexer/lexer.rs:147-159 | a leading `_` is `Underscore` on its own, because the punctuation arm comes before the letter test; no word starts with `_` |
| Lexing.WordRead | src/lexer/lexer.rs:63-74 | a word starting with a letter runs over letters, digits and `_`; it is a keyword exactly when it is one of the fifteen spellings and otherwise an `Identifier` of the word (also lines 154-159 of the same file) |
| Lexing.IllegalCharacter | src/lexer/lexer.rs:160-164 | a character that is not punctuation, a quote, a letter or a digit yields `Illegal`, and only such a character does |
| Lexing.NumberRead | src/lexer/lexer.rs:94-116 | a number reads the longest run of digits and periods: no period gives an integer, one a float, a second period is fatal (also lines 160-161 of the same file) |
| Lexing.Lexer.constructor | src/lexer/lexer.rs:13-18 | the scanner starts at the first character of its input with the given token list |
| Lexing.Lexer.PeekChar | src/lexer/lexer.rs:49-51 | the character at the position, or none at the end of the input |
| Lexing.Lexer.ReadChar | src/lexer/lexer.rs:20-22 | returns the peeked character and moves one position on, except at the end |
| Lexing.Lexer.SkipWhitespace | src/lexer/lexer.rs:53-61 | moves the position to `SkipWs` of the old position |
| Lexing.Lexer.ReadWord | src/lexer/lexer.rs:63-74 | returns the first character followed by the input up to `WordEnd`, and moves there |
| Lexing.Lexer.ReadString | src/lexer/lexer.rs:76-92 | returns the body and ends at the position `StringScan` gives |
| Lexing.Lexer.ScanNumber | src/lexer/lexer.rs:95-110 | fails exactly when `NumberScan` does; otherwise returns the text read and the float flag, and ends where `NumberScan` ends |
| Lexing.Lexer.ReadNumber | src/lexer/lexer.rs:94-116 | returns the constant `NumberToken` gives and moves to its end; fails exactly when it does |
| Lexing.Lexer.NextToken | src/lexer/lexer.rs:118-170 | returns the token `NextTokenSpec` gives and ends at its position; fails and reaches the end exactly when it does |
| Lexing.Lexer.ReadTokens | src/lexer/lexer.rs:172-180 | succeeds exactly when the whole input scans; the token list becomes the old list, then every scanned token in order, then one `End` |
| Trees.LinkFromFacts | src/parser/ast.rs:34-39 | linking fails exactly when a kid other than the last names no node; it changes only the `next` fields of those kids, each then pointing at its successor, and leaves the last kid's `next` alone |
| Trees.SetNodeFacts | src/parser/ast.rs:20-40 | writing at `node_i == len` appends exactly one node, below `len` overwrites that slot with `next` reset, above `len` is fatal; the written node's `child` is the first kid or none, and no other node changes but the linked kids' `next` fields |
| Trees.ChainChildren | src/parser/ast.rs:34-39 | following the `child`/`next` links from a node written with increasing kids visits exactly those kids, in order |
| Trees.Ast.constructor | src/parser/ast.rs:14-18 | a new tree has no nodes |
| Trees.Ast.SetNode | src/parser/ast.rs:20-40 | fails exactly when `SetNodeSpec` does, and otherwise leaves the arena equal to `SetNodeSpec` of the old one |
| Parsing.StartNodeSpec | src/parser/parser.rs:51-56 | fatal exactly when the checkpoint stack is at capacity; otherwise pushes the current cursor and leaves it unchanged |
| Parsing.StartNodeWithPrevSpec | src/parser/parser.rs:59-66 | fatal when the stack is full or fewer than `n` children are staged; otherwise pushes the cursor with `child_i` smaller by `n` and leaves the live cursor unchanged |
| Parsing.Truncate | src/parser/parser.rs:75-78 | the staging list cut to its first `n` entries, or left alone when it is no longer (also lines 90-92 of the same file) |
| Parsing.DiscardNodeSpec | src/parser/parser.rs:88-94 | fatal exactly on an empty stack; otherwise pops the checkpoint, returns the whole cursor to it and leaves the arena and tokens alone |
| Parsing.PeekTokenSpec | src/parser/parser.rs:96-102 | the token at `token_i`, fatal exactly when none is left |
| Parsing.ConsumeTokenSpec | src/parser/parser.rs:104-111 | the peeked token and the state with `token_i` one larger; fatal exactly when peeking is |
| Parsing.DiscardUndoesStart | src/parser/parser.rs:88-94 | a discard right after a start gives back exactly the state before the start (also lines 51-56 of the same file) |
| Parsing.DiscardAfterConsume | src/parser/parser.rs:88-94 | a start, one consumed token and a discard give back exactly the state before the start (also lines 104-111 of the same file) |
| Parsing.ConfirmAfterStart | src/parser/parser.rs:68-86 | a confirm right after a start writes a childless node at `node_i`, stages it, and changes no other node |
| Parsing.RollbackUndoesStash | src/parser/parser.rs:117-123 | rolling back after a stash restores the whole cursor triple, whatever was consumed in between |
| Parsing.RejectLaw | src/parser/parser.rs:88-94 | giving up inside a rule restores the cursor and the staging list the rule started with |
| Parsing.AcceptLaw | src/parser/parser.rs:68-86 | succeeding inside a rule after at least one token stages exactly the new node in place of what the rule staged, and that node carries the construct, no sibling, and the staged entries as its children |
| Parsing.LeafLaw | src/parser/parser.rs:68-94 | a rule reading one token into a leaf either returns to exactly its starting state or stages one childless node for that token (also lines 51-56 and 104-111 of the same file) |
| Parsing.ConfirmChildren | src/parser/parser.rs:72-73 | the confirmed node's children are exactly the entries staged since the checkpoint |
| Parsing.ConfirmLaw | src/parser/parser.rs:68-86 | a confirm inside a rule fails exactly when the staging list is at capacity; otherwise `node_i` grows by one, `child_i` becomes the checkpoint's plus one, `token_i` is unchanged, the list is the checkpoint's prefix plus the new node, and the new node chains to the staged children |
| Parsing.Parser.constructor | src/parser/parser.rs:24-49 | a parser starts at the cursor (0,0,0) with empty stack and staging list and the given capacities |
| Parsing.Parser.StartNode | src/parser/parser.rs:51-56 | its status and new state are those of `StartNodeSpec` |
| Parsing.Parser.StartNodeWithPrev | src/parser/parser.rs:59-66 | its status and new state are those of `StartNodeWithPrevSpec` |
| Parsing.Parser.ConfirmNode | src/parser/parser.rs:68-86 | its status and new state, arena included, are those of `ConfirmNodeSpec` |
| Parsing.Parser.DiscardNode | src/parser/parser.rs:88-94 | its status and new state are those of `DiscardNodeSpec` |
| Parsing.Parser.TruncateChildren | src/parser/parser.rs:75-78 | pops staged children until at most `n` are left |
| Parsing.Parser.StageConfirmed | src/parser/parser.rs:75-85 | the tail of `confirm_node`: keeps the first `keep` staged children and stages the new node after them, moving the cursor one node and one child on; it is fatal exactly when the kept list is already at the children capacity |
| Parsing.Parser.PeekToken | src/parser/parser.rs:96-102 | returns `PeekTokenSpec` and changes nothing |
| Parsing.Parser.ConsumeToken | src/parser/parser.rs:104-111 | returns the token and reaches the state `ConsumeTokenSpec` gives, failing exactly when it does |
| Parsing.Parser.StashState | src/parser/parser.rs:117-119 | saves the cursor and changes nothing else |
| Parsing.Parser.RollbackState | src/parser/parser.rs:121-123 | restores the saved cursor and changes nothing else |
| MatchCommon.IdentifierLaw | src/parser/match/common.rs:7-21 | fails only on a full stack, a missing token or a full staging list; matches exactly an `Identifier` token, consuming it for one childless `Identifier(name)` node, and on any other token leaves the state exactly as before |
| MatchCommon.MatchIdentifier | src/parser/match/common.rs:7-21 | its result and final state are those of `IdentifierRule` |
| MatchDatatype.PrimitiveOf | src/parser/match/datatype.rs:35-57 | a keyword names a primitive exactly when it is not `mut`, `return`, `function` or `struct` |
| MatchDatatype.SkipMut | src/parser/match/datatype.rs:80-84 | the first position at or after `i` holding no `mut`, with only `mut` in between |
| MatchDatatype.QualifierLaw | src/parser/match/datatype.rs:8-30 | matches exactly the keyword `mut`, committing one childless `Qualifier(Mut)`; on any other token the state is as before |
| MatchDatatype.PrimitiveLaw | src/parser/match/datatype.rs:32-63 | matches exactly the eleven primitive keywords, each committing the same-named `Primitive` leaf; otherwise the state is as before |
| MatchDatatype.TerminalLaw | src/parser/match/datatype.rs:65-73 | a terminal is a primitive keyword or an identifier, the primitive tried first, committed as that leaf; otherwise the state is as before |
| MatchDatatype.QualifierLoopLaw | src/parser/match/datatype.rs:80-84 | the qualifier loop stops on the first token that is not `mut` and stages one node per qualifier it read |
| MatchDatatype.QualifierLoopStaged | src/parser/match/datatype.rs:80-84 | every node the loop stages is a `Qualifier(Mut)` leaf |
| MatchDatatype.DatatypeLaw | src/parser/match/datatype.rs:77-107 | obeys the rule law; after the qualifiers, `&` gives `Datatype(Pointer)` and is fatal without a type after it, a terminal gives `Datatype(Terminal)`, anything else is no match with the qualifiers undone |
| MatchDatatype.DatatypeShape | src/parser/match/datatype.rs:77-107 | a matched type's children are its qualifiers, in order, then the nested type after `&` or the terminal leaf |
| MatchDatatype.MatchQualifier | src/parser/match/datatype.rs:8-30 | its result and final state are those of `QualifierRule` |
| MatchDatatype.MatchPrimitive | src/parser/match/datatype.rs:32-63 | its result and final state are those of `PrimitiveRule` |
| MatchDatatype.MatchTerminal | src/parser/match/datatype.rs:65-73 | its result and final state are those of `TerminalRule` |
| MatchDatatype.MatchDatatype | src/parser/match/datatype.rs:77-107 | its result and final state are those of `DatatypeRule` |
| MatchExpression.UnaryOf | src/parser/match/expression.rs:193-202 | exactly `-`, `!`, `&` and `*` introduce a unary operation: Negate 52, LogicalNot 41, Ref 11 and Deref 11 |
| MatchExpression.ConstantLaw | src/parser/match/expression.rs:68-82 | matches exactly a constant token, committing one `Expression(Constant)` leaf carrying it; otherwise the state is as before |
| MatchExpression.ExpressionIdentifierLaw | src/parser/match/expression.rs:84-95 | matches exactly an identifier token, committing an `Expression(Identifier)` node whose one child is the `Identifier` leaf; otherwise the state is as before |
| MatchExpression.UnaryOpLaw | src/parser/match/expression.rs:190-212 | matches exactly on `-`, `!`, `&` and `*`, committing the matching `UnaryOp` node; an operator without an operand is fatal |
| MatchExpression.UnaryOperand | src/parser/match/expression.rs:204-209 | on an operator token the committed node is the operation over its operand, a chain at the operator's priority |
| MatchExpression.FunctionCallLaw | src/parser/match/expression.rs:8-49 | matches exactly a name followed by `(`, committing `Expression(Function)`; after the name the state is restored when no `(` follows |
| MatchExpression.CallShape | src/parser/match/expression.rs:24-38 | the call node's children are the name leaf, then the argument expressions in order (also lines 11 and 45-46 of the same file) |
| MatchExpression.CallArgumentsLaw | src/parser/match/expression.rs:24-38 | the argument list only stages nodes, each of them an expression node; a comma without an expression after it is fatal |
| MatchExpression.ArgumentsLoopLaw | src/parser/match/expression.rs:28-36 | each further argument the loop reads is staged as one expression node |
| MatchExpression.ParenthesesLaw | src/parser/match/expression.rs:51-66 | matches exactly on `(`, committing no node of its own: the inner expression's node stands for it; a missing expression or `)` is fatal |
| MatchExpression.EnclosedLaw | src/parser/match/expression.rs:98-116 | an operand is tried as unary operation, call, parentheses, constant and name, in that order; it matches exactly when the token is a unary operator, a name, `(` or a constant, and commits that form's node |
| MatchExpression.BinaryStep | src/parser/match/expression.rs:177-185 | after the left operand, `start_node_with_prev(1)`, the right chain and the confirm wrap both operands into one `BinaryOp` node that replaces the left operand in the staging list (also lines 229-235 of the same file) |
| MatchExpression.ChainLaw | src/parser/match/expression.rs:158-188 | a chain matches exactly when an operand starts, and commits one expression node |
| MatchExpression.ChainTailLaw | src/parser/match/expression.rs:163-187 | after its first operand the chain still commits exactly one expression node, whether it rolls back or takes an operation |
| MatchExpression.ExpressionLaw | src/parser/match/expression.rs:214-239 | an expression matches exactly when an operand starts, and commits one expression node |
| MatchExpression.ExpressionLoopLaw | src/parser/match/expression.rs:220-236 | each round of the loop replaces the staged left operand by the binary node over it, so one node stays committed |
| MatchExpression.ExpressionLoopStops | src/parser/match/expression.rs:221-227 | where no operator follows, the loop probes one token and rolls back to where it was |
| MatchExpression.OneTokenExpression | src/parser/match/expression.rs:214-239 | a one-token operand with no operator after it is a whole expression of exactly one token |
| MatchExpression.MatchBinaryOp | src/parser/match/expression.rs:118-156 | its result and final state are those of `BinaryOpRule` |
| MatchExpression.MatchFunctionCall | src/parser/match/expression.rs:8-49 | its result and final state are those of `FunctionCallRule` |
| MatchExpression.MatchCallArguments | src/parser/match/expression.rs:24-38 | its status and final state are those of `CallArguments` |
| MatchExpression.MatchParentheses | src/parser/match/expression.rs:51-66 | its result and final state are those of `ParenthesesRule` |
| MatchExpression.MatchConstant | src/parser/match/expression.rs:68-82 | its result and final state are those of `ConstantRule` |
| MatchExpression.MatchExpressionIdentifier | src/parser/match/expression.rs:84-95 | its result and final state are those of `ExpressionIdentifierRule` |
| MatchExpression.MatchEnclosed | src/parser/match/expression.rs:98-116 | its result and final state are those of `EnclosedRule` |
| MatchExpression.MatchChain | src/parser/match/expression.rs:158-188 | its result and final state are those of `ChainRule` |
| MatchExpression.MatchUnaryOp | src/parser/match/expression.rs:190-212 | its result and final state are those of `UnaryOpRule` |
| MatchExpression.MatchExpression | src/parser/match/expression.rs:214-239 | its result and final state are those of `ExpressionRule` |
| MatchExpression.FunctionCallAsWritten | src/parser/match/expression.rs:8-49 | the call rule with the argument loop as written, which consumes the token after each argument to test it for `,` |
| MatchExpression.CallAsWrittenLosesParen | src/parser/match/expression.rs:28-43 | on `f(x)` followed by anything but a second `)` the rule as written is fatal with "Function missing closing )", while the corrected rule commits the call |
| MatchExpression.OneArgumentCall | src/parser/match/expression.rs:8-49 | the corrected call rule commits `f(x)`, consuming exactly its four tokens |
| Precedence.Spelling | src/parser/match/expression.rs:118-156 | an operator is spelled by one token, or by one token written twice (`&&`, `\|\|`, `==`) |
| Precedence.BinaryOpSpelled | src/parser/match/expression.rs:118-156 | each operator written at the cursor is read with its priority (Add 53, Subtract 52, Multiply and Divide 51, Access 1, BitwiseAnd 31, BitwiseOr 32, LogicalAnd 42, LogicalOr 43, LogicalEquals 41), consuming exactly its spelling |
| Precedence.BinaryOpRead | src/parser/match/expression.rs:118-156 | conversely, whatever operator is read is written at the cursor with that priority; when none is read exactly one token was consumed and no operator is written there (a single `=` included); the read fails only when the tokens run out |
| Precedence.ChainTailStops | src/parser/match/expression.rs:163-175 | a chain of priority `p` ends after its operand, consuming nothing more, exactly when no operator follows or the next one's priority number is greater than `p` |
| Precedence.ShowsKids | src/parser/match/expression.rs:177-185 | a node spelling an operation has exactly two children, spelling its operands in order; a leaf has none |
| Precedence.BinaryKids | src/parser/match/expression.rs:177-185 | a binary step builds the operation over the term its left operand spelled and the term its right chain spelled (also lines 229-235 of the same file) |
| Precedence.TailStep | src/parser/match/expression.rs:172-187 | one round of a chain of priority `p`: an operator with priority number at most `p` takes the right chain at its own priority, and the chain builds the operation |
| Precedence.LoopStep | src/parser/match/expression.rs:220-236 | one round of the expression loop builds the operation over the expression so far and the right chain, and the loop goes on from that node |
| Precedence.ChainOperator | src/parser/match/expression.rs:158-188 | a constant, an operator binding no looser than the chain, and a constant that ends the inner chain form exactly that one operation |
| Precedence.GroupsRight | src/parser/match/expression.rs:158-188 | when the second operator's priority number is at most the first's, `a op1 b op2 c` is built as `a op1 (b op2 c)` and all five tokens are consumed (also lines 214-236 of the same file) |
| Precedence.GroupsLeft | src/parser/match/expression.rs:172-175 | when the second operator's priority number is larger, `a op1 b op2 c` is built as `(a op1 b) op2 c` (also lines 214-236 of the same file) |
| Precedence.AddThenMultiply | src/parser/match/expression.rs:158-188 | `1 + 2 * 3` is an Add node whose second child is the Multiply node over 2 and 3 (also lines 214-236 of the same file) |
| Precedence.MultiplyThenAdd | src/parser/match/expression.rs:158-188 | `1 * 2 + 3` is an Add node whose first child is the Multiply node over 1 and 2 (also lines 214-236 of the same file) |
| Precedence.SubtractionsGroupRight | src/parser/match/expression.rs:172-187 | `1 - 2 - 3` is built as `1 - (2 - 3)`: operators of one priority associate to the right |
| MatchStatement.StatementKids | src/parser/match/statement.rs:40-41 | the confirmed statement's children are the expressions it matched, in order (also lines 78-79 of the same file) |
| MatchStatement.AssignLaw | src/parser/match/statement.rs:9-44 | an assignment gives up with the cursor restored, or commits one `Statement(Assign)` node over its two expressions; it starts with a token that can start an operand and its last token is `;` |
| MatchStatement.ReturnLaw | src/parser/match/statement.rs:46-82 | a return gives up with the cursor restored, or commits one `Statement(Return)` node over its one expression; it starts with the keyword `return` and its last token is `;` |
| MatchStatement.OperandThenSemicolonLaw | src/parser/match/statement.rs:27-41 | the shared end, an expression then `;`, either restores the statement's starting cursor or confirms the statement over its staged expressions (also lines 65-79 of the same file) |
| MatchStatement.StatementLaw | src/parser/match/statement.rs:84-92 | an assignment is tried first, then a return, and the rule gives up only when both do; a matched statement starting with `return` is a return and any other is an assignment |
| MatchStatement.MatchAssign | src/parser/match/statement.rs:9-44 | its result and final state are those of `AssignRule` |
| MatchStatement.MatchReturn | src/parser/match/statement.rs:46-82 | its result and final state are those of `ReturnRule` |
| MatchStatement.MatchStatement | src/parser/match/statement.rs:84-92 | its result and final state are those of `StatementRule` |
| MatchStructure.TypedTailLaw | src/parser/match/structure.rs:22-45 | after the name, `:` and a type (and `;` for a member) commit the node over the type; any mismatch gives up with the cursor restored |
| MatchStructure.MemberLaw | src/parser/match/structure.rs:9-48 | a member gives up with the cursor restored (exactly the starting state when the first token is no name), or matches `name : <datatype> ;` and commits `Member(name, 0)` over the type |
| MatchStructure.MemberLoopLaw | src/parser/match/structure.rs:93-97 | the member loop stages only member nodes and stops at the first non-member, having restored the cursor there |
| MatchStructure.StructureLaw | src/parser/match/structure.rs:50-112 | a structure gives up with the cursor restored, members included, or matches `name : struct { member* }` and commits `Structure(name, 0)` over its member nodes |
| MatchStructure.StructureHeadTokens | src/parser/match/structure.rs:63-91 | a structure that matches after its name has `:`, `struct` and `{` next |
| MatchStructure.StructureBodyLaw | src/parser/match/structure.rs:93-111 | after `{` the members and then `}` commit the structure; without `}` everything matched inside is discarded |
| MatchStructure.MatchMember | src/parser/match/structure.rs:9-48 | its result and final state are those of `MemberRule` |
| MatchStructure.MatchStructure | src/parser/match/structure.rs:50-112 | its result and final state are those of `StructureRule` |
| MatchStructure.MatchStructureBody | src/parser/match/structure.rs:92-111 | from after `{`: its result and final state are those of `StructureBody`, the member loop then `}` |
| MatchProgram.ProgramLoopLaw | src/parser/match/program.rs:10-14 | the loop stages only symbol nodes and stops at the first position where no symbol matches |
| MatchProgram.ProgramAccept | src/parser/match/program.rs:16-17 | `Program` is confirmed over the staged symbols, even when there are none and no token was consumed |
| MatchProgram.ProgramLaw | src/parser/match/program.rs:7-20 | the program always matches unless the parser runs out of room or a nested rule is fatal; it commits one `Program` node over symbol nodes, need not reach `End`, and leaves the checkpoint stack as it found it |
| MatchProgram.MatchProgram | src/parser/match/program.rs:7-20 | its result and final state are those of `ProgramRule` |
| MatchSymbol.ArgumentLaw | src/parser/match/function.rs:9-39 | an argument gives up with the cursor restored (exactly the starting state when the first token is no name), or matches `name : <datatype>` and commits `Argument(name)` over the type |
| MatchSymbol.ReturnedLaw | src/parser/match/function.rs:41-55 | a returned type gives up with the cursor restored, or commits `Returned` over one datatype node |
| MatchSymbol.ArgumentListLaw | src/parser/match/function.rs:102-112 | the argument list stages only argument nodes |
| MatchSymbol.ArgumentLoopComma | src/parser/match/function.rs:104-110 | past a `,` the loop goes on only after a matched argument; a `,` without one is fatal |
| MatchSymbol.ReturnSpecLaw | src/parser/match/function.rs:124-156 | the return specification stages only returned-type nodes; once `-` is seen, `>` (read as `LessThan`), a returned type or a parenthesised list, and its `)` are all required, each missing piece fatal |
| MatchSymbol.ReturnTypesLaw | src/parser/match/function.rs:131-153 | after `->`, one returned type, else `(` then returned types separated by commas then `)` |
| MatchSymbol.ReturnedLoopLaw | src/parser/match/function.rs:139-148 | the returned types after the first are read while `,` follows, each one required |
| MatchSymbol.VariableLaw | src/parser/match/symbol.rs:11-47 | a variable gives up with the cursor restored (also when `;` is missing), or matches `name : <datatype> ;` and commits `Variable(name)` over the type |
| MatchSymbol.FunctionChildren | src/parser/match/function.rs:102-166 | the function node's children are its arguments, then its returned types, then the block, in that order |
| MatchSymbol.FunctionLaw | src/parser/match/function.rs:57-169 | a function gives up with the cursor restored on a header mismatch, a missing `)` or a missing block, or matches `name : function ( arguments ) [-> returns] { ... }` and commits `Function(name)` over its arguments, returned types and block |
| MatchSymbol.FunctionOpens | src/parser/match/function.rs:62-100 | a function matches only from a name, `:`, `function` and `(` |
| MatchSymbol.SymbolLaw | src/parser/match/symbol.rs:49-60 | a symbol is tried as a function, then a structure, then a variable; it gives up, with the cursor restored, only when all three do, and otherwise commits one node of one of those kinds |
| MatchSymbol.BlockLaw | src/parser/match/block.rs:8-43 | a block gives up with the cursor restored when `{` or `}` is missing, everything matched inside discarded, or commits `Block` over the statements and symbols inside, in source order |
| MatchSymbol.BlockItemsLaw | src/parser/match/block.rs:21-29 | each round tries a statement before a symbol, stages only statement and symbol nodes, and the loop ends when neither matches |
| MatchSymbol.MatchArgument | src/parser/match/function.rs:9-39 | its result and final state are those of `ArgumentRule` |
| MatchSymbol.MatchReturned | src/parser/match/function.rs:41-55 | its result and final state are those of `ReturnedRule` |
| MatchSymbol.MatchVariable | src/parser/match/symbol.rs:11-47 | its result and final state are those of `VariableRule` |
| MatchSymbol.MatchArguments | src/parser/match/function.rs:102-112 | its status and final state are those of `ArgumentList` |
| MatchSymbol.MatchReturns | src/parser/match/function.rs:124-156 | its status and final state are those of `ReturnSpec` |
| MatchSymbol.MatchReturnList | src/parser/match/function.rs:132-152 | its status and final state are those of `ReturnList` |
| MatchSymbol.MatchFunction | src/parser/match/function.rs:57-169 | its result and final state are those of `FunctionRule` |
| MatchSymbol.MatchSymbol | src/parser/match/symbol.rs:49-60 | its result and final state are those of `SymbolRule` |
| MatchSymbol.MatchBlock | src/parser/match/block.rs:8-43 | its result and final state are those of `BlockRule` |
| Scopes.LastIndex | src/generator/generator.rs:124-135 | the newest mapping below `n` binding the name, or none: the meaning of both a table entry and a `prev` link |
| Scopes.Decrease | src/generator/generator.rs:142-157 | closing a scope is fatal exactly when none is open |
| Scopes.FindMeaning | src/generator/generator.rs:115-122 | on a valid table a name is found exactly when some mapping binds it, and then the newest such mapping gives the symbol |
| Scopes.AddValid | src/generator/generator.rs:124-136 | adding keeps the table invariant, and the new mapping's `prev` is the mapping of the binding it shadows |
| Scopes.AddFind | src/generator/generator.rs:115-136 | after adding `name`, it finds the new symbol, and every other name finds what it found before |
| Scopes.IncreaseLaw | src/generator/generator.rs:138-140 | opening a scope records the current number of mappings, keeps the invariant and changes no lookup |
| Scopes.PopToLaw | src/generator/generator.rs:145-156 | popping down to `start` leaves exactly the first `start` mappings, with the table agreeing with them again |
| Scopes.DecreaseLaw | src/generator/generator.rs:142-157 | closing keeps the invariant, cuts the mappings back to the length recorded when the scope opened, and leaves the outer scopes open |
| Scopes.ScopeRoundTrip | src/generator/generator.rs:138-157 | closing a scope restores the whole table to what it was when the scope opened, however often any name was rebound, so every name finds what it found before |
| Scopes.SymbolTable.constructor | src/generator/generator.rs:64-66 | a new table has no mappings and no scope |
| Scopes.SymbolTable.FindSymbol | src/generator/generator.rs:115-122 | returns what `Find` gives for the name |
| Scopes.SymbolTable.AddSymbol | src/generator/generator.rs:124-136 | the table becomes `Add` of the old one |
| Scopes.SymbolTable.IncreaseScope | src/generator/generator.rs:138-140 | the table becomes `Increase` of the old one |
| Scopes.SymbolTable.DecreaseScope | src/generator/generator.rs:142-157 | fails exactly when `Decrease` does; otherwise the table, after the pop loop, is `Decrease` of the old one |
| Generators.Generator.constructor | src/generator/generator.rs:60-71 | the cursor holds only the last node of the arena, the table is empty and the stack frame is 0 |
| Generators.Generator.Current | src/generator/generator.rs:79-83 | the construct of the current node; fatal on an empty cursor |
| Generators.Generator.Down | src/generator/generator.rs:85-95 | pushes the current node's first child and returns true, or returns false with the cursor unchanged; the arena is untouched |
| Generators.Generator.Up | src/generator/generator.rs:97-100 | pops the cursor; fatal when it is empty |
| Generators.Generator.Next | src/generator/generator.rs:102-113 | replaces the current node by its next sibling and returns true, or returns false with the cursor unchanged |
| Generators.Generator.DownRef | src/generator/resolve/structure.rs:23-25 | pushes node `i`, so that `Up` returns to the node holding the reference |
| Generators.Generator.Restart | src/generator/resolve/content.rs:130-131 | replaces the current node by the first child of the node below it on the cursor (also lines 121-122 of the same file) |
| Generators.Generator.GetRefId | src/generator/generate/function.rs:23 | the index of the current node; fatal on an empty cursor |
| Generators.Generator.ReplaceConstruct | src/generator/resolve/content.rs:25-27 | overwrites the current node's construct, leaving its links and every other node |
| Generators.Generator.NewStackFrame | src/generator/generator.rs:159-161 | the stack frame size becomes 0 and nothing else changes |
| Generators.Generator.AllocateStackSpace | src/generator/generator.rs:163-167 | returns the old frame size and increases it by `size` |
| Checkers.Decimal | src/checker/symbol.rs:13 | a number written in decimal digits, with no leading zero |
| Checkers.DecimalRoundTrip | src/checker/symbol.rs:13 | reading the decimal text back gives the number |
| Checkers.FunctionLabel | src/checker/symbol.rs:6-16 | the label starts with the name and is two characters and the depth's digits longer |
| Checkers.LabelInjective | src/checker/symbol.rs:6-16 | two labels are equal only when they were made from the same name and the same depth |
| Checkers.LabelEnd | src/checker/symbol.rs:12-13 | a label ends with the depth's digits with an underscore just before them |
| Checkers.Checker.constructor | src/checker/checker.rs:51-59 | a new checker has an empty table, no scope open and depth 0 |
| Checkers.Checker.CurrentDepth | src/checker/checker.rs:107-109 | the depth is the number of scopes open |
| Checkers.Checker.IncreaseScope | src/checker/checker.rs:84-87 | opens a scope in the table and increases the depth by one |
| Checkers.Checker.DecreaseScope | src/checker/checker.rs:89-105 | fails exactly when no scope is open; otherwise closes it as `Decrease` does and decreases the depth by one |
| Resolve.RewritesThen | src/generator/resolve/content.rs:31-52 | resolving in two steps resolves the union of the two sets of identifiers; what the first step cleared stays cleared, and an identifier it could not find is still there |
| Resolve.ResolveTerminalLaw | src/generator/resolve/content.rs:8-29 | a terminal datatype whose first child is an `Identifier` gets that child rewritten to `Reference(found index)`; a primitive or an existing reference is left alone; an unknown name is fatal; no other node changes (the same code is copied at src/generator/datatype.rs:6-28 and src/generator/symbol.rs:33-55) |
| Resolve.ResolveDatatypeLaw | src/generator/resolve/content.rs:31-52 | resolving the datatypes below a node recurses into pointer datatypes and skips other children such as qualifiers; it is fatal exactly when one of the names it looks at is unknown, and otherwise resolves every one of them and changes no other node (the same code is copied at src/generator/datatype.rs:30-51 and src/generator/symbol.rs:57-78) |
| Resolve.ResolveDatatypeTerminal | src/generator/resolve/content.rs:8-29 | fails exactly when `ResolveTerminal` does; otherwise the arena becomes its result and the cursor is back where it was |
| Resolve.ResolveDatatypeM | src/generator/resolve/content.rs:31-52 | fails exactly when `ResolveDatatype` does; otherwise the arena becomes its result and the cursor is back where it was |
| Resolve.ResolveKidM | src/generator/resolve/content.rs:37-46 | one round of the walk: fails exactly when `ResolveKid` does, and otherwise leaves its result |
| Resolve.Declared | src/generator/resolve/content.rs:56-65 | a construct is registered exactly when it is a function, structure or variable, under its own name (the same code is copied at src/generator/symbol.rs:22-31) |
| Resolve.RegisterLaw | src/generator/resolve/content.rs:113-119 | after the first loop each name finds the last child of the scope declaring it, and a name no child declares finds what it found before; the table stays valid and only grows |
| Resolve.DeclaredFound | src/generator/resolve/content.rs:113-128 | every name declared by a child of the scope is found in the second loop, whether the declaring child comes before or after the use |
| Resolve.ResolveLeadingLaw | src/generator/resolve/content.rs:67-96 | `resolve_function` and `resolve_structure` resolve the datatypes of the leading `Argument`/`Returned` or `Member` children only, stopping at the first other child; fatal exactly when a name they look at is unknown, otherwise every such name resolved and nothing else changed (the same code is copied at src/generator/symbol.rs:80-109) |
| Resolve.ResolveSymbolLaw | src/generator/resolve/content.rs:98-105 | `resolve_symbol_datatypes` resolves the datatypes of a function, structure or variable and does nothing to any other construct; fatal exactly when a name it looks at is unknown (the same code is copied at src/generator/symbol.rs:111-118) |
| Resolve.ResolveScopeLaw | src/generator/resolve/content.rs:121-128 | the second loop resolves every identifier the scope's declarations use, fatal exactly when one is unknown |
| Resolve.LayoutLaw | src/generator/resolve/content.rs:130-142 | the third loop leaves every structure that already had a size as it was and leaves every structure child of the scope with a size |
| Resolve.ContentLaw | src/generator/resolve/content.rs:108-145 | all children are registered before any datatype is resolved, so a type may name a later declaration of the scope; a name neither declared nor known before is fatal; otherwise each name is resolved to the last child declaring it |
| Resolve.ContentLaysOut | src/generator/resolve/content.rs:130-142 | after `resolve_content` every structure child of the scope has been passed to the layout and has its size, and a structure laid out before keeps its size |
| Resolve.CheckForSymbol | src/generator/resolve/content.rs:56-65 | the table becomes `Register` of the current node: added under its name when it declares one, unchanged otherwise |
| Resolve.RegisterKids | src/generator/resolve/content.rs:111-119 | the table becomes `RegisterFrom` over all children of the scope, and the cursor ends on the last child |
| Resolve.ResolveLeadingM | src/generator/resolve/content.rs:67-96 | fails exactly when `ResolveLeading` does; otherwise the arena becomes its result and the cursor is back where it was |
| Resolve.ResolveSymbolDatatypes | src/generator/resolve/content.rs:98-105 | fails exactly when `ResolveSymbol` does; otherwise the arena becomes its result |
| Resolve.ResolveKids | src/generator/resolve/content.rs:121-128 | fails exactly when `ResolveScope` does; otherwise the arena becomes its result and the cursor ends on the last child |
| Resolve.LayoutChild | src/generator/resolve/content.rs:133-138 | one round of the third loop: fails only where `LayoutFrom` from child `j` fails; otherwise the arena still satisfies `Laying`, the cursor stays on child `j`, `LayoutFrom` from child `j + 1` on the new arena gives the same result, and the sibling link of child `j` is the one the parser wrote |
| Resolve.LayoutKids | src/generator/resolve/content.rs:130-142 | fails exactly when `LayoutFrom` does; otherwise the arena becomes its result and the cursor ends on the last child |
| Resolve.ResolveContent | src/generator/resolve/content.rs:108-145 | fails exactly when `Content` does; otherwise the arena becomes its result, the table holds every declaration of the scope, and the cursor is back on the scope |
| Layouts.PrimitiveSize | src/generator/resolve/structure.rs:6-20 | 1 byte exactly for u8, i8 and c8; 2 exactly for u16 and i16; 4 exactly for u32, i32 and f32; 8 exactly for u64, i64 and f64 |
| Layouts.Place | src/generator/resolve/structure.rs:89 | the padded offset is a multiple of `n`, at least the old one and less than `n` past it (also line 105 of the same file) |
| Layouts.PlaceLaw | src/generator/resolve/structure.rs:89 | the source's padding expression `at + (n - at % n) % n` is the next multiple of `n` at or after `at` (also line 105 of the same file) |
| Layouts.MaxOfLaw | src/generator/resolve/structure.rs:86-88 | the alignment is the size of some member and no member is larger |
| Layouts.OffsetsAligned | src/generator/resolve/structure.rs:89-97 | each member's offset is a multiple of its own size |
| Layouts.OffsetsOrdered | src/generator/resolve/structure.rs:89-97 | offsets increase in declaration order, members do not overlap, and each member has less padding before it than its own size |
| Layouts.OffsetsEnds | src/generator/resolve/structure.rs:89-97 | the members end where the last one ends, and the first member sits below its own size |
| Layouts.TotalLaw | src/generator/resolve/structure.rs:103-110 | the structure covers all its members, is a multiple of the largest member size, and has less padding at the end than that size |
| Layouts.SumWithin | src/generator/resolve/structure.rs:89-105 | the structure is at least as large as the sum of its member sizes |
| Layouts.TwoMembers | src/generator/resolve/structure.rs:83-110 | two members: the first at 0, the second at the first multiple of its size past the first, the structure padded to the larger size |
| Layouts.TwoAlike | src/generator/resolve/structure.rs:83-110 | the offsets and total for two member sizes that are equal, `x`: offsets 0 and `x`, and `2x` in all (in an arena: `Layouts.TwoAlikeLaidOut`) |
| Layouts.TwoAlikeLaidOut | src/generator/resolve/structure.rs:70-113 | a structure with two members whose types both take `x` bytes lays out without error: the first member keeps offset 0, the second gets `x`, and the structure becomes `Structure(name, 2x)` |
| Layouts.TwoIntsLaidOut | src/generator/resolve/structure.rs:70-113 | the arena for `S: struct { x: i32; y: i32; }` lays out as `Member(x, 0)`, `Member(y, 4)` and `Structure(S, 8)`, with sizes `[4, 4]` |
| Layouts.FullyDefine | src/generator/resolve/structure.rs:70-113 | a layout keeps the parser's links and rewrites only sizes and offsets, and a structure it sizes gets a positive size |
| Layouts.FullyDefineLaw | src/generator/resolve/structure.rs:70-113 | a structure with the size-0 sentinel gets one positive size per member, offsets equal to `Offsets` of those sizes, and `Structure(name, Total(sizes))`; the member nodes carrying those offsets: `Layouts.FullyDefinePlaces` |
| Layouts.FullyDefinePlaces | src/generator/resolve/structure.rs:83-102 | after a successful layout every member node of the structure is a `Member` whose offset is the one the layout gave it, and every member whose type is a primitive or a pointer was given that type's size |
| Layouts.FullyDefineFixed | src/generator/resolve/structure.rs:70-113 | a structure whose members are all member nodes typed by primitives or pointers lays out without error |
| Layouts.FullyDefineWithin | src/generator/resolve/structure.rs:70-113 | laying out a structure changes only that structure, the structures ranked below it (those its members contain by value) and their members |
| Layouts.MemberSizeWithin | src/generator/resolve/structure.rs:39-68 | sizing a member changes only structures ranked below the bound and their members, so the members already placed keep their offsets |
| Layouts.FixedSize | src/generator/resolve/structure.rs:44-58 | the size of a member's type that needs no layout: 8 for a pointer, the primitive's size for a primitive terminal, always positive |
| Layouts.PrimitiveMember | src/generator/resolve/structure.rs:44-47 | a member typed by primitive `p` takes `PrimitiveSize(p)` bytes and changes nothing |
| Layouts.FixedMember | src/generator/resolve/structure.rs:42-61 | a member whose type has a `FixedSize` takes exactly that size and changes nothing |
| Layouts.FullyDefineSettled | src/generator/resolve/structure.rs:77-80 | layout leaves every structure that already had a size as it was and leaves the laid-out structure with the size it returns, so a second call returns at once and changes nothing |
| Layouts.PointerMember | src/generator/resolve/structure.rs:58 | a pointer-typed member takes 8 bytes and nothing below the pointer is looked at |
| Layouts.UnresolvedMember | src/generator/resolve/structure.rs:52 | a member whose terminal type is still an `Identifier` is fatal |
| Layouts.ReferencedSize | src/generator/resolve/structure.rs:22-37 | a referenced structure with a known size gives that size without change; a reference to anything but a structure is fatal |
| Layouts.QualifiedMemberFatal | src/generator/resolve/structure.rs:44-54 | a member declared `x: mut i32;` is fatal, because its first terminal child is the qualifier where the layout expects the type |
| Layouts.FullyDefineStructure | src/generator/resolve/structure.rs:70-113 | fails exactly when `FullyDefine` does; otherwise returns its size, leaves its arena, and puts the cursor back |
| Layouts.LayMembers | src/generator/resolve/structure.rs:81-103 | the loop ends with the size and alignment that, padded, give the `FullyDefine` result |
| Layouts.LayMember | src/generator/resolve/structure.rs:84-101 | one turn: the member gets `Place(size, ms)`, the size grows to that plus `ms`, the alignment becomes the larger of it and `ms`, and the cursor moves to the next member if there is one |
| Layouts.FindMemberSize | src/generator/resolve/structure.rs:39-68 | fails exactly when `MemberSize` does; otherwise returns its size and arena and puts the cursor back |
| Layouts.TerminalSizeM | src/generator/resolve/structure.rs:44-57 | fails exactly when `TerminalSize` does; otherwise returns its size and arena |
| Layouts.GetReferenceSize | src/generator/resolve/structure.rs:22-37 | fails exactly when `ReferenceSize` does; otherwise returns its size and arena, the cursor back on the reference |
| DatatypeInfos.Skip | src/generator/generate/datatype.rs:45-56 | the position of the first non-qualifier child from `j` on, every child before it a qualifier; fatal exactly when only qualifiers remain |
| DatatypeInfos.TerminalOf | src/generator/generate/datatype.rs:69-71 | the node a terminal datatype names is one of its children, earlier in the arena and not a qualifier; fatal exactly when all its children are qualifiers |
| DatatypeInfos.PrimitiveInfo | src/generator/generate/datatype.rs:72-84 | a primitive's size is the layout's size for it, and its register class is `Float` exactly for f32 and f64 and `Integer` otherwise |
| DatatypeInfos.PassLocationOf | src/generator/generate/datatype.rs:7-19 | succeeds exactly when the node has a datatype child whose info can be read, and then copies the given index with that datatype's size and register class |
| DatatypeInfos.MatchPointer | src/generator/generate/datatype.rs:194-205 | answers exactly when the other node is a datatype, and answers true exactly for a pointer |
| DatatypeInfos.CompatibleLaw | src/generator/generate/datatype.rs:253-284 | two datatypes match exactly when both are pointers, or both are terminals naming the same structure reference or the same primitive; a left terminal naming anything else matches nothing, and a left node that is not a datatype is fatal |
| DatatypeInfos.CompatibleSymmetric | src/generator/generate/datatype.rs:253-284 | the type comparison gives the same verdict with its two sides swapped |
| DatatypeInfos.CompatibleInfo | src/generator/generate/datatype.rs:64-109 | datatypes the comparison accepts have the same size and register class (also lines 253-284 of the same file) |
| DatatypeInfos.CompatibleReflexive | src/generator/generate/datatype.rs:253-284 | a pointer, or a terminal naming a reference or a primitive, matches itself |
| DatatypeInfos.TerminalSizeInfo | src/generator/generate/datatype.rs:64-99 | once the layout has sized a member's terminal datatype, `get_datatype_info` reads that same size off the laid-out arena |
| DatatypeInfos.TerminalInfoNamed | src/generator/generate/datatype.rs:69-99 | after the layout, the info of a terminal is the info of the node its type child names |
| DatatypeInfos.TerminalNamedSize | src/generator/generate/datatype.rs:85-95 | the node a laid-out terminal names carries the size the layout computed |
| DatatypeInfos.ReferenceSizeNamed | src/generator/generate/datatype.rs:86-95 | after the layout sizes a referenced structure, the structure node itself carries that size, which is the size a `Reference` reads |
| DatatypeInfos.SkipQualifiers | src/generator/generate/datatype.rs:45-56 | fails exactly when `Skip` does; otherwise the cursor rests on the first non-qualifier child, the arena unchanged |
| DatatypeInfos.GetDatatypeInfo | src/generator/generate/datatype.rs:64-109 | fails exactly when `DatatypeInfo` does; otherwise returns its value with the cursor and arena unchanged |
| DatatypeInfos.ReadNamed | src/generator/generate/datatype.rs:71-97 | fails exactly when `NamedInfo` does; otherwise returns its value with the cursor back where it started |
| DatatypeInfos.CreatePassLocation | src/generator/generate/datatype.rs:7-19 | fails exactly when `PassLocationOf` does; otherwise returns its value with the cursor back on the argument |
| DatatypeInfos.MatchDatatypePointer | src/generator/generate/datatype.rs:194-205 | fails exactly when `MatchPointer` does; otherwise returns its verdict with the cursor unchanged |
| DatatypeInfos.MatchDatatypeTerminal | src/generator/generate/datatype.rs:207-251 | fails exactly when `MatchTerminal` does; otherwise returns its verdict with the cursor unchanged |
| DatatypeInfos.MatchDatatypeReference | src/generator/generate/datatype.rs:207-228 | the verdict of `MatchTerminal` for the wanted `Reference(refI)` |
| DatatypeInfos.MatchDatatypePrimitive | src/generator/generate/datatype.rs:230-251 | the verdict of `MatchTerminal` for the wanted primitive |
| DatatypeInfos.ValidateDatatypes | src/generator/generate/datatype.rs:253-285 | the type part returns the `Compatible` verdict, and leaves the cursor as the code does: one `lhs` left pushed for a terminal, and one more entry on an early `false` |
| DatatypeInfos.MatchNamed | src/generator/generate/datatype.rs:266-280 | a named reference or primitive is looked for in `rhs`; any other named node gives `false` |
| CheckerWalks.SymbolOf | src/checker/symbol.rs:26-46 | the symbol recorded for a declaration carries the declaration's own index, and is a function symbol exactly for a function node |
| CheckerWalks.CheckForSymbolsLaw | src/checker/block.rs:18-30 | after the first loop each name finds the last child that declares it, recorded at the current depth, and every other name finds what it found before; no scope opens or closes, and a sound table stays sound (also src/checker/symbol.rs:20-53) |
| CheckerWalks.LinkOf | src/checker/node.rs:15-18 | linking an identifier changes only its child, never its construct or its next sibling |
| CheckerWalks.ResolveIdentifier | src/checker/node.rs:6-23 | fatal exactly on an identifier whose name the table does not find; otherwise reports whether the node was an identifier and links exactly that node |
| CheckerWalks.ResolveNode | src/checker/node.rs:25-40 | a successful walk changes only the children of identifiers |
| CheckerWalks.ResolveNodeLaw | src/checker/node.rs:6-40 | `resolve_node` is fatal exactly when an identifier it visits names nothing the table finds; otherwise each visited identifier is linked to what the table finds and nothing else changes |
| CheckerWalks.ResolveNodeFromLaw | src/checker/node.rs:29-39 | the child loop is fatal exactly when some identifier below the remaining children is unfound; otherwise it links every identifier below them |
| CheckerWalks.FindSound | src/checker/checker.rs:61-68 | what a table built from declarations finds for a name is a node declaring that name |
| CheckerWalks.DecreaseSound | src/checker/checker.rs:89-105 | closing a scope keeps every binding pointing at a declaration of its name |
| CheckerWalks.LinksSound | src/checker/node.rs:15-18 | linking against such a table links each identifier to a declaration of its own name |
| CheckerWalks.LeadingEnd | src/checker/function.rs:50-80 | the run of parameters ends at the first child that is not one, or at the end of the children |
| CheckerWalks.RegisterParamsLaw | src/checker/function.rs:7-41 | registering parameters keeps the table consistent and opens or closes no scope (also lines 50-80 of the same file) |
| CheckerWalks.RegisterParamsSound | src/checker/function.rs:7-41 | every argument is registered under the name it declares, so the table stays sound |
| CheckerWalks.BlockAt | src/checker/function.rs:83 | the block must sit right after the leading arguments and the returned values that follow them |
| CheckerWalks.ParamScopeValid | src/checker/function.rs:46-80 | the parameters go into one new scope opened on top of the caller's table |
| CheckerWalks.ParamScopeSound | src/checker/function.rs:46-80 | the parameter scope of a sound table is sound |
| CheckerWalks.ResolveFunction | src/checker/function.rs:43-91 | a successful resolution changes only identifier links |
| CheckerWalks.ResolveBlock | src/checker/block.rs:8-54 | fatal on any node that is not a program or a block; a successful resolution changes only identifier links |
| CheckerWalks.ResolveChild | src/checker/block.rs:39-47 | a successful step changes only identifier links |
| CheckerWalks.ResolveAst | src/checker/mod.rs:13-17 | a successful resolution of the whole arena changes only identifier links |
| CheckerWalks.ResolveFunctionLaw | src/checker/function.rs:43-91 | a successful `resolve_function` leaves the table exactly as it found it, however its parameters shadowed outer names; every identifier in its block is linked to a declaration of its name, every other node unchanged |
| CheckerWalks.ResolveBlockLaw | src/checker/block.rs:8-54 | a successful `resolve_block` opens and closes no scope and only adds to the table; every identifier below the block, except those in the parameter and return types of functions inside it, is linked to a declaration of its name |
| CheckerWalks.ResolveChildrenLaw | src/checker/block.rs:32-53 | the second loop keeps the table's scopes and links soundly every identifier below the remaining children, except those in the parameter and return types of functions among them |
| CheckerWalks.ResolveChildLaw | src/checker/block.rs:39-47 | one child, whether block, function or other node, is resolved soundly and the table keeps its scopes |
| CheckerWalks.RootLaw | src/checker/mod.rs:13-17 | the root block resolved from the empty table links soundly every identifier it visits |
| CheckerWalks.ResolveAstLaw | src/checker/mod.rs:13-17 | after a successful `resolve_ast` every identifier the walk visits (all except those in function parameter and return types) is linked to a node that declares its name, and every node it changes is such an identifier |
| CheckerWalks.CheckContentLaw | src/checker/content.rs:14-73 | fatal exactly on a node that is neither a program nor a block; otherwise the table it leaves is the one its first loop made |
| CheckerWalks.CheckChildrenLaw | src/checker/content.rs:50-72 | the third loop leaves the table as it found it |
| CheckerWalks.CheckBlockLaw | src/checker/content.rs:8-12 | `check_block` on a program or block leaves the table exactly as it found it, and is fatal on anything else |
| CheckerPasses.CheckForSymbol | src/checker/symbol.rs:20-53 | the table afterwards is the one the `CheckForSymbol` function gives |
| CheckerPasses.RegisterChildren | src/checker/block.rs:18-30 | the loop leaves the table `CheckForSymbols` gives for the node's children |
| CheckerPasses.ResolveIdentifier | src/checker/node.rs:6-23 | agrees with the `ResolveIdentifier` function on failure, verdict and arena |
| CheckerPasses.ResolveNode | src/checker/node.rs:25-40 | agrees with the `ResolveNode` function on failure and arena |
| CheckerPasses.ResolveBlock | src/checker/block.rs:8-54 | agrees with the `ResolveBlock` function on failure, arena and table |
| CheckerPasses.ResolveChild | src/checker/block.rs:39-47 | agrees with the `ResolveChild` function on failure, arena and table |
| CheckerPasses.CheckForArgument | src/checker/function.rs:7-23 | true exactly on an argument, which is then registered; otherwise the table is unchanged |
| CheckerPasses.CheckForReturned | src/checker/function.rs:25-41 | true exactly on a returned value, which is then registered; otherwise the table is unchanged |
| CheckerPasses.AddParams | src/checker/function.rs:50-80 | the loop stops at `LeadingEnd`, on that child, with exactly the parameters before it registered |
| CheckerPasses.OpenParamScope | src/checker/function.rs:46-80 | leaves the table `ParamScope` gives and the cursor on the child at `BlockAt` |
| CheckerPasses.ResolveFunction | src/checker/function.rs:43-91 | agrees with the `ResolveFunction` function on failure, arena and table |
| CheckerPasses.ResolveAst | src/checker/mod.rs:13-17 | agrees with the `ResolveAst` function, and on success every identifier the walk visits (all except those in function parameter and return types) is linked to a declaration of its name |
| CheckerPasses.CheckBlock | src/checker/content.rs:8-12 | agrees with the `CheckBlock` function on failure and table, the arena unchanged |
| CheckerPasses.CheckContent | src/checker/content.rs:14-73 | agrees with the `CheckContent` function on failure and table, the arena unchanged |
| MatchCommon.IdentifierRule | src/parser/match/common.rs:7-21 | keeps the tokens and the checkpoint stack; a match consumes at least one token and a miss leaves the token cursor where it was (what it builds: `MatchCommon.IdentifierLaw`) |
| MatchDatatype.QualifierRule | src/parser/match/datatype.rs:8-30 | keeps the tokens and the checkpoint stack; a match consumes at least one token and a miss leaves the token cursor where it was (what it builds: `MatchDatatype.QualifierLaw`) |
| MatchDatatype.PrimitiveRule | src/parser/match/datatype.rs:32-63 | keeps the tokens and the checkpoint stack; a match consumes at least one token and a miss leaves the token cursor where it was (what it builds: `MatchDatatype.PrimitiveLaw`) |
| MatchDatatype.TerminalRule | src/parser/match/datatype.rs:65-73 | keeps the tokens and the checkpoint stack; a match consumes at least one token and a miss leaves the token cursor where it was (what it builds: `MatchDatatype.TerminalLaw`) |
| MatchDatatype.DatatypeRule | src/parser/match/datatype.rs:77-107 | keeps the tokens and the checkpoint stack; a match consumes at least one token and a miss leaves the token cursor where it was (what it builds: `MatchDatatype.DatatypeLaw`) |
| MatchExpression.FunctionCallRule | src/parser/match/expression.rs:8-49 | keeps the tokens and the checkpoint stack; a match consumes at least one token and a miss leaves the token cursor where it was (what it builds: `MatchExpression.FunctionCallLaw`) |
| MatchExpression.ParenthesesRule | src/parser/match/expression.rs:51-66 | keeps the tokens and the checkpoint stack; a match consumes at least one token and a miss leaves the token cursor where it was (what it builds: `MatchExpression.ParenthesesLaw`) |
| MatchExpression.ConstantRule | src/parser/match/expression.rs:68-82 | keeps the tokens and the checkpoint stack; a match consumes at least one token and a miss leaves the token cursor where it was (what it builds: `MatchExpression.ConstantLaw`) |
| MatchExpression.ExpressionIdentifierRule | src/parser/match/expression.rs:84-95 | keeps the tokens and the checkpoint stack; a match consumes at least one token and a miss leaves the token cursor where it was (what it builds: `MatchExpression.ExpressionIdentifierLaw`) |
| MatchExpression.EnclosedRule | src/parser/match/expression.rs:98-116 | keeps the tokens and the checkpoint stack; a match consumes at least one token and a miss leaves the token cursor where it was (what it builds: `MatchExpression.EnclosedLaw`) |
| MatchExpression.ChainRule | src/parser/match/expression.rs:158-188 | keeps the tokens and the checkpoint stack; a match consumes at least one token and a miss leaves the token cursor where it was (what it builds: `MatchExpression.ChainLaw`) |
| MatchExpression.UnaryOpRule | src/parser/match/expression.rs:190-212 | keeps the tokens and the checkpoint stack; a match consumes at least one token and a miss leaves the token cursor where it was (what it builds: `MatchExpression.UnaryOpLaw`) |
| MatchExpression.ExpressionRule | src/parser/match/expression.rs:214-239 | keeps the tokens and the checkpoint stack; a match consumes at least one token and a miss leaves the token cursor where it was (what it builds: `MatchExpression.ExpressionLaw`) |
| MatchStatement.AssignRule | src/parser/match/statement.rs:9-44 | keeps the tokens and the checkpoint stack; a match consumes at least one token and a miss leaves the token cursor where it was (what it builds: `MatchStatement.AssignLaw`) |
| MatchStatement.ReturnRule | src/parser/match/statement.rs:46-82 | keeps the tokens and the checkpoint stack; a match consumes at least one token and a miss leaves the token cursor where it was (what it builds: `MatchStatement.ReturnLaw`) |
| MatchStatement.StatementRule | src/parser/match/statement.rs:84-92 | keeps the tokens and the checkpoint stack; a match consumes at least one token and a miss leaves the token cursor where it was (what it builds: `MatchStatement.StatementLaw`) |
| MatchStructure.MemberRule | src/parser/match/structure.rs:9-48 | keeps the tokens and the checkpoint stack; a match consumes at least one token and a miss leaves the token cursor where it was (what it builds: `MatchStructure.MemberLaw`) |
| MatchStructure.StructureRule | src/parser/match/structure.rs:50-112 | keeps the tokens and the checkpoint stack; a match consumes at least one token and a miss leaves the token cursor where it was (what it builds: `MatchStructure.StructureLaw`) |
| MatchSymbol.ArgumentRule | src/parser/match/function.rs:9-39 | keeps the tokens and the checkpoint stack; a match consumes at least one token and a miss leaves the token cursor where it was (what it builds: `MatchSymbol.ArgumentLaw`) |
| MatchSymbol.ReturnedRule | src/parser/match/function.rs:41-55 | keeps the tokens and the checkpoint stack; a match consumes at least one token and a miss leaves the token cursor where it was (what it builds: `MatchSymbol.ReturnedLaw`) |
| MatchSymbol.FunctionRule | src/parser/match/function.rs:57-169 | keeps the tokens and the checkpoint stack; a match consumes at least one token and a miss leaves the token cursor where it was (what it builds: `MatchSymbol.FunctionLaw`) |
| MatchSymbol.VariableRule | src/parser/match/symbol.rs:11-47 | keeps the tokens and the checkpoint stack; a match consumes at least one token and a miss leaves the token cursor where it was (what it builds: `MatchSymbol.VariableLaw`) |
| MatchSymbol.SymbolRule | src/parser/match/symbol.rs:49-60 | keeps the tokens and the checkpoint stack; a match consumes at least one token and a miss leaves the token cursor where it was (what it builds: `MatchSymbol.SymbolLaw`) |
| MatchSymbol.BlockRule | src/parser/match/block.rs:8-43 | keeps the tokens and the checkpoint stack; a match consumes at least one token and a miss leaves the token cursor where it was (what it builds: `MatchSymbol.BlockLaw`) |
| MatchExpression.BinaryOpRule | src/parser/match/expression.rs:118-156 | reads the operator without touching the staging list or the arena (its table: `Precedence.BinaryOpRead`) |
| MatchProgram.ProgramRule | src/parser/match/program.rs:7-20 | a program always matches, keeping the tokens and the checkpoint stack (what it builds: `MatchProgram.ProgramLaw`) |
| Resolve.ResolveTerminal | src/generator/resolve/content.rs:8-29 | rewrites constructs only within their kind and leaves every link as the parser made it (what it rewrites: `Resolve.ResolveTerminalLaw`) |
| Resolve.ResolveDatatype | src/generator/resolve/content.rs:31-52 | rewrites constructs only within their kind and leaves every link (what it rewrites: `Resolve.ResolveDatatypeLaw`) |
| Resolve.ResolveLeading | src/generator/resolve/content.rs:67-96 | rewrites constructs only within their kind and leaves every link (what it rewrites: `Resolve.ResolveLeadingLaw`) |
| Resolve.ResolveSymbol | src/generator/resolve/content.rs:98-105 | rewrites constructs only within their kind and leaves every link (what it rewrites: `Resolve.ResolveSymbolLaw`) |
| Resolve.ResolveScope | src/generator/resolve/content.rs:121-128 | rewrites constructs only within their kind and leaves every link (what it rewrites: `Resolve.ResolveScopeLaw`) |
| Resolve.Content | src/generator/resolve/content.rs:108-145 | leaves every link as the parser made it (the whole pass: `Resolve.ContentLaw`) |
| Resolve.LastDeclaring | src/generator/resolve/content.rs:56-65 | a declaration found for a name is one of the scope's children from `j` on and declares that name (also lines 113-119 of the same file) |
| Layouts.MemberSize | src/generator/resolve/structure.rs:39-68 | a member's size is positive, and the arena changes only in sizes and offsets |
| Layouts.TerminalSize | src/generator/resolve/structure.rs:44-57 | a terminal's size is positive, and the arena changes only in sizes and offsets |
| Layouts.ReferenceSize | src/generator/resolve/structure.rs:22-37 | a referenced structure's size is positive, and the arena changes only in sizes and offsets |
| Layouts.Offsets | src/generator/resolve/structure.rs:83-102 | one offset per member (their placement: `Layouts.OffsetsAligned`, `Layouts.OffsetsOrdered`) |
| Scopes.Empty | src/generator/generator.rs:64-66 | a new table is consistent and has no open scope |
| Scopes.EmptyFindsNothing | src/generator/generator.rs:64-66 | a new table finds no name (also lines 115-122 of the same file) |
| Checkers.Digit | src/checker/symbol.rs:13 | the digit character for a number below ten |
| Lexing.WordToken | src/lexer/lexer.rs:154-159 | a word is a keyword exactly when the keyword table knows it, and otherwise an identifier carrying the word |
| CheckerWalks.ResolveChildren | src/checker/block.rs:32-53 | a successful loop changes only identifier links |
| CheckerWalks.ResolveNodeFrom | src/checker/node.rs:29-39 | a successful loop changes only identifier links |
| MatchExpression.CallAsWrittenFails | src/parser/match/expression.rs:28-43 | the call rule as written is fatal with "Function missing closing )" on `f(x)` followed by anything but `)` |
| MatchExpression.OneTokenEnclosed | src/parser/match/expression.rs:98-116 | with room for two checkpoints and one child, the operand rule matches a constant or a name not followed by `(`, consuming exactly that token |
| MatchExpression.OneTokenNotCall | src/parser/match/expression.rs:8-49 | the call rule gives up on a one-token operand with the state restored |
| MatchExpression.ExpressionIdentifierNames | src/parser/match/expression.rs:84-95 | a matched name is one `Expression(Identifier)` node over its identifier leaf |
| Precedence.ConstantOperand | src/parser/match/expression.rs:68-82 | a constant is an operand of one token whose committed leaf spells the constant (also lines 98-116 of the same file) |
| Precedence.ChainConstant | src/parser/match/expression.rs:158-188 | a constant followed by no operator is the whole chain |
| Precedence.BinaryShows | src/parser/match/expression.rs:172-186 | the node a binary step confirms spells the operation over its two operand terms |
| Scopes.AddLinked | src/generator/generator.rs:124-136 | the new mapping links back to the binding it shadows |

## Left out

- Lexing.IsAlphabetic: letters are the ASCII letters only. The program uses Rust's Unicode `char::is_alphabetic`, whose table is not part of this model. Whitespace is the full Unicode `White_Space` set, as in the program.
- Lexing.Lexer.ReadNumber: a float literal keeps its text (`Float(text)`), because floating point is not modelled. An integer literal above the largest `i64` is `Fatal`, where the program's `parse::<i64>().unwrap()` panics. Lexing.NumberTokenOfScan states the same for the function.
- Parsing.Parser.constructor: the checkpoint and staging capacities are exactly the sizes passed in. `Vec::reserve` promises at least that much, so the program may allow more checkpoints before its "Reached max stack size" panic than the model does.
- Parsing.StartNodeWithPrevSpec: asking for more staged children than exist is `Fatal`, which is how the program's `usize` subtraction overflow check ends in a debug build; a release build would wrap around instead.
- Generators.Generator.constructor: requires a non-empty arena. The program pushes `ast.nodes.len() - 1`, which underflows on an empty arena.
- Resolve.CheckForSymbol: the generator's symbol payload is the declaring node's index alone. The extra `false` flag that `src/generator/resolve/content.rs:64` passes to `add_symbol` is not part of the tables' model; `src/generator/symbol.rs:30` passes none.
- CheckerPasses.CheckForReturned: a `Returned` node is registered under the empty name. In this generation of the parser `Returned` carries no name, so the `name_` that `src/checker/function.rs:29` binds has no counterpart.
- CheckerWalks.CheckContent: the calls to `resolve_symbol` and `check_function` in `src/checker/content.rs:40, 60` are modelled as changing nothing. Neither function is defined in the checker, and `src/checker/mod.rs` does not declare `mod content`. CheckerWalks.CheckContentLaw and CheckerWalks.CheckBlockLaw hold only because of this.
- CheckerPasses.CheckContent, CheckerPasses.CheckBlock: the same no-op passes as `CheckerWalks.CheckContent`.
- DatatypeInfos.ValidateDatatypes: only the type half of `validate_datatypes` is modelled. The mutability checks (`check_mutable`, `src/generator/generate/datatype.rs:171-192, 287-298`) are left out, and so is the cursor state they leave. The `ensures` describe the cursor as the type half leaves it.
- DatatypeInfos: `get_symbol_datatype`, `get_pointer_datatype`, `generate_argument_get` and `generate_return_set` belong to code generation, which is not part of this model.
- Resolve.ResolveDatatypeTerminal, Resolve.ResolveDatatypeM, Resolve.ResolveKidM, Resolve.ResolveLeadingM, Resolve.ResolveSymbolDatatypes, Resolve.ResolveKids, Resolve.LayoutKids, Resolve.CheckForSymbol, Resolve.RegisterKids: these require `Ready`, so the arena must be `Shaped`: every node that needs a child (a datatype, variable, argument, returned value, member, structure or function) has one. An empty `struct {}` therefore lies outside the model. So does a terminal datatype without a child, on which the program's `down()` fails and the following `up()` pops the terminal itself.
- Resolve.ResolveContent: requires the scope node to have a child and the resolved arena to carry an `Acyclic` rank (each structure ranked above the structures its members name). Without a rank, the layout of mutually nested structures does not terminate in the program (it recurses until the stack overflows), and the model cannot state it.
- Layouts.FullyDefine, Layouts.MemberSize, Layouts.TerminalSize, Layouts.ReferenceSize, Layouts.FullyDefineStructure, Layouts.FindMemberSize: take the same `Laying` precondition (`Shaped`, `Acyclic` and a relaid arena), for the same reason.
- CheckerWalks, CheckerPasses and DatatypeInfos members: they require the arena to be a `Tree` (checker) or `Shaped` (datatype information), as the resolver and layout members above do. The parser's arena is assumed to have that shape: no lemma connects the arena that `MatchProgram.ProgramRule` builds to `Shapes.Tree` or `Shapes.Shaped`.
- Layouts.FullyDefinePlaces, Layouts.TwoAlikeLaidOut: these also require `OwnKids`, that no node is a child of two nodes, which is likewise assumed of the parser's arena and not proved. Without it, laying out one structure could rewrite the offset of a member that another structure shares.
- MatchStatement.StatementRule, MatchStatement.AssignRule, MatchStatement.ReturnRule, MatchSymbol.BlockRule, MatchSymbol.FunctionRule, MatchSymbol.VariableRule, MatchSymbol.SymbolRule, MatchProgram.ProgramRule, MatchExpression.ExpressionRule, MatchExpression.EnclosedRule, MatchExpression.ChainRule, MatchExpression.UnaryOpRule, MatchExpression.ParenthesesRule, MatchExpression.FunctionCallRule: the grammar these rules call uses the corrected call rule, which peeks for `,` between arguments (see Findings). On such input the program as written panics with "Function missing closing )" (for example `x = f(y);`), while the model commits the call. `MatchExpression.FunctionCallAsWritten` models the rule as written.
- Parsing.Parser, Generators.Generator, Checkers.Checker methods: after a `Fatal` result they promise nothing about the object beyond what their `ensures` list, because the program panics there and the object is never used again.
- Lexer and parser input/output: reading the source file, printing tokens and the tree, and every `println!` are left out. The lexer takes its input as a string.
- The instruction generator, the register allocator and the assembly writer (`src/generator/generate/`, `src/generator/statement/`, `src/compiler/`) are not part of this model, apart from the datatype information above.
- The earlier generations of the grammar and resolver kept beside the current one (`src/checker/resolve.rs`, `src/generator/structure.rs`, `src/generator/program.rs`) are not part of this model.

## Findings

| source | as written | input that shows it | evidently intended | confidence | as-written member | corrected member |
|---|---|---|---|---|---|---|
| src/parser/match/expression.rs:28-43 | the argument loop consumes the token after each argument to test it for `,`; when it is not a comma, that token is lost and the next token is consumed expecting `)` | `f(x);` is fatal with "Function missing closing )", and `f(x))` parses as a call | peek for `,` before consuming, as the argument list of a function header does (`src/parser/match/function.rs:104-108`) | not executed | MatchExpression.FunctionCallAsWritten, MatchExpression.CallAsWrittenLosesParen | MatchExpression.FunctionCallRule, MatchExpression.OneArgumentCall |
