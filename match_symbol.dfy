/** Declarations and blocks: functions (with their arguments, returned types
    and body), variables, the choice between the three kinds of symbol, and
    blocks of statements and symbols. A block is the body of a function and
    may itself declare functions, so these rules call each other and live in
    one module. */
module MatchSymbol {
  import opened Outcomes
  import opened Tokens
  import opened Constructs
  import opened Trees
  import opened Parsing
  import opened MatchDatatype
  import opened MatchStatement
  import opened MatchStructure

  // ---------------------------------------------------------------- kinds of node

  predicate IsArgument(c: Construct) { c.Argument? }

  predicate IsReturned(c: Construct) { c.Returned? }

  /** What a symbol commits. */
  predicate IsSymbol(c: Construct) { c.Function? || c.Structure? || c.Variable? }

  /** What a block holds: statements and symbols. */
  predicate IsItem(c: Construct) { c.Statement? || IsSymbol(c) }

  // ---------------------------------------------------------------- rules: function parts

  /** `name : <datatype>` becomes `Argument(name)`. */
  function ArgumentRule(s: PState): (r: Result<Step>)
    ensures Moved(s, r)
  {
    var s1 :- StartNodeSpec(s);
    var (token, s2) :- ConsumeTokenSpec(s1);
    if !token.Identifier? then Reject(s2)
    else TypedTail(s2, Construct.Argument(token.name), false)
  }

  /** A datatype becomes `Returned` over it. */
  function ReturnedRule(s: PState): (r: Result<Step>)
    ensures Moved(s, r)
  {
    var s1 :- StartNodeSpec(s);
    var d :- DatatypeRule(s1);
    if !d.matched then Reject(d.state)
    else Accept(d.state, Construct.Returned)
  }

  /** `[argument {, argument}]`: a `,` must be followed by an argument. */
  function ArgumentList(x: PState): (r: Result<PState>)
    ensures r.Ok? ==> && r.value.tokens == x.tokens && r.value.stack == x.stack
                      && x.cur.tokenI <= r.value.cur.tokenI
                      && (x.cur.tokenI <= |x.tokens| ==> r.value.cur.tokenI <= |x.tokens|)
  {
    var a :- ArgumentRule(x);
    if !a.matched then Ok(a.state) else ArgumentLoop(a.state)
  }

  /** The arguments after the first: while the next token is `,`. */
  function ArgumentLoop(x: PState): (r: Result<PState>)
    ensures r.Ok? ==> && r.value.tokens == x.tokens && r.value.stack == x.stack
                      && x.cur.tokenI <= r.value.cur.tokenI
                      && (x.cur.tokenI <= |x.tokens| ==> r.value.cur.tokenI <= |x.tokens|)
    decreases |x.tokens| - x.cur.tokenI
  {
    var token :- PeekTokenSpec(x);
    if token != Comma then Ok(x)
    else
      var a :- ArgumentRule(Advance(x));
      if !a.matched then Fatal("Expected argument after comma")
      else ArgumentLoop(a.state)
  }

  /** `[-> returned | -> ( returned {, returned} )]`, whose pieces, once
      `-` is seen, are all required. The `>` arrives as `LessThan`. */
  function ReturnSpec(x: PState): (r: Result<PState>)
    ensures r.Ok? ==> && r.value.tokens == x.tokens && r.value.stack == x.stack
                      && x.cur.tokenI <= r.value.cur.tokenI
                      && (x.cur.tokenI <= |x.tokens| ==> r.value.cur.tokenI <= |x.tokens|)
  {
    var token :- PeekTokenSpec(x);
    if token != Minus then Ok(x)
    else ReturnArrow(Advance(x))
  }

  /** After `-`: `>`, then the returned types. */
  function ReturnArrow(x1: PState): (r: Result<PState>)
    ensures r.Ok? ==> && r.value.tokens == x1.tokens && r.value.stack == x1.stack
                      && x1.cur.tokenI < r.value.cur.tokenI <= |x1.tokens|
  {
    var (arrow, x2) :- ConsumeTokenSpec(x1);
    if arrow != LessThan then Fatal("Expected '>' after '-' to form ->")
    else ReturnTypes(x2)
  }

  /** After `->`: one returned type, else a parenthesised list of them. */
  function ReturnTypes(x2: PState): (r: Result<PState>)
    ensures r.Ok? ==> && r.value.tokens == x2.tokens && r.value.stack == x2.stack
                      && x2.cur.tokenI < r.value.cur.tokenI <= |x2.tokens|
  {
    var single :- ReturnedRule(x2);
    if single.matched then Ok(single.state)
    else ReturnList(single.state)
  }

  /** `( returned {, returned} )` after `->`. */
  function ReturnList(x: PState): (r: Result<PState>)
    ensures r.Ok? ==> && r.value.tokens == x.tokens && r.value.stack == x.stack
                      && x.cur.tokenI < r.value.cur.tokenI <= |x.tokens|
  {
    var (open, x1) :- ConsumeTokenSpec(x);
    if open != LParen then Fatal("Expected return type or '(' after function(...)->")
    else ReturnListItems(x1)
  }

  /** After `(`: at least one returned type, then more after commas. */
  function ReturnListItems(x1: PState): (r: Result<PState>)
    ensures r.Ok? ==> && r.value.tokens == x1.tokens && r.value.stack == x1.stack
                      && x1.cur.tokenI < r.value.cur.tokenI <= |x1.tokens|
  {
    var first :- ReturnedRule(x1);
    if !first.matched then Fatal("Expected return type in ->()")
    else
      var x2 :- ReturnedLoop(first.state);
      ReturnListClose(x2)
  }

  /** The `)` that ends the list. */
  function ReturnListClose(x2: PState): (r: Result<PState>)
    ensures r.Ok? ==> && r.value.tokens == x2.tokens && r.value.stack == x2.stack
                      && x2.cur.tokenI < r.value.cur.tokenI <= |x2.tokens|
  {
    var (close, x3) :- ConsumeTokenSpec(x2);
    if close != RParen then Fatal("Expected ) after return type list")
    else Ok(x3)
  }

  /** The returned types after the first: while the next token is `,`. */
  function ReturnedLoop(x: PState): (r: Result<PState>)
    ensures r.Ok? ==> && r.value.tokens == x.tokens && r.value.stack == x.stack
                      && x.cur.tokenI <= r.value.cur.tokenI
                      && (x.cur.tokenI <= |x.tokens| ==> r.value.cur.tokenI <= |x.tokens|)
    decreases |x.tokens| - x.cur.tokenI
  {
    var token :- PeekTokenSpec(x);
    if token != Comma then Ok(x)
    else
      var next :- ReturnedRule(Advance(x));
      if !next.matched then Fatal("Expected return type after ,")
      else ReturnedLoop(next.state)
  }

  /** `name : <datatype> ;` becomes `Variable(name)`. */
  function VariableRule(s: PState): (r: Result<Step>)
    ensures Moved(s, r)
  {
    var s1 :- StartNodeSpec(s);
    var (token, s2) :- ConsumeTokenSpec(s1);
    if !token.Identifier? then Reject(s2)
    else TypedTail(s2, Construct.Variable(token.name), true)
  }

  // ---------------------------------------------------------------- rules: function, symbol, block

  /** `name : function ( arguments ) [-> returns] block` becomes
      `Function(name)` over the arguments, the returned types and the block. */
  function FunctionRule(s: PState): (r: Result<Step>)
    ensures Moved(s, r)
    decreases |s.tokens| - s.cur.tokenI, 0
  {
    var s1 :- StartNodeSpec(s);
    var (token, s2) :- ConsumeTokenSpec(s1);
    if !token.Identifier? then Reject(s2)
    else FunctionHead(s2, token.name)
  }

  /** The function after its name: `:`. */
  function FunctionHead(s2: PState, name: string): (r: Result<Step>)
    requires |s2.stack| > 0
    ensures r.Ok? ==> && r.value.state.tokens == s2.tokens && r.value.state.stack == s2.stack[..|s2.stack| - 1]
                      && (r.value.matched ==> s2.cur.tokenI < r.value.state.cur.tokenI <= |s2.tokens|)
                      && (!r.value.matched ==> r.value.state.cur == Top(s2))
    decreases |s2.tokens| - s2.cur.tokenI, 4
  {
    var (colon, s3) :- ConsumeTokenSpec(s2);
    if colon != Colon then Reject(s3)
    else FunctionKeyword(s3, name)
  }

  /** The function after `:`: `function`. */
  function FunctionKeyword(s3: PState, name: string): (r: Result<Step>)
    requires |s3.stack| > 0
    ensures r.Ok? ==> && r.value.state.tokens == s3.tokens && r.value.state.stack == s3.stack[..|s3.stack| - 1]
                      && (r.value.matched ==> s3.cur.tokenI < r.value.state.cur.tokenI <= |s3.tokens|)
                      && (!r.value.matched ==> r.value.state.cur == Top(s3))
    decreases |s3.tokens| - s3.cur.tokenI, 4
  {
    var (keyword, s4) :- ConsumeTokenSpec(s3);
    if keyword != Token.Keyword(Keyword.Function) then Reject(s4)
    else FunctionOpen(s4, name)
  }

  /** The function after `function`: `(`. */
  function FunctionOpen(s4: PState, name: string): (r: Result<Step>)
    requires |s4.stack| > 0
    ensures r.Ok? ==> && r.value.state.tokens == s4.tokens && r.value.state.stack == s4.stack[..|s4.stack| - 1]
                      && (r.value.matched ==> s4.cur.tokenI < r.value.state.cur.tokenI <= |s4.tokens|)
                      && (!r.value.matched ==> r.value.state.cur == Top(s4))
    decreases |s4.tokens| - s4.cur.tokenI, 4
  {
    var (open, s5) :- ConsumeTokenSpec(s4);
    if open != LParen then Reject(s5)
    else FunctionArguments(s5, name)
  }

  /** The function after `(`: the arguments and `)`. */
  function FunctionArguments(s5: PState, name: string): (r: Result<Step>)
    requires |s5.stack| > 0
    ensures r.Ok? ==> && r.value.state.tokens == s5.tokens && r.value.state.stack == s5.stack[..|s5.stack| - 1]
                      && (r.value.matched ==> s5.cur.tokenI < r.value.state.cur.tokenI <= |s5.tokens|)
                      && (!r.value.matched ==> r.value.state.cur == Top(s5))
    decreases |s5.tokens| - s5.cur.tokenI, 3
  {
    var s6 :- ArgumentList(s5);
    var (close, s7) :- ConsumeTokenSpec(s6);
    if close != RParen then Reject(s7)
    else FunctionBody(s7, name)
  }

  /** The function after `)`: the returned types, then the block. */
  function FunctionBody(s7: PState, name: string): (r: Result<Step>)
    requires |s7.stack| > 0
    ensures r.Ok? ==> && r.value.state.tokens == s7.tokens && r.value.state.stack == s7.stack[..|s7.stack| - 1]
                      && (r.value.matched ==> s7.cur.tokenI < r.value.state.cur.tokenI <= |s7.tokens|)
                      && (!r.value.matched ==> r.value.state.cur == Top(s7))
    decreases |s7.tokens| - s7.cur.tokenI, 2
  {
    var s8 :- ReturnSpec(s7);
    var b :- BlockRule(s8);
    if !b.matched then Reject(b.state)
    else Accept(b.state, Construct.Function(name))
  }

  /** A function, else a structure, else a variable. */
  function SymbolRule(s: PState): (r: Result<Step>)
    ensures Moved(s, r)
    decreases |s.tokens| - s.cur.tokenI, 1
  {
    var f :- FunctionRule(s);
    if f.matched then Ok(f)
    else
      var st :- StructureRule(f.state);
      if st.matched then Ok(st)
      else VariableRule(st.state)
  }

  /** `{ {statement | symbol} }` becomes `Block` over the items. */
  function BlockRule(s: PState): (r: Result<Step>)
    ensures Moved(s, r)
    decreases |s.tokens| - s.cur.tokenI, 0
  {
    var s1 :- StartNodeSpec(s);
    var (open, s2) :- ConsumeTokenSpec(s1);
    if open != LCBracket then Reject(s2)
    else BlockBody(s2)
  }

  /** The block after `{`: the items, then `}`. */
  function BlockBody(s2: PState): (r: Result<Step>)
    requires |s2.stack| > 0
    ensures r.Ok? ==> && r.value.state.tokens == s2.tokens && r.value.state.stack == s2.stack[..|s2.stack| - 1]
                      && (r.value.matched ==> s2.cur.tokenI < r.value.state.cur.tokenI <= |s2.tokens|)
                      && (!r.value.matched ==> r.value.state.cur == Top(s2))
    decreases |s2.tokens| - s2.cur.tokenI, 3
  {
    var s3 :- BlockItems(s2);
    var (close, s4) :- ConsumeTokenSpec(s3);
    if close != RCBracket then Reject(s4)
    else Accept(s4, Construct.Block)
  }

  /** Statements and symbols, as many as match in a row; a statement is
      tried before a symbol. */
  function BlockItems(x: PState): (r: Result<PState>)
    ensures r.Ok? ==> && r.value.tokens == x.tokens && r.value.stack == x.stack
                      && x.cur.tokenI <= r.value.cur.tokenI
                      && (x.cur.tokenI <= |x.tokens| ==> r.value.cur.tokenI <= |x.tokens|)
    decreases |x.tokens| - x.cur.tokenI, 2
  {
    var st :- StatementRule(x);
    if st.matched then BlockItems(st.state)
    else
      var sy :- SymbolRule(st.state);
      if sy.matched then BlockItems(sy.state) else Ok(sy.state)
  }

  // ---------------------------------------------------------------- laws: arguments, returned types, variables

  /** An argument gives up with the cursor restored (exactly the state it
      started in when the first token is not a name), or matches
      `name : <datatype>` and commits `Argument(name)` over the type. */
  lemma ArgumentLaw(s: PState)
    requires Good(s)
    ensures var r := ArgumentRule(s);
            && Law(s, r)
            && (r.Ok? ==> s.cur.tokenI < |s.tokens|)
            && (r.Ok? && !s.tokens[s.cur.tokenI].Identifier? ==> r.value.state == s)
            && (r.Ok? && r.value.matched ==>
                  && s.tokens[s.cur.tokenI].Identifier? && TokenAt(s.tokens, s.cur.tokenI + 1, Colon)
                  && TypedNode(r.value.state, Construct.Argument(s.tokens[s.cur.tokenI].name)))
  {
    if StartNodeSpec(s).Ok? && s.cur.tokenI < |s.tokens| {
      var s2 := Advance(Pushed(s));
      GrewConsume(Pushed(s), Pushed(s));
      var token := s.tokens[s.cur.tokenI];
      if !token.Identifier? {
        assert ArgumentRule(s) == Reject(s2);
        DiscardAfterConsume(s);
      } else {
        assert ArgumentRule(s) == TypedTail(s2, Construct.Argument(token.name), false);
        TypedTailLaw(s, s2, Construct.Argument(token.name), false);
      }
    } else {
      assert ArgumentRule(s).Fatal?;
    }
  }

  /** A returned type gives up with the cursor restored, or commits
      `Returned` over one datatype node. */
  lemma ReturnedLaw(s: PState)
    requires Good(s)
    ensures var r := ReturnedRule(s);
            && Law(s, r)
            && (r.Ok? && r.value.matched ==> TypedNode(r.value.state, Construct.Returned))
  {
    if StartNodeSpec(s).Ok? {
      var s1 := Pushed(s);
      TypeStep(s1);
      var d := DatatypeRule(s1);
      if d.Ok? {
        if !d.value.matched {
          assert ReturnedRule(s) == Reject(d.value.state);
          RejectLaw(s, d.value.state);
        } else {
          assert ReturnedRule(s) == Accept(d.value.state, Construct.Returned);
          TypedAccept(s, s1, d.value.state, Construct.Returned);
        }
      }
    }
  }

  /** The argument list only stages argument nodes. */
  lemma {:induction false} ArgumentListLaw(x: PState)
    requires Good(x)
    ensures var r := ArgumentList(x);
            r.Ok? ==> Grew(x, r.value) && StagedWhere(x, r.value, IsArgument)
  {
    ArgumentLaw(x);
    var a := ArgumentRule(x);
    if a.Ok? && a.value.matched {
      ArgumentLoopLaw(a.value.state);
      var r := ArgumentLoop(a.value.state);
      if r.Ok? {
        GrewTrans(x, a.value.state, r.value);
        StagedThen(x, a.value.state, r.value, IsArgument);
      }
    }
  }

  lemma {:induction false} ArgumentLoopLaw(x: PState)
    requires Good(x)
    ensures var r := ArgumentLoop(x);
            r.Ok? ==> Grew(x, r.value) && StagedWhere(x, r.value, IsArgument)
    decreases |x.tokens| - x.cur.tokenI
  {
    if ArgumentLoop(x).Ok? && x.tokens[x.cur.tokenI] == Comma {
      ArgumentLoopNext(x);
      var m := ArgumentRule(Advance(x)).value.state;
      ArgumentLoopLaw(m);
      ArgumentLoopJoin(x, Advance(x), m, ArgumentLoop(m).value);
    }
  }

  /** Past a `,`, the argument the loop goes on from. */
  lemma ArgumentLoopNext(x: PState)
    requires Good(x) && ArgumentLoop(x).Ok? && x.tokens[x.cur.tokenI] == Comma
    ensures var x1 := Advance(x);
            var a := ArgumentRule(x1);
            && x.cur.tokenI < |x.tokens| && Grew(x, x1) && x1.children == x.children
            && a.Ok? && a.value.matched && Committed(x1, a.value.state) && IsArgument(Root(a.value.state).construct)
            && ArgumentLoop(x) == ArgumentLoop(a.value.state)
  {
    ArgumentLoopComma(x);
    GrewConsume(x, x);
    ArgumentLaw(Advance(x));
  }

  /** A `,`, a committed argument, and then the rest of the loop. */
  lemma ArgumentLoopJoin(x: PState, x1: PState, m: PState, r: PState)
    requires Grew(x, x1) && x1.children == x.children && Committed(x1, m) && IsArgument(Root(m).construct)
    requires Grew(m, r) && StagedWhere(m, r, IsArgument)
    ensures Grew(x, r) && StagedWhere(x, r, IsArgument)
  {
    GrewTrans(x1, m, r);
    StagedThen(x1, m, r, IsArgument);
    GrewTrans(x, x1, r);
  }

  /** Past a `,` the argument loop goes on only after a matched argument. */
  lemma ArgumentLoopComma(x: PState)
    requires Good(x) && ArgumentLoop(x).Ok? && x.tokens[x.cur.tokenI] == Comma
    ensures var a := ArgumentRule(Advance(x));
            && x.cur.tokenI < |x.tokens| && a.Ok? && a.value.matched && ArgumentLoop(x) == ArgumentLoop(a.value.state)
  {
  }

  /** The return specification only stages returned-type nodes. */
  lemma ReturnSpecLaw(x: PState)
    requires Good(x)
    ensures var r := ReturnSpec(x);
            r.Ok? ==> Grew(x, r.value) && StagedWhere(x, r.value, IsReturned)
  {
    if x.cur.tokenI < |x.tokens| && x.tokens[x.cur.tokenI] == Minus {
      GrewConsume(x, x);
      assert ReturnSpec(x) == ReturnArrow(Advance(x));
      ReturnArrowLaw(x, Advance(x));
    } else if x.cur.tokenI < |x.tokens| {
      assert ReturnSpec(x) == Ok(x);
    } else {
      assert ReturnSpec(x).Fatal?;
    }
  }

  lemma ReturnArrowLaw(x: PState, x1: PState)
    requires Grew(x, x1) && x1.children == x.children
    ensures var r := ReturnArrow(x1);
            r.Ok? ==> Grew(x, r.value) && StagedWhere(x, r.value, IsReturned)
  {
    if x1.cur.tokenI < |x1.tokens| && x1.tokens[x1.cur.tokenI] == LessThan {
      GrewConsume(x, x1);
      assert ReturnArrow(x1) == ReturnTypes(Advance(x1));
      ReturnTypesLaw(x, Advance(x1));
    } else if x1.cur.tokenI < |x1.tokens| {
      assert ReturnArrow(x1).Fatal?;
    } else {
      assert ReturnArrow(x1).Fatal?;
    }
  }

  lemma ReturnTypesLaw(x: PState, x2: PState)
    requires Grew(x, x2) && x2.children == x.children
    ensures var r := ReturnTypes(x2);
            r.Ok? ==> Grew(x, r.value) && StagedWhere(x, r.value, IsReturned)
  {
    ReturnedLaw(x2);
    var single := ReturnedRule(x2);
    if single.Ok? {
      var e := single.value.state;
      GrewTrans(x, x2, e);
      if single.value.matched {
        assert ReturnTypes(x2) == Ok(e);
        StagedThen(x2, e, e, IsReturned);
      } else {
        assert ReturnTypes(x2) == ReturnList(e);
        ReturnListLaw(e);
        var r := ReturnList(e);
        if r.Ok? {
          GrewTrans(x, e, r.value);
        }
      }
    }
  }

  lemma ReturnListLaw(x: PState)
    requires Good(x)
    ensures var r := ReturnList(x);
            r.Ok? ==> Grew(x, r.value) && StagedWhere(x, r.value, IsReturned)
  {
    if x.cur.tokenI < |x.tokens| && x.tokens[x.cur.tokenI] == LParen {
      GrewConsume(x, x);
      assert ReturnList(x) == ReturnListItems(Advance(x));
      ReturnListItemsLaw(x, Advance(x));
    } else if x.cur.tokenI < |x.tokens| {
      assert ReturnList(x).Fatal?;
    } else {
      assert ReturnList(x).Fatal?;
    }
  }

  lemma ReturnListItemsLaw(x: PState, x1: PState)
    requires Grew(x, x1) && x1.children == x.children
    ensures var r := ReturnListItems(x1);
            r.Ok? ==> Grew(x, r.value) && StagedWhere(x, r.value, IsReturned)
  {
    ReturnedLaw(x1);
    var first := ReturnedRule(x1);
    if first.Ok? && first.value.matched {
      var e := first.value.state;
      ReturnedLoopLaw(e);
      var x2 := ReturnedLoop(e);
      if x2.Ok? {
        assert ReturnListItems(x1) == ReturnListClose(x2.value);
        GrewTrans(x1, e, x2.value);
        StagedThen(x1, e, x2.value, IsReturned);
        GrewTrans(x, x1, x2.value);
        ReturnListCloseLaw(x, x2.value);
      }
    }
  }

  lemma ReturnListCloseLaw(x: PState, x2: PState)
    requires Grew(x, x2) && StagedWhere(x, x2, IsReturned)
    ensures var r := ReturnListClose(x2);
            r.Ok? ==> Grew(x, r.value) && StagedWhere(x, r.value, IsReturned)
  {
    if x2.cur.tokenI < |x2.tokens| && x2.tokens[x2.cur.tokenI] == RParen {
      GrewConsume(x, x2);
      assert ReturnListClose(x2) == Ok(Advance(x2));
    }
  }

  lemma {:induction false} ReturnedLoopLaw(x: PState)
    requires Good(x)
    ensures var r := ReturnedLoop(x);
            r.Ok? ==> Grew(x, r.value) && StagedWhere(x, r.value, IsReturned)
    decreases |x.tokens| - x.cur.tokenI
  {
    if x.cur.tokenI < |x.tokens| && x.tokens[x.cur.tokenI] == Comma {
      var x1 := Advance(x);
      GrewConsume(x, x);
      ReturnedLaw(x1);
      var next := ReturnedRule(x1);
      if next.Ok? && next.value.matched {
        ReturnedLoopLaw(next.value.state);
        var r := ReturnedLoop(next.value.state);
        if r.Ok? {
          GrewTrans(x1, next.value.state, r.value);
          StagedThen(x1, next.value.state, r.value, IsReturned);
          GrewTrans(x, x1, r.value);
        }
      }
    }
  }

  /** A variable gives up with the cursor restored (exactly the state it
      started in when the first token is not a name), or matches
      `name : <datatype> ;` and commits `Variable(name)` over the type. */
  lemma VariableLaw(s: PState)
    requires Good(s)
    ensures var r := VariableRule(s);
            && Law(s, r)
            && (r.Ok? ==> s.cur.tokenI < |s.tokens|)
            && (r.Ok? && !s.tokens[s.cur.tokenI].Identifier? ==> r.value.state == s)
            && (r.Ok? && r.value.matched ==>
                  && s.tokens[s.cur.tokenI].Identifier? && TokenAt(s.tokens, s.cur.tokenI + 1, Colon)
                  && TypedNode(r.value.state, Construct.Variable(s.tokens[s.cur.tokenI].name))
                  && LastConsumed(r.value.state, Semicolon))
  {
    if StartNodeSpec(s).Ok? && s.cur.tokenI < |s.tokens| {
      var s2 := Advance(Pushed(s));
      GrewConsume(Pushed(s), Pushed(s));
      var token := s.tokens[s.cur.tokenI];
      if !token.Identifier? {
        assert VariableRule(s) == Reject(s2);
        DiscardAfterConsume(s);
      } else {
        assert VariableRule(s) == TypedTail(s2, Construct.Variable(token.name), true);
        TypedTailLaw(s, s2, Construct.Variable(token.name), true);
      }
    } else {
      assert VariableRule(s).Fatal?;
    }
  }

  // ---------------------------------------------------------------- laws: functions, symbols, blocks

  /** The tokens from `i` are `function (`. */
  predicate FunctionKeywordAt(tokens: seq<Token>, i: nat) {
    TokenAt(tokens, i, Token.Keyword(Keyword.Function)) && TokenAt(tokens, i + 1, LParen)
  }

  /** The tokens from `i` open a function: a name, `:`, `function`, `(`. */
  predicate OpensFunction(tokens: seq<Token>, i: nat) {
    i < |tokens| && tokens[i].Identifier? && TokenAt(tokens, i + 1, Colon) && FunctionKeywordAt(tokens, i + 2)
  }

  /** The last committed node is `Function(name)` over `FunctionKids`. */
  predicate FunctionNode(u: PState, name: string) {
    && 0 < u.cur.nodeI <= |u.nodes|
    && Root(u).construct == Construct.Function(name)
    && FunctionKids(u.nodes, ChildrenOf(u.nodes, u.cur.nodeI - 1))
  }

  /** The children of a function node: argument nodes, then returned-type
      nodes, then exactly one block, last. */
  predicate FunctionKids(nodes: seq<Node>, kids: seq<nat>) {
    && 0 < |kids|
    && (forall j :: 0 <= j < |kids| ==> kids[j] < |nodes|)
    && nodes[kids[|kids| - 1]].construct == Construct.Block
    && (forall j :: 0 <= j < |kids| - 1 ==>
          IsArgument(nodes[kids[j]].construct) || IsReturned(nodes[kids[j]].construct))
    && (forall j :: 0 < j < |kids| - 1 && IsArgument(nodes[kids[j]].construct) ==>
          IsArgument(nodes[kids[j - 1]].construct))
  }

  /** A function node is committed and `}` was the last token consumed. */
  predicate FunctionDone(u: PState, name: string) {
    FunctionNode(u, name) && LastConsumed(u, RCBracket)
  }

  /** The last committed node is a `Block` over statements and symbols. */
  predicate BlockNode(u: PState) {
    && 0 < u.cur.nodeI <= |u.nodes|
    && Root(u).construct == Construct.Block
    && KidsWhere(u, IsItem)
  }

  /** A block node is committed and `}` was the last token consumed. */
  predicate BlockDone(u: PState) {
    BlockNode(u) && LastConsumed(u, RCBracket)
  }

  /** The staging entries `lo` to `hi` of `t` are written nodes that `ok` accepts. */
  predicate StagedSpan(t: PState, lo: nat, hi: nat, ok: Construct -> bool) {
    && lo <= hi <= |t.children|
    && forall k :: lo <= k < hi ==>
         t.children[k] < t.cur.nodeI && t.children[k] < |t.nodes| && ok(t.nodes[t.children[k]].construct)
  }

  /** What was staged from `x` to `r` stays so while the state grows on. */
  lemma StagedSpanKept(x: PState, r: PState, t: PState, ok: Construct -> bool)
    requires StagedWhere(x, r, ok) && Grew(r, t)
    ensures StagedSpan(t, |x.children|, |r.children|, ok)
  {
    forall k | |x.children| <= k < |r.children|
      ensures t.children[k] < t.cur.nodeI && t.children[k] < |t.nodes| && ok(t.nodes[t.children[k]].construct)
    {
      assert t.children[k] == r.children[k];
    }
  }

  /** Confirming `Function(name)` over the arguments staged from `s` to `s7`,
      the returned types staged from `s7` to `e` and the block committed from
      `e` to `t`, the block's `}` last. */
  lemma FunctionAccept(s: PState, s7: PState, e: PState, t: PState, name: string)
    requires Inside(s, s7) && StagedWhere(s, s7, IsArgument)
    requires Grew(s7, e) && StagedWhere(s7, e, IsReturned)
    requires Committed(e, t) && Root(t).construct == Construct.Block && LastConsumed(t, RCBracket)
    requires Inside(s, t) && s.cur.tokenI < t.cur.tokenI
    ensures var r := Accept(t, Construct.Function(name));
            && Law(s, r)
            && (r.Ok? ==> r.value.matched && FunctionDone(r.value.state, name))
  {
    AcceptLaw(s, t, Construct.Function(name));
    AcceptLast(t, Construct.Function(name), RCBracket);
    FunctionAcceptNode(s, s7, e, t, name);
  }

  /** The node of `FunctionAccept`, apart from its last token. */
  lemma FunctionAcceptNode(s: PState, s7: PState, e: PState, t: PState, name: string)
    requires Inside(s, s7) && StagedWhere(s, s7, IsArgument)
    requires Grew(s7, e) && StagedWhere(s7, e, IsReturned)
    requires Committed(e, t) && Root(t).construct == Construct.Block
    requires Inside(s, t) && s.cur.tokenI < t.cur.tokenI
    ensures var r := Accept(t, Construct.Function(name));
            r.Ok? ==> FunctionNode(r.value.state, name)
  {
    AcceptLaw(s, t, Construct.Function(name));
    var r := Accept(t, Construct.Function(name));
    if r.Ok? {
      FunctionSpans(s, s7, e, t);
      FunctionChildren(t, r.value.state, name, |s.children|, |s7.children|, |e.children|);
    }
  }

  /** The staging entries of `t` a function node takes: arguments from `s`
      to `s7`, returned types from `s7` to `e`, then the block last. */
  lemma FunctionSpans(s: PState, s7: PState, e: PState, t: PState)
    requires StagedWhere(s, s7, IsArgument)
    requires Grew(s7, e) && StagedWhere(s7, e, IsReturned)
    requires Committed(e, t)
    ensures StagedSpan(t, |s.children|, |s7.children|, IsArgument) && StagedSpan(t, |s7.children|, |e.children|, IsReturned)
    ensures |t.children| == |e.children| + 1 && t.children[|e.children|] == t.cur.nodeI - 1
  {
    GrewTrans(s7, e, t);
    StagedSpanKept(s, s7, t, IsArgument);
    StagedSpanKept(s7, e, t, IsReturned);
  }

  /** The function node confirmed over `t`'s staging entries from `lo`:
      arguments up to `a`, returned types up to `b`, then the block. */
  lemma FunctionChildren(t: PState, u: PState, name: string, lo: nat, a: nat, b: nat)
    requires lo <= a && StagedSpan(t, lo, a, IsArgument) && StagedSpan(t, a, b, IsReturned)
    requires |t.children| == b + 1 && t.cur.nodeI <= |t.nodes|
    requires 0 < t.cur.nodeI && t.children[b] == t.cur.nodeI - 1
    requires t.nodes[t.cur.nodeI - 1].construct == Construct.Block
    requires u.cur.nodeI == t.cur.nodeI + 1 && u.cur.nodeI <= |u.nodes|
    requires u.nodes[t.cur.nodeI].construct == Construct.Function(name)
    requires ChildrenOf(u.nodes, t.cur.nodeI) == t.children[lo..]
    requires forall m :: 0 <= m < t.cur.nodeI ==> u.nodes[m].construct == t.nodes[m].construct
    ensures FunctionNode(u, name)
  {
    var kids := ChildrenOf(u.nodes, t.cur.nodeI);
    forall j | 0 <= j < |kids|
      ensures kids[j] < t.cur.nodeI
      ensures j == |kids| - 1 ==> u.nodes[kids[j]].construct == Construct.Block
      ensures j < a - lo ==> IsArgument(u.nodes[kids[j]].construct)
      ensures a - lo <= j < b - lo ==> IsReturned(u.nodes[kids[j]].construct)
    {
      assert kids[j] == t.children[lo + j];
    }
    FunctionKidsSplit(u.nodes, kids, a - lo, b - lo);
  }

  /** Arguments, then returned types, then one block make function children. */
  lemma FunctionKidsSplit(nodes: seq<Node>, kids: seq<nat>, na: nat, nb: nat)
    requires na <= nb && |kids| == nb + 1
    requires forall j :: 0 <= j < |kids| ==> kids[j] < |nodes|
    requires nodes[kids[nb]].construct == Construct.Block
    requires forall j :: 0 <= j < na ==> IsArgument(nodes[kids[j]].construct)
    requires forall j :: na <= j < nb ==> IsReturned(nodes[kids[j]].construct)
    ensures FunctionKids(nodes, kids)
  {
  }

  /** A function gives up with the cursor restored, or matches
      `name : function ( arguments ) [-> returns] { ... }` and commits
      `Function(name)` over its arguments, returned types and block. */
  lemma {:induction false} FunctionLaw(s: PState)
    requires Good(s)
    ensures var r := FunctionRule(s);
            && Law(s, r)
            && (r.Ok? && r.value.matched ==>
                  && OpensFunction(s.tokens, s.cur.tokenI)
                  && FunctionDone(r.value.state, s.tokens[s.cur.tokenI].name))
    decreases |s.tokens| - s.cur.tokenI, 0
  {
    FunctionOpens(s);
    if FunctionRule(s).Ok? {
      assert StartNodeSpec(s).Ok? && s.cur.tokenI < |s.tokens|;
      var s2 := Advance(Pushed(s));
      GrewConsume(Pushed(s), Pushed(s));
      var token := s.tokens[s.cur.tokenI];
      if !token.Identifier? {
        assert FunctionRule(s) == Reject(s2);
        RejectLaw(s, s2);
      } else {
        assert FunctionRule(s) == FunctionHead(s2, token.name);
        FunctionHeadLaw(s, s2, token.name);
      }
    }
  }

  /** A function matches only from a name, `:`, `function` and `(`. */
  lemma FunctionOpens(s: PState)
    requires Good(s)
    ensures var r := FunctionRule(s);
            r.Ok? && r.value.matched ==> OpensFunction(s.tokens, s.cur.tokenI)
  {
    if StartNodeSpec(s).Ok? && s.cur.tokenI < |s.tokens| && s.tokens[s.cur.tokenI].Identifier? {
      var name := s.tokens[s.cur.tokenI].name;
      var s2 := Advance(Pushed(s));
      assert FunctionRule(s) == FunctionHead(s2, name);
      HeadOpens(s2, name);
    }
  }

  /** After `function`, a function matches only from `(`. */
  lemma OpenOpens(s4: PState, name: string)
    requires |s4.stack| > 0
    ensures var r := FunctionOpen(s4, name);
            r.Ok? && r.value.matched ==> TokenAt(s4.tokens, s4.cur.tokenI, LParen)
  {
    if s4.cur.tokenI < |s4.tokens| && s4.tokens[s4.cur.tokenI] != LParen {
      assert FunctionOpen(s4, name) == Reject(Advance(s4));
    }
  }

  /** After `:`, a function matches only from `function` and `(`. */
  lemma KeywordOpens(s3: PState, name: string)
    requires |s3.stack| > 0
    ensures var r := FunctionKeyword(s3, name);
            r.Ok? && r.value.matched ==> FunctionKeywordAt(s3.tokens, s3.cur.tokenI)
  {
    if s3.cur.tokenI < |s3.tokens| && s3.tokens[s3.cur.tokenI] == Token.Keyword(Keyword.Function) {
      var s4 := Advance(s3);
      assert FunctionKeyword(s3, name) == FunctionOpen(s4, name);
      OpenOpens(s4, name);
    } else if s3.cur.tokenI < |s3.tokens| {
      assert FunctionKeyword(s3, name) == Reject(Advance(s3));
    }
  }

  /** After the name, a function matches only from `:`, `function` and `(`. */
  lemma HeadOpens(s2: PState, name: string)
    requires |s2.stack| > 0
    ensures var r := FunctionHead(s2, name);
            r.Ok? && r.value.matched ==>
              TokenAt(s2.tokens, s2.cur.tokenI, Colon) && FunctionKeywordAt(s2.tokens, s2.cur.tokenI + 1)
  {
    if s2.cur.tokenI < |s2.tokens| && s2.tokens[s2.cur.tokenI] == Colon {
      var s3 := Advance(s2);
      assert s3.tokens == s2.tokens && s3.cur.tokenI == s2.cur.tokenI + 1;
      assert FunctionHead(s2, name) == FunctionKeyword(s3, name);
      KeywordOpens(s3, name);
    } else if s2.cur.tokenI < |s2.tokens| {
      assert FunctionHead(s2, name) == Reject(Advance(s2));
    }
  }

  /** The function after its name, from `s2` inside the rule started at `s`. */
  lemma {:induction false} FunctionHeadLaw(s: PState, s2: PState, name: string)
    requires Inside(s, s2) && Top(s2) == s.cur && s.cur.tokenI < s2.cur.tokenI && |s2.children| == |s.children|
    ensures var r := FunctionHead(s2, name);
            && Law(s, r)
            && (r.Ok? && r.value.matched ==> FunctionDone(r.value.state, name))
    decreases |s2.tokens| - s2.cur.tokenI, 4
  {
    if s2.cur.tokenI < |s2.tokens| {
      var s3 := Advance(s2);
      GrewConsume(Pushed(s), s2);
      if s2.tokens[s2.cur.tokenI] != Colon {
        assert FunctionHead(s2, name) == Reject(s3);
        RejectLaw(s, s3);
      } else {
        assert FunctionHead(s2, name) == FunctionKeyword(s3, name);
        FunctionKeywordLaw(s, s3, name);
      }
    } else {
      assert FunctionHead(s2, name).Fatal?;
    }
  }

  /** The function after `:`, from `s3` inside the rule started at `s`. */
  lemma {:induction false} FunctionKeywordLaw(s: PState, s3: PState, name: string)
    requires Inside(s, s3) && Top(s3) == s.cur && s.cur.tokenI < s3.cur.tokenI && |s3.children| == |s.children|
    ensures var r := FunctionKeyword(s3, name);
            && Law(s, r)
            && (r.Ok? && r.value.matched ==> FunctionDone(r.value.state, name))
    decreases |s3.tokens| - s3.cur.tokenI, 4
  {
    if s3.cur.tokenI < |s3.tokens| {
      var s4 := Advance(s3);
      GrewConsume(Pushed(s), s3);
      if s3.tokens[s3.cur.tokenI] != Token.Keyword(Keyword.Function) {
        assert FunctionKeyword(s3, name) == Reject(s4);
        RejectLaw(s, s4);
      } else {
        assert FunctionKeyword(s3, name) == FunctionOpen(s4, name);
        FunctionOpenLaw(s, s4, name);
      }
    } else {
      assert FunctionKeyword(s3, name).Fatal?;
    }
  }

  /** The function after `function`, from `s4` inside the rule started at `s`. */
  lemma {:induction false} FunctionOpenLaw(s: PState, s4: PState, name: string)
    requires Inside(s, s4) && Top(s4) == s.cur && s.cur.tokenI < s4.cur.tokenI && |s4.children| == |s.children|
    ensures var r := FunctionOpen(s4, name);
            && Law(s, r)
            && (r.Ok? && r.value.matched ==> FunctionDone(r.value.state, name))
    decreases |s4.tokens| - s4.cur.tokenI, 4
  {
    if s4.cur.tokenI < |s4.tokens| {
      var s5 := Advance(s4);
      GrewConsume(Pushed(s), s4);
      if s4.tokens[s4.cur.tokenI] != LParen {
        assert FunctionOpen(s4, name) == Reject(s5);
        RejectLaw(s, s5);
      } else {
        assert FunctionOpen(s4, name) == FunctionArguments(s5, name);
        FunctionArgumentsLaw(s, s5, name);
      }
    } else {
      assert FunctionOpen(s4, name).Fatal?;
    }
  }

  /** The function after `(`, from `s5` inside the rule started at `s`. */
  lemma {:induction false} FunctionArgumentsLaw(s: PState, s5: PState, name: string)
    requires Inside(s, s5) && Top(s5) == s.cur && s.cur.tokenI < s5.cur.tokenI && |s5.children| == |s.children|
    ensures var r := FunctionArguments(s5, name);
            && Law(s, r)
            && (r.Ok? && r.value.matched ==> FunctionDone(r.value.state, name))
    decreases |s5.tokens| - s5.cur.tokenI, 3
  {
    ArgumentListLaw(s5);
    var s6 := ArgumentList(s5);
    if s6.Ok? && s6.value.cur.tokenI < |s5.tokens| {
      FunctionCloseLaw(s, s5, s6.value, name);
    }
  }

  /** The token after the arguments, `t`, is `)` or the rule gives up. */
  lemma {:induction false} FunctionCloseLaw(s: PState, s5: PState, t: PState, name: string)
    requires Inside(s, s5) && Top(s5) == s.cur && s.cur.tokenI < s5.cur.tokenI && |s5.children| == |s.children|
    requires ArgumentList(s5) == Ok(t) && t.cur.tokenI < |s5.tokens| && Grew(s5, t) && StagedWhere(s5, t, IsArgument)
    ensures var r := FunctionArguments(s5, name);
            && Law(s, r)
            && (r.Ok? && r.value.matched ==> FunctionDone(r.value.state, name))
    decreases |s5.tokens| - s5.cur.tokenI, 2
  {
    GrewTrans(Pushed(s), s5, t);
    GrewConsume(Pushed(s), t);
    if s5.tokens[t.cur.tokenI] != RParen {
      assert FunctionArguments(s5, name) == Reject(Advance(t));
      RejectLaw(s, Advance(t));
    } else {
      assert FunctionArguments(s5, name) == FunctionBody(Advance(t), name);
      FunctionBodyLaw(s, Advance(t), name);
    }
  }

  /** The function after `)`, from `s7` inside the rule started at `s`, with
      only argument nodes staged so far. */
  lemma {:induction false} FunctionBodyLaw(s: PState, s7: PState, name: string)
    requires Inside(s, s7) && Top(s7) == s.cur && s.cur.tokenI < s7.cur.tokenI && StagedWhere(s, s7, IsArgument)
    ensures var r := FunctionBody(s7, name);
            && Law(s, r)
            && (r.Ok? && r.value.matched ==> FunctionDone(r.value.state, name))
    decreases |s7.tokens| - s7.cur.tokenI, 2
  {
    ReturnSpecLaw(s7);
    var s8 := ReturnSpec(s7);
    if s8.Ok? {
      var e := s8.value;
      BlockLaw(e);
      var b := BlockRule(e);
      if b.Ok? {
        var t := b.value.state;
        GrewTrans(s7, e, t);
        GrewTrans(Checkpointed(s, Top(s7)), s7, t);
        if !b.value.matched {
          assert FunctionBody(s7, name) == Reject(t);
          RejectLaw(s, t);
        } else {
          assert FunctionBody(s7, name) == Accept(t, Construct.Function(name));
          FunctionAccept(s, s7, e, t, name);
        }
      }
    }
  }

  /** A symbol is a function, else a structure, else a variable: it gives up
      with the cursor restored, or commits one node of one of those kinds. */
  lemma {:induction false} SymbolLaw(s: PState)
    requires Good(s)
    ensures var r := SymbolRule(s);
            && Law(s, r)
            && (r.Ok? && r.value.matched ==>
                  && 0 < r.value.state.cur.nodeI <= |r.value.state.nodes|
                  && IsSymbol(Root(r.value.state).construct))
    decreases |s.tokens| - s.cur.tokenI, 1
  {
    FunctionLaw(s);
    var f := FunctionRule(s);
    if f.Ok? {
      if f.value.matched {
        assert SymbolRule(s) == f;
      } else {
        var y := f.value.state;
        StructureLaw(y);
        var st := StructureRule(y);
        if st.Ok? {
          RestoredThen(s, y, st);
          if st.value.matched {
            assert SymbolRule(s) == st;
          } else {
            var z := st.value.state;
            GrewTrans(s, y, z);
            VariableLaw(z);
            RestoredThen(s, z, VariableRule(z));
            assert SymbolRule(s) == VariableRule(z);
          }
        }
      }
    }
  }

  /** A block gives up with the cursor restored, or matches `{ ... }` and
      commits `Block` over the statements and symbols inside. */
  lemma {:induction false} BlockLaw(s: PState)
    requires Good(s)
    ensures var r := BlockRule(s);
            && Law(s, r)
            && (r.Ok? && r.value.matched ==> TokenAt(s.tokens, s.cur.tokenI, LCBracket) && BlockDone(r.value.state))
    decreases |s.tokens| - s.cur.tokenI, 0
  {
    if StartNodeSpec(s).Ok? && s.cur.tokenI < |s.tokens| {
      var s2 := Advance(Pushed(s));
      GrewConsume(Pushed(s), Pushed(s));
      if s.tokens[s.cur.tokenI] != LCBracket {
        assert BlockRule(s) == Reject(s2);
        RejectLaw(s, s2);
      } else {
        assert BlockRule(s) == BlockBody(s2);
        BlockBodyLaw(s, s2);
      }
    } else {
      assert BlockRule(s).Fatal?;
    }
  }

  /** The block after `{`, from `s2` inside the rule started at `s`. */
  lemma {:induction false} BlockBodyLaw(s: PState, s2: PState)
    requires Inside(s, s2) && Top(s2) == s.cur && s.cur.tokenI < s2.cur.tokenI && |s2.children| == |s.children|
    ensures var r := BlockBody(s2);
            && Law(s, r)
            && (r.Ok? && r.value.matched ==> BlockDone(r.value.state))
    decreases |s2.tokens| - s2.cur.tokenI, 3
  {
    BlockItemsLaw(s2);
    var s3 := BlockItems(s2);
    if s3.Ok? && s3.value.cur.tokenI < |s2.tokens| {
      var t := s3.value;
      GrewTrans(Pushed(s), s2, t);
      GrewConsume(Pushed(s), t);
      if s2.tokens[t.cur.tokenI] != RCBracket {
        assert BlockBody(s2) == Reject(Advance(t));
        RejectLaw(s, Advance(t));
      } else {
        assert BlockBody(s2) == Accept(Advance(t), Construct.Block);
        BlockAccept(s, s2, t);
      }
    }
  }

  /** Confirming `Block` after `}` over the items staged from `s2` to `t`. */
  lemma BlockAccept(s: PState, s2: PState, t: PState)
    requires Inside(s, s2) && |s2.children| == |s.children| && Grew(s2, t) && StagedWhere(s2, t, IsItem)
    requires s.cur.tokenI < t.cur.tokenI < |t.tokens| && t.tokens[t.cur.tokenI] == RCBracket
    requires Inside(s, Advance(t))
    ensures var r := Accept(Advance(t), Construct.Block);
            r.Ok? ==> Committed(s, r.value.state) && BlockDone(r.value.state)
  {
    GrewConsume(s2, t);
    AcceptStaged(s, s2, Advance(t), Construct.Block, IsItem);
  }

  /** A matched statement is an item of a block. */
  lemma StatementItem(x: PState)
    requires Good(x)
    ensures var r := StatementRule(x);
            && Law(x, r)
            && (r.Ok? && r.value.matched ==>
                  0 < r.value.state.cur.nodeI <= |r.value.state.nodes| && IsItem(Root(r.value.state).construct))
  {
    StatementLaw(x);
  }

  /** The items of a block only stage statement and symbol nodes. */
  lemma {:induction false} BlockItemsLaw(x: PState)
    requires Good(x)
    ensures var r := BlockItems(x);
            r.Ok? ==> Grew(x, r.value) && StagedWhere(x, r.value, IsItem)
    decreases |x.tokens| - x.cur.tokenI, 2
  {
    StatementItem(x);
    var st := StatementRule(x);
    if st.Ok? {
      var y := st.value.state;
      if st.value.matched {
        assert BlockItems(x) == BlockItems(y);
        BlockItemsLaw(y);
        var r := BlockItems(y);
        if r.Ok? {
          GrewTrans(x, y, r.value);
          StagedThen(x, y, r.value, IsItem);
        }
      } else {
        SymbolLaw(y);
        var sy := SymbolRule(y);
        if sy.Ok? {
          RestoredThen(x, y, sy);
          var z := sy.value.state;
          if sy.value.matched {
            assert BlockItems(x) == BlockItems(z);
            BlockItemsLaw(z);
            var r := BlockItems(z);
            if r.Ok? {
              GrewTrans(x, z, r.value);
              StagedThen(x, z, r.value, IsItem);
            }
          } else {
            assert BlockItems(x) == Ok(z);
          }
        }
      }
    }
  }

  // ---------------------------------------------------------------- the parser methods

  method MatchArgument(p: Parser) returns (r: Result<bool>)
    modifies p, p.ast
    ensures Mirrors(r, ArgumentRule(old(p.Model())), p.Model())
  {
    ghost var s := p.Model();
    :- p.StartNode();
    var token :- p.ConsumeToken();
    if !token.Identifier? {
      var discarded := p.DiscardNode();
      assert discarded.Pass?;
      return Ok(false);
    }
    assert ArgumentRule(s) == TypedTail(p.Model(), Construct.Argument(token.name), false);
    var colon :- p.ConsumeToken();
    if colon != Colon {
      var discarded := p.DiscardNode();
      assert discarded.Pass?;
      return Ok(false);
    }
    var typed :- MatchDatatype.MatchDatatype(p);
    if !typed {
      var discarded := p.DiscardNode();
      assert discarded.Pass?;
      return Ok(false);
    }
    :- p.ConfirmNode(Construct.Argument(token.name));
    return Ok(true);
  }

  method MatchReturned(p: Parser) returns (r: Result<bool>)
    modifies p, p.ast
    ensures Mirrors(r, ReturnedRule(old(p.Model())), p.Model())
  {
    var started := p.StartNode();
    if started.Fail? {
      return Fatal(started.msg);
    }
    var typed :- MatchDatatype.MatchDatatype(p);
    if !typed {
      var discarded := p.DiscardNode();
      assert discarded.Pass?;
      return Ok(false);
    }
    :- p.ConfirmNode(Construct.Returned);
    return Ok(true);
  }

  method MatchVariable(p: Parser) returns (r: Result<bool>)
    modifies p, p.ast
    ensures Mirrors(r, VariableRule(old(p.Model())), p.Model())
  {
    ghost var s := p.Model();
    :- p.StartNode();
    var token :- p.ConsumeToken();
    if !token.Identifier? {
      var discarded := p.DiscardNode();
      assert discarded.Pass?;
      return Ok(false);
    }
    assert VariableRule(s) == TypedTail(p.Model(), Construct.Variable(token.name), true);
    var colon :- p.ConsumeToken();
    if colon != Colon {
      var discarded := p.DiscardNode();
      assert discarded.Pass?;
      return Ok(false);
    }
    var typed :- MatchDatatype.MatchDatatype(p);
    if !typed {
      var discarded := p.DiscardNode();
      assert discarded.Pass?;
      return Ok(false);
    }
    var semicolon :- p.ConsumeToken();
    if semicolon != Semicolon {
      var discarded := p.DiscardNode();
      assert discarded.Pass?;
      return Ok(false);
    }
    :- p.ConfirmNode(Construct.Variable(token.name));
    return Ok(true);
  }

  /** The argument list of a function, up to (not including) its `)`. */
  method MatchArguments(p: Parser) returns (o: Outcome)
    modifies p, p.ast
    ensures o.Pass? <==> ArgumentList(old(p.Model())).Ok?
    ensures o.Pass? ==> p.Model() == ArgumentList(old(p.Model())).value
  {
    ghost var s := p.Model();
    var first := MatchArgument(p);
    if first.Fatal? {
      return Fail(first.msg);
    }
    if first.value {
      ghost var x := p.Model();
      while true
        invariant p.tokens == s.tokens && p.stack == s.stack
        invariant s.cur.tokenI < p.cur.tokenI <= |p.tokens|
        invariant ArgumentLoop(p.Model()) == ArgumentLoop(x)
        decreases |p.tokens| - p.cur.tokenI
      {
        var comma := p.PeekToken();
        if comma.Fatal? {
          return Fail(comma.msg);
        }
        if comma.value != Comma {
          break;
        }
        var consumed := p.ConsumeToken();
        assert consumed.Ok?;
        var argument := MatchArgument(p);
        if argument.Fatal? {
          return Fail(argument.msg);
        }
        if !argument.value {
          return Fail("Expected argument after comma");
        }
      }
    }
    o := Pass;
  }

  /** The optional `-> ...` of a function. */
  method MatchReturns(p: Parser) returns (o: Outcome)
    modifies p, p.ast
    ensures o.Pass? <==> ReturnSpec(old(p.Model())).Ok?
    ensures o.Pass? ==> p.Model() == ReturnSpec(old(p.Model())).value
  {
    ghost var x := p.Model();
    var token := p.PeekToken();
    if token.Fatal? {
      return Fail(token.msg);
    }
    if token.value == Minus {
      var minus := p.ConsumeToken();
      assert minus.Ok?;
      ghost var x1 := p.Model();
      assert ReturnSpec(x) == ReturnArrow(x1);
      var arrow := p.ConsumeToken();
      if arrow.Fatal? {
        return Fail(arrow.msg);
      }
      if arrow.value != LessThan {
        return Fail("Expected '>' after '-' to form ->");
      }
      ghost var x2 := p.Model();
      assert ReturnArrow(x1) == ReturnTypes(x2);
      var single := MatchReturned(p);
      if single.Fatal? {
        return Fail(single.msg);
      }
      if !single.value {
        o := MatchReturnList(p);
        return;
      }
    }
    o := Pass;
  }

  /** `( returned {, returned} )` after `->`. */
  method MatchReturnList(p: Parser) returns (o: Outcome)
    modifies p, p.ast
    ensures o.Pass? <==> ReturnList(old(p.Model())).Ok?
    ensures o.Pass? ==> p.Model() == ReturnList(old(p.Model())).value
  {
    ghost var x := p.Model();
    var open := p.ConsumeToken();
    if open.Fatal? {
      return Fail(open.msg);
    }
    if open.value != LParen {
      return Fail("Expected return type or '(' after function(...)->");
    }
    ghost var x1 := p.Model();
    assert ReturnList(x) == ReturnListItems(x1);
    var first := MatchReturned(p);
    if first.Fatal? {
      return Fail(first.msg);
    }
    if !first.value {
      return Fail("Expected return type in ->()");
    }
    ghost var y := p.Model();
    while true
      invariant p.tokens == x.tokens && p.stack == x.stack
      invariant x.cur.tokenI < p.cur.tokenI <= |p.tokens|
      invariant ReturnedLoop(p.Model()) == ReturnedLoop(y)
      decreases |p.tokens| - p.cur.tokenI
    {
      var comma := p.PeekToken();
      if comma.Fatal? {
        return Fail(comma.msg);
      }
      if comma.value != Comma {
        break;
      }
      var consumed := p.ConsumeToken();
      assert consumed.Ok?;
      var next := MatchReturned(p);
      if next.Fatal? {
        return Fail(next.msg);
      }
      if !next.value {
        return Fail("Expected return type after ,");
      }
    }
    var close := p.ConsumeToken();
    assert close.Ok?;
    if close.value != RParen {
      return Fail("Expected ) after return type list");
    }
    o := Pass;
  }

  method MatchFunction(p: Parser) returns (r: Result<bool>)
    modifies p, p.ast
    ensures Mirrors(r, FunctionRule(old(p.Model())), p.Model())
    decreases |p.tokens| - p.cur.tokenI, 0
  {
    ghost var s := p.Model();
    :- p.StartNode();
    var token :- p.ConsumeToken();
    if !token.Identifier? {
      var discarded := p.DiscardNode();
      assert discarded.Pass?;
      return Ok(false);
    }
    ghost var s2 := p.Model();
    assert FunctionRule(s) == FunctionHead(s2, token.name);
    var colon :- p.ConsumeToken();
    if colon != Colon {
      var discarded := p.DiscardNode();
      assert discarded.Pass?;
      return Ok(false);
    }
    ghost var s3 := p.Model();
    assert FunctionHead(s2, token.name) == FunctionKeyword(s3, token.name);
    var keyword :- p.ConsumeToken();
    if keyword != Token.Keyword(Keyword.Function) {
      var discarded := p.DiscardNode();
      assert discarded.Pass?;
      return Ok(false);
    }
    assert FunctionKeyword(s3, token.name) == FunctionOpen(p.Model(), token.name);
    r := MatchFunctionOpen(p, token.name);
  }

  /** The function from its `(` on: arguments, `)`, returns and the body. */
  method MatchFunctionOpen(p: Parser, name: string) returns (r: Result<bool>)
    requires |p.Model().stack| > 0
    modifies p, p.ast
    ensures Mirrors(r, FunctionOpen(old(p.Model()), name), p.Model())
    decreases |p.tokens| - p.cur.tokenI, 1
  {
    ghost var s4 := p.Model();
    var open :- p.ConsumeToken();
    if open != LParen {
      var discarded := p.DiscardNode();
      assert discarded.Pass?;
      return Ok(false);
    }
    ghost var s5 := p.Model();
    assert FunctionOpen(s4, name) == FunctionArguments(s5, name);
    :- MatchArguments(p);
    var close :- p.ConsumeToken();
    if close != RParen {
      var discarded := p.DiscardNode();
      assert discarded.Pass?;
      return Ok(false);
    }
    ghost var s7 := p.Model();
    assert FunctionArguments(s5, name) == FunctionBody(s7, name);
    :- MatchReturns(p);
    var block :- MatchBlock(p);
    if !block {
      var discarded := p.DiscardNode();
      assert discarded.Pass?;
      return Ok(false);
    }
    :- p.ConfirmNode(Construct.Function(name));
    return Ok(true);
  }

  method MatchSymbol(p: Parser) returns (r: Result<bool>)
    modifies p, p.ast
    ensures Mirrors(r, SymbolRule(old(p.Model())), p.Model())
    decreases |p.tokens| - p.cur.tokenI, 1
  {
    var isFunction :- MatchFunction(p);
    if isFunction {
      return Ok(true);
    }
    var isStructure :- MatchStructure.MatchStructure(p);
    if isStructure {
      return Ok(true);
    }
    r := MatchVariable(p);
  }

  method MatchBlock(p: Parser) returns (r: Result<bool>)
    modifies p, p.ast
    ensures Mirrors(r, BlockRule(old(p.Model())), p.Model())
    decreases |p.tokens| - p.cur.tokenI, 0
  {
    ghost var s := p.Model();
    :- p.StartNode();
    var open :- p.ConsumeToken();
    if open != LCBracket {
      var discarded := p.DiscardNode();
      assert discarded.Pass?;
      return Ok(false);
    }
    ghost var s2 := p.Model();
    assert BlockRule(s) == BlockBody(s2);
    while true
      invariant p.tokens == s2.tokens && p.stack == s2.stack && s2.cur.tokenI <= p.cur.tokenI
      invariant BlockItems(p.Model()) == BlockItems(s2)
      decreases |p.tokens| - p.cur.tokenI
    {
      var statement :- MatchStatement.MatchStatement(p);
      if statement {
        continue;
      }
      var symbol :- MatchSymbol(p);
      if symbol {
        continue;
      }
      break;
    }
    var close :- p.ConsumeToken();
    if close != RCBracket {
      var discarded := p.DiscardNode();
      assert discarded.Pass?;
      return Ok(false);
    }
    :- p.ConfirmNode(Construct.Block);
    return Ok(true);
  }
}
