/** The expression grammar: unary operators, function calls, parentheses,
    constants and names, joined by binary operators by priority. A lower
    priority number binds tighter: `.` is 1, `&` (a reference) and `*` (a
    dereference) are 11, `*` and `/` are 51, `+` is 53. */
module MatchExpression {
  import opened Outcomes
  import opened Tokens
  import opened Constructs
  import opened Trees
  import opened Parsing
  import opened MatchCommon

  /** The unary operator a token introduces, with the priority of its operand. */
  function UnaryOf(t: Token): (r: Option<(UnaryOp, nat)>)
    ensures r.Some? <==> t == Minus || t == Exclamation || t == Ampersand || t == Asterisk
  {
    match t
    case Minus => Some((Negate, 52))
    case Exclamation => Some((LogicalNot, 41))
    case Ampersand => Some((Ref, 11))
    case Asterisk => Some((Deref, 11))
    case _ => None
  }

  /** The binary operator a single token spells, with its priority. */
  function SingleOp(t: Token): Option<(BinaryOp, nat)> {
    match t
    case Ampersand => Some((BitwiseAnd, 31))
    case VBar => Some((BitwiseOr, 32))
    case Plus => Some((Add, 53))
    case Minus => Some((Subtract, 52))
    case Asterisk => Some((Multiply, 51))
    case RSlash => Some((Divide, 51))
    case Period => Some((Access, 1))
    case _ => None
  }

  /** The binary operator a token spells when it is written twice. */
  function DoubledOp(t: Token): Option<(BinaryOp, nat)> {
    match t
    case Ampersand => Some((LogicalAnd, 42))
    case VBar => Some((LogicalOr, 43))
    case Equals => Some((LogicalEquals, 41))
    case _ => None
  }

  /** The binary operator at the cursor, with its priority, and the state
      after its one or two tokens. A single `=` is no operator, but its token
      (and a token after `&`, `|` or `=`) must exist. */
  function BinaryOpRule(s: PState): (r: Result<(Option<(BinaryOp, nat)>, PState)>)
    ensures r.Ok? ==> var t := r.value.1;
                      && t == s.(cur := s.cur.(tokenI := t.cur.tokenI))
                      && s.cur.tokenI < t.cur.tokenI <= |s.tokens|
  {
    var (token, s1) :- ConsumeTokenSpec(s);
    if DoubledOp(token).Some? then
      var next :- PeekTokenSpec(s1);
      if next == token then Ok((DoubledOp(token), Advance(s1)))
      else Ok((SingleOp(token), s1))
    else Ok((SingleOp(token), s1))
  }

  // ---------------------------------------------------------------- rules

  /** A call: a name, `(`, expressions separated by commas, `)`. */
  function FunctionCallRule(s: PState): (r: Result<Step>)
    ensures Moved(s, r)
    decreases |s.tokens| - s.cur.tokenI, 0
  {
    var s1 :- StartNodeSpec(s);
    var id :- IdentifierRule(s1);
    if !id.matched then Reject(id.state)
    else
      var (token, s2) :- ConsumeTokenSpec(id.state);
      if token != LParen then Reject(s2)
      else CallTail(s2)
  }

  /** The part of a call after `(`: the arguments, if any, and `)`. */
  function CallTail(s2: PState): (r: Result<Step>)
    ensures r.Ok? ==> && r.value.matched && r.value.state.tokens == s2.tokens
                      && |s2.stack| > 0 && r.value.state.stack == s2.stack[..|s2.stack| - 1]
                      && s2.cur.tokenI < r.value.state.cur.tokenI <= |s2.tokens|
    decreases |s2.tokens| - s2.cur.tokenI, 4
  {
    var s3 :- CallArguments(s2);
    var (closing, s4) :- ConsumeTokenSpec(s3);
    if closing != RParen then Fatal("Function missing closing )")
    else Accept(s4, Construct.Expression(ExpressionKind.Function))
  }

  /** The argument list: nothing, or expressions separated by commas. */
  function CallArguments(x: PState): (r: Result<PState>)
    ensures r.Ok? ==> && r.value.tokens == x.tokens && r.value.stack == x.stack
                      && x.cur.tokenI <= r.value.cur.tokenI
                      && (x.cur.tokenI <= |x.tokens| ==> r.value.cur.tokenI <= |x.tokens|)
    decreases |x.tokens| - x.cur.tokenI, 3
  {
    var first :- ExpressionRule(x);
    if first.matched then ArgumentsLoop(first.state) else Ok(first.state)
  }

  /** The arguments after the first: while the next token is a comma, the
      comma and one more expression. */
  function ArgumentsLoop(x: PState): (r: Result<PState>)
    ensures r.Ok? ==> && r.value.tokens == x.tokens && r.value.stack == x.stack
                      && x.cur.tokenI <= r.value.cur.tokenI
                      && (x.cur.tokenI <= |x.tokens| ==> r.value.cur.tokenI <= |x.tokens|)
    decreases |x.tokens| - x.cur.tokenI, 0
  {
    var token :- PeekTokenSpec(x);
    if token != Comma then Ok(x)
    else
      var x1 := ConsumeTokenSpec(x).value.1;
      var e :- ExpressionRule(x1);
      if !e.matched then Fatal("Expected expression after comma in function call")
      else ArgumentsLoop(e.state)
  }

  /** An expression in parentheses. It commits no node of its own: the inner
      expression's node stands for it. */
  function ParenthesesRule(s: PState): (r: Result<Step>)
    ensures Moved(s, r)
    decreases |s.tokens| - s.cur.tokenI, 0
  {
    var token :- PeekTokenSpec(s);
    if token != LParen then Ok(Step(false, s))
    else
      var s1 := ConsumeTokenSpec(s).value.1;
      var inner :- ExpressionRule(s1);
      if !inner.matched then Fatal("No expression within ()")
      else
        var (closing, s2) :- ConsumeTokenSpec(inner.state);
        if closing != RParen then Fatal("No closing )")
        else Ok(Step(true, s2))
  }

  /** A literal constant becomes an `Expression(Constant)` leaf. */
  function ConstantRule(s: PState): (r: Result<Step>)
    ensures Moved(s, r)
  {
    var s1 :- StartNodeSpec(s);
    var (token, s2) :- ConsumeTokenSpec(s1);
    if !token.Constant? then Reject(s2)
    else Accept(s2, Construct.Expression(ExpressionKind.Constant(token.constant)))
  }

  /** A name becomes an `Expression(Identifier)` node over its `Identifier` leaf. */
  function ExpressionIdentifierRule(s: PState): (r: Result<Step>)
    ensures Moved(s, r)
  {
    var s1 :- StartNodeSpec(s);
    var id :- IdentifierRule(s1);
    if !id.matched then Reject(id.state)
    else Accept(id.state, Construct.Expression(ExpressionKind.Identifier))
  }

  /** An operand: a unary operation, a call, parentheses, a constant or a
      name, tried in that order. */
  function EnclosedRule(s: PState): (r: Result<Step>)
    ensures Moved(s, r)
    decreases |s.tokens| - s.cur.tokenI, 1
  {
    var u :- UnaryOpRule(s);
    if u.matched then Ok(u)
    else
      var f :- FunctionCallRule(u.state);
      if f.matched then Ok(f)
      else
        var p :- ParenthesesRule(f.state);
        if p.matched then Ok(p)
        else
          var c :- ConstantRule(p.state);
          if c.matched then Ok(c)
          else ExpressionIdentifierRule(c.state)
  }

  /** An operand, optionally followed by one binary operation whose priority
      number is at most `priority`, taking the rest of the chain, at its own
      priority, as its right operand. Only a larger number ends the chain, so
      operators of one priority associate to the right. */
  function ChainRule(s: PState, priority: nat): (r: Result<Step>)
    ensures Moved(s, r)
    decreases |s.tokens| - s.cur.tokenI, 2
  {
    var e :- EnclosedRule(s);
    if !e.matched then Ok(e)
    else ChainTail(e.state, priority)
  }

  /** The chain after its first operand, staged in state `x`: at most one
      binary operation, whose right operand is a chain of its own priority. */
  function ChainTail(x: PState, priority: nat): (r: Result<Step>)
    ensures r.Ok? ==> && r.value.matched && r.value.state.tokens == x.tokens
                      && r.value.state.stack == x.stack
                      && x.cur.tokenI <= r.value.state.cur.tokenI
                      && (x.cur.tokenI <= |x.tokens| ==> r.value.state.cur.tokenI <= |x.tokens|)
    decreases |x.tokens| - x.cur.tokenI, 0
  {
    var b := StashStateSpec(x);
    var (op, b1) :- BinaryOpRule(b);
    if op.None? || op.value.1 > priority then Ok(Step(true, RollbackStateSpec(b1)))
    else
      var w :- StartNodeWithPrevSpec(b1, 1);
      var inner :- ChainRule(w, op.value.1);
      if !inner.matched then Fatal("Missing expression after binary operation")
      else Accept(inner.state, Construct.Expression(ExpressionKind.BinaryOp(op.value.0)))
  }

  /** `-`, `!`, `&` or `*`, then the chain of its operand priority. */
  function UnaryOpRule(s: PState): (r: Result<Step>)
    ensures Moved(s, r)
    decreases |s.tokens| - s.cur.tokenI, 0
  {
    var s1 :- StartNodeSpec(s);
    var (token, s2) :- ConsumeTokenSpec(s1);
    var unary := UnaryOf(token);
    if unary.None? then Reject(s2)
    else
      var inner :- ChainRule(s2, unary.value.1);
      if !inner.matched then Fatal("Expected expression after unary operation")
      else Accept(inner.state, Construct.Expression(ExpressionKind.UnaryOp(unary.value.0)))
  }

  /** A whole expression: an operand, then any number of binary operations,
      each taking a chain of its own priority as right operand and the
      expression so far as left operand. */
  function ExpressionRule(s: PState): (r: Result<Step>)
    ensures Moved(s, r)
    decreases |s.tokens| - s.cur.tokenI, 2
  {
    var e :- EnclosedRule(s);
    if !e.matched then Ok(e)
    else
      var x :- ExpressionLoop(e.state);
      Ok(Step(true, x))
  }

  /** The binary operations after the first operand of an expression. */
  function ExpressionLoop(x: PState): (r: Result<PState>)
    ensures r.Ok? ==> && r.value.tokens == x.tokens && r.value.stack == x.stack
                      && x.cur.tokenI <= r.value.cur.tokenI
                      && (x.cur.tokenI <= |x.tokens| ==> r.value.cur.tokenI <= |x.tokens|)
    decreases |x.tokens| - x.cur.tokenI, 0
  {
    var b := StashStateSpec(x);
    var (op, b1) :- BinaryOpRule(b);
    if op.None? then Ok(RollbackStateSpec(b1))
    else
      var w :- StartNodeWithPrevSpec(b1, 1);
      var inner :- ChainRule(w, op.value.1);
      if !inner.matched then Fatal("Missing expression after binary operator")
      else
        var c :- Accept(inner.state, Construct.Expression(ExpressionKind.BinaryOp(op.value.0)));
        ExpressionLoop(c.state)
  }

  // ---------------------------------------------------------------- laws

  /** The tokens an operand can start with. */
  predicate IsOperandStart(t: Token) {
    UnaryOf(t).Some? || t.Identifier? || t == LParen || t.Constant?
  }

  /** Node `i` is an expression node with the children its kind calls for:
      one operand for a unary operation, two for a binary one, none for a
      constant, the `Identifier` leaf for a name, and for a call the
      function's name followed by the argument expressions. */
  predicate ExprNode(nodes: seq<Node>, i: nat)
    requires i < |nodes|
  {
    var kids := ChildrenOf(nodes, i);
    && nodes[i].construct.Expression?
    && (forall j :: 0 <= j < |kids| ==> kids[j] < |nodes|)
    && match nodes[i].construct.expression
       case UnaryOp(_) => |kids| == 1 && nodes[kids[0]].construct.Expression?
       case BinaryOp(_) => |kids| == 2 && nodes[kids[0]].construct.Expression? && nodes[kids[1]].construct.Expression?
       case Constant(_) => kids == []
       case Identifier => |kids| == 1 && nodes[kids[0]].construct.Identifier?
       case Function => && |kids| >= 1 && nodes[kids[0]].construct.Identifier?
                        && forall j :: 1 <= j < |kids| ==> nodes[kids[j]].construct.Expression?
  }

  /** The node a matched expression rule committed is a well-formed
      expression node. */
  predicate ExprRoot(u: PState) {
    0 < u.cur.nodeI <= |u.nodes| && ExprNode(u.nodes, u.cur.nodeI - 1)
  }

  /** Every node staged from `x` to `r` is an expression node. */
  predicate ExprsStaged(x: PState, r: PState) {
    && |x.children| <= |r.children|
    && forall k :: |x.children| <= k < |r.children| ==>
         r.children[k] < |r.nodes| && r.nodes[r.children[k]].construct.Expression?
  }

  /** The rule law, and a matched node is an expression node. */
  predicate ExprLaw(s: PState, r: Result<Step>) {
    Law(s, r) && (r.Ok? && r.value.matched ==> ExprRoot(r.value.state))
  }

  /** The rule matched exactly when the first token can start an operand. */
  predicate Opens(s: PState, r: Result<Step>) {
    r.Ok? ==> s.cur.tokenI < |s.tokens| && (r.value.matched <==> IsOperandStart(s.tokens[s.cur.tokenI]))
  }

  /** The constant rule matches exactly a constant token, committing one
      `Expression(Constant)` leaf that carries it; on any other token the
      state is exactly as before. */
  lemma ConstantLaw(s: PState)
    requires Good(s)
    ensures var r := ConstantRule(s);
            && Law(s, r)
            && (r.Ok? <==> |s.stack| < s.maxStack && s.cur.tokenI < |s.tokens|
                           && (s.tokens[s.cur.tokenI].Constant? ==> |s.children| < s.maxChildren))
            && (r.Ok? ==> (r.value.matched <==> s.tokens[s.cur.tokenI].Constant?))
            && (r.Ok? && r.value.matched ==>
                  && r.value.state.cur.tokenI == s.cur.tokenI + 1
                  && Root(r.value.state) ==
                     Node(Construct.Expression(ExpressionKind.Constant(s.tokens[s.cur.tokenI].constant)), None, None)
                  && ExprRoot(r.value.state))
            && (r.Ok? && !r.value.matched ==> r.value.state == s)
  {
    if |s.stack| < s.maxStack && s.cur.tokenI < |s.tokens| {
      var token := s.tokens[s.cur.tokenI];
      if token.Constant? {
        LeafLaw(s, Construct.Expression(ExpressionKind.Constant(token.constant)));
      } else {
        DiscardAfterConsume(s);
      }
    }
  }

  /** The name rule matches exactly an identifier token, committing an
      `Expression(Identifier)` node whose one child is the `Identifier` leaf;
      on any other token the state is exactly as before. */
  lemma ExpressionIdentifierLaw(s: PState)
    requires Good(s)
    ensures var r := ExpressionIdentifierRule(s);
            && Law(s, r)
            && (r.Ok? ==> s.cur.tokenI < |s.tokens| && (r.value.matched <==> s.tokens[s.cur.tokenI].Identifier?))
            && (r.Ok? && r.value.matched ==>
                  && r.value.state.cur.tokenI == s.cur.tokenI + 1
                  && NamedOperand(r.value.state, s.tokens[s.cur.tokenI].name)
                  && ExprRoot(r.value.state))
            && (r.Ok? && !r.value.matched ==> r.value.state == s)
  {
    ExpressionIdentifierCommits(s);
    ExpressionIdentifierNames(s);
  }

  /** The name rule obeys the rule law and matches exactly an identifier. */
  lemma ExpressionIdentifierCommits(s: PState)
    requires Good(s)
    ensures var r := ExpressionIdentifierRule(s);
            && Law(s, r)
            && (r.Ok? ==> s.cur.tokenI < |s.tokens| && (r.value.matched <==> s.tokens[s.cur.tokenI].Identifier?))
            && (r.Ok? && !r.value.matched ==> r.value.state == s)
  {
    if StartNodeSpec(s).Ok? {
      var s1 := Pushed(s);
      IdentifierLaw(s1);
      var id := IdentifierRule(s1);
      if id.Ok? {
        if id.value.matched {
          AcceptLaw(s, id.value.state, Construct.Expression(ExpressionKind.Identifier));
        } else {
          DiscardUndoesStart(s);
        }
      }
    }
  }

  /** A matched name is one `Expression(Identifier)` node over its leaf. */
  lemma ExpressionIdentifierNames(s: PState)
    requires Good(s)
    ensures var r := ExpressionIdentifierRule(s);
            r.Ok? && r.value.matched ==>
              && r.value.state.cur.tokenI == s.cur.tokenI + 1
              && NamedOperand(r.value.state, s.tokens[s.cur.tokenI].name)
              && ExprRoot(r.value.state)
  {
    if StartNodeSpec(s).Ok? {
      var s1 := Pushed(s);
      IdentifierLaw(s1);
      var id := IdentifierRule(s1);
      if id.Ok? && id.value.matched {
        AcceptLaw(s, id.value.state, Construct.Expression(ExpressionKind.Identifier));
        var r := ExpressionIdentifierRule(s);
        if r.Ok? {
          NamedIsExpr(r.value.state, s.tokens[s.cur.tokenI].name);
        }
      }
    }
  }

  lemma NamedIsExpr(u: PState, name: string)
    requires NamedOperand(u, name)
    ensures ExprRoot(u)
  {
  }

  /** The last committed node is `Expression(Identifier)` over one
      `Identifier(name)` leaf, committed just before it. */
  predicate NamedOperand(u: PState, name: string) {
    && 1 < u.cur.nodeI <= |u.nodes|
    && Root(u).construct == Construct.Expression(ExpressionKind.Identifier)
    && ChildrenOf(u.nodes, u.cur.nodeI - 1) == [u.cur.nodeI - 2]
    && u.nodes[u.cur.nodeI - 2].construct == Construct.Identifier(name)
  }

  /** The unary rule matches exactly `-`, `!`, `&` and `*`; the node is the
      matching `UnaryOp` (an operator without an operand is fatal). */
  lemma {:induction false} UnaryOpLaw(s: PState)
    requires Good(s)
    ensures var r := UnaryOpRule(s);
            && ExprLaw(s, r)
            && (r.Ok? ==> s.cur.tokenI < |s.tokens| && (r.value.matched <==> UnaryOf(s.tokens[s.cur.tokenI]).Some?))
            && (r.Ok? && !r.value.matched ==> r.value.state == s)
            && (r.Ok? && r.value.matched ==>
                  Root(r.value.state).construct ==
                  Construct.Expression(ExpressionKind.UnaryOp(UnaryOf(s.tokens[s.cur.tokenI]).value.0)))
    decreases |s.tokens| - s.cur.tokenI, 1
  {
    if |s.stack| < s.maxStack && s.cur.tokenI < |s.tokens| {
      var token := s.tokens[s.cur.tokenI];
      var s2 := Advance(Pushed(s));
      if UnaryOf(token).None? {
        DiscardAfterConsume(s);
      } else {
        UnaryOperand(s);
      }
    }
  }

  /** The unary rule on an operator token commits the operation's node. */
  lemma {:induction false} UnaryOperand(s: PState)
    requires Good(s) && |s.stack| < s.maxStack && s.cur.tokenI < |s.tokens|
    requires UnaryOf(s.tokens[s.cur.tokenI]).Some?
    ensures var r := UnaryOpRule(s);
            r.Ok? ==> && r.value.matched && Committed(s, r.value.state) && ExprRoot(r.value.state)
                      && Root(r.value.state).construct ==
                         Construct.Expression(ExpressionKind.UnaryOp(UnaryOf(s.tokens[s.cur.tokenI]).value.0))
    decreases |s.tokens| - s.cur.tokenI, 0
  {
    if UnaryOpRule(s).Ok? {
      var unary := UnaryOf(s.tokens[s.cur.tokenI]).value;
      var s2 := Advance(Pushed(s));
      UnaryOperandSteps(s);
      ChainLaw(s2, unary.1);
      var inner := ChainRule(s2, unary.1);
      GrewConsume(Pushed(s), Pushed(s));
      GrewTrans(Pushed(s), s2, inner.value.state);
      OperatorAccept(s, s2, inner.value.state, Construct.Expression(ExpressionKind.UnaryOp(unary.0)));
    }
  }

  /** A unary rule that succeeds on an operator has matched its operand and
      confirmed the operation over it. */
  lemma UnaryOperandSteps(s: PState)
    requires Good(s) && |s.stack| < s.maxStack && s.cur.tokenI < |s.tokens|
    requires UnaryOf(s.tokens[s.cur.tokenI]).Some? && UnaryOpRule(s).Ok?
    ensures var unary := UnaryOf(s.tokens[s.cur.tokenI]).value;
            var inner := ChainRule(Advance(Pushed(s)), unary.1);
            && inner.Ok? && inner.value.matched
            && UnaryOpRule(s) == Accept(inner.value.state, Construct.Expression(ExpressionKind.UnaryOp(unary.0)))
  {
  }

  /** The call rule matches exactly a name followed by `(`; the node is
      `Expression(Function)`. */
  lemma {:induction false} FunctionCallLaw(s: PState)
    requires Good(s)
    ensures var r := FunctionCallRule(s);
            && ExprLaw(s, r)
            && (r.Ok? ==> s.cur.tokenI < |s.tokens|
                          && (r.value.matched <==> s.tokens[s.cur.tokenI].Identifier? && s.cur.tokenI + 1 < |s.tokens|
                                                   && s.tokens[s.cur.tokenI + 1] == LParen))
            && (r.Ok? && r.value.matched ==>
                  Root(r.value.state).construct == Construct.Expression(ExpressionKind.Function))
    decreases |s.tokens| - s.cur.tokenI, 1
  {
    if StartNodeSpec(s).Ok? {
      var s1 := Pushed(s);
      IdentifierLaw(s1);
      var id := IdentifierRule(s1);
      if id.Ok? {
        if !id.value.matched {
          DiscardUndoesStart(s);
        } else {
          CallAfterName(s, id.value.state);
        }
      }
    }
  }

  /** The call rule once the name matched, reaching state `m`. */
  lemma {:induction false} CallAfterName(s: PState, m: PState)
    requires Good(s) && |s.stack| < s.maxStack
    requires IdentifierRule(Pushed(s)) == Ok(Step(true, m)) && Committed(Pushed(s), m)
    requires s.cur.tokenI < |s.tokens| && s.tokens[s.cur.tokenI].Identifier? && m.cur.tokenI == s.cur.tokenI + 1
    ensures var r := FunctionCallRule(s);
            && ExprLaw(s, r)
            && (r.Ok? ==> s.cur.tokenI + 1 < |s.tokens| && (r.value.matched <==> s.tokens[s.cur.tokenI + 1] == LParen))
            && (r.Ok? && r.value.matched ==>
                  Root(r.value.state).construct == Construct.Expression(ExpressionKind.Function))
    decreases |s.tokens| - s.cur.tokenI, 0
  {
    if m.cur.tokenI < |s.tokens| {
      var s2 := Advance(m);
      GrewConsume(Pushed(s), m);
      if s.tokens[m.cur.tokenI] != LParen {
        RejectLaw(s, s2);
      } else {
        assert FunctionCallRule(s) == CallTail(s2);
        CallTailLaw(s, s2);
      }
    }
  }

  /** The part of the call rule after `(`, from state `s2`, commits the
      `Expression(Function)` node. */
  lemma {:induction false} CallTailLaw(s: PState, s2: PState)
    requires Inside(s, s2) && Top(s2) == s.cur && s.cur.tokenI < s2.cur.tokenI
    requires |s2.children| == |s.children| + 1 && s2.nodes[s2.children[|s.children|]].construct.Identifier?
    ensures var r := CallTail(s2);
            r.Ok? ==> && Committed(s, r.value.state) && ExprRoot(r.value.state)
                      && Root(r.value.state).construct == Construct.Expression(ExpressionKind.Function)
    decreases |s2.tokens| - s2.cur.tokenI, 6
  {
    CallArgumentsLaw(s2);
    var s3 := CallArguments(s2);
    if s3.Ok? && s3.value.cur.tokenI < |s.tokens| {
      var c := Construct.Expression(ExpressionKind.Function);
      var t := Advance(s3.value);
      GrewTrans(Pushed(s), s2, s3.value);
      GrewConsume(Pushed(s), s3.value);
      AcceptLaw(s, t, c);
      if Accept(t, c).Ok? {
        CallShape(s, s2, s3.value, Accept(t, c).value.state);
      }
    }
  }

  /** The call node's children: the name leaf staged before `s2`, then the
      argument expressions staged from `s2` to `s3`. */
  lemma CallShape(s: PState, s2: PState, s3: PState, u: PState)
    requires Good(s) && Grew(s2, s3) && ExprsStaged(s2, s3)
    requires |s2.children| == |s.children| + 1 && s2.nodes[s2.children[|s.children|]].construct.Identifier?
    requires s3.cur.nodeI < u.cur.nodeI <= |u.nodes|
    requires Root(u).construct == Construct.Expression(ExpressionKind.Function)
    requires ChildrenOf(u.nodes, s3.cur.nodeI) == s3.children[|s.children|..]
    requires u.cur.nodeI == s3.cur.nodeI + 1
    requires forall m :: 0 <= m < s3.cur.nodeI ==> u.nodes[m].construct == s3.nodes[m].construct
    ensures ExprRoot(u)
  {
    var kids := ChildrenOf(u.nodes, s3.cur.nodeI);
    assert kids[0] == s2.children[|s.children|];
    forall j | 1 <= j < |kids|
      ensures kids[j] < s3.cur.nodeI && u.nodes[kids[j]].construct.Expression?
    {
      assert kids[j] == s3.children[|s.children| + j];
    }
  }

  /** Confirming an operation node whose operands are the expression nodes
      staged since `s`: the left one (binary only) staged before `m`, the right
      one committed by the operand rule that ran from `m` to `t`. */
  lemma OperatorAccept(s: PState, m: PState, t: PState, c: Construct)
    requires Inside(s, m) && Committed(m, t) && s.cur.tokenI < t.cur.tokenI && Inside(s, t)
    requires c.Expression? && (c.expression.UnaryOp? || c.expression.BinaryOp?)
    requires |m.children| - |s.children| == (if c.expression.UnaryOp? then 0 else 1)
    requires forall k :: |s.children| <= k < |m.children| ==> m.nodes[m.children[k]].construct.Expression?
    requires ExprRoot(t)
    ensures var r := Accept(t, c);
            r.Ok? ==> Committed(s, r.value.state) && ExprRoot(r.value.state) && Root(r.value.state).construct == c
  {
    AcceptLaw(s, t, c);
    if Accept(t, c).Ok? {
      AcceptKids(s, m, t, c);
      var u := Accept(t, c).value.state;
      var kids := ChildrenOf(u.nodes, u.cur.nodeI - 1);
      assert forall j :: 0 <= j < |kids| ==> u.nodes[kids[j]].construct.Expression?;
    }
  }

  /** The argument list only stages nodes, each an expression node. */
  lemma {:induction false} CallArgumentsLaw(x: PState)
    requires Good(x)
    ensures var r := CallArguments(x);
            r.Ok? ==> Grew(x, r.value) && ExprsStaged(x, r.value)
    decreases |x.tokens| - x.cur.tokenI, 5
  {
    ExpressionLaw(x);
    var first := ExpressionRule(x);
    if first.Ok? && first.value.matched {
      var f := first.value.state;
      ArgumentsLoopLaw(f);
      if ArgumentsLoop(f).Ok? {
        GrewTrans(x, f, ArgumentsLoop(f).value);
        StagedThen(x, f, ArgumentsLoop(f).value);
      }
    }
  }

  /** One more staged expression node, then any number more. */
  lemma StagedThen(x: PState, e: PState, r: PState)
    requires Committed(x, e) && ExprRoot(e) && Grew(e, r) && ExprsStaged(e, r)
    ensures ExprsStaged(x, r)
  {
    forall k | |x.children| <= k < |r.children|
      ensures r.children[k] < |r.nodes| && r.nodes[r.children[k]].construct.Expression?
    {
      if k == |x.children| {
        assert r.children[k] == e.children[k] == e.cur.nodeI - 1;
      }
    }
  }

  /** The argument loop only stages nodes, each an expression node. */
  lemma {:induction false} ArgumentsLoopLaw(x: PState)
    requires Good(x)
    ensures var r := ArgumentsLoop(x);
            r.Ok? ==> Grew(x, r.value) && ExprsStaged(x, r.value)
    decreases |x.tokens| - x.cur.tokenI, 0
  {
    if x.cur.tokenI < |x.tokens| && x.tokens[x.cur.tokenI] == Comma {
      var x1 := Advance(x);
      GrewConsume(x, x);
      ExpressionLaw(x1);
      var e := ExpressionRule(x1);
      if e.Ok? && e.value.matched {
        GrewTrans(x, x1, e.value.state);
        ArgumentsLoopLaw(e.value.state);
        var r := ArgumentsLoop(e.value.state);
        if r.Ok? {
          GrewTrans(x, e.value.state, r.value);
          StagedThen(x, e.value.state, r.value);
        }
      }
    }
  }

  /** Parentheses match exactly on `(`; the committed node is the inner
      expression's own. */
  lemma {:induction false} ParenthesesLaw(s: PState)
    requires Good(s)
    ensures var r := ParenthesesRule(s);
            && ExprLaw(s, r)
            && (r.Ok? ==> s.cur.tokenI < |s.tokens| && (r.value.matched <==> s.tokens[s.cur.tokenI] == LParen))
            && (r.Ok? && !r.value.matched ==> r.value.state == s)
            && (r.Ok? && r.value.matched ==>
                  && ExpressionRule(Advance(s)).Ok?
                  && r.value.state.nodes == ExpressionRule(Advance(s)).value.state.nodes
                  && r.value.state.cur.nodeI == ExpressionRule(Advance(s)).value.state.cur.nodeI)
    decreases |s.tokens| - s.cur.tokenI, 0
  {
    if s.cur.tokenI < |s.tokens| && s.tokens[s.cur.tokenI] == LParen {
      GrewConsume(s, s);
      ExpressionLaw(Advance(s));
      ParenthesesInner(s);
    }
  }

  /** The parenthesised case, once the inner expression is known to keep
      its law. */
  lemma ParenthesesInner(s: PState)
    requires Good(s) && s.cur.tokenI < |s.tokens| && s.tokens[s.cur.tokenI] == LParen
    requires Grew(s, Advance(s)) && ExprLaw(Advance(s), ExpressionRule(Advance(s)))
    ensures var r := ParenthesesRule(s);
            && ExprLaw(s, r)
            && (r.Ok? ==> r.value.matched)
            && (r.Ok? ==>
                  && ExpressionRule(Advance(s)).Ok?
                  && r.value.state.nodes == ExpressionRule(Advance(s)).value.state.nodes
                  && r.value.state.cur.nodeI == ExpressionRule(Advance(s)).value.state.cur.nodeI)
  {
    var s1 := Advance(s);
    var inner := ExpressionRule(s1);
    if inner.Ok? && inner.value.matched && inner.value.state.cur.tokenI < |s.tokens|
       && s.tokens[inner.value.state.cur.tokenI] == RParen {
      var t := inner.value.state;
      assert ParenthesesRule(s) == Ok(Step(true, Advance(t)));
      ParenthesesClose(s, s1, t);
    } else {
      assert ParenthesesRule(s).Fatal?;
    }
  }

  /** `(`, a committed expression, `)`: committed as that expression. */
  lemma ParenthesesClose(s: PState, s1: PState, t: PState)
    requires Grew(s, s1) && s1.children == s.children && Committed(s1, t) && ExprRoot(t) && t.cur.tokenI < |t.tokens|
    ensures ExprLaw(s, Ok(Step(true, Advance(t))))
  {
    GrewTrans(s, s1, t);
    CommittedConsume(s, t);
  }

  /** An operand starts with a unary operator, a name, `(` or a constant;
      the node is the unary operation, the call (a name then `(`), the name,
      or the constant. */
  lemma {:induction false} EnclosedLaw(s: PState)
    requires Good(s)
    ensures var r := EnclosedRule(s);
            && ExprLaw(s, r)
            && Opens(s, r)
            && (r.Ok? && r.value.matched ==> OperandRoot(s.tokens, s.cur.tokenI, Root(r.value.state).construct))
    decreases |s.tokens| - s.cur.tokenI, 3
  {
    UnaryOpLaw(s);
    var u := UnaryOpRule(s);
    if u.Ok? && u.value.matched {
      EnclosedByUnary(s);
    } else if u.Ok? {
      assert u.value.state == s;
      EnclosedAfterUnary(s);
    }
  }

  /** A matched unary operation is the operand. */
  lemma EnclosedByUnary(s: PState)
    requires UnaryOpRule(s).Ok? && UnaryOpRule(s).value.matched
    ensures EnclosedRule(s) == UnaryOpRule(s)
  {
  }

  /** The operand rule once the unary rule did not match. */
  lemma {:induction false} EnclosedAfterUnary(s: PState)
    requires Good(s) && UnaryOpRule(s) == Ok(Step(false, s)) && s.cur.tokenI < |s.tokens|
    requires UnaryOf(s.tokens[s.cur.tokenI]).None?
    ensures var r := EnclosedRule(s);
            && ExprLaw(s, r)
            && Opens(s, r)
            && (r.Ok? && r.value.matched ==> OperandRoot(s.tokens, s.cur.tokenI, Root(r.value.state).construct))
    decreases |s.tokens| - s.cur.tokenI, 2
  {
    FunctionCallLaw(s);
    var f := FunctionCallRule(s);
    if f.Ok? && f.value.matched {
      assert EnclosedRule(s) == f;
    } else if f.Ok? {
      EnclosedRest(s, f.value.state);
    }
  }

  /** The operand rule once the unary and call rules did not match, leaving
      state `t`. */
  lemma {:induction false} EnclosedRest(s: PState, t: PState)
    requires Good(s) && Restored(s, t) && s.cur.tokenI < |s.tokens|
    requires UnaryOpRule(s) == Ok(Step(false, s)) && FunctionCallRule(s) == Ok(Step(false, t))
    requires UnaryOf(s.tokens[s.cur.tokenI]).None?
    requires !(s.tokens[s.cur.tokenI].Identifier? && s.cur.tokenI + 1 < |s.tokens| && s.tokens[s.cur.tokenI + 1] == LParen)
    ensures var r := EnclosedRule(s);
            && ExprLaw(s, r)
            && Opens(s, r)
            && (r.Ok? && r.value.matched ==> OperandRoot(s.tokens, s.cur.tokenI, Root(r.value.state).construct))
    decreases |s.tokens| - s.cur.tokenI, 1
  {
    ParenthesesLaw(t);
    RestoredThen(s, t, ParenthesesRule(t));
    var p := ParenthesesRule(t);
    if p.Ok? && !p.value.matched {
      assert p.value.state == t;
      ConstantLaw(t);
      RestoredThen(s, t, ConstantRule(t));
      var c := ConstantRule(t);
      if c.Ok? && !c.value.matched {
        assert c.value.state == t;
        ExpressionIdentifierLaw(t);
        RestoredThen(s, t, ExpressionIdentifierRule(t));
      }
    }
  }

  /** What node an operand starting at `i` commits. */
  predicate OperandRoot(tokens: seq<Token>, i: nat, c: Construct)
    requires i < |tokens|
  {
    var h := tokens[i];
    && (UnaryOf(h).Some? ==> c == Construct.Expression(ExpressionKind.UnaryOp(UnaryOf(h).value.0)))
    && (h.Constant? ==> c == Construct.Expression(ExpressionKind.Constant(h.constant)))
    && (h.Identifier? ==>
          c == Construct.Expression(if i + 1 < |tokens| && tokens[i + 1] == LParen then ExpressionKind.Function
                                    else ExpressionKind.Identifier))
  }

  /** The binary-operation step shared by the chain and the expression loop:
      after operand state `x`, the operator and the right operand `w`..`t`
      are confirmed into one node. */
  lemma {:induction false} BinaryStep(s: PState, x: PState, b1: PState, w: PState, t: PState, op: BinaryOp)
    requires Good(s) && Committed(s, x)
    requires b1 == StashStateSpec(x).(cur := x.cur.(tokenI := b1.cur.tokenI)) && x.cur.tokenI < b1.cur.tokenI <= |x.tokens|
    requires StartNodeWithPrevSpec(b1, 1) == Ok(w) && Committed(w, t)
    requires ExprRoot(x) && ExprRoot(t)
    ensures var r := Accept(t, Construct.Expression(ExpressionKind.BinaryOp(op)));
            r.Ok? ==> Committed(s, r.value.state) && ExprRoot(r.value.state)
  {
    var top := Top(w);
    var c := Construct.Expression(ExpressionKind.BinaryOp(op));
    assert Grew(Checkpointed(s, top), w);
    GrewTrans(Checkpointed(s, top), w, t);
    assert w.children[|s.children|] == x.cur.nodeI - 1;
    OperatorAccept(s, w, t, c);
  }

  /** A chain matches exactly when an operand starts; its node is an
      expression node. */
  lemma {:induction false} ChainLaw(s: PState, priority: nat)
    requires Good(s)
    ensures var r := ChainRule(s, priority);
            ExprLaw(s, r) && Opens(s, r)
    decreases |s.tokens| - s.cur.tokenI, 4
  {
    EnclosedLaw(s);
    var e := EnclosedRule(s);
    if e.Ok? && e.value.matched {
      ChainTailLaw(s, e.value.state, priority);
    }
  }

  /** The chain after its first operand, committed in state `x`. */
  lemma {:induction false} ChainTailLaw(s: PState, x: PState, priority: nat)
    requires Good(s) && Committed(s, x) && ExprRoot(x)
    ensures var r := ChainTail(x, priority);
            r.Ok? ==> Committed(s, r.value.state) && ExprRoot(r.value.state)
    decreases |x.tokens| - x.cur.tokenI, 0
  {
    var b := StashStateSpec(x);
    var opr := BinaryOpRule(b);
    if opr.Ok? {
      var (op, b1) := opr.value;
      if op.None? || op.value.1 > priority {
        assert RollbackStateSpec(b1) == x.(stashed := x.cur);
        CommittedStashed(s, x, x.cur);
      } else if StartNodeWithPrevSpec(b1, 1).Ok? {
        var w := StartNodeWithPrevSpec(b1, 1).value;
        ChainLaw(w, op.value.1);
        var inner := ChainRule(w, op.value.1);
        if inner.Ok? && inner.value.matched {
          BinaryStep(s, x, b1, w, inner.value.state, op.value.0);
        }
      }
    }
  }

  /** An expression matches exactly when an operand starts; its node is an
      expression node. */
  lemma {:induction false} ExpressionLaw(s: PState)
    requires Good(s)
    ensures var r := ExpressionRule(s);
            ExprLaw(s, r) && Opens(s, r)
    decreases |s.tokens| - s.cur.tokenI, 4
  {
    EnclosedLaw(s);
    var e := EnclosedRule(s);
    if e.Ok? && e.value.matched {
      ExpressionLoopLaw(s, e.value.state);
    }
  }

  /** Each round of the expression loop replaces the staged left operand by
      the binary node over it. */
  lemma {:induction false} ExpressionLoopLaw(s: PState, x: PState)
    requires Good(s) && Committed(s, x) && ExprRoot(x)
    ensures var r := ExpressionLoop(x);
            r.Ok? ==> Committed(s, r.value) && ExprRoot(r.value)
    decreases |x.tokens| - x.cur.tokenI, 0
  {
    var b := StashStateSpec(x);
    var opr := BinaryOpRule(b);
    if opr.Ok? {
      var (op, b1) := opr.value;
      if op.None? {
        assert RollbackStateSpec(b1) == x.(stashed := x.cur);
        CommittedStashed(s, x, x.cur);
      } else if StartNodeWithPrevSpec(b1, 1).Ok? {
        var w := StartNodeWithPrevSpec(b1, 1).value;
        ChainLaw(w, op.value.1);
        var inner := ChainRule(w, op.value.1);
        if inner.Ok? && inner.value.matched {
          BinaryStep(s, x, b1, w, inner.value.state, op.value.0);
          var c := Accept(inner.value.state, Construct.Expression(ExpressionKind.BinaryOp(op.value.0)));
          if c.Ok? {
            ExpressionLoopLaw(s, c.value.state);
          }
        }
      }
    }
  }

  // ---------------------------------------------------------------- the parser methods

  method MatchBinaryOp(p: Parser) returns (r: Result<Option<(BinaryOp, nat)>>)
    modifies p
    ensures var spec := BinaryOpRule(old(p.Model()));
            (r.Ok? <==> spec.Ok?) && (r.Ok? ==> r.value == spec.value.0 && p.Model() == spec.value.1)
  {
    var token :- p.ConsumeToken();
    if DoubledOp(token).Some? {
      var next :- p.PeekToken();
      if next == token {
        var consumed := p.ConsumeToken();
        assert consumed.Ok?;
        return Ok(DoubledOp(token));
      }
    }
    return Ok(SingleOp(token));
  }

  method MatchFunctionCall(p: Parser) returns (r: Result<bool>)
    modifies p, p.ast
    ensures Mirrors(r, FunctionCallRule(old(p.Model())), p.Model())
    decreases |p.tokens| - p.cur.tokenI, 0
  {
    ghost var s := p.Model();
    :- p.StartNode();
    var id :- MatchIdentifier(p);
    if !id {
      var discarded := p.DiscardNode();
      assert discarded.Pass?;
      return Ok(false);
    }
    var token :- p.ConsumeToken();
    if token != LParen {
      var discarded := p.DiscardNode();
      assert discarded.Pass?;
      return Ok(false);
    }
    ghost var s2 := p.Model();
    assert FunctionCallRule(s) == CallTail(s2);
    :- MatchCallArguments(p);
    var closing :- p.ConsumeToken();
    if closing != RParen {
      return Fatal("Function missing closing )");
    }
    :- p.ConfirmNode(Construct.Expression(ExpressionKind.Function));
    return Ok(true);
  }

  method MatchCallArguments(p: Parser) returns (o: Outcome)
    modifies p, p.ast
    ensures o.Pass? <==> CallArguments(old(p.Model())).Ok?
    ensures o.Pass? ==> p.Model() == CallArguments(old(p.Model())).value
    decreases |p.tokens| - p.cur.tokenI, 3
  {
    ghost var s := p.Model();
    var first := MatchExpression(p);
    if first.Fatal? {
      return Fail(first.msg);
    }
    if first.value {
      ghost var x := p.Model();
      while true
        invariant p.tokens == s.tokens && p.stack == s.stack
        invariant s.cur.tokenI < p.cur.tokenI <= |p.tokens|
        invariant ArgumentsLoop(p.Model()) == ArgumentsLoop(x)
        decreases |p.tokens| - p.cur.tokenI
      {
        var comma := p.PeekToken();
        if comma.Fatal? {
          return Fail(comma.msg);
        }
        if comma.value != Comma {
          break;
        }
        var consumed := p.ConsumeToken();
        assert consumed.Ok?;
        var arg := MatchExpression(p);
        if arg.Fatal? {
          return Fail(arg.msg);
        }
        if !arg.value {
          return Fail("Expected expression after comma in function call");
        }
      }
    }
    o := Pass;
  }

  method MatchParentheses(p: Parser) returns (r: Result<bool>)
    modifies p, p.ast
    ensures Mirrors(r, ParenthesesRule(old(p.Model())), p.Model())
    decreases |p.tokens| - p.cur.tokenI, 0
  {
    var token :- p.PeekToken();
    if token != LParen {
      return Ok(false);
    }
    var consumed := p.ConsumeToken();
    assert consumed.Ok?;
    var inner :- MatchExpression(p);
    if !inner {
      return Fatal("No expression within ()");
    }
    var closing :- p.ConsumeToken();
    if closing != RParen {
      return Fatal("No closing )");
    }
    return Ok(true);
  }

  method MatchConstant(p: Parser) returns (r: Result<bool>)
    modifies p, p.ast
    ensures Mirrors(r, ConstantRule(old(p.Model())), p.Model())
  {
    var started := p.StartNode();
    if started.Fail? {
      return Fatal(started.msg);
    }
    var token :- p.ConsumeToken();
    if !token.Constant? {
      var discarded := p.DiscardNode();
      assert discarded.Pass?;
      return Ok(false);
    }
    :- p.ConfirmNode(Construct.Expression(ExpressionKind.Constant(token.constant)));
    return Ok(true);
  }

  method MatchExpressionIdentifier(p: Parser) returns (r: Result<bool>)
    modifies p, p.ast
    ensures Mirrors(r, ExpressionIdentifierRule(old(p.Model())), p.Model())
  {
    var started := p.StartNode();
    if started.Fail? {
      return Fatal(started.msg);
    }
    var id :- MatchIdentifier(p);
    if !id {
      var discarded := p.DiscardNode();
      assert discarded.Pass?;
      return Ok(false);
    }
    :- p.ConfirmNode(Construct.Expression(ExpressionKind.Identifier));
    return Ok(true);
  }

  method MatchEnclosed(p: Parser) returns (r: Result<bool>)
    modifies p, p.ast
    ensures Mirrors(r, EnclosedRule(old(p.Model())), p.Model())
    decreases |p.tokens| - p.cur.tokenI, 1
  {
    var unary :- MatchUnaryOp(p);
    if unary {
      return Ok(true);
    }
    var call :- MatchFunctionCall(p);
    if call {
      return Ok(true);
    }
    var parentheses :- MatchParentheses(p);
    if parentheses {
      return Ok(true);
    }
    var constant :- MatchConstant(p);
    if constant {
      return Ok(true);
    }
    r := MatchExpressionIdentifier(p);
  }

  method MatchChain(p: Parser, priority: nat) returns (r: Result<bool>)
    modifies p, p.ast
    ensures Mirrors(r, ChainRule(old(p.Model()), priority), p.Model())
    decreases |p.tokens| - p.cur.tokenI, 2
  {
    ghost var s := p.Model();
    var enclosed :- MatchEnclosed(p);
    if !enclosed {
      return Ok(false);
    }
    assert ChainRule(s, priority) == ChainTail(p.Model(), priority);
    p.StashState();
    var op :- MatchBinaryOp(p);
    if op.None? || op.value.1 > priority {
      p.RollbackState();
      return Ok(true);
    }
    :- p.StartNodeWithPrev(1);
    var inner :- MatchChain(p, op.value.1);
    if !inner {
      return Fatal("Missing expression after binary operation");
    }
    :- p.ConfirmNode(Construct.Expression(ExpressionKind.BinaryOp(op.value.0)));
    return Ok(true);
  }

  method MatchUnaryOp(p: Parser) returns (r: Result<bool>)
    modifies p, p.ast
    ensures Mirrors(r, UnaryOpRule(old(p.Model())), p.Model())
    decreases |p.tokens| - p.cur.tokenI, 0
  {
    var started := p.StartNode();
    if started.Fail? {
      return Fatal(started.msg);
    }
    var token :- p.ConsumeToken();
    var unary := UnaryOf(token);
    if unary.None? {
      var discarded := p.DiscardNode();
      assert discarded.Pass?;
      return Ok(false);
    }
    var inner :- MatchChain(p, unary.value.1);
    if !inner {
      return Fatal("Expected expression after unary operation");
    }
    :- p.ConfirmNode(Construct.Expression(ExpressionKind.UnaryOp(unary.value.0)));
    return Ok(true);
  }

  method MatchExpression(p: Parser) returns (r: Result<bool>)
    modifies p, p.ast
    ensures Mirrors(r, ExpressionRule(old(p.Model())), p.Model())
    decreases |p.tokens| - p.cur.tokenI, 2
  {
    ghost var s := p.Model();
    var enclosed :- MatchEnclosed(p);
    if !enclosed {
      return Ok(false);
    }
    ghost var x := p.Model();
    while true
      invariant p.tokens == s.tokens && p.stack == s.stack
      invariant s.cur.tokenI < p.cur.tokenI <= |p.tokens|
      invariant ExpressionLoop(p.Model()) == ExpressionLoop(x)
      decreases |p.tokens| - p.cur.tokenI
    {
      p.StashState();
      var op :- MatchBinaryOp(p);
      if op.None? {
        p.RollbackState();
        break;
      }
      :- p.StartNodeWithPrev(1);
      var inner :- MatchChain(p, op.value.1);
      if !inner {
        return Fatal("Missing expression after binary operator");
      }
      :- p.ConfirmNode(Construct.Expression(ExpressionKind.BinaryOp(op.value.0)));
    }
    return Ok(true);
  }

  // ---------------------------------------------------------------- one-token operands

  /** A constant, or a name not followed by `(`: an operand of one token. */
  predicate OneTokenOperand(tokens: seq<Token>, i: nat) {
    && i < |tokens|
    && (tokens[i].Constant? || (tokens[i].Identifier? && i + 1 < |tokens| && tokens[i + 1] != LParen))
  }

  /** With room for two checkpoints and one child, the operand rule matches a
      one-token operand, consuming exactly that token. */
  lemma OneTokenEnclosed(s: PState)
    requires Good(s) && OneTokenOperand(s.tokens, s.cur.tokenI)
    requires |s.stack| + 2 <= s.maxStack && |s.children| < s.maxChildren
    ensures var r := EnclosedRule(s);
            r.Ok? && r.value.matched && r.value.state.cur.tokenI == s.cur.tokenI + 1
  {
    assert UnaryOpRule(s) == Reject(Advance(Pushed(s)));
    UnaryOpLaw(s);
    OneTokenNotCall(s);
    var t := FunctionCallRule(s).value.state;
    assert ParenthesesRule(t) == Ok(Step(false, t));
    ConstantLaw(t);
    if !s.tokens[s.cur.tokenI].Constant? {
      IdentifierLaw(Pushed(t));
      AcceptLaw(t, IdentifierRule(Pushed(t)).value.state, Construct.Expression(ExpressionKind.Identifier));
      ExpressionIdentifierLaw(t);
    }
  }

  /** The call rule does not match a one-token operand, and gives up cleanly. */
  lemma OneTokenNotCall(s: PState)
    requires Good(s) && OneTokenOperand(s.tokens, s.cur.tokenI)
    requires |s.stack| + 2 <= s.maxStack && |s.children| < s.maxChildren
    ensures var r := FunctionCallRule(s);
            r.Ok? && !r.value.matched && Restored(s, r.value.state)
  {
    IdentifierLaw(Pushed(s));
    FunctionCallLaw(s);
  }

  /** No binary operation starts at `i`. */
  predicate NoOperatorAt(tokens: seq<Token>, i: nat) {
    i < |tokens| && SingleOp(tokens[i]).None? && DoubledOp(tokens[i]).None?
  }

  /** Where no operator follows, the expression loop probes one token and
      rolls back to where it started. */
  lemma ExpressionLoopStops(x: PState)
    requires NoOperatorAt(x.tokens, x.cur.tokenI)
    ensures ExpressionLoop(x) == Ok(x.(stashed := x.cur))
  {
  }

  /** A one-token operand with no operator after it is a whole expression of
      one token. */
  lemma OneTokenExpression(s: PState)
    requires Good(s) && OneTokenOperand(s.tokens, s.cur.tokenI) && NoOperatorAt(s.tokens, s.cur.tokenI + 1)
    requires |s.stack| + 2 <= s.maxStack && |s.children| < s.maxChildren
    ensures var r := ExpressionRule(s);
            r.Ok? && r.value.matched && r.value.state.cur.tokenI == s.cur.tokenI + 1
  {
    OneTokenEnclosed(s);
    ExpressionLoopStops(EnclosedRule(s).value.state);
  }

  // ---------------------------------------------------------------- the call rule as written

  /** The call rule as the source writes it: the argument loop consumes the
      token after each argument to test it for `,`. */
  function FunctionCallAsWritten(s: PState): (r: Result<Step>)
    ensures Moved(s, r)
  {
    var s1 :- StartNodeSpec(s);
    var id :- IdentifierRule(s1);
    if !id.matched then Reject(id.state)
    else
      var (token, s2) :- ConsumeTokenSpec(id.state);
      if token != LParen then Reject(s2)
      else CallTailAsWritten(s2)
  }

  function CallTailAsWritten(s2: PState): (r: Result<Step>)
    ensures r.Ok? ==> && r.value.matched && r.value.state.tokens == s2.tokens
                      && |s2.stack| > 0 && r.value.state.stack == s2.stack[..|s2.stack| - 1]
                      && s2.cur.tokenI < r.value.state.cur.tokenI <= |s2.tokens|
  {
    var first :- ExpressionRule(s2);
    var s3 :- if first.matched then ArgumentsLoopAsWritten(first.state) else Ok(first.state);
    var (closing, s4) :- ConsumeTokenSpec(s3);
    if closing != RParen then Fatal("Function missing closing )")
    else Accept(s4, Construct.Expression(ExpressionKind.Function))
  }

  /** The argument loop as written: consume a token; stop unless it was `,`. */
  function ArgumentsLoopAsWritten(x: PState): (r: Result<PState>)
    ensures r.Ok? ==> && r.value.tokens == x.tokens && r.value.stack == x.stack
                      && x.cur.tokenI < r.value.cur.tokenI <= |x.tokens|
    decreases |x.tokens| - x.cur.tokenI
  {
    var (token, x1) :- ConsumeTokenSpec(x);
    if token != Comma then Ok(x1)
    else
      var e :- ExpressionRule(x1);
      if !e.matched then Fatal("Expected expression after comma in function call")
      else ArgumentsLoopAsWritten(e.state)
  }

  /** On `f(x)` followed by anything but a second `)`, the call rule as
      written has already consumed the `)` when it checks for it, and fails;
      the corrected rule commits the call. */
  lemma {:induction false} CallAsWrittenLosesParen(s: PState)
    requires Good(s) && CallOfOneName(s.tokens, s.cur.tokenI) && s.tokens[s.cur.tokenI + 4] != RParen
    requires |s.stack| + 4 <= s.maxStack && |s.children| + 2 < s.maxChildren
    ensures FunctionCallAsWritten(s) == Fatal("Function missing closing )")
    ensures FunctionCallRule(s).Ok? && FunctionCallRule(s).value.matched
  {
    OneArgumentCall(s);
    CallAsWrittenFails(s);
  }

  /** The call rule as written fails on `f(x)` followed by anything but `)`. */
  lemma CallAsWrittenFails(s: PState)
    requires Good(s) && CallOfOneName(s.tokens, s.cur.tokenI) && s.tokens[s.cur.tokenI + 4] != RParen
    requires |s.stack| + 4 <= s.maxStack && |s.children| + 2 < s.maxChildren
    ensures FunctionCallAsWritten(s) == Fatal("Function missing closing )")
  {
    var s1 := Pushed(s);
    IdentifierLaw(s1);
    var m := IdentifierRule(s1).value.state;
    var s2 := Advance(m);
    GrewConsume(s1, m);
    OneTokenExpression(s2);
    assert FunctionCallAsWritten(s) == CallTailAsWritten(s2);
    var f := ExpressionRule(s2).value.state;
    assert f.tokens == s.tokens && f.cur.tokenI == s.cur.tokenI + 3;
    assert ArgumentsLoopAsWritten(f) == Ok(Advance(f));
  }

  /** The tokens from `i` are a name, `(`, a name, `)` and one more token. */
  predicate CallOfOneName(tokens: seq<Token>, i: nat) {
    && i + 4 < |tokens|
    && tokens[i].Identifier? && tokens[i + 1] == LParen && tokens[i + 2].Identifier? && tokens[i + 3] == RParen
  }

  /** The call rule commits `f(x)`, consuming exactly its four tokens. */
  lemma {:induction false} OneArgumentCall(s: PState)
    requires Good(s) && CallOfOneName(s.tokens, s.cur.tokenI)
    requires |s.stack| + 4 <= s.maxStack && |s.children| + 2 < s.maxChildren
    ensures var r := FunctionCallRule(s);
            && r.Ok? && r.value.matched && r.value.state.cur.tokenI == s.cur.tokenI + 4
            && ExprRoot(r.value.state) && Root(r.value.state).construct == Construct.Expression(ExpressionKind.Function)
  {
    var s1 := Pushed(s);
    IdentifierLaw(s1);
    var m := IdentifierRule(s1).value.state;
    var s2 := Advance(m);
    GrewConsume(s1, m);
    OneTokenExpression(s2);
    ExpressionLaw(s2);
    var f := ExpressionRule(s2).value.state;
    assert ArgumentsLoop(f) == Ok(f);
    assert FunctionCallRule(s) == CallTail(s2);
    GrewTrans(s1, s2, f);
    GrewConsume(s1, f);
    AcceptLaw(s, Advance(f), Construct.Expression(ExpressionKind.Function));
    FunctionCallLaw(s);
  }
}
