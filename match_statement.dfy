/** Statements: an assignment or a `return`, each closed by `;`. */
module MatchStatement {
  import opened Outcomes
  import opened Tokens
  import opened Constructs
  import opened Trees
  import opened Parsing
  import opened MatchExpression

  // ---------------------------------------------------------------- rules

  /** `<expression> = <expression> ;`; any mismatch gives up. */
  function AssignRule(s: PState): (r: Result<Step>)
    ensures Moved(s, r)
  {
    var s1 :- StartNodeSpec(s);
    var lhs :- ExpressionRule(s1);
    if !lhs.matched then Reject(lhs.state) else AssignRest(lhs.state)
  }

  /** The assignment after its left operand: `=`, then the shared end. */
  function AssignRest(l: PState): (r: Result<Step>)
    requires |l.stack| > 0
    ensures r.Ok? ==> && r.value.state.tokens == l.tokens && r.value.state.stack == l.stack[..|l.stack| - 1]
                      && (r.value.matched ==> l.cur.tokenI < r.value.state.cur.tokenI <= |l.tokens|)
                      && (!r.value.matched ==> r.value.state.cur == Top(l))
  {
    var (eq, s2) :- ConsumeTokenSpec(l);
    if eq != Equals then Reject(s2)
    else OperandThenSemicolon(s2, StatementKind.Assign)
  }

  /** `return <expression> ;`; any mismatch gives up. */
  function ReturnRule(s: PState): (r: Result<Step>)
    ensures Moved(s, r)
  {
    var s1 :- StartNodeSpec(s);
    var (keyword, s2) :- ConsumeTokenSpec(s1);
    if keyword != Token.Keyword(Keyword.Return) then Reject(s2)
    else OperandThenSemicolon(s2, StatementKind.Return)
  }

  /** The end both statements share: an expression, then `;`, and the
      statement node of kind `kind` is confirmed. */
  function OperandThenSemicolon(x: PState, kind: StatementKind): (r: Result<Step>)
    requires |x.stack| > 0
    ensures r.Ok? ==> && r.value.state.tokens == x.tokens && r.value.state.stack == x.stack[..|x.stack| - 1]
                      && (r.value.matched ==> x.cur.tokenI < r.value.state.cur.tokenI <= |x.tokens|)
                      && (!r.value.matched ==> r.value.state.cur == Top(x))
  {
    var value :- ExpressionRule(x);
    if !value.matched then Reject(value.state)
    else
      var (semicolon, s3) :- ConsumeTokenSpec(value.state);
      if semicolon != Semicolon then Reject(s3)
      else Accept(s3, Construct.Statement(kind))
  }

  /** An assignment, else a `return`. */
  function StatementRule(s: PState): (r: Result<Step>)
    ensures Moved(s, r)
  {
    var assign :- AssignRule(s);
    if assign.matched then Ok(assign) else ReturnRule(assign.state)
  }

  // ---------------------------------------------------------------- laws

  /** The last committed node is a statement of kind `kind` over as many
      expression nodes as that kind has operands: two for an assignment, one
      for a `return`. */
  predicate StatementNode(u: PState, kind: StatementKind) {
    && 0 < u.cur.nodeI <= |u.nodes|
    && var kids := ChildrenOf(u.nodes, u.cur.nodeI - 1);
       && Root(u).construct == Construct.Statement(kind)
       && |kids| == (if kind == StatementKind.Assign then 2 else 1)
       && forall j :: 0 <= j < |kids| ==> kids[j] < |u.nodes| && u.nodes[kids[j]].construct.Expression?
  }

  /** Confirming a statement whose operands are the expression nodes staged
      since `s`: the first (assignment only) staged before `m`, the last one
      committed by the expression rule that ran from `m` to `t`, after which
      `;` was consumed. */
  lemma StatementAccept(s: PState, m: PState, t: PState, kind: StatementKind)
    requires Inside(s, m) && Committed(m, t) && ExprRoot(t) && s.cur.tokenI < t.cur.tokenI
    requires Inside(s, Advance(t)) && t.cur.tokenI < |t.tokens| && t.tokens[t.cur.tokenI] == Semicolon
    requires |m.children| - |s.children| == (if kind == StatementKind.Assign then 1 else 0)
    requires forall k :: |s.children| <= k < |m.children| ==> m.nodes[m.children[k]].construct.Expression?
    ensures var r := Accept(Advance(t), Construct.Statement(kind));
            r.Ok? ==> Committed(s, r.value.state) && StatementNode(r.value.state, kind)
                      && LastConsumed(r.value.state, Semicolon)
  {
    var c := Construct.Statement(kind);
    var t1 := Advance(t);
    assert LastConsumed(t1, Semicolon);
    AcceptLast(t1, c, Semicolon);
    CommittedConsume(m, t);
    AcceptLaw(s, t1, c);
    if Accept(t1, c).Ok? {
      assert Root(t1) == Root(t);
      StatementKids(s, m, t1, kind);
    }
  }

  /** The confirmed statement's children are the staged expressions. */
  lemma StatementKids(s: PState, m: PState, t: PState, kind: StatementKind)
    requires Inside(s, m) && Committed(m, t) && s.cur.tokenI < t.cur.tokenI && Inside(s, t)
    requires Accept(t, Construct.Statement(kind)).Ok? && Root(t).construct.Expression?
    requires |m.children| - |s.children| == (if kind == StatementKind.Assign then 1 else 0)
    requires forall k :: |s.children| <= k < |m.children| ==> m.nodes[m.children[k]].construct.Expression?
    ensures StatementNode(Accept(t, Construct.Statement(kind)).value.state, kind)
  {
    var c := Construct.Statement(kind);
    AcceptLaw(s, t, c);
    AcceptKids(s, m, t, c);
    var u := Accept(t, c).value.state;
    var kids := ChildrenOf(u.nodes, u.cur.nodeI - 1);
    forall j | 0 <= j < |kids|
      ensures u.nodes[kids[j]].construct.Expression?
    {
      if j < |kids| - 1 {
        assert u.nodes[kids[j]].construct == m.nodes[m.children[|s.children| + j]].construct;
      }
    }
  }

  /** An assignment either gives up with the cursor restored or commits one
      `Statement(Assign)` node over its two expressions; it starts with a
      token that can start an operand and ends with `;`. */
  lemma {:induction false} AssignLaw(s: PState)
    requires Good(s)
    ensures var r := AssignRule(s);
            && Law(s, r)
            && (r.Ok? && r.value.matched ==>
                  && s.cur.tokenI < |s.tokens| && IsOperandStart(s.tokens[s.cur.tokenI])
                  && StatementNode(r.value.state, StatementKind.Assign) && LastConsumed(r.value.state, Semicolon))
  {
    if StartNodeSpec(s).Ok? {
      var s1 := Pushed(s);
      ExpressionLaw(s1);
      var lhs := ExpressionRule(s1);
      if lhs.Ok? && !lhs.value.matched {
        RejectLaw(s, lhs.value.state);
      } else if lhs.Ok? {
        assert AssignRule(s) == AssignRest(lhs.value.state);
        AssignRestLaw(s, lhs.value.state);
      }
    }
  }

  /** The assignment after the left operand, which took the rule from its
      own start to `l`. */
  lemma {:induction false} AssignRestLaw(s: PState, l: PState)
    requires Good(s) && Committed(Pushed(s), l) && ExprRoot(l)
    ensures var r := AssignRest(l);
            && Law(s, r)
            && (r.Ok? && r.value.matched ==>
                  StatementNode(r.value.state, StatementKind.Assign) && LastConsumed(r.value.state, Semicolon))
  {
    if l.cur.tokenI < |l.tokens| {
      var s2 := Advance(l);
      GrewConsume(Pushed(s), l);
      if l.tokens[l.cur.tokenI] != Equals {
        RejectLaw(s, s2);
      } else {
        assert s2.children[|s.children|] == l.cur.nodeI - 1;
        OperandThenSemicolonLaw(s, s2, StatementKind.Assign);
      }
    }
  }

  /** A `return` either gives up with the cursor restored or commits one
      `Statement(Return)` node over its expression; it starts with the
      keyword `return` and ends with `;`. */
  lemma {:induction false} ReturnLaw(s: PState)
    requires Good(s)
    ensures var r := ReturnRule(s);
            && Law(s, r)
            && (r.Ok? ==> s.cur.tokenI < |s.tokens|)
            && (r.Ok? && r.value.matched ==>
                  && s.tokens[s.cur.tokenI] == Token.Keyword(Keyword.Return)
                  && StatementNode(r.value.state, StatementKind.Return) && LastConsumed(r.value.state, Semicolon))
            && (r.Ok? && s.tokens[s.cur.tokenI] != Token.Keyword(Keyword.Return) ==> r.value.state == s)
  {
    if StartNodeSpec(s).Ok? && s.cur.tokenI < |s.tokens| {
      var s1 := Pushed(s);
      var s2 := Advance(s1);
      GrewConsume(s1, s1);
      if s.tokens[s.cur.tokenI] != Token.Keyword(Keyword.Return) {
        DiscardAfterConsume(s);
      } else {
        assert ReturnRule(s) == OperandThenSemicolon(s2, StatementKind.Return);
        OperandThenSemicolonLaw(s, s2, StatementKind.Return);
      }
    }
  }

  /** The shared end, run from `m` inside a statement rule started at `s`
      that has staged the left operand (assignment) or nothing (`return`). */
  lemma {:induction false} OperandThenSemicolonLaw(s: PState, m: PState, kind: StatementKind)
    requires Inside(s, m) && Top(m) == s.cur && s.cur.tokenI < m.cur.tokenI
    requires |m.children| - |s.children| == (if kind == StatementKind.Assign then 1 else 0)
    requires forall k :: |s.children| <= k < |m.children| ==> m.nodes[m.children[k]].construct.Expression?
    ensures var r := OperandThenSemicolon(m, kind);
            && Law(s, r)
            && (r.Ok? && r.value.matched ==> StatementNode(r.value.state, kind) && LastConsumed(r.value.state, Semicolon))
  {
    ExpressionLaw(m);
    var value := ExpressionRule(m);
    if value.Ok? {
      GrewTrans(Pushed(s), m, value.value.state);
      if !value.value.matched {
        RejectLaw(s, value.value.state);
      } else if value.value.state.cur.tokenI < |s.tokens| {
        var t := value.value.state;
        GrewConsume(Pushed(s), t);
        if s.tokens[t.cur.tokenI] != Semicolon {
          RejectLaw(s, Advance(t));
        } else {
          StatementAccept(s, m, t, kind);
        }
      }
    }
  }

  /** A statement is tried as an assignment first, then as a `return`; it
      gives up only when both do. A statement starting with `return` is a
      return and any other is an assignment. */
  lemma StatementLaw(s: PState)
    requires Good(s)
    ensures var r := StatementRule(s);
            && Law(s, r)
            && (r.Ok? && r.value.matched ==>
                  && s.cur.tokenI < |s.tokens|
                  && var kind := if s.tokens[s.cur.tokenI] == Token.Keyword(Keyword.Return) then StatementKind.Return else StatementKind.Assign;
                     StatementNode(r.value.state, kind) && LastConsumed(r.value.state, Semicolon))
  {
    AssignLaw(s);
    var a := AssignRule(s);
    if a.Ok? && !a.value.matched {
      ReturnLaw(a.value.state);
      RestoredThen(s, a.value.state, ReturnRule(a.value.state));
    }
  }

  // ---------------------------------------------------------------- the parser methods

  method MatchAssign(p: Parser) returns (r: Result<bool>)
    modifies p, p.ast
    ensures Mirrors(r, AssignRule(old(p.Model())), p.Model())
  {
    var started := p.StartNode();
    if started.Fail? {
      return Fatal(started.msg);
    }
    var lhs :- MatchExpression.MatchExpression(p);
    if !lhs {
      var discarded := p.DiscardNode();
      assert discarded.Pass?;
      return Ok(false);
    }
    var eq :- p.ConsumeToken();
    if eq != Equals {
      var discarded := p.DiscardNode();
      assert discarded.Pass?;
      return Ok(false);
    }
    var rhs :- MatchExpression.MatchExpression(p);
    if !rhs {
      var discarded := p.DiscardNode();
      assert discarded.Pass?;
      return Ok(false);
    }
    var semicolon :- p.ConsumeToken();
    if semicolon != Semicolon {
      var discarded := p.DiscardNode();
      assert discarded.Pass?;
      return Ok(false);
    }
    :- p.ConfirmNode(Construct.Statement(StatementKind.Assign));
    return Ok(true);
  }

  method MatchReturn(p: Parser) returns (r: Result<bool>)
    modifies p, p.ast
    ensures Mirrors(r, ReturnRule(old(p.Model())), p.Model())
  {
    var started := p.StartNode();
    if started.Fail? {
      return Fatal(started.msg);
    }
    var keyword :- p.ConsumeToken();
    if keyword != Token.Keyword(Keyword.Return) {
      var discarded := p.DiscardNode();
      assert discarded.Pass?;
      return Ok(false);
    }
    var value :- MatchExpression.MatchExpression(p);
    if !value {
      var discarded := p.DiscardNode();
      assert discarded.Pass?;
      return Ok(false);
    }
    var semicolon :- p.ConsumeToken();
    if semicolon != Semicolon {
      var discarded := p.DiscardNode();
      assert discarded.Pass?;
      return Ok(false);
    }
    :- p.ConfirmNode(Construct.Statement(StatementKind.Return));
    return Ok(true);
  }

  method MatchStatement(p: Parser) returns (r: Result<bool>)
    modifies p, p.ast
    ensures Mirrors(r, StatementRule(old(p.Model())), p.Model())
  {
    var assign :- MatchAssign(p);
    if assign {
      return Ok(true);
    }
    r := MatchReturn(p);
  }
}
