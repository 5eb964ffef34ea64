/** How the expression rules group binary operations: which tokens spell
    which operator at which priority, where a chain of one priority ends,
    and the tree built for `a op b op c`. */
module Precedence {
  import opened Outcomes
  import opened Tokens
  import opened Constructs
  import opened Trees
  import opened Parsing
  import opened MatchExpression

  // ---------------------------------------------------------------- the operator table

  /** The tokens that spell a binary operator. */
  function Spelling(op: BinaryOp): (w: seq<Token>)
    ensures 1 <= |w| <= 2 && (|w| == 2 ==> w[1] == w[0])
  {
    match op
    case Add => [Plus]
    case Subtract => [Minus]
    case Multiply => [Asterisk]
    case Divide => [RSlash]
    case Access => [Period]
    case BitwiseAnd => [Ampersand]
    case BitwiseOr => [VBar]
    case LogicalAnd => [Ampersand, Ampersand]
    case LogicalOr => [VBar, VBar]
    case LogicalEquals => [Equals, Equals]
  }

  /** The priority number of a binary operator; a lower number binds tighter. */
  function Priority(op: BinaryOp): nat {
    match op
    case Access => 1
    case BitwiseAnd => 31
    case BitwiseOr => 32
    case LogicalEquals => 41
    case LogicalAnd => 42
    case LogicalOr => 43
    case Multiply => 51
    case Divide => 51
    case Subtract => 52
    case Add => 53
  }

  /** Operator `op` is written at token `i`: its spelling is there, and a
      single `&` or `|` is followed by some other token (`&&` and `||` win). */
  predicate SpelledAt(tokens: seq<Token>, i: nat, op: BinaryOp) {
    var w := Spelling(op);
    && i + |w| <= |tokens| && tokens[i..i + |w|] == w
    && (|w| == 1 && DoubledOp(w[0]).Some? ==> i + 1 < |tokens| && tokens[i + 1] != w[0])
  }

  /** An operator written at the cursor is read with its priority, consuming
      exactly its spelling. */
  lemma BinaryOpSpelled(s: PState, op: BinaryOp)
    requires SpelledAt(s.tokens, s.cur.tokenI, op)
    ensures BinaryOpRule(s) == Ok((Some((op, Priority(op))), Consumed(s, |Spelling(op)|)))
  {
    var i := s.cur.tokenI;
    var w := Spelling(op);
    var t := s.tokens[i];
    assert t == s.tokens[i..i + |w|][0];
    SpellingRead(op);
    if |w| == 2 {
      assert s.tokens[i + 1] == s.tokens[i..i + |w|][1];
      RuleDoubled(s);
      assert Consumed(s, 2) == Advance(Advance(s));
    } else {
      RuleSingle(s);
    }
  }

  /** The rule on a token written twice that doubles as an operator. */
  lemma RuleDoubled(s: PState)
    requires s.cur.tokenI + 1 < |s.tokens| && DoubledOp(s.tokens[s.cur.tokenI]).Some?
    requires s.tokens[s.cur.tokenI + 1] == s.tokens[s.cur.tokenI]
    ensures BinaryOpRule(s) == Ok((DoubledOp(s.tokens[s.cur.tokenI]), Advance(Advance(s))))
  {
    var s1 := Advance(s);
    assert ConsumeTokenSpec(s) == Ok((s.tokens[s.cur.tokenI], s1));
    assert PeekTokenSpec(s1) == Ok(s.tokens[s.cur.tokenI]);
  }

  /** The rule on a token not followed by itself where that would double it. */
  lemma RuleSingle(s: PState)
    requires s.cur.tokenI < |s.tokens|
    requires DoubledOp(s.tokens[s.cur.tokenI]).Some? ==>
               s.cur.tokenI + 1 < |s.tokens| && s.tokens[s.cur.tokenI + 1] != s.tokens[s.cur.tokenI]
    ensures BinaryOpRule(s) == Ok((SingleOp(s.tokens[s.cur.tokenI]), Advance(s)))
  {
    var s1 := Advance(s);
    assert ConsumeTokenSpec(s) == Ok((s.tokens[s.cur.tokenI], s1));
    if DoubledOp(s.tokens[s.cur.tokenI]).Some? {
      assert PeekTokenSpec(s1) == Ok(s.tokens[s.cur.tokenI + 1]);
    }
  }

  /** The tokens a successful read needs. */
  lemma RuleNeeds(s: PState)
    requires BinaryOpRule(s).Ok?
    ensures s.cur.tokenI < |s.tokens|
    ensures DoubledOp(s.tokens[s.cur.tokenI]).Some? ==> s.cur.tokenI + 1 < |s.tokens|
  {
    assert ConsumeTokenSpec(s).Ok?;
    if DoubledOp(s.tokens[s.cur.tokenI]).Some? {
      assert PeekTokenSpec(Advance(s)).Ok?;
    }
  }

  /** Each spelling is read back as its operator by the token tables. */
  lemma SpellingRead(op: BinaryOp)
    ensures var w := Spelling(op);
            && (|w| == 1 ==> SingleOp(w[0]) == Some((op, Priority(op))))
            && (|w| == 2 ==> DoubledOp(w[0]) == Some((op, Priority(op))))
  {
  }

  /** Conversely, whatever operator is read is written at the cursor, with
      its priority and spelling; when no operator is read, exactly one token
      is consumed and none is written there. The rule fails only when the
      tokens run out. */
  lemma BinaryOpRead(s: PState)
    ensures var r := BinaryOpRule(s);
            && (r.Ok? && r.value.0.Some? ==>
                  var (op, p) := r.value.0.value;
                  && SpelledAt(s.tokens, s.cur.tokenI, op) && p == Priority(op)
                  && r.value.1 == Consumed(s, |Spelling(op)|))
            && (r.Ok? && r.value.0.None? ==>
                  && r.value.1 == Advance(s)
                  && forall op :: !SpelledAt(s.tokens, s.cur.tokenI, op))
            && (r.Fatal? <==> s.cur.tokenI >= |s.tokens|
                              || (DoubledOp(s.tokens[s.cur.tokenI]).Some? && s.cur.tokenI + 1 == |s.tokens|))
  {
    var r := BinaryOpRule(s);
    if r.Ok? && r.value.0.Some? {
      BinaryOpReadSome(s);
    } else if r.Ok? {
      BinaryOpReadNone(s);
    }
  }

  /** An operator read is written at the cursor. */
  lemma BinaryOpReadSome(s: PState)
    requires BinaryOpRule(s).Ok? && BinaryOpRule(s).value.0.Some?
    ensures var (op, p) := BinaryOpRule(s).value.0.value;
            && SpelledAt(s.tokens, s.cur.tokenI, op) && p == Priority(op)
            && BinaryOpRule(s).value.1 == Consumed(s, |Spelling(op)|)
  {
    var i := s.cur.tokenI;
    RuleNeeds(s);
    var t := s.tokens[i];
    if DoubledOp(t).Some? && s.tokens[i + 1] == t {
      ReadDoubled(s);
    } else {
      RuleSingle(s);
      ReadSingle(s);
    }
  }

  /** A token written twice that doubles as an operator is read as the doubled one. */
  lemma ReadDoubled(s: PState)
    requires s.cur.tokenI + 1 < |s.tokens| && DoubledOp(s.tokens[s.cur.tokenI]).Some?
    requires s.tokens[s.cur.tokenI + 1] == s.tokens[s.cur.tokenI]
    ensures var (op, p) := DoubledOp(s.tokens[s.cur.tokenI]).value;
            && BinaryOpRule(s) == Ok((Some((op, p)), Consumed(s, 2)))
            && SpelledAt(s.tokens, s.cur.tokenI, op) && p == Priority(op) && |Spelling(op)| == 2
  {
    RuleDoubled(s);
    DoubledAt(s.tokens, s.cur.tokenI);
  }

  /** A doubled operator token written twice spells its operator. */
  lemma DoubledAt(tokens: seq<Token>, i: nat)
    requires i + 1 < |tokens| && DoubledOp(tokens[i]).Some? && tokens[i + 1] == tokens[i]
    ensures var (op, p) := DoubledOp(tokens[i]).value;
            SpelledAt(tokens, i, op) && p == Priority(op) && |Spelling(op)| == 2
  {
    DoubledSpelled(tokens[i]);
    assert tokens[i..i + 2] == [tokens[i], tokens[i]];
  }

  /** A one-token operator not doubled is written at the cursor. */
  lemma ReadSingle(s: PState)
    requires s.cur.tokenI < |s.tokens| && SingleOp(s.tokens[s.cur.tokenI]).Some?
    requires DoubledOp(s.tokens[s.cur.tokenI]).Some? ==>
               s.cur.tokenI + 1 < |s.tokens| && s.tokens[s.cur.tokenI + 1] != s.tokens[s.cur.tokenI]
    ensures var (op, p) := SingleOp(s.tokens[s.cur.tokenI]).value;
            && SpelledAt(s.tokens, s.cur.tokenI, op) && p == Priority(op)
            && Advance(s) == Consumed(s, |Spelling(op)|)
  {
    SingleAt(s.tokens, s.cur.tokenI);
  }

  /** A one-token operator not doubled spells its operator. */
  lemma SingleAt(tokens: seq<Token>, i: nat)
    requires i < |tokens| && SingleOp(tokens[i]).Some?
    requires DoubledOp(tokens[i]).Some? ==> i + 1 < |tokens| && tokens[i + 1] != tokens[i]
    ensures var (op, p) := SingleOp(tokens[i]).value;
            SpelledAt(tokens, i, op) && p == Priority(op) && |Spelling(op)| == 1
  {
    SingleSpelled(tokens[i]);
    assert tokens[i..i + 1] == [tokens[i]];
  }

  /** A token read as a one-token operator spells it. */
  lemma SingleSpelled(t: Token)
    requires SingleOp(t).Some?
    ensures Spelling(SingleOp(t).value.0) == [t] && Priority(SingleOp(t).value.0) == SingleOp(t).value.1
  {
  }

  /** A token read twice as an operator spells it twice. */
  lemma DoubledSpelled(t: Token)
    requires DoubledOp(t).Some?
    ensures Spelling(DoubledOp(t).value.0) == [t, t] && Priority(DoubledOp(t).value.0) == DoubledOp(t).value.1
  {
  }

  /** When no operator is read, none is written at the cursor. */
  lemma BinaryOpReadNone(s: PState)
    requires BinaryOpRule(s).Ok? && BinaryOpRule(s).value.0.None?
    ensures BinaryOpRule(s).value.1 == Advance(s)
    ensures forall op :: !SpelledAt(s.tokens, s.cur.tokenI, op)
  {
    forall op | SpelledAt(s.tokens, s.cur.tokenI, op)
      ensures false
    {
      BinaryOpSpelled(s, op);
    }
  }

  // ---------------------------------------------------------------- terms

  /** A binary-operation tree over constants. */
  datatype Term = Leaf(value: Constant) | Bin(op: BinaryOp, left: Term, right: Term)

  /** Node `i` and the ones it links to spell term `t` in the arena: a
      constant leaf with no children, or the operation whose first child `a`
      links to a second child `b` and no further. Every node involved lies
      between `lo` and `i`, and children come before their parent. */
  predicate ShowsIn(nodes: seq<Node>, i: nat, t: Term, lo: nat)
    decreases t
  {
    && lo <= i < |nodes|
    && match t
       case Leaf(c) =>
         nodes[i].construct == Construct.Expression(ExpressionKind.Constant(c)) && nodes[i].child == None
       case Bin(op, l, r) =>
         && nodes[i].construct == Construct.Expression(ExpressionKind.BinaryOp(op))
         && nodes[i].child.Some?
         && var a := nodes[i].child.value;
            && a < i && nodes[a].next.Some?
            && var b := nodes[a].next.value;
               && a < b < i && nodes[b].next == None
               && ShowsIn(nodes, a, l, lo) && ShowsIn(nodes, b, r, lo)
  }

  /** What `ShowsIn` means for the children of the node: none for a leaf,
      and for an operation exactly two, spelling its two operands. */
  lemma ShowsKids(nodes: seq<Node>, i: nat, t: Term, lo: nat)
    requires ShowsIn(nodes, i, t, lo)
    ensures var kids := ChildrenOf(nodes, i);
            && (t.Leaf? ==> kids == [])
            && (t.Bin? ==> |kids| == 2 && ShowsIn(nodes, kids[0], t.left, lo) && ShowsIn(nodes, kids[1], t.right, lo))
  {
    if t.Bin? {
      var a := nodes[i].child.value;
      var b := nodes[a].next.value;
      assert Chain(nodes, nodes[i].child, [a, b]);
      ChainChildren(nodes, nodes[i].child, [a, b]);
    }
  }

  /** A term stays spelled when the nodes below its root keep their values
      and the root keeps its construct and first child (its own sibling link
      may change). */
  lemma {:induction false} ShowsKept(n1: seq<Node>, n2: seq<Node>, i: nat, t: Term, lo: nat)
    requires ShowsIn(n1, i, t, lo) && i < |n2|
    requires forall m :: lo <= m < i ==> n2[m] == n1[m]
    requires n2[i].construct == n1[i].construct && n2[i].child == n1[i].child
    ensures ShowsIn(n2, i, t, lo)
    decreases t
  {
    if t.Bin? {
      var a := n1[i].child.value;
      var b := n1[a].next.value;
      ShowsKept(n1, n2, a, t.left, lo);
      ShowsKept(n1, n2, b, t.right, lo);
    }
  }

  /** A term spelled by nodes from `lo` on is spelled by nodes from any lower bound. */
  lemma {:induction false} ShowsWiden(nodes: seq<Node>, i: nat, t: Term, lo: nat, lo2: nat)
    requires ShowsIn(nodes, i, t, lo) && lo2 <= lo
    ensures ShowsIn(nodes, i, t, lo2)
    decreases t
  {
    if t.Bin? {
      var a := nodes[i].child.value;
      ShowsWiden(nodes, a, t.left, lo, lo2);
      ShowsWiden(nodes, nodes[a].next.value, t.right, lo, lo2);
    }
  }

  /** The node a rule started at `s` committed in state `u` spells `t`, from
      nodes written since `s`. */
  predicate Built(s: PState, u: PState, t: Term) {
    Committed(s, u) && ExprRoot(u) && ShowsIn(u.nodes, u.cur.nodeI - 1, t, s.cur.nodeI)
  }
  // ---------------------------------------------------------------- operands and chains

  /** With room for two checkpoints and one child, a constant is an operand
      of one token: its leaf is committed and spells the constant. */
  lemma ConstantOperand(s: PState)
    requires Good(s) && s.cur.tokenI < |s.tokens| && s.tokens[s.cur.tokenI].Constant?
    requires |s.stack| + 2 <= s.maxStack && |s.children| < s.maxChildren
    ensures var r := EnclosedRule(s);
            && r.Ok? && r.value.matched && r.value.state.cur.tokenI == s.cur.tokenI + 1
            && Built(s, r.value.state, Leaf(s.tokens[s.cur.tokenI].constant))
  {
    ConstantReached(s);
    var t := FunctionCallRule(s).value.state;
    ConstantLaw(t);
    RestoredThen(s, t, ConstantRule(t));
  }

  /** On a constant the operand rule comes down to the constant rule, after
      the unary, call and parentheses rules gave up cleanly. */
  lemma ConstantReached(s: PState)
    requires Good(s) && s.cur.tokenI < |s.tokens| && s.tokens[s.cur.tokenI].Constant?
    requires |s.stack| + 2 <= s.maxStack && |s.children| < s.maxChildren
    ensures FunctionCallRule(s).Ok? && Restored(s, FunctionCallRule(s).value.state)
    ensures EnclosedRule(s) == ConstantRule(FunctionCallRule(s).value.state)
  {
    UnaryGivesUp(s);
    OneTokenNotCall(s);
    var t := FunctionCallRule(s).value.state;
    ParenthesesGiveUp(s, t);
    ConstantLaw(t);
    EnclosedAfterCall(s, t);
  }

  /** The unary rule gives up on a constant and leaves the state as it was. */
  lemma UnaryGivesUp(s: PState)
    requires Good(s) && s.cur.tokenI < |s.tokens| && s.tokens[s.cur.tokenI].Constant? && |s.stack| < s.maxStack
    ensures UnaryOpRule(s) == Ok(Step(false, s))
  {
    assert UnaryOpRule(s) == Reject(Advance(Pushed(s)));
    DiscardAfterConsume(s);
  }

  /** The parentheses rule gives up on anything but `(`, without a change. */
  lemma ParenthesesGiveUp(s: PState, t: PState)
    requires Restored(s, t) && s.cur.tokenI < |s.tokens| && s.tokens[s.cur.tokenI] != LParen
    ensures ParenthesesRule(t) == Ok(Step(false, t))
  {
    assert t.tokens[t.cur.tokenI] == s.tokens[s.cur.tokenI];
  }

  /** The operand rule once neither the unary nor the call rule matched and
      no `(` follows. */
  lemma EnclosedAfterCall(s: PState, t: PState)
    requires UnaryOpRule(s) == Ok(Step(false, s)) && FunctionCallRule(s) == Ok(Step(false, t))
    requires ParenthesesRule(t) == Ok(Step(false, t))
    requires ConstantRule(t).Ok? ==> ConstantRule(t).value.matched
    ensures EnclosedRule(s) == ConstantRule(t)
  {
  }

  /** Token `i` ends a chain of priority `p`: it is no operator, or a
      one-token operator of priority number above `p`. */
  predicate EndsChain(tokens: seq<Token>, i: nat, p: nat) {
    || NoOperatorAt(tokens, i)
    || (&& i + 1 < |tokens| && tokens[i + 1] != tokens[i]
        && SingleOp(tokens[i]).Some? && SingleOp(tokens[i]).value.1 > p)
  }

  /** A chain of priority `p` whose first operand is staged in `x` ends
      there, consuming nothing more, exactly when the next operator is
      missing or has priority number above `p`. */
  lemma ChainTailStops(x: PState, p: nat)
    requires BinaryOpRule(StashStateSpec(x)).Ok?
    ensures var op := BinaryOpRule(StashStateSpec(x)).value.0;
            (op.None? || op.value.1 > p) <==> ChainTail(x, p) == Ok(Step(true, x.(stashed := x.cur)))
  {
    var (op, b1) := BinaryOpRule(StashStateSpec(x)).value;
    if op.None? || op.value.1 > p {
      assert RollbackStateSpec(b1) == x.(stashed := x.cur);
    } else if ChainTail(x, p).Ok? {
      assert ChainTail(x, p).value.state.cur.tokenI >= b1.cur.tokenI;
    }
  }

  /** A chain ends where the tokens say it does. */
  lemma EndsChainStops(x: PState, p: nat)
    requires EndsChain(x.tokens, x.cur.tokenI, p)
    ensures ChainTail(x, p) == Ok(Step(true, x.(stashed := x.cur)))
  {
    ChainTailStops(x, p);
  }

  /** A constant that ends its chain is the whole chain. */
  lemma ChainConstant(w: PState, p: nat)
    requires Good(w) && w.cur.tokenI < |w.tokens| && w.tokens[w.cur.tokenI].Constant?
    requires EndsChain(w.tokens, w.cur.tokenI + 1, p)
    requires |w.stack| + 2 <= w.maxStack && |w.children| < w.maxChildren
    ensures var r := ChainRule(w, p);
            && r.Ok? && r.value.matched && r.value.state.cur.tokenI == w.cur.tokenI + 1
            && Built(w, r.value.state, Leaf(w.tokens[w.cur.tokenI].constant))
  {
    ConstantOperand(w);
    var z := EnclosedRule(w).value.state;
    EndsChainStops(z, p);
    CommittedStashed(w, z, z.cur);
  }
  // ---------------------------------------------------------------- one binary operation

  /** The state of a binary step: after the left operand committed in `x`
      (inside a rule started at `s`) and the right operand committed from
      `w` to `t`, the last two staged entries are the two operand roots. */
  lemma StepInside(s: PState, x: PState, b1: PState, w: PState, t: PState)
    requires Good(s) && Committed(s, x)
    requires b1 == StashStateSpec(x).(cur := x.cur.(tokenI := b1.cur.tokenI)) && x.cur.tokenI < b1.cur.tokenI <= |x.tokens|
    requires StartNodeWithPrevSpec(b1, 1) == Ok(w) && Committed(w, t)
    ensures Inside(s, t) && s.cur.tokenI < t.cur.tokenI && |t.children| == |s.children| + 2
    ensures t.children[|s.children|] == x.cur.nodeI - 1 && t.children[|s.children| + 1] == t.cur.nodeI - 1
    ensures forall m :: 0 <= m < x.cur.nodeI ==> t.nodes[m] == x.nodes[m]
  {
    var top := Top(w);
    assert Grew(Checkpointed(s, top), w);
    GrewTrans(Checkpointed(s, top), w, t);
  }

  /** Confirming a node over two staged operands `a` then `b`: the node
      links to `a`, `a` to `b`, `b` to nothing, and no other node below it
      changes except the sibling link of `a`. */
  lemma AcceptPair(s: PState, t: PState, c: Construct)
    requires Inside(s, t) && |s.children| < s.maxChildren && |t.children| == |s.children| + 2
    ensures Accept(t, c).Ok?
    ensures var u := Accept(t, c).value.state;
            var i := t.cur.nodeI;
            var a := t.children[|s.children|];
            var b := t.children[|s.children| + 1];
            && u.cur == t.cur.(nodeI := i + 1, childI := s.cur.childI + 1) && i < |u.nodes|
            && u.nodes[i].construct == c && u.nodes[i].child == Some(a)
            && u.nodes[a].next == Some(b) && u.nodes[b].next == None
            && u.nodes[a].construct == t.nodes[a].construct && u.nodes[a].child == t.nodes[a].child
            && forall m :: 0 <= m < i && m != a ==> u.nodes[m] == t.nodes[m]
  {
    var kids := t.children[|s.children|..];
    ConfirmShape(s, t, c);
    ConfirmLaw(s, t, c);
    StagedKids(s, t);
    SetNodeFacts(t.nodes, t.cur.nodeI, c, kids);
    assert kids == [t.children[|s.children|], t.children[|s.children| + 1]];
  }

  /** The arena view of one binary step: node `i` over `a` (spelling `l`)
      and `b` (spelling `r`, from nodes after `a`) spells the operation. */
  lemma Combine(n1: seq<Node>, n2: seq<Node>, i: nat, a: nat, b: nat, lo: nat, op: BinaryOp, l: Term, r: Term)
    requires a < b < i <= |n1| && i < |n2|
    requires ShowsIn(n1, a, l, lo) && ShowsIn(n1, b, r, a + 1)
    requires n2[i].construct == Construct.Expression(ExpressionKind.BinaryOp(op)) && n2[i].child == Some(a)
    requires n2[a].next == Some(b) && n2[b].next == None
    requires n2[a].construct == n1[a].construct && n2[a].child == n1[a].child
    requires forall m :: 0 <= m < i && m != a ==> n2[m] == n1[m]
    ensures ShowsIn(n2, i, Bin(op, l, r), lo)
  {
    ShowsKept(n1, n2, a, l, lo);
    ShowsKept(n1, n2, b, r, a + 1);
    ShowsWiden(n2, b, r, a + 1, lo);
  }

  /** After a binary step's two operands, the two staged roots spell the
      left and the right operand. */
  lemma OperandsShown(s: PState, x: PState, b1: PState, w: PState, t: PState, l: Term, r: Term)
    requires Good(s) && Built(s, x, l)
    requires b1 == StashStateSpec(x).(cur := x.cur.(tokenI := b1.cur.tokenI)) && x.cur.tokenI < b1.cur.tokenI <= |x.tokens|
    requires StartNodeWithPrevSpec(b1, 1) == Ok(w) && Built(w, t, r)
    ensures Inside(s, t) && |t.children| == |s.children| + 2
    ensures t.children[|s.children|] == x.cur.nodeI - 1 && t.children[|s.children| + 1] == t.cur.nodeI - 1
    ensures ShowsIn(t.nodes, x.cur.nodeI - 1, l, s.cur.nodeI) && ShowsIn(t.nodes, t.cur.nodeI - 1, r, x.cur.nodeI)
  {
    StepInside(s, x, b1, w, t);
    ShowsKept(x.nodes, t.nodes, x.cur.nodeI - 1, l, s.cur.nodeI);
  }

  /** Confirming a binary node over two staged roots that spell `l` and `r`
      spells the operation. */
  lemma PairShows(s: PState, t: PState, op: BinaryOp, l: Term, r: Term)
    requires Inside(s, t) && |s.children| < s.maxChildren && |t.children| == |s.children| + 2
    requires t.children[|s.children| + 1] == t.cur.nodeI - 1
    requires ShowsIn(t.nodes, t.children[|s.children|], l, s.cur.nodeI)
    requires ShowsIn(t.nodes, t.cur.nodeI - 1, r, t.children[|s.children|] + 1)
    ensures var e := Accept(t, Construct.Expression(ExpressionKind.BinaryOp(op)));
            && e.Ok? && e.value.state.cur.tokenI == t.cur.tokenI && e.value.state.cur.nodeI == t.cur.nodeI + 1
            && ShowsIn(e.value.state.nodes, t.cur.nodeI, Bin(op, l, r), s.cur.nodeI)
  {
    var c := Construct.Expression(ExpressionKind.BinaryOp(op));
    AcceptPair(s, t, c);
    var u := Accept(t, c).value.state;
    var i, a, b := t.cur.nodeI, t.children[|s.children|], t.cur.nodeI - 1;
    // Combine's preconditions, one at a time
    assert a < b < i <= |t.nodes| && i < |u.nodes|;
    assert u.nodes[i].construct == c && u.nodes[i].child == Some(a);
    assert u.nodes[a].next == Some(b) && u.nodes[b].next == None;
    assert u.nodes[a].construct == t.nodes[a].construct && u.nodes[a].child == t.nodes[a].child;
    assert forall m :: 0 <= m < i && m != a ==> u.nodes[m] == t.nodes[m];
    Combine(t.nodes, u.nodes, i, a, b, s.cur.nodeI, op, l, r);
  }

  /** The node a binary step confirms spells the operation over the two
      operand terms. */
  lemma BinaryShows(s: PState, x: PState, b1: PState, w: PState, t: PState, op: BinaryOp, l: Term, r: Term)
    requires Good(s) && Built(s, x, l)
    requires b1 == StashStateSpec(x).(cur := x.cur.(tokenI := b1.cur.tokenI)) && x.cur.tokenI < b1.cur.tokenI <= |x.tokens|
    requires StartNodeWithPrevSpec(b1, 1) == Ok(w) && Built(w, t, r)
    requires |s.children| < s.maxChildren
    ensures var e := Accept(t, Construct.Expression(ExpressionKind.BinaryOp(op)));
            && e.Ok? && e.value.state.cur.tokenI == t.cur.tokenI && e.value.state.cur.nodeI == t.cur.nodeI + 1
            && ShowsIn(e.value.state.nodes, t.cur.nodeI, Bin(op, l, r), s.cur.nodeI)
  {
    OperandsShown(s, x, b1, w, t, l, r);
    PairShows(s, t, op, l, r);
  }

  /** A binary step builds the operation over the two operand terms. */
  lemma BinaryKids(s: PState, x: PState, b1: PState, w: PState, t: PState, op: BinaryOp, l: Term, r: Term)
    requires Good(s) && Built(s, x, l)
    requires b1 == StashStateSpec(x).(cur := x.cur.(tokenI := b1.cur.tokenI)) && x.cur.tokenI < b1.cur.tokenI <= |x.tokens|
    requires StartNodeWithPrevSpec(b1, 1) == Ok(w) && Built(w, t, r)
    requires |s.children| < s.maxChildren
    ensures var e := Accept(t, Construct.Expression(ExpressionKind.BinaryOp(op)));
            e.Ok? && e.value.state.cur.tokenI == t.cur.tokenI && Built(s, e.value.state, Bin(op, l, r))
  {
    BinaryShows(s, x, b1, w, t, op, l, r);
    BinaryStep(s, x, b1, w, t, op);
  }

  /** Token `i` is a one-token binary operator, read as such because the
      token after it is a different one. */
  predicate OneTokenOperator(tokens: seq<Token>, i: nat) {
    i + 1 < |tokens| && tokens[i + 1] != tokens[i] && SingleOp(tokens[i]).Some?
  }

  /** An operator token followed by a constant is read as a one-token operator. */
  lemma OperatorBeforeConstant(tokens: seq<Token>, i: nat)
    requires i + 1 < |tokens| && SingleOp(tokens[i]).Some? && tokens[i + 1].Constant?
    ensures OneTokenOperator(tokens, i)
  {
  }

  /** One round of a chain of priority `p`: after the operand `l` committed
      in `x`, an operator binding no looser than `p`, whose right chain builds
      `r` (from `w` to `t`). */
  lemma TailStep(s: PState, x: PState, w: PState, t: PState, p: nat, l: Term, r: Term)
    requires Good(s) && Built(s, x, l) && |s.children| < s.maxChildren
    requires OneTokenOperator(x.tokens, x.cur.tokenI) && SingleOp(x.tokens[x.cur.tokenI]).value.1 <= p
    requires StartNodeWithPrevSpec(Advance(StashStateSpec(x)), 1) == Ok(w)
    requires var e := ChainRule(w, SingleOp(x.tokens[x.cur.tokenI]).value.1);
             e.Ok? && e.value.matched && e.value.state == t && Built(w, t, r)
    ensures var op := SingleOp(x.tokens[x.cur.tokenI]).value.0;
            var e := ChainTail(x, p);
            && e == Accept(t, Construct.Expression(ExpressionKind.BinaryOp(op)))
            && e.Ok? && e.value.state.cur.tokenI == t.cur.tokenI && Built(s, e.value.state, Bin(op, l, r))
  {
    var o := x.tokens[x.cur.tokenI];
    var b := StashStateSpec(x);
    assert BinaryOpRule(b) == Ok((SingleOp(o), Advance(b)));
    BinaryKids(s, x, Advance(b), w, t, SingleOp(o).value.0, l, r);
  }

  /** One round of the expression loop: after the expression `l` so far,
      committed in `x`, an operator whose right chain builds `r` (from `w`
      to `t`); the loop goes on from the operation node. */
  lemma LoopStep(s: PState, x: PState, w: PState, t: PState, l: Term, r: Term)
    requires Good(s) && Built(s, x, l) && |s.children| < s.maxChildren
    requires OneTokenOperator(x.tokens, x.cur.tokenI)
    requires StartNodeWithPrevSpec(Advance(StashStateSpec(x)), 1) == Ok(w)
    requires var e := ChainRule(w, SingleOp(x.tokens[x.cur.tokenI]).value.1);
             e.Ok? && e.value.matched && e.value.state == t && Built(w, t, r)
    ensures var op := SingleOp(x.tokens[x.cur.tokenI]).value.0;
            var e := Accept(t, Construct.Expression(ExpressionKind.BinaryOp(op)));
            && e.Ok? && e.value.state.cur.tokenI == t.cur.tokenI && Built(s, e.value.state, Bin(op, l, r))
            && ExpressionLoop(x) == ExpressionLoop(e.value.state)
  {
    var o := x.tokens[x.cur.tokenI];
    var b := StashStateSpec(x);
    assert BinaryOpRule(b) == Ok((SingleOp(o), Advance(b)));
    BinaryKids(s, x, Advance(b), w, t, SingleOp(o).value.0, l, r);
  }

  /** A constant, a one-token operator binding no looser than the chain, and
      a constant that ends the inner chain: the chain is that one operation. */
  lemma ChainOperator(w: PState, p: nat)
    requires Good(w)
    requires var j := w.cur.tokenI;
             && j + 3 < |w.tokens| && w.tokens[j].Constant? && w.tokens[j + 2].Constant?
             && SingleOp(w.tokens[j + 1]).Some? && SingleOp(w.tokens[j + 1]).value.1 <= p
             && EndsChain(w.tokens, j + 3, SingleOp(w.tokens[j + 1]).value.1)
    requires |w.stack| + 3 <= w.maxStack && |w.children| + 1 < w.maxChildren
    ensures var j := w.cur.tokenI;
            var r := ChainRule(w, p);
            && r.Ok? && r.value.matched && r.value.state.cur.tokenI == j + 3
            && Built(w, r.value.state, Bin(SingleOp(w.tokens[j + 1]).value.0,
                                          Leaf(w.tokens[j].constant), Leaf(w.tokens[j + 2].constant)))
  {
    var j := w.cur.tokenI;
    var q := SingleOp(w.tokens[j + 1]).value.1;
    ConstantOperand(w);
    var y := EnclosedRule(w).value.state;
    assert ChainRule(w, p) == ChainTail(y, p);
    assert y.tokens[y.cur.tokenI] == w.tokens[j + 1];
    var w2 := StartNodeWithPrevSpec(Advance(StashStateSpec(y)), 1).value;
    ChainConstant(w2, q);
    var t := ChainRule(w2, q).value.state;
    OperatorBeforeConstant(w.tokens, j + 1);
    TailStep(w, y, w2, t, p, Leaf(w.tokens[j].constant), Leaf(w.tokens[j + 2].constant));
  }

  // ---------------------------------------------------------------- `a op b op c`

  /** Three constants joined by two one-token operators, then a token that
      is no operator. */
  predicate ThreeTerms(tokens: seq<Token>, i: nat) {
    && i + 5 < |tokens|
    && tokens[i].Constant? && tokens[i + 2].Constant? && tokens[i + 4].Constant?
    && SingleOp(tokens[i + 1]).Some? && SingleOp(tokens[i + 3]).Some?
    && NoOperatorAt(tokens, i + 5)
  }

  /** `a op1 (b op2 c)`. */
  function RightGrouped(tokens: seq<Token>, i: nat): Term
    requires ThreeTerms(tokens, i)
  {
    Bin(SingleOp(tokens[i + 1]).value.0, Leaf(tokens[i].constant),
        Bin(SingleOp(tokens[i + 3]).value.0, Leaf(tokens[i + 2].constant), Leaf(tokens[i + 4].constant)))
  }

  /** `(a op1 b) op2 c`. */
  function LeftGrouped(tokens: seq<Token>, i: nat): Term
    requires ThreeTerms(tokens, i)
  {
    Bin(SingleOp(tokens[i + 3]).value.0,
        Bin(SingleOp(tokens[i + 1]).value.0, Leaf(tokens[i].constant), Leaf(tokens[i + 2].constant)),
        Leaf(tokens[i + 4].constant))
  }

  /** The stashed cursor plays no part in what a state built. */
  lemma StashedBuilt(s: PState, u: PState, t: Term)
    requires Built(s, u, t)
    ensures Built(s, u.(stashed := u.cur), t)
  {
    CommittedStashed(s, u, u.cur);
  }

  /** An expression whose first operand committed in `x` is whatever the
      loop makes of it. */
  lemma ExpressionFrom(s: PState, x: PState)
    requires EnclosedRule(s) == Ok(Step(true, x)) && ExpressionLoop(x).Ok?
    ensures ExpressionRule(s) == Ok(Step(true, ExpressionLoop(x).value))
  {
  }

  /** When the second operator binds no looser (an equal or lower priority
      number), the expression is `a op1 (b op2 c)`: the second operation is
      the right operand of the first. */
  lemma GroupsRight(s: PState)
    requires Good(s) && ThreeTerms(s.tokens, s.cur.tokenI)
    requires SingleOp(s.tokens[s.cur.tokenI + 3]).value.1 <= SingleOp(s.tokens[s.cur.tokenI + 1]).value.1
    requires |s.stack| + 4 <= s.maxStack && |s.children| + 2 < s.maxChildren
    ensures var r := ExpressionRule(s);
            && r.Ok? && r.value.matched && r.value.state.cur.tokenI == s.cur.tokenI + 5
            && Built(s, r.value.state, RightGrouped(s.tokens, s.cur.tokenI))
  {
    var i := s.cur.tokenI;
    var (op1, q1) := SingleOp(s.tokens[i + 1]).value;
    var a := Leaf(s.tokens[i].constant);
    var right := Bin(SingleOp(s.tokens[i + 3]).value.0, Leaf(s.tokens[i + 2].constant), Leaf(s.tokens[i + 4].constant));
    ConstantOperand(s);
    var x := EnclosedRule(s).value.state;
    assert x.tokens[x.cur.tokenI] == s.tokens[i + 1];
    var w := StartNodeWithPrevSpec(Advance(StashStateSpec(x)), 1).value;
    assert w.tokens == s.tokens && w.cur.tokenI == i + 2;
    ChainOperator(w, q1);
    var m := ChainRule(w, q1).value.state;
    OperatorBeforeConstant(s.tokens, i + 1);
    LoopStep(s, x, w, m, a, right);
    var u := Accept(m, Construct.Expression(ExpressionKind.BinaryOp(op1))).value.state;
    LastRound(s, x, u, Bin(op1, a, right));
    assert RightGrouped(s.tokens, i) == Bin(op1, a, right);
  }

  /** An expression whose loop, after the first operand committed in `x`,
      reaches `u` with no operator after it, is what `u` built. */
  lemma LastRound(s: PState, x: PState, u: PState, t: Term)
    requires EnclosedRule(s) == Ok(Step(true, x)) && ExpressionLoop(x) == ExpressionLoop(u)
    requires NoOperatorAt(u.tokens, u.cur.tokenI) && Built(s, u, t)
    ensures var r := ExpressionRule(s);
            && r.Ok? && r.value.matched && r.value.state.cur.tokenI == u.cur.tokenI
            && Built(s, r.value.state, t)
  {
    ExpressionLoopStops(u);
    StashedBuilt(s, u, t);
    ExpressionFrom(s, x);
  }

  /** When the second operator binds looser (a larger priority number), the
      expression is `(a op1 b) op2 c`. */
  lemma GroupsLeft(s: PState)
    requires Good(s) && ThreeTerms(s.tokens, s.cur.tokenI)
    requires SingleOp(s.tokens[s.cur.tokenI + 3]).value.1 > SingleOp(s.tokens[s.cur.tokenI + 1]).value.1
    requires |s.stack| + 3 <= s.maxStack && |s.children| + 1 < s.maxChildren
    ensures var r := ExpressionRule(s);
            && r.Ok? && r.value.matched && r.value.state.cur.tokenI == s.cur.tokenI + 5
            && Built(s, r.value.state, LeftGrouped(s.tokens, s.cur.tokenI))
  {
    var i := s.cur.tokenI;
    var (op1, q1) := SingleOp(s.tokens[i + 1]).value;
    var a := Leaf(s.tokens[i].constant);
    var b := Leaf(s.tokens[i + 2].constant);
    ConstantOperand(s);
    var x := EnclosedRule(s).value.state;
    assert x.tokens[x.cur.tokenI] == s.tokens[i + 1];
    var w := StartNodeWithPrevSpec(Advance(StashStateSpec(x)), 1).value;
    OperatorBeforeConstant(s.tokens, i + 3);
    ChainConstant(w, q1);
    var t1 := ChainRule(w, q1).value.state;
    OperatorBeforeConstant(s.tokens, i + 1);
    LoopStep(s, x, w, t1, a, b);
    var u0 := Accept(t1, Construct.Expression(ExpressionKind.BinaryOp(op1))).value.state;
    SecondRound(s, u0, Bin(op1, a, b));
    ExpressionFrom(s, x);
  }

  /** The second round of `(a op1 b) op2 c`, from the first operation
      committed in `u0`. */
  lemma SecondRound(s: PState, u0: PState, left: Term)
    requires Good(s) && Built(s, u0, left) && ThreeTerms(s.tokens, s.cur.tokenI)
    requires u0.cur.tokenI == s.cur.tokenI + 3
    requires |s.stack| + 3 <= s.maxStack && |s.children| + 1 < s.maxChildren
    ensures var r := ExpressionLoop(u0);
            && r.Ok? && r.value.cur.tokenI == s.cur.tokenI + 5
            && Built(s, r.value, Bin(SingleOp(s.tokens[s.cur.tokenI + 3]).value.0, left, Leaf(s.tokens[s.cur.tokenI + 4].constant)))
  {
    var i := s.cur.tokenI;
    var (op2, q2) := SingleOp(s.tokens[i + 3]).value;
    var c := Leaf(s.tokens[i + 4].constant);
    assert u0.tokens[u0.cur.tokenI] == s.tokens[i + 3];
    var w := StartNodeWithPrevSpec(Advance(StashStateSpec(u0)), 1).value;
    ChainConstant(w, q2);
    var t2 := ChainRule(w, q2).value.state;
    OperatorBeforeConstant(s.tokens, i + 3);
    LoopStep(s, u0, w, t2, left, c);
    var u1 := Accept(t2, Construct.Expression(ExpressionKind.BinaryOp(op2))).value.state;
    ExpressionLoopStops(u1);
    StashedBuilt(s, u1, Bin(op2, left, c));
  }

  /** `1 + 2 * 3` is `1 + (2 * 3)`. */
  lemma AddThenMultiply(s: PState)
    requires Good(s) && s.cur.tokenI + 5 < |s.tokens|
    requires var i := s.cur.tokenI;
             && s.tokens[i] == Token.Constant(Int(1)) && s.tokens[i + 1] == Plus
             && s.tokens[i + 2] == Token.Constant(Int(2)) && s.tokens[i + 3] == Asterisk
             && s.tokens[i + 4] == Token.Constant(Int(3)) && s.tokens[i + 5] == Semicolon
    requires |s.stack| + 4 <= s.maxStack && |s.children| + 2 < s.maxChildren
    ensures var r := ExpressionRule(s);
            && r.Ok? && r.value.matched && r.value.state.cur.tokenI == s.cur.tokenI + 5
            && Built(s, r.value.state, Bin(Add, Leaf(Int(1)), Bin(Multiply, Leaf(Int(2)), Leaf(Int(3)))))
  {
    var i := s.cur.tokenI;
    assert ThreeTerms(s.tokens, i);
    GroupsRight(s);
    assert RightGrouped(s.tokens, i) == Bin(Add, Leaf(Int(1)), Bin(Multiply, Leaf(Int(2)), Leaf(Int(3))));
  }

  /** `1 * 2 + 3` is `(1 * 2) + 3`. */
  lemma MultiplyThenAdd(s: PState)
    requires Good(s) && s.cur.tokenI + 5 < |s.tokens|
    requires var i := s.cur.tokenI;
             && s.tokens[i] == Token.Constant(Int(1)) && s.tokens[i + 1] == Asterisk
             && s.tokens[i + 2] == Token.Constant(Int(2)) && s.tokens[i + 3] == Plus
             && s.tokens[i + 4] == Token.Constant(Int(3)) && s.tokens[i + 5] == Semicolon
    requires |s.stack| + 3 <= s.maxStack && |s.children| + 1 < s.maxChildren
    ensures var r := ExpressionRule(s);
            && r.Ok? && r.value.matched && r.value.state.cur.tokenI == s.cur.tokenI + 5
            && Built(s, r.value.state, Bin(Add, Bin(Multiply, Leaf(Int(1)), Leaf(Int(2))), Leaf(Int(3))))
  {
    var i := s.cur.tokenI;
    assert ThreeTerms(s.tokens, i);
    GroupsLeft(s);
    assert LeftGrouped(s.tokens, i) == Bin(Add, Bin(Multiply, Leaf(Int(1)), Leaf(Int(2))), Leaf(Int(3)));
  }

  /** `1 - 2 - 3` is `1 - (2 - 3)`: operators of one priority associate to
      the right. */
  lemma SubtractionsGroupRight(s: PState)
    requires Good(s) && s.cur.tokenI + 5 < |s.tokens|
    requires var i := s.cur.tokenI;
             && s.tokens[i] == Token.Constant(Int(1)) && s.tokens[i + 1] == Minus
             && s.tokens[i + 2] == Token.Constant(Int(2)) && s.tokens[i + 3] == Minus
             && s.tokens[i + 4] == Token.Constant(Int(3)) && s.tokens[i + 5] == Semicolon
    requires |s.stack| + 4 <= s.maxStack && |s.children| + 2 < s.maxChildren
    ensures var r := ExpressionRule(s);
            && r.Ok? && r.value.matched && r.value.state.cur.tokenI == s.cur.tokenI + 5
            && Built(s, r.value.state, Bin(Subtract, Leaf(Int(1)), Bin(Subtract, Leaf(Int(2)), Leaf(Int(3)))))
  {
    var i := s.cur.tokenI;
    assert ThreeTerms(s.tokens, i);
    GroupsRight(s);
    assert RightGrouped(s.tokens, i) == Bin(Subtract, Leaf(Int(1)), Bin(Subtract, Leaf(Int(2)), Leaf(Int(3))));
  }
}
