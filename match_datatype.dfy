/** The type grammar: optional `mut` qualifiers, then either `&` and a nested
    type (a pointer) or a primitive keyword or a type name (a terminal). */
module MatchDatatype {
  import opened Outcomes
  import opened Tokens
  import opened Constructs
  import opened Trees
  import opened Parsing
  import opened MatchCommon

  /** The primitive a keyword names, if it names one. */
  function PrimitiveOf(k: Keyword): (r: Option<Primitive>)
    ensures r.None? <==> k in {Keyword.Mut, Keyword.Return, Keyword.Function, Keyword.Struct}
  {
    match k
    case U8 => Some(Primitive.U8)
    case U16 => Some(Primitive.U16)
    case U32 => Some(Primitive.U32)
    case U64 => Some(Primitive.U64)
    case I8 => Some(Primitive.I8)
    case I16 => Some(Primitive.I16)
    case I32 => Some(Primitive.I32)
    case I64 => Some(Primitive.I64)
    case F32 => Some(Primitive.F32)
    case F64 => Some(Primitive.F64)
    case C8 => Some(Primitive.C8)
    case _ => None
  }

  predicate IsPrimitiveToken(t: Token) {
    t.Keyword? && PrimitiveOf(t.keyword).Some?
  }

  predicate IsTerminalToken(t: Token) {
    IsPrimitiveToken(t) || t.Identifier?
  }

  /** The leaf a terminal token becomes. */
  function TerminalNode(t: Token): Node
    requires IsTerminalToken(t)
  {
    if t.Identifier? then Node(Construct.Identifier(t.name), None, None)
    else Node(Construct.Primitive(PrimitiveOf(t.keyword).value), None, None)
  }

  /** The first position at or after `i` that does not hold a `mut` keyword. */
  function SkipMut(tokens: seq<Token>, i: nat): (j: nat)
    requires i <= |tokens|
    ensures i <= j <= |tokens|
    ensures forall k :: i <= k < j ==> tokens[k] == Token.Keyword(Keyword.Mut)
    ensures j < |tokens| ==> tokens[j] != Token.Keyword(Keyword.Mut)
    decreases |tokens| - i
  {
    if i < |tokens| && tokens[i] == Token.Keyword(Keyword.Mut) then SkipMut(tokens, i + 1) else i
  }

  // ---------------------------------------------------------------- rules

  function QualifierRule(s: PState): (r: Result<Step>)
    ensures Moved(s, r)
  {
    var s1 :- StartNodeSpec(s);
    var (token, s2) :- ConsumeTokenSpec(s1);
    if token != Token.Keyword(Keyword.Mut) then Reject(s2)
    else Accept(s2, Construct.Qualifier(Qualifier.Mut))
  }

  function PrimitiveRule(s: PState): (r: Result<Step>)
    ensures Moved(s, r)
  {
    var s1 :- StartNodeSpec(s);
    var (token, s2) :- ConsumeTokenSpec(s1);
    if !IsPrimitiveToken(token) then Reject(s2)
    else Accept(s2, Construct.Primitive(PrimitiveOf(token.keyword).value))
  }

  /** A primitive keyword, failing that a type name. */
  function TerminalRule(s: PState): (r: Result<Step>)
    ensures Moved(s, r)
  {
    var p :- PrimitiveRule(s);
    if p.matched then Ok(p) else IdentifierRule(p.state)
  }

  /** Any number of `mut` qualifiers, each staged as a `Qualifier` node. */
  function QualifierLoop(s: PState): (r: Result<PState>)
    ensures r.Ok? ==> r.value.tokens == s.tokens && r.value.stack == s.stack
                      && s.cur.tokenI <= r.value.cur.tokenI
    decreases |s.tokens| - s.cur.tokenI
  {
    var q :- QualifierRule(s);
    if q.matched then QualifierLoop(q.state) else Ok(q.state)
  }

  /** A type: qualifiers, then `&` and a nested type, or a terminal. */
  function DatatypeRule(s: PState): (r: Result<Step>)
    ensures Moved(s, r)
    decreases |s.tokens| - s.cur.tokenI, 1
  {
    var s1 :- StartNodeSpec(s);
    var s2 :- QualifierLoop(s1);
    DatatypeTail(s, s2)
  }

  /** The part of the type rule after the qualifiers, from state `s2`. */
  function DatatypeTail(s: PState, s2: PState): (r: Result<Step>)
    requires s2.tokens == s.tokens && s2.stack == s.stack + [s.cur] && s.cur.tokenI <= s2.cur.tokenI
    ensures Moved(s, r)
    decreases |s.tokens| - s.cur.tokenI, 0
  {
    var token :- PeekTokenSpec(s2);
    if token == Ampersand then
      var s3 := ConsumeTokenSpec(s2).value.1;
      var inner :- DatatypeRule(s3);
      if !inner.matched then Fatal("Expected data type after &")
      else Accept(inner.state, Construct.Datatype(Pointer))
    else
      var t :- TerminalRule(s2);
      if !t.matched then Reject(t.state)
      else Accept(t.state, Construct.Datatype(Terminal))
  }

  // ---------------------------------------------------------------- laws

  /** The qualifier rule matches exactly the keyword `mut`, committing one
      childless `Qualifier(Mut)` node for it; on any other token the state is
      exactly as before. */
  lemma QualifierLaw(s: PState)
    requires Good(s)
    ensures var r := QualifierRule(s);
            && Law(s, r)
            && (r.Ok? <==> |s.stack| < s.maxStack && s.cur.tokenI < |s.tokens|
                           && (s.tokens[s.cur.tokenI] == Token.Keyword(Keyword.Mut) ==> |s.children| < s.maxChildren))
            && (r.Ok? ==> (r.value.matched <==> s.tokens[s.cur.tokenI] == Token.Keyword(Keyword.Mut)))
            && (r.Ok? && r.value.matched ==>
                  && r.value.state.cur.tokenI == s.cur.tokenI + 1
                  && Root(r.value.state) == Node(Construct.Qualifier(Qualifier.Mut), None, None))
            && (r.Ok? && !r.value.matched ==> r.value.state == s)
  {
    if |s.stack| < s.maxStack && s.cur.tokenI < |s.tokens| {
      LeafLaw(s, Construct.Qualifier(Qualifier.Mut));
    }
  }

  /** The primitive rule matches exactly the eleven primitive keywords, each
      committing the same-named `Primitive` leaf; on any other token the
      state is exactly as before. */
  lemma PrimitiveLaw(s: PState)
    requires Good(s)
    ensures var r := PrimitiveRule(s);
            && Law(s, r)
            && (r.Ok? <==> |s.stack| < s.maxStack && s.cur.tokenI < |s.tokens|
                           && (IsPrimitiveToken(s.tokens[s.cur.tokenI]) ==> |s.children| < s.maxChildren))
            && (r.Ok? ==> (r.value.matched <==> IsPrimitiveToken(s.tokens[s.cur.tokenI])))
            && (r.Ok? && r.value.matched ==>
                  && r.value.state.cur.tokenI == s.cur.tokenI + 1
                  && Root(r.value.state) == TerminalNode(s.tokens[s.cur.tokenI]))
            && (r.Ok? && !r.value.matched ==> r.value.state == s)
  {
    if |s.stack| < s.maxStack && s.cur.tokenI < |s.tokens| {
      var token := s.tokens[s.cur.tokenI];
      if IsPrimitiveToken(token) {
        LeafLaw(s, Construct.Primitive(PrimitiveOf(token.keyword).value));
      } else {
        DiscardAfterConsume(s);
      }
    }
  }

  /** A terminal is a primitive keyword or an identifier, the keyword tried
      first; it becomes the matching leaf. */
  lemma TerminalLaw(s: PState)
    requires Good(s)
    ensures var r := TerminalRule(s);
            && Law(s, r)
            && (r.Ok? ==> s.cur.tokenI < |s.tokens|)
            && (r.Ok? ==> (r.value.matched <==> IsTerminalToken(s.tokens[s.cur.tokenI])))
            && (r.Ok? && r.value.matched ==>
                  && r.value.state.cur.tokenI == s.cur.tokenI + 1
                  && Root(r.value.state) == TerminalNode(s.tokens[s.cur.tokenI]))
            && (r.Ok? && !r.value.matched ==> r.value.state == s)
            && (r.Ok? && IsPrimitiveToken(s.tokens[s.cur.tokenI]) ==> r == PrimitiveRule(s))
  {
    PrimitiveLaw(s);
    IdentifierLaw(s);
  }

  /** After the qualifier loop the cursor is on the first token that is not
      `mut`, and one node is staged for each qualifier read. */
  lemma {:induction false} QualifierLoopLaw(s: PState)
    requires Good(s)
    ensures var r := QualifierLoop(s);
            r.Ok? ==>
              && Grew(s, r.value)
              && r.value.cur.tokenI == SkipMut(s.tokens, s.cur.tokenI) < |s.tokens|
              && |r.value.children| - |s.children| == r.value.cur.tokenI - s.cur.tokenI
    decreases |s.tokens| - s.cur.tokenI
  {
    QualifierLaw(s);
    var q := QualifierRule(s);
    if q.Ok? && q.value.matched {
      var t := q.value.state;
      QualifierLoopLaw(t);
      if QualifierLoop(t).Ok? {
        GrewTrans(s, t, QualifierLoop(t).value);
      }
    }
  }

  /** Each qualifier the loop reads is staged, in order, as a `Qualifier` leaf. */
  lemma {:induction false} QualifierLoopStaged(s: PState)
    requires Good(s)
    ensures var r := QualifierLoop(s);
            r.Ok? ==>
              && Grew(s, r.value)
              && forall k :: |s.children| <= k < |r.value.children| ==>
                   r.value.nodes[r.value.children[k]].construct == Construct.Qualifier(Qualifier.Mut)
    decreases |s.tokens| - s.cur.tokenI
  {
    QualifierLoopLaw(s);
    QualifierLaw(s);
    var q := QualifierRule(s);
    if q.Ok? && q.value.matched {
      var t := q.value.state;
      QualifierLoopStaged(t);
      var r := QualifierLoop(t);
      if r.Ok? {
        assert t.children[|s.children|] == t.cur.nodeI - 1;
        assert r.value.children[..|t.children|] == t.children;
        assert r.value.children[|s.children|] == t.children[|s.children|];
      }
    }
  }

  /** The type rule obeys the rule law. The node is `Datatype(Pointer)`
      exactly when the first token after the qualifiers is `&` (an `&`
      without a type after it is fatal), and `Datatype(Terminal)` when that
      token is a terminal; on any other token the rule does not match. */
  lemma {:induction false} DatatypeLaw(s: PState)
    requires Good(s)
    ensures var r := DatatypeRule(s);
            && Law(s, r)
            && (r.Ok? ==> SkipMut(s.tokens, s.cur.tokenI) < |s.tokens|)
            && (r.Ok? ==> DatatypeOutcome(s.tokens[SkipMut(s.tokens, s.cur.tokenI)], r.value))
    decreases |s.tokens| - s.cur.tokenI, 1
  {
    if StartNodeSpec(s).Ok? {
      var s1 := StartNodeSpec(s).value;
      QualifierLoopLaw(s1);
      if QualifierLoop(s1).Ok? {
        var s2 := QualifierLoop(s1).value;
        assert DatatypeRule(s) == DatatypeTail(s, s2);
        DatatypeTailLaw(s, s2);
      }
    }
  }

  /** How a type rule ended, given the first token after its qualifiers. */
  predicate DatatypeOutcome(head: Token, step: Step) {
    && (head == Ampersand ==> step.matched)
    && (IsTerminalToken(head) ==> step.matched)
    && (step.matched ==>
          && (head == Ampersand || IsTerminalToken(head))
          && 0 < step.state.cur.nodeI <= |step.state.nodes|
          && Root(step.state).construct == Construct.Datatype(if head == Ampersand then Pointer else Terminal))
  }

  lemma {:induction false} DatatypeTailLaw(s: PState, s2: PState)
    requires Inside(s, s2) && Top(s2) == s.cur
    ensures var r := DatatypeTail(s, s2);
            && Law(s, r)
            && (r.Ok? ==> s2.cur.tokenI < |s2.tokens| && DatatypeOutcome(s2.tokens[s2.cur.tokenI], r.value))
    decreases |s.tokens| - s.cur.tokenI, 0
  {
    var r := DatatypeTail(s, s2);
    if s2.cur.tokenI < |s2.tokens| {
      if s2.tokens[s2.cur.tokenI] == Ampersand {
        var s3 := Advance(s2);
        GrewConsume(Checkpointed(s, s.cur), s2);
        DatatypeLaw(s3);
        var inner := DatatypeRule(s3);
        if inner.Ok? && inner.value.matched {
          GrewTrans(Checkpointed(s, s.cur), s3, inner.value.state);
          AcceptLaw(s, inner.value.state, Construct.Datatype(Pointer));
        }
      } else {
        TerminalLaw(s2);
        var t := TerminalRule(s2);
        if t.Ok? {
          GrewTrans(Checkpointed(s, s.cur), s2, t.value.state);
          if t.value.matched {
            AcceptLaw(s, t.value.state, Construct.Datatype(Terminal));
          } else {
            RejectLaw(s, t.value.state);
          }
        }
      }
    }
  }

  // ---------------------------------------------------------------- tree shape

  /** The last committed node has `n` qualifier children and then one more. */
  predicate QualifiersThen(u: PState, n: nat)
    requires 0 < u.cur.nodeI <= |u.nodes|
  {
    var kids := ChildrenOf(u.nodes, u.cur.nodeI - 1);
    && |kids| == n + 1
    && (forall j :: 0 <= j <= n ==> kids[j] < |u.nodes|)
    && forall j :: 0 <= j < n ==> u.nodes[kids[j]].construct == Construct.Qualifier(Qualifier.Mut)
  }

  /** The construct of that last child. */
  function LastKid(u: PState, n: nat): Construct
    requires 0 < u.cur.nodeI <= |u.nodes| && QualifiersThen(u, n)
  {
    u.nodes[ChildrenOf(u.nodes, u.cur.nodeI - 1)[n]].construct
  }

  /** The nodes staged since `s` in `m` are all qualifiers. */
  predicate QualifiersStaged(s: PState, m: PState)
    requires Inside(s, m)
  {
    forall k :: |s.children| <= k < |m.children| ==>
      m.nodes[m.children[k]].construct == Construct.Qualifier(Qualifier.Mut)
  }

  /** What a matched type looks like from `s2`, the state on the first token
      after its `n` staged qualifiers: those qualifiers as its first
      children, then the nested type after `&`, or else the terminal leaf. */
  predicate TailShaped(head: Token, n: nat, r: Result<Step>) {
    r.Ok? && r.value.matched && 0 < r.value.state.cur.nodeI <= |r.value.state.nodes| ==>
      && QualifiersThen(r.value.state, n)
      && (if head == Ampersand then LastKid(r.value.state, n).Datatype?
          else IsTerminalToken(head) && LastKid(r.value.state, n) == TerminalNode(head).construct)
  }

  /** Confirming after staged qualifiers and one sub-rule root. */
  lemma {:induction false} QualifiedAccept(s: PState, m: PState, t: PState, c: Construct)
    requires Inside(s, m) && QualifiersStaged(s, m) && Committed(m, t) && s.cur.tokenI < t.cur.tokenI
    requires Inside(s, t) && Accept(t, c).Ok?
    ensures var u := Accept(t, c).value.state;
            && 0 < u.cur.nodeI <= |u.nodes|
            && QualifiersThen(u, |m.children| - |s.children|)
            && LastKid(u, |m.children| - |s.children|) == Root(t).construct
  {
    AcceptKids(s, m, t, c);
  }

  lemma {:induction false} PointerShape(s: PState, s2: PState)
    requires Inside(s, s2) && Top(s2) == s.cur && s2.cur.tokenI < |s2.tokens| && QualifiersStaged(s, s2)
    requires s2.tokens[s2.cur.tokenI] == Ampersand
    ensures TailShaped(s2.tokens[s2.cur.tokenI], |s2.children| - |s.children|, DatatypeTail(s, s2))
  {
    var r := DatatypeTail(s, s2);
    if r.Ok? && r.value.matched {
      var s3 := Advance(s2);
      GrewConsume(Pushed(s), s2);
      DatatypeLaw(s3);
      var t := DatatypeRule(s3).value.state;
      GrewTrans(Pushed(s), s3, t);
      QualifiedAccept(s, s3, t, Construct.Datatype(Pointer));
    }
  }

  lemma {:induction false} TerminalShape(s: PState, s2: PState)
    requires Inside(s, s2) && Top(s2) == s.cur && s2.cur.tokenI < |s2.tokens| && QualifiersStaged(s, s2)
    requires s2.tokens[s2.cur.tokenI] != Ampersand
    ensures TailShaped(s2.tokens[s2.cur.tokenI], |s2.children| - |s.children|, DatatypeTail(s, s2))
  {
    var r := DatatypeTail(s, s2);
    if r.Ok? && r.value.matched {
      TerminalLaw(s2);
      var t := TerminalRule(s2).value.state;
      GrewTrans(Pushed(s), s2, t);
      QualifiedAccept(s, s2, t, Construct.Datatype(Terminal));
    }
  }

  /** The state the type rule reaches after its qualifiers, and what it
      knows there. */
  lemma {:induction false} DatatypeStages(s: PState)
    requires Good(s) && StartNodeSpec(s).Ok? && QualifierLoop(StartNodeSpec(s).value).Ok?
    ensures var s2 := QualifierLoop(StartNodeSpec(s).value).value;
            && Inside(s, s2) && Top(s2) == s.cur && QualifiersStaged(s, s2) && s2.tokens == s.tokens
            && s2.cur.tokenI == SkipMut(s.tokens, s.cur.tokenI) < |s.tokens|
            && |s2.children| - |s.children| == s2.cur.tokenI - s.cur.tokenI
            && DatatypeRule(s) == DatatypeTail(s, s2)
  {
    var s1 := StartNodeSpec(s).value;
    assert s1 == Pushed(s);
    QualifierLoopLaw(s1);
    QualifierLoopStaged(s1);
  }

  /** A matched type's children are its qualifiers, in order, followed by the
      nested type (after `&`) or by the terminal leaf. */
  lemma {:induction false} DatatypeShape(s: PState)
    requires Good(s)
    ensures var r := DatatypeRule(s);
            var q := SkipMut(s.tokens, s.cur.tokenI);
            r.Ok? ==> q < |s.tokens| && TailShaped(s.tokens[q], q - s.cur.tokenI, r)
  {
    if DatatypeRule(s).Ok? {
      DatatypeRuleOk(s);
      TailShape(s);
    }
  }

  /** The type rule succeeds only past its checkpoint and its qualifiers. */
  lemma DatatypeRuleOk(s: PState)
    requires DatatypeRule(s).Ok?
    ensures StartNodeSpec(s).Ok? && QualifierLoop(StartNodeSpec(s).value).Ok?
  { }

  /** The tail after the qualifiers has its shape, whichever token leads it. */
  lemma TailShape(s: PState)
    requires Good(s) && StartNodeSpec(s).Ok? && QualifierLoop(StartNodeSpec(s).value).Ok?
    ensures var q := SkipMut(s.tokens, s.cur.tokenI);
            q < |s.tokens| && TailShaped(s.tokens[q], q - s.cur.tokenI, DatatypeRule(s))
  {
    var s2 := QualifierLoop(StartNodeSpec(s).value).value;
    DatatypeStages(s);
    TailShapeAt(s, s2, SkipMut(s.tokens, s.cur.tokenI), DatatypeRule(s));
  }

  /** The same, from the state after the qualifiers. */
  lemma TailShapeAt(s: PState, s2: PState, q: nat, r: Result<Step>)
    requires Inside(s, s2) && Top(s2) == s.cur && s2.cur.tokenI < |s2.tokens| && QualifiersStaged(s, s2)
    requires s2.tokens == s.tokens && q == s2.cur.tokenI && q - s.cur.tokenI == |s2.children| - |s.children|
    requires r == DatatypeTail(s, s2)
    ensures q < |s.tokens| && TailShaped(s.tokens[q], q - s.cur.tokenI, r)
  {
    var head, n := s2.tokens[s2.cur.tokenI], |s2.children| - |s.children|;
    if head == Ampersand {
      PointerShape(s, s2);
    } else {
      TerminalShape(s, s2);
    }
    assert TailShaped(head, n, DatatypeTail(s, s2));
    assert s.tokens[q] == head && q - s.cur.tokenI == n;
  }

  // ---------------------------------------------------------------- the parser methods

  method MatchQualifier(p: Parser) returns (r: Result<bool>)
    modifies p, p.ast
    ensures Mirrors(r, QualifierRule(old(p.Model())), p.Model())
  {
    var started := p.StartNode();
    if started.Fail? {
      return Fatal(started.msg);
    }
    var token :- p.ConsumeToken();
    if token != Token.Keyword(Keyword.Mut) {
      var discarded := p.DiscardNode();
      assert discarded.Pass?;
      return Ok(false);
    }
    :- p.ConfirmNode(Construct.Qualifier(Qualifier.Mut));
    return Ok(true);
  }

  method MatchPrimitive(p: Parser) returns (r: Result<bool>)
    modifies p, p.ast
    ensures Mirrors(r, PrimitiveRule(old(p.Model())), p.Model())
  {
    var started := p.StartNode();
    if started.Fail? {
      return Fatal(started.msg);
    }
    var token :- p.ConsumeToken();
    if !IsPrimitiveToken(token) {
      var discarded := p.DiscardNode();
      assert discarded.Pass?;
      return Ok(false);
    }
    :- p.ConfirmNode(Construct.Primitive(PrimitiveOf(token.keyword).value));
    return Ok(true);
  }

  method MatchTerminal(p: Parser) returns (r: Result<bool>)
    modifies p, p.ast
    ensures Mirrors(r, TerminalRule(old(p.Model())), p.Model())
  {
    var primitive :- MatchPrimitive(p);
    if primitive {
      return Ok(true);
    }
    r := MatchIdentifier(p);
  }

  method MatchDatatype(p: Parser) returns (r: Result<bool>)
    modifies p, p.ast
    ensures Mirrors(r, DatatypeRule(old(p.Model())), p.Model())
    decreases |p.tokens| - p.cur.tokenI
  {
    ghost var s := p.Model();
    :- p.StartNode();
    ghost var s1 := p.Model();
    while true
      invariant p.tokens == s.tokens && p.stack == s1.stack && s.cur.tokenI <= p.cur.tokenI
      invariant QualifierLoop(p.Model()) == QualifierLoop(s1)
      decreases |p.tokens| - p.cur.tokenI
    {
      var qualifier :- MatchQualifier(p);
      if !qualifier {
        break;
      }
    }
    assert DatatypeRule(s) == DatatypeTail(s, p.Model());
    var token :- p.PeekToken();
    var kind;
    if token == Ampersand {
      var consumed := p.ConsumeToken();
      assert consumed.Ok?;
      var inner :- MatchDatatype(p);
      if !inner {
        return Fatal("Expected data type after &");
      }
      kind := Pointer;
    } else {
      var terminal :- MatchTerminal(p);
      if !terminal {
        var discarded := p.DiscardNode();
        assert discarded.Pass?;
        return Ok(false);
      }
      kind := Terminal;
    }
    :- p.ConfirmNode(Construct.Datatype(kind));
    return Ok(true);
  }
}
