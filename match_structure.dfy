/** Structure definitions: `name : struct { member* }`, each member being
    `name : <datatype> ;`. */
module MatchStructure {
  import opened Outcomes
  import opened Tokens
  import opened Constructs
  import opened Trees
  import opened Parsing
  import opened MatchDatatype

  // ---------------------------------------------------------------- rules

  /** What follows a declared name in a member, a variable or an argument:
      `:` and a type, then `;` when `closed`; the node `c` is confirmed with
      the type as its one child. */
  function TypedTail(x: PState, c: Construct, closed: bool): (r: Result<Step>)
    requires |x.stack| > 0
    ensures r.Ok? ==> && r.value.state.tokens == x.tokens && r.value.state.stack == x.stack[..|x.stack| - 1]
                      && (r.value.matched ==> x.cur.tokenI < r.value.state.cur.tokenI <= |x.tokens|)
                      && (!r.value.matched ==> r.value.state.cur == Top(x))
  {
    var (colon, s3) :- ConsumeTokenSpec(x);
    if colon != Colon then Reject(s3)
    else TypedType(s3, c, closed)
  }

  /** The typed tail after `:`. */
  function TypedType(s3: PState, c: Construct, closed: bool): (r: Result<Step>)
    requires |s3.stack| > 0
    ensures r.Ok? ==> && r.value.state.tokens == s3.tokens && r.value.state.stack == s3.stack[..|s3.stack| - 1]
                      && (r.value.matched ==> s3.cur.tokenI < r.value.state.cur.tokenI <= |s3.tokens|)
                      && (!r.value.matched ==> r.value.state.cur == Top(s3))
  {
      var d :- DatatypeRule(s3);
      if !d.matched then Reject(d.state)
      else if !closed then Accept(d.state, c)
      else TypedClose(d.state, c)
  }

  /** The `;` that closes a member or a variable, from `t` after the type. */
  function TypedClose(t: PState, c: Construct): (r: Result<Step>)
    requires |t.stack| > 0
    ensures r.Ok? ==> && r.value.state.tokens == t.tokens && r.value.state.stack == t.stack[..|t.stack| - 1]
                      && (r.value.matched ==> t.cur.tokenI < r.value.state.cur.tokenI <= |t.tokens|)
                      && (!r.value.matched ==> r.value.state.cur == Top(t))
  {
    var (semicolon, s4) :- ConsumeTokenSpec(t);
    if semicolon != Semicolon then Reject(s4)
    else Accept(s4, c)
  }

  /** `name : <datatype> ;` becomes `Member(name, 0)`: the offset is filled
      in by the layout pass. */
  function MemberRule(s: PState): (r: Result<Step>)
    ensures Moved(s, r)
  {
    var s1 :- StartNodeSpec(s);
    var (token, s2) :- ConsumeTokenSpec(s1);
    if !token.Identifier? then Reject(s2)
    else TypedTail(s2, Construct.Member(token.name, 0), true)
  }

  /** Members, as many as match in a row. */
  function MemberLoop(x: PState): (r: Result<PState>)
    ensures r.Ok? ==> && r.value.tokens == x.tokens && r.value.stack == x.stack
                      && x.cur.tokenI <= r.value.cur.tokenI
                      && (x.cur.tokenI <= |x.tokens| ==> r.value.cur.tokenI <= |x.tokens|)
    decreases |x.tokens| - x.cur.tokenI
  {
    var m :- MemberRule(x);
    if m.matched then MemberLoop(m.state) else Ok(m.state)
  }

  /** `name : struct { member* }` becomes `Structure(name, 0)`: the size is
      filled in by the layout pass. */
  function StructureRule(s: PState): (r: Result<Step>)
    ensures Moved(s, r)
  {
    var s1 :- StartNodeSpec(s);
    var (token, s2) :- ConsumeTokenSpec(s1);
    if !token.Identifier? then Reject(s2)
    else StructureHead(s2, token.name)
  }

  /** The structure after its name: `:`. */
  function StructureHead(s2: PState, name: string): (r: Result<Step>)
    requires |s2.stack| > 0
    ensures r.Ok? ==> && r.value.state.tokens == s2.tokens && r.value.state.stack == s2.stack[..|s2.stack| - 1]
                      && (r.value.matched ==> s2.cur.tokenI < r.value.state.cur.tokenI <= |s2.tokens|)
                      && (!r.value.matched ==> r.value.state.cur == Top(s2))
  {
    var (colon, s3) :- ConsumeTokenSpec(s2);
    if colon != Colon then Reject(s3)
    else StructureKeyword(s3, name)
  }

  /** The structure after `:`: `struct`. */
  function StructureKeyword(s3: PState, name: string): (r: Result<Step>)
    requires |s3.stack| > 0
    ensures r.Ok? ==> && r.value.state.tokens == s3.tokens && r.value.state.stack == s3.stack[..|s3.stack| - 1]
                      && (r.value.matched ==> s3.cur.tokenI < r.value.state.cur.tokenI <= |s3.tokens|)
                      && (!r.value.matched ==> r.value.state.cur == Top(s3))
  {
    var (keyword, s4) :- ConsumeTokenSpec(s3);
    if keyword != Token.Keyword(Keyword.Struct) then Reject(s4)
    else StructureOpen(s4, name)
  }

  /** The structure after `struct`: `{`. */
  function StructureOpen(s4: PState, name: string): (r: Result<Step>)
    requires |s4.stack| > 0
    ensures r.Ok? ==> && r.value.state.tokens == s4.tokens && r.value.state.stack == s4.stack[..|s4.stack| - 1]
                      && (r.value.matched ==> s4.cur.tokenI < r.value.state.cur.tokenI <= |s4.tokens|)
                      && (!r.value.matched ==> r.value.state.cur == Top(s4))
  {
    var (open, s5) :- ConsumeTokenSpec(s4);
    if open != LCBracket then Reject(s5)
    else StructureBody(s5, name)
  }

  /** The structure after `{`: the members, then `}`. */
  function StructureBody(s5: PState, name: string): (r: Result<Step>)
    requires |s5.stack| > 0
    ensures r.Ok? ==> && r.value.state.tokens == s5.tokens && r.value.state.stack == s5.stack[..|s5.stack| - 1]
                      && (r.value.matched ==> s5.cur.tokenI < r.value.state.cur.tokenI <= |s5.tokens|)
                      && (!r.value.matched ==> r.value.state.cur == Top(s5))
  {
    var s6 :- MemberLoop(s5);
    var (close, s7) :- ConsumeTokenSpec(s6);
    if close != RCBracket then Reject(s7)
    else Accept(s7, Construct.Structure(name, 0))
  }

  // ---------------------------------------------------------------- laws

  /** The last committed node is `c` over one `Datatype` node. */
  predicate TypedNode(u: PState, c: Construct) {
    && 0 < u.cur.nodeI <= |u.nodes|
    && Root(u).construct == c
    && var kids := ChildrenOf(u.nodes, u.cur.nodeI - 1);
       |kids| == 1 && kids[0] < |u.nodes| && u.nodes[kids[0]].construct.Datatype?
  }

  /** The typed tail, run from `x` inside a rule started at `s` that has
      consumed the name and staged nothing: it gives up with the cursor
      restored, or matches `:` and a type (and `;` when `closed`) and commits
      `c` over the `Datatype` node. */
  lemma {:induction false} TypedTailLaw(s: PState, x: PState, c: Construct, closed: bool)
    requires Inside(s, x) && Top(x) == s.cur && s.cur.tokenI < x.cur.tokenI && |x.children| == |s.children|
    ensures var r := TypedTail(x, c, closed);
            && Law(s, r)
            && (r.Ok? && r.value.matched ==>
                  && x.cur.tokenI < |x.tokens| && x.tokens[x.cur.tokenI] == Colon
                  && TypedNode(r.value.state, c)
                  && (closed ==> LastConsumed(r.value.state, Semicolon)))
  {
    if x.cur.tokenI < |x.tokens| {
      var s3 := Advance(x);
      GrewConsume(Pushed(s), x);
      if x.tokens[x.cur.tokenI] != Colon {
        RejectLaw(s, s3);
      } else {
        assert TypedTail(x, c, closed) == TypedType(s3, c, closed);
        TypedTypeLaw(s, s3, c, closed);
      }
    }
  }

  /** The typed tail after `:`, from `s3`. */
  lemma {:induction false} TypedTypeLaw(s: PState, s3: PState, c: Construct, closed: bool)
    requires Inside(s, s3) && Top(s3) == s.cur && s.cur.tokenI < s3.cur.tokenI && |s3.children| == |s.children|
    ensures var r := TypedType(s3, c, closed);
            && Law(s, r)
            && (r.Ok? && r.value.matched ==> TypedNode(r.value.state, c) && (closed ==> LastConsumed(r.value.state, Semicolon)))
  {
    TypeStep(s3);
    var d := DatatypeRule(s3);
    if d.Ok? {
      var t := d.value.state;
      GrewTrans(Pushed(s), s3, t);
      if !d.value.matched {
        RejectLaw(s, t);
      } else if !closed {
        TypedAccept(s, s3, t, c);
      } else {
        TypedCloseLaw(s, s3, t, c);
      }
    }
  }

  /** The closing `;`, from `t` after the type committed from `s3`. */
  lemma TypedCloseLaw(s: PState, s3: PState, t: PState, c: Construct)
    requires Inside(s, s3) && Top(s3) == s.cur && |s3.children| == |s.children| && s.cur.tokenI < s3.cur.tokenI
    requires Committed(s3, t) && Inside(s, t) && Top(t) == s.cur
    requires 0 < t.cur.nodeI <= |t.nodes| && Root(t).construct.Datatype?
    ensures var r := TypedClose(t, c);
            && Law(s, r)
            && (r.Ok? && r.value.matched ==> TypedNode(r.value.state, c) && LastConsumed(r.value.state, Semicolon))
  {
    if t.cur.tokenI < |t.tokens| {
      GrewConsume(Pushed(s), t);
      if t.tokens[t.cur.tokenI] != Semicolon {
        RejectLaw(s, Advance(t));
      } else {
        TypedClosedAccept(s, s3, t, c);
      }
    }
  }

  /** What the typed tails need of the datatype rule. */
  lemma TypeStep(s: PState)
    requires Good(s)
    ensures var r := DatatypeRule(s);
            && Law(s, r)
            && (r.Ok? && r.value.matched ==>
                  0 < r.value.state.cur.nodeI <= |r.value.state.nodes| && Root(r.value.state).construct.Datatype?)
  {
    DatatypeLaw(s);
  }

  /** Confirming `c` over the one `Datatype` node committed from `m` to `t`. */
  lemma TypedAccept(s: PState, m: PState, t: PState, c: Construct)
    requires Inside(s, m) && |m.children| == |s.children| && Committed(m, t) && s.cur.tokenI < t.cur.tokenI
    requires Inside(s, t) && 0 < t.cur.nodeI <= |t.nodes| && Root(t).construct.Datatype?
    ensures var r := Accept(t, c);
            r.Ok? ==> Committed(s, r.value.state) && TypedNode(r.value.state, c)
  {
    AcceptLaw(s, t, c);
    if Accept(t, c).Ok? {
      AcceptKids(s, m, t, c);
    }
  }

  /** The same, when `;` follows the type. */
  lemma TypedClosedAccept(s: PState, m: PState, t: PState, c: Construct)
    requires Inside(s, m) && |m.children| == |s.children| && Committed(m, t) && s.cur.tokenI < t.cur.tokenI
    requires Inside(s, Advance(t)) && 0 < t.cur.nodeI <= |t.nodes| && Root(t).construct.Datatype?
    requires t.cur.tokenI < |t.tokens| && t.tokens[t.cur.tokenI] == Semicolon
    ensures var r := Accept(Advance(t), c);
            r.Ok? ==> Committed(s, r.value.state) && TypedNode(r.value.state, c) && LastConsumed(r.value.state, Semicolon)
  {
    CommittedConsume(m, t);
    TypedAccept(s, m, Advance(t), c);
  }

  /** A member gives up with the cursor restored (exactly the state it
      started in when the first token is not a name), or matches
      `name : <datatype> ;` and commits `Member(name, 0)` over the type. */
  lemma MemberLaw(s: PState)
    requires Good(s)
    ensures var r := MemberRule(s);
            && Law(s, r)
            && (r.Ok? ==> s.cur.tokenI < |s.tokens|)
            && (r.Ok? && !s.tokens[s.cur.tokenI].Identifier? ==> r.value.state == s)
            && (r.Ok? && r.value.matched ==>
                  && s.tokens[s.cur.tokenI].Identifier? && s.cur.tokenI + 1 < |s.tokens|
                  && s.tokens[s.cur.tokenI + 1] == Colon
                  && TypedNode(r.value.state, Construct.Member(s.tokens[s.cur.tokenI].name, 0))
                  && LastConsumed(r.value.state, Semicolon))
  {
    if StartNodeSpec(s).Ok? && s.cur.tokenI < |s.tokens| {
      var s2 := Advance(Pushed(s));
      GrewConsume(Pushed(s), Pushed(s));
      var token := s.tokens[s.cur.tokenI];
      if !token.Identifier? {
        DiscardAfterConsume(s);
      } else {
        TypedTailLaw(s, s2, Construct.Member(token.name, 0), true);
      }
    }
  }

  predicate IsMember(c: Construct) { c.Member? }

  /** The member loop only stages member nodes. */
  lemma {:induction false} MemberLoopLaw(x: PState)
    requires Good(x)
    ensures var r := MemberLoop(x);
            r.Ok? ==> Grew(x, r.value) && StagedWhere(x, r.value, IsMember)
    decreases |x.tokens| - x.cur.tokenI
  {
    MemberLaw(x);
    var m := MemberRule(x);
    if m.Ok? && m.value.matched {
      MemberLoopLaw(m.value.state);
      var r := MemberLoop(m.value.state);
      if r.Ok? {
        GrewTrans(x, m.value.state, r.value);
        StagedThen(x, m.value.state, r.value, IsMember);
      }
    }
  }

  /** The last committed node is `Structure(name, 0)` over member nodes only. */
  predicate StructureNode(u: PState, name: string) {
    && 0 < u.cur.nodeI <= |u.nodes|
    && Root(u).construct == Construct.Structure(name, 0)
    && KidsWhere(u, IsMember)
  }

  /** A structure node is committed and `}` was the last token consumed. */
  predicate StructureDone(u: PState, name: string) {
    StructureNode(u, name) && LastConsumed(u, RCBracket)
  }

  /** The tokens from `i` open a structure: a name, `:`, `struct`, `{`. */
  predicate OpensStructure(tokens: seq<Token>, i: nat) {
    i < |tokens| && tokens[i].Identifier? && TokenAt(tokens, i + 1, Colon) && StructKeywordAt(tokens, i + 2)
  }

  /** The tokens from `i` are `struct {`. */
  predicate StructKeywordAt(tokens: seq<Token>, i: nat) {
    TokenAt(tokens, i, Token.Keyword(Keyword.Struct)) && TokenAt(tokens, i + 1, LCBracket)
  }

  /** A structure gives up with the cursor restored, or matches
      `name : struct { member* }` and commits `Structure(name, 0)` over its
      member nodes. */
  lemma StructureLaw(s: PState)
    requires Good(s)
    ensures var r := StructureRule(s);
            && Law(s, r)
            && (r.Ok? && r.value.matched ==>
                  && OpensStructure(s.tokens, s.cur.tokenI)
                  && StructureDone(r.value.state, s.tokens[s.cur.tokenI].name))
  {
    if StartNodeSpec(s).Ok? && s.cur.tokenI < |s.tokens| {
      var s2 := Advance(Pushed(s));
      GrewConsume(Pushed(s), Pushed(s));
      var token := s.tokens[s.cur.tokenI];
      if !token.Identifier? {
        RejectLaw(s, s2);
      } else {
        assert StructureRule(s) == StructureHead(s2, token.name);
        StructureHeadLaw(s, s2, token.name);
        StructureHeadTokens(s2, token.name);
        StructureHeadDone(s, s2, token.name);
        assert s2.tokens == s.tokens && s2.cur.tokenI == s.cur.tokenI + 1;
      }
    }
  }

  /** The structure after its name, from `s2` inside the rule started at
      `s`, obeys the rule law. */
  lemma StructureHeadLaw(s: PState, s2: PState, name: string)
    requires Inside(s, s2) && Top(s2) == s.cur && s.cur.tokenI < s2.cur.tokenI && |s2.children| == |s.children|
    ensures Law(s, StructureHead(s2, name))
  {
    if s2.cur.tokenI < |s2.tokens| {
      ConsumeInside(s, s2);
      StructureHeadMatched(s2, name);
      if s2.tokens[s2.cur.tokenI] == Colon {
        StructureKeywordLaw(s, Advance(s2), name);
      }
    }
  }

  /** The same after `:`. */
  lemma StructureKeywordLaw(s: PState, s3: PState, name: string)
    requires Inside(s, s3) && Top(s3) == s.cur && s.cur.tokenI < s3.cur.tokenI && |s3.children| == |s.children|
    ensures Law(s, StructureKeyword(s3, name))
  {
    if s3.cur.tokenI < |s3.tokens| {
      ConsumeInside(s, s3);
      StructureKeywordMatched(s3, name);
      if s3.tokens[s3.cur.tokenI] == Token.Keyword(Keyword.Struct) {
        StructureOpenLaw(s, Advance(s3), name);
      }
    }
  }

  /** The same after `struct`. */
  lemma StructureOpenLaw(s: PState, s4: PState, name: string)
    requires Inside(s, s4) && Top(s4) == s.cur && s.cur.tokenI < s4.cur.tokenI && |s4.children| == |s.children|
    ensures Law(s, StructureOpen(s4, name))
  {
    if s4.cur.tokenI < |s4.tokens| {
      ConsumeInside(s, s4);
      StructureOpenMatched(s4, name);
      if s4.tokens[s4.cur.tokenI] == LCBracket {
        StructureBodyLaw(s, Advance(s4), name);
      }
    }
  }

  /** A structure that matches after its name has `: struct {` next and
      continues with its body. */
  lemma StructureHeadTokens(s2: PState, name: string)
    requires |s2.stack| > 0
    ensures var r := StructureHead(s2, name);
            r.Ok? && r.value.matched ==>
              && TokenAt(s2.tokens, s2.cur.tokenI, Colon) && StructKeywordAt(s2.tokens, s2.cur.tokenI + 1)
              && r == StructureBody(Advance(Advance(Advance(s2))), name)
  {
    StructureHeadMatched(s2, name);
    StructureKeywordMatched(Advance(s2), name);
    StructureOpenMatched(Advance(Advance(s2)), name);
  }

  /** A structure that matches after its name commits its node. */
  lemma StructureHeadDone(s: PState, s2: PState, name: string)
    requires Inside(s, s2) && Top(s2) == s.cur && s.cur.tokenI < s2.cur.tokenI && |s2.children| == |s.children|
    ensures var r := StructureHead(s2, name);
            r.Ok? && r.value.matched ==> StructureDone(r.value.state, name)
  {
    StructureHeadTokens(s2, name);
    var r := StructureHead(s2, name);
    if r.Ok? && r.value.matched {
      ConsumeInside(s, s2);
      ConsumeInside(s, Advance(s2));
      ConsumeInside(s, Advance(Advance(s2)));
      StructureBodyLaw(s, Advance(Advance(Advance(s2))), name);
    }
  }

  /** Each step of a matched structure continues with the next one. */
  lemma StructureHeadMatched(s2: PState, name: string)
    requires |s2.stack| > 0
    ensures var r := StructureHead(s2, name);
            r.Ok? && r.value.matched ==> TokenAt(s2.tokens, s2.cur.tokenI, Colon) && r == StructureKeyword(Advance(s2), name)
  {
  }

  lemma StructureKeywordMatched(s3: PState, name: string)
    requires |s3.stack| > 0
    ensures var r := StructureKeyword(s3, name);
            r.Ok? && r.value.matched ==>
              TokenAt(s3.tokens, s3.cur.tokenI, Token.Keyword(Keyword.Struct)) && r == StructureOpen(Advance(s3), name)
  {
  }

  lemma StructureOpenMatched(s4: PState, name: string)
    requires |s4.stack| > 0
    ensures var r := StructureOpen(s4, name);
            r.Ok? && r.value.matched ==> TokenAt(s4.tokens, s4.cur.tokenI, LCBracket) && r == StructureBody(Advance(s4), name)
  {
  }

  /** The structure after `{`, from `s5` inside the rule started at `s`. */
  lemma {:induction false} StructureBodyLaw(s: PState, s5: PState, name: string)
    requires Inside(s, s5) && Top(s5) == s.cur && s.cur.tokenI < s5.cur.tokenI && |s5.children| == |s.children|
    ensures var r := StructureBody(s5, name);
            && Law(s, r)
            && (r.Ok? && r.value.matched ==> StructureDone(r.value.state, name))
  {
    MemberLoopLaw(s5);
    var s6 := MemberLoop(s5);
    if s6.Ok? && s6.value.cur.tokenI < |s5.tokens| {
      var t := s6.value;
      GrewTrans(Pushed(s), s5, t);
      GrewConsume(Pushed(s), t);
      assert s6.value == t;
      if s5.tokens[t.cur.tokenI] != RCBracket {
        assert StructureBody(s5, name) == Reject(Advance(t));
        RejectLaw(s, Advance(t));
      } else {
        assert StructureBody(s5, name) == Accept(Advance(t), Construct.Structure(name, 0));
        StructureAccept(s, s5, t, name);
      }
    }
  }

  /** Confirming `Structure(name, 0)` after `}` over the member nodes staged
      from `s5` to `t`. */
  lemma StructureAccept(s: PState, s5: PState, t: PState, name: string)
    requires Inside(s, s5) && |s5.children| == |s.children| && Grew(s5, t) && StagedWhere(s5, t, IsMember)
    requires s.cur.tokenI < t.cur.tokenI < |t.tokens| && t.tokens[t.cur.tokenI] == RCBracket
    requires Inside(s, Advance(t))
    ensures var r := Accept(Advance(t), Construct.Structure(name, 0));
            r.Ok? ==> Committed(s, r.value.state) && StructureDone(r.value.state, name)
  {
    GrewConsume(s5, t);
    AcceptStaged(s, s5, Advance(t), Construct.Structure(name, 0), IsMember);
  }

  // ---------------------------------------------------------------- the parser methods

  method MatchMember(p: Parser) returns (r: Result<bool>)
    modifies p, p.ast
    ensures Mirrors(r, MemberRule(old(p.Model())), p.Model())
  {
    ghost var s := p.Model();
    :- p.StartNode();
    var token :- p.ConsumeToken();
    if !token.Identifier? {
      var discarded := p.DiscardNode();
      assert discarded.Pass?;
      return Ok(false);
    }
    assert MemberRule(s) == TypedTail(p.Model(), Construct.Member(token.name, 0), true);
    var colon :- p.ConsumeToken();
    if colon != Colon {
      var discarded := p.DiscardNode();
      assert discarded.Pass?;
      return Ok(false);
    }
    var typed :- MatchDatatype.MatchDatatype(p);
    if !typed {
      var discarded := p.DiscardNode();
      assert discarded.Pass?;
      return Ok(false);
    }
    var semicolon :- p.ConsumeToken();
    if semicolon != Semicolon {
      var discarded := p.DiscardNode();
      assert discarded.Pass?;
      return Ok(false);
    }
    :- p.ConfirmNode(Construct.Member(token.name, 0));
    return Ok(true);
  }

  method MatchStructure(p: Parser) returns (r: Result<bool>)
    modifies p, p.ast
    ensures Mirrors(r, StructureRule(old(p.Model())), p.Model())
  {
    ghost var s := p.Model();
    :- p.StartNode();
    var token :- p.ConsumeToken();
    if !token.Identifier? {
      var discarded := p.DiscardNode();
      assert discarded.Pass?;
      return Ok(false);
    }
    var colon :- p.ConsumeToken();
    if colon != Colon {
      var discarded := p.DiscardNode();
      assert discarded.Pass?;
      return Ok(false);
    }
    var keyword :- p.ConsumeToken();
    if keyword != Token.Keyword(Keyword.Struct) {
      var discarded := p.DiscardNode();
      assert discarded.Pass?;
      return Ok(false);
    }
    var open :- p.ConsumeToken();
    if open != LCBracket {
      var discarded := p.DiscardNode();
      assert discarded.Pass?;
      return Ok(false);
    }
    assert StructureRule(s) == StructureBody(p.Model(), token.name) by {
      assert StructureRule(s) == StructureHead(Advance(Pushed(s)), token.name);
      assert StructureHead(Advance(Pushed(s)), token.name) == StructureKeyword(Advance(Advance(Pushed(s))), token.name);
    }
    r := MatchStructureBody(p, token.name);
  }

  /** The structure from after its `{` on: the members and the `}`. */
  method MatchStructureBody(p: Parser, name: string) returns (r: Result<bool>)
    requires |p.Model().stack| > 0
    modifies p, p.ast
    ensures Mirrors(r, StructureBody(old(p.Model()), name), p.Model())
  {
    ghost var s5 := p.Model();
    while true
      invariant p.tokens == s5.tokens && p.stack == s5.stack && s5.cur.tokenI <= p.cur.tokenI
      invariant MemberLoop(p.Model()) == MemberLoop(s5)
      decreases |p.tokens| - p.cur.tokenI
    {
      var member :- MatchMember(p);
      if !member {
        break;
      }
    }
    var close :- p.ConsumeToken();
    if close != RCBracket {
      var discarded := p.DiscardNode();
      assert discarded.Pass?;
      return Ok(false);
    }
    :- p.ConfirmNode(Construct.Structure(name, 0));
    return Ok(true);
  }
}
