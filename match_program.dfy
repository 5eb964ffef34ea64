/** The whole program: as many symbols as match in a row, under one
    `Program` node. */
module MatchProgram {
  import opened Outcomes
  import opened Constructs
  import opened Trees
  import opened Parsing
  import opened MatchSymbol

  // ---------------------------------------------------------------- rules

  /** `{symbol}` becomes `Program` over the symbols. The rule never gives
      up: it stops at the first position where no symbol matches, whatever
      token is there. */
  function ProgramRule(s: PState): (r: Result<Step>)
    ensures r.Ok? ==> && r.value.matched && r.value.state.tokens == s.tokens && r.value.state.stack == s.stack
                      && s.cur.tokenI <= r.value.state.cur.tokenI
  {
    var s1 :- StartNodeSpec(s);
    var t :- ProgramLoop(s1);
    Accept(t, Construct.Program)
  }

  /** Symbols while one matches. */
  function ProgramLoop(x: PState): (r: Result<PState>)
    ensures r.Ok? ==> && r.value.tokens == x.tokens && r.value.stack == x.stack
                      && x.cur.tokenI <= r.value.cur.tokenI
    decreases |x.tokens| - x.cur.tokenI
  {
    var sy :- SymbolRule(x);
    if sy.matched then ProgramLoop(sy.state) else Ok(sy.state)
  }

  // ---------------------------------------------------------------- laws

  /** The last committed node is `Program` over symbol nodes. */
  predicate ProgramNode(u: PState) {
    && 0 < u.cur.nodeI <= |u.nodes|
    && Root(u).construct == Construct.Program
    && KidsWhere(u, IsSymbol)
  }

  /** The symbol loop only stages symbol nodes. */
  lemma {:induction false} ProgramLoopLaw(x: PState)
    requires Good(x)
    ensures var r := ProgramLoop(x);
            r.Ok? ==> Grew(x, r.value) && StagedWhere(x, r.value, IsSymbol)
    decreases |x.tokens| - x.cur.tokenI
  {
    SymbolLaw(x);
    var sy := SymbolRule(x);
    if sy.Ok? {
      var y := sy.value.state;
      if sy.value.matched {
        assert ProgramLoop(x) == ProgramLoop(y);
        ProgramLoopLaw(y);
        var r := ProgramLoop(y);
        if r.Ok? {
          GrewTrans(x, y, r.value);
          StagedThen(x, y, r.value, IsSymbol);
        }
      } else {
        assert ProgramLoop(x) == Ok(y);
      }
    }
  }

  /** Confirming `Program` over the symbols staged from `s` to `t`, which
      may be none and may have consumed no token. */
  lemma ProgramAccept(s: PState, t: PState)
    requires Grew(Pushed(s), t) && StagedWhere(Pushed(s), t, IsSymbol)
    ensures var r := Accept(t, Construct.Program);
            r.Ok? ==> && Grew(s, r.value.state)
                      && r.value.state.children == s.children + [r.value.state.cur.nodeI - 1]
                      && r.value.state.cur.nodeI == t.cur.nodeI + 1
                      && ProgramNode(r.value.state)
  {
    ConfirmLaw(s, t, Construct.Program);
    ConfirmChildren(s, t, Construct.Program);
    if Accept(t, Construct.Program).Ok? {
      SymbolKids(s, t, Accept(t, Construct.Program).value.state);
    }
  }

  /** The confirmed node's children are the staged symbols. */
  lemma SymbolKids(s: PState, t: PState, u: PState)
    requires Grew(Pushed(s), t) && StagedWhere(Pushed(s), t, IsSymbol)
    requires t.cur.nodeI < |u.nodes| && u.cur.nodeI == t.cur.nodeI + 1
    requires ChildrenOf(u.nodes, t.cur.nodeI) == t.children[|s.children|..]
    requires forall m :: 0 <= m < t.cur.nodeI ==> u.nodes[m].construct == t.nodes[m].construct
    ensures KidsWhere(u, IsSymbol)
  {
    var kids := ChildrenOf(u.nodes, t.cur.nodeI);
    forall j | 0 <= j < |kids|
      ensures kids[j] < |u.nodes| && IsSymbol(u.nodes[kids[j]].construct)
    {
      assert kids[j] == t.children[|s.children| + j];
    }
  }

  /** A program always matches unless the parser runs out of room or a
      nested rule is fatal: it commits one `Program` node, over symbol nodes,
      and leaves the checkpoint stack as it found it. */
  lemma ProgramLaw(s: PState)
    requires Good(s)
    ensures var r := ProgramRule(s);
            r.Ok? ==> && r.value.matched && r.value.state.stack == s.stack
                      && Grew(s, r.value.state)
                      && r.value.state.children == s.children + [r.value.state.cur.nodeI - 1]
                      && ProgramNode(r.value.state)
  {
    if StartNodeSpec(s).Ok? {
      var s1 := Pushed(s);
      ProgramLoopLaw(s1);
      var t := ProgramLoop(s1);
      if t.Ok? {
        assert ProgramRule(s) == Accept(t.value, Construct.Program);
        ProgramAccept(s, t.value);
      }
    }
  }

  // ---------------------------------------------------------------- the parser method

  method MatchProgram(p: Parser) returns (r: Result<bool>)
    modifies p, p.ast
    ensures Mirrors(r, ProgramRule(old(p.Model())), p.Model())
  {
    ghost var s := p.Model();
    :- p.StartNode();
    ghost var s1 := p.Model();
    while true
      invariant p.tokens == s1.tokens && p.stack == s1.stack && s1.cur.tokenI <= p.cur.tokenI
      invariant ProgramLoop(p.Model()) == ProgramLoop(s1)
      decreases |p.tokens| - p.cur.tokenI
    {
      var symbol :- MatchSymbol.MatchSymbol(p);
      if !symbol {
        break;
      }
    }
    :- p.ConfirmNode(Construct.Program);
    return Ok(true);
  }
}
