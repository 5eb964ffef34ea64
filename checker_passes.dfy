/** The checker's passes as the program runs them: methods over a `Checker`
    that walk each node's children through their `next` links, change the
    arena and the table in place, and are proved to end in the state the
    functions of `CheckerWalks` describe. */
module CheckerPasses {
  import opened Outcomes
  import opened Trees
  import opened Shapes
  import opened Scopes
  import opened Checkers
  import W = CheckerWalks

  /** `check_for_symbol`: a function, structure or variable is added to the
      table under its name. */
  method CheckForSymbol(c: Checker, k: nat)
    requires c.Valid() && k < |c.nodes|
    modifies c.symbols
    ensures c.Valid() && c.symbols.Model() == W.CheckForSymbol(c.nodes, old(c.symbols.Model()), k)
  {
    var name: string;
    var symbol: Symbol;
    match c.nodes[k].construct {
      case Function(n) =>
        symbol := Symbol(k, SymbolData.Function(FunctionLabel(n, c.CurrentDepth())));
        name := n;
      case Structure(n, _) =>
        symbol := Symbol(k, SymbolData.Structure);
        name := n;
      case Variable(n) =>
        symbol := Symbol(k, SymbolData.Structure);
        name := n;
      case _ =>
        return;
    }
    AddValid(c.symbols.Model(), name, symbol);
    c.symbols.AddSymbol(name, symbol);
  }

  /** The first loop of `resolve_block` and of `check_content`: every child
      of `p` passed to `check_for_symbol`, in order. */
  method RegisterChildren(c: Checker, ghost nodes0: seq<Node>, p: nat)
    requires c.Valid() && W.Checking(nodes0, c.nodes) && p < |c.nodes| && !c.nodes[p].construct.Identifier?
    modifies c.symbols
    ensures c.Valid() && c.symbols.Model() == W.CheckForSymbols(c.nodes, old(c.symbols.Model()), W.LiveKids(c.nodes, nodes0, p), 0)
  {
    ghost var kids := W.LiveKids(c.nodes, nodes0, p);
    ghost var goal := W.CheckForSymbols(c.nodes, c.symbols.Model(), kids, 0);
    ghost var j := 0;
    var childOpt := c.nodes[p].child;
    while childOpt.Some?
      invariant j <= |kids| && c.Valid()
      invariant childOpt == if j < |kids| then Some(kids[j]) else None
      invariant W.CheckForSymbols(c.nodes, c.symbols.Model(), kids, j) == goal
      decreases |kids| - j
    {
      var child := childOpt.value;
      CheckForSymbol(c, child);
      childOpt := c.nodes[child].next;
      j := j + 1;
    }
  }

  /** `resolve_identifier`: whether node `k` is an identifier, which is then
      linked to the node the table finds for its name. */
  method ResolveIdentifier(c: Checker, k: nat) returns (r: Result<bool>)
    requires c.Valid() && k < |c.nodes|
    modifies c
    ensures c.Valid()
    ensures var spec := W.ResolveIdentifier(old(c.nodes), c.symbols.Model(), k);
            && (r.Ok? <==> spec.Ok?)
            && (r.Ok? ==> r.value == spec.value.1 && c.nodes == spec.value.0)
  {
    var construct := c.nodes[k].construct;
    if !construct.Identifier? {
      return Ok(false);
    }
    var found := c.symbols.FindSymbol(construct.name);
    match found {
      case Some(symbol) =>
        c.nodes := c.nodes[k := c.nodes[k].(child := Some(symbol.nodeI))];
        return Ok(true);
      case None =>
        return Fatal("Could not resolve symbol for identifier " + construct.name);
    }
  }

  /** `resolve_node`: an identifier is resolved; below any other node every
      child is resolved, in order. */
  method ResolveNode(c: Checker, ghost nodes0: seq<Node>, k: nat) returns (r: Result<()>)
    requires c.Valid() && W.Checking(nodes0, c.nodes) && k < |c.nodes|
    modifies c
    ensures c.Valid()
    ensures var spec := W.ResolveNode(old(c.nodes), nodes0, c.symbols.Model(), k);
            (r.Ok? <==> spec.Ok?) && (r.Ok? ==> c.nodes == spec.value)
    decreases k, 1
  {
    var isIdentifier :- ResolveIdentifier(c, k);
    if isIdentifier {
      return Ok(());
    }
    W.RewiredChildren(nodes0, c.nodes, k);
    KidsLinks(nodes0, k);
    ghost var kids := ChildrenOf(c.nodes, k);
    ghost var tab := c.symbols.Model();
    ghost var goal := W.ResolveNodeFrom(c.nodes, nodes0, tab, k, kids, 0);
    ghost var j := 0;
    var childOpt := c.nodes[k].child;
    while childOpt.Some?
      invariant j <= |kids| && c.Valid() && W.Checking(nodes0, c.nodes) && c.symbols.Model() == tab
      invariant childOpt == if j < |kids| then Some(kids[j]) else None
      invariant W.ResolveNodeFrom(c.nodes, nodes0, tab, k, kids, j) == goal
      decreases |kids| - j
    {
      var child := childOpt.value;
      var _ :- ResolveNode(c, nodes0, child);
      assert c.nodes[child].next == nodes0[child].next;
      childOpt := c.nodes[child].next;
      j := j + 1;
    }
    return Ok(());
  }

  /** `resolve_block`: every child registered, then every child resolved;
      no scope is opened or closed here. */
  method ResolveBlock(c: Checker, ghost nodes0: seq<Node>, b: nat) returns (r: Result<()>)
    requires c.Valid() && W.Checking(nodes0, c.nodes) && b < |c.nodes|
    modifies c, c.symbols
    ensures r.Ok? ==> c.Valid()
    ensures var spec := W.ResolveBlock(old(c.nodes), nodes0, old(c.symbols.Model()), b);
            && (r.Ok? <==> spec.Ok?)
            && (r.Ok? ==> c.nodes == spec.value.nodes && c.symbols.Model() == spec.value.tab)
    decreases b, 2
  {
    var construct := c.nodes[b].construct;
    if !(construct.Program? || construct.Block?) {
      return Fatal("Invalid node_i passed to resolve_body");
    }
    RegisterChildren(c, nodes0, b);
    W.RewiredChildren(nodes0, c.nodes, b);
    KidsLinks(nodes0, b);
    ghost var kids := ChildrenOf(c.nodes, b);
    ghost var goal := W.ResolveChildren(c.nodes, nodes0, c.symbols.Model(), b, kids, 0);
    ghost var j := 0;
    var childOpt := c.nodes[b].child;
    while childOpt.Some?
      invariant j <= |kids| && c.Valid() && W.Checking(nodes0, c.nodes)
      invariant childOpt == if j < |kids| then Some(kids[j]) else None
      invariant W.ResolveChildren(c.nodes, nodes0, c.symbols.Model(), b, kids, j) == goal
      decreases |kids| - j
    {
      var child := childOpt.value;
      var _ :- ResolveChild(c, nodes0, child);
      assert c.nodes[child].next == nodes0[child].next;
      childOpt := c.nodes[child].next;
      j := j + 1;
    }
    return Ok(());
  }

  /** One step of the second loop of `resolve_block`: a nested block is
      resolved in the current scope, a function in one of its own, any other
      child by `resolve_node`. */
  method ResolveChild(c: Checker, ghost nodes0: seq<Node>, k: nat) returns (r: Result<()>)
    requires c.Valid() && W.Checking(nodes0, c.nodes) && k < |c.nodes|
    modifies c, c.symbols
    ensures r.Ok? ==> c.Valid()
    ensures var spec := W.ResolveChild(old(c.nodes), nodes0, old(c.symbols.Model()), k);
            && (r.Ok? <==> spec.Ok?)
            && (r.Ok? ==> c.nodes == spec.value.nodes && c.symbols.Model() == spec.value.tab)
    decreases k, 4
  {
    var kind := c.nodes[k].construct;
    if kind.Block? {
      r := ResolveBlock(c, nodes0, k);
    } else if kind.Function? {
      r := ResolveFunction(c, nodes0, k);
    } else {
      r := ResolveNode(c, nodes0, k);
    }
  }

  /** `check_for_argument`: whether node `k` is an argument, which is then
      added to the table as a variable of undecided storage. */
  method CheckForArgument(c: Checker, k: nat) returns (added: bool)
    requires k < |c.nodes|
    modifies c.symbols
    ensures added <==> W.IsParam(c.nodes[k].construct, false)
    ensures c.symbols.Model() == if added then W.RegisterParam(c.nodes, old(c.symbols.Model()), k) else old(c.symbols.Model())
  {
    match c.nodes[k].construct {
      case Argument(name) =>
        var symbol := Symbol(k, SymbolData.Variable(Undefined));
        c.symbols.AddSymbol(name, symbol);
        return true;
      case _ =>
        return false;
    }
  }

  /** `check_for_returned`: whether node `k` is a returned value, which is
      then added to the table, under the empty name, as a variable of
      undecided storage. */
  method CheckForReturned(c: Checker, k: nat) returns (added: bool)
    requires k < |c.nodes|
    modifies c.symbols
    ensures added <==> W.IsParam(c.nodes[k].construct, true)
    ensures c.symbols.Model() == if added then W.RegisterParam(c.nodes, old(c.symbols.Model()), k) else old(c.symbols.Model())
  {
    if !c.nodes[k].construct.Returned? {
      return false;
    }
    var symbol := Symbol(k, SymbolData.Variable(Undefined));
    c.symbols.AddSymbol("", symbol);
    return true;
  }

  /** The first two loops of `resolve_function`, which differ only in the
      check they make: the run of arguments, or of returned values, from
      `kids[j0]` on is added to the table; the loop stops at the first child
      that is not one, or after the last child. */
  method AddParams(c: Checker, ghost kids: seq<nat>, ghost j0: nat, childOpt0: Option<nat>, returned: bool)
      returns (childOpt: Option<nat>, ghost j: nat)
    requires W.Chained(c.nodes, kids) && j0 <= |kids|
    requires childOpt0 == if j0 < |kids| then Some(kids[j0]) else None
    modifies c.symbols
    ensures j == W.LeadingEnd(c.nodes, kids, j0, returned)
    ensures childOpt == if j < |kids| then Some(kids[j]) else None
    ensures c.symbols.Model() == W.RegisterParams(c.nodes, old(c.symbols.Model()), kids, j0, j)
  {
    ghost var e := W.LeadingEnd(c.nodes, kids, j0, returned);
    ghost var t0 := c.symbols.Model();
    j := j0;
    childOpt := childOpt0;
    while childOpt.Some?
      invariant j0 <= j <= e
      invariant childOpt == if j < |kids| then Some(kids[j]) else None
      invariant c.symbols.Model() == W.RegisterParams(c.nodes, t0, kids, j0, j)
      decreases |kids| - j
    {
      var child := childOpt.value;
      ghost var next := if j + 1 < |kids| then Some(kids[j + 1]) else None;
      assert c.nodes[child].next == next;
      var added;
      if returned {
        added := CheckForReturned(c, child);
      } else {
        added := CheckForArgument(c, child);
      }
      if !added {
        break;
      }
      W.RegisterParamsSnoc(c.nodes, t0, kids, j0, j);
      childOpt := c.nodes[child].next;
      j := j + 1;
    }
    assert j == e;
  }

  /** The first half of `resolve_function`: a new scope holding the
      arguments and then the returned values, leaving the cursor on the
      child after them. */
  method OpenParamScope(c: Checker, ghost kids: seq<nat>, first: Option<nat>) returns (childOpt: Option<nat>)
    requires c.Valid() && W.Chained(c.nodes, kids)
    requires first == if 0 < |kids| then Some(kids[0]) else None
    modifies c, c.symbols
    ensures c.Valid() && c.nodes == old(c.nodes)
    ensures c.symbols.Model() == W.ParamScope(c.nodes, old(c.symbols.Model()), kids)
    ensures var e := W.BlockAt(c.nodes, kids); childOpt == if e < |kids| then Some(kids[e]) else None
  {
    ghost var t0 := c.symbols.Model();
    c.IncreaseScope();
    ghost var j;
    childOpt, j := AddParams(c, kids, 0, first, false);
    childOpt, j := AddParams(c, kids, j, childOpt, true);
    W.ParamScopeValid(c.nodes, t0, kids);
  }

  /** `resolve_function`: a scope is opened, the leading arguments and then
      the leading returned values are added, the block that must follow is
      resolved, and the scope is closed. */
  method ResolveFunction(c: Checker, ghost nodes0: seq<Node>, f: nat) returns (r: Result<()>)
    requires c.Valid() && W.Checking(nodes0, c.nodes) && f < |c.nodes| && c.nodes[f].construct.Function?
    modifies c, c.symbols
    ensures r.Ok? ==> c.Valid()
    ensures var spec := W.ResolveFunction(old(c.nodes), nodes0, old(c.symbols.Model()), f);
            && (r.Ok? <==> spec.Ok?)
            && (r.Ok? ==> c.nodes == spec.value.nodes && c.symbols.Model() == spec.value.tab)
    decreases f, 3
  {
    ghost var kids := W.LiveKids(c.nodes, nodes0, f);
    var childOpt := OpenParamScope(c, kids, c.nodes[f].child);
    if childOpt.None? {
      return Fatal("Expect block node at end of function");
    }
    var blockI := childOpt.value;
    if !c.nodes[blockI].construct.Block? {
      return Fatal("Expected block node at end of function");
    }
    var _ :- ResolveBlock(c, nodes0, blockI);
    var o := c.DecreaseScope();
    if o.Fail? {
      return Fatal(o.msg);
    }
    return Ok(());
  }

  /** `resolve_ast`: a checker over the parser's arena resolves its root,
      the last node. */
  method ResolveAst(ast: seq<Node>) returns (r: Result<seq<Node>>)
    requires Tree(ast)
    ensures var spec := W.ResolveAst(ast);
            (r.Ok? <==> spec.Ok?) && (r.Ok? ==> r.value == spec.value)
    ensures r.Ok? ==> W.Sound(ast, r.value) && W.Covered(ast, r.value, W.BlockIdents(ast, |ast| - 1))
  {
    W.ResolveAstLaw(ast);
    if |ast| == 0 {
      return Fatal("empty ast");
    }
    var c := new Checker(ast);
    assert W.Rewired(ast, c.nodes);
    var _ :- ResolveBlock(c, ast, |c.nodes| - 1);
    return Ok(c.nodes);
  }

  // ---------------------------------------------------------------- the checking pass

  /** `check_block`: `check_content` between one opening and one closing of
      a scope. */
  method CheckBlock(c: Checker, b: nat) returns (r: Result<()>)
    requires c.Valid() && Tree(c.nodes) && b < |c.nodes|
    modifies c, c.symbols
    ensures c.nodes == old(c.nodes) && (r.Ok? ==> c.Valid())
    ensures var spec := W.CheckBlock(old(c.nodes), old(c.symbols.Model()), b);
            (r.Ok? <==> spec.Ok?) && (r.Ok? ==> c.symbols.Model() == spec.value)
    decreases b, 2
  {
    ghost var t0 := c.symbols.Model();
    c.IncreaseScope();
    assert c.symbols.Model() == Increase(t0);
    var checked := CheckContent(c, b);
    if checked.Fatal? {
      return Fatal(checked.msg);
    }
    assert W.CheckContent(c.nodes, Increase(t0), b) == Ok(c.symbols.Model());
    var o := c.DecreaseScope();
    if o.Fail? {
      return Fatal(o.msg);
    }
    return Ok(());
  }

  /** `check_content`: every child of a program or block registered, then
      every nested block checked in a scope of its own. */
  method CheckContent(c: Checker, p: nat) returns (r: Result<()>)
    requires c.Valid() && Tree(c.nodes) && p < |c.nodes|
    modifies c, c.symbols
    ensures c.nodes == old(c.nodes) && (r.Ok? ==> c.Valid())
    ensures var spec := W.CheckContent(old(c.nodes), old(c.symbols.Model()), p);
            (r.Ok? <==> spec.Ok?) && (r.Ok? ==> c.symbols.Model() == spec.value)
    decreases p, 1
  {
    var construct := c.nodes[p].construct;
    if !(construct.Program? || construct.Block?) {
      return Fatal("Invalid node_i passed to resolve_body");
    }
    assert W.Rewired(c.nodes, c.nodes);
    RegisterChildren(c, c.nodes, p);
    ghost var kids := ScopeKids(c.nodes, p);
    KidsLinks(c.nodes, p);
    ghost var goal := W.CheckChildren(c.nodes, c.symbols.Model(), p, kids, 0);
    ghost var j := 0;
    var childOpt := c.nodes[p].child;
    while childOpt.Some?
      invariant j <= |kids| && c.Valid() && c.nodes == old(c.nodes)
      invariant childOpt == if j < |kids| then Some(kids[j]) else None
      invariant W.CheckChildren(c.nodes, c.symbols.Model(), p, kids, j) == goal
      decreases |kids| - j
    {
      var child := childOpt.value;
      if c.nodes[child].construct.Block? {
        var _ :- CheckBlock(c, child);
      }
      childOpt := c.nodes[child].next;
      j := j + 1;
    }
    return Ok(());
  }
}
