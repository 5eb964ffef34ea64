/** The generator's datatype resolver: in each scope it registers the
    declared symbols, then rewrites every type name written as an
    `Identifier` under a terminal datatype into a `Reference` to the node
    that declares it, then lays out the structures of the scope. The same
    steps appear, line for line, in three files of the program; one model
    stands for all of them. */
module Resolve {
  import opened Outcomes
  import opened Constructs
  import opened Trees
  import opened Scopes
  import opened Shapes
  import opened Generators
  import opened Layouts

  // ---------------------------------------------------------------- what resolution may do

  /** Node `y` is node `x` resolved: `x` is an identifier whose name the
      table finds, and `y` is a reference to the node found. */
  predicate Resolves(x: Node, tab: Table<nat>, y: Node) {
    && x.construct.Identifier?
    && Find(tab, x.construct.name).Some?
    && y == x.(construct := Construct.Reference(Find(tab, x.construct.name).value))
  }

  /** `b` is `a` with some of the nodes in `T` resolved and nothing else
      changed. */
  ghost predicate RewritesIn(a: seq<Node>, b: seq<Node>, tab: Table<nat>, T: set<nat>) {
    && |a| == |b|
    && forall j :: 0 <= j < |a| ==> b[j] == a[j] || (j in T && Resolves(a[j], tab, b[j]))
  }

  /** No node of `T` is an identifier any more. */
  ghost predicate Cleared(b: seq<Node>, T: set<nat>) {
    forall c :: c in T && c < |b| ==> !b[c].construct.Identifier?
  }

  /** Some node of `T` is an identifier that the table does not find. */
  ghost predicate Unfound(a: seq<Node>, tab: Table<nat>, T: set<nat>) {
    exists c :: c in T && c < |a| && a[c].construct.Identifier? && Find(tab, a[c].construct.name).None?
  }

  lemma RewritesShape(a: seq<Node>, b: seq<Node>, tab: Table<nat>, T: set<nat>)
    requires RewritesIn(a, b, tab, T)
    ensures SameShape(a, b)
  { }

  lemma RewritesRefl(a: seq<Node>, tab: Table<nat>, T: set<nat>)
    ensures RewritesIn(a, a, tab, T)
  { }

  /** Resolving in two steps resolves in their union; what the first step
      cleared stays cleared; an unfound identifier is still there after. */
  lemma RewritesThen(a: seq<Node>, b: seq<Node>, c: seq<Node>, tab: Table<nat>, A: set<nat>, B: set<nat>)
    requires RewritesIn(a, b, tab, A) && RewritesIn(b, c, tab, B)
    ensures RewritesIn(a, c, tab, A + B)
    ensures Cleared(b, A) ==> Cleared(c, A)
    ensures Unfound(a, tab, B) <==> Unfound(b, tab, B)
  {
    forall j | 0 <= j < |a|
      ensures c[j] == a[j] || (j in A + B && Resolves(a[j], tab, c[j]))
    {
      if b[j] != a[j] {
        assert Resolves(a[j], tab, b[j]);
        assert !b[j].construct.Identifier?;
      }
    }
    if Unfound(a, tab, B) {
      var x :| x in B && x < |a| && a[x].construct.Identifier? && Find(tab, a[x].construct.name).None?;
      assert b[x] == a[x];
    }
    if Unfound(b, tab, B) {
      var x :| x in B && x < |b| && b[x].construct.Identifier? && Find(tab, b[x].construct.name).None?;
      assert b[x] == a[x];
    }
  }

  // ---------------------------------------------------------------- the names a walk resolves

  /** The first child of terminal datatype `d`: the only node
      `resolve_datatype_terminal` looks at. */
  ghost function FirstChild(nodes: seq<Node>, d: nat): set<nat>
    requires d < |nodes|
  {
    match nodes[d].child
    case Some(c) => {c}
    case None => {}
  }

  /** The nodes a resolution of the datatypes below `p` looks at: the first
      child of each terminal datatype among `p`'s children, and recursively
      those below each pointer datatype among them. */
  ghost function Targets(nodes: seq<Node>, p: nat): set<nat>
    requires Tree(nodes) && p < |nodes|
    decreases p, 1
  {
    KidsLinks(nodes, p);
    TargetsFrom(nodes, p, ChildrenOf(nodes, p), 0)
  }

  ghost function TargetsFrom(nodes: seq<Node>, p: nat, kids: seq<nat>, j: nat): set<nat>
    requires Tree(nodes) && p < |nodes| && j <= |kids| && (forall k :: 0 <= k < |kids| ==> kids[k] < p)
    decreases p, 0, |kids| - j
  {
    if j == |kids| then {} else KidTargets(nodes, kids[j]) + TargetsFrom(nodes, p, kids, j + 1)
  }

  ghost function KidTargets(nodes: seq<Node>, k: nat): set<nat>
    requires Tree(nodes) && k < |nodes|
    decreases k, 2
  {
    match nodes[k].construct
    case Datatype(Terminal) => FirstChild(nodes, k)
    case Datatype(Pointer) => Targets(nodes, k)
    case _ => {}
  }

  /** The targets depend only on the shape of the arena. */
  lemma {:induction false} TargetsShape(a: seq<Node>, b: seq<Node>, p: nat)
    requires Tree(a) && SameShape(a, b) && p < |a|
    ensures Tree(b) && Targets(a, p) == Targets(b, p)
    decreases p, 1
  {
    SameLinksTree(a, b);
    SameLinksChildren(a, b, p);
    KidsLinks(a, p);
    TargetsFromShape(a, b, p, ChildrenOf(a, p), 0);
  }

  lemma {:induction false} TargetsFromShape(a: seq<Node>, b: seq<Node>, p: nat, kids: seq<nat>, j: nat)
    requires Tree(a) && SameShape(a, b) && p < |a| && j <= |kids| && (forall k :: 0 <= k < |kids| ==> kids[k] < p)
    ensures Tree(b) && TargetsFrom(a, p, kids, j) == TargetsFrom(b, p, kids, j)
    decreases p, 0, |kids| - j
  {
    SameLinksTree(a, b);
    if j < |kids| {
      KidTargetsShape(a, b, kids[j]);
      TargetsFromShape(a, b, p, kids, j + 1);
    }
  }

  lemma {:induction false} KidTargetsShape(a: seq<Node>, b: seq<Node>, k: nat)
    requires Tree(a) && SameShape(a, b) && k < |a|
    ensures Tree(b) && KidTargets(a, k) == KidTargets(b, k)
    decreases k, 2
  {
    SameLinksTree(a, b);
    assert Kind(a[k].construct) == Kind(b[k].construct);
    if a[k].construct == Construct.Datatype(Pointer) {
      TargetsShape(a, b, k);
    }
  }

  // ---------------------------------------------------------------- the resolution

  /** `resolve_datatype_terminal` on terminal datatype `d`: an identifier
      as its first child becomes a reference to the declaration the table
      finds, any other first child stays; a name the table does not know is
      fatal. (A terminal always has a child in the parser's layout.) */
  function ResolveTerminal(nodes: seq<Node>, tab: Table<nat>, d: nat): (r: Result<seq<Node>>)
    requires d < |nodes|
    ensures r.Ok? ==> SameShape(nodes, r.value)
  {
    match nodes[d].child
    case None => Ok(nodes)
    case Some(c) =>
      if c >= |nodes| then Fatal("index out of bounds")
      else match nodes[c].construct
        case Identifier(name) =>
          (match Find(tab, name)
           case None => Fatal("Couldn't find symbol for identifier " + name)
           case Some(i) => Ok(nodes[c := nodes[c].(construct := Construct.Reference(i))]))
        case _ => Ok(nodes)
  }

  /** `resolve_datatype` on node `p`: each terminal datatype among its
      children is resolved and each pointer datatype among them is resolved
      recursively; other children, such as qualifiers, are skipped. */
  function ResolveDatatype(nodes: seq<Node>, tab: Table<nat>, p: nat): (r: Result<seq<Node>>)
    requires Tree(nodes) && p < |nodes|
    ensures r.Ok? ==> SameShape(nodes, r.value)
    decreases p, 1
  {
    KidsLinks(nodes, p);
    ResolveDatatypeFrom(nodes, tab, p, ChildrenOf(nodes, p), 0)
  }

  function ResolveDatatypeFrom(nodes: seq<Node>, tab: Table<nat>, p: nat, kids: seq<nat>, j: nat): (r: Result<seq<Node>>)
    requires Tree(nodes) && p < |nodes| && j <= |kids| && (forall k :: 0 <= k < |kids| ==> kids[k] < p)
    ensures r.Ok? ==> SameShape(nodes, r.value)
    decreases p, 0, |kids| - j
  {
    if j == |kids| then Ok(nodes)
    else
      var n1 :- ResolveKid(nodes, tab, kids[j]);
      SameLinksTree(nodes, n1);
      var r := ResolveDatatypeFrom(n1, tab, p, kids, j + 1);
      if r.Ok? then SameShapeTrans(nodes, n1, r.value); r else r
  }

  function ResolveKid(nodes: seq<Node>, tab: Table<nat>, k: nat): (r: Result<seq<Node>>)
    requires Tree(nodes) && k < |nodes|
    ensures r.Ok? ==> SameShape(nodes, r.value)
    decreases k, 2
  {
    match nodes[k].construct
    case Datatype(Terminal) => ResolveTerminal(nodes, tab, k)
    case Datatype(Pointer) => ResolveDatatype(nodes, tab, k)
    case _ => Ok(nodes)
  }

  // ---------------------------------------------------------------- laws of the resolution

  /** A terminal is resolved exactly as far as its first child goes: fatal
      when that child is an identifier the table does not find, otherwise
      a resolved or untouched child and nothing else changed. */
  lemma ResolveTerminalLaw(nodes: seq<Node>, tab: Table<nat>, d: nat)
    requires Tree(nodes) && d < |nodes|
    ensures var r := ResolveTerminal(nodes, tab, d); var T := FirstChild(nodes, d);
            && (r.Fatal? <==> Unfound(nodes, tab, T))
            && (r.Ok? ==> RewritesIn(nodes, r.value, tab, T) && Cleared(r.value, T))
  {
    assert Below(nodes, d);
    var r := ResolveTerminal(nodes, tab, d);
    var T := FirstChild(nodes, d);
    if nodes[d].child.Some? {
      var c := nodes[d].child.value;
      if nodes[c].construct.Identifier? && Find(tab, nodes[c].construct.name).None? {
        assert r.Fatal?;
        assert c in T;
      } else {
        assert r.Ok?;
        assert forall j :: 0 <= j < |nodes| ==> r.value[j] == nodes[j] || (j in T && Resolves(nodes[j], tab, r.value[j]));
      }
    }
  }

  /** Resolving the datatypes below `p` is fatal exactly when one of the
      names it looks at is unknown; otherwise it resolves every identifier
      among them and changes no other node. */
  lemma {:induction false} ResolveDatatypeLaw(nodes: seq<Node>, tab: Table<nat>, p: nat)
    requires Tree(nodes) && p < |nodes|
    ensures var r := ResolveDatatype(nodes, tab, p); var T := Targets(nodes, p);
            && (r.Fatal? <==> Unfound(nodes, tab, T))
            && (r.Ok? ==> RewritesIn(nodes, r.value, tab, T) && Cleared(r.value, T))
    decreases p, 1
  {
    KidsLinks(nodes, p);
    ResolveDatatypeFromLaw(nodes, tab, p, ChildrenOf(nodes, p), 0);
  }

  lemma {:induction false} ResolveDatatypeFromLaw(nodes: seq<Node>, tab: Table<nat>, p: nat, kids: seq<nat>, j: nat)
    requires Tree(nodes) && p < |nodes| && j <= |kids| && (forall k :: 0 <= k < |kids| ==> kids[k] < p)
    ensures var r := ResolveDatatypeFrom(nodes, tab, p, kids, j); var T := TargetsFrom(nodes, p, kids, j);
            && (r.Fatal? <==> Unfound(nodes, tab, T))
            && (r.Ok? ==> RewritesIn(nodes, r.value, tab, T) && Cleared(r.value, T))
    decreases p, 0, |kids| - j
  {
    if j < |kids| {
      var A := KidTargets(nodes, kids[j]);
      var B := TargetsFrom(nodes, p, kids, j + 1);
      ResolveKidLaw(nodes, tab, kids[j]);
      var step := ResolveKid(nodes, tab, kids[j]);
      if step.Ok? {
        var n1 := step.value;
        SameLinksTree(nodes, n1);
        TargetsFromShape(nodes, n1, p, kids, j + 1);
        ResolveDatatypeFromLaw(n1, tab, p, kids, j + 1);
        var r := ResolveDatatypeFrom(n1, tab, p, kids, j + 1);
        assert ResolveDatatypeFrom(nodes, tab, p, kids, j) == r;
        if r.Ok? {
          RewritesThen(nodes, n1, r.value, tab, A, B);
        } else {
          RewritesThen(nodes, n1, n1, tab, A, B);
        }
      }
    }
  }

  lemma {:induction false} ResolveKidLaw(nodes: seq<Node>, tab: Table<nat>, k: nat)
    requires Tree(nodes) && k < |nodes|
    ensures var r := ResolveKid(nodes, tab, k); var T := KidTargets(nodes, k);
            && (r.Fatal? <==> Unfound(nodes, tab, T))
            && (r.Ok? ==> RewritesIn(nodes, r.value, tab, T) && Cleared(r.value, T))
    decreases k, 2
  {
    match nodes[k].construct
    case Datatype(Terminal) => ResolveTerminalLaw(nodes, tab, k);
    case Datatype(Pointer) => ResolveDatatypeLaw(nodes, tab, k);
    case _ =>
  }

  /** One child of the walk done: the rest of the walk starts from what
      it left, in the same shape. */
  lemma FromStep(a0: seq<Node>, a: seq<Node>, b: seq<Node>, tab: Table<nat>, p: nat, kids: seq<nat>, j: nat)
    requires Shaped(a0) && SameShape(a0, a) && p < |a| && j < |kids| && (forall k :: 0 <= k < |kids| ==> kids[k] < p)
    requires Tree(a) && ResolveKid(a, tab, kids[j]) == Ok(b)
    ensures Shaped(b) && SameShape(a0, b) && ChildrenOf(a0, p) == ChildrenOf(b, p)
    ensures ResolveDatatypeFrom(a, tab, p, kids, j) == ResolveDatatypeFrom(b, tab, p, kids, j + 1)
  {
    SameShapeTrans(a0, a, b);
    SameShapeShaped(a0, b);
    SameLinksChildren(a0, b, p);
  }

  // ---------------------------------------------------------------- the cursor walks

  /** The generator's invariant while resolving: the arena is in the
      parser's layout, the cursor is on one of its nodes, and the symbol
      table is valid. */
  ghost predicate Ready(g: Generator)
    reads g, g.symbols
  {
    && Shaped(g.nodes) && OnNode(g.nodes, g.treeStack)
    && Valid(g.symbols.Model())
  }

  /** `resolve_datatype_terminal`: the current node is a terminal datatype. */
  method ResolveDatatypeTerminal(g: Generator) returns (r: Result<()>)
    requires Ready(g) && g.nodes[Last(g.treeStack)].construct.Datatype?
    modifies g
    ensures var spec := ResolveTerminal(old(g.nodes), g.symbols.Model(), Last(old(g.treeStack)));
            && (r.Ok? <==> spec.Ok?)
            && (r.Ok? ==> g.nodes == spec.value && g.treeStack == old(g.treeStack))
  {
    assert Below(g.nodes, Last(g.treeStack));
    var down := g.Down();
    var current := g.Current();
    if !current.value.Identifier? {
      var up := g.Up();
      return Ok(());
    }
    var name := current.value.name;
    var found := g.symbols.FindSymbol(name);
    if found.None? {
      return Fatal("Couldn't find symbol for identifier " + name);
    }
    var replaced := g.ReplaceConstruct(Construct.Reference(found.value));
    var up := g.Up();
    return Ok(());
  }

  /** `resolve_datatype`: walks the children of the current node, resolving
      terminal datatypes and descending into pointer datatypes. */
  method ResolveDatatypeM(g: Generator) returns (r: Result<()>)
    requires Ready(g) && NeedsChild(g.nodes[Last(g.treeStack)].construct)
    modifies g
    ensures var spec := ResolveDatatype(old(g.nodes), g.symbols.Model(), Last(old(g.treeStack)));
            && (r.Ok? <==> spec.Ok?)
            && (r.Ok? ==> g.nodes == spec.value && g.treeStack == old(g.treeStack))
    decreases Last(g.treeStack), 0
  {
    ghost var nodes0 := g.nodes;
    ghost var base := g.treeStack;
    ghost var p := Last(base);
    ghost var tab := g.symbols.Model();
    ghost var kids := ChildrenOf(nodes0, p);
    KidsLinks(nodes0, p);
    var down := g.Down();
    ghost var j := 0;
    while true
      invariant 0 <= j < |kids|
      invariant g.treeStack == base + [kids[j]]
      invariant Shaped(g.nodes) && SameShape(nodes0, g.nodes)
      invariant ResolveDatatypeFrom(g.nodes, tab, p, kids, j) == ResolveDatatypeFrom(nodes0, tab, p, kids, 0)
      decreases |kids| - j
    {
      ghost var before := g.nodes;
      var _ :- ResolveKidM(g);
      FromStep(nodes0, before, g.nodes, tab, p, kids, j);
      var more := g.Next();
      if !more.value {
        break;
      }
      j := j + 1;
    }
    var up := g.Up();
    return Ok(());
  }

  /** One step of `resolve_datatype`'s loop: a terminal datatype is
      resolved, a pointer datatype walked, anything else skipped. */
  method ResolveKidM(g: Generator) returns (r: Result<()>)
    requires Ready(g)
    modifies g
    ensures var spec := ResolveKid(old(g.nodes), g.symbols.Model(), Last(old(g.treeStack)));
            && (r.Ok? <==> spec.Ok?)
            && (r.Ok? ==> g.nodes == spec.value && g.treeStack == old(g.treeStack))
    decreases Last(g.treeStack), 1
  {
    var current := g.Current();
    if current.value.Datatype? {
      if current.value.kind == Terminal {
        r := ResolveDatatypeTerminal(g);
      } else {
        r := ResolveDatatypeM(g);
      }
    } else {
      r := Ok(());
    }
  }

  // ---------------------------------------------------------------- registering a scope

  /** The name `check_for_symbol` registers a construct under: functions,
      structures and variables only. */
  function Declared(c: Construct): (r: Option<string>)
    ensures r.Some? <==> c.Function? || c.Structure? || c.Variable?
  {
    match c
    case Function(name) => Some(name)
    case Structure(name, _) => Some(name)
    case Variable(name) => Some(name)
    case _ => None
  }

  /** `check_for_symbol` on node `k`: a declaration is registered under its
      name with its own index. */
  function Register(nodes: seq<Node>, tab: Table<nat>, k: nat): Table<nat>
    requires k < |nodes|
  {
    match Declared(nodes[k].construct)
    case Some(name) => Scopes.Add(tab, name, k)
    case None => tab
  }

  /** The first loop of `resolve_content`: every child of the scope, in
      order. */
  function RegisterFrom(nodes: seq<Node>, tab: Table<nat>, kids: seq<nat>, j: nat): Table<nat>
    requires j <= |kids| && forall k :: 0 <= k < |kids| ==> kids[k] < |nodes|
    decreases |kids| - j
  {
    if j == |kids| then tab else RegisterFrom(nodes, Register(nodes, tab, kids[j]), kids, j + 1)
  }

  /** The last of `kids[j..]` that declares `name`. */
  function LastDeclaring(nodes: seq<Node>, kids: seq<nat>, j: nat, name: string): (r: Option<nat>)
    requires j <= |kids| && forall k :: 0 <= k < |kids| ==> kids[k] < |nodes|
    ensures r.Some? ==> exists i :: j <= i < |kids| && kids[i] == r.value && Declared(nodes[kids[i]].construct) == Some(name)
    decreases |kids| - j
  {
    if j == |kids| then None
    else
      var later := LastDeclaring(nodes, kids, j + 1, name);
      if later.Some? then later
      else if Declared(nodes[kids[j]].construct) == Some(name) then Some(kids[j])
      else None
  }

  /** After the first loop each name finds the last child of the scope that
      declares it, and a name no child declares finds what it found before;
      the table stays valid and only grows. */
  lemma {:induction false} RegisterLaw(nodes: seq<Node>, tab: Table<nat>, kids: seq<nat>, j: nat)
    requires Valid(tab) && j <= |kids| && forall k :: 0 <= k < |kids| ==> kids[k] < |nodes|
    ensures var t := RegisterFrom(nodes, tab, kids, j);
            && Valid(t) && Stays(tab, t)
            && forall name :: Find(t, name) == if LastDeclaring(nodes, kids, j, name).Some?
                                                then LastDeclaring(nodes, kids, j, name) else Find(tab, name)
    decreases |kids| - j
  {
    if j == |kids| {
      StaysRefl(tab);
    } else {
      var t1 := Register(nodes, tab, kids[j]);
      if Declared(nodes[kids[j]].construct).Some? {
        var name := Declared(nodes[kids[j]].construct).value;
        AddValid(tab, name, kids[j]);
        AddFind(tab, name, kids[j]);
        AddStays(tab, name, kids[j]);
      } else {
        StaysRefl(tab);
      }
      RegisterLaw(nodes, t1, kids, j + 1);
      StaysTrans(tab, t1, RegisterFrom(nodes, t1, kids, j + 1));
    }
  }

  /** A name declared by any child of the scope is found after the first
      loop, whether that child comes before or after the use. */
  lemma {:induction false} DeclaredFound(nodes: seq<Node>, tab: Table<nat>, kids: seq<nat>, i: nat, name: string)
    requires Valid(tab) && i < |kids| && forall k :: 0 <= k < |kids| ==> kids[k] < |nodes|
    requires Declared(nodes[kids[i]].construct) == Some(name)
    ensures Find(RegisterFrom(nodes, tab, kids, 0), name).Some?
  {
    RegisterLaw(nodes, tab, kids, 0);
    LastDeclaringSome(nodes, kids, 0, i, name);
  }

  lemma {:induction false} LastDeclaringSome(nodes: seq<Node>, kids: seq<nat>, j: nat, i: nat, name: string)
    requires j <= i < |kids| && forall k :: 0 <= k < |kids| ==> kids[k] < |nodes|
    requires Declared(nodes[kids[i]].construct) == Some(name)
    ensures LastDeclaring(nodes, kids, j, name).Some?
    decreases |kids| - j
  {
    if j < i {
      LastDeclaringSome(nodes, kids, j + 1, i, name);
    }
  }

  // ---------------------------------------------------------------- resolving a scope

  /** The children `resolve_function` (`ofFunction`) or `resolve_structure`
      resolves: arguments and returned values, or members. */
  predicate Leads(ofFunction: bool, c: Construct) {
    if ofFunction then c.Argument? || c.Returned? else c.Member?
  }

  /** `resolve_function` / `resolve_structure` from child `j` of `p` on:
      the leading children of the right kind have their datatypes
      resolved; the walk stops at the first child of another kind. */
  function ResolveLeading(nodes: seq<Node>, tab: Table<nat>, ofFunction: bool, p: nat, kids: seq<nat>, j: nat): (r: Result<seq<Node>>)
    requires Tree(nodes) && p < |nodes| && j <= |kids| && (forall k :: 0 <= k < |kids| ==> kids[k] < p)
    ensures r.Ok? ==> SameShape(nodes, r.value)
    decreases |kids| - j
  {
    if j == |kids| || !Leads(ofFunction, nodes[kids[j]].construct) then Ok(nodes)
    else
      var n1 :- ResolveDatatype(nodes, tab, kids[j]);
      SameLinksTree(nodes, n1);
      var r := ResolveLeading(n1, tab, ofFunction, p, kids, j + 1);
      if r.Ok? then SameShapeTrans(nodes, n1, r.value); r else r
  }

  /** `resolve_symbol_datatypes` on child `k` of the scope. */
  function ResolveSymbol(nodes: seq<Node>, tab: Table<nat>, k: nat): (r: Result<seq<Node>>)
    requires Tree(nodes) && k < |nodes|
    ensures r.Ok? ==> SameShape(nodes, r.value)
  {
    KidsLinks(nodes, k);
    match nodes[k].construct
    case Function(_) => ResolveLeading(nodes, tab, true, k, ChildrenOf(nodes, k), 0)
    case Structure(_, _) => ResolveLeading(nodes, tab, false, k, ChildrenOf(nodes, k), 0)
    case Variable(_) => ResolveDatatype(nodes, tab, k)
    case _ => Ok(nodes)
  }

  /** The second loop of `resolve_content`, from child `j` of scope `p` on. */
  function ResolveScope(nodes: seq<Node>, tab: Table<nat>, p: nat, kids: seq<nat>, j: nat): (r: Result<seq<Node>>)
    requires Tree(nodes) && p < |nodes| && j <= |kids| && (forall k :: 0 <= k < |kids| ==> kids[k] < p)
    ensures r.Ok? ==> SameShape(nodes, r.value)
    decreases |kids| - j
  {
    if j == |kids| then Ok(nodes)
    else
      var n1 :- ResolveSymbol(nodes, tab, kids[j]);
      SameLinksTree(nodes, n1);
      var r := ResolveScope(n1, tab, p, kids, j + 1);
      if r.Ok? then SameShapeTrans(nodes, n1, r.value); r else r
  }

  /** The names those walks look at. */
  ghost function LeadingTargets(nodes: seq<Node>, ofFunction: bool, p: nat, kids: seq<nat>, j: nat): set<nat>
    requires Tree(nodes) && p < |nodes| && j <= |kids| && (forall k :: 0 <= k < |kids| ==> kids[k] < p)
    decreases |kids| - j
  {
    if j == |kids| || !Leads(ofFunction, nodes[kids[j]].construct) then {}
    else Targets(nodes, kids[j]) + LeadingTargets(nodes, ofFunction, p, kids, j + 1)
  }

  ghost function SymbolTargets(nodes: seq<Node>, k: nat): set<nat>
    requires Tree(nodes) && k < |nodes|
  {
    KidsLinks(nodes, k);
    match nodes[k].construct
    case Function(_) => LeadingTargets(nodes, true, k, ChildrenOf(nodes, k), 0)
    case Structure(_, _) => LeadingTargets(nodes, false, k, ChildrenOf(nodes, k), 0)
    case Variable(_) => Targets(nodes, k)
    case _ => {}
  }

  ghost function ScopeTargets(nodes: seq<Node>, p: nat, kids: seq<nat>, j: nat): set<nat>
    requires Tree(nodes) && p < |nodes| && j <= |kids| && (forall k :: 0 <= k < |kids| ==> kids[k] < p)
    decreases |kids| - j
  {
    if j == |kids| then {} else SymbolTargets(nodes, kids[j]) + ScopeTargets(nodes, p, kids, j + 1)
  }

  lemma {:induction false} LeadingTargetsShape(a: seq<Node>, b: seq<Node>, ofFunction: bool, p: nat, kids: seq<nat>, j: nat)
    requires Tree(a) && SameShape(a, b) && p < |a| && j <= |kids| && (forall k :: 0 <= k < |kids| ==> kids[k] < p)
    ensures Tree(b) && LeadingTargets(a, ofFunction, p, kids, j) == LeadingTargets(b, ofFunction, p, kids, j)
    decreases |kids| - j
  {
    SameLinksTree(a, b);
    if j < |kids| {
      assert Kind(a[kids[j]].construct) == Kind(b[kids[j]].construct);
      if Leads(ofFunction, a[kids[j]].construct) {
        TargetsShape(a, b, kids[j]);
        LeadingTargetsShape(a, b, ofFunction, p, kids, j + 1);
      }
    }
  }

  lemma SymbolTargetsShape(a: seq<Node>, b: seq<Node>, k: nat)
    requires Tree(a) && SameShape(a, b) && k < |a|
    ensures Tree(b) && SymbolTargets(a, k) == SymbolTargets(b, k)
  {
    SameLinksTree(a, b);
    SameLinksChildren(a, b, k);
    KidsLinks(a, k);
    assert Kind(a[k].construct) == Kind(b[k].construct);
    match a[k].construct
    case Function(_) => LeadingTargetsShape(a, b, true, k, ChildrenOf(a, k), 0);
    case Structure(_, _) => LeadingTargetsShape(a, b, false, k, ChildrenOf(a, k), 0);
    case Variable(_) => TargetsShape(a, b, k);
    case _ =>
  }

  lemma {:induction false} ScopeTargetsShape(a: seq<Node>, b: seq<Node>, p: nat, kids: seq<nat>, j: nat)
    requires Tree(a) && SameShape(a, b) && p < |a| && j <= |kids| && (forall k :: 0 <= k < |kids| ==> kids[k] < p)
    ensures Tree(b) && ScopeTargets(a, p, kids, j) == ScopeTargets(b, p, kids, j)
    decreases |kids| - j
  {
    SameLinksTree(a, b);
    if j < |kids| {
      SymbolTargetsShape(a, b, kids[j]);
      ScopeTargetsShape(a, b, p, kids, j + 1);
    }
  }

  /** The walks over leading children, symbols and scopes are fatal exactly
      when a name they look at is unknown, and otherwise resolve every
      identifier they look at and change nothing else. */
  lemma {:induction false} ResolveLeadingLaw(nodes: seq<Node>, tab: Table<nat>, ofFunction: bool, p: nat, kids: seq<nat>, j: nat)
    requires Tree(nodes) && p < |nodes| && j <= |kids| && (forall k :: 0 <= k < |kids| ==> kids[k] < p)
    ensures var r := ResolveLeading(nodes, tab, ofFunction, p, kids, j); var T := LeadingTargets(nodes, ofFunction, p, kids, j);
            && (r.Fatal? <==> Unfound(nodes, tab, T))
            && (r.Ok? ==> RewritesIn(nodes, r.value, tab, T) && Cleared(r.value, T))
    decreases |kids| - j
  {
    if j < |kids| && Leads(ofFunction, nodes[kids[j]].construct) {
      var A := Targets(nodes, kids[j]);
      var B := LeadingTargets(nodes, ofFunction, p, kids, j + 1);
      ResolveDatatypeLaw(nodes, tab, kids[j]);
      var step := ResolveDatatype(nodes, tab, kids[j]);
      if step.Ok? {
        var n1 := step.value;
        SameLinksTree(nodes, n1);
        LeadingTargetsShape(nodes, n1, ofFunction, p, kids, j + 1);
        ResolveLeadingLaw(n1, tab, ofFunction, p, kids, j + 1);
        var r := ResolveLeading(n1, tab, ofFunction, p, kids, j + 1);
        assert ResolveLeading(nodes, tab, ofFunction, p, kids, j) == r;
        if r.Ok? {
          RewritesThen(nodes, n1, r.value, tab, A, B);
        } else {
          RewritesThen(nodes, n1, n1, tab, A, B);
        }
      }
    } else {
      RewritesRefl(nodes, tab, {});
    }
  }

  lemma ResolveSymbolLaw(nodes: seq<Node>, tab: Table<nat>, k: nat)
    requires Tree(nodes) && k < |nodes|
    ensures var r := ResolveSymbol(nodes, tab, k); var T := SymbolTargets(nodes, k);
            && (r.Fatal? <==> Unfound(nodes, tab, T))
            && (r.Ok? ==> RewritesIn(nodes, r.value, tab, T) && Cleared(r.value, T))
  {
    KidsLinks(nodes, k);
    match nodes[k].construct
    case Function(_) => ResolveLeadingLaw(nodes, tab, true, k, ChildrenOf(nodes, k), 0);
    case Structure(_, _) => ResolveLeadingLaw(nodes, tab, false, k, ChildrenOf(nodes, k), 0);
    case Variable(_) => ResolveDatatypeLaw(nodes, tab, k);
    case _ => RewritesRefl(nodes, tab, {});
  }

  lemma {:induction false} ResolveScopeLaw(nodes: seq<Node>, tab: Table<nat>, p: nat, kids: seq<nat>, j: nat)
    requires Tree(nodes) && p < |nodes| && j <= |kids| && (forall k :: 0 <= k < |kids| ==> kids[k] < p)
    ensures var r := ResolveScope(nodes, tab, p, kids, j); var T := ScopeTargets(nodes, p, kids, j);
            && (r.Fatal? <==> Unfound(nodes, tab, T))
            && (r.Ok? ==> RewritesIn(nodes, r.value, tab, T) && Cleared(r.value, T))
    decreases |kids| - j
  {
    if j < |kids| {
      var A := SymbolTargets(nodes, kids[j]);
      var B := ScopeTargets(nodes, p, kids, j + 1);
      ResolveSymbolLaw(nodes, tab, kids[j]);
      var step := ResolveSymbol(nodes, tab, kids[j]);
      if step.Ok? {
        var n1 := step.value;
        SameLinksTree(nodes, n1);
        ScopeTargetsShape(nodes, n1, p, kids, j + 1);
        ResolveScopeLaw(n1, tab, p, kids, j + 1);
        var r := ResolveScope(n1, tab, p, kids, j + 1);
        assert ResolveScope(nodes, tab, p, kids, j) == r;
        if r.Ok? {
          RewritesThen(nodes, n1, r.value, tab, A, B);
        } else {
          RewritesThen(nodes, n1, n1, tab, A, B);
        }
      }
    } else {
      RewritesRefl(nodes, tab, {});
    }
  }

  // ---------------------------------------------------------------- laying out a scope

  /** The third loop of `resolve_content`, from child `j` on: every child
      that is a structure is laid out. */
  function LayoutFrom(nodes: seq<Node>, ghost nodes0: seq<Node>, ghost rank: seq<nat>, kids: seq<nat>, j: nat): (r: Result<seq<Node>>)
    requires Laying(nodes0, rank, nodes) && j <= |kids| && (forall k :: 0 <= k < |kids| ==> kids[k] < |nodes|)
    ensures r.Ok? ==> Relaid(nodes0, r.value)
    decreases |kids| - j
  {
    if j == |kids| then Ok(nodes)
    else if nodes[kids[j]].construct.Structure? then
      var l :- FullyDefine(nodes, nodes0, rank, kids[j]);
      LayoutFrom(l.nodes, nodes0, rank, kids, j + 1)
    else LayoutFrom(nodes, nodes0, rank, kids, j + 1)
  }

  /** The structures among children `j` on of the scope have their sizes. */
  ghost predicate SizedFrom(nodes: seq<Node>, kids: seq<nat>, j: nat)
  {
    forall k :: j <= k < |kids| && kids[k] < |nodes| && nodes[kids[k]].construct.Structure? ==> nodes[kids[k]].construct.size != 0
  }

  /** A child laid out with a size, followed by laid-out children, keeps it. */
  lemma SizedStep(l: seq<Node>, r: seq<Node>, kids: seq<nat>, j: nat)
    requires j < |kids| && kids[j] < |l| && Settled(l, r) && SizedFrom(r, kids, j + 1)
    requires l[kids[j]].construct.Structure? && l[kids[j]].construct.size != 0
    ensures SizedFrom(r, kids, j)
  {
    assert r[kids[j]].construct == l[kids[j]].construct;
  }

  /** The third loop leaves every structure that had a size as it was, and
      leaves every structure child with a size. */
  lemma {:induction false} LayoutLaw(nodes: seq<Node>, nodes0: seq<Node>, rank: seq<nat>, kids: seq<nat>, j: nat)
    requires Laying(nodes0, rank, nodes) && j <= |kids| && (forall k :: 0 <= k < |kids| ==> kids[k] < |nodes|)
    ensures var r := LayoutFrom(nodes, nodes0, rank, kids, j);
            r.Ok? ==> Settled(nodes, r.value) && SizedFrom(r.value, kids, j)
    decreases |kids| - j
  {
    if j < |kids| {
      var r := LayoutFrom(nodes, nodes0, rank, kids, j);
      if nodes[kids[j]].construct.Structure? {
        var l := FullyDefine(nodes, nodes0, rank, kids[j]);
        FullyDefineSettled(nodes, nodes0, rank, kids[j]);
        if l.Ok? {
          LayoutLaw(l.value.nodes, nodes0, rank, kids, j + 1);
          if r.Ok? {
            assert r == LayoutFrom(l.value.nodes, nodes0, rank, kids, j + 1);
            SettledTrans(nodes, l.value.nodes, r.value);
            assert l.value.nodes[kids[j]].construct.size != 0;
            SizedStep(l.value.nodes, r.value, kids, j);
          }
        }
      } else {
        LayoutLaw(nodes, nodes0, rank, kids, j + 1);
      }
    }
  }

  // ---------------------------------------------------------------- a whole scope

  /** What `resolve_content` needs of scope `p` beyond the parser's layout:
      the structures of the arena as resolved contain one another by value
      without a cycle, ranked by `rank`. */
  ghost predicate ContentReady(nodes: seq<Node>, tab: Table<nat>, p: nat, rank: seq<nat>) {
    && Shaped(nodes) && p < |nodes| && Valid(tab)
    && (var kids := ScopeKids(nodes, p);
        var resolved := ResolveScope(nodes, RegisterFrom(nodes, tab, kids, 0), p, kids, 0);
        resolved.Ok? ==> Acyclic(resolved.value, rank))
  }

  /** `resolve_content` on scope `p`: register every child, then resolve
      every child's datatypes against the full table, then lay out every
      structure child. */
  function Content(nodes: seq<Node>, tab: Table<nat>, p: nat, ghost rank: seq<nat>): (r: Result<seq<Node>>)
    requires ContentReady(nodes, tab, p, rank)
    ensures r.Ok? ==> SameLinks(nodes, r.value)
  {
    var kids := ScopeKids(nodes, p);
    var resolved :- ResolveScope(nodes, RegisterFrom(nodes, tab, kids, 0), p, kids, 0);
    SameShapeShaped(nodes, resolved);
    var r := LayoutFrom(resolved, resolved, rank, kids, 0);
    if r.Ok? then SameLinksTrans(nodes, resolved, r.value); r else r
  }

  /** `resolve_content` is fatal when a datatype of the scope names
      something no child of the scope declares and the table did not know
      before; otherwise every such name is resolved, to the last child that
      declares it, before any structure is laid out. */
  lemma ContentLaw(nodes: seq<Node>, tab: Table<nat>, p: nat, rank: seq<nat>)
    requires ContentReady(nodes, tab, p, rank)
    ensures var kids := ScopeKids(nodes, p);
            var tab2 := RegisterFrom(nodes, tab, kids, 0);
            var T := ScopeTargets(nodes, p, kids, 0);
            var resolved := ResolveScope(nodes, tab2, p, kids, 0);
            && (Unfound(nodes, tab2, T) ==> Content(nodes, tab, p, rank).Fatal?)
            && (resolved.Ok? ==> RewritesIn(nodes, resolved.value, tab2, T) && Cleared(resolved.value, T))
            && (forall name :: Find(tab2, name) == if LastDeclaring(nodes, kids, 0, name).Some?
                                                   then LastDeclaring(nodes, kids, 0, name) else Find(tab, name))
  {
    var kids := ScopeKids(nodes, p);
    RegisterLaw(nodes, tab, kids, 0);
    ResolveScopeLaw(nodes, RegisterFrom(nodes, tab, kids, 0), p, kids, 0);
  }

  /** Once `resolve_content` has been through a scope, every structure
      declared in it has its size, and any structure laid out before keeps
      the size it had. */
  lemma ContentLaysOut(nodes: seq<Node>, tab: Table<nat>, p: nat, rank: seq<nat>)
    requires ContentReady(nodes, tab, p, rank)
    ensures var kids := ScopeKids(nodes, p);
            var r := Content(nodes, tab, p, rank);
            r.Ok? ==> && SizedFrom(r.value, kids, 0)
                      && forall j :: 0 <= j < |nodes| && nodes[j].construct.Structure? && nodes[j].construct.size != 0 ==>
                           r.value[j].construct == nodes[j].construct
  {
    var kids := ScopeKids(nodes, p);
    var resolved := ResolveScope(nodes, RegisterFrom(nodes, tab, kids, 0), p, kids, 0);
    if resolved.Ok? {
      SameShapeShaped(nodes, resolved.value);
      LayoutLaw(resolved.value, resolved.value, rank, kids, 0);
      ResolveScopeLaw(nodes, RegisterFrom(nodes, tab, kids, 0), p, kids, 0);
    }
  }

  // ---------------------------------------------------------------- the cursor walks of a scope

  /** One child of a walk over leading children done. */
  lemma LeadingStep(a0: seq<Node>, a: seq<Node>, b: seq<Node>, tab: Table<nat>, ofFunction: bool, p: nat, kids: seq<nat>, j: nat)
    requires Shaped(a0) && SameShape(a0, a) && p < |a| && j < |kids| && (forall k :: 0 <= k < |kids| ==> kids[k] < p)
    requires Tree(a) && Leads(ofFunction, a[kids[j]].construct) && ResolveDatatype(a, tab, kids[j]) == Ok(b)
    ensures Shaped(b) && SameShape(a0, b)
    ensures ResolveLeading(a, tab, ofFunction, p, kids, j) == ResolveLeading(b, tab, ofFunction, p, kids, j + 1)
  {
    SameShapeTrans(a0, a, b);
    SameShapeShaped(a0, b);
  }

  /** One child of a walk over a scope done. */
  lemma ScopeStep(a0: seq<Node>, a: seq<Node>, b: seq<Node>, tab: Table<nat>, p: nat, kids: seq<nat>, j: nat)
    requires Shaped(a0) && SameShape(a0, a) && p < |a| && j < |kids| && (forall k :: 0 <= k < |kids| ==> kids[k] < p)
    requires Tree(a) && ResolveSymbol(a, tab, kids[j]) == Ok(b)
    ensures Shaped(b) && SameShape(a0, b)
    ensures ResolveScope(a, tab, p, kids, j) == ResolveScope(b, tab, p, kids, j + 1)
  {
    SameShapeTrans(a0, a, b);
    SameShapeShaped(a0, b);
  }

  /** `check_for_symbol`: registers the current node if it declares a
      name. */
  method CheckForSymbol(g: Generator)
    requires Ready(g)
    modifies g.symbols
    ensures Ready(g) && g.symbols.Model() == Register(g.nodes, old(g.symbols.Model()), Last(g.treeStack))
  {
    var current := g.Current();
    var name := Declared(current.value);
    if name.Some? {
      var index := g.GetRefId();
      AddValid(g.symbols.Model(), name.value, index.value);
      g.symbols.AddSymbol(name.value, index.value);
    }
  }

  /** The first loop of `resolve_content`: from the first child of the
      scope to its last. */
  method RegisterKids(g: Generator, ghost kids: seq<nat>)
    requires Ready(g) && |g.treeStack| >= 2 && Last(Pop(g.treeStack)) < |g.nodes|
    requires kids == ScopeKids(g.nodes, Last(Pop(g.treeStack))) && kids != [] && Last(g.treeStack) == kids[0]
    modifies g, g.symbols
    ensures Ready(g) && g.nodes == old(g.nodes) && g.treeStack == Pop(old(g.treeStack)) + [kids[|kids| - 1]]
    ensures g.symbols.Model() == RegisterFrom(g.nodes, old(g.symbols.Model()), kids, 0)
  {
    ghost var base := Pop(g.treeStack);
    ghost var tab0 := g.symbols.Model();
    KidsLinks(g.nodes, Last(base));
    assert g.treeStack == base + [kids[0]];
    ghost var j := 0;
    while true
      invariant j < |kids| && g.treeStack == base + [kids[j]] && g.nodes == old(g.nodes) && Ready(g)
      invariant RegisterFrom(g.nodes, g.symbols.Model(), kids, j) == RegisterFrom(g.nodes, tab0, kids, 0)
      decreases |kids| - j
    {
      CheckForSymbol(g);
      var more := g.Next();
      if !more.value {
        break;
      }
      j := j + 1;
    }
  }

  /** `resolve_function` (`ofFunction`) and `resolve_structure`: resolves
      the datatypes of the leading arguments and returned values, or of
      the leading members, of the current node. */
  method ResolveLeadingM(g: Generator, ofFunction: bool) returns (r: Result<()>)
    requires Ready(g) && NeedsChild(g.nodes[Last(g.treeStack)].construct)
    modifies g
    ensures var p := Last(old(g.treeStack));
            var spec := ResolveLeading(old(g.nodes), g.symbols.Model(), ofFunction, p, ScopeKids(old(g.nodes), p), 0);
            && (r.Ok? <==> spec.Ok?)
            && (r.Ok? ==> g.nodes == spec.value && g.treeStack == old(g.treeStack))
  {
    ghost var nodes0 := g.nodes;
    ghost var base := g.treeStack;
    ghost var p := Last(base);
    ghost var tab := g.symbols.Model();
    ghost var kids := ScopeKids(nodes0, p);
    KidsLinks(nodes0, p);
    var down := g.Down();
    ghost var j := 0;
    while true
      invariant 0 <= j < |kids|
      invariant g.treeStack == base + [kids[j]]
      invariant Shaped(g.nodes) && SameShape(nodes0, g.nodes)
      invariant ResolveLeading(g.nodes, tab, ofFunction, p, kids, j) == ResolveLeading(nodes0, tab, ofFunction, p, kids, 0)
      invariant g.symbols.Model() == tab
      decreases |kids| - j
    {
      var current := g.Current();
      if !Leads(ofFunction, current.value) {
        assert ResolveLeading(g.nodes, tab, ofFunction, p, kids, j) == Ok(g.nodes);
        break;
      }
      ghost var before := g.nodes;
      var _ :- ResolveDatatypeM(g);
      LeadingStep(nodes0, before, g.nodes, tab, ofFunction, p, kids, j);
      assert g.nodes[kids[j]].next == nodes0[kids[j]].next;
      var more := g.Next();
      if !more.value {
        assert j + 1 == |kids|;
        break;
      }
      j := j + 1;
    }
    var up := g.Up();
    return Ok(());
  }

  /** `resolve_symbol_datatypes`: resolves the datatypes the current
      declaration uses. */
  method ResolveSymbolDatatypes(g: Generator) returns (r: Result<()>)
    requires Ready(g)
    modifies g
    ensures var spec := ResolveSymbol(old(g.nodes), g.symbols.Model(), Last(old(g.treeStack)));
            && (r.Ok? <==> spec.Ok?)
            && (r.Ok? ==> g.nodes == spec.value && g.treeStack == old(g.treeStack))
  {
    var current := g.Current();
    match current.value {
      case Function(_) =>
        r := ResolveLeadingM(g, true);
      case Structure(_, _) =>
        r := ResolveLeadingM(g, false);
      case Variable(_) =>
        r := ResolveDatatypeM(g);
      case _ =>
        r := Ok(());
    }
  }

  /** The second loop of `resolve_content`. */
  method ResolveKids(g: Generator, ghost kids: seq<nat>) returns (r: Result<()>)
    requires Ready(g) && |g.treeStack| >= 2 && Last(Pop(g.treeStack)) < |g.nodes|
    requires kids == ScopeKids(g.nodes, Last(Pop(g.treeStack))) && kids != [] && Last(g.treeStack) == kids[0]
    modifies g
    ensures var spec := ResolveScope(old(g.nodes), g.symbols.Model(), Last(Pop(old(g.treeStack))), kids, 0);
            && (r.Ok? <==> spec.Ok?)
            && (r.Ok? ==> g.nodes == spec.value && g.treeStack == Pop(old(g.treeStack)) + [kids[|kids| - 1]])
  {
    ghost var nodes0 := g.nodes;
    ghost var base := Pop(g.treeStack);
    ghost var p := Last(base);
    ghost var tab := g.symbols.Model();
    KidsLinks(nodes0, p);
    assert g.treeStack == base + [kids[0]];
    ghost var j := 0;
    while true
      invariant 0 <= j < |kids|
      invariant g.treeStack == base + [kids[j]]
      invariant Shaped(g.nodes) && SameShape(nodes0, g.nodes)
      invariant ResolveScope(g.nodes, tab, p, kids, j) == ResolveScope(nodes0, tab, p, kids, 0)
      invariant g.symbols.Model() == tab
      decreases |kids| - j
    {
      ghost var before := g.nodes;
      var _ :- ResolveSymbolDatatypes(g);
      ScopeStep(nodes0, before, g.nodes, tab, p, kids, j);
      assert g.nodes[kids[j]].next == nodes0[kids[j]].next;
      var more := g.Next();
      if !more.value {
        assert j == |kids| - 1;
        break;
      }
      j := j + 1;
    }
    return Ok(());
  }

  /** One round of the third loop of `resolve_content`: the current child
      `j`, when a structure, is laid out. */
  method LayoutChild(g: Generator, ghost nodes0: seq<Node>, ghost rank: seq<nat>, ghost kids: seq<nat>, ghost j: nat) returns (r: Result<()>)
    requires Laying(nodes0, rank, g.nodes) && j < |kids| && (forall k :: 0 <= k < |kids| ==> kids[k] < |g.nodes|)
    requires g.treeStack != [] && Last(g.treeStack) == kids[j]
    modifies g
    ensures var spec := LayoutFrom(old(g.nodes), nodes0, rank, kids, j);
            && (r.Ok? || !spec.Ok?)
            && (r.Ok? ==> && Laying(nodes0, rank, g.nodes) && |g.nodes| == |old(g.nodes)| && g.treeStack == old(g.treeStack)
                          && spec == LayoutFrom(g.nodes, nodes0, rank, kids, j + 1)
                          && g.nodes[kids[j]].next == nodes0[kids[j]].next)
  {
    var current := g.Current();
    if current.value.Structure? {
      var _ :- FullyDefineStructure(g, nodes0, rank);
    }
    return Ok(());
  }

  /** The third loop of `resolve_content`. */
  method LayoutKids(g: Generator, ghost nodes0: seq<Node>, ghost rank: seq<nat>, ghost kids: seq<nat>) returns (r: Result<()>)
    requires Laying(nodes0, rank, g.nodes) && |g.treeStack| >= 2 && Last(Pop(g.treeStack)) < |g.nodes|
    requires kids == ScopeKids(nodes0, Last(Pop(g.treeStack))) && kids != [] && Last(g.treeStack) == kids[0]
    modifies g
    ensures var spec := LayoutFrom(old(g.nodes), nodes0, rank, kids, 0);
            && (r.Ok? <==> spec.Ok?)
            && (r.Ok? ==> g.nodes == spec.value && g.treeStack == Pop(old(g.treeStack)) + [kids[|kids| - 1]])
  {
    ghost var base := Pop(g.treeStack);
    ghost var p := Last(base);
    ghost var goal := LayoutFrom(g.nodes, nodes0, rank, kids, 0);
    KidsLinks(nodes0, p);
    assert g.treeStack == base + [kids[0]];
    ghost var j := 0;
    while true
      invariant 0 <= j < |kids|
      invariant g.treeStack == base + [kids[j]]
      invariant Laying(nodes0, rank, g.nodes)
      invariant LayoutFrom(g.nodes, nodes0, rank, kids, j) == goal
      decreases |kids| - j
    {
      var _ :- LayoutChild(g, nodes0, rank, kids, j);
      var more := g.Next();
      if !more.value {
        break;
      }
      j := j + 1;
    }
    return Ok(());
  }

  /** `resolve_content`: the three passes over the children of the current
      node, a program or a block. */
  method ResolveContent(g: Generator, ghost rank: seq<nat>) returns (r: Result<()>)
    requires Ready(g) && g.nodes[Last(g.treeStack)].child.Some?
    requires ContentReady(g.nodes, g.symbols.Model(), Last(g.treeStack), rank)
    modifies g, g.symbols
    ensures var p := Last(old(g.treeStack));
            var spec := Content(old(g.nodes), old(g.symbols.Model()), p, rank);
            && (r.Ok? <==> spec.Ok?)
            && (r.Ok? ==> && g.nodes == spec.value && g.treeStack == old(g.treeStack)
                          && g.symbols.Model() == RegisterFrom(old(g.nodes), old(g.symbols.Model()), ScopeKids(old(g.nodes), p), 0))
  {
    ghost var base := g.treeStack;
    ghost var p := Last(base);
    ghost var kids := ScopeKids(g.nodes, p);
    KidsLinks(g.nodes, p);
    var down := g.Down();
    assert Pop(g.treeStack) == base;
    RegisterKids(g, kids);
    var restart := g.Restart();
    ghost var resolving := g.nodes;
    var _ :- ResolveKids(g, kids);
    ghost var resolved := g.nodes;
    SameShapeShaped(resolving, resolved);
    SameLinksChildren(resolving, resolved, p);
    restart := g.Restart();
    var _ :- LayoutKids(g, resolved, rank, kids);
    var up := g.Up();
    return Ok(());
  }
}
