/** The checker's passes over the arena. In each block it registers the
    declarations of the block, then resolves every identifier below each
    child by setting the identifier's child link to the declaring node,
    except in the parameter and return types of functions; a function
    opens a scope of its own, in which its arguments and returned values
    are registered before its body is resolved. */
module CheckerWalks {
  import opened Outcomes
  import opened Constructs
  import opened Trees
  import opened Shapes
  import opened Scopes
  import opened Checkers
  import Resolve

  // ---------------------------------------------------------------- what resolution may change

  /** `b` is `a` with, at most, the child links of identifiers changed. */
  ghost predicate Rewired(a: seq<Node>, b: seq<Node>) {
    && |a| == |b|
    && forall j :: 0 <= j < |a| ==>
         && b[j].construct == a[j].construct && b[j].next == a[j].next
         && (b[j].child == a[j].child || a[j].construct.Identifier?)
  }

  /** The arena being checked, with `nodes0` as it was before: the walks
      follow the links of `nodes0`, which rewiring an identifier does not
      change for any other node. */
  ghost predicate Checking(nodes0: seq<Node>, nodes: seq<Node>) {
    Tree(nodes0) && Rewired(nodes0, nodes)
  }

  lemma RewiredChildren(a: seq<Node>, b: seq<Node>, p: nat)
    requires Rewired(a, b) && p < |a| && !a[p].construct.Identifier?
    ensures ChildrenOf(a, p) == ChildrenOf(b, p)
  {
    SameNextChildren(a, b, a[p].child);
  }

  /** The children of a node other than an identifier, which rewiring
      leaves as the parser made them. */
  function LiveKids(nodes: seq<Node>, ghost nodes0: seq<Node>, p: nat): (kids: seq<nat>)
    requires Checking(nodes0, nodes) && p < |nodes| && !nodes[p].construct.Identifier?
    ensures kids == ChildrenOf(nodes, p) && kids == ChildrenOf(nodes0, p)
    ensures forall k :: 0 <= k < |kids| ==> kids[k] < p
    ensures Chained(nodes, kids) && (nodes[p].child.None? <==> kids == [])
    ensures nodes[p].child.Some? ==> kids[0] == nodes[p].child.value
  {
    RewiredChildren(nodes0, nodes, p);
    KidsLinks(nodes0, p);
    ChildrenOf(nodes, p)
  }

  /** The `next` links of `nodes` run through `kids` in order and end there. */
  ghost predicate Chained(nodes: seq<Node>, kids: seq<nat>) {
    && (forall i :: 0 <= i < |kids| ==> kids[i] < |nodes|)
    && (forall i :: 0 <= i < |kids| - 1 ==> nodes[kids[i]].next == Some(kids[i + 1]))
    && (kids != [] ==> nodes[kids[|kids| - 1]].next == None)
  }

  /** Construct `c` declares `name`: a function, structure or variable by
      its name, an argument by its name, and a returned value, having none,
      under the empty name. */
  predicate Names(c: Construct, name: string) {
    Resolve.Declared(c) == Some(name) || c == Construct.Argument(name) || (c.Returned? && name == "")
  }

  /** Identifier `c` of `nodes0` is linked, in `b`, to a node declaring its name. */
  ghost predicate Bound(nodes0: seq<Node>, b: seq<Node>, c: nat)
    requires c < |nodes0| && |b| == |nodes0| && nodes0[c].construct.Identifier?
  {
    && b[c].child.Some? && b[c].child.value < |nodes0|
    && Names(nodes0[b[c].child.value].construct, nodes0[c].construct.name)
  }

  /** Every link the checker has made in `b` points to a declaration of the
      identifier's name. */
  ghost predicate Sound(nodes0: seq<Node>, b: seq<Node>) {
    && Rewired(nodes0, b)
    && forall j :: 0 <= j < |b| && b[j].child != nodes0[j].child ==> nodes0[j].construct.Identifier? && Bound(nodes0, b, j)
  }

  /** From `a` to `b` every node either stays or is an identifier that is
      now soundly linked. */
  ghost predicate Relinks(nodes0: seq<Node>, a: seq<Node>, b: seq<Node>) {
    && |a| == |nodes0| && |b| == |nodes0|
    && forall j :: 0 <= j < |b| ==> b[j] == a[j] || (nodes0[j].construct.Identifier? && Bound(nodes0, b, j))
  }

  /** Every identifier of `T` is soundly linked in `b`. */
  ghost predicate Covered(nodes0: seq<Node>, b: seq<Node>, T: set<nat>) {
    && |b| == |nodes0|
    && forall c :: c in T && c < |b| && nodes0[c].construct.Identifier? ==> Bound(nodes0, b, c)
  }

  lemma RelinksRefl(nodes0: seq<Node>, a: seq<Node>)
    requires |a| == |nodes0|
    ensures Relinks(nodes0, a, a)
  { }

  lemma RelinksTrans(nodes0: seq<Node>, a: seq<Node>, b: seq<Node>, c: seq<Node>)
    requires Relinks(nodes0, a, b) && Relinks(nodes0, b, c)
    ensures Relinks(nodes0, a, c)
  {
    forall j | 0 <= j < |c|
      ensures c[j] == a[j] || (nodes0[j].construct.Identifier? && Bound(nodes0, c, j))
    {
      if c[j] == b[j] && b[j] != a[j] {
        assert Bound(nodes0, b, j);
      }
    }
  }

  /** What is covered stays covered, and the union is covered. */
  lemma CoveredThen(nodes0: seq<Node>, a: seq<Node>, b: seq<Node>, T: set<nat>, U: set<nat>)
    requires Covered(nodes0, a, T) && Relinks(nodes0, a, b) && Covered(nodes0, b, U)
    ensures Covered(nodes0, b, T + U)
  {
    forall c | c in T && c < |b| && nodes0[c].construct.Identifier?
      ensures Bound(nodes0, b, c)
    {
      if b[c] == a[c] {
        assert Bound(nodes0, a, c);
      }
    }
  }

  /** Every symbol of the table names a node that declares it. */
  ghost predicate TabSound(nodes0: seq<Node>, t: Table<Symbol>) {
    forall i :: 0 <= i < |t.mappings| ==>
      t.mappings[i].symbol.nodeI < |nodes0| && Names(nodes0[t.mappings[i].symbol.nodeI].construct, t.mappings[i].name)
  }

  /** What a sound table finds for a name is a declaration of that name. */
  lemma FindSound(nodes0: seq<Node>, t: Table<Symbol>, name: string)
    requires Valid(t) && TabSound(nodes0, t) && Find(t, name).Some?
    ensures Find(t, name).value.nodeI < |nodes0| && Names(nodes0[Find(t, name).value.nodeI].construct, name)
  {
    assert Lookup(t.table, name) == LastIndex(t.mappings, name, |t.mappings|);
  }

  lemma AddSound(nodes0: seq<Node>, t: Table<Symbol>, name: string, s: Symbol)
    requires TabSound(nodes0, t) && s.nodeI < |nodes0| && Names(nodes0[s.nodeI].construct, name)
    ensures TabSound(nodes0, Scopes.Add(t, name, s))
  { }

  /** Closing a scope keeps a sound table sound. */
  lemma DecreaseSound(nodes0: seq<Node>, t: Table<Symbol>)
    requires Valid(t) && TabSound(nodes0, t) && t.scope != []
    ensures TabSound(nodes0, Decrease(t).value)
  {
    DecreaseLaw(t);
    var u := Decrease(t).value;
    forall i | 0 <= i < |u.mappings|
      ensures u.mappings[i] == t.mappings[i]
    { }
  }

  // ---------------------------------------------------------------- registering a block

  /** The symbol `check_for_symbol` records for declaration `k` at scope
      depth `depth`: a function carries its label, and structures and
      variables alike are recorded as structures. */
  function SymbolOf(nodes: seq<Node>, k: nat, depth: nat): (s: Symbol)
    requires k < |nodes|
    ensures s.nodeI == k
    ensures s.data.Function? <==> nodes[k].construct.Function?
  {
    match nodes[k].construct
    case Function(name) => Symbol(k, SymbolData.Function(FunctionLabel(name, depth)))
    case _ => Symbol(k, SymbolData.Structure)
  }

  /** `check_for_symbol` on node `k`: a function, structure or variable is
      registered under its name; anything else registers nothing. */
  function CheckForSymbol(nodes: seq<Node>, tab: Table<Symbol>, k: nat): Table<Symbol>
    requires k < |nodes|
  {
    match Resolve.Declared(nodes[k].construct)
    case Some(name) => Scopes.Add(tab, name, SymbolOf(nodes, k, |tab.scope|))
    case None => tab
  }

  /** The first loop of a block: every child registered in order. */
  function CheckForSymbols(nodes: seq<Node>, tab: Table<Symbol>, kids: seq<nat>, j: nat): Table<Symbol>
    requires j <= |kids| && forall k :: 0 <= k < |kids| ==> kids[k] < |nodes|
    decreases |kids| - j
  {
    if j == |kids| then tab else CheckForSymbols(nodes, CheckForSymbol(nodes, tab, kids[j]), kids, j + 1)
  }

  /** After the first loop each name finds the last child that declares it,
      recorded at the depth of the block, and any other name what it found
      before; no scope opens or closes, and a sound table stays sound. */
  lemma {:induction false} CheckForSymbolsLaw(nodes: seq<Node>, tab: Table<Symbol>, kids: seq<nat>, j: nat)
    requires Valid(tab) && j <= |kids| && forall k :: 0 <= k < |kids| ==> kids[k] < |nodes|
    ensures var t := CheckForSymbols(nodes, tab, kids, j);
            && Valid(t) && Stays(tab, t)
            && (TabSound(nodes, tab) ==> TabSound(nodes, t))
            && forall name :: Find(t, name) == if Resolve.LastDeclaring(nodes, kids, j, name).Some?
                                                then Some(SymbolOf(nodes, Resolve.LastDeclaring(nodes, kids, j, name).value, |tab.scope|))
                                                else Find(tab, name)
    decreases |kids| - j
  {
    if j == |kids| {
      StaysRefl(tab);
    } else {
      var k := kids[j];
      var t1 := CheckForSymbol(nodes, tab, k);
      if Resolve.Declared(nodes[k].construct).Some? {
        var name := Resolve.Declared(nodes[k].construct).value;
        var s := SymbolOf(nodes, k, |tab.scope|);
        AddValid(tab, name, s);
        AddFind(tab, name, s);
        AddStays(tab, name, s);
        if TabSound(nodes, tab) {
          AddSound(nodes, tab, name, s);
        }
      } else {
        StaysRefl(tab);
      }
      CheckForSymbolsLaw(nodes, t1, kids, j + 1);
      StaysTrans(tab, t1, CheckForSymbols(nodes, t1, kids, j + 1));
    }
  }

  // ---------------------------------------------------------------- resolving below a node

  /** Identifier `x` linked to the node `tab` finds for its name. */
  function LinkOf(x: Node, tab: Table<Symbol>): (y: Node)
    ensures y.construct == x.construct && y.next == x.next
  {
    if x.construct.Identifier? && Find(tab, x.construct.name).Some?
    then x.(child := Some(Find(tab, x.construct.name).value.nodeI))
    else x
  }

  /** `resolve_identifier` on node `k`: an identifier gets the declaring
      node as its child, and the result says whether `k` was an identifier. */
  function ResolveIdentifier(nodes: seq<Node>, tab: Table<Symbol>, k: nat): (r: Result<(seq<Node>, bool)>)
    requires k < |nodes|
    ensures r.Fatal? <==> nodes[k].construct.Identifier? && Find(tab, nodes[k].construct.name).None?
    ensures r.Ok? ==> && (r.value.1 <==> nodes[k].construct.Identifier?)
                      && r.value.0 == nodes[k := LinkOf(nodes[k], tab)]
  {
    if !nodes[k].construct.Identifier? then Ok((nodes, false))
    else
      var name := nodes[k].construct.name;
      match Find(tab, name)
      case Some(symbol) => Ok((nodes[k := nodes[k].(child := Some(symbol.nodeI))], true))
      case None => Fatal("Could not resolve symbol for identifier " + name)
  }

  /** `resolve_node` on node `k`: an identifier is resolved; any other node
      has the nodes below it resolved, child by child. */
  function ResolveNode(nodes: seq<Node>, ghost nodes0: seq<Node>, tab: Table<Symbol>, k: nat): (r: Result<seq<Node>>)
    requires Checking(nodes0, nodes) && k < |nodes|
    ensures r.Ok? ==> Rewired(nodes0, r.value)
    decreases k, 1
  {
    var res :- ResolveIdentifier(nodes, tab, k);
    if res.1 then Ok(res.0)
    else
      RewiredChildren(nodes0, nodes, k);
      KidsLinks(nodes0, k);
      ResolveNodeFrom(nodes, nodes0, tab, k, ChildrenOf(nodes, k), 0)
  }

  function ResolveNodeFrom(nodes: seq<Node>, ghost nodes0: seq<Node>, tab: Table<Symbol>, k: nat, kids: seq<nat>, j: nat): (r: Result<seq<Node>>)
    requires Checking(nodes0, nodes) && k < |nodes| && j <= |kids| && forall i :: 0 <= i < |kids| ==> kids[i] < k
    ensures r.Ok? ==> Rewired(nodes0, r.value)
    decreases k, 0, |kids| - j
  {
    if j == |kids| then Ok(nodes)
    else
      var n1 :- ResolveNode(nodes, nodes0, tab, kids[j]);
      ResolveNodeFrom(n1, nodes0, tab, k, kids, j + 1)
  }

  /** The identifiers `resolve_node` on `k` visits: `k` itself if it is
      one, otherwise those below each of its children. */
  ghost function NodeIdents(nodes0: seq<Node>, k: nat): set<nat>
    requires Tree(nodes0) && k < |nodes0|
    decreases k, 1
  {
    if nodes0[k].construct.Identifier? then {k}
    else
      KidsLinks(nodes0, k);
      NodeIdentsFrom(nodes0, k, ChildrenOf(nodes0, k), 0)
  }

  ghost function NodeIdentsFrom(nodes0: seq<Node>, k: nat, kids: seq<nat>, j: nat): set<nat>
    requires Tree(nodes0) && k < |nodes0| && j <= |kids| && forall i :: 0 <= i < |kids| ==> kids[i] < k
    decreases k, 0, |kids| - j
  {
    if j == |kids| then {} else NodeIdents(nodes0, kids[j]) + NodeIdentsFrom(nodes0, k, kids, j + 1)
  }

  /** `b` is `a` with every identifier of `T` linked to what `tab` finds,
      and nothing else changed. */
  ghost predicate LinksIn(a: seq<Node>, b: seq<Node>, tab: Table<Symbol>, T: set<nat>) {
    && |a| == |b|
    && forall j :: 0 <= j < |a| ==> b[j] == if j in T then LinkOf(a[j], tab) else a[j]
  }

  /** Some identifier of `T` names nothing `tab` finds. */
  ghost predicate Unfound(nodes0: seq<Node>, tab: Table<Symbol>, T: set<nat>) {
    exists c :: c in T && c < |nodes0| && nodes0[c].construct.Identifier? && Find(tab, nodes0[c].construct.name).None?
  }

  lemma UnfoundUnion(nodes0: seq<Node>, tab: Table<Symbol>, T: set<nat>, U: set<nat>)
    ensures Unfound(nodes0, tab, T + U) <==> Unfound(nodes0, tab, T) || Unfound(nodes0, tab, U)
  {
    if Unfound(nodes0, tab, T + U) {
      var c :| c in T + U && c < |nodes0| && nodes0[c].construct.Identifier? && Find(tab, nodes0[c].construct.name).None?;
      assert c in T || c in U;
    }
  }

  lemma LinksThen(a: seq<Node>, b: seq<Node>, c: seq<Node>, tab: Table<Symbol>, T: set<nat>, U: set<nat>)
    requires LinksIn(a, b, tab, T) && LinksIn(b, c, tab, U)
    ensures LinksIn(a, c, tab, T + U)
  {
    forall j | 0 <= j < |a|
      ensures c[j] == if j in T + U then LinkOf(a[j], tab) else a[j]
    {
      if j in T && j in U {
        assert LinkOf(LinkOf(a[j], tab), tab) == LinkOf(a[j], tab);
      }
    }
  }

  /** `resolve_node` is fatal exactly when an identifier it visits names
      nothing the table finds; otherwise it links every identifier it
      visits to what the table finds, and changes nothing else. */
  lemma {:induction false} ResolveNodeLaw(nodes: seq<Node>, nodes0: seq<Node>, tab: Table<Symbol>, k: nat)
    requires Checking(nodes0, nodes) && k < |nodes|
    ensures var T := NodeIdents(nodes0, k);
            var r := ResolveNode(nodes, nodes0, tab, k);
            && (r.Fatal? <==> Unfound(nodes0, tab, T))
            && (r.Ok? ==> LinksIn(nodes, r.value, tab, T))
    decreases k, 1
  {
    var T := NodeIdents(nodes0, k);
    if nodes0[k].construct.Identifier? {
      assert nodes[k].construct == nodes0[k].construct;
    } else {
      RewiredChildren(nodes0, nodes, k);
      KidsLinks(nodes0, k);
      ResolveNodeFromLaw(nodes, nodes0, tab, k, ChildrenOf(nodes, k), 0);
    }
  }

  lemma {:induction false} ResolveNodeFromLaw(nodes: seq<Node>, nodes0: seq<Node>, tab: Table<Symbol>, k: nat, kids: seq<nat>, j: nat)
    requires Checking(nodes0, nodes) && k < |nodes| && j <= |kids| && forall i :: 0 <= i < |kids| ==> kids[i] < k
    ensures var T := NodeIdentsFrom(nodes0, k, kids, j);
            var r := ResolveNodeFrom(nodes, nodes0, tab, k, kids, j);
            && (r.Fatal? <==> Unfound(nodes0, tab, T))
            && (r.Ok? ==> LinksIn(nodes, r.value, tab, T))
    decreases k, 0, |kids| - j
  {
    if j < |kids| {
      var A := NodeIdents(nodes0, kids[j]);
      var B := NodeIdentsFrom(nodes0, k, kids, j + 1);
      ResolveNodeLaw(nodes, nodes0, tab, kids[j]);
      var n1 := ResolveNode(nodes, nodes0, tab, kids[j]);
      if n1.Ok? {
        ResolveNodeFromLaw(n1.value, nodes0, tab, k, kids, j + 1);
        var r := ResolveNodeFrom(n1.value, nodes0, tab, k, kids, j + 1);
        if r.Ok? {
          LinksThen(nodes, n1.value, r.value, tab, A, B);
        }
      }
      UnfoundUnion(nodes0, tab, A, B);
    }
  }

  /** Linking with a sound table links soundly. */
  lemma LinksSound(nodes0: seq<Node>, a: seq<Node>, b: seq<Node>, tab: Table<Symbol>, T: set<nat>)
    requires Valid(tab) && TabSound(nodes0, tab) && Sound(nodes0, a) && LinksIn(a, b, tab, T) && !Unfound(nodes0, tab, T)
    ensures Sound(nodes0, b) && Relinks(nodes0, a, b) && Covered(nodes0, b, T)
  {
    forall j | 0 <= j < |b| && b[j] != a[j]
      ensures nodes0[j].construct.Identifier? && Bound(nodes0, b, j)
    {
      FindSound(nodes0, tab, a[j].construct.name);
    }
    forall c | c in T && c < |b| && nodes0[c].construct.Identifier?
      ensures Bound(nodes0, b, c)
    {
      FindSound(nodes0, tab, a[c].construct.name);
    }
    forall j | 0 <= j < |b| && b[j].child != nodes0[j].child
      ensures nodes0[j].construct.Identifier? && Bound(nodes0, b, j)
    {
      if b[j] == a[j] {
        assert Bound(nodes0, a, j);
      }
    }
  }

  /** A sound table finds soundly in either of two arenas that differ only
      in links. */
  lemma TabSoundRewired(a: seq<Node>, b: seq<Node>, t: Table<Symbol>)
    requires Rewired(a, b) && TabSound(b, t)
    ensures TabSound(a, t)
  {
    forall i | 0 <= i < |t.mappings|
      ensures t.mappings[i].symbol.nodeI < |a| && Names(a[t.mappings[i].symbol.nodeI].construct, t.mappings[i].name)
    {
      assert b[t.mappings[i].symbol.nodeI].construct == a[t.mappings[i].symbol.nodeI].construct;
    }
  }

  // ---------------------------------------------------------------- functions and blocks

  /** What the checker's state is between steps. */
  datatype CState = CState(nodes: seq<Node>, tab: Table<Symbol>)

  /** The table is consistent and sound, and every link made is sound. */
  ghost predicate Fine(nodes0: seq<Node>, st: CState) {
    Valid(st.tab) && TabSound(nodes0, st.tab) && Sound(nodes0, st.nodes)
  }

  /** `check_for_argument` looks for an `Argument`, `check_for_returned` for
      a `Returned`. */
  predicate IsParam(c: Construct, returned: bool) {
    if returned then c.Returned? else c.Argument?
  }

  /** The name a parameter is registered under; a returned value has none. */
  function ParamName(c: Construct): (name: string)
    ensures c.Argument? || c.Returned? ==> Names(c, name)
  {
    if c.Argument? then c.name else ""
  }

  /** Where a run of parameters starting at `kids[j]` ends. */
  function LeadingEnd(nodes: seq<Node>, kids: seq<nat>, j: nat, returned: bool): (e: nat)
    requires j <= |kids| && forall k :: 0 <= k < |kids| ==> kids[k] < |nodes|
    ensures j <= e <= |kids|
    ensures forall i :: j <= i < e ==> IsParam(nodes[kids[i]].construct, returned)
    ensures e < |kids| ==> !IsParam(nodes[kids[e]].construct, returned)
    decreases |kids| - j
  {
    if j == |kids| || !IsParam(nodes[kids[j]].construct, returned) then j
    else LeadingEnd(nodes, kids, j + 1, returned)
  }

  lemma {:induction false} LeadingEndSame(a: seq<Node>, b: seq<Node>, kids: seq<nat>, j: nat, returned: bool)
    requires Rewired(a, b) && j <= |kids| && forall k :: 0 <= k < |kids| ==> kids[k] < |a|
    ensures LeadingEnd(a, kids, j, returned) == LeadingEnd(b, kids, j, returned)
    decreases |kids| - j
  {
    if j < |kids| {
      assert a[kids[j]].construct == b[kids[j]].construct;
      LeadingEndSame(a, b, kids, j + 1, returned);
    }
  }

  /** `check_for_argument` and `check_for_returned` on a parameter: it is
      registered as a variable of undecided storage under its own index. */
  function RegisterParam(nodes: seq<Node>, tab: Table<Symbol>, k: nat): Table<Symbol>
    requires k < |nodes|
  {
    Scopes.Add(tab, ParamName(nodes[k].construct), Symbol(k, SymbolData.Variable(Undefined)))
  }

  /** The parameters `kids[j..e]` registered in order, each as a variable of
      undecided storage under its own index. */
  function RegisterParams(nodes: seq<Node>, tab: Table<Symbol>, kids: seq<nat>, j: nat, e: nat): Table<Symbol>
    requires j <= e <= |kids| && forall k :: 0 <= k < |kids| ==> kids[k] < |nodes|
    decreases e - j
  {
    if j == e then tab
    else RegisterParams(nodes, RegisterParam(nodes, tab, kids[j]), kids, j + 1, e)
  }

  /** Registering one more parameter at the end of a run. */
  lemma {:induction false} RegisterParamsSnoc(nodes: seq<Node>, tab: Table<Symbol>, kids: seq<nat>, j: nat, e: nat)
    requires j <= e < |kids| && forall k :: 0 <= k < |kids| ==> kids[k] < |nodes|
    ensures RegisterParams(nodes, tab, kids, j, e + 1) == RegisterParam(nodes, RegisterParams(nodes, tab, kids, j, e), kids[e])
    decreases e - j
  {
    if j < e {
      RegisterParamsSnoc(nodes, RegisterParam(nodes, tab, kids[j]), kids, j + 1, e);
    }
  }

  /** Registering parameters keeps the table consistent and opens or
      closes no scope. */
  lemma RegisterParamsLaw(nodes: seq<Node>, tab: Table<Symbol>, kids: seq<nat>, j: nat, e: nat)
    requires Valid(tab) && j <= e <= |kids| && forall k :: 0 <= k < |kids| ==> kids[k] < |nodes|
    ensures var t := RegisterParams(nodes, tab, kids, j, e);
            Valid(t) && Stays(tab, t)
  {
    RegisterParamsValid(nodes, tab, kids, j, e);
    RegisterParamsStays(nodes, tab, kids, j, e);
  }

  lemma {:induction false} RegisterParamsValid(nodes: seq<Node>, tab: Table<Symbol>, kids: seq<nat>, j: nat, e: nat)
    requires Valid(tab) && j <= e <= |kids| && forall k :: 0 <= k < |kids| ==> kids[k] < |nodes|
    ensures Valid(RegisterParams(nodes, tab, kids, j, e))
    decreases e - j
  {
    if j < e {
      var t1 := RegisterParam(nodes, tab, kids[j]);
      AddValid(tab, ParamName(nodes[kids[j]].construct), Symbol(kids[j], SymbolData.Variable(Undefined)));
      assert Valid(t1);
      RegisterParamsValid(nodes, t1, kids, j + 1, e);
      assert RegisterParams(nodes, tab, kids, j, e) == RegisterParams(nodes, t1, kids, j + 1, e);
    }
  }

  lemma {:induction false} RegisterParamsStays(nodes: seq<Node>, tab: Table<Symbol>, kids: seq<nat>, j: nat, e: nat)
    requires j <= e <= |kids| && forall k :: 0 <= k < |kids| ==> kids[k] < |nodes|
    ensures Stays(tab, RegisterParams(nodes, tab, kids, j, e))
    decreases e - j
  {
    if j == e {
      StaysRefl(tab);
    } else {
      var t1 := RegisterParam(nodes, tab, kids[j]);
      AddStays(tab, ParamName(nodes[kids[j]].construct), Symbol(kids[j], SymbolData.Variable(Undefined)));
      RegisterParamsStays(nodes, t1, kids, j + 1, e);
      StaysTrans(tab, t1, RegisterParams(nodes, t1, kids, j + 1, e));
    }
  }

  /** Registering parameters keeps a sound table sound: each is registered
      under the name it declares. */
  lemma {:induction false} RegisterParamsSound(nodes: seq<Node>, tab: Table<Symbol>, kids: seq<nat>, j: nat, e: nat)
    requires TabSound(nodes, tab) && j <= e <= |kids| && forall k :: 0 <= k < |kids| ==> kids[k] < |nodes|
    requires forall i :: j <= i < e ==> nodes[kids[i]].construct.Argument? || nodes[kids[i]].construct.Returned?
    ensures TabSound(nodes, RegisterParams(nodes, tab, kids, j, e))
    decreases e - j
  {
    if j < e {
      var t1 := RegisterParam(nodes, tab, kids[j]);
      AddSound(nodes, tab, ParamName(nodes[kids[j]].construct), Symbol(kids[j], SymbolData.Variable(Undefined)));
      RegisterParamsSound(nodes, t1, kids, j + 1, e);
    }
  }


  /** Where the function's block must be: the child after the leading
      arguments and the returned values that follow them. */
  function BlockAt(nodes: seq<Node>, kids: seq<nat>): (i2: nat)
    requires forall k :: 0 <= k < |kids| ==> kids[k] < |nodes|
    ensures i2 <= |kids|
  {
    LeadingEnd(nodes, kids, LeadingEnd(nodes, kids, 0, false), true)
  }

  /** The table inside a function: a fresh scope holding its arguments and
      then its returned values. */
  function ParamScope(nodes: seq<Node>, tab: Table<Symbol>, kids: seq<nat>): Table<Symbol>
    requires forall k :: 0 <= k < |kids| ==> kids[k] < |nodes|
  {
    var i := LeadingEnd(nodes, kids, 0, false);
    RegisterParams(nodes, RegisterParams(nodes, Increase(tab), kids, 0, i), kids, i, BlockAt(nodes, kids))
  }

  /** The parameter scope is consistent, opened on top of `tab`. */
  lemma ParamScopeValid(nodes: seq<Node>, tab: Table<Symbol>, kids: seq<nat>)
    requires Valid(tab) && forall k :: 0 <= k < |kids| ==> kids[k] < |nodes|
    ensures var t := ParamScope(nodes, tab, kids);
            Valid(t) && Opened(tab, t)
  {
    var t1 := Increase(tab);
    IncreaseLaw(tab);
    IncreaseOpens(tab);
    var i := LeadingEnd(nodes, kids, 0, false);
    var t2 := RegisterParams(nodes, t1, kids, 0, i);
    RegisterParamsLaw(nodes, t1, kids, 0, i);
    var t3 := RegisterParams(nodes, t2, kids, i, BlockAt(nodes, kids));
    RegisterParamsLaw(nodes, t2, kids, i, BlockAt(nodes, kids));
    StaysTrans(t1, t2, t3);
    OpenedThen(tab, t1, t3);
  }

  /** The parameter scope of a sound table is sound: every parameter is
      registered under the name it declares. */
  lemma ParamScopeSound(nodes: seq<Node>, tab: Table<Symbol>, kids: seq<nat>)
    requires TabSound(nodes, tab) && forall k :: 0 <= k < |kids| ==> kids[k] < |nodes|
    ensures TabSound(nodes, ParamScope(nodes, tab, kids))
  {
    var i := LeadingEnd(nodes, kids, 0, false);
    RegisterParamsSound(nodes, Increase(tab), kids, 0, i);
    RegisterParamsSound(nodes, RegisterParams(nodes, Increase(tab), kids, 0, i), kids, i, BlockAt(nodes, kids));
  }

  lemma BlockAtSame(a: seq<Node>, b: seq<Node>, kids: seq<nat>)
    requires Rewired(a, b) && forall k :: 0 <= k < |kids| ==> kids[k] < |a|
    ensures BlockAt(a, kids) == BlockAt(b, kids)
  {
    LeadingEndSame(a, b, kids, 0, false);
    LeadingEndSame(a, b, kids, LeadingEnd(a, kids, 0, false), true);
  }

  /** `resolve_function` on function node `f`: one scope is opened, the
      leading arguments and then the leading returned values are registered,
      the block that must follow is resolved, and the scope is closed. */
  function ResolveFunction(nodes: seq<Node>, ghost nodes0: seq<Node>, tab: Table<Symbol>, f: nat): (r: Result<CState>)
    requires Checking(nodes0, nodes) && f < |nodes| && nodes[f].construct.Function?
    ensures r.Ok? ==> Rewired(nodes0, r.value.nodes)
    decreases f, 3
  {
    RewiredChildren(nodes0, nodes, f);
    KidsLinks(nodes0, f);
    var kids := ChildrenOf(nodes, f);
    var t3 := ParamScope(nodes, tab, kids);
    var i2 := BlockAt(nodes, kids);
    if i2 == |kids| then Fatal("Expect block node at end of function")
    else if !nodes[kids[i2]].construct.Block? then Fatal("Expected block node at end of function")
    else
      var st :- ResolveBlock(nodes, nodes0, t3, kids[i2]);
      var t4 :- Decrease(st.tab);
      Ok(CState(st.nodes, t4))
  }

  /** `resolve_block` on node `b`: every child registered, then every child
      resolved, in a scope the caller provides. */
  function ResolveBlock(nodes: seq<Node>, ghost nodes0: seq<Node>, tab: Table<Symbol>, b: nat): (r: Result<CState>)
    requires Checking(nodes0, nodes) && b < |nodes|
    ensures r.Ok? ==> Rewired(nodes0, r.value.nodes)
    ensures !(nodes[b].construct.Program? || nodes[b].construct.Block?) ==> r.Fatal?
    decreases b, 2
  {
    if !(nodes[b].construct.Program? || nodes[b].construct.Block?) then Fatal("Invalid node_i passed to resolve_body")
    else
      RewiredChildren(nodes0, nodes, b);
      KidsLinks(nodes0, b);
      var kids := ChildrenOf(nodes, b);
      ResolveChildren(nodes, nodes0, CheckForSymbols(nodes, tab, kids, 0), b, kids, 0)
  }

  function ResolveChildren(nodes: seq<Node>, ghost nodes0: seq<Node>, tab: Table<Symbol>, b: nat, kids: seq<nat>, j: nat): (r: Result<CState>)
    requires Checking(nodes0, nodes) && b < |nodes| && j <= |kids| && forall i :: 0 <= i < |kids| ==> kids[i] < b
    ensures r.Ok? ==> Rewired(nodes0, r.value.nodes)
    decreases b, 1, |kids| - j
  {
    if j == |kids| then Ok(CState(nodes, tab))
    else
      var st :- ResolveChild(nodes, nodes0, tab, kids[j]);
      ResolveChildren(st.nodes, nodes0, st.tab, b, kids, j + 1)
  }

  /** The second loop of `resolve_block` on one child: a block is resolved
      in the same scope, a function in a scope of its own, anything else by
      `resolve_node`. */
  function ResolveChild(nodes: seq<Node>, ghost nodes0: seq<Node>, tab: Table<Symbol>, k: nat): (r: Result<CState>)
    requires Checking(nodes0, nodes) && k < |nodes|
    ensures r.Ok? ==> Rewired(nodes0, r.value.nodes)
    decreases k, 4
  {
    if nodes[k].construct.Block? then ResolveBlock(nodes, nodes0, tab, k)
    else if nodes[k].construct.Function? then ResolveFunction(nodes, nodes0, tab, k)
    else
      var n1 :- ResolveNode(nodes, nodes0, tab, k);
      Ok(CState(n1, tab))
  }

  /** `resolve_ast`: the root is the last node and is resolved as a block
      with the empty table; an empty arena has no root. */
  function ResolveAst(nodes: seq<Node>): (r: Result<seq<Node>>)
    requires Tree(nodes)
    ensures r.Ok? ==> Rewired(nodes, r.value)
  {
    if nodes == [] then Fatal("empty ast")
    else
      var st :- ResolveBlock(nodes, nodes, Empty(), |nodes| - 1);
      Ok(st.nodes)
  }

  // ---------------------------------------------------------------- the identifiers each pass visits

  ghost function ChildIdents(nodes0: seq<Node>, k: nat): set<nat>
    requires Tree(nodes0) && k < |nodes0|
    decreases k, 4
  {
    if nodes0[k].construct.Block? then BlockIdents(nodes0, k)
    else if nodes0[k].construct.Function? then FunctionIdents(nodes0, k)
    else NodeIdents(nodes0, k)
  }

  ghost function FunctionIdents(nodes0: seq<Node>, f: nat): set<nat>
    requires Tree(nodes0) && f < |nodes0|
    decreases f, 3
  {
    KidsLinks(nodes0, f);
    var kids := ChildrenOf(nodes0, f);
    var i2 := BlockAt(nodes0, kids);
    if i2 < |kids| && nodes0[kids[i2]].construct.Block? then BlockIdents(nodes0, kids[i2]) else {}
  }

  ghost function BlockIdents(nodes0: seq<Node>, b: nat): set<nat>
    requires Tree(nodes0) && b < |nodes0|
    decreases b, 2
  {
    if !(nodes0[b].construct.Program? || nodes0[b].construct.Block?) then {}
    else
      KidsLinks(nodes0, b);
      ChildrenIdents(nodes0, b, ChildrenOf(nodes0, b), 0)
  }

  ghost function ChildrenIdents(nodes0: seq<Node>, b: nat, kids: seq<nat>, j: nat): set<nat>
    requires Tree(nodes0) && b < |nodes0| && j <= |kids| && forall i :: 0 <= i < |kids| ==> kids[i] < b
    decreases b, 1, |kids| - j
  {
    if j == |kids| then {} else ChildIdents(nodes0, kids[j]) + ChildrenIdents(nodes0, b, kids, j + 1)
  }

  // ---------------------------------------------------------------- the laws of resolution

  /** A successful `resolve_function` leaves the table exactly as it found
      it, however its arguments shadowed outer names; every identifier in
      its block is soundly linked, and every other node is as it was. */
  lemma {:induction false} ResolveFunctionLaw(nodes: seq<Node>, nodes0: seq<Node>, tab: Table<Symbol>, f: nat)
    requires Tree(nodes0) && Fine(nodes0, CState(nodes, tab)) && f < |nodes| && nodes[f].construct.Function?
    ensures var r := ResolveFunction(nodes, nodes0, tab, f);
            r.Ok? ==> && Fine(nodes0, r.value) && r.value.tab == tab
                      && Relinks(nodes0, nodes, r.value.nodes) && Covered(nodes0, r.value.nodes, FunctionIdents(nodes0, f))
    decreases f, 3
  {
    RewiredChildren(nodes0, nodes, f);
    KidsLinks(nodes0, f);
    var kids := ChildrenOf(nodes, f);
    var t3 := ParamScope(nodes, tab, kids);
    var i2 := BlockAt(nodes, kids);
    BlockAtSame(nodes0, nodes, kids);
    if i2 < |kids| && nodes[kids[i2]].construct.Block? {
      TabSoundRewired(nodes, nodes0, tab);
      ParamScopeValid(nodes, tab, kids);
      ParamScopeSound(nodes, tab, kids);
      TabSoundRewired(nodes0, nodes, t3);
      ResolveBlockLaw(nodes, nodes0, t3, kids[i2]);
      var st := ResolveBlock(nodes, nodes0, t3, kids[i2]);
      if st.Ok? {
        OpenedThen(tab, t3, st.value.tab);
        ScopeRoundTrip(tab, st.value.tab);
      }
    }
  }

  /** A successful `resolve_block` opens and closes no scope and only adds
      to the table; every identifier below the block is soundly linked,
      except in the parameter and return types of functions inside it, and
      every other node is as it was. */
  lemma {:induction false} ResolveBlockLaw(nodes: seq<Node>, nodes0: seq<Node>, tab: Table<Symbol>, b: nat)
    requires Tree(nodes0) && Fine(nodes0, CState(nodes, tab)) && b < |nodes|
    ensures var r := ResolveBlock(nodes, nodes0, tab, b);
            r.Ok? ==> && Fine(nodes0, r.value) && Stays(tab, r.value.tab)
                      && Relinks(nodes0, nodes, r.value.nodes) && Covered(nodes0, r.value.nodes, BlockIdents(nodes0, b))
    decreases b, 2
  {
    if nodes[b].construct.Program? || nodes[b].construct.Block? {
      RewiredChildren(nodes0, nodes, b);
      KidsLinks(nodes0, b);
      var kids := ChildrenOf(nodes, b);
      var t1 := CheckForSymbols(nodes, tab, kids, 0);
      TabSoundRewired(nodes, nodes0, tab);
      CheckForSymbolsLaw(nodes, tab, kids, 0);
      TabSoundRewired(nodes0, nodes, t1);
      ResolveChildrenLaw(nodes, nodes0, t1, b, kids, 0);
      var r := ResolveChildren(nodes, nodes0, t1, b, kids, 0);
      if r.Ok? {
        StaysTrans(tab, t1, r.value.tab);
      }
    }
  }

  lemma {:induction false} ResolveChildrenLaw(nodes: seq<Node>, nodes0: seq<Node>, tab: Table<Symbol>, b: nat, kids: seq<nat>, j: nat)
    requires Tree(nodes0) && Fine(nodes0, CState(nodes, tab)) && b < |nodes| && j <= |kids| && forall i :: 0 <= i < |kids| ==> kids[i] < b
    ensures var r := ResolveChildren(nodes, nodes0, tab, b, kids, j);
            r.Ok? ==> && Fine(nodes0, r.value) && Stays(tab, r.value.tab)
                      && Relinks(nodes0, nodes, r.value.nodes) && Covered(nodes0, r.value.nodes, ChildrenIdents(nodes0, b, kids, j))
    decreases b, 1, |kids| - j
  {
    if j == |kids| {
      StaysRefl(tab);
      RelinksRefl(nodes0, nodes);
    } else {
      ResolveChildLaw(nodes, nodes0, tab, kids[j]);
      var st := ResolveChild(nodes, nodes0, tab, kids[j]);
      if st.Ok? {
        var s := st.value;
        ResolveChildrenLaw(s.nodes, nodes0, s.tab, b, kids, j + 1);
        var r := ResolveChildren(s.nodes, nodes0, s.tab, b, kids, j + 1);
        if r.Ok? {
          StaysTrans(tab, s.tab, r.value.tab);
          RelinksTrans(nodes0, nodes, s.nodes, r.value.nodes);
          CoveredThen(nodes0, s.nodes, r.value.nodes, ChildIdents(nodes0, kids[j]), ChildrenIdents(nodes0, b, kids, j + 1));
        }
      }
    }
  }

  lemma {:induction false} ResolveChildLaw(nodes: seq<Node>, nodes0: seq<Node>, tab: Table<Symbol>, k: nat)
    requires Tree(nodes0) && Fine(nodes0, CState(nodes, tab)) && k < |nodes|
    ensures var r := ResolveChild(nodes, nodes0, tab, k);
            r.Ok? ==> && Fine(nodes0, r.value) && Stays(tab, r.value.tab)
                      && Relinks(nodes0, nodes, r.value.nodes) && Covered(nodes0, r.value.nodes, ChildIdents(nodes0, k))
    decreases k, 4
  {
    assert nodes[k].construct == nodes0[k].construct;
    if nodes[k].construct.Block? {
      ResolveBlockLaw(nodes, nodes0, tab, k);
    } else if nodes[k].construct.Function? {
      ResolveFunctionLaw(nodes, nodes0, tab, k);
      StaysRefl(tab);
    } else {
      ResolveNodeLaw(nodes, nodes0, tab, k);
      var n1 := ResolveNode(nodes, nodes0, tab, k);
      if n1.Ok? {
        LinksSound(nodes0, nodes, n1.value, tab, NodeIdents(nodes0, k));
      }
      StaysRefl(tab);
    }
  }

  /** The parser's arena with the empty table is where resolution starts. */
  lemma StartFine(nodes: seq<Node>)
    ensures Fine(nodes, CState(nodes, Empty()))
  {
    assert Rewired(nodes, nodes);
  }

  /** The root block, resolved from the parser's arena and the empty table,
      links soundly every identifier it visits. */
  lemma RootLaw(nodes: seq<Node>)
    requires Tree(nodes) && nodes != []
    ensures var r := ResolveBlock(nodes, nodes, Empty(), |nodes| - 1);
            r.Ok? ==> Sound(nodes, r.value.nodes) && Covered(nodes, r.value.nodes, BlockIdents(nodes, |nodes| - 1))
  {
    StartFine(nodes);
    ResolveBlockLaw(nodes, nodes, Empty(), |nodes| - 1);
  }

  /** After a successful `resolve_ast` every identifier the walk visits is
      linked to a node that declares its name, and every node it changes is
      such an identifier. The walk visits every identifier except those in
      function parameter and return types (see `FunctionIdents`). */
  lemma ResolveAstLaw(nodes: seq<Node>)
    requires Tree(nodes)
    ensures var r := ResolveAst(nodes);
            r.Ok? ==> && nodes != [] && Sound(nodes, r.value)
                      && Covered(nodes, r.value, BlockIdents(nodes, |nodes| - 1))
  {
    if nodes != [] {
      RootLaw(nodes);
    }
  }

  // ---------------------------------------------------------------- the checking pass

  /** `check_content` on node `p`: every child registered; the pass that
      resolves each child's datatype and the check of each function are not
      defined in the checker, so they change nothing here; a nested block is
      checked in a scope of its own; statements are skipped. */
  function CheckContent(nodes: seq<Node>, tab: Table<Symbol>, p: nat): (r: Result<Table<Symbol>>)
    requires Tree(nodes) && p < |nodes|
    decreases p, 1
  {
    if !(nodes[p].construct.Program? || nodes[p].construct.Block?) then Fatal("Invalid node_i passed to resolve_body")
    else
      var kids := ScopeKids(nodes, p);
      CheckChildren(nodes, CheckForSymbols(nodes, tab, kids, 0), p, kids, 0)
  }

  function CheckChildren(nodes: seq<Node>, tab: Table<Symbol>, p: nat, kids: seq<nat>, j: nat): (r: Result<Table<Symbol>>)
    requires Tree(nodes) && p < |nodes| && j <= |kids| && forall i :: 0 <= i < |kids| ==> kids[i] < p
    decreases p, 0, |kids| - j
  {
    if j == |kids| then Ok(tab)
    else if nodes[kids[j]].construct.Block? then
      var t :- CheckBlock(nodes, tab, kids[j]);
      CheckChildren(nodes, t, p, kids, j + 1)
    else CheckChildren(nodes, tab, p, kids, j + 1)
  }

  /** `check_block`: `check_content` between one opening and one closing of
      a scope. */
  function CheckBlock(nodes: seq<Node>, tab: Table<Symbol>, b: nat): (r: Result<Table<Symbol>>)
    requires Tree(nodes) && b < |nodes|
    decreases b, 2
  {
    var t :- CheckContent(nodes, Increase(tab), b);
    Decrease(t)
  }

  /** `check_content` is fatal exactly on a node that is neither a program
      nor a block; otherwise the table it leaves is the one its first loop
      made, since every nested block's declarations are gone when its scope
      closes. This rests on the undefined per-child passes changing nothing
      in this model. */
  lemma {:induction false} CheckContentLaw(nodes: seq<Node>, tab: Table<Symbol>, p: nat)
    requires Tree(nodes) && p < |nodes| && Valid(tab)
    ensures var r := CheckContent(nodes, tab, p);
            && (r.Ok? <==> nodes[p].construct.Program? || nodes[p].construct.Block?)
            && (r.Ok? ==> r.value == CheckForSymbols(nodes, tab, ScopeKids(nodes, p), 0))
    decreases p, 1
  {
    if nodes[p].construct.Program? || nodes[p].construct.Block? {
      var kids := ScopeKids(nodes, p);
      CheckForSymbolsLaw(nodes, tab, kids, 0);
      CheckChildrenLaw(nodes, CheckForSymbols(nodes, tab, kids, 0), p, kids, 0);
    }
  }

  lemma {:induction false} CheckChildrenLaw(nodes: seq<Node>, tab: Table<Symbol>, p: nat, kids: seq<nat>, j: nat)
    requires Tree(nodes) && p < |nodes| && j <= |kids| && forall i :: 0 <= i < |kids| ==> kids[i] < p
    requires Valid(tab)
    ensures CheckChildren(nodes, tab, p, kids, j) == Ok(tab)
    decreases p, 0, |kids| - j
  {
    if j < |kids| {
      if nodes[kids[j]].construct.Block? {
        CheckBlockLaw(nodes, tab, kids[j]);
      }
      CheckChildrenLaw(nodes, tab, p, kids, j + 1);
    }
  }

  /** `check_block` on a block leaves the table exactly as it found it (with
      the undefined per-child passes changing nothing, as in `CheckContent`). */
  lemma {:induction false} CheckBlockLaw(nodes: seq<Node>, tab: Table<Symbol>, b: nat)
    requires Tree(nodes) && b < |nodes| && Valid(tab)
    ensures nodes[b].construct.Program? || nodes[b].construct.Block? ==> CheckBlock(nodes, tab, b) == Ok(tab)
    ensures !(nodes[b].construct.Program? || nodes[b].construct.Block?) ==> CheckBlock(nodes, tab, b).Fatal?
    decreases b, 2
  {
    var t1 := Increase(tab);
    IncreaseLaw(tab);
    IncreaseOpens(tab);
    CheckContentLaw(nodes, t1, b);
    if nodes[b].construct.Program? || nodes[b].construct.Block? {
      var kids := ScopeKids(nodes, b);
      CheckForSymbolsLaw(nodes, t1, kids, 0);
      var t := CheckForSymbols(nodes, t1, kids, 0);
      OpenedThen(tab, t1, t);
      ScopeRoundTrip(tab, t);
    }
  }
}
