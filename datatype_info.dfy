/** What the code generator reads off a datatype subtree: its size in bytes
    and the class of register it travels in, and whether two datatypes are
    the same type. Every query moves the generator's cursor down to the
    datatype and back. */
module DatatypeInfos {
  import opened Outcomes
  import opened Constructs
  import opened Trees
  import opened Shapes
  import opened Generators
  import opened Layouts

  /** The class of register a value travels in. */
  datatype Regtype = Integer | Float | Pointer | Struct

  datatype Info = Info(size: nat, regtype: Regtype)

  /** Where an argument or a returned value is passed. */
  datatype PassLocation = PassLocation(index: nat, size: nat, regtype: Regtype)

  // ---------------------------------------------------------------- the queries

  /** `skip_qualifiers` from child `j` on: the position of the first child
      that is not a qualifier; running out of children is fatal. */
  function Skip(nodes: seq<Node>, kids: seq<nat>, j: nat): (r: Result<nat>)
    requires j < |kids| && forall k :: 0 <= k < |kids| ==> kids[k] < |nodes|
    ensures r.Ok? ==> && j <= r.value < |kids| && !nodes[kids[r.value]].construct.Qualifier?
                      && forall i :: j <= i < r.value ==> nodes[kids[i]].construct.Qualifier?
    ensures r.Fatal? <==> forall i :: j <= i < |kids| ==> nodes[kids[i]].construct.Qualifier?
    decreases |kids| - j
  {
    if !nodes[kids[j]].construct.Qualifier? then Ok(j)
    else if j + 1 == |kids| then Fatal("")
    else Skip(nodes, kids, j + 1)
  }

  /** The node of terminal datatype `d` that names its type: its first
      child that is not a qualifier. */
  function TerminalOf(nodes: seq<Node>, d: nat): (r: Result<nat>)
    requires Shaped(nodes) && d < |nodes| && nodes[d].construct.Datatype?
    ensures r.Ok? ==> r.value in ChildrenOf(nodes, d) && r.value < d && !nodes[r.value].construct.Qualifier?
    ensures r.Fatal? <==> forall i :: 0 <= i < |ScopeKids(nodes, d)| ==> nodes[ScopeKids(nodes, d)[i]].construct.Qualifier?
  {
    assert Below(nodes, d);
    var kids := ScopeKids(nodes, d);
    var i :- Skip(nodes, kids, 0);
    assert !nodes[kids[i]].construct.Qualifier?;
    Ok(kids[i])
  }

  /** The size and register class of a primitive. */
  function PrimitiveInfo(p: Primitive): (r: Info)
    ensures r.size == PrimitiveSize(p)
    ensures r.regtype == Float <==> p == F32 || p == F64
    ensures r.regtype == Float || r.regtype == Integer
  {
    match p
    case F32 => Info(4, Float)
    case F64 => Info(8, Float)
    case _ => Info(PrimitiveSize(p), Integer)
  }

  /** `get_datatype_info` on node `d`: a pointer is 8 bytes in an integer
      register of its own class; a terminal is sized by the primitive or
      structure it names. */
  function DatatypeInfo(nodes: seq<Node>, d: nat): (r: Result<Info>)
    requires Shaped(nodes) && d < |nodes|
  {
    if !nodes[d].construct.Datatype? then Fatal("Node at create_pass_location isn't Datatype")
    else if nodes[d].construct.kind == DatatypeKind.Pointer then Ok(Info(8, Regtype.Pointer))
    else
      var k :- TerminalOf(nodes, d);
      NamedInfo(nodes, k)
  }

  /** The size and register class of the type node `k` of a terminal names:
      a primitive, a structure, or a reference to a structure. */
  function NamedInfo(nodes: seq<Node>, k: nat): (r: Result<Info>)
    requires k < |nodes|
  {
    match nodes[k].construct
    case Primitive(p) => Ok(PrimitiveInfo(p))
    case Structure(_, size) => Ok(Info(size, Struct))
    case Reference(t) =>
      if t >= |nodes| then Fatal("index out of bounds")
      else if nodes[t].construct.Structure? then Ok(Info(nodes[t].construct.size, Struct))
      else Fatal("")
    case _ => Fatal("Invalid child of Datatype in get_datatype_info")
  }

  /** `create_pass_location` on argument or returned node `a`: the datatype
      below it, sized, with the given index. */
  function PassLocationOf(nodes: seq<Node>, a: nat, index: nat): (r: Result<PassLocation>)
    requires Shaped(nodes) && a < |nodes|
    ensures r.Ok? <==> nodes[a].child.Some? && DatatypeInfo(nodes, nodes[a].child.value).Ok?
    ensures r.Ok? ==> var info := DatatypeInfo(nodes, nodes[a].child.value).value;
                      r.value == PassLocation(index, info.size, info.regtype)
  {
    assert Below(nodes, a);
    if nodes[a].child.None? then Fatal("Node at create_pass_location isn't Datatype")
    else
      var info :- DatatypeInfo(nodes, nodes[a].child.value);
      Ok(PassLocation(index, info.size, info.regtype))
  }

  // ---------------------------------------------------------------- comparing datatypes

  /** `match_datatype_pointer`: whether datatype node `other` is a pointer;
      any node that is not a datatype is fatal. */
  function MatchPointer(nodes: seq<Node>, other: nat): (r: Result<bool>)
    ensures r.Ok? <==> other < |nodes| && nodes[other].construct.Datatype?
    ensures r.Ok? ==> (r.value <==> nodes[other].construct == Construct.Datatype(DatatypeKind.Pointer))
  {
    if other >= |nodes| then Fatal("index out of bounds")
    else match nodes[other].construct
      case Datatype(kind) => Ok(kind == DatatypeKind.Pointer)
      case _ => Fatal("")
  }

  /** `match_datatype_reference` and `match_datatype_primitive`: whether
      node `other` is a terminal datatype whose type is `want`. */
  function MatchTerminal(nodes: seq<Node>, want: Construct, other: nat): (r: Result<bool>)
    requires Shaped(nodes)
  {
    if other >= |nodes| then Fatal("index out of bounds")
    else match nodes[other].construct
      case Datatype(Terminal) =>
        var k :- TerminalOf(nodes, other);
        Ok(nodes[k].construct == want)
      case _ => Ok(false)
  }

  /** The type part of `validate_datatypes`: a pointer matches a pointer,
      and a terminal naming a structure or a primitive matches a terminal
      naming the same one; a terminal naming anything else matches nothing. */
  function Compatible(nodes: seq<Node>, lhs: nat, rhs: nat): (r: Result<bool>)
    requires Shaped(nodes)
  {
    if lhs >= |nodes| then Fatal("index out of bounds")
    else if !nodes[lhs].construct.Datatype? then Fatal("")
    else if nodes[lhs].construct.kind == DatatypeKind.Pointer then MatchPointer(nodes, rhs)
    else
      var k :- TerminalOf(nodes, lhs);
      var c := nodes[k].construct;
      if c.Reference? || c.Primitive? then MatchTerminal(nodes, c, rhs) else Ok(false)
  }

  // ---------------------------------------------------------------- what the comparison means

  /** What a datatype is, for comparing types: a pointer, or a terminal
      naming a primitive or a structure, or a terminal naming anything else
      (which matches nothing). */
  datatype Key = PointerKey | NamedKey(named: Construct) | NoKey

  function KeyOf(nodes: seq<Node>, d: nat): (r: Result<Key>)
    requires Shaped(nodes) && d < |nodes| && nodes[d].construct.Datatype?
  {
    if nodes[d].construct.kind == DatatypeKind.Pointer then Ok(PointerKey)
    else
      var k :- TerminalOf(nodes, d);
      var c := nodes[k].construct;
      if c.Reference? || c.Primitive? then Ok(NamedKey(c)) else Ok(NoKey)
  }

  /** Two datatypes are compatible exactly when they have the same key and
      that key names something. */
  lemma CompatibleLaw(nodes: seq<Node>, lhs: nat, rhs: nat)
    requires Shaped(nodes) && lhs < |nodes| && rhs < |nodes|
    requires nodes[lhs].construct.Datatype? && nodes[rhs].construct.Datatype?
    ensures KeyOf(nodes, lhs).Fatal? ==> Compatible(nodes, lhs, rhs).Fatal?
    ensures KeyOf(nodes, lhs).Ok? && KeyOf(nodes, rhs).Ok? ==>
              Compatible(nodes, lhs, rhs) == Ok(KeyOf(nodes, lhs).value == KeyOf(nodes, rhs).value && KeyOf(nodes, lhs).value != NoKey)
  {
    var kl := KeyOf(nodes, lhs);
    var kr := KeyOf(nodes, rhs);
    var r := Compatible(nodes, lhs, rhs);
    if kl.Ok? && kr.Ok? && kl.value.NamedKey? {
      var k := TerminalOf(nodes, lhs).value;
      assert r == MatchTerminal(nodes, nodes[k].construct, rhs);
      if kr.value.NamedKey? {
        assert MatchTerminal(nodes, nodes[k].construct, rhs) == Ok(nodes[TerminalOf(nodes, rhs).value].construct == nodes[k].construct);
      }
    }
  }

  /** The comparison is symmetric wherever it reaches a verdict both ways. */
  lemma CompatibleSymmetric(nodes: seq<Node>, a: nat, b: nat)
    requires Shaped(nodes) && a < |nodes| && b < |nodes|
    requires nodes[a].construct.Datatype? && nodes[b].construct.Datatype?
    requires KeyOf(nodes, a).Ok? && KeyOf(nodes, b).Ok?
    ensures Compatible(nodes, a, b) == Compatible(nodes, b, a)
  {
    CompatibleLaw(nodes, a, b);
    CompatibleLaw(nodes, b, a);
  }

  /** Compatible datatypes have the same size and register class. */
  lemma CompatibleInfo(nodes: seq<Node>, lhs: nat, rhs: nat)
    requires Shaped(nodes) && lhs < |nodes| && rhs < |nodes|
    requires nodes[lhs].construct.Datatype? && nodes[rhs].construct.Datatype?
    requires Compatible(nodes, lhs, rhs) == Ok(true)
    ensures DatatypeInfo(nodes, lhs) == DatatypeInfo(nodes, rhs)
  {
    CompatibleLaw(nodes, lhs, rhs);
    if nodes[lhs].construct.kind == Terminal {
      var kl := TerminalOf(nodes, lhs).value;
      assert KeyOf(nodes, rhs).Ok? by {
        assert MatchTerminal(nodes, nodes[kl].construct, rhs).Ok?;
      }
      var kr := TerminalOf(nodes, rhs).value;
      assert nodes[kl].construct == nodes[kr].construct;
    } else {
      assert MatchPointer(nodes, rhs) == Ok(true);
    }
  }

  /** A datatype the comparison can name matches itself. */
  lemma CompatibleReflexive(nodes: seq<Node>, d: nat)
    requires Shaped(nodes) && d < |nodes| && nodes[d].construct.Datatype?
    requires KeyOf(nodes, d).Ok? && KeyOf(nodes, d).value != NoKey
    ensures Compatible(nodes, d, d) == Ok(true)
  {
    CompatibleLaw(nodes, d, d);
  }

  // ---------------------------------------------------------------- agreeing with the layout

  /** The code generator and the layout pass agree: once a member's terminal
      datatype is sized by the layout, `get_datatype_info` reads the same
      size off the arena the layout leaves. */
  lemma TerminalSizeInfo(nodes: seq<Node>, nodes0: seq<Node>, rank: seq<nat>, d: nat, above: nat)
    requires Laying(nodes0, rank, nodes) && d < |nodes| && d < |rank| && rank[d] <= above
    requires nodes[d].construct == Construct.Datatype(Terminal)
    ensures var t := TerminalSize(nodes, nodes0, rank, d, above);
            t.Ok? ==> Shaped(t.value.nodes) && DatatypeInfo(t.value.nodes, d).Ok? && DatatypeInfo(t.value.nodes, d).value.size == t.value.size
  {
    var t := TerminalSize(nodes, nodes0, rank, d, above);
    if t.Ok? {
      TerminalInfoNamed(nodes, nodes0, rank, d, above);
      TerminalNamedSize(nodes, nodes0, rank, d, above);
    }
  }

  /** After the layout, `get_datatype_info` on a terminal reads the node
      its child names. */
  lemma TerminalInfoNamed(nodes: seq<Node>, nodes0: seq<Node>, rank: seq<nat>, d: nat, above: nat)
    requires Laying(nodes0, rank, nodes) && d < |nodes| && d < |rank| && rank[d] <= above
    requires nodes[d].construct == Construct.Datatype(Terminal)
    requires TerminalSize(nodes, nodes0, rank, d, above).Ok?
    ensures var n := TerminalSize(nodes, nodes0, rank, d, above).value.nodes;
            && Shaped(n) && |n| == |nodes| && nodes[d].child.Some? && nodes[d].child.value < |nodes|
            && DatatypeInfo(n, d) == NamedInfo(n, nodes[d].child.value)
  {
    var n := TerminalSize(nodes, nodes0, rank, d, above).value.nodes;
    RelaidKeeps(nodes0, n, rank);
    TerminalSizeSettled(nodes, nodes0, rank, d, above);
    assert Unsized(nodes0[d].construct) == Unsized(nodes[d].construct);
    assert Below(nodes0, d) && NeedsChild(nodes0[d].construct);
    var c := nodes[d].child.value;
    assert n[d].child == nodes[d].child && n[d].construct == nodes[d].construct;
    KidsLinks(n, d);
    assert TerminalOf(n, d) == Ok(c) by {
      assert Unsized(nodes[c].construct) == Unsized(n[c].construct);
    }
  }

  /** The node the child names carries the size the layout computed. */
  lemma TerminalNamedSize(nodes: seq<Node>, nodes0: seq<Node>, rank: seq<nat>, d: nat, above: nat)
    requires Laying(nodes0, rank, nodes) && d < |nodes| && d < |rank| && rank[d] <= above
    requires nodes[d].construct == Construct.Datatype(Terminal)
    requires TerminalSize(nodes, nodes0, rank, d, above).Ok?
    ensures var t := TerminalSize(nodes, nodes0, rank, d, above).value;
            && nodes[d].child.Some? && nodes[d].child.value < |t.nodes|
            && NamedInfo(t.nodes, nodes[d].child.value).Ok?
            && NamedInfo(t.nodes, nodes[d].child.value).value.size == t.size
  {
    var t := TerminalSize(nodes, nodes0, rank, d, above).value;
    var n := t.nodes;
    RelaidKeeps(nodes0, n, rank);
    TerminalSizeSettled(nodes, nodes0, rank, d, above);
    assert Unsized(nodes0[d].construct) == Unsized(nodes[d].construct);
    assert Below(nodes0, d) && NeedsChild(nodes0[d].construct);
    var c := nodes[d].child.value;
    assert Unsized(nodes[c].construct) == Unsized(n[c].construct);
    if nodes[c].construct.Reference? {
      assert Names(nodes0, d, nodes[c].construct.index);
      ReferenceSizeNamed(nodes, nodes0, rank, nodes[c].construct.index, above);
    }
  }

  /** `get_reference_size` leaves the structure it sized carrying that size. */
  lemma ReferenceSizeNamed(nodes: seq<Node>, nodes0: seq<Node>, rank: seq<nat>, t: nat, above: nat)
    requires Laying(nodes0, rank, nodes)
    requires t < |nodes0| && nodes0[t].construct.Structure? ==> rank[t] < above
    ensures var r := ReferenceSize(nodes, nodes0, rank, t, above);
            r.Ok? ==> t < |r.value.nodes| && r.value.nodes[t].construct.Structure?
                      && r.value.nodes[t].construct.size == r.value.size
  {
    var r := ReferenceSize(nodes, nodes0, rank, t, above);
    if r.Ok? && nodes[t].construct.size == 0 {
      FullyDefineSettled(nodes, nodes0, rank, t);
    }
  }

  // ---------------------------------------------------------------- the cursor walks

  /** `skip_qualifiers`, started on the first child of node `d`. */
  method SkipQualifiers(g: Generator, ghost d: nat) returns (r: Result<()>)
    requires Tree(g.nodes) && d < |g.nodes| && g.treeStack != [] && g.nodes[d].child == Some(Last(g.treeStack))
    modifies g
    ensures g.nodes == old(g.nodes) && g.stackSize == old(g.stackSize)
    ensures var kids := ScopeKids(old(g.nodes), d);
            var spec := Skip(old(g.nodes), kids, 0);
            && (r.Ok? <==> spec.Ok?)
            && (r.Ok? ==> g.treeStack == Pop(old(g.treeStack)) + [kids[spec.value]])
  {
    ghost var kids := ChildrenOf(g.nodes, d);
    ghost var base := Pop(g.treeStack);
    KidsLinks(g.nodes, d);
    ghost var j := 0;
    while true
      invariant j < |kids| && g.treeStack == base + [kids[j]]
      invariant g.nodes == old(g.nodes) && g.stackSize == old(g.stackSize)
      invariant Skip(g.nodes, kids, j) == Skip(g.nodes, kids, 0)
      decreases |kids| - j
    {
      var current := g.Current();
      if !current.value.Qualifier? {
        return Ok(());
      }
      var more := g.Next();
      if !more.value {
        return Fatal("");
      }
      j := j + 1;
    }
  }

  /** `get_datatype_info` on the current node; the cursor ends where it
      started. */
  method GetDatatypeInfo(g: Generator) returns (r: Result<Info>)
    requires Shaped(g.nodes) && OnNode(g.nodes, g.treeStack)
    modifies g
    ensures g.nodes == old(g.nodes) && g.stackSize == old(g.stackSize)
    ensures var spec := DatatypeInfo(g.nodes, Last(old(g.treeStack)));
            && (r.Ok? <==> spec.Ok?)
            && (r.Ok? ==> r.value == spec.value && g.treeStack == old(g.treeStack))
  {
    ghost var d := Last(g.treeStack);
    var current := g.Current();
    if !current.value.Datatype? {
      return Fatal("Node at create_pass_location isn't Datatype");
    }
    if current.value.kind == DatatypeKind.Pointer {
      return Ok(Info(8, Regtype.Pointer));
    }
    assert Below(g.nodes, d) && NeedsChild(g.nodes[d].construct);
    var down := g.Down();
    var _ :- SkipQualifiers(g, d);
    var result :- ReadNamed(g);
    var up := g.Up();
    return Ok(result);
  }

  /** The match of `get_datatype_info` on the type node a terminal names,
      the current node. */
  method ReadNamed(g: Generator) returns (r: Result<Info>)
    requires OnNode(g.nodes, g.treeStack)
    modifies g
    ensures g.nodes == old(g.nodes) && g.stackSize == old(g.stackSize)
    ensures var spec := NamedInfo(g.nodes, Last(old(g.treeStack)));
            && (r.Ok? <==> spec.Ok?)
            && (r.Ok? ==> r.value == spec.value && g.treeStack == old(g.treeStack))
  {
    var named := g.Current();
    match named.value {
      case Primitive(p) =>
        return Ok(PrimitiveInfo(p));
      case Structure(_, size) =>
        return Ok(Info(size, Struct));
      case Reference(t) =>
        g.DownRef(t);
        var target := g.Current();
        if target.Fatal? {
          return Fatal("index out of bounds");
        }
        if !target.value.Structure? {
          return Fatal("");
        }
        var up := g.Up();
        return Ok(Info(target.value.size, Struct));
      case _ =>
        return Fatal("Invalid child of Datatype in get_datatype_info");
    }
  }

  /** `create_pass_location` on the current argument or returned node. */
  method CreatePassLocation(g: Generator, index: nat) returns (r: Result<PassLocation>)
    requires Shaped(g.nodes) && OnNode(g.nodes, g.treeStack)
    modifies g
    ensures g.nodes == old(g.nodes) && g.stackSize == old(g.stackSize)
    ensures var spec := PassLocationOf(g.nodes, Last(old(g.treeStack)), index);
            && (r.Ok? <==> spec.Ok?)
            && (r.Ok? ==> r.value == spec.value && g.treeStack == old(g.treeStack))
  {
    ghost var a := Last(g.treeStack);
    assert Below(g.nodes, a);
    var down := g.Down();
    var info :- GetDatatypeInfo(g);
    if !down.value {
      assert false;
    }
    var up := g.Up();
    return Ok(PassLocation(index, info.size, info.regtype));
  }

  /** `match_datatype_pointer` on node `other`. */
  method MatchDatatypePointer(g: Generator, other: nat) returns (r: Result<bool>)
    modifies g
    ensures g.nodes == old(g.nodes) && g.stackSize == old(g.stackSize)
    ensures var spec := MatchPointer(g.nodes, other);
            && (r.Ok? <==> spec.Ok?)
            && (r.Ok? ==> r.value == spec.value && g.treeStack == old(g.treeStack))
  {
    g.DownRef(other);
    var current := g.Current();
    if current.Fatal? {
      return Fatal("index out of bounds");
    }
    if !current.value.Datatype? {
      return Fatal("");
    }
    var up := g.Up();
    return Ok(current.value.kind == DatatypeKind.Pointer);
  }

  /** The walk `match_datatype_reference` and `match_datatype_primitive`
      share: whether node `other` is a terminal datatype naming `want`. */
  method MatchDatatypeTerminal(g: Generator, want: Construct, other: nat) returns (r: Result<bool>)
    requires Shaped(g.nodes)
    modifies g
    ensures g.nodes == old(g.nodes) && g.stackSize == old(g.stackSize)
    ensures var spec := MatchTerminal(g.nodes, want, other);
            && (r.Ok? <==> spec.Ok?)
            && (r.Ok? ==> r.value == spec.value && g.treeStack == old(g.treeStack))
  {
    g.DownRef(other);
    var current := g.Current();
    if current.Fatal? {
      return Fatal("index out of bounds");
    }
    var matches := false;
    if current.value == Construct.Datatype(Terminal) {
      assert Below(g.nodes, other) && NeedsChild(g.nodes[other].construct);
      var down := g.Down();
      var _ :- SkipQualifiers(g, other);
      var named := g.Current();
      matches := named.value == want;
      var up := g.Up();
    }
    var up := g.Up();
    return Ok(matches);
  }

  /** `match_datatype_reference`: whether node `other` is a terminal
      datatype naming the structure at `refI`. */
  method MatchDatatypeReference(g: Generator, refI: nat, other: nat) returns (r: Result<bool>)
    requires Shaped(g.nodes)
    modifies g
    ensures g.nodes == old(g.nodes) && g.stackSize == old(g.stackSize)
    ensures var spec := MatchTerminal(g.nodes, Construct.Reference(refI), other);
            && (r.Ok? <==> spec.Ok?)
            && (r.Ok? ==> r.value == spec.value && g.treeStack == old(g.treeStack))
  {
    r := MatchDatatypeTerminal(g, Construct.Reference(refI), other);
  }

  /** `match_datatype_primitive`: whether node `other` is a terminal
      datatype naming primitive `p`. */
  method MatchDatatypePrimitive(g: Generator, p: Primitive, other: nat) returns (r: Result<bool>)
    requires Shaped(g.nodes)
    modifies g
    ensures g.nodes == old(g.nodes) && g.stackSize == old(g.stackSize)
    ensures var spec := MatchTerminal(g.nodes, Construct.Primitive(p), other);
            && (r.Ok? <==> spec.Ok?)
            && (r.Ok? ==> r.value == spec.value && g.treeStack == old(g.treeStack))
  {
    r := MatchDatatypeTerminal(g, Construct.Primitive(p), other);
  }

  /** The type part of `validate_datatypes` on datatypes `lhs` and `rhs`.
      As the program is written, it leaves `lhs` on the cursor when `lhs`
      is a terminal, and on every early `false` more besides. */
  method ValidateDatatypes(g: Generator, lhs: nat, rhs: nat) returns (r: Result<bool>)
    requires Shaped(g.nodes)
    modifies g
    ensures g.nodes == old(g.nodes) && g.stackSize == old(g.stackSize)
    ensures var spec := Compatible(g.nodes, lhs, rhs);
            && (r.Ok? <==> spec.Ok?)
            && (r.Ok? ==> r.value == spec.value)
    ensures r.Ok? && g.nodes[lhs].construct.kind == DatatypeKind.Pointer ==>
              g.treeStack == old(g.treeStack) + if r.value then [] else [lhs]
    ensures r.Ok? && g.nodes[lhs].construct.kind == Terminal ==>
              g.treeStack == old(g.treeStack) + if r.value then [lhs] else [lhs, TerminalOf(g.nodes, lhs).value]
  {
    g.DownRef(lhs);
    var current := g.Current();
    if current.Fatal? {
      return Fatal("index out of bounds");
    }
    if !current.value.Datatype? {
      return Fatal("");
    }
    if current.value.kind == DatatypeKind.Pointer {
      var matches :- MatchDatatypePointer(g, rhs);
      if !matches {
        return Ok(false);
      }
    } else {
      assert Below(g.nodes, lhs) && NeedsChild(g.nodes[lhs].construct);
      var down := g.Down();
      var _ :- SkipQualifiers(g, lhs);
      var matches :- MatchNamed(g, rhs);
      if !matches {
        return Ok(false);
      }
    }
    var up := g.Up();
    return Ok(true);
  }

  /** The match of `validate_datatypes` on the type node a terminal `lhs`
      names, the current node: a reference or a primitive is looked for in
      `rhs`, and anything else matches nothing. */
  method MatchNamed(g: Generator, rhs: nat) returns (r: Result<bool>)
    requires Shaped(g.nodes) && OnNode(g.nodes, g.treeStack)
    modifies g
    ensures g.nodes == old(g.nodes) && g.stackSize == old(g.stackSize)
    ensures var c := g.nodes[Last(old(g.treeStack))].construct;
            var spec := if c.Reference? || c.Primitive? then MatchTerminal(g.nodes, c, rhs) else Ok(false);
            && (r.Ok? <==> spec.Ok?)
            && (r.Ok? ==> r.value == spec.value && g.treeStack == old(g.treeStack))
  {
    var named := g.Current();
    match named.value {
      case Reference(i) =>
        r := MatchDatatypeReference(g, i, rhs);
      case Primitive(p) =>
        r := MatchDatatypePrimitive(g, p, rhs);
      case _ =>
        r := Ok(false);
    }
  }
}
