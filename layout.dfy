/** Structure layout: the size of every member of a structure and the
    structure's own size, written into the arena. A member is placed at
    the first offset that is a multiple of its own size, and the structure
    is padded to a multiple of its largest member. A member whose type is
    another structure takes that structure's size, laying it out first if
    it has no size yet. */
module Layouts {
  import opened Outcomes
  import opened Constructs
  import opened Trees
  import opened Shapes
  import opened Generators

  /** The size in bytes of a primitive type. */
  function PrimitiveSize(p: Primitive): (n: nat)
    ensures n == 1 || n == 2 || n == 4 || n == 8
    ensures (p == I8 || p == U8 || p == C8) <==> n == 1
    ensures (p == I16 || p == U16) <==> n == 2
    ensures (p == I32 || p == U32 || p == F32) <==> n == 4
    ensures (p == I64 || p == U64 || p == F64) <==> n == 8
  {
    match p
    case U8 => 1
    case U16 => 2
    case U32 => 4
    case U64 => 8
    case I8 => 1
    case I16 => 2
    case I32 => 4
    case I64 => 8
    case F32 => 4
    case F64 => 8
    case C8 => 1
  }

  // ---------------------------------------------------------------- placing members

  /** `at` padded up to a multiple of `n`. */
  function Place(at: nat, n: nat): (r: nat)
    requires n > 0
    ensures r % n == 0 && at <= r < at + n
  {
    PlaceLaw(at, n);
    at + (n - at % n) % n
  }

  lemma PlaceLaw(at: nat, n: nat)
    requires n > 0
    ensures var r := at + (n - at % n) % n; r % n == 0 && at <= r < at + n
  {
    var q := at % n;
    var d := at / n;
    assert at == d * n + q;
    if q == 0 {
      assert (n - q) % n == 0;
    } else {
      assert (n - q) % n == n - q;
      assert at + (n - q) == (d + 1) * n;
      MultipleMod(d + 1, n);
    }
  }

  lemma MultipleMod(k: nat, n: nat)
    requires n > 0
    ensures (k * n) % n == 0
  {
    var x := k * n;
    var e: int := k - x / n;
    assert x == (x / n) * n + x % n;
    assert e * n == x % n;
  }

  /** Every member has a size. */
  predicate Positive(sizes: seq<nat>) {
    forall k :: 0 <= k < |sizes| ==> sizes[k] > 0
  }

  function Init(sizes: seq<nat>): seq<nat>
    requires sizes != []
  {
    sizes[..|sizes| - 1]
  }

  /** The offsets of members of the given sizes, placed in order from 0. */
  function Offsets(sizes: seq<nat>): (r: seq<nat>)
    requires Positive(sizes)
    ensures |r| == |sizes|
  {
    if sizes == [] then []
    else Offsets(Init(sizes)) + [Place(End(Init(sizes)), Last(sizes))]
  }

  /** Where the last of those members ends. */
  function End(sizes: seq<nat>): nat
    requires Positive(sizes)
  {
    if sizes == [] then 0 else Place(End(Init(sizes)), Last(sizes)) + Last(sizes)
  }

  /** The largest of the sizes: the structure's alignment. */
  function MaxOf(sizes: seq<nat>): nat {
    if sizes == [] then 0
    else if Last(sizes) > MaxOf(Init(sizes)) then Last(sizes) else MaxOf(Init(sizes))
  }

  /** The size of a structure with members of the given sizes. */
  function Total(sizes: seq<nat>): nat
    requires Positive(sizes) && sizes != []
  {
    MaxOfLaw(sizes);
    Place(End(sizes), MaxOf(sizes))
  }

  /** The alignment is the size of some member and no member is larger. */
  lemma {:induction false} MaxOfLaw(sizes: seq<nat>)
    ensures forall k :: 0 <= k < |sizes| ==> sizes[k] <= MaxOf(sizes)
    ensures sizes != [] ==> exists k :: 0 <= k < |sizes| && sizes[k] == MaxOf(sizes)
  {
    if sizes != [] {
      var init := Init(sizes);
      MaxOfLaw(init);
      assert forall k :: 0 <= k < |init| ==> sizes[k] == init[k];
      if Last(sizes) >= MaxOf(init) {
        assert sizes[|sizes| - 1] == MaxOf(sizes);
      } else {
        var k :| 0 <= k < |init| && init[k] == MaxOf(init);
        assert sizes[k] == MaxOf(sizes);
      }
    }
  }

  lemma InitPositive(sizes: seq<nat>)
    requires Positive(sizes) && sizes != []
    ensures Positive(Init(sizes))
    ensures forall k :: 0 <= k < |Init(sizes)| ==> Init(sizes)[k] == sizes[k]
    ensures Offsets(sizes) == Offsets(Init(sizes)) + [Place(End(Init(sizes)), Last(sizes))]
  { }

  /** Each member sits at a multiple of its own size. */
  lemma {:induction false} OffsetsAligned(sizes: seq<nat>)
    requires Positive(sizes)
    ensures forall k :: 0 <= k < |sizes| ==> Offsets(sizes)[k] % sizes[k] == 0
  {
    if sizes != [] {
      InitPositive(sizes);
      OffsetsAligned(Init(sizes));
    }
  }

  /** The last member ends where the members end, and the first starts
      with less padding than its size. */
  lemma OffsetsEnds(sizes: seq<nat>)
    requires Positive(sizes) && sizes != []
    ensures End(sizes) == Offsets(sizes)[|sizes| - 1] + sizes[|sizes| - 1]
    ensures Offsets(sizes)[0] < sizes[0]
  {
    InitPositive(sizes);
    if |sizes| > 1 {
      OffsetsEnds(Init(sizes));
    }
  }

  /** The members come in order without overlapping, each with less
      padding before it than its own size. */
  lemma {:induction false} OffsetsOrdered(sizes: seq<nat>)
    requires Positive(sizes)
    ensures var o := Offsets(sizes);
            forall k :: 0 <= k < |sizes| - 1 ==> o[k] + sizes[k] <= o[k + 1] < o[k] + sizes[k] + sizes[k + 1]
  {
    if |sizes| > 1 {
      var init := Init(sizes);
      InitPositive(sizes);
      OffsetsOrdered(init);
      OffsetsEnds(init);
    }
  }

  /** The structure covers all its members and is a multiple of its
      alignment, with less padding at the end than that alignment. */
  lemma TotalLaw(sizes: seq<nat>)
    requires Positive(sizes) && sizes != []
    ensures End(sizes) <= Total(sizes) < End(sizes) + MaxOf(sizes)
    ensures Total(sizes) % MaxOf(sizes) == 0
    ensures forall k :: 0 <= k < |sizes| ==> sizes[k] <= MaxOf(sizes)
  {
    MaxOfLaw(sizes);
  }

  /** The sizes added up. */
  function Sum(sizes: seq<nat>): nat {
    if sizes == [] then 0 else Sum(Init(sizes)) + Last(sizes)
  }

  /** Padding only adds: the members end no earlier than their sizes add up
      to, so the structure is at least that large. */
  lemma {:induction false} SumWithin(sizes: seq<nat>)
    requires Positive(sizes)
    ensures Sum(sizes) <= End(sizes)
    ensures sizes != [] ==> Sum(sizes) <= Total(sizes)
  {
    if sizes != [] {
      InitPositive(sizes);
      SumWithin(Init(sizes));
      TotalLaw(sizes);
    }
  }

  /** Two members: the first at 0, the second at the first multiple of its
      size past the first. */
  lemma TwoMembers(x: nat, y: nat)
    requires x > 0 && y > 0
    ensures Positive([x, y])
    ensures Offsets([x, y]) == [0, Place(x, y)] && End([x, y]) == Place(x, y) + y
    ensures Total([x, y]) == Place(Place(x, y) + y, if y > x then y else x)
  {
    var one := [x];
    var two := [x, y];
    assert Positive(one) && Positive(two);
    assert Init(two) == one && Init(one) == [] && Last(two) == y && Last(one) == x;
    assert Place(0, x) == 0;
    assert Offsets(one) == [0] && End(one) == x;
    assert MaxOf(one) == x;
  }

  /** Two members of one size, such as two `i32`: offsets `0` and `x`, and
      a structure of `2 * x` bytes. */
  lemma TwoAlike(x: nat)
    requires x > 0
    ensures Offsets([x, x]) == [0, x] && Total([x, x]) == 2 * x
  {
    TwoMembers(x, x);
    PlacedAlready(x, x);
    MultipleMod(2, x);
    PlacedAlready(2 * x, x);
  }

  /** An offset that is already a multiple stays where it is. */
  lemma PlacedAlready(at: nat, n: nat)
    requires n > 0 && at % n == 0
    ensures Place(at, n) == at
  {
  }

  // ---------------------------------------------------------------- what layout may change

  /** A construct with its layout forgotten. */
  function Unsized(c: Construct): Construct {
    match c
    case Structure(name, _) => Construct.Structure(name, 0)
    case Member(name, _) => Construct.Member(name, 0)
    case _ => c
  }

  /** `b` is `a` with at most sizes and offsets rewritten. */
  ghost predicate Relaid(a: seq<Node>, b: seq<Node>) {
    && SameLinks(a, b)
    && forall j :: 0 <= j < |a| ==> Unsized(a[j].construct) == Unsized(b[j].construct)
  }

  /** Terminal datatype `d` names node `t` by a resolved reference. */
  predicate Names(nodes: seq<Node>, d: nat, t: nat) {
    && d < |nodes|
    && nodes[d].construct == Construct.Datatype(Terminal)
    && nodes[d].child.Some?
    && nodes[d].child.value < |nodes|
    && nodes[nodes[d].child.value].construct == Construct.Reference(t)
  }

  /** The children of `m` all have a rank of at most `above`. */
  ghost predicate Under(nodes: seq<Node>, rank: seq<nat>, m: nat, above: nat)
    requires m < |nodes|
  {
    forall k :: 0 <= k < |ChildrenOf(nodes, m)| ==>
      ChildrenOf(nodes, m)[k] < |rank| && rank[ChildrenOf(nodes, m)[k]] <= above
  }

  /** The grandchildren of structure `s` rank no higher than `s`. */
  ghost predicate Ranked(nodes: seq<Node>, rank: seq<nat>, s: nat)
    requires s < |nodes| && |rank| == |nodes|
  {
    forall k :: 0 <= k < |ChildrenOf(nodes, s)| ==>
      ChildrenOf(nodes, s)[k] < |nodes| && Under(nodes, rank, ChildrenOf(nodes, s)[k], rank[s])
  }

  /** No structure contains itself by value: `rank` witnesses it, ranking a
      structure above the datatypes directly inside its members, and those
      above any structure they name. (A structure may still point to
      itself: a pointer's datatype is not directly inside a member.) */
  ghost predicate Acyclic(nodes: seq<Node>, rank: seq<nat>) {
    && |rank| == |nodes|
    && (forall s :: 0 <= s < |nodes| && nodes[s].construct.Structure? ==> Ranked(nodes, rank, s))
    && (forall d: nat, t: nat :: Names(nodes, d, t) && t < |nodes| && nodes[t].construct.Structure? ==> rank[t] < rank[d])
  }

  lemma RelaidTrans(a: seq<Node>, b: seq<Node>, c: seq<Node>)
    requires Relaid(a, b) && Relaid(b, c)
    ensures Relaid(a, c)
  { }

  /** Rewriting one construct within its own layout. */
  lemma RelaidSet(a0: seq<Node>, a: seq<Node>, j: nat, c: Construct)
    requires Relaid(a0, a) && j < |a| && Unsized(c) == Unsized(a[j].construct)
    ensures Relaid(a0, a[j := a[j].(construct := c)])
  { }

  /** Layout keeps the parser's layout and the ranking. */
  lemma RelaidKeeps(a: seq<Node>, b: seq<Node>, rank: seq<nat>)
    requires Shaped(a) && Acyclic(a, rank) && Relaid(a, b)
    ensures Shaped(b) && Acyclic(b, rank) && SameShape(a, b)
  {
    assert SameShape(a, b) by {
      forall j | 0 <= j < |a|
        ensures Kind(a[j].construct) == Kind(b[j].construct)
      {
        assert Unsized(a[j].construct) == Unsized(b[j].construct);
      }
    }
    SameShapeShaped(a, b);
    forall s | 0 <= s < |b| && b[s].construct.Structure?
      ensures Ranked(b, rank, s)
    {
      assert Unsized(a[s].construct) == Unsized(b[s].construct);
      assert Ranked(a, rank, s);
      SameLinksChildren(a, b, s);
      forall k | 0 <= k < |ChildrenOf(b, s)|
        ensures ChildrenOf(b, s)[k] < |b| && Under(b, rank, ChildrenOf(b, s)[k], rank[s])
      {
        var m := ChildrenOf(a, s)[k];
        assert m < |a| && Under(a, rank, m, rank[s]);
        SameLinksChildren(a, b, m);
      }
    }
    forall d: nat, t: nat | Names(b, d, t) && t < |b| && b[t].construct.Structure?
      ensures rank[t] < rank[d]
    {
      assert Unsized(a[d].construct) == Unsized(b[d].construct);
      assert Unsized(a[b[d].child.value].construct) == Unsized(b[b[d].child.value].construct);
      assert Unsized(a[t].construct) == Unsized(b[t].construct);
      assert Names(a, d, t);
    }
  }

  // ---------------------------------------------------------------- the layout

  /** `nodes` is the arena `nodes0` part way through layout: only sizes and
      offsets have changed since, and `nodes0` is in the parser's layout
      with `rank` showing that no structure contains itself. */
  ghost predicate Laying(nodes0: seq<Node>, rank: seq<nat>, nodes: seq<Node>) {
    Shaped(nodes0) && Acyclic(nodes0, rank) && Relaid(nodes0, nodes)
  }

  /** A size computed, and the arena after computing it. */
  datatype Sized = Sized(nodes: seq<Node>, size: nat)

  /** A structure laid out: the arena after it, its size, and the size and
      the offset given to each member in turn (none when the size was
      already known). */
  datatype Laid = Laid(nodes: seq<Node>, size: nat, sizes: seq<nat>, offsets: seq<nat>)

  /** `fully_define_structure` on structure `s`: a known size is returned
      as it is; otherwise each member is sized and placed in turn, and the
      structure gets the padded total. */
  function FullyDefine(nodes: seq<Node>, ghost nodes0: seq<Node>, ghost rank: seq<nat>, s: nat): (r: Result<Laid>)
    requires Laying(nodes0, rank, nodes) && s < |nodes|
    ensures r.Ok? ==> Relaid(nodes0, r.value.nodes) && r.value.size > 0
    decreases rank[s], 4, 0, 0
  {
    match nodes[s].construct
    case Structure(name, size) =>
      if size != 0 then Ok(Laid(nodes, size, [], []))
      else
        KidsLinks(nodes0, s);
        assert Unsized(nodes0[s].construct) == Unsized(nodes[s].construct);
        assert NeedsChild(nodes0[s].construct);
        SameLinksChildren(nodes0, nodes, s);
        MembersFrom(nodes, nodes0, rank, s, name, ChildrenOf(nodes, s), 0, 0, 0, [], [])
    case _ => Fatal("Node not Structure at fully_define_structure()")
  }

  /** The loop of `fully_define_structure` from its `j`th member on, with
      the size and alignment reached so far. */
  function MembersFrom(nodes: seq<Node>, ghost nodes0: seq<Node>, ghost rank: seq<nat>, s: nat, name: string, kids: seq<nat>, j: nat,
                       size: nat, alignment: nat, sizes: seq<nat>, offsets: seq<nat>): (r: Result<Laid>)
    requires Laying(nodes0, rank, nodes) && s < |nodes|
    requires Unsized(nodes[s].construct) == Construct.Structure(name, 0)
    requires kids == ChildrenOf(nodes0, s) && j < |kids|
    ensures r.Ok? ==> Relaid(nodes0, r.value.nodes) && r.value.size > 0
    decreases rank[s], 3, |kids| - j, 1
  {
    KidsLinks(nodes0, s);
    assert Unsized(nodes0[s].construct) == Unsized(nodes[s].construct);
    assert Ranked(nodes0, rank, s);
    var member :- MemberSize(nodes, nodes0, rank, kids[j], rank[s]);
    PlaceMember(member.nodes, nodes0, rank, s, name, kids, j, size, alignment, sizes, offsets, member.size)
  }

  /** The rest of one turn of that loop, once member `kids[j]` is known to
      take `ms` bytes: the member gets the next offset that is a multiple of
      `ms`; after the last member the structure gets its padded size. */
  function PlaceMember(nodes: seq<Node>, ghost nodes0: seq<Node>, ghost rank: seq<nat>, s: nat, name: string, kids: seq<nat>, j: nat,
                       size: nat, alignment: nat, sizes: seq<nat>, offsets: seq<nat>, ms: nat): (r: Result<Laid>)
    requires Laying(nodes0, rank, nodes) && s < |nodes|
    requires Unsized(nodes[s].construct) == Construct.Structure(name, 0)
    requires kids == ChildrenOf(nodes0, s) && j < |kids| && ms > 0
    ensures r.Ok? ==> Relaid(nodes0, r.value.nodes) && r.value.size > 0
    decreases rank[s], 3, |kids| - j, 0
  {
    KidsLinks(nodes0, s);
    var m := kids[j];
    var align := if ms > alignment then ms else alignment;
    var offset: nat := Place(size, ms);
    match nodes[m].construct
    case Member(mname, _) =>
      var n2 := nodes[m := nodes[m].(construct := Construct.Member(mname, offset))];
      RelaidSet(nodes0, nodes, m, Construct.Member(mname, offset));
      if j + 1 == |kids| then
        var total := Place(offset + ms, align);
        RelaidSet(nodes0, n2, s, Construct.Structure(name, total));
        Ok(Laid(n2[s := n2[s].(construct := Construct.Structure(name, total))], total, sizes + [ms], offsets + [offset]))
      else
        MembersFrom(n2, nodes0, rank, s, name, kids, j + 1, offset + ms, align, sizes + [ms], offsets + [offset])
    case _ => Fatal("Child of structure node is not a member")
  }

  /** `find_member_size` on child `m` of a structure: the size of the
      first datatype among its children. */
  function MemberSize(nodes: seq<Node>, ghost nodes0: seq<Node>, ghost rank: seq<nat>, m: nat, ghost above: nat): (r: Result<Sized>)
    requires Laying(nodes0, rank, nodes) && m < |nodes| && Under(nodes0, rank, m, above)
    ensures r.Ok? ==> Relaid(nodes0, r.value.nodes) && r.value.size > 0
    decreases above, 2, 0, 0
  {
    KidsLinks(nodes0, m);
    SameLinksChildren(nodes0, nodes, m);
    if nodes[m].child.None? then Fatal("Member had no datatype child")
    else MemberSizeFrom(nodes, nodes0, rank, m, ChildrenOf(nodes, m), 0, above)
  }

  function MemberSizeFrom(nodes: seq<Node>, ghost nodes0: seq<Node>, ghost rank: seq<nat>, m: nat, kids: seq<nat>, j: nat,
                          ghost above: nat): (r: Result<Sized>)
    requires Laying(nodes0, rank, nodes) && m < |nodes| && Under(nodes0, rank, m, above)
    requires kids == ChildrenOf(nodes0, m) && j < |kids|
    ensures r.Ok? ==> Relaid(nodes0, r.value.nodes) && r.value.size > 0
    decreases above, 1, |kids| - j, 1
  {
    KidsLinks(nodes0, m);
    var d := kids[j];
    match nodes[d].construct
    case Datatype(Terminal) => TerminalSize(nodes, nodes0, rank, d, above)
    case Datatype(Pointer) => Ok(Sized(nodes, 8))
    case _ =>
      if j + 1 == |kids| then Fatal("Member had no datatype child")
      else MemberSizeFrom(nodes, nodes0, rank, m, kids, j + 1, above)
  }

  /** The size of terminal datatype `d` inside a member: that of its
      primitive, or that of the structure it references. */
  function TerminalSize(nodes: seq<Node>, ghost nodes0: seq<Node>, ghost rank: seq<nat>, d: nat, ghost above: nat): (r: Result<Sized>)
    requires Laying(nodes0, rank, nodes) && d < |nodes| && d < |rank| && rank[d] <= above
    requires nodes[d].construct == Construct.Datatype(Terminal)
    ensures r.Ok? ==> Relaid(nodes0, r.value.nodes) && r.value.size > 0
    decreases above, 1, 0, 0
  {
    assert Unsized(nodes0[d].construct) == Unsized(nodes[d].construct);
    assert Below(nodes0, d) && NeedsChild(nodes0[d].construct);
    var c := nodes[d].child.value;
    match nodes[c].construct
    case Primitive(p) => Ok(Sized(nodes, PrimitiveSize(p)))
    case Reference(t) =>
      assert Unsized(nodes0[c].construct) == Unsized(nodes[c].construct);
      assert Names(nodes0, d, t);
      ReferenceSize(nodes, nodes0, rank, t, above)
    case Identifier(_) => Fatal("Struct datatype not resolved")
    case _ => Fatal("Unexpected child node of Datatype::Terminal")
  }

  /** `get_reference_size`: the size of the structure that node `t` is,
      laid out first if its size is not known yet. */
  function ReferenceSize(nodes: seq<Node>, ghost nodes0: seq<Node>, ghost rank: seq<nat>, t: nat, ghost above: nat): (r: Result<Sized>)
    requires Laying(nodes0, rank, nodes)
    requires t < |nodes0| && nodes0[t].construct.Structure? ==> rank[t] < above
    ensures r.Ok? ==> Relaid(nodes0, r.value.nodes) && r.value.size > 0
    decreases above, 0, 0, 0
  {
    if t >= |nodes| then Fatal("index out of bounds")
    else match nodes[t].construct
      case Structure(_, size) =>
        assert Unsized(nodes0[t].construct) == Unsized(nodes[t].construct);
        if size == 0 then
          var laid :- FullyDefine(nodes, nodes0, rank, t);
          Ok(Sized(laid.nodes, laid.size))
        else Ok(Sized(nodes, size))
      case _ => Fatal("Reference doesn't point to a structure node")
  }

  // ---------------------------------------------------------------- laws of the layout

  /** Laying out a structure with no size yet sizes each of its members,
      places them exactly at `Offsets` of those sizes, and gives the
      structure the size `Total` of them. */
  lemma FullyDefineLaw(nodes: seq<Node>, nodes0: seq<Node>, rank: seq<nat>, s: nat)
    requires Laying(nodes0, rank, nodes) && s < |nodes|
    requires nodes[s].construct.Structure? && nodes[s].construct.size == 0
    ensures var r := FullyDefine(nodes, nodes0, rank, s);
            r.Ok? ==> var l := r.value;
              && |l.sizes| == |ChildrenOf(nodes, s)| && l.sizes != [] && Positive(l.sizes)
              && l.offsets == Offsets(l.sizes) && l.size == Total(l.sizes)
              && l.nodes[s].construct == Construct.Structure(nodes[s].construct.name, l.size)
  {
    KidsLinks(nodes0, s);
    assert Unsized(nodes0[s].construct) == Unsized(nodes[s].construct);
    assert NeedsChild(nodes0[s].construct);
    SameLinksChildren(nodes0, nodes, s);
    MembersFromLaw(nodes, nodes0, rank, s, nodes[s].construct.name, ChildrenOf(nodes, s), 0, 0, 0, [], []);
    var r := FullyDefine(nodes, nodes0, rank, s);
    if r.Ok? {
      assert Fits(r.value, |ChildrenOf(nodes, s)|, s, nodes[s].construct.name);
    }
  }

  /** `l` lays out `count` members at `Offsets` of their sizes, and
      structure `s` carries the `Total` of them. */
  ghost predicate Fits(l: Laid, count: nat, s: nat, name: string) {
    && |l.sizes| == count && l.sizes != [] && Positive(l.sizes)
    && l.offsets == Offsets(l.sizes) && l.size == Total(l.sizes)
    && s < |l.nodes| && l.nodes[s].construct == Construct.Structure(name, l.size)
  }

  lemma {:induction false} MembersFromLaw(nodes: seq<Node>, nodes0: seq<Node>, rank: seq<nat>, s: nat, name: string, kids: seq<nat>, j: nat,
                                          size: nat, alignment: nat, sizes: seq<nat>, offsets: seq<nat>)
    requires Laying(nodes0, rank, nodes) && s < |nodes|
    requires Unsized(nodes[s].construct) == Construct.Structure(name, 0)
    requires kids == ChildrenOf(nodes0, s) && j < |kids|
    requires |sizes| == j && Positive(sizes) && offsets == Offsets(sizes) && size == End(sizes) && alignment == MaxOf(sizes)
    ensures var r := MembersFrom(nodes, nodes0, rank, s, name, kids, j, size, alignment, sizes, offsets);
            r.Ok? ==> Fits(r.value, |kids|, s, name)
    decreases |kids| - j, 2
  {
    KidsLinks(nodes0, s);
    assert Unsized(nodes0[s].construct) == Unsized(nodes[s].construct);
    assert Ranked(nodes0, rank, s);
    var member := MemberSize(nodes, nodes0, rank, kids[j], rank[s]);
    if member.Ok? {
      var n1 := member.value.nodes;
      assert MembersFrom(nodes, nodes0, rank, s, name, kids, j, size, alignment, sizes, offsets)
          == PlaceMember(n1, nodes0, rank, s, name, kids, j, size, alignment, sizes, offsets, member.value.size);
      PlaceMemberLaw(n1, nodes0, rank, s, name, kids, j, size, alignment, sizes, offsets, member.value.size);
    }
  }

  lemma {:induction false} PlaceMemberLaw(nodes: seq<Node>, nodes0: seq<Node>, rank: seq<nat>, s: nat, name: string, kids: seq<nat>, j: nat,
                                          size: nat, alignment: nat, sizes: seq<nat>, offsets: seq<nat>, ms: nat)
    requires Laying(nodes0, rank, nodes) && s < |nodes|
    requires Unsized(nodes[s].construct) == Construct.Structure(name, 0)
    requires kids == ChildrenOf(nodes0, s) && j < |kids| && ms > 0
    requires |sizes| == j && Positive(sizes) && offsets == Offsets(sizes) && size == End(sizes) && alignment == MaxOf(sizes)
    ensures var r := PlaceMember(nodes, nodes0, rank, s, name, kids, j, size, alignment, sizes, offsets, ms);
            r.Ok? ==> Fits(r.value, |kids|, s, name)
    decreases |kids| - j, 1
  {
    KidNext(nodes, nodes0, rank, s, kids, j);
    var m := kids[j];
    if nodes[m].construct.Member? {
      if j + 1 < |kids| {
        PlaceMemberNextLaw(nodes, nodes0, rank, s, name, kids, j, size, alignment, sizes, offsets, ms);
      } else {
        PlaceMemberLast(nodes, nodes0, rank, s, name, kids, j, size, alignment, sizes, offsets, ms);
        LastFits(nodes[m := nodes[m].(construct := Construct.Member(nodes[m].construct.name, Place(size, ms)))],
                 s, name, |kids|, size, alignment, sizes, offsets, ms);
        var r := PlaceMember(nodes, nodes0, rank, s, name, kids, j, size, alignment, sizes, offsets, ms);
        assert r.Ok? ==> Fits(r.value, |kids|, s, name);
      }
    } else {
      PlaceMemberNot(nodes, nodes0, rank, s, name, kids, j, size, alignment, sizes, offsets, ms);
      assert PlaceMember(nodes, nodes0, rank, s, name, kids, j, size, alignment, sizes, offsets, ms).Fatal?;
    }
  }

  /** A member that is not the last one: placing it and laying out the rest. */
  lemma {:induction false} PlaceMemberNextLaw(nodes: seq<Node>, nodes0: seq<Node>, rank: seq<nat>, s: nat, name: string, kids: seq<nat>, j: nat,
                                              size: nat, alignment: nat, sizes: seq<nat>, offsets: seq<nat>, ms: nat)
    requires Laying(nodes0, rank, nodes) && s < |nodes|
    requires Unsized(nodes[s].construct) == Construct.Structure(name, 0)
    requires kids == ChildrenOf(nodes0, s) && j + 1 < |kids| && ms > 0
    requires |sizes| == j && Positive(sizes) && offsets == Offsets(sizes) && size == End(sizes) && alignment == MaxOf(sizes)
    requires kids[j] < |nodes| && nodes[kids[j]].construct.Member? && nodes[kids[j]].next.Some?
    ensures var r := PlaceMember(nodes, nodes0, rank, s, name, kids, j, size, alignment, sizes, offsets, ms);
            r.Ok? ==> Fits(r.value, |kids|, s, name)
    decreases |kids| - j, 0
  {
    PlaceMemberNext(nodes, nodes0, rank, s, name, kids, j, size, alignment, sizes, offsets, ms);
    var m := kids[j];
    var offset: nat := Place(size, ms);
    var n2 := nodes[m := nodes[m].(construct := Construct.Member(nodes[m].construct.name, offset))];
    SnocLaw(sizes, ms);
    MembersFromLaw(n2, nodes0, rank, s, name, kids, j + 1, offset + ms, if ms > alignment then ms else alignment,
                   sizes + [ms], offsets + [offset]);
  }

  /** A kid of a structure links to the next kid, and only the last one
      links to nothing. */
  lemma KidNext(nodes: seq<Node>, nodes0: seq<Node>, rank: seq<nat>, s: nat, kids: seq<nat>, j: nat)
    requires Laying(nodes0, rank, nodes) && s < |nodes|
    requires kids == ChildrenOf(nodes0, s) && j < |kids|
    ensures kids[j] < |nodes|
    ensures nodes[kids[j]].next.Some? <==> j + 1 < |kids|
    ensures j + 1 < |kids| ==> nodes[kids[j]].next == Some(kids[j + 1])
  {
    KidsLinks(nodes0, s);
    assert nodes[kids[j]].next == nodes0[kids[j]].next;
    if j + 1 == |kids| {
      assert nodes0[kids[|kids| - 1]].next == None;
    } else {
      assert nodes0[kids[j]].next == Some(kids[j + 1]);
    }
  }

  /** The turns of the loop `PlaceMember` stands for, one lemma per way
      a turn can end. */
  lemma PlaceMemberNext(nodes: seq<Node>, nodes0: seq<Node>, rank: seq<nat>, s: nat, name: string, kids: seq<nat>, j: nat,
                        size: nat, alignment: nat, sizes: seq<nat>, offsets: seq<nat>, ms: nat)
    requires Laying(nodes0, rank, nodes) && s < |nodes|
    requires Unsized(nodes[s].construct) == Construct.Structure(name, 0)
    requires kids == ChildrenOf(nodes0, s) && j < |kids| && ms > 0
    requires kids[j] < |nodes| && nodes[kids[j]].construct.Member? && nodes[kids[j]].next.Some?
    ensures j + 1 < |kids| && nodes[kids[j]].next == Some(kids[j + 1])
    ensures var m := kids[j];
            var offset: nat := Place(size, ms);
            var n2 := nodes[m := nodes[m].(construct := Construct.Member(nodes[m].construct.name, offset))];
            && Laying(nodes0, rank, n2) && Unsized(n2[s].construct) == Construct.Structure(name, 0)
            && PlaceMember(nodes, nodes0, rank, s, name, kids, j, size, alignment, sizes, offsets, ms)
               == MembersFrom(n2, nodes0, rank, s, name, kids, j + 1, offset + ms, if ms > alignment then ms else alignment,
                              sizes + [ms], offsets + [offset])
  {
    KidNext(nodes, nodes0, rank, s, kids, j);
    RelaidSet(nodes0, nodes, kids[j], Construct.Member(nodes[kids[j]].construct.name, Place(size, ms)));
  }

  lemma PlaceMemberLast(nodes: seq<Node>, nodes0: seq<Node>, rank: seq<nat>, s: nat, name: string, kids: seq<nat>, j: nat,
                        size: nat, alignment: nat, sizes: seq<nat>, offsets: seq<nat>, ms: nat)
    requires Laying(nodes0, rank, nodes) && s < |nodes|
    requires Unsized(nodes[s].construct) == Construct.Structure(name, 0)
    requires kids == ChildrenOf(nodes0, s) && j < |kids| && ms > 0
    requires kids[j] < |nodes| && nodes[kids[j]].construct.Member? && nodes[kids[j]].next.None?
    ensures j + 1 == |kids|
    ensures var m := kids[j];
            var offset: nat := Place(size, ms);
            var n2 := nodes[m := nodes[m].(construct := Construct.Member(nodes[m].construct.name, offset))];
            var total := Place(offset + ms, if ms > alignment then ms else alignment);
            PlaceMember(nodes, nodes0, rank, s, name, kids, j, size, alignment, sizes, offsets, ms)
            == Ok(Laid(n2[s := n2[s].(construct := Construct.Structure(name, total))], total, sizes + [ms], offsets + [offset]))
  {
    KidNext(nodes, nodes0, rank, s, kids, j);
  }

  lemma PlaceMemberNot(nodes: seq<Node>, nodes0: seq<Node>, rank: seq<nat>, s: nat, name: string, kids: seq<nat>, j: nat,
                       size: nat, alignment: nat, sizes: seq<nat>, offsets: seq<nat>, ms: nat)
    requires Laying(nodes0, rank, nodes) && s < |nodes|
    requires Unsized(nodes[s].construct) == Construct.Structure(name, 0)
    requires kids == ChildrenOf(nodes0, s) && j < |kids| && ms > 0
    requires kids[j] < |nodes| && !nodes[kids[j]].construct.Member?
    ensures PlaceMember(nodes, nodes0, rank, s, name, kids, j, size, alignment, sizes, offsets, ms).Fatal?
  {
    KidsLinks(nodes0, s);
  }

  /** Placing one more member extends the layout by that member. */
  lemma SnocLaw(sizes: seq<nat>, ms: nat)
    requires Positive(sizes) && ms > 0
    ensures var more := sizes + [ms];
            && Positive(more) && Init(more) == sizes && more != []
            && Offsets(more) == Offsets(sizes) + [Place(End(sizes), ms)]
            && End(more) == Place(End(sizes), ms) + ms
            && MaxOf(more) == (if ms > MaxOf(sizes) then ms else MaxOf(sizes))
            && Total(more) == Place(End(more), MaxOf(more))
  {
    var more := sizes + [ms];
    assert Init(more) == sizes;
  }

  /** Closing the layout after the last member. */
  lemma LastFits(nodes: seq<Node>, s: nat, name: string, count: nat, size: nat, alignment: nat,
                 sizes: seq<nat>, offsets: seq<nat>, ms: nat)
    requires s < |nodes| && ms > 0 && |sizes| + 1 == count
    requires Positive(sizes) && offsets == Offsets(sizes) && size == End(sizes) && alignment == MaxOf(sizes)
    ensures var offset: nat := Place(size, ms);
            var total := Place(offset + ms, if ms > alignment then ms else alignment);
            Fits(Laid(nodes[s := nodes[s].(construct := Construct.Structure(name, total))], total, sizes + [ms], offsets + [offset]),
                 count, s, name)
  {
    SnocLaw(sizes, ms);
  }

  /** A member declared with a qualifier (`x: mut i32;`) cannot be laid
      out: the qualifier is the first child of its terminal datatype, where
      the layout expects the type. */
  lemma QualifiedMemberFatal(nodes: seq<Node>, rank: seq<nat>, s: nat, m: nat, d: nat, q: nat)
    requires Laying(nodes, rank, nodes) && s < |nodes|
    requires nodes[s].construct.Structure? && nodes[s].construct.size == 0
    requires nodes[s].child == Some(m) && m < |nodes| && nodes[m].child == Some(d) && d < |nodes|
    requires nodes[d].construct == Construct.Datatype(Terminal)
    requires nodes[d].child == Some(q) && q < |nodes| && nodes[q].construct.Qualifier?
    ensures FullyDefine(nodes, nodes, rank, s).Fatal?
  {
    KidsLinks(nodes, s);
    KidsLinks(nodes, m);
    assert Ranked(nodes, rank, s);
    assert MemberSizeFrom(nodes, nodes, rank, m, ChildrenOf(nodes, m), 0, rank[s]).Fatal?;
    assert MemberSize(nodes, nodes, rank, m, rank[s]).Fatal?;
  }

  /** A member typed by a pointer takes 8 bytes and nothing is looked at
      below the pointer, so a structure may point to itself. */
  lemma PointerMember(nodes: seq<Node>, nodes0: seq<Node>, rank: seq<nat>, m: nat, above: nat)
    requires Laying(nodes0, rank, nodes) && m < |nodes| && Under(nodes0, rank, m, above)
    requires nodes[m].child.Some? && nodes[m].child.value < |nodes|
    requires nodes[nodes[m].child.value].construct == Construct.Datatype(Pointer)
    ensures MemberSize(nodes, nodes0, rank, m, above) == Ok(Sized(nodes, 8))
  {
    KidsLinks(nodes0, m);
    SameLinksChildren(nodes0, nodes, m);
  }

  /** A terminal member type still naming an identifier, one the resolver
      has not replaced, is fatal. */
  lemma UnresolvedMember(nodes: seq<Node>, nodes0: seq<Node>, rank: seq<nat>, d: nat, above: nat)
    requires Laying(nodes0, rank, nodes) && d < |nodes| && d < |rank| && rank[d] <= above
    requires nodes[d].construct == Construct.Datatype(Terminal)
    requires nodes[d].child.Some? && nodes[d].child.value < |nodes| && nodes[nodes[d].child.value].construct.Identifier?
    ensures TerminalSize(nodes, nodes0, rank, d, above) == Fatal("Struct datatype not resolved")
  {
  }

  /** A referenced structure whose size is known gives that size at once
      and changes nothing; a reference to anything but a structure is
      fatal. */
  lemma ReferencedSize(nodes: seq<Node>, nodes0: seq<Node>, rank: seq<nat>, t: nat, above: nat)
    requires Laying(nodes0, rank, nodes)
    requires t < |nodes0| && nodes0[t].construct.Structure? ==> rank[t] < above
    ensures t < |nodes| && nodes[t].construct.Structure? && nodes[t].construct.size != 0 ==>
              ReferenceSize(nodes, nodes0, rank, t, above) == Ok(Sized(nodes, nodes[t].construct.size))
    ensures t < |nodes| && !nodes[t].construct.Structure? ==>
              ReferenceSize(nodes, nodes0, rank, t, above) == Fatal("Reference doesn't point to a structure node")
  {
  }

  // ---------------------------------------------------------------- what a layout leaves alone

  /** Every structure of `a` that already has a size is unchanged in `b`:
      the size-0 sentinel is the only thing a layout overwrites. */
  ghost predicate Settled(a: seq<Node>, b: seq<Node>) {
    && |a| == |b|
    && forall j :: 0 <= j < |a| && a[j].construct.Structure? && a[j].construct.size != 0 ==> b[j].construct == a[j].construct
  }

  lemma SettledTrans(a: seq<Node>, b: seq<Node>, c: seq<Node>)
    requires Settled(a, b) && Settled(b, c)
    ensures Settled(a, c)
  {
    forall j | 0 <= j < |a| && a[j].construct.Structure? && a[j].construct.size != 0
      ensures c[j].construct == a[j].construct
    {
      assert b[j].construct == a[j].construct;
    }
  }

  /** Laying out structure `s` leaves every structure that already had a
      size as it was, and leaves `s` itself with the size it returns: a
      second call returns that size at once and changes nothing. */
  lemma {:induction false} FullyDefineSettled(nodes: seq<Node>, nodes0: seq<Node>, rank: seq<nat>, s: nat)
    requires Laying(nodes0, rank, nodes) && s < |nodes|
    ensures var r := FullyDefine(nodes, nodes0, rank, s);
            r.Ok? ==> && Settled(nodes, r.value.nodes) && s < |r.value.nodes|
                      && r.value.nodes[s].construct.Structure? && r.value.nodes[s].construct.size == r.value.size
    decreases rank[s], 4, 0, 0
  {
    if nodes[s].construct.Structure? && nodes[s].construct.size == 0 {
      KidsLinks(nodes0, s);
      assert Unsized(nodes0[s].construct) == Unsized(nodes[s].construct);
      assert NeedsChild(nodes0[s].construct);
      SameLinksChildren(nodes0, nodes, s);
      FullyDefineLaw(nodes, nodes0, rank, s);
      MembersFromSettled(nodes, nodes, nodes0, rank, s, nodes[s].construct.name, ChildrenOf(nodes, s), 0, 0, 0, [], []);
    }
  }

  lemma {:induction false} MembersFromSettled(orig: seq<Node>, nodes: seq<Node>, nodes0: seq<Node>, rank: seq<nat>, s: nat, name: string,
                                              kids: seq<nat>, j: nat, size: nat, alignment: nat, sizes: seq<nat>, offsets: seq<nat>)
    requires Laying(nodes0, rank, nodes) && s < |nodes|
    requires Unsized(nodes[s].construct) == Construct.Structure(name, 0)
    requires kids == ChildrenOf(nodes0, s) && j < |kids|
    requires Settled(orig, nodes) && orig[s].construct == Construct.Structure(name, 0)
    ensures var r := MembersFrom(nodes, nodes0, rank, s, name, kids, j, size, alignment, sizes, offsets);
            r.Ok? ==> Settled(orig, r.value.nodes)
    decreases rank[s], 3, |kids| - j, 2
  {
    KidsLinks(nodes0, s);
    assert Unsized(nodes0[s].construct) == Unsized(nodes[s].construct);
    assert Ranked(nodes0, rank, s);
    var member := MemberSize(nodes, nodes0, rank, kids[j], rank[s]);
    MemberSizeSettled(nodes, nodes0, rank, kids[j], rank[s]);
    if member.Ok? {
      var n1 := member.value.nodes;
      SettledTrans(orig, nodes, n1);
      assert MembersFrom(nodes, nodes0, rank, s, name, kids, j, size, alignment, sizes, offsets)
          == PlaceMember(n1, nodes0, rank, s, name, kids, j, size, alignment, sizes, offsets, member.value.size);
      PlaceMemberSettled(orig, n1, nodes0, rank, s, name, kids, j, size, alignment, sizes, offsets, member.value.size);
    }
  }

  /** Placing a member at an offset leaves every sized structure alone. */
  lemma SettledPlaced(orig: seq<Node>, nodes: seq<Node>, m: nat, offset: nat)
    requires Settled(orig, nodes) && m < |nodes| && nodes[m].construct.Member?
    ensures Settled(orig, nodes[m := nodes[m].(construct := Construct.Member(nodes[m].construct.name, offset))])
  {
  }

  lemma {:induction false} PlaceMemberSettled(orig: seq<Node>, nodes: seq<Node>, nodes0: seq<Node>, rank: seq<nat>, s: nat, name: string,
                                              kids: seq<nat>, j: nat, size: nat, alignment: nat, sizes: seq<nat>, offsets: seq<nat>, ms: nat)
    requires Laying(nodes0, rank, nodes) && s < |nodes|
    requires Unsized(nodes[s].construct) == Construct.Structure(name, 0)
    requires kids == ChildrenOf(nodes0, s) && j < |kids| && ms > 0
    requires Settled(orig, nodes) && orig[s].construct == Construct.Structure(name, 0)
    ensures var r := PlaceMember(nodes, nodes0, rank, s, name, kids, j, size, alignment, sizes, offsets, ms);
            r.Ok? ==> Settled(orig, r.value.nodes)
    decreases rank[s], 3, |kids| - j, 1
  {
    KidNext(nodes, nodes0, rank, s, kids, j);
    var m := kids[j];
    if nodes[m].construct.Member? {
      if j + 1 < |kids| {
        PlaceMemberNextSettled(orig, nodes, nodes0, rank, s, name, kids, j, size, alignment, sizes, offsets, ms);
      } else {
        SettledPlaced(orig, nodes, m, Place(size, ms));
        PlaceMemberLast(nodes, nodes0, rank, s, name, kids, j, size, alignment, sizes, offsets, ms);
      }
    } else {
      PlaceMemberNot(nodes, nodes0, rank, s, name, kids, j, size, alignment, sizes, offsets, ms);
    }
  }

  lemma {:induction false} PlaceMemberNextSettled(orig: seq<Node>, nodes: seq<Node>, nodes0: seq<Node>, rank: seq<nat>, s: nat, name: string,
                                                  kids: seq<nat>, j: nat, size: nat, alignment: nat, sizes: seq<nat>, offsets: seq<nat>, ms: nat)
    requires Laying(nodes0, rank, nodes) && s < |nodes|
    requires Unsized(nodes[s].construct) == Construct.Structure(name, 0)
    requires kids == ChildrenOf(nodes0, s) && j + 1 < |kids| && ms > 0
    requires Settled(orig, nodes) && orig[s].construct == Construct.Structure(name, 0)
    requires kids[j] < |nodes| && nodes[kids[j]].construct.Member? && nodes[kids[j]].next.Some?
    ensures var r := PlaceMember(nodes, nodes0, rank, s, name, kids, j, size, alignment, sizes, offsets, ms);
            r.Ok? ==> Settled(orig, r.value.nodes)
    decreases rank[s], 3, |kids| - j, 0
  {
    PlaceMemberNext(nodes, nodes0, rank, s, name, kids, j, size, alignment, sizes, offsets, ms);
    var m := kids[j];
    var offset: nat := Place(size, ms);
    var n2 := nodes[m := nodes[m].(construct := Construct.Member(nodes[m].construct.name, offset))];
    SettledPlaced(orig, nodes, m, offset);
    MembersFromSettled(orig, n2, nodes0, rank, s, name, kids, j + 1, offset + ms, if ms > alignment then ms else alignment,
                       sizes + [ms], offsets + [offset]);
  }

  lemma {:induction false} MemberSizeSettled(nodes: seq<Node>, nodes0: seq<Node>, rank: seq<nat>, m: nat, above: nat)
    requires Laying(nodes0, rank, nodes) && m < |nodes| && Under(nodes0, rank, m, above)
    ensures var r := MemberSize(nodes, nodes0, rank, m, above);
            r.Ok? ==> Settled(nodes, r.value.nodes)
    decreases above, 2, 0, 0
  {
    KidsLinks(nodes0, m);
    SameLinksChildren(nodes0, nodes, m);
    if nodes[m].child.Some? {
      MemberSizeFromSettled(nodes, nodes0, rank, m, ChildrenOf(nodes, m), 0, above);
    }
  }

  lemma {:induction false} MemberSizeFromSettled(nodes: seq<Node>, nodes0: seq<Node>, rank: seq<nat>, m: nat, kids: seq<nat>, j: nat, above: nat)
    requires Laying(nodes0, rank, nodes) && m < |nodes| && Under(nodes0, rank, m, above)
    requires kids == ChildrenOf(nodes0, m) && j < |kids|
    ensures var r := MemberSizeFrom(nodes, nodes0, rank, m, kids, j, above);
            r.Ok? ==> Settled(nodes, r.value.nodes)
    decreases above, 1, |kids| - j, 1
  {
    KidsLinks(nodes0, m);
    var d := kids[j];
    if nodes[d].construct == Construct.Datatype(Terminal) {
      TerminalSizeSettled(nodes, nodes0, rank, d, above);
    } else if !nodes[d].construct.Datatype? && j + 1 < |kids| {
      MemberSizeFromSettled(nodes, nodes0, rank, m, kids, j + 1, above);
    }
  }

  lemma {:induction false} TerminalSizeSettled(nodes: seq<Node>, nodes0: seq<Node>, rank: seq<nat>, d: nat, above: nat)
    requires Laying(nodes0, rank, nodes) && d < |nodes| && d < |rank| && rank[d] <= above
    requires nodes[d].construct == Construct.Datatype(Terminal)
    ensures var r := TerminalSize(nodes, nodes0, rank, d, above);
            r.Ok? ==> Settled(nodes, r.value.nodes)
    decreases above, 1, 0, 0
  {
    assert Unsized(nodes0[d].construct) == Unsized(nodes[d].construct);
    assert Below(nodes0, d) && NeedsChild(nodes0[d].construct);
    var c := nodes[d].child.value;
    if nodes[c].construct.Reference? {
      var t := nodes[c].construct.index;
      assert Unsized(nodes0[c].construct) == Unsized(nodes[c].construct);
      assert Names(nodes0, d, t);
      ReferenceSizeSettled(nodes, nodes0, rank, t, above);
    }
  }

  lemma {:induction false} ReferenceSizeSettled(nodes: seq<Node>, nodes0: seq<Node>, rank: seq<nat>, t: nat, above: nat)
    requires Laying(nodes0, rank, nodes)
    requires t < |nodes0| && nodes0[t].construct.Structure? ==> rank[t] < above
    ensures var r := ReferenceSize(nodes, nodes0, rank, t, above);
            r.Ok? ==> Settled(nodes, r.value.nodes)
    decreases above, 0, 0, 0
  {
    if t < |nodes| && nodes[t].construct.Structure? && nodes[t].construct.size == 0 {
      assert Unsized(nodes0[t].construct) == Unsized(nodes[t].construct);
      FullyDefineSettled(nodes, nodes0, rank, t);
    }
  }

  // ---------------------------------------------------------------- what a layout may touch

  /** Node `j` is a structure of `nodes0` ranked below `bound`, or one of its
      members. */
  ghost predicate InLower(nodes0: seq<Node>, rank: seq<nat>, j: nat, bound: nat) {
    exists t :: 0 <= t < |nodes0| && t < |rank| && nodes0[t].construct.Structure? && rank[t] < bound
                && (j == t || j in ChildrenOf(nodes0, t))
  }

  /** `b` is `a` except in structures ranked below `bound` and their members. */
  ghost predicate Within(nodes0: seq<Node>, rank: seq<nat>, a: seq<Node>, b: seq<Node>, bound: nat) {
    && |a| == |b|
    && forall j {:trigger InLower(nodes0, rank, j, bound)} :: 0 <= j < |a| && !InLower(nodes0, rank, j, bound) ==> b[j] == a[j]
  }

  lemma WithinTrans(nodes0: seq<Node>, rank: seq<nat>, a: seq<Node>, b: seq<Node>, c: seq<Node>, bound: nat)
    requires Within(nodes0, rank, a, b, bound) && Within(nodes0, rank, b, c, bound)
    ensures Within(nodes0, rank, a, c, bound)
  { }

  lemma WithinWider(nodes0: seq<Node>, rank: seq<nat>, a: seq<Node>, b: seq<Node>, bound: nat, wider: nat)
    requires Within(nodes0, rank, a, b, bound) && bound <= wider
    ensures Within(nodes0, rank, a, b, wider)
  {
    forall j | 0 <= j < |a| && InLower(nodes0, rank, j, bound)
      ensures InLower(nodes0, rank, j, wider)
    {
      var t :| 0 <= t < |nodes0| && t < |rank| && nodes0[t].construct.Structure? && rank[t] < bound
               && (j == t || j in ChildrenOf(nodes0, t));
    }
  }

  /** Writing structure `s` or one of its members stays within `s`'s rank. */
  lemma WithinSet(nodes0: seq<Node>, rank: seq<nat>, a: seq<Node>, b: seq<Node>, s: nat, j: nat, n: Node)
    requires s < |nodes0| && s < |rank| && nodes0[s].construct.Structure?
    requires Within(nodes0, rank, a, b, rank[s] + 1) && j < |b|
    requires j == s || j in ChildrenOf(nodes0, s)
    ensures Within(nodes0, rank, a, b[j := n], rank[s] + 1)
  {
    assert InLower(nodes0, rank, j, rank[s] + 1);
  }

  /** Laying out structure `s` changes only `s`, structures ranked below it
      and their members. */
  lemma {:induction false} FullyDefineWithin(nodes: seq<Node>, nodes0: seq<Node>, rank: seq<nat>, s: nat)
    requires Laying(nodes0, rank, nodes) && s < |nodes|
    ensures var r := FullyDefine(nodes, nodes0, rank, s);
            r.Ok? ==> Within(nodes0, rank, nodes, r.value.nodes, rank[s] + 1)
    decreases rank[s], 4, 0, 0
  {
    if nodes[s].construct.Structure? && nodes[s].construct.size == 0 {
      KidsLinks(nodes0, s);
      assert Unsized(nodes0[s].construct) == Unsized(nodes[s].construct);
      assert NeedsChild(nodes0[s].construct);
      SameLinksChildren(nodes0, nodes, s);
      MembersFromWithin(nodes, nodes, nodes0, rank, s, nodes[s].construct.name, ChildrenOf(nodes, s), 0, 0, 0, [], []);
    }
  }

  lemma {:induction false} MembersFromWithin(orig: seq<Node>, nodes: seq<Node>, nodes0: seq<Node>, rank: seq<nat>, s: nat, name: string,
                                             kids: seq<nat>, j: nat, size: nat, alignment: nat, sizes: seq<nat>, offsets: seq<nat>)
    requires Laying(nodes0, rank, nodes) && s < |nodes|
    requires Unsized(nodes[s].construct) == Construct.Structure(name, 0)
    requires kids == ChildrenOf(nodes0, s) && j < |kids|
    requires Within(nodes0, rank, orig, nodes, rank[s] + 1)
    ensures var r := MembersFrom(nodes, nodes0, rank, s, name, kids, j, size, alignment, sizes, offsets);
            r.Ok? ==> Within(nodes0, rank, orig, r.value.nodes, rank[s] + 1)
    decreases rank[s], 3, |kids| - j, 2
  {
    KidsLinks(nodes0, s);
    assert Unsized(nodes0[s].construct) == Unsized(nodes[s].construct);
    assert Ranked(nodes0, rank, s);
    var member := MemberSize(nodes, nodes0, rank, kids[j], rank[s]);
    MemberSizeWithin(nodes, nodes0, rank, kids[j], rank[s]);
    if member.Ok? {
      var n1 := member.value.nodes;
      WithinWider(nodes0, rank, nodes, n1, rank[s], rank[s] + 1);
      WithinTrans(nodes0, rank, orig, nodes, n1, rank[s] + 1);
      assert MembersFrom(nodes, nodes0, rank, s, name, kids, j, size, alignment, sizes, offsets)
          == PlaceMember(n1, nodes0, rank, s, name, kids, j, size, alignment, sizes, offsets, member.value.size);
      PlaceMemberWithin(orig, n1, nodes0, rank, s, name, kids, j, size, alignment, sizes, offsets, member.value.size);
    }
  }

  lemma {:induction false} PlaceMemberWithin(orig: seq<Node>, nodes: seq<Node>, nodes0: seq<Node>, rank: seq<nat>, s: nat, name: string,
                                             kids: seq<nat>, j: nat, size: nat, alignment: nat, sizes: seq<nat>, offsets: seq<nat>, ms: nat)
    requires Laying(nodes0, rank, nodes) && s < |nodes|
    requires Unsized(nodes[s].construct) == Construct.Structure(name, 0)
    requires kids == ChildrenOf(nodes0, s) && j < |kids| && ms > 0
    requires Within(nodes0, rank, orig, nodes, rank[s] + 1)
    ensures var r := PlaceMember(nodes, nodes0, rank, s, name, kids, j, size, alignment, sizes, offsets, ms);
            r.Ok? ==> Within(nodes0, rank, orig, r.value.nodes, rank[s] + 1)
    decreases rank[s], 3, |kids| - j, 1
  {
    KidNext(nodes, nodes0, rank, s, kids, j);
    assert Unsized(nodes0[s].construct) == Unsized(nodes[s].construct);
    var m := kids[j];
    if nodes[m].construct.Member? {
      var offset: nat := Place(size, ms);
      var n2 := nodes[m := nodes[m].(construct := Construct.Member(nodes[m].construct.name, offset))];
      WithinSet(nodes0, rank, orig, nodes, s, m, nodes[m].(construct := Construct.Member(nodes[m].construct.name, offset)));
      if j + 1 < |kids| {
        PlaceMemberNextWithin(orig, nodes, nodes0, rank, s, name, kids, j, size, alignment, sizes, offsets, ms);
      } else {
        PlaceMemberLast(nodes, nodes0, rank, s, name, kids, j, size, alignment, sizes, offsets, ms);
        var total := Place(offset + ms, if ms > alignment then ms else alignment);
        WithinSet(nodes0, rank, orig, n2, s, s, n2[s].(construct := Construct.Structure(name, total)));
      }
    } else {
      PlaceMemberNot(nodes, nodes0, rank, s, name, kids, j, size, alignment, sizes, offsets, ms);
    }
  }

  lemma {:induction false} PlaceMemberNextWithin(orig: seq<Node>, nodes: seq<Node>, nodes0: seq<Node>, rank: seq<nat>, s: nat, name: string,
                                                 kids: seq<nat>, j: nat, size: nat, alignment: nat, sizes: seq<nat>, offsets: seq<nat>, ms: nat)
    requires Laying(nodes0, rank, nodes) && s < |nodes|
    requires Unsized(nodes[s].construct) == Construct.Structure(name, 0)
    requires kids == ChildrenOf(nodes0, s) && j + 1 < |kids| && ms > 0
    requires kids[j] < |nodes| && nodes[kids[j]].construct.Member? && nodes[kids[j]].next.Some?
    requires var m := kids[j];
             Within(nodes0, rank, orig, nodes[m := nodes[m].(construct := Construct.Member(nodes[m].construct.name, Place(size, ms)))],
                    rank[s] + 1)
    ensures var r := PlaceMember(nodes, nodes0, rank, s, name, kids, j, size, alignment, sizes, offsets, ms);
            r.Ok? ==> Within(nodes0, rank, orig, r.value.nodes, rank[s] + 1)
    decreases rank[s], 3, |kids| - j, 0
  {
    PlaceMemberNext(nodes, nodes0, rank, s, name, kids, j, size, alignment, sizes, offsets, ms);
    var m := kids[j];
    var offset: nat := Place(size, ms);
    var n2 := nodes[m := nodes[m].(construct := Construct.Member(nodes[m].construct.name, offset))];
    MembersFromWithin(orig, n2, nodes0, rank, s, name, kids, j + 1, offset + ms, if ms > alignment then ms else alignment,
                      sizes + [ms], offsets + [offset]);
  }

  /** Sizing a member changes only structures ranked below `above` and
      their members. */
  lemma {:induction false} MemberSizeWithin(nodes: seq<Node>, nodes0: seq<Node>, rank: seq<nat>, m: nat, above: nat)
    requires Laying(nodes0, rank, nodes) && m < |nodes| && Under(nodes0, rank, m, above)
    ensures var r := MemberSize(nodes, nodes0, rank, m, above);
            r.Ok? ==> Within(nodes0, rank, nodes, r.value.nodes, above)
    decreases above, 2, 0, 0
  {
    KidsLinks(nodes0, m);
    SameLinksChildren(nodes0, nodes, m);
    if nodes[m].child.Some? {
      MemberSizeFromWithin(nodes, nodes0, rank, m, ChildrenOf(nodes, m), 0, above);
    }
  }

  lemma {:induction false} MemberSizeFromWithin(nodes: seq<Node>, nodes0: seq<Node>, rank: seq<nat>, m: nat, kids: seq<nat>, j: nat, above: nat)
    requires Laying(nodes0, rank, nodes) && m < |nodes| && Under(nodes0, rank, m, above)
    requires kids == ChildrenOf(nodes0, m) && j < |kids|
    ensures var r := MemberSizeFrom(nodes, nodes0, rank, m, kids, j, above);
            r.Ok? ==> Within(nodes0, rank, nodes, r.value.nodes, above)
    decreases above, 1, |kids| - j, 1
  {
    KidsLinks(nodes0, m);
    var d := kids[j];
    if nodes[d].construct == Construct.Datatype(Terminal) {
      TerminalSizeWithin(nodes, nodes0, rank, d, above);
    } else if !nodes[d].construct.Datatype? && j + 1 < |kids| {
      MemberSizeFromWithin(nodes, nodes0, rank, m, kids, j + 1, above);
    }
  }

  lemma {:induction false} TerminalSizeWithin(nodes: seq<Node>, nodes0: seq<Node>, rank: seq<nat>, d: nat, above: nat)
    requires Laying(nodes0, rank, nodes) && d < |nodes| && d < |rank| && rank[d] <= above
    requires nodes[d].construct == Construct.Datatype(Terminal)
    ensures var r := TerminalSize(nodes, nodes0, rank, d, above);
            r.Ok? ==> Within(nodes0, rank, nodes, r.value.nodes, above)
    decreases above, 1, 0, 0
  {
    assert Unsized(nodes0[d].construct) == Unsized(nodes[d].construct);
    assert Below(nodes0, d) && NeedsChild(nodes0[d].construct);
    var c := nodes[d].child.value;
    if nodes[c].construct.Reference? {
      var t := nodes[c].construct.index;
      assert Unsized(nodes0[c].construct) == Unsized(nodes[c].construct);
      assert Names(nodes0, d, t);
      ReferenceSizeWithin(nodes, nodes0, rank, t, above);
    }
  }

  lemma {:induction false} ReferenceSizeWithin(nodes: seq<Node>, nodes0: seq<Node>, rank: seq<nat>, t: nat, above: nat)
    requires Laying(nodes0, rank, nodes)
    requires t < |nodes0| && nodes0[t].construct.Structure? ==> rank[t] < above
    ensures var r := ReferenceSize(nodes, nodes0, rank, t, above);
            r.Ok? ==> Within(nodes0, rank, nodes, r.value.nodes, above)
    decreases above, 0, 0, 0
  {
    if t < |nodes| && nodes[t].construct.Structure? && nodes[t].construct.size == 0 {
      assert Unsized(nodes0[t].construct) == Unsized(nodes[t].construct);
      FullyDefineWithin(nodes, nodes0, rank, t);
      var laid := FullyDefine(nodes, nodes0, rank, t);
      if laid.Ok? {
        WithinWider(nodes0, rank, nodes, laid.value.nodes, rank[t] + 1, above);
      }
    }
  }

  // ---------------------------------------------------------------- where the members go

  /** Every node is a child of at most one node, as in the arena the parser
      builds: a node is confirmed under the one rule that staged it. */
  ghost predicate OwnKids(nodes: seq<Node>) {
    forall p, q, k, k2 ::
      && 0 <= p < |nodes| && 0 <= q < |nodes|
      && 0 <= k < |ChildrenOf(nodes, p)| && 0 <= k2 < |ChildrenOf(nodes, q)|
      && ChildrenOf(nodes, p)[k] == ChildrenOf(nodes, q)[k2]
      ==> p == q
  }

  /** The size a member's type takes whatever the rest of the layout: 8 for
      a pointer and the primitive's own size for a primitive terminal;
      `None` for a referenced structure, which is laid out to find it, and
      for a member the layout rejects. */
  function FixedSize(nodes: seq<Node>, m: nat): (r: Option<nat>)
    ensures r.Some? ==> r.value > 0
  {
    if m >= |nodes| || nodes[m].child.None? || nodes[m].child.value >= |nodes| then None
    else
      var d := nodes[m].child.value;
      match nodes[d].construct
      case Datatype(Pointer) => Some(8)
      case Datatype(Terminal) =>
        if nodes[d].child.Some? && nodes[d].child.value < |nodes| && nodes[nodes[d].child.value].construct.Primitive?
        then Some(PrimitiveSize(nodes[nodes[d].child.value].construct.primitive))
        else None
      case _ => None
  }

  /** A member typed by a primitive (`x: i32;`) takes that primitive's size
      and changes nothing. */
  lemma PrimitiveMember(nodes: seq<Node>, nodes0: seq<Node>, rank: seq<nat>, m: nat, above: nat, p: Primitive)
    requires Laying(nodes0, rank, nodes) && m < |nodes| && Under(nodes0, rank, m, above)
    requires nodes[m].child.Some? && nodes[m].child.value < |nodes|
    requires var d := nodes[m].child.value;
             && nodes[d].construct == Construct.Datatype(Terminal)
             && nodes[d].child.Some? && nodes[d].child.value < |nodes|
             && nodes[nodes[d].child.value].construct == Construct.Primitive(p)
    ensures MemberSize(nodes, nodes0, rank, m, above) == Ok(Sized(nodes, PrimitiveSize(p)))
  {
    KidsLinks(nodes0, m);
    SameLinksChildren(nodes0, nodes, m);
    var d := nodes[m].child.value;
    assert ChildrenOf(nodes0, m)[0] == d;
    assert rank[d] <= above;
    assert TerminalSize(nodes, nodes0, rank, d, above) == Ok(Sized(nodes, PrimitiveSize(p)));
  }

  /** A member whose type has a fixed size takes it and changes nothing. */
  lemma FixedMember(nodes: seq<Node>, nodes0: seq<Node>, rank: seq<nat>, m: nat, above: nat)
    requires Laying(nodes0, rank, nodes) && m < |nodes| && Under(nodes0, rank, m, above)
    requires FixedSize(nodes0, m).Some?
    ensures MemberSize(nodes, nodes0, rank, m, above) == Ok(Sized(nodes, FixedSize(nodes0, m).value))
  {
    var d := nodes0[m].child.value;
    assert nodes[m].child == nodes0[m].child;
    assert Unsized(nodes0[d].construct) == Unsized(nodes[d].construct);
    if nodes[d].construct == Construct.Datatype(Pointer) {
      PointerMember(nodes, nodes0, rank, m, above);
    } else {
      var c := nodes0[d].child.value;
      assert Unsized(nodes0[c].construct) == Unsized(nodes[c].construct);
      PrimitiveMember(nodes, nodes0, rank, m, above, nodes0[c].construct.primitive);
    }
  }

  /** The first `j` of members `kids` sit at `offsets` in `nodes`, and each
      whose type has a fixed size was given that size. */
  ghost predicate Placed(nodes0: seq<Node>, nodes: seq<Node>, kids: seq<nat>, j: nat, sizes: seq<nat>, offsets: seq<nat>) {
    && j <= |kids| && |sizes| == j && |offsets| == j
    && forall k :: 0 <= k < j ==>
         && kids[k] < |nodes| && nodes[kids[k]].construct.Member? && nodes[kids[k]].construct.offset == offsets[k]
         && (FixedSize(nodes0, kids[k]).Some? ==> sizes[k] == FixedSize(nodes0, kids[k]).value)
  }

  /** Laying out structure `s` puts every member at its offset and gives
      every member of fixed size that size; with `FullyDefineLaw`, the
      offsets are `Offsets` of the sizes. */
  lemma FullyDefinePlaces(nodes: seq<Node>, nodes0: seq<Node>, rank: seq<nat>, s: nat)
    requires Laying(nodes0, rank, nodes) && OwnKids(nodes0) && s < |nodes|
    requires nodes[s].construct.Structure? && nodes[s].construct.size == 0
    ensures var r := FullyDefine(nodes, nodes0, rank, s);
            var kids := ChildrenOf(nodes, s);
            r.Ok? ==> var l := r.value;
              && |l.sizes| == |kids| && |l.offsets| == |kids|
              && (forall k :: 0 <= k < |kids| ==>
                    && kids[k] < |l.nodes| && l.nodes[kids[k]].construct.Member?
                    && l.nodes[kids[k]].construct.offset == l.offsets[k])
              && (forall k :: 0 <= k < |kids| && FixedSize(nodes0, kids[k]).Some? ==> l.sizes[k] == FixedSize(nodes0, kids[k]).value)
  {
    KidsLinks(nodes0, s);
    assert Unsized(nodes0[s].construct) == Unsized(nodes[s].construct);
    assert NeedsChild(nodes0[s].construct);
    SameLinksChildren(nodes0, nodes, s);
    MembersFromPlaces(nodes, nodes0, rank, s, nodes[s].construct.name, ChildrenOf(nodes, s), 0, 0, 0, [], []);
  }

  /** Earlier members are not touched by sizing a later one: they belong to
      `s` alone, and sizing stays below `s`'s rank. */
  lemma PlacedKept(nodes0: seq<Node>, rank: seq<nat>, a: seq<Node>, b: seq<Node>, s: nat,
                   kids: seq<nat>, j: nat, sizes: seq<nat>, offsets: seq<nat>)
    requires OwnKids(nodes0) && Relaid(nodes0, a) && s < |nodes0| && s < |rank|
    requires kids == ChildrenOf(nodes0, s)
    requires Placed(nodes0, a, kids, j, sizes, offsets) && Within(nodes0, rank, a, b, rank[s])
    ensures Placed(nodes0, b, kids, j, sizes, offsets)
  {
    forall k | 0 <= k < j
      ensures !InLower(nodes0, rank, kids[k], rank[s])
    {
      var m := kids[k];
      assert Unsized(nodes0[m].construct) == Unsized(a[m].construct);
      forall t, k2 | 0 <= t < |nodes0| && t < |rank| && rank[t] < rank[s] && 0 <= k2 < |ChildrenOf(nodes0, t)|
        ensures ChildrenOf(nodes0, t)[k2] != m
      {
        assert ChildrenOf(nodes0, s)[k] == m;
      }
    }
  }

  /** Placing member `kids[j]` extends the placement by one. */
  lemma PlacedSnoc(nodes0: seq<Node>, nodes: seq<Node>, kids: seq<nat>, j: nat, sizes: seq<nat>, offsets: seq<nat>,
                   ms: nat, offset: nat)
    requires Placed(nodes0, nodes, kids, j, sizes, offsets) && j < |kids| && Increasing(kids)
    requires kids[j] < |nodes| && nodes[kids[j]].construct.Member?
    requires FixedSize(nodes0, kids[j]).Some? ==> ms == FixedSize(nodes0, kids[j]).value
    ensures var m := kids[j];
            Placed(nodes0, nodes[m := nodes[m].(construct := Construct.Member(nodes[m].construct.name, offset))],
                   kids, j + 1, sizes + [ms], offsets + [offset])
  {
  }

  /** Writing a node that is none of the first `j` members keeps the placement. */
  lemma PlacedElsewhere(nodes0: seq<Node>, nodes: seq<Node>, kids: seq<nat>, j: nat, sizes: seq<nat>, offsets: seq<nat>,
                        i: nat, n: Node)
    requires Placed(nodes0, nodes, kids, j, sizes, offsets) && i < |nodes|
    requires forall k :: 0 <= k < j ==> kids[k] != i
    ensures Placed(nodes0, nodes[i := n], kids, j, sizes, offsets)
  {
  }

  lemma {:induction false} MembersFromPlaces(nodes: seq<Node>, nodes0: seq<Node>, rank: seq<nat>, s: nat, name: string, kids: seq<nat>, j: nat,
                                             size: nat, alignment: nat, sizes: seq<nat>, offsets: seq<nat>)
    requires Laying(nodes0, rank, nodes) && OwnKids(nodes0) && s < |nodes|
    requires Unsized(nodes[s].construct) == Construct.Structure(name, 0)
    requires kids == ChildrenOf(nodes0, s) && j < |kids|
    requires Placed(nodes0, nodes, kids, j, sizes, offsets)
    ensures var r := MembersFrom(nodes, nodes0, rank, s, name, kids, j, size, alignment, sizes, offsets);
            r.Ok? ==> Placed(nodes0, r.value.nodes, kids, |kids|, r.value.sizes, r.value.offsets)
    decreases |kids| - j, 2
  {
    KidsLinks(nodes0, s);
    assert Unsized(nodes0[s].construct) == Unsized(nodes[s].construct);
    assert Ranked(nodes0, rank, s);
    var member := MemberSize(nodes, nodes0, rank, kids[j], rank[s]);
    MemberSizeWithin(nodes, nodes0, rank, kids[j], rank[s]);
    if member.Ok? {
      var n1 := member.value.nodes;
      if FixedSize(nodes0, kids[j]).Some? {
        FixedMember(nodes, nodes0, rank, kids[j], rank[s]);
      }
      PlacedKept(nodes0, rank, nodes, n1, s, kids, j, sizes, offsets);
      assert MembersFrom(nodes, nodes0, rank, s, name, kids, j, size, alignment, sizes, offsets)
          == PlaceMember(n1, nodes0, rank, s, name, kids, j, size, alignment, sizes, offsets, member.value.size);
      PlaceMemberPlaces(n1, nodes0, rank, s, name, kids, j, size, alignment, sizes, offsets, member.value.size);
    }
  }

  lemma {:induction false} PlaceMemberPlaces(nodes: seq<Node>, nodes0: seq<Node>, rank: seq<nat>, s: nat, name: string, kids: seq<nat>, j: nat,
                                             size: nat, alignment: nat, sizes: seq<nat>, offsets: seq<nat>, ms: nat)
    requires Laying(nodes0, rank, nodes) && OwnKids(nodes0) && s < |nodes|
    requires Unsized(nodes[s].construct) == Construct.Structure(name, 0)
    requires kids == ChildrenOf(nodes0, s) && j < |kids| && ms > 0
    requires Placed(nodes0, nodes, kids, j, sizes, offsets)
    requires FixedSize(nodes0, kids[j]).Some? ==> ms == FixedSize(nodes0, kids[j]).value
    ensures var r := PlaceMember(nodes, nodes0, rank, s, name, kids, j, size, alignment, sizes, offsets, ms);
            r.Ok? ==> Placed(nodes0, r.value.nodes, kids, |kids|, r.value.sizes, r.value.offsets)
    decreases |kids| - j, 1
  {
    KidNext(nodes, nodes0, rank, s, kids, j);
    KidsLinks(nodes0, s);
    ChildrenIncreasing(nodes0, nodes0[s].child);
    var m := kids[j];
    if nodes[m].construct.Member? {
      var offset: nat := Place(size, ms);
      var n2 := nodes[m := nodes[m].(construct := Construct.Member(nodes[m].construct.name, offset))];
      PlacedSnoc(nodes0, nodes, kids, j, sizes, offsets, ms, offset);
      if j + 1 < |kids| {
        PlaceMemberNextPlaces(nodes, nodes0, rank, s, name, kids, j, size, alignment, sizes, offsets, ms);
      } else {
        PlaceMemberLast(nodes, nodes0, rank, s, name, kids, j, size, alignment, sizes, offsets, ms);
        var total := Place(offset + ms, if ms > alignment then ms else alignment);
        PlacedElsewhere(nodes0, n2, kids, j + 1, sizes + [ms], offsets + [offset], s, n2[s].(construct := Construct.Structure(name, total)));
      }
    } else {
      PlaceMemberNot(nodes, nodes0, rank, s, name, kids, j, size, alignment, sizes, offsets, ms);
    }
  }

  /** The arena the parser leaves for `S: struct { x: i32; y: i32; }`: each
      member over its terminal datatype over the primitive, children before
      their parents, the structure last. */
  const TwoInts: seq<Node> := [
    Node(Construct.Primitive(I32), None, None),
    Node(Construct.Datatype(Terminal), None, Some(0)),
    Node(Construct.Member("x", 0), Some(5), Some(1)),
    Node(Construct.Primitive(I32), None, None),
    Node(Construct.Datatype(Terminal), None, Some(3)),
    Node(Construct.Member("y", 0), None, Some(4)),
    Node(Construct.Structure("S", 0), None, Some(2))
  ]

  /** Nothing in `TwoInts` names a structure, so every rank may be 0. */
  const TwoIntsRank: seq<nat> := [0, 0, 0, 0, 0, 0, 0]

  /** The children of every node of `TwoInts`. */
  lemma TwoIntsChildren()
    ensures ChildrenOf(TwoInts, 0) == [] && ChildrenOf(TwoInts, 3) == []
    ensures ChildrenOf(TwoInts, 1) == [0] && ChildrenOf(TwoInts, 4) == [3]
    ensures ChildrenOf(TwoInts, 2) == [1] && ChildrenOf(TwoInts, 5) == [4]
    ensures ChildrenOf(TwoInts, 6) == [2, 5]
  {
    var a := TwoInts;
    assert ChildrenFrom(a, Some(0)) == [0] && ChildrenFrom(a, Some(3)) == [3];
    assert ChildrenFrom(a, Some(1)) == [1] && ChildrenFrom(a, Some(4)) == [4];
    assert ChildrenFrom(a, Some(5)) == [5];
    assert ChildrenFrom(a, Some(2)) == [2] + ChildrenFrom(a, Some(5));
  }

  lemma TwoIntsTree()
    ensures Shaped(TwoInts)
  {
    TwoIntsChildren();
    forall p | 0 <= p < |TwoInts|
      ensures Below(TwoInts, p)
    {
      assert p == 0 || p == 1 || p == 2 || p == 3 || p == 4 || p == 5 || p == 6;
    }
  }

  lemma TwoIntsLaying()
    ensures Laying(TwoInts, TwoIntsRank, TwoInts) && OwnKids(TwoInts)
  {
    TwoIntsTree();
    TwoIntsAcyclic();
    TwoIntsOwn();
    assert Relaid(TwoInts, TwoInts);
  }

  lemma TwoIntsAcyclic()
    ensures Acyclic(TwoInts, TwoIntsRank)
  {
    TwoIntsChildren();
    var a := TwoInts;
    assert Ranked(a, TwoIntsRank, 6);
    forall s | 0 <= s < |a| && a[s].construct.Structure?
      ensures Ranked(a, TwoIntsRank, s)
    {
      assert s == 6;
    }
    forall c | 0 <= c < |a|
      ensures !a[c].construct.Reference?
    {
      assert c == 0 || c == 1 || c == 2 || c == 3 || c == 4 || c == 5 || c == 6;
    }
  }

  lemma TwoIntsOwn()
    ensures OwnKids(TwoInts)
  {
    TwoIntsChildren();
    var a := TwoInts;
    forall p, q, k, k2 |
      && 0 <= p < |a| && 0 <= q < |a|
      && 0 <= k < |ChildrenOf(a, p)| && 0 <= k2 < |ChildrenOf(a, q)|
      && ChildrenOf(a, p)[k] == ChildrenOf(a, q)[k2]
      ensures p == q
    {
      assert p == 1 || p == 2 || p == 4 || p == 5 || p == 6;
    }
  }

  lemma {:induction false} PlaceMemberNextPlaces(nodes: seq<Node>, nodes0: seq<Node>, rank: seq<nat>, s: nat, name: string, kids: seq<nat>, j: nat,
                                                 size: nat, alignment: nat, sizes: seq<nat>, offsets: seq<nat>, ms: nat)
    requires Laying(nodes0, rank, nodes) && OwnKids(nodes0) && s < |nodes|
    requires Unsized(nodes[s].construct) == Construct.Structure(name, 0)
    requires kids == ChildrenOf(nodes0, s) && j + 1 < |kids| && ms > 0
    requires kids[j] < |nodes| && nodes[kids[j]].construct.Member? && nodes[kids[j]].next.Some?
    requires var m := kids[j];
             Placed(nodes0, nodes[m := nodes[m].(construct := Construct.Member(nodes[m].construct.name, Place(size, ms)))],
                    kids, j + 1, sizes + [ms], offsets + [Place(size, ms)])
    ensures var r := PlaceMember(nodes, nodes0, rank, s, name, kids, j, size, alignment, sizes, offsets, ms);
            r.Ok? ==> Placed(nodes0, r.value.nodes, kids, |kids|, r.value.sizes, r.value.offsets)
    decreases |kids| - j, 0
  {
    PlaceMemberNext(nodes, nodes0, rank, s, name, kids, j, size, alignment, sizes, offsets, ms);
    var m := kids[j];
    var offset: nat := Place(size, ms);
    var n2 := nodes[m := nodes[m].(construct := Construct.Member(nodes[m].construct.name, offset))];
    MembersFromPlaces(n2, nodes0, rank, s, name, kids, j + 1, offset + ms, if ms > alignment then ms else alignment,
                      sizes + [ms], offsets + [offset]);
  }

  /** Every member of `kids` from the `j`th on is a member node whose type
      has a fixed size. */
  ghost predicate AllFixed(nodes0: seq<Node>, kids: seq<nat>, j: nat) {
    forall k :: j <= k < |kids| ==>
      kids[k] < |nodes0| && nodes0[kids[k]].construct.Member? && FixedSize(nodes0, kids[k]).Some?
  }

  /** A structure whose members all have types of fixed size is laid out
      without error. */
  lemma FullyDefineFixed(nodes: seq<Node>, nodes0: seq<Node>, rank: seq<nat>, s: nat)
    requires Laying(nodes0, rank, nodes) && s < |nodes|
    requires nodes[s].construct.Structure? && nodes[s].construct.size == 0
    requires AllFixed(nodes0, ChildrenOf(nodes0, s), 0)
    ensures FullyDefine(nodes, nodes0, rank, s).Ok?
  {
    KidsLinks(nodes0, s);
    assert Unsized(nodes0[s].construct) == Unsized(nodes[s].construct);
    assert NeedsChild(nodes0[s].construct);
    SameLinksChildren(nodes0, nodes, s);
    MembersFromFixed(nodes, nodes0, rank, s, nodes[s].construct.name, ChildrenOf(nodes, s), 0, 0, 0, [], []);
  }

  lemma {:induction false} MembersFromFixed(nodes: seq<Node>, nodes0: seq<Node>, rank: seq<nat>, s: nat, name: string, kids: seq<nat>, j: nat,
                                            size: nat, alignment: nat, sizes: seq<nat>, offsets: seq<nat>)
    requires Laying(nodes0, rank, nodes) && s < |nodes|
    requires Unsized(nodes[s].construct) == Construct.Structure(name, 0)
    requires kids == ChildrenOf(nodes0, s) && j < |kids| && AllFixed(nodes0, kids, j)
    ensures MembersFrom(nodes, nodes0, rank, s, name, kids, j, size, alignment, sizes, offsets).Ok?
    decreases |kids| - j, 2
  {
    KidsLinks(nodes0, s);
    assert Unsized(nodes0[s].construct) == Unsized(nodes[s].construct);
    assert Ranked(nodes0, rank, s);
    var m := kids[j];
    FixedMember(nodes, nodes0, rank, m, rank[s]);
    var ms := FixedSize(nodes0, m).value;
    assert MembersFrom(nodes, nodes0, rank, s, name, kids, j, size, alignment, sizes, offsets)
        == PlaceMember(nodes, nodes0, rank, s, name, kids, j, size, alignment, sizes, offsets, ms);
    PlaceMemberFixed(nodes, nodes0, rank, s, name, kids, j, size, alignment, sizes, offsets, ms);
  }

  lemma {:induction false} PlaceMemberFixed(nodes: seq<Node>, nodes0: seq<Node>, rank: seq<nat>, s: nat, name: string, kids: seq<nat>, j: nat,
                                            size: nat, alignment: nat, sizes: seq<nat>, offsets: seq<nat>, ms: nat)
    requires Laying(nodes0, rank, nodes) && s < |nodes|
    requires Unsized(nodes[s].construct) == Construct.Structure(name, 0)
    requires kids == ChildrenOf(nodes0, s) && j < |kids| && AllFixed(nodes0, kids, j) && ms > 0
    ensures PlaceMember(nodes, nodes0, rank, s, name, kids, j, size, alignment, sizes, offsets, ms).Ok?
    decreases |kids| - j, 1
  {
    var m := kids[j];
    KidNext(nodes, nodes0, rank, s, kids, j);
    assert Unsized(nodes0[m].construct) == Unsized(nodes[m].construct);
    if j + 1 < |kids| {
      PlaceMemberNextFixed(nodes, nodes0, rank, s, name, kids, j, size, alignment, sizes, offsets, ms);
    } else {
      PlaceMemberLast(nodes, nodes0, rank, s, name, kids, j, size, alignment, sizes, offsets, ms);
    }
  }

  lemma {:induction false} PlaceMemberNextFixed(nodes: seq<Node>, nodes0: seq<Node>, rank: seq<nat>, s: nat, name: string, kids: seq<nat>, j: nat,
                                                size: nat, alignment: nat, sizes: seq<nat>, offsets: seq<nat>, ms: nat)
    requires Laying(nodes0, rank, nodes) && s < |nodes|
    requires Unsized(nodes[s].construct) == Construct.Structure(name, 0)
    requires kids == ChildrenOf(nodes0, s) && j + 1 < |kids| && AllFixed(nodes0, kids, j + 1) && ms > 0
    requires kids[j] < |nodes| && nodes[kids[j]].construct.Member? && nodes[kids[j]].next.Some?
    ensures PlaceMember(nodes, nodes0, rank, s, name, kids, j, size, alignment, sizes, offsets, ms).Ok?
    decreases |kids| - j, 0
  {
    PlaceMemberNext(nodes, nodes0, rank, s, name, kids, j, size, alignment, sizes, offsets, ms);
    var m := kids[j];
    var offset: nat := Place(size, ms);
    MembersFromFixed(nodes[m := nodes[m].(construct := Construct.Member(nodes[m].construct.name, offset))], nodes0, rank, s, name,
                     kids, j + 1, offset + ms, if ms > alignment then ms else alignment, sizes + [ms], offsets + [offset]);
  }

  /** A structure of two members whose types both take `x` bytes, such as
      two `i32`, is laid out with the first member at 0, the second at `x`
      and the structure of `2 * x` bytes. */
  lemma TwoAlikeLaidOut(a: seq<Node>, rank: seq<nat>, s: nat, m1: nat, m2: nat, name: string, n1: string, n2: string, x: nat)
    requires Laying(a, rank, a) && OwnKids(a) && s < |a| && m1 < |a| && m2 < |a|
    requires a[s].construct == Construct.Structure(name, 0) && ChildrenOf(a, s) == [m1, m2]
    requires a[m1].construct == Construct.Member(n1, 0) && a[m2].construct == Construct.Member(n2, 0)
    requires FixedSize(a, m1) == Some(x) && FixedSize(a, m2) == Some(x)
    ensures var r := FullyDefine(a, a, rank, s);
            && r.Ok? && r.value.size == 2 * x && r.value.sizes == [x, x] && r.value.offsets == [0, x]
            && r.value.nodes[m1].construct == Construct.Member(n1, 0)
            && r.value.nodes[m2].construct == Construct.Member(n2, x)
            && r.value.nodes[s].construct == Construct.Structure(name, 2 * x)
  {
    var kids := ChildrenOf(a, s);
    assert kids[0] == m1 && kids[1] == m2;
    assert AllFixed(a, kids, 0);
    FullyDefineFixed(a, a, rank, s);
    FullyDefineLaw(a, a, rank, s);
    FullyDefinePlaces(a, a, rank, s);
    var l := FullyDefine(a, a, rank, s).value;
    assert l.sizes == [x, x];
    TwoAlike(x);
    assert Unsized(a[m1].construct) == Unsized(l.nodes[m1].construct);
    assert Unsized(a[m2].construct) == Unsized(l.nodes[m2].construct);
  }

  /** The shape of `TwoInts`: a structure `S` over members `x` and `y`,
      each typed by a primitive of 4 bytes. */
  lemma TwoIntsShape()
    ensures Laying(TwoInts, TwoIntsRank, TwoInts) && OwnKids(TwoInts) && |TwoInts| == 7
    ensures TwoInts[6].construct == Construct.Structure("S", 0) && ChildrenOf(TwoInts, 6) == [2, 5]
    ensures TwoInts[2].construct == Construct.Member("x", 0) && TwoInts[5].construct == Construct.Member("y", 0)
    ensures FixedSize(TwoInts, 2) == Some(4) && FixedSize(TwoInts, 5) == Some(4)
  {
    TwoIntsLaying();
    TwoIntsChildren();
  }

  /** `S: struct { x: i32; y: i32; }` is laid out with `x` at 0, `y` at 4
      and `S` of 8 bytes. */
  lemma TwoIntsLaidOut()
    ensures Laying(TwoInts, TwoIntsRank, TwoInts)
    ensures var r := FullyDefine(TwoInts, TwoInts, TwoIntsRank, 6);
            && r.Ok? && r.value.size == 8 && r.value.sizes == [4, 4] && r.value.offsets == [0, 4]
            && r.value.nodes[2].construct == Construct.Member("x", 0)
            && r.value.nodes[5].construct == Construct.Member("y", 4)
            && r.value.nodes[6].construct == Construct.Structure("S", 8)
  {
    TwoIntsShape();
    TwoAlikeLaidOut(TwoInts, TwoIntsRank, 6, 2, 5, "S", "x", "y", 4);
  }

  // ---------------------------------------------------------------- the cursor walks

  /** `fully_define_structure`: lays out the structure the cursor is on. */
  method FullyDefineStructure(g: Generator, ghost nodes0: seq<Node>, ghost rank: seq<nat>) returns (r: Result<nat>)
    requires Laying(nodes0, rank, g.nodes) && OnNode(g.nodes, g.treeStack)
    modifies g
    ensures var spec := FullyDefine(old(g.nodes), nodes0, rank, Last(old(g.treeStack)));
            && (r.Ok? <==> spec.Ok?)
            && (r.Ok? ==> r.value == spec.value.size && g.nodes == spec.value.nodes && g.treeStack == old(g.treeStack))
    decreases rank[Last(g.treeStack)], 4, 0, 0
  {
    var current := g.Current();
    if !current.value.Structure? {
      return Fatal("Node not Structure at fully_define_structure()");
    }
    var name := current.value.name;
    var size := current.value.size;
    if size != 0 {
      return Ok(size);
    }
    ghost var base := g.treeStack;
    ghost var s := Last(base);
    ghost var kids := ChildrenOf(nodes0, s);
    KidsLinks(nodes0, s);
    SameLinksChildren(nodes0, g.nodes, s);
    assert FullyDefine(g.nodes, nodes0, rank, s) == MembersFrom(g.nodes, nodes0, rank, s, name, kids, 0, 0, 0, [], []);
    var down := g.Down();
    var laid, sizes, offsets :- LayMembers(g, nodes0, rank, s, name, kids);
    ghost var members := g.nodes;
    assert Pop(g.treeStack) == base;
    var up := g.Up();
    size := Place(laid.0, laid.1);
    var replaced := g.ReplaceConstruct(Construct.Structure(name, size));
    assert g.nodes == members[s := members[s].(construct := Construct.Structure(name, size))];
    return Ok(size);
  }

  /** The loop of `fully_define_structure`, from its first member to its
      last: the size reached and the alignment, before the final padding. */
  method LayMembers(g: Generator, ghost nodes0: seq<Node>, ghost rank: seq<nat>, ghost s: nat, name: string, ghost kids: seq<nat>)
    returns (r: Result<(nat, nat)>, ghost sizes: seq<nat>, ghost offsets: seq<nat>)
    requires Laying(nodes0, rank, g.nodes) && s < |g.nodes|
    requires Unsized(g.nodes[s].construct) == Construct.Structure(name, 0)
    requires kids == ChildrenOf(nodes0, s) && kids != [] && |g.treeStack| >= 1 && Last(g.treeStack) == kids[0]
    modifies g
    ensures var spec := MembersFrom(old(g.nodes), nodes0, rank, s, name, kids, 0, 0, 0, [], []);
            && (r.Ok? <==> spec.Ok?)
            && (r.Ok? ==> var (size, alignment) := r.value;
                          && alignment > 0 && s < |g.nodes| && |g.treeStack| == |old(g.treeStack)|
                          && Pop(g.treeStack) == Pop(old(g.treeStack))
                          && spec == Ok(Laid(g.nodes[s := g.nodes[s].(construct := Construct.Structure(name, Place(size, alignment)))],
                                             Place(size, alignment), sizes, offsets)))
    decreases rank[s], 3, 0, 0
  {
    ghost var base := Pop(g.treeStack);
    ghost var goal := MembersFrom(g.nodes, nodes0, rank, s, name, kids, 0, 0, 0, [], []);
    assert g.treeStack == base + [kids[0]];
    var size := 0;
    var alignment := 0;
    ghost var j := 0;
    sizes, offsets := [], [];
    while true
      invariant j < |kids| && g.treeStack == base + [kids[j]]
      invariant Laying(nodes0, rank, g.nodes) && Unsized(g.nodes[s].construct) == Construct.Structure(name, 0)
      invariant MembersFrom(g.nodes, nodes0, rank, s, name, kids, j, size, alignment, sizes, offsets) == goal
      decreases |kids| - j
    {
      ghost var before := g.nodes;
      assert Unsized(nodes0[s].construct) == Unsized(before[s].construct);
      assert Ranked(nodes0, rank, s);
      var memberSize :- FindMemberSize(g, nodes0, rank, rank[s]);
      assert MembersFrom(before, nodes0, rank, s, name, kids, j, size, alignment, sizes, offsets)
          == PlaceMember(g.nodes, nodes0, rank, s, name, kids, j, size, alignment, sizes, offsets, memberSize);
      ghost var offset := Place(size, memberSize);
      var more;
      more, size, alignment := LayMember(g, nodes0, rank, s, name, kids, j, size, alignment, sizes, offsets, memberSize);
      sizes, offsets := sizes + [memberSize], offsets + [offset];
      if more.Fatal? {
        return Fatal(more.msg), sizes, offsets;
      }
      if !more.value {
        return Ok((size, alignment)), sizes, offsets;
      }
      j := j + 1;
    }
  }

  /** One turn of that loop once the member's size `ms` is known: the
      member gets its offset, and the cursor moves to the next member. */
  method LayMember(g: Generator, ghost nodes0: seq<Node>, ghost rank: seq<nat>, ghost s: nat, name: string, ghost kids: seq<nat>,
                   ghost j: nat, size: nat, alignment: nat, ghost sizes: seq<nat>, ghost offsets: seq<nat>, ms: nat)
    returns (r: Result<bool>, size': nat, alignment': nat)
    requires Laying(nodes0, rank, g.nodes) && s < |g.nodes|
    requires Unsized(g.nodes[s].construct) == Construct.Structure(name, 0)
    requires kids == ChildrenOf(nodes0, s) && j < |kids| && ms > 0 && g.treeStack != [] && Last(g.treeStack) == kids[j]
    modifies g
    ensures var spec := PlaceMember(old(g.nodes), nodes0, rank, s, name, kids, j, size, alignment, sizes, offsets, ms);
            && (r.Fatal? ==> spec.Fatal?)
            && (r.Ok? ==>
                  && size' == Place(size, ms) + ms && alignment' == (if ms > alignment then ms else alignment)
                  && Laying(nodes0, rank, g.nodes) && Unsized(g.nodes[s].construct) == Construct.Structure(name, 0)
                  && (r.value <==> j + 1 < |kids|)
                  && (r.value ==> g.treeStack == Pop(old(g.treeStack)) + [kids[j + 1]]
                                  && spec == MembersFrom(g.nodes, nodes0, rank, s, name, kids, j + 1, size', alignment',
                                                         sizes + [ms], offsets + [Place(size, ms)]))
                  && (!r.value ==> alignment' > 0 && |g.treeStack| == |old(g.treeStack)| && Pop(g.treeStack) == Pop(old(g.treeStack))
                                   && spec == Ok(Laid(g.nodes[s := g.nodes[s].(construct := Construct.Structure(name, Place(size', alignment')))],
                                                      Place(size', alignment'), sizes + [ms], offsets + [Place(size, ms)]))))
  {
    ghost var n1 := g.nodes;
    ghost var m := kids[j];
    alignment' := alignment;
    if ms > alignment' {
      alignment' := ms;
    }
    size' := Place(size, ms);
    var member := g.Current();
    if !member.value.Member? {
      PlaceMemberNot(n1, nodes0, rank, s, name, kids, j, size, alignment, sizes, offsets, ms);
      return Fatal("Child of structure node is not a member"), size', alignment';
    }
    var replaced := g.ReplaceConstruct(Construct.Member(member.value.name, size'));
    assert g.nodes == n1[m := n1[m].(construct := Construct.Member(n1[m].construct.name, Place(size, ms)))];
    size' := size' + ms;
    var more := g.Next();
    if !more.value {
      PlaceMemberLast(n1, nodes0, rank, s, name, kids, j, size, alignment, sizes, offsets, ms);
      RelaidSet(nodes0, n1, m, Construct.Member(n1[m].construct.name, Place(size, ms)));
      return Ok(false), size', alignment';
    }
    PlaceMemberNext(n1, nodes0, rank, s, name, kids, j, size, alignment, sizes, offsets, ms);
    return Ok(true), size', alignment';
  }

  /** `find_member_size`: the size of the member the cursor is on. */
  method FindMemberSize(g: Generator, ghost nodes0: seq<Node>, ghost rank: seq<nat>, ghost above: nat) returns (r: Result<nat>)
    requires Laying(nodes0, rank, g.nodes) && OnNode(g.nodes, g.treeStack)
    requires Under(nodes0, rank, Last(g.treeStack), above)
    modifies g
    ensures var spec := MemberSize(old(g.nodes), nodes0, rank, Last(old(g.treeStack)), above);
            && (r.Ok? <==> spec.Ok?)
            && (r.Ok? ==> r.value == spec.value.size && g.nodes == spec.value.nodes && g.treeStack == old(g.treeStack))
    decreases above, 2, 0, 0
  {
    ghost var nodes1 := g.nodes;
    ghost var base := g.treeStack;
    ghost var m := Last(base);
    ghost var kids := ChildrenOf(nodes0, m);
    KidsLinks(nodes0, m);
    SameLinksChildren(nodes0, nodes1, m);
    var down := g.Down();
    if !down.value {
      return Fatal("Member had no datatype child");
    }
    ghost var j := 0;
    while true
      invariant j < |kids| && g.treeStack == base + [kids[j]] && g.nodes == nodes1
      invariant MemberSizeFrom(nodes1, nodes0, rank, m, kids, j, above) == MemberSize(nodes1, nodes0, rank, m, above)
      decreases |kids| - j
    {
      var current := g.Current();
      if current.value.Datatype? {
        var size: nat;
        if current.value.kind == Terminal {
          assert MemberSizeFrom(nodes1, nodes0, rank, m, kids, j, above) == TerminalSize(nodes1, nodes0, rank, kids[j], above);
          size :- TerminalSizeM(g, nodes0, rank, above);
        } else {
          size := 8;
        }
        var up := g.Up();
        return Ok(size);
      }
      var more := g.Next();
      if !more.value {
        break;
      }
      j := j + 1;
    }
    return Fatal("Member had no datatype child");
  }

  /** The terminal branch of `find_member_size`: the cursor is on a
      terminal datatype directly inside a member. */
  method TerminalSizeM(g: Generator, ghost nodes0: seq<Node>, ghost rank: seq<nat>, ghost above: nat) returns (r: Result<nat>)
    requires Laying(nodes0, rank, g.nodes) && OnNode(g.nodes, g.treeStack)
    requires Last(g.treeStack) < |rank| && rank[Last(g.treeStack)] <= above
    requires g.nodes[Last(g.treeStack)].construct == Construct.Datatype(Terminal)
    modifies g
    ensures var spec := TerminalSize(old(g.nodes), nodes0, rank, Last(old(g.treeStack)), above);
            && (r.Ok? <==> spec.Ok?)
            && (r.Ok? ==> r.value == spec.value.size && g.nodes == spec.value.nodes && g.treeStack == old(g.treeStack))
    decreases above, 1, 0, 0
  {
    ghost var d := Last(g.treeStack);
    assert Unsized(nodes0[d].construct) == Unsized(g.nodes[d].construct);
    assert Below(nodes0, d) && NeedsChild(nodes0[d].construct);
    var down := g.Down();
    var terminal := g.Current();
    var size: nat;
    match terminal.value {
      case Primitive(p) =>
        size := PrimitiveSize(p);
      case Reference(t) =>
        ghost var c := g.nodes[d].child.value;
        assert Unsized(nodes0[c].construct) == Unsized(g.nodes[c].construct);
        assert Names(nodes0, d, t);
        size :- GetReferenceSize(g, nodes0, rank, t, above);
      case Identifier(_) =>
        return Fatal("Struct datatype not resolved");
      case _ =>
        return Fatal("Unexpected child node of Datatype::Terminal");
    }
    var up := g.Up();
    return Ok(size);
  }

  /** `get_reference_size`: follows the reference to node `t` and returns
      the size of the structure there, laying it out if needed. */
  method GetReferenceSize(g: Generator, ghost nodes0: seq<Node>, ghost rank: seq<nat>, t: nat, ghost above: nat) returns (r: Result<nat>)
    requires Laying(nodes0, rank, g.nodes)
    requires t < |nodes0| && nodes0[t].construct.Structure? ==> rank[t] < above
    modifies g
    ensures var spec := ReferenceSize(old(g.nodes), nodes0, rank, t, above);
            && (r.Ok? <==> spec.Ok?)
            && (r.Ok? ==> r.value == spec.value.size && g.nodes == spec.value.nodes && g.treeStack == old(g.treeStack))
    decreases above, 0, 0, 0
  {
    g.DownRef(t);
    var current :- g.Current();
    if !current.Structure? {
      return Fatal("Reference doesn't point to a structure node");
    }
    assert Unsized(nodes0[t].construct) == Unsized(g.nodes[t].construct);
    var size := current.size;
    if size == 0 {
      size :- FullyDefineStructure(g, nodes0, rank);
    }
    var up := g.Up();
    return Ok(size);
  }
}
