/** The shape the resolvers and the checker assume of the arena they walk,
    the one the parser's rules are built to leave: sibling links go forward,
    and every child comes before its parent. It is assumed of the parser's
    arena, not proved from its rules. The walks terminate because of it;
    outside it the program's walks can loop, so it is a precondition of
    theirs. */
module Shapes {
  import opened Outcomes
  import opened Constructs
  import opened Trees

  /** Every sibling link points to a later node of the arena. */
  ghost predicate ForwardLinks(nodes: seq<Node>) {
    forall j :: 0 <= j < |nodes| && nodes[j].next.Some? ==> j < nodes[j].next.value < |nodes|
  }

  /** Node `p`'s first-child link is in range and all its children come
      before it. */
  ghost predicate Below(nodes: seq<Node>, p: nat)
    requires p < |nodes|
  {
    && (nodes[p].child.Some? ==> nodes[p].child.value < |nodes|)
    && forall k :: 0 <= k < |ChildrenOf(nodes, p)| ==> ChildrenOf(nodes, p)[k] < p
  }

  /** The parser's layout, for every node. */
  ghost predicate Tree(nodes: seq<Node>) {
    && ForwardLinks(nodes)
    && forall p :: 0 <= p < |nodes| ==> Below(nodes, p)
  }

  /** The same links: only constructs may differ. */
  ghost predicate SameLinks(a: seq<Node>, b: seq<Node>) {
    && |a| == |b|
    && forall j :: 0 <= j < |a| ==> a[j].next == b[j].next && a[j].child == b[j].child
  }

  /** The same sibling links: constructs and first-child links may differ. */
  ghost predicate SameNext(a: seq<Node>, b: seq<Node>) {
    && |a| == |b|
    && forall j :: 0 <= j < |a| ==> a[j].next == b[j].next
  }

  /** A sibling chain depends on the sibling links only. */
  lemma {:induction false} SameNextChildren(a: seq<Node>, b: seq<Node>, first: Option<nat>)
    requires SameNext(a, b)
    ensures ChildrenFrom(a, first) == ChildrenFrom(b, first)
    decreases if first.Some? && first.value < |a| then |a| - first.value else 0
  {
    if first.Some? && first.value < |a| {
      var n := a[first.value].next;
      assert n == b[first.value].next;
      if n.Some? && first.value < n.value {
        SameNextChildren(a, b, n);
      }
    }
  }

  /** Same links, same children everywhere. */
  lemma SameLinksChildren(a: seq<Node>, b: seq<Node>, p: nat)
    requires SameLinks(a, b) && p < |a|
    ensures ChildrenOf(a, p) == ChildrenOf(b, p)
  {
    SameNextChildren(a, b, a[p].child);
  }

  /** Rewriting constructs keeps the layout. */
  lemma SameLinksTree(a: seq<Node>, b: seq<Node>)
    requires SameLinks(a, b) && Tree(a)
    ensures Tree(b)
  {
    forall p | 0 <= p < |b|
      ensures Below(b, p)
    {
      SameLinksChildren(a, b, p);
      assert Below(a, p);
    }
  }

  lemma SameLinksTrans(a: seq<Node>, b: seq<Node>, c: seq<Node>)
    requires SameLinks(a, b) && SameLinks(b, c)
    ensures SameLinks(a, c)
  { }

  /** One step along a chain of forward links. */
  lemma ChainStep(nodes: seq<Node>, k: nat)
    requires ForwardLinks(nodes) && k < |nodes|
    ensures ChildrenFrom(nodes, Some(k)) == [k] + ChildrenFrom(nodes, nodes[k].next)
  { }

  /** The chain from a node's first child, entry by entry: a kid links to
      the next kid, and the last kid links to nothing. */
  lemma {:induction false} ChainLinks(nodes: seq<Node>, first: Option<nat>)
    requires ForwardLinks(nodes)
    requires first.Some? ==> first.value < |nodes|
    ensures var kids := ChildrenFrom(nodes, first);
            && (first.None? <==> kids == [])
            && (first.Some? ==> kids[0] == first.value)
            && (forall k :: 0 <= k < |kids| ==> kids[k] < |nodes|)
            && (forall k :: 0 <= k < |kids| - 1 ==> nodes[kids[k]].next == Some(kids[k + 1]))
            && (kids != [] ==> nodes[kids[|kids| - 1]].next == None)
    decreases if first.Some? then |nodes| - first.value else 0
  {
    if first.Some? {
      var n := nodes[first.value].next;
      ChainStep(nodes, first.value);
      ChainLinks(nodes, n);
    }
  }

  /** The children of `p`, with the links a walk over them follows. */
  lemma KidsLinks(nodes: seq<Node>, p: nat)
    requires Tree(nodes) && p < |nodes|
    ensures var kids := ChildrenOf(nodes, p);
            && (nodes[p].child.None? <==> kids == [])
            && (nodes[p].child.Some? ==> kids[0] == nodes[p].child.value)
            && (forall k :: 0 <= k < |kids| ==> kids[k] < p)
            && (forall k :: 0 <= k < |kids| - 1 ==> nodes[kids[k]].next == Some(kids[k + 1]))
            && (kids != [] ==> nodes[kids[|kids| - 1]].next == None)
  {
    assert Below(nodes, p);
    ChainLinks(nodes, nodes[p].child);
  }

  /** The children of node `p`, each before it in the arena. */
  function ScopeKids(nodes: seq<Node>, p: nat): (kids: seq<nat>)
    requires Tree(nodes) && p < |nodes|
    ensures kids == ChildrenOf(nodes, p) && forall k :: 0 <= k < |kids| ==> kids[k] < p
    ensures nodes[p].child.None? <==> kids == []
  {
    KidsLinks(nodes, p);
    ChildrenOf(nodes, p)
  }

  /** A construct with what the resolvers and the layout pass may rewrite in
      it forgotten: a structure's size, a member's offset, and whether a name
      is still an identifier or already a reference. */
  function Kind(c: Construct): Construct {
    match c
    case Structure(name, _) => Construct.Structure(name, 0)
    case Member(name, _) => Construct.Member(name, 0)
    case Identifier(_) => Construct.Reference(0)
    case Reference(_) => Construct.Reference(0)
    case _ => c
  }

  /** The same links and the same kinds of node. */
  ghost predicate SameShape(a: seq<Node>, b: seq<Node>) {
    && SameLinks(a, b)
    && forall j :: 0 <= j < |a| ==> Kind(a[j].construct) == Kind(b[j].construct)
  }

  lemma SameShapeTrans(a: seq<Node>, b: seq<Node>, c: seq<Node>)
    requires SameShape(a, b) && SameShape(b, c)
    ensures SameShape(a, c)
  { }

  /** Constructs the parser never builds without children: a declaration
      always has its datatype (or, for a function, its block) below it, a
      datatype its terminal, and a structure here at least one member. */
  predicate NeedsChild(c: Construct) {
    c.Datatype? || c.Variable? || c.Argument? || c.Returned? || c.Member? || c.Structure? || c.Function?
  }

  /** The parser's layout, with every node that needs a child having one. */
  ghost predicate Shaped(nodes: seq<Node>) {
    && Tree(nodes)
    && forall j :: 0 <= j < |nodes| && NeedsChild(nodes[j].construct) ==> nodes[j].child.Some?
  }

  lemma SameShapeShaped(a: seq<Node>, b: seq<Node>)
    requires SameShape(a, b) && Shaped(a)
    ensures Shaped(b)
  {
    SameLinksTree(a, b);
    forall j | 0 <= j < |b| && NeedsChild(b[j].construct)
      ensures b[j].child.Some?
    {
      assert Kind(a[j].construct) == Kind(b[j].construct);
      assert NeedsChild(a[j].construct);
    }
  }
}
