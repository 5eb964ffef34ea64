/** The syntax tree: an arena of nodes linked first-child / next-sibling. */
module Trees {
  import opened Outcomes
  import opened Constructs

  datatype Node = Node(construct: Construct, next: Option<nat>, child: Option<nat>)

  predicate Increasing(s: seq<nat>) {
    forall a, b :: 0 <= a < b < |s| ==> s[a] < s[b]
  }

  /** The arena length after writing slot `i`: one more when `i` is the next free slot. */
  function GrownLength(nodes: seq<Node>, i: nat): nat {
    if i == |nodes| then |nodes| + 1 else |nodes|
  }

  /** Sets `next` of `kids[k]` to `kids[k + 1]` for every `k` from `j` up to
      the last pair, in that order; indexing a missing node is fatal. */
  function LinkFrom(ns: seq<Node>, kids: seq<nat>, j: nat): Result<seq<Node>>
    decreases |kids| - j
  {
    if j + 1 >= |kids| then Ok(ns)
    else if kids[j] >= |ns| then Fatal("index out of bounds")
    else LinkFrom(ns[kids[j] := ns[kids[j]].(next := Some(kids[j + 1]))], kids, j + 1)
  }

  /** Linking fails exactly when a kid but the last is missing; it changes only
      the `next` fields of those kids, and with increasing kids each of them ends
      up linked to its successor. */
  lemma {:induction false} LinkFromFacts(ns: seq<Node>, kids: seq<nat>, j: nat)
    ensures var r := LinkFrom(ns, kids, j);
      && (r.Ok? <==> forall k :: j <= k < |kids| - 1 ==> kids[k] < |ns|)
      && (r.Ok? ==> |r.value| == |ns|)
      && (r.Ok? ==> forall m :: 0 <= m < |ns| ==>
            r.value[m].construct == ns[m].construct && r.value[m].child == ns[m].child)
      && (r.Ok? ==> forall m :: 0 <= m < |ns| && (forall k :: j <= k < |kids| - 1 ==> kids[k] != m) ==>
            r.value[m] == ns[m])
      && (r.Ok? && Increasing(kids) ==> forall k :: j <= k < |kids| - 1 ==> r.value[kids[k]].next == Some(kids[k + 1]))
    decreases |kids| - j
  {
    if j + 1 < |kids| && kids[j] < |ns| {
      LinkFromFacts(ns[kids[j] := ns[kids[j]].(next := Some(kids[j + 1]))], kids, j + 1);
    }
  }

  /** Writes node `i`: a blank node when `i` is the next free slot, an overwrite
      when it is an existing slot, fatal beyond that. The node's first child is
      `kids[0]` and each kid but the last is linked to the one after it. */
  function SetNodeSpec(nodes: seq<Node>, i: nat, c: Construct, kids: seq<nat>): Result<seq<Node>> {
    if i > |nodes| then Fatal("Unexpected node_i in Ast::set_node")
    else
      var blank := Node(c, None, None);
      var base := if i == |nodes| then nodes + [blank] else nodes[i := blank];
      if kids == [] then Ok(base)
      else LinkFrom(base[i := base[i].(child := Some(kids[0]))], kids, 0)
  }

  /** What `SetNodeSpec` does: when it fails, which slot it writes, the first
      child and sibling links it sets, and that no other node changes (the last
      kid's `next` included). */
  lemma SetNodeFacts(nodes: seq<Node>, i: nat, c: Construct, kids: seq<nat>)
    ensures var r := SetNodeSpec(nodes, i, c, kids);
      && (r.Ok? <==> i <= |nodes| && forall k :: 0 <= k < |kids| - 1 ==> kids[k] < GrownLength(nodes, i))
      && (r.Ok? ==> |r.value| == GrownLength(nodes, i))
      && (r.Ok? ==> r.value[i].construct == c)
      && (r.Ok? ==> r.value[i].child == (if kids == [] then None else Some(kids[0])))
      && (r.Ok? && (forall k :: 0 <= k < |kids| - 1 ==> kids[k] != i) ==> r.value[i].next == None)
      && (r.Ok? && Increasing(kids) ==> forall k :: 0 <= k < |kids| - 1 ==> r.value[kids[k]].next == Some(kids[k + 1]))
      && (r.Ok? ==> forall m :: 0 <= m < |nodes| && m != i && (forall k :: 0 <= k < |kids| - 1 ==> kids[k] != m) ==>
            r.value[m] == nodes[m])
      && (r.Ok? ==> forall m :: 0 <= m < |nodes| && m != i ==>
            r.value[m].construct == nodes[m].construct && r.value[m].child == nodes[m].child)
  {
    if i <= |nodes| && kids != [] {
      var blank := Node(c, None, None);
      var base := if i == |nodes| then nodes + [blank] else nodes[i := blank];
      LinkFromFacts(base[i := base[i].(child := Some(kids[0]))], kids, 0);
    }
  }

  /** `list` is exactly the sibling chain that starts at `first`: each entry
      links to the next and the last one to nothing. */
  predicate Chain(nodes: seq<Node>, first: Option<nat>, list: seq<nat>) {
    && (forall k :: 0 <= k < |list| ==> list[k] < |nodes|)
    && first == (if list == [] then None else Some(list[0]))
    && (forall k :: 0 <= k < |list| - 1 ==> nodes[list[k]].next == Some(list[k + 1]))
    && (list != [] ==> nodes[list[|list| - 1]].next == None)
  }

  /** The sibling chain from `first`, followed while the links go forward in
      the arena (the parser only ever links a node to a later one). */
  function ChildrenFrom(nodes: seq<Node>, first: Option<nat>): seq<nat>
    decreases if first.Some? && first.value < |nodes| then |nodes| - first.value else 0
  {
    if first.None? || first.value >= |nodes| then []
    else
      var i := first.value;
      var n := nodes[i].next;
      if n.Some? && i < n.value then [i] + ChildrenFrom(nodes, n) else [i]
  }

  /** The children of node `i`, in order. */
  function ChildrenOf(nodes: seq<Node>, i: nat): seq<nat>
    requires i < |nodes|
  {
    ChildrenFrom(nodes, nodes[i].child)
  }

  /** Following an increasing chain yields exactly its entries. */
  lemma {:induction false} ChainChildren(nodes: seq<Node>, first: Option<nat>, list: seq<nat>)
    requires Chain(nodes, first, list) && Increasing(list)
    ensures ChildrenFrom(nodes, first) == list
    decreases |list|
  {
    if |list| > 1 {
      assert Chain(nodes, Some(list[1]), list[1..]);
      ChainChildren(nodes, Some(list[1]), list[1..]);
      assert list == [list[0]] + list[1..];
    }
  }

  /** A sibling chain is read only while it goes forward, so no node is in
      it twice. */
  lemma {:induction false} ChildrenIncreasing(nodes: seq<Node>, first: Option<nat>)
    ensures Increasing(ChildrenFrom(nodes, first))
    ensures forall k :: 0 <= k < |ChildrenFrom(nodes, first)| ==> first.Some? && first.value <= ChildrenFrom(nodes, first)[k]
    decreases if first.Some? && first.value < |nodes| then |nodes| - first.value else 0
  {
    if first.Some? && first.value < |nodes| {
      var n := nodes[first.value].next;
      if n.Some? && first.value < n.value {
        ChildrenIncreasing(nodes, n);
      }
    }
  }

  class Ast {
    var nodes: seq<Node>

    constructor ()
      ensures nodes == []
    {
      nodes := [];
    }

    method SetNode(i: nat, c: Construct, kids: seq<nat>) returns (o: Outcome)
      modifies this
      ensures o == StatusOf(SetNodeSpec(old(nodes), i, c, kids))
      ensures o.Pass? ==> nodes == SetNodeSpec(old(nodes), i, c, kids).value
    {
      var blank := Node(c, None, None);
      if i == |nodes| {
        nodes := nodes + [blank];
      } else if i < |nodes| {
        nodes := nodes[i := blank];
      } else {
        return Fail("Unexpected node_i in Ast::set_node");
      }
      if |kids| > 0 {
        nodes := nodes[i := nodes[i].(child := Some(kids[0]))];
        ghost var linked := nodes;
        for j := 0 to |kids| - 1
          invariant LinkFrom(nodes, kids, j) == LinkFrom(linked, kids, 0)
        {
          if kids[j] >= |nodes| {
            return Fail("index out of bounds");
          }
          nodes := nodes[kids[j] := nodes[kids[j]].(next := Some(kids[j + 1]))];
        }
      }
      o := Pass;
    }
  }
}
