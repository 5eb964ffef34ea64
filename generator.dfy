/** The generator's state: the arena it rewrites, a cursor into it (a stack
    of node indices whose top is the current node), the size of the current
    stack frame, and a symbol table. Each `expect` of the program on an
    empty cursor, and each index past the arena, is a `Fail`. */
module Generators {
  import opened Outcomes
  import opened Constructs
  import opened Trees
  import opened Scopes

  function Last(s: seq<nat>): nat
    requires s != []
  {
    s[|s| - 1]
  }

  /** The cursor stack without its top. */
  function Pop(s: seq<nat>): seq<nat>
    requires s != []
  {
    s[..|s| - 1]
  }

  /** The top of the cursor names a node of the arena. */
  predicate OnNode(nodes: seq<Node>, stack: seq<nat>) {
    stack != [] && Last(stack) < |nodes|
  }

  class Generator {
    var nodes: seq<Node>
    var treeStack: seq<nat>
    var stackSize: nat
    /** The resolver registers a declaration under its name with the index
        of the declaring node, and reads that index back as the target of a
        `Reference`. */
    const symbols: SymbolTable<nat>

    /** A generator rooted at the last node of the arena, with empty tables
        and an empty stack frame. */
    constructor (ast: seq<Node>)
      requires ast != []
      ensures nodes == ast && treeStack == [|ast| - 1] && stackSize == 0
      ensures fresh(symbols) && symbols.Model() == Empty()
    {
      nodes := ast;
      treeStack := [|ast| - 1];
      stackSize := 0;
      symbols := new SymbolTable();
    }

    /** The construct of the current node. */
    method Current() returns (r: Result<Construct>)
      ensures r.Ok? <==> OnNode(nodes, treeStack)
      ensures r.Ok? ==> r.value == nodes[Last(treeStack)].construct
    {
      if treeStack == [] {
        return Fatal("Tried to call current() on an empty tree_stack");
      }
      var i := Last(treeStack);
      if i >= |nodes| {
        return Fatal("index out of bounds");
      }
      return Ok(nodes[i].construct);
    }

    /** Moves to the first child of the current node, if it has one. */
    method Down() returns (r: Result<bool>)
      modifies this
      ensures nodes == old(nodes) && stackSize == old(stackSize)
      ensures r.Ok? <==> OnNode(nodes, old(treeStack))
      ensures r.Ok? ==> var c := nodes[Last(old(treeStack))].child;
                        && r.value == c.Some?
                        && treeStack == if c.Some? then old(treeStack) + [c.value] else old(treeStack)
    {
      if treeStack == [] {
        return Fatal("Tried to call down() on an empty tree_stack");
      }
      var i := Last(treeStack);
      if i >= |nodes| {
        return Fatal("index out of bounds");
      }
      match nodes[i].child {
        case Some(child) =>
          treeStack := treeStack + [child];
          return Ok(true);
        case None =>
          return Ok(false);
      }
    }

    /** Moves back to the parent of the current node. */
    method Up() returns (o: Outcome)
      modifies this
      ensures nodes == old(nodes) && stackSize == old(stackSize)
      ensures o.Pass? <==> old(treeStack) != []
      ensures o.Pass? ==> treeStack == Pop(old(treeStack))
    {
      if treeStack == [] {
        return Fail("Tried to call up() on an empty tree_stack");
      }
      treeStack := Pop(treeStack);
      return Pass;
    }

    /** Moves to the next sibling of the current node, if it has one. */
    method Next() returns (r: Result<bool>)
      modifies this
      ensures nodes == old(nodes) && stackSize == old(stackSize)
      ensures r.Ok? <==> OnNode(nodes, old(treeStack))
      ensures r.Ok? ==> var n := nodes[Last(old(treeStack))].next;
                        && r.value == n.Some?
                        && treeStack == if n.Some? then Pop(old(treeStack)) + [n.value] else old(treeStack)
    {
      if treeStack == [] {
        return Fatal("Tried to call next() on an empty tree_stack");
      }
      var i := Last(treeStack);
      if i >= |nodes| {
        return Fatal("index out of bounds");
      }
      match nodes[i].next {
        case Some(next) =>
          treeStack := Pop(treeStack) + [next];
          return Ok(true);
        case None =>
          return Ok(false);
      }
    }

    /** Follows a reference: node `i` becomes the current node, and `Up`
        returns to the node that held the reference. */
    method DownRef(i: nat)
      modifies this
      ensures nodes == old(nodes) && stackSize == old(stackSize)
      ensures treeStack == old(treeStack) + [i]
    {
      treeStack := treeStack + [i];
    }

    /** Goes back to the first sibling: the first child of the node below
        the current one on the cursor. */
    method Restart() returns (o: Outcome)
      modifies this
      ensures nodes == old(nodes) && stackSize == old(stackSize)
      ensures o.Pass? <==> |old(treeStack)| >= 2 && OnNode(nodes, Pop(old(treeStack)))
                           && nodes[Last(Pop(old(treeStack)))].child.Some?
      ensures o.Pass? ==> treeStack == Pop(old(treeStack)) + [nodes[Last(Pop(old(treeStack)))].child.value]
    {
      if |treeStack| < 2 {
        return Fail("Tried to call restart() without a parent on the tree_stack");
      }
      var parent := treeStack[|treeStack| - 2];
      if parent >= |nodes| {
        return Fail("index out of bounds");
      }
      match nodes[parent].child {
        case Some(first) =>
          treeStack := Pop(treeStack) + [first];
          return Pass;
        case None =>
          return Fail("Tried to call restart() on a node without children");
      }
    }

    /** The index of the current node. */
    method GetRefId() returns (r: Result<nat>)
      ensures r.Ok? <==> treeStack != []
      ensures r.Ok? ==> r.value == Last(treeStack)
    {
      if treeStack == [] {
        return Fatal("Tried to call get_ref_id() on an empty tree_stack");
      }
      return Ok(Last(treeStack));
    }

    /** Overwrites the construct of the current node, leaving its links. */
    method ReplaceConstruct(c: Construct) returns (o: Outcome)
      modifies this
      ensures treeStack == old(treeStack) && stackSize == old(stackSize)
      ensures o.Pass? <==> OnNode(old(nodes), treeStack)
      ensures o.Pass? ==> nodes == old(nodes)[Last(treeStack) := old(nodes)[Last(treeStack)].(construct := c)]
    {
      if treeStack == [] {
        return Fail("Tried to call replace_construct() on an empty tree_stack");
      }
      var i := Last(treeStack);
      if i >= |nodes| {
        return Fail("index out of bounds");
      }
      nodes := nodes[i := nodes[i].(construct := c)];
      return Pass;
    }

    /** Starts a function's stack frame. */
    method NewStackFrame()
      modifies this
      ensures nodes == old(nodes) && treeStack == old(treeStack)
      ensures stackSize == 0
    {
      stackSize := 0;
    }

    /** Reserves `size` bytes of the frame; the result is where they start. */
    method AllocateStackSpace(size: nat) returns (offset: nat)
      modifies this
      ensures nodes == old(nodes) && treeStack == old(treeStack)
      ensures offset == old(stackSize) && stackSize == old(stackSize) + size
    {
      offset := stackSize;
      stackSize := stackSize + size;
    }
  }
}
