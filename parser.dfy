/** The parser engine: a cursor over the token list, a stack of checkpoints
    and a staging list of child node indices, driving the tree arena.

    `PState` is the engine's whole state as a value and the `...Spec`
    functions are its operations on that value; class `Parser` holds the same
    state in fields and each of its methods is proved to perform the
    corresponding function. The grammar rules are written against both. */
module Parsing {
  import opened Outcomes
  import opened Tokens
  import opened Constructs
  import opened Trees

  /** The parser's position: next token, next node slot, staging-list length. */
  datatype Cursor = Cursor(tokenI: nat, nodeI: nat, childI: nat)

  datatype PState = PState(
    tokens: seq<Token>,
    nodes: seq<Node>,
    stack: seq<Cursor>,
    children: seq<nat>,
    cur: Cursor,
    stashed: Cursor,
    maxStack: nat,        // capacity reserved for the checkpoint stack
    maxChildren: nat)     // capacity reserved for the staging list

  /** What a grammar rule returns: whether it matched, and the state after it. */
  datatype Step = Step(matched: bool, state: PState)

  /** The state a fresh parser starts in. */
  function Initial(tokens: seq<Token>, nodes: seq<Node>, maxStack: nat, maxChildren: nat): PState {
    PState(tokens, nodes, [], [], Cursor(0, 0, 0), Cursor(0, 0, 0), maxStack, maxChildren)
  }

  /** The invariant every grammar rule keeps: the cursor is within the tokens
      and the arena, the staging list has exactly `childI` entries, and those
      entries are increasing indices of already written nodes, none of them
      yet linked to a sibling. */
  predicate Good(s: PState) {
    && s.cur.tokenI <= |s.tokens|
    && |s.children| == s.cur.childI
    && s.cur.nodeI <= |s.nodes|
    && (forall k :: 0 <= k < |s.children| ==> s.children[k] < s.cur.nodeI)
    && Increasing(s.children)
    && (forall k :: 0 <= k < |s.children| ==> s.nodes[s.children[k]].next == None)
  }

  // ---------------------------------------------------------------- engine operations

  function StartNodeSpec(s: PState): (r: Result<PState>)
    ensures r.Ok? <==> |s.stack| < s.maxStack
    ensures r.Ok? ==> r.value.cur == s.cur && r.value.stack == s.stack + [s.cur]
  {
    if |s.stack| >= s.maxStack then Fatal("Reached max stack size. Would need to resize to continue.")
    else Ok(s.(stack := s.stack + [s.cur]))
  }

  /** Like `StartNodeSpec`, but the checkpoint already owns the last `n` staged children. */
  function StartNodeWithPrevSpec(s: PState, n: nat): (r: Result<PState>)
    ensures r.Ok? <==> |s.stack| < s.maxStack && n <= s.cur.childI
    ensures r.Ok? ==> r.value.cur == s.cur
                      && r.value.stack == s.stack + [s.cur.(childI := s.cur.childI - n)]
  {
    if |s.stack| >= s.maxStack then Fatal("Reached max stack size. Would need to resize to continue.")
    else if s.cur.childI < n then Fatal("attempt to subtract with overflow")
    else Ok(s.(stack := s.stack + [s.cur.(childI := s.cur.childI - n)]))
  }

  /** `children` cut back to its first `n` entries if it is longer. */
  function Truncate(children: seq<nat>, n: nat): (r: seq<nat>)
    ensures |r| == if |children| > n then n else |children|
    ensures r == children[..|r|]
  {
    if |children| > n then children[..n] else children
  }

  /** Pops the checkpoint and writes the node at `nodeI` with the children
      staged since that checkpoint; the staging list then holds the new node in
      their place. */
  function ConfirmNodeSpec(s: PState, c: Construct): Result<PState>
  {
    if |s.stack| == 0 then Fatal("Trying to confirm a node without starting one.")
    else
      var start := s.stack[|s.stack| - 1];
      if !(start.childI <= s.cur.childI <= |s.children|) then Fatal("slice index out of range")
      else
        var nodes :- SetNodeSpec(s.nodes, s.cur.nodeI, c, s.children[start.childI..s.cur.childI]);
        var kept := Truncate(s.children, start.childI);
        if |kept| >= s.maxChildren then Fatal("Reached max children list size. Would need to resize to continue.")
        else
          Ok(Popped(s, nodes, kept))
  }

  /** The state after a successful confirm: checkpoint popped, new arena,
      the new node staged after the `kept` entries. */
  function Popped(s: PState, nodes: seq<Node>, kept: seq<nat>): PState
    requires |s.stack| > 0
  {
    s.(nodes := nodes, stack := s.stack[..|s.stack| - 1], children := kept + [s.cur.nodeI],
       cur := Cursor(s.cur.tokenI, s.cur.nodeI + 1, |kept| + 1))
  }

  /** Pops the checkpoint and returns the cursor to it, dropping the
      children staged since. */
  function DiscardNodeSpec(s: PState): (r: Result<PState>)
    ensures r.Ok? <==> |s.stack| > 0
    ensures r.Ok? ==> r.value.cur == s.stack[|s.stack| - 1] && r.value.stack == s.stack[..|s.stack| - 1]
                      && r.value.nodes == s.nodes && r.value.tokens == s.tokens
  {
    if |s.stack| == 0 then Fatal("Trying to discard a node without starting one.")
    else
      var start := s.stack[|s.stack| - 1];
      Ok(s.(stack := s.stack[..|s.stack| - 1], cur := start, children := Truncate(s.children, start.childI)))
  }

  function PeekTokenSpec(s: PState): (r: Result<Token>)
    ensures r.Ok? <==> s.cur.tokenI < |s.tokens|
    ensures r.Ok? ==> r.value == s.tokens[s.cur.tokenI]
  {
    if s.cur.tokenI >= |s.tokens| then Fatal("No tokens left. Should stop at the End token.")
    else Ok(s.tokens[s.cur.tokenI])
  }

  /** The state after one token is consumed. */
  function Advance(s: PState): PState {
    s.(cur := s.cur.(tokenI := s.cur.tokenI + 1))
  }

  function ConsumeTokenSpec(s: PState): (r: Result<(Token, PState)>)
    ensures r.Ok? <==> PeekTokenSpec(s).Ok?
    ensures r.Ok? ==> r.value.0 == PeekTokenSpec(s).value && r.value.1 == Advance(s)
  {
    if s.cur.tokenI >= |s.tokens| then Fatal("No tokens left. Should stop at the End token.")
    else Ok((s.tokens[s.cur.tokenI], Advance(s)))
  }

  function StashStateSpec(s: PState): PState {
    s.(stashed := s.cur)
  }

  function RollbackStateSpec(s: PState): PState {
    s.(cur := s.stashed)
  }

  // ---------------------------------------------------------------- engine laws

  /** Discarding right after starting returns to the very same state. */
  lemma DiscardUndoesStart(s: PState)
    requires Good(s) && StartNodeSpec(s).Ok?
    ensures DiscardNodeSpec(StartNodeSpec(s).value) == Ok(s)
  {
  }

  /** Discarding after a start and one consumed token returns to the very
      same state. */
  lemma DiscardAfterConsume(s: PState)
    requires Good(s)
    ensures DiscardNodeSpec(Advance(Pushed(s))) == Ok(s)
  {
    assert (s.stack + [s.cur])[..|s.stack|] == s.stack;
  }

  /** Confirming right after starting writes a childless node at `nodeI` and
      stages it; nothing else in the arena changes. */
  lemma ConfirmAfterStart(s: PState, c: Construct)
    requires Good(s) && StartNodeSpec(s).Ok? && |s.children| < s.maxChildren
    ensures ConfirmNodeSpec(StartNodeSpec(s).value, c).Ok?
    ensures var t := ConfirmNodeSpec(StartNodeSpec(s).value, c).value;
            && t.stack == s.stack && t.tokens == s.tokens
            && t.cur == Cursor(s.cur.tokenI, s.cur.nodeI + 1, s.cur.childI + 1)
            && t.children == s.children + [s.cur.nodeI]
            && |t.nodes| == GrownLength(s.nodes, s.cur.nodeI)
            && t.nodes[s.cur.nodeI] == Node(c, None, None)
            && (forall m :: 0 <= m < |s.nodes| && m != s.cur.nodeI ==> t.nodes[m] == s.nodes[m])
  {
    assert s.children[s.cur.childI..s.cur.childI] == [];
    SetNodeFacts(s.nodes, s.cur.nodeI, c, []);
  }

  /** Rolling back after a stash restores the whole cursor, whatever was
      consumed in between. */
  lemma RollbackUndoesStash(s: PState, n: nat)
    ensures RollbackStateSpec(Consumed(StashStateSpec(s), n)).cur == s.cur
    ensures RollbackStateSpec(Consumed(StashStateSpec(s), n)) == StashStateSpec(s)
  {
    if n > 0 {
      RollbackUndoesStash(s, n - 1);
    }
  }

  /** The state after `n` tokens are consumed. */
  function Consumed(s: PState, n: nat): (t: PState)
    ensures t == s.(cur := s.cur.(tokenI := s.cur.tokenI + n))
  {
    if n == 0 then s else Advance(Consumed(s, n - 1))
  }

  // ---------------------------------------------------------------- the rule law

  /** The fields no grammar rule changes. */
  predicate Same(s: PState, t: PState) {
    t.tokens == s.tokens && t.stack == s.stack && t.maxStack == s.maxStack && t.maxChildren == s.maxChildren
  }

  /** `t` is reachable from `s` by matching: the invariant holds, the cursor has
      not moved back, the staging list has only grown by nodes written since
      `s`, and every node below `s.cur.nodeI` is as it was. */
  predicate Grew(s: PState, t: PState) {
    && Same(s, t) && Good(s) && Good(t)
    && s.cur.tokenI <= t.cur.tokenI
    && s.cur.nodeI <= t.cur.nodeI
    && |s.nodes| <= |t.nodes|
    && |s.children| <= |t.children| && t.children[..|s.children|] == s.children
    && (forall k :: |s.children| <= k < |t.children| ==> s.cur.nodeI <= t.children[k])
    && (forall m :: 0 <= m < s.cur.nodeI ==> t.nodes[m] == s.nodes[m])
  }

  /** A matched rule: at least one token consumed and exactly one new node
      staged, the last one written. */
  predicate Committed(s: PState, t: PState) {
    && Grew(s, t)
    && s.cur.tokenI < t.cur.tokenI
    && s.cur.nodeI < t.cur.nodeI
    && t.children == s.children + [t.cur.nodeI - 1]
  }

  /** A rule that did not match: cursor and staging list are as before. */
  predicate Restored(s: PState, t: PState) {
    Grew(s, t) && t.cur == s.cur && t.children == s.children
  }

  /** What every grammar rule promises: it commits exactly one node and returns
      true, or returns false with the cursor restored. */
  predicate Law(s: PState, r: Result<Step>) {
    r.Ok? ==> if r.value.matched then Committed(s, r.value.state) else Restored(s, r.value.state)
  }

  /** A rule method's result and final state are those of its rule function. */
  predicate Mirrors(r: Result<bool>, spec: Result<Step>, m: PState) {
    (r.Ok? <==> spec.Ok?) && (r.Ok? ==> r.value == spec.value.matched && m == spec.value.state)
  }

  /** The node a matched rule committed. */
  function Root(t: PState): Node
    requires 0 < t.cur.nodeI <= |t.nodes|
  {
    t.nodes[t.cur.nodeI - 1]
  }

  /** `s` with checkpoint `c` pushed. */
  function Checkpointed(s: PState, c: Cursor): PState {
    s.(stack := s.stack + [c])
  }

  /** The state right after a rule's own `start_node`. */
  function Pushed(s: PState): PState {
    Checkpointed(s, s.cur)
  }

  /** The innermost checkpoint. */
  function Top(t: PState): Cursor
    requires |t.stack| > 0
  {
    t.stack[|t.stack| - 1]
  }

  /** `t` is a state inside a rule that started at `s` and pushed one
      checkpoint owning the staging list from `s` on: its own cursor after
      `start_node`, or (after `start_node_with_prev(1)`) one that takes over
      the operand just staged. */
  predicate Inside(s: PState, t: PState) {
    Good(s) && |t.stack| > 0 && Top(t).childI == s.cur.childI && Grew(Checkpointed(s, Top(t)), t)
  }

  lemma GrewTrans(a: PState, b: PState, c: PState)
    requires Grew(a, b) && Grew(b, c)
    ensures Grew(a, c)
  {
    assert c.children[..|b.children|][..|a.children|] == c.children[..|a.children|];
  }

  lemma GrewConsume(a: PState, b: PState)
    requires Grew(a, b) && b.cur.tokenI < |b.tokens|
    ensures Grew(a, Advance(b)) && Grew(b, Advance(b))
  {
  }

  /** A committed match stays committed when it also consumes the next token. */
  lemma CommittedConsume(s: PState, t: PState)
    requires Committed(s, t) && t.cur.tokenI < |t.tokens|
    ensures Committed(s, Advance(t))
  {
    GrewConsume(s, t);
  }

  /** The stashed cursor plays no part in the rule law. */
  lemma CommittedStashed(s: PState, t: PState, c: Cursor)
    requires Committed(s, t)
    ensures Committed(s, t.(stashed := c))
  {
    assert Good(t.(stashed := c));
  }

  /** A rule run from a state its predecessor restored obeys the law from the
      predecessor's start as well. */
  lemma RestoredThen(s: PState, t: PState, r: Result<Step>)
    requires Restored(s, t) && Law(t, r)
    ensures Law(s, r)
  {
    if r.Ok? {
      GrewTrans(s, t, r.value.state);
    }
  }

  /** What every rule function keeps, whatever the state: the tokens and the
      checkpoint stack are unchanged, a match consumes at least one token and a
      mismatch leaves the token cursor where it was. */
  predicate Moved(s: PState, r: Result<Step>) {
    r.Ok? ==>
      && r.value.state.tokens == s.tokens
      && r.value.state.stack == s.stack
      && (r.value.matched ==> s.cur.tokenI < r.value.state.cur.tokenI <= |s.tokens|)
      && (!r.value.matched ==> r.value.state.cur.tokenI == s.cur.tokenI)
  }

  /** The last token consumed before `u` is `t`. */
  predicate LastConsumed(u: PState, t: Token) {
    0 < u.cur.tokenI <= |u.tokens| && u.tokens[u.cur.tokenI - 1] == t
  }

  /** Token `i` is `t`. */
  predicate TokenAt(tokens: seq<Token>, i: nat, t: Token) {
    i < |tokens| && tokens[i] == t
  }

  /** Every node staged after `x`, up to `r`, carries a construct that `ok` accepts. */
  predicate StagedWhere(x: PState, r: PState, ok: Construct -> bool) {
    && |x.children| <= |r.children|
    && forall k :: |x.children| <= k < |r.children| ==>
         r.children[k] < |r.nodes| && ok(r.nodes[r.children[k]].construct)
  }

  /** One more committed node that `ok` accepts, then any number more. */
  lemma StagedThen(x: PState, e: PState, r: PState, ok: Construct -> bool)
    requires Committed(x, e) && ok(Root(e).construct) && Grew(e, r) && StagedWhere(e, r, ok)
    ensures StagedWhere(x, r, ok)
  {
    forall k | |x.children| <= k < |r.children|
      ensures r.children[k] < |r.nodes| && ok(r.nodes[r.children[k]].construct)
    {
      if k == |x.children| {
        assert r.children[k] == e.children[k] == e.cur.nodeI - 1;
      }
    }
  }

  /** Every child of the last committed node carries a construct that `ok` accepts. */
  predicate KidsWhere(u: PState, ok: Construct -> bool) {
    && 0 < u.cur.nodeI <= |u.nodes|
    && var kids := ChildrenOf(u.nodes, u.cur.nodeI - 1);
       forall j :: 0 <= j < |kids| ==> kids[j] < |u.nodes| && ok(u.nodes[kids[j]].construct)
  }

  /** A rule giving up: its checkpoint is discarded. */
  function Reject(t: PState): (r: Result<Step>)
    requires |t.stack| > 0
    ensures r.Ok? && !r.value.matched && r.value.state.cur == Top(t)
    ensures r.value.state.tokens == t.tokens && r.value.state.stack == t.stack[..|t.stack| - 1]
  {
    Ok(Step(false, DiscardNodeSpec(t).value))
  }

  /** A rule succeeding: its node is confirmed. */
  function Accept(t: PState, c: Construct): (r: Result<Step>)
    ensures r.Ok? ==> |t.stack| > 0 && r.value.matched && r.value.state.tokens == t.tokens
                      && r.value.state.stack == t.stack[..|t.stack| - 1]
                      && r.value.state.cur.tokenI == t.cur.tokenI
  {
    var d :- ConfirmNodeSpec(t, c);
    Ok(Step(true, d))
  }

  /** Confirming consumes nothing: the last token consumed stays the same. */
  lemma AcceptLast(t: PState, c: Construct, token: Token)
    requires LastConsumed(t, token)
    ensures Accept(t, c).Ok? ==> LastConsumed(Accept(t, c).value.state, token)
  {
  }

  /** Giving up inside a rule started at `s` restores the cursor and the
      staging list of `s`. */
  lemma RejectLaw(s: PState, t: PState)
    requires Inside(s, t) && Top(t) == s.cur
    ensures Restored(s, Reject(t).value.state)
  {
    assert t.children[..|s.children|] == s.children;
  }

  /** One more token consumed inside a rule started at `s` that has staged
      nothing: still inside it, and giving up there restores `s`. */
  lemma ConsumeInside(s: PState, x: PState)
    requires Inside(s, x) && Top(x) == s.cur && |x.children| == |s.children| && x.cur.tokenI < |x.tokens|
    ensures Inside(s, Advance(x)) && Top(Advance(x)) == s.cur && |Advance(x).children| == |s.children|
    ensures Advance(x).tokens == x.tokens && Advance(x).cur.tokenI == x.cur.tokenI + 1
    ensures Restored(s, Reject(Advance(x)).value.state)
  {
    GrewConsume(Pushed(s), x);
    RejectLaw(s, Advance(x));
  }

  /** Succeeding inside a rule started at `s`, after at least one token:
      exactly the new node is staged in place of what was staged since `s`,
      and that node carries construct `c`, no sibling, and as children the
      entries staged since `s`. */
  lemma AcceptLaw(s: PState, t: PState, c: Construct)
    requires Inside(s, t) && s.cur.tokenI < t.cur.tokenI
    ensures var r := Accept(t, c);
            && (r.Ok? <==> |s.children| < s.maxChildren)
            && (r.Ok? ==>
                  && r.value.matched && Committed(s, r.value.state)
                  && Root(r.value.state).construct == c
                  && Root(r.value.state).next == None
                  && Root(r.value.state).child == (if |t.children| == |s.children| then None
                                                   else Some(t.children[|s.children|]))
                  && r.value.state.cur.nodeI == t.cur.nodeI + 1
                  && ChildrenOf(r.value.state.nodes, t.cur.nodeI) == t.children[|s.children|..]
                  && (forall m :: 0 <= m < t.cur.nodeI ==>
                        r.value.state.nodes[m].construct == t.nodes[m].construct))
  {
    ConfirmLaw(s, t, c);
    ConfirmChildren(s, t, c);
  }

  /** A rule that reads one token into a leaf: giving up returns to exactly
      the state it started in, and succeeding stages one childless node for
      that one token. */
  lemma LeafLaw(s: PState, c: Construct)
    requires Good(s) && s.cur.tokenI < |s.tokens|
    ensures Reject(Advance(Pushed(s))) == Ok(Step(false, s))
    ensures var r := Accept(Advance(Pushed(s)), c);
            && (r.Ok? <==> |s.children| < s.maxChildren)
            && (r.Ok? ==> Committed(s, r.value.state) && r.value.state.cur.tokenI == s.cur.tokenI + 1
                          && Root(r.value.state) == Node(c, None, None))
  {
    DiscardAfterConsume(s);
    AcceptLaw(s, Advance(Pushed(s)), c);
  }

  /** A rule that started at `s`, reached `m`, then matched one more sub-rule
      (reaching `t`) and confirmed: the node's children are the nodes staged
      by `m` followed by the sub-rule's root, with their constructs intact. */
  lemma AcceptKids(s: PState, m: PState, t: PState, c: Construct)
    requires Inside(s, m) && Committed(m, t) && s.cur.tokenI < t.cur.tokenI
    requires Inside(s, t) && Accept(t, c).Ok?
    ensures var u := Accept(t, c).value.state;
            && 0 < u.cur.nodeI <= |u.nodes|
            && var kids := ChildrenOf(u.nodes, u.cur.nodeI - 1);
               && |kids| == |m.children| - |s.children| + 1
               && (forall j :: 0 <= j < |kids| ==> kids[j] < |u.nodes|)
               && (forall j :: 0 <= j < |m.children| - |s.children| ==>
                     u.nodes[kids[j]].construct == m.nodes[m.children[|s.children| + j]].construct)
               && u.nodes[kids[|kids| - 1]].construct == Root(t).construct
  {
    AcceptLaw(s, t, c);
    var u := Accept(t, c).value.state;
    var kids := ChildrenOf(u.nodes, u.cur.nodeI - 1);
    assert kids == t.children[|s.children|..];
    forall j | 0 <= j < |m.children| - |s.children|
      ensures u.nodes[kids[j]].construct == m.nodes[m.children[|s.children| + j]].construct
    {
      assert kids[j] == m.children[|s.children| + j];
    }
  }

  /** Confirming `c` inside a rule started at `s`, when everything staged
      from `x` (which staged nothing since `s`) up to `t` is accepted by `ok`:
      the node's children are all accepted by `ok`. */
  lemma AcceptStaged(s: PState, x: PState, t: PState, c: Construct, ok: Construct -> bool)
    requires Inside(s, x) && |x.children| == |s.children| && Grew(x, t) && StagedWhere(x, t, ok)
    requires Inside(s, t) && s.cur.tokenI < t.cur.tokenI
    ensures var r := Accept(t, c);
            r.Ok? ==> && Committed(s, r.value.state) && r.value.state.cur.tokenI == t.cur.tokenI
                      && Root(r.value.state).construct == c && KidsWhere(r.value.state, ok)
  {
    AcceptLaw(s, t, c);
    if Accept(t, c).Ok? {
      var u := Accept(t, c).value.state;
      var kids := ChildrenOf(u.nodes, t.cur.nodeI);
      assert kids == t.children[|s.children|..];
      forall j | 0 <= j < |kids|
        ensures kids[j] < t.cur.nodeI && ok(u.nodes[kids[j]].construct)
      {
        assert kids[j] == t.children[|s.children| + j];
      }
    }
  }

  /** The confirmed node's children are exactly the entries staged since `s`. */
  lemma ConfirmChildren(s: PState, t: PState, c: Construct)
    requires Inside(s, t)
    ensures ConfirmNodeSpec(t, c).Ok? ==>
              var u := ConfirmNodeSpec(t, c).value;
              t.cur.nodeI < |u.nodes| && ChildrenOf(u.nodes, t.cur.nodeI) == t.children[|s.children|..]
  {
    ConfirmLaw(s, t, c);
    if ConfirmNodeSpec(t, c).Ok? {
      var u := ConfirmNodeSpec(t, c).value;
      StagedKids(s, t);
      ChainChildren(u.nodes, u.nodes[t.cur.nodeI].child, t.children[|s.children|..]);
    }
  }

  /** The children a confirm at `t` hands to the node it writes, when the rule
      started at `s`: increasing indices of nodes written since `s`. */
  lemma StagedKids(s: PState, t: PState)
    requires Inside(s, t)
    ensures |s.children| <= |t.children|
    ensures var kids := t.children[|s.children|..];
            && Increasing(kids)
            && (forall k :: 0 <= k < |kids| ==> kids[k] == t.children[|s.children| + k])
            && (forall k :: 0 <= k < |kids| ==> s.cur.nodeI <= kids[k] < t.cur.nodeI)
  {
  }

  /** Writing the node at `t.cur.nodeI` with kids written since `s` leaves
      every node below `s.cur.nodeI` alone. */
  lemma SetNodeKeepsPrefix(s: PState, t: PState, c: Construct, nodes: seq<Node>)
    requires Inside(s, t)
    requires SetNodeSpec(t.nodes, t.cur.nodeI, c, t.children[|s.children|..]) == Ok(nodes)
    ensures |nodes| == GrownLength(t.nodes, t.cur.nodeI) && s.cur.nodeI <= |s.nodes|
    ensures forall m :: 0 <= m < s.cur.nodeI ==> nodes[m] == s.nodes[m]
  {
    var kids := t.children[|s.children|..];
    StagedKids(s, t);
    SetNodeFacts(t.nodes, t.cur.nodeI, c, kids);
    forall m | 0 <= m < s.cur.nodeI
      ensures nodes[m] == s.nodes[m]
    {
      assert forall k :: 0 <= k < |kids| - 1 ==> kids[k] != m;
    }
  }

  /** The state a confirm at `t` produces, inside a rule started at `s`,
      given the arena the node write produced. */
  function Confirmed(s: PState, t: PState, nodes: seq<Node>): PState {
    t.(nodes := nodes, stack := s.stack, children := s.children + [t.cur.nodeI],
       cur := Cursor(t.cur.tokenI, t.cur.nodeI + 1, s.cur.childI + 1))
  }

  lemma ConfirmShape(s: PState, t: PState, c: Construct)
    requires Inside(s, t)
    ensures SetNodeSpec(t.nodes, t.cur.nodeI, c, t.children[|s.children|..]).Ok?
    ensures ConfirmNodeSpec(t, c) ==
              var nodes := SetNodeSpec(t.nodes, t.cur.nodeI, c, t.children[|s.children|..]).value;
              if |s.children| < s.maxChildren then Ok(Confirmed(s, t, nodes))
              else Fatal("Reached max children list size. Would need to resize to continue.")
  {
    StagedKids(s, t);
    SetNodeFacts(t.nodes, t.cur.nodeI, c, t.children[|s.children|..]);
    assert t.children[s.cur.childI..t.cur.childI] == t.children[|s.children|..];
    assert Truncate(t.children, s.cur.childI) == s.children;
  }

  lemma ConfirmedGrew(s: PState, t: PState, c: Construct)
    requires Inside(s, t)
    requires SetNodeSpec(t.nodes, t.cur.nodeI, c, t.children[|s.children|..]).Ok?
    ensures Grew(s, Confirmed(s, t, SetNodeSpec(t.nodes, t.cur.nodeI, c, t.children[|s.children|..]).value))
  {
    var nodes := SetNodeSpec(t.nodes, t.cur.nodeI, c, t.children[|s.children|..]).value;
    SetNodeKeepsPrefix(s, t, c, nodes);
    var u := Confirmed(s, t, nodes);
    assert u.children[..|s.children|] == s.children;
    ConfirmedLinks(s, t, c);
    forall k | 0 <= k < |u.children|
      ensures u.nodes[u.children[k]].next == None
    {
      if k < |s.children| {
        assert u.children[k] == s.children[k];
      }
    }
  }

  lemma ConfirmedLinks(s: PState, t: PState, c: Construct)
    requires Inside(s, t)
    requires SetNodeSpec(t.nodes, t.cur.nodeI, c, t.children[|s.children|..]).Ok?
    ensures var nodes := SetNodeSpec(t.nodes, t.cur.nodeI, c, t.children[|s.children|..]).value;
            && |nodes| == GrownLength(t.nodes, t.cur.nodeI)
            && nodes[t.cur.nodeI].construct == c
            && nodes[t.cur.nodeI].next == None
            && nodes[t.cur.nodeI].child == (if |t.children| == |s.children| then None
                                            else Some(t.children[|s.children|]))
            && Chain(nodes, nodes[t.cur.nodeI].child, t.children[|s.children|..])
            && (forall m :: 0 <= m < t.cur.nodeI ==>
                  nodes[m].construct == t.nodes[m].construct && nodes[m].child == t.nodes[m].child)
  {
    StagedKids(s, t);
    var kids := t.children[|s.children|..];
    SetNodeFacts(t.nodes, t.cur.nodeI, c, kids);
    if kids != [] {
      assert kids[|kids| - 1] == t.children[|t.children| - 1];
    }
  }

  /** Confirming at `t` inside a rule started at `s`. */
  lemma ConfirmLaw(s: PState, t: PState, c: Construct)
    requires Inside(s, t)
    ensures ConfirmNodeSpec(t, c).Ok? <==> |s.children| < s.maxChildren
    ensures ConfirmNodeSpec(t, c).Ok? ==>
              var u := ConfirmNodeSpec(t, c).value;
              && Grew(s, u)
              && u.cur == Cursor(t.cur.tokenI, t.cur.nodeI + 1, s.cur.childI + 1)
              && u.children == s.children + [t.cur.nodeI]
              && u.nodes[t.cur.nodeI].construct == c
              && u.nodes[t.cur.nodeI].next == None
              && u.nodes[t.cur.nodeI].child == (if |t.children| == |s.children| then None
                                                else Some(t.children[|s.children|]))
              && Chain(u.nodes, u.nodes[t.cur.nodeI].child, t.children[|s.children|..])
              && (forall m :: 0 <= m < t.cur.nodeI ==> u.nodes[m].construct == t.nodes[m].construct)
  {
    ConfirmShape(s, t, c);
    ConfirmedGrew(s, t, c);
    ConfirmedLinks(s, t, c);
  }

  // ---------------------------------------------------------------- the parser object

  class Parser {
    const ast: Ast
    const tokens: seq<Token>
    var stack: seq<Cursor>
    var children: seq<nat>
    var cur: Cursor
    var stashed: Cursor
    const maxStack: nat
    const maxChildren: nat

    function Model(): PState
      reads this, ast
    {
      PState(tokens, ast.nodes, stack, children, cur, stashed, maxStack, maxChildren)
    }

    constructor (ast: Ast, tokens: seq<Token>, maxStack: nat, maxChildren: nat)
      ensures this.ast == ast
      ensures Model() == Initial(tokens, ast.nodes, maxStack, maxChildren)
    {
      this.ast := ast;
      this.tokens := tokens;
      this.maxStack := maxStack;
      this.maxChildren := maxChildren;
      stack := [];
      children := [];
      cur := Cursor(0, 0, 0);
      stashed := Cursor(0, 0, 0);
    }

    method StartNode() returns (o: Outcome)
      modifies this
      ensures o == StatusOf(StartNodeSpec(old(Model())))
      ensures o.Pass? ==> Model() == StartNodeSpec(old(Model())).value
    {
      if |stack| >= maxStack {
        return Fail("Reached max stack size. Would need to resize to continue.");
      }
      stack := stack + [cur];
      o := Pass;
    }

    method StartNodeWithPrev(n: nat) returns (o: Outcome)
      modifies this
      ensures o == StatusOf(StartNodeWithPrevSpec(old(Model()), n))
      ensures o.Pass? ==> Model() == StartNodeWithPrevSpec(old(Model()), n).value
    {
      if |stack| >= maxStack {
        return Fail("Reached max stack size. Would need to resize to continue.");
      }
      if cur.childI < n {
        return Fail("attempt to subtract with overflow");
      }
      cur := cur.(childI := cur.childI - n);
      stack := stack + [cur];
      cur := cur.(childI := cur.childI + n);
      o := Pass;
    }

    method ConfirmNode(c: Construct) returns (o: Outcome)
      modifies this, ast
      ensures o == StatusOf(ConfirmNodeSpec(old(Model()), c))
      ensures o.Pass? ==> Model() == ConfirmNodeSpec(old(Model()), c).value
    {
      ghost var s0 := Model();
      if |stack| == 0 {
        return Fail("Trying to confirm a node without starting one.");
      }
      var start := stack[|stack| - 1];
      stack := stack[..|stack| - 1];
      if !(start.childI <= cur.childI <= |children|) {
        return Fail("slice index out of range");
      }
      ghost var kids := children[start.childI..cur.childI];
      var written := ast.SetNode(cur.nodeI, c, children[start.childI..cur.childI]);
      if written.Fail? {
        assert ConfirmNodeSpec(s0, c) == Fatal(written.msg);
        return written;
      }
      ghost var nodes := ast.nodes;
      assert SetNodeSpec(s0.nodes, s0.cur.nodeI, c, kids) == Ok(nodes);
      o := StageConfirmed(start.childI);
      if o.Fail? {
        assert ConfirmNodeSpec(s0, c).Fatal?;
        return;
      }
      assert Model() == Popped(s0, nodes, Truncate(s0.children, start.childI));
    }

    /** The end of `confirm_node`: drops the children staged since the
        checkpoint and stages the new node in their place. */
    method StageConfirmed(keep: nat) returns (o: Outcome)
      modifies this`children, this`cur
      ensures var kept := Truncate(old(children), keep);
              && (o.Pass? <==> |kept| < maxChildren)
              && (o.Fail? ==> o == Fail("Reached max children list size. Would need to resize to continue."))
              && (o.Pass? ==> children == kept + [old(cur).nodeI]
                              && cur == Cursor(old(cur).tokenI, old(cur).nodeI + 1, keep + 1))
    {
      cur := cur.(childI := keep);
      TruncateChildren(cur.childI);
      if |children| >= maxChildren {
        return Fail("Reached max children list size. Would need to resize to continue.");
      }
      children := children + [cur.nodeI];
      cur := cur.(nodeI := cur.nodeI + 1);
      cur := cur.(childI := cur.childI + 1);
      o := Pass;
    }

    method DiscardNode() returns (o: Outcome)
      modifies this
      ensures o == StatusOf(DiscardNodeSpec(old(Model())))
      ensures o.Pass? ==> Model() == DiscardNodeSpec(old(Model())).value
    {
      if |stack| == 0 {
        return Fail("Trying to discard a node without starting one.");
      }
      cur := stack[|stack| - 1];
      stack := stack[..|stack| - 1];
      TruncateChildren(cur.childI);
      o := Pass;
    }

    /** Pops staged children until at most `n` are left. */
    method TruncateChildren(n: nat)
      modifies this`children
      ensures children == Truncate(old(children), n)
    {
      while |children| > n
        invariant Truncate(children, n) == Truncate(old(children), n)
        decreases |children|
      {
        children := children[..|children| - 1];
      }
    }

    method PeekToken() returns (r: Result<Token>)
      ensures r == PeekTokenSpec(Model())
    {
      if cur.tokenI >= |tokens| {
        return Fatal("No tokens left. Should stop at the End token.");
      }
      r := Ok(tokens[cur.tokenI]);
    }

    method ConsumeToken() returns (r: Result<Token>)
      modifies this
      ensures var spec := ConsumeTokenSpec(old(Model()));
              (r.Ok? <==> spec.Ok?) && (r.Ok? ==> r.value == spec.value.0 && Model() == spec.value.1)
      ensures r.Fatal? ==> r == PeekTokenSpec(old(Model()))
    {
      if cur.tokenI >= |tokens| {
        return Fatal("No tokens left. Should stop at the End token.");
      }
      cur := cur.(tokenI := cur.tokenI + 1);
      r := Ok(tokens[cur.tokenI - 1]);
    }

    method StashState()
      modifies this
      ensures Model() == StashStateSpec(old(Model()))
    {
      stashed := cur;
    }

    method RollbackState()
      modifies this
      ensures Model() == RollbackStateSpec(old(Model()))
    {
      cur := stashed;
    }
  }
}
