/** The identifier rule, shared by the other grammar rules. */
module MatchCommon {
  import opened Outcomes
  import opened Tokens
  import opened Constructs
  import opened Trees
  import opened Parsing

  /** One identifier token becomes an `Identifier` node carrying its name;
      any other token leaves the parser where it was. */
  function IdentifierRule(s: PState): (r: Result<Step>)
    ensures Moved(s, r)
  {
    var s1 :- StartNodeSpec(s);
    var (token, s2) :- ConsumeTokenSpec(s1);
    if !token.Identifier? then Reject(s2)
    else Accept(s2, Construct.Identifier(token.name))
  }

  /** The identifier rule fails only on a full stack, a missing token or a
      full staging list; it matches exactly an identifier token, consuming
      that one token for one childless `Identifier` node, and on any other
      token the state is exactly as before. */
  lemma IdentifierLaw(s: PState)
    requires Good(s)
    ensures var r := IdentifierRule(s);
            && Law(s, r)
            && (r.Ok? <==> |s.stack| < s.maxStack && s.cur.tokenI < |s.tokens|
                           && (s.tokens[s.cur.tokenI].Identifier? ==> |s.children| < s.maxChildren))
            && (r.Ok? ==> (r.value.matched <==> s.tokens[s.cur.tokenI].Identifier?))
            && (r.Ok? && r.value.matched ==>
                  && r.value.state.cur.tokenI == s.cur.tokenI + 1
                  && Root(r.value.state) == Node(Construct.Identifier(s.tokens[s.cur.tokenI].name), None, None))
            && (r.Ok? && !r.value.matched ==> r.value.state == s)
  {
    if |s.stack| < s.maxStack && s.cur.tokenI < |s.tokens| {
      var token := s.tokens[s.cur.tokenI];
      if token.Identifier? {
        LeafLaw(s, Construct.Identifier(token.name));
      } else {
        DiscardAfterConsume(s);
      }
    }
  }

  method MatchIdentifier(p: Parser) returns (r: Result<bool>)
    modifies p, p.ast
    ensures Mirrors(r, IdentifierRule(old(p.Model())), p.Model())
  {
    var started := p.StartNode();
    if started.Fail? {
      return Fatal(started.msg);
    }
    var token :- p.ConsumeToken();
    if !token.Identifier? {
      var discarded := p.DiscardNode();
      assert discarded.Pass?;
      return Ok(false);
    }
    :- p.ConfirmNode(Construct.Identifier(token.name));
    return Ok(true);
  }
}
