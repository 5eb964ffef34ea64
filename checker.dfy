/** The checker's state: the arena it annotates, a symbol table whose
    symbols record the declaring node, and the number of scopes open. */
module Checkers {
  import opened Outcomes
  import opened Trees
  import opened Scopes

  /** Where a variable lives; the checker leaves it undecided. */
  datatype Storage = Local(offset: int) | Global(globalLabel: string) | Undefined

  datatype SymbolData = Variable(storage: Storage) | Function(functionLabel: string) | Structure

  /** A declaration as the checker records it: the index of the declaring
      node and what kind of symbol it is. */
  datatype Symbol = Symbol(nodeI: nat, data: SymbolData)

  // ---------------------------------------------------------------- function labels

  function Digit(n: nat): (c: char)
    requires n < 10
    ensures '0' <= c <= '9' && c as int - '0' as int == n
  {
    ('0' as int + n) as char
  }

  /** `n` written in decimal, as `to_string` writes it: no leading zero. */
  function Decimal(n: nat): (s: string)
    ensures s != [] && (forall i :: 0 <= i < |s| ==> '0' <= s[i] <= '9')
    ensures |s| > 1 ==> s[0] != '0'
  {
    if n < 10 then [Digit(n)] else Decimal(n / 10) + [Digit(n % 10)]
  }

  /** The number a string of decimal digits denotes. */
  function DecimalValue(s: string): nat
    requires forall i :: 0 <= i < |s| ==> '0' <= s[i] <= '9'
  {
    if s == [] then 0 else DecimalValue(s[..|s| - 1]) * 10 + (s[|s| - 1] as int - '0' as int)
  }

  lemma {:induction false} DecimalRoundTrip(n: nat)
    ensures DecimalValue(Decimal(n)) == n
  {
    if n >= 10 {
      var s := Decimal(n);
      assert s[..|s| - 1] == Decimal(n / 10);
      DecimalRoundTrip(n / 10);
    }
  }

  /** `get_function_label`: the function's name, two underscores and the
      depth of the scope it is declared in. */
  function FunctionLabel(name: string, depth: nat): (l: string)
    ensures |l| == |name| + 2 + |Decimal(depth)| && l[..|name|] == name
  {
    name + "__" + Decimal(depth)
  }

  /** A label determines the name and the depth it was made from, however
      the name itself ends: the depth is the run of digits after the last
      underscore. */
  lemma LabelInjective(a: string, d: nat, b: string, e: nat)
    requires FunctionLabel(a, d) == FunctionLabel(b, e)
    ensures a == b && d == e
  {
    var l := FunctionLabel(a, d);
    LabelEnd(a, d);
    LabelEnd(b, e);
    if |Decimal(d)| != |Decimal(e)| {
      assert false;
    }
    DecimalRoundTrip(d);
    DecimalRoundTrip(e);
  }

  /** A label ends with the depth's digits, and just before them an
      underscore. */
  lemma LabelEnd(name: string, d: nat)
    ensures var l := FunctionLabel(name, d);
            var n := |Decimal(d)|;
            && l[|l| - n..] == Decimal(d) && l[|l| - n - 1] == '_'
            && forall i :: |l| - n <= i < |l| ==> '0' <= l[i] <= '9'
  {
    var l := FunctionLabel(name, d);
    var n := |Decimal(d)|;
    assert l[|l| - n..] == Decimal(d);
    forall i | |l| - n <= i < |l|
      ensures '0' <= l[i] <= '9'
    {
      assert l[i] == Decimal(d)[i - (|l| - n)];
    }
  }

  // ---------------------------------------------------------------- the checker object

  class Checker {
    var nodes: seq<Node>
    const symbols: SymbolTable<Symbol>
    var depth: nat

    /** A checker over `ast` with an empty table and no scope open. */
    constructor (ast: seq<Node>)
      ensures nodes == ast && depth == 0 && fresh(symbols) && symbols.Model() == Empty()
      ensures Valid()
    {
      nodes := ast;
      depth := 0;
      symbols := new SymbolTable();
    }

    /** The table is consistent and `depth` counts its open scopes. */
    ghost predicate Valid()
      reads this, symbols
    {
      Scopes.Valid(symbols.Model()) && depth == |symbols.Model().scope|
    }

    /** `current_depth`: the number of scopes open. */
    function CurrentDepth(): (d: nat)
      reads this, symbols
      requires Valid()
      ensures d == |symbols.Model().scope|
    {
      depth
    }

    method IncreaseScope()
      requires Valid()
      modifies this, symbols
      ensures Valid() && nodes == old(nodes)
      ensures symbols.Model() == Increase(old(symbols.Model())) && depth == old(depth) + 1
    {
      IncreaseLaw(symbols.Model());
      symbols.IncreaseScope();
      depth := depth + 1;
    }

    /** Closes the innermost scope; fatal when none is open. */
    method DecreaseScope() returns (o: Outcome)
      requires Valid()
      modifies this, symbols
      ensures nodes == old(nodes)
      ensures o == StatusOf(Decrease(old(symbols.Model())))
      ensures o.Pass? ==> Valid() && symbols.Model() == Decrease(old(symbols.Model())).value && depth == old(depth) - 1
    {
      if depth > 0 {
        DecreaseLaw(symbols.Model());
      }
      o := symbols.DecreaseScope();
      if o.Fail? {
        return;
      }
      depth := depth - 1;
    }
  }
}
