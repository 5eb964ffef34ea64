/** The shadowing symbol table shared by the generator and the checker.

    A `map` from a name to the index of its newest mapping sits beside an
    append-only list of mappings; each mapping remembers the index of the
    mapping it shadows (`prev`). A scope is opened by recording the current
    number of mappings and closed by popping mappings back to that number,
    restoring each shadowed binding on the way. The table is generic over the
    symbol payload: the two copies in the program differ only in it. */
module Scopes {
  import opened Outcomes

  datatype Mapping<T(==)> = Mapping(symbol: T, prev: Option<nat>, name: string)

  /** `table` maps a name to a mapping index; `scope` is the stack of the
      numbers of mappings at which the open scopes began. */
  datatype Table<T(==)> = Table(table: map<string, nat>, mappings: seq<Mapping<T>>, scope: seq<nat>)

  function Empty<T(==)>(): (t: Table<T>)
    ensures Valid(t) && t.scope == []
  {
    Table(map[], [], [])
  }

  /** What the map holds for `name`, if anything. */
  function Lookup(table: map<string, nat>, name: string): Option<nat> {
    if name in table then Some(table[name]) else None
  }

  /** The index of the newest mapping below `n` that binds `name`: the
      reference meaning of both the map entry and a `prev` link. */
  function LastIndex<T(==)>(ms: seq<Mapping<T>>, name: string, n: nat): (r: Option<nat>)
    requires n <= |ms|
    ensures r.Some? ==> r.value < n && ms[r.value].name == name
  {
    if n == 0 then None
    else if ms[n - 1].name == name then Some(n - 1)
    else LastIndex(ms, name, n - 1)
  }

  /** The map agrees with the mappings for every name. */
  ghost predicate Matches<T>(table: map<string, nat>, ms: seq<Mapping<T>>) {
    forall name :: Lookup(table, name) == LastIndex(ms, name, |ms|)
  }

  /** The `prev` of mapping `i` is the newest earlier mapping of its name. */
  ghost predicate LinkedAt<T>(ms: seq<Mapping<T>>, i: nat)
    requires i < |ms|
  {
    ms[i].prev == LastIndex(ms, ms[i].name, i)
  }

  /** Every mapping is linked to the binding it shadows. */
  ghost predicate Linked<T>(ms: seq<Mapping<T>>) {
    forall i :: 0 <= i < |ms| ==> LinkedAt(ms, i)
  }

  /** The table invariant: the map and the `prev` links follow from the
      mappings, and the scope starts are non-decreasing and in range. */
  ghost predicate Valid<T>(t: Table<T>) {
    && Matches(t.table, t.mappings)
    && Linked(t.mappings)
    && (forall k :: 0 <= k < |t.scope| ==> t.scope[k] <= |t.mappings|)
    && (forall a, b :: 0 <= a < b < |t.scope| ==> t.scope[a] <= t.scope[b])
  }

  // ---------------------------------------------------------------- operations

  /** The symbol of the newest mapping of `name`. The range test cannot fail
      on a valid table, where the program indexes without one. */
  function Find<T(==)>(t: Table<T>, name: string): Option<T> {
    if name in t.table && t.table[name] < |t.mappings| then Some(t.mappings[t.table[name]].symbol)
    else None
  }

  /** Appends a mapping that shadows the current binding of `name`. */
  function Add<T(==)>(t: Table<T>, name: string, symbol: T): Table<T> {
    Table(t.table[name := |t.mappings|],
          t.mappings + [Mapping(symbol, Lookup(t.table, name), name)],
          t.scope)
  }

  /** Opens a scope at the current number of mappings. */
  function Increase<T(==)>(t: Table<T>): Table<T> {
    t.(scope := t.scope + [|t.mappings|])
  }

  /** Closes the innermost scope; fatal when none is open. */
  function Decrease<T(==)>(t: Table<T>): (r: Result<Table<T>>)
    ensures r.Fatal? <==> t.scope == []
  {
    if t.scope == [] then Fatal("Decreasing scope before increasing it")
    else Ok(PopTo(t.(scope := t.scope[..|t.scope| - 1]), t.scope[|t.scope| - 1]))
  }

  /** Pops mappings while there are more than `start`, newest first, giving
      each popped name back its `prev` binding or removing it. */
  function PopTo<T(==)>(t: Table<T>, start: nat): Table<T>
    decreases |t.mappings|
  {
    if |t.mappings| <= start then t else PopTo(PopOne(t), start)
  }

  // ---------------------------------------------------------------- laws

  /** `LastIndex` below `n` looks only at the first `n` mappings. */
  lemma {:induction false} LastIndexPrefix<T>(a: seq<Mapping<T>>, b: seq<Mapping<T>>, name: string, n: nat)
    requires n <= |a| && n <= |b| && a[..n] == b[..n]
    ensures LastIndex(a, name, n) == LastIndex(b, name, n)
  {
    if n > 0 {
      assert a[n - 1] == a[..n][n - 1] == b[..n][n - 1] == b[n - 1];
      assert a[..n - 1] == a[..n][..n - 1] == b[..n][..n - 1] == b[..n - 1];
      LastIndexPrefix(a, b, name, n - 1);
    }
  }

  /** Two maps that agree with the same mappings are the same map. */
  lemma MatchesUnique<T>(a: map<string, nat>, b: map<string, nat>, ms: seq<Mapping<T>>)
    requires Matches(a, ms) && Matches(b, ms)
    ensures a == b
  {
    forall name | name in a
      ensures name in b && a[name] == b[name]
    {
      assert Lookup(a, name) == LastIndex(ms, name, |ms|) == Lookup(b, name);
    }
    forall name | name in b
      ensures name in a
    {
      assert Lookup(a, name) == LastIndex(ms, name, |ms|) == Lookup(b, name);
    }
  }

  /** On a valid table a name is found exactly when some mapping binds it,
      and then the newest such mapping gives the symbol. */
  lemma FindMeaning<T>(t: Table<T>, name: string)
    requires Valid(t)
    ensures var i := LastIndex(t.mappings, name, |t.mappings|);
            Find(t, name) == if i.Some? then Some(t.mappings[i.value].symbol) else None
  {
    assert Lookup(t.table, name) == LastIndex(t.mappings, name, |t.mappings|);
  }

  /** The empty table finds nothing. */
  lemma EmptyFindsNothing<T>(name: string)
    ensures Find(Empty<T>(), name) == None
  { }

  /** The map after adding agrees with the longer mappings. */
  lemma AddMatches<T>(t: Table<T>, name: string, symbol: T)
    requires Matches(t.table, t.mappings)
    ensures Matches(Add(t, name, symbol).table, Add(t, name, symbol).mappings)
  {
    var u := Add(t, name, symbol);
    var n := |t.mappings|;
    assert u.mappings[..n] == t.mappings;
    forall x
      ensures Lookup(u.table, x) == LastIndex(u.mappings, x, n + 1)
    {
      if x != name {
        LastIndexPrefix(u.mappings, t.mappings, x, n);
        assert Lookup(t.table, x) == LastIndex(t.mappings, x, n);
      }
    }
  }

  /** The new mapping links to the binding it shadows. */
  lemma AddLinked<T>(t: Table<T>, name: string, symbol: T)
    requires Matches(t.table, t.mappings) && Linked(t.mappings)
    ensures Linked(Add(t, name, symbol).mappings)
  {
    var u := Add(t, name, symbol);
    var n := |t.mappings|;
    assert u.mappings[..n] == t.mappings;
    forall i | 0 <= i < n + 1
      ensures LinkedAt(u.mappings, i)
    {
      LastIndexPrefix(u.mappings, t.mappings, u.mappings[i].name, i);
      if i < n {
        assert LinkedAt(t.mappings, i);
      } else {
        assert Lookup(t.table, name) == LastIndex(t.mappings, name, n);
      }
    }
  }

  /** Adding keeps the invariant, and the new mapping's `prev` is the
      binding it shadows. */
  lemma AddValid<T>(t: Table<T>, name: string, symbol: T)
    requires Valid(t)
    ensures var u := Add(t, name, symbol);
            && Valid(u)
            && u.mappings[|t.mappings|].prev == LastIndex(t.mappings, name, |t.mappings|)
  {
    AddMatches(t, name, symbol);
    AddLinked(t, name, symbol);
    assert Lookup(t.table, name) == LastIndex(t.mappings, name, |t.mappings|);
  }

  /** After adding, the name finds the new symbol and every other name finds
      what it found before. */
  lemma AddFind<T>(t: Table<T>, name: string, symbol: T)
    requires Valid(t)
    ensures var u := Add(t, name, symbol);
            && Find(u, name) == Some(symbol)
            && (forall other :: other != name ==> Find(u, other) == Find(t, other))
  {
    var u := Add(t, name, symbol);
    forall other | other != name
      ensures Find(u, other) == Find(t, other)
    {
      assert Lookup(t.table, other) == LastIndex(t.mappings, other, |t.mappings|);
    }
  }

  /** Opening a scope keeps the invariant and changes no lookup. */
  lemma IncreaseLaw<T>(t: Table<T>)
    requires Valid(t)
    ensures var u := Increase(t);
            && Valid(u) && u.mappings == t.mappings && u.table == t.table
            && |u.scope| == |t.scope| + 1 && u.scope[|t.scope|] == |t.mappings|
            && (forall name :: Find(u, name) == Find(t, name))
  { }

  /** The table after popping its newest mapping. */
  function PopOne<T(==)>(t: Table<T>): Table<T>
    requires t.mappings != []
  {
    var m := t.mappings[|t.mappings| - 1];
    var table := if m.prev.Some? then t.table[m.name := m.prev.value] else t.table - {m.name};
    Table(table, t.mappings[..|t.mappings| - 1], t.scope)
  }

  /** Popping one mapping keeps the map and the links in agreement. */
  lemma PopOneLaw<T>(t: Table<T>)
    requires t.mappings != [] && Matches(t.table, t.mappings) && Linked(t.mappings)
    ensures Matches(PopOne(t).table, PopOne(t).mappings) && Linked(PopOne(t).mappings)
  {
    var ms := t.mappings;
    var n := |ms|;
    var m := ms[n - 1];
    var u := PopOne(t);
    var ms' := u.mappings;
    assert ms'[..n - 1] == ms[..n - 1];
    forall x
      ensures Lookup(u.table, x) == LastIndex(ms', x, n - 1)
    {
      LastIndexPrefix(ms, ms', x, n - 1);
      if x != m.name {
        assert Lookup(t.table, x) == LastIndex(ms, x, n);
      } else {
        assert LinkedAt(ms, n - 1);
      }
    }
    forall i | 0 <= i < n - 1
      ensures LinkedAt(ms', i)
    {
      LastIndexPrefix(ms, ms', ms'[i].name, i);
      assert LinkedAt(ms, i);
    }
  }

  /** Popping to `start` leaves exactly the first `start` mappings, with the
      map and the links agreeing with them. */
  lemma {:induction false} PopToLaw<T>(t: Table<T>, start: nat)
    requires Matches(t.table, t.mappings) && Linked(t.mappings)
    ensures var u := PopTo(t, start);
            && u.mappings == t.mappings[..if start < |t.mappings| then start else |t.mappings|]
            && u.scope == t.scope
            && Matches(u.table, u.mappings) && Linked(u.mappings)
    decreases |t.mappings|
  {
    var n := |t.mappings|;
    if n > start {
      assert PopTo(t, start) == PopTo(PopOne(t), start);
      PopOneLaw(t);
      PopToLaw(PopOne(t), start);
      assert t.mappings[..n - 1][..if start < n - 1 then start else n - 1] == t.mappings[..start];
    } else {
      assert t.mappings[..n] == t.mappings;
    }
  }

  /** Closing keeps the invariant; the mappings go back to the length
      recorded when the scope was opened, and the other scopes stay open. */
  lemma DecreaseLaw<T>(t: Table<T>)
    requires Valid(t) && t.scope != []
    ensures var u := Decrease(t).value;
            && Valid(u)
            && u.mappings == t.mappings[..t.scope[|t.scope| - 1]]
            && u.scope == t.scope[..|t.scope| - 1]
  {
    PopToLaw(t.(scope := t.scope[..|t.scope| - 1]), t.scope[|t.scope| - 1]);
  }

  /** `u` is `t` with one more scope opened and, possibly, more mappings
      added: the state between an `Increase` and its `Decrease`. */
  ghost predicate Opened<T>(t: Table<T>, u: Table<T>) {
    && u.scope == t.scope + [|t.mappings|]
    && |t.mappings| <= |u.mappings| && u.mappings[..|t.mappings|] == t.mappings
  }

  /** `u` is `t` with the same scopes and, possibly, more mappings. */
  ghost predicate Stays<T>(t: Table<T>, u: Table<T>) {
    && u.scope == t.scope
    && |t.mappings| <= |u.mappings| && u.mappings[..|t.mappings|] == t.mappings
  }

  /** The scope law: closing a scope restores the table to exactly what it
      was when the scope was opened, however the names were rebound in
      between, so every name finds what it found before. */
  lemma ScopeRoundTrip<T>(t: Table<T>, u: Table<T>)
    requires Valid(t) && Valid(u) && Opened(t, u)
    ensures Decrease(u) == Ok(t)
    ensures forall name :: Find(Decrease(u).value, name) == Find(t, name)
  {
    DecreaseLaw(u);
    var r := Decrease(u).value;
    assert r.mappings == t.mappings;
    MatchesUnique(r.table, t.table, t.mappings);
  }

  /** Opening a scope from a valid table puts it in the `Opened` relation. */
  lemma IncreaseOpens<T>(t: Table<T>)
    requires Valid(t)
    ensures Opened(t, Increase(t))
  {
    assert Increase(t).mappings[..|t.mappings|] == t.mappings;
  }

  lemma StaysRefl<T>(t: Table<T>)
    ensures Stays(t, t)
  {
    assert t.mappings[..|t.mappings|] == t.mappings;
  }

  lemma AddStays<T>(t: Table<T>, name: string, symbol: T)
    ensures Stays(t, Add(t, name, symbol))
  {
    assert Add(t, name, symbol).mappings[..|t.mappings|] == t.mappings;
  }

  lemma StaysTrans<T>(a: Table<T>, b: Table<T>, c: Table<T>)
    requires Stays(a, b) && Stays(b, c)
    ensures Stays(a, c)
  {
    assert c.mappings[..|a.mappings|] == c.mappings[..|b.mappings|][..|a.mappings|];
  }

  lemma OpenedThen<T>(a: Table<T>, b: Table<T>, c: Table<T>)
    requires Opened(a, b) && Stays(b, c)
    ensures Opened(a, c)
  {
    assert c.mappings[..|a.mappings|] == c.mappings[..|b.mappings|][..|a.mappings|];
  }

  // ---------------------------------------------------------------- the table object

  class SymbolTable<T(==)> {
    var table: map<string, nat>
    var mappings: seq<Mapping<T>>
    var scope: seq<nat>

    function Model(): Table<T>
      reads this
    {
      Table(table, mappings, scope)
    }

    constructor ()
      ensures Model() == Empty()
    {
      table := map[];
      mappings := [];
      scope := [];
    }

    method FindSymbol(name: string) returns (r: Option<T>)
      requires Valid(Model())
      ensures r == Find(Model(), name)
    {
      if name in table {
        var index := table[name];
        assert Lookup(table, name) == LastIndex(mappings, name, |mappings|);
        r := Some(mappings[index].symbol);
      } else {
        r := None;
      }
    }

    method AddSymbol(name: string, symbol: T)
      modifies this
      ensures Model() == Add(old(Model()), name, symbol)
    {
      var prev := if name in table then Some(table[name]) else None;
      var mapping := Mapping(symbol, prev, name);
      table := table[name := |mappings|];
      mappings := mappings + [mapping];
    }

    method IncreaseScope()
      modifies this
      ensures Model() == Increase(old(Model()))
    {
      scope := scope + [|mappings|];
    }

    method DecreaseScope() returns (o: Outcome)
      modifies this
      ensures o == StatusOf(Decrease(old(Model())))
      ensures o.Pass? ==> Model() == Decrease(old(Model())).value
    {
      if scope == [] {
        return Fail("Decreasing scope before increasing it");
      }
      var start := scope[|scope| - 1];
      scope := scope[..|scope| - 1];
      ghost var popped := Model();
      while |mappings| > start
        invariant PopTo(Model(), start) == PopTo(popped, start)
        decreases |mappings|
      {
        var mapping := mappings[|mappings| - 1];
        mappings := mappings[..|mappings| - 1];
        match mapping.prev {
          case Some(prev) =>
            table := table[mapping.name := prev];
          case None =>
            table := table - {mapping.name};
        }
      }
      return Pass;
    }
  }
}
