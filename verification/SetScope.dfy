/**
  The `.set` cursor of the assembler (src/assemble.rs): symbols start at their first value and each
  activated directive rebinds its name, so that at every point a name has the value the resolver's
  scoping rule gives it. An assignment to a lone label is an alias: it gets an address instead of a value.
 */
module SetScope {
  import opened Words
  import opened Expr
  import opened Resolver

  datatype CursorError = Unresolvable(error: AssignmentError) | MissingAssignment | OrderChanged

  // ---- aliases ------------------------------------------------------------------------

  /** The target of an assignment to nothing but a name that is itself never assigned. */
  function AliasOf(assignments: seq<Assignment>, i: nat): Option<string>
    requires i < |assignments|
  {
    match assignments[i].value
    case Symbol(target) => if exists j :: 0 <= j < |assignments| && assignments[j].name == target then None else Some(target)
    case _ => None
  }

  function Aliases(assignments: seq<Assignment>): (r: seq<Option<string>>)
    ensures |r| == |assignments| && forall i :: 0 <= i < |r| ==> r[i] == AliasOf(assignments, i)
  {
    seq(|assignments|, i requires 0 <= i < |assignments| => AliasOf(assignments, i))
  }

  /** The list the resolver is given: every alias is zero there, so that none can fail. */
  function Substituted(assignments: seq<Assignment>): (r: seq<Assignment>)
    ensures |r| == |assignments|
    ensures forall i :: 0 <= i < |r| ==>
              r[i] == if AliasOf(assignments, i).Some? then Assignment(assignments[i].name, Int(0)) else assignments[i]
  {
    seq(|assignments|, i requires 0 <= i < |assignments| =>
      if AliasOf(assignments, i).Some? then Assignment(assignments[i].name, Int(0)) else assignments[i])
  }

  type Places = map<string, (nat, u64)>

  /** The labels once the first n assignments' aliases have their targets' places. */
  function Aliased(labels: Places, assignments: seq<Assignment>, n: nat): Option<Places>
    requires n <= |assignments|
  {
    if n == 0 then Some(labels)
    else
      var before, alias := Aliased(labels, assignments, n - 1), AliasOf(assignments, n - 1);
      if before.None? || alias.None? then before
      else if alias.value !in before.value then None
      else Some(before.value[assignments[n - 1].name := before.value[alias.value]])
  }

  // ---- which value a name has ------------------------------------------------------------

  /** Assignment j gives the name a value. */
  predicate Sets(p: Problem, aliases: seq<Option<string>>, name: string, j: nat) {
    Assigns(p, name, j) && j < |aliases| && aliases[j].None?
  }

  /** No assignment makes the name an alias. */
  ghost predicate NeverAlias(p: Problem, aliases: seq<Option<string>>, name: string) {
    forall j: nat :: Assigns(p, name, j) ==> Sets(p, aliases, name, j)
  }

  /** The assignment the scoping rule picks for a name at position n, and the value it has. */
  ghost predicate InScope(p: Problem, values: seq<i64>, current: map<string, i64>, name: string, n: nat)
    requires |values| == |p.assignments|
  {
    var d := DependencyForSymbol(p, name, n);
    && (name in current <==> d.Assigned?)
    && (d.Assigned? ==> current[name] == values[d.target])
  }

  /** At position n the names with values are bound, those that are never aliases to what the scoping rule picks. */
  ghost predicate Bound(p: Problem, aliases: seq<Option<string>>, values: seq<i64>, current: map<string, i64>, n: nat)
    requires |values| == |p.assignments|
  {
    && (forall name :: name in current <==> exists j: nat :: Sets(p, aliases, name, j))
    && (forall name :: NeverAlias(p, aliases, name) ==> InScope(p, values, current, name, n))
  }

  /** Every name with a value among the first n is bound to its first one among them. */
  ghost predicate FirstBound(p: Problem, aliases: seq<Option<string>>, values: seq<i64>, current: map<string, i64>, n: nat)
    requires n <= |values| && n <= |p.assignments|
  {
    && (forall name :: name in current <==> exists j: nat :: j < n && Sets(p, aliases, name, j))
    && (forall name, j: nat :: j < n && Sets(p, aliases, name, j) && (forall i: nat :: i < j ==> !Sets(p, aliases, name, i)) ==>
          name in current && current[name] == values[j])
  }

  /** Every name with a value among the first n is bound to its last one among them. */
  ghost predicate LastBound(p: Problem, aliases: seq<Option<string>>, values: seq<i64>, current: map<string, i64>, n: nat)
    requires n <= |values| && n <= |p.assignments|
  {
    && (forall name :: name in current <==> exists j: nat :: j < n && Sets(p, aliases, name, j))
    && (forall name, j: nat :: j < n && Sets(p, aliases, name, j) && (forall i: nat :: j < i < n ==> !Sets(p, aliases, name, i)) ==>
          name in current && current[name] == values[j])
  }

  /** The values after n activations. */
  function CurrentAt(p: Problem, aliases: seq<Option<string>>, values: seq<i64>, initial: map<string, i64>, n: nat): map<string, i64>
    requires n <= |p.assignments| == |values| == |aliases|
  {
    if n == 0 then initial
    else
      var before := CurrentAt(p, aliases, values, initial, n - 1);
      if aliases[n - 1].Some? then before else before[p.assignments[n - 1].name := values[n - 1]]
  }

  lemma FirstValuesBound(p: Problem, aliases: seq<Option<string>>, values: seq<i64>, current: map<string, i64>)
    requires |values| == |p.assignments| == |aliases| && FirstBound(p, aliases, values, current, |values|)
    ensures Bound(p, aliases, values, current, 0)
  {
    hide DependencyForSymbol;
    forall name: string ensures name in current <==> exists j: nat :: Sets(p, aliases, name, j) {
      if j: nat :| Sets(p, aliases, name, j) {
        assert j < |values|;
      }
    }
    forall name: string | NeverAlias(p, aliases, name) ensures InScope(p, values, current, name, 0) {
      DependencyScope(p, name, 0);
      var d := DependencyForSymbol(p, name, 0);
      assert forall j: nat :: Assigns(p, name, j) ==> Sets(p, aliases, name, j) && j < |values|;
      if name in current {
        var j: nat :| j < |values| && Sets(p, aliases, name, j);
        assert Assigns(p, name, j);
        assert Sets(p, aliases, name, d.target);
      }
    }
  }

  /** Activating assignment n moves the binding from position n to position n + 1. */
  lemma ActivateBound(p: Problem, aliases: seq<Option<string>>, values: seq<i64>, current: map<string, i64>, n: nat)
    requires n < |values| == |p.assignments| == |aliases| && Bound(p, aliases, values, current, n)
    ensures Bound(p, aliases, values, if aliases[n].Some? then current else current[p.assignments[n].name := values[n]], n + 1)
  {
    hide DependencyForSymbol;
    var name' := p.assignments[n].name;
    var current' := if aliases[n].Some? then current else current[name' := values[n]];
    assert Assigns(p, name', n);
    assert aliases[n].None? ==> Sets(p, aliases, name', n);
    forall name: string | NeverAlias(p, aliases, name) ensures InScope(p, values, current', name, n + 1) {
      assert InScope(p, values, current, name, n);
      ScopeAdvances(p, name, n);
    }
  }

  /** At every point of the emission pass each name has the value of the assignment in scope there. */
  lemma {:induction false} BoundEverywhere(p: Problem, aliases: seq<Option<string>>, values: seq<i64>, initial: map<string, i64>, n: nat)
    requires n <= |values| == |p.assignments| == |aliases| && Bound(p, aliases, values, initial, 0)
    ensures Bound(p, aliases, values, CurrentAt(p, aliases, values, initial, n), n)
  {
    hide Bound;
    if n > 0 {
      BoundEverywhere(p, aliases, values, initial, n - 1);
      ActivateBound(p, aliases, values, CurrentAt(p, aliases, values, initial, n - 1), n - 1);
    }
  }

  /** From assignment n on the name gets no other value than it has. */
  ghost predicate KeepsValue(p: Problem, aliases: seq<Option<string>>, values: seq<i64>, current: map<string, i64>, name: string, n: nat) {
    forall i: nat :: n <= i < |values| && Sets(p, aliases, name, i) ==> name in current && current[name] == values[i]
  }

  /** Then it has that value from assignment n on. */
  lemma {:induction false} ValueKept(p: Problem, aliases: seq<Option<string>>, values: seq<i64>, initial: map<string, i64>, name: string,
                                     n: nat, m: nat)
    requires n <= m <= |values| == |p.assignments| == |aliases|
    requires KeepsValue(p, aliases, values, CurrentAt(p, aliases, values, initial, n), name, n)
    ensures var was, now := CurrentAt(p, aliases, values, initial, n), CurrentAt(p, aliases, values, initial, m);
            (name in now <==> name in was) && (name in was ==> now[name] == was[name])
    decreases m
  {
    if n < m {
      ValueKept(p, aliases, values, initial, name, n, m - 1);
      assert p.assignments[m - 1].name == name && aliases[m - 1].None? ==> Sets(p, aliases, name, m - 1);
    }
  }

  lemma ScopeAdvances(p: Problem, name: string, n: nat)
    requires n < |p.assignments|
    ensures DependencyForSymbol(p, name, n + 1) == if p.assignments[n].name == name then Assigned(n) else DependencyForSymbol(p, name, n)
  {
    hide DependencyForSymbol;
    DependencyScope(p, name, n);
    DependencyScope(p, name, n + 1);
    if Assigns(p, name, n) {
    } else if j: nat :| j < n && Assigns(p, name, j) {
      assert j < n + 1;
    } else if j: nat :| Assigns(p, name, j) {
      forall i: nat | i < n + 1 ensures !Assigns(p, name, i) {}
    }
  }

  class SetCursor {
    var problem: Problem
    var aliases: seq<Option<string>>
    var values: seq<i64>
    var initial: map<string, i64>
    var final: map<string, i64>
    var current: map<string, i64>
    var next: nat

    ghost predicate Prepared()
      reads this`problem, this`aliases, this`values, this`initial, this`final
    {
      && |values| == |problem.assignments| == |aliases|
      && Bound(problem, aliases, values, initial, 0)
      && LastBound(problem, aliases, values, final, |values|)
    }

    /** Everywhere in the emission pass. */
    ghost predicate Valid()
      reads this
    {
      Prepared() && next <= |values| && current == CurrentAt(problem, aliases, values, initial, next)
    }

    constructor ()
    {
      problem, aliases, values, initial, final, current, next := Problem([], map[]), [], [], map[], map[], map[], 0;
    }

    /** Resolve the whole list; outside emission every name has its final value. */
    method Prepare(assignments: seq<Assignment>, symbols: SymbolTable) returns (r: Result<(), CursorError>)
      modifies this
      ensures problem == Problem(Substituted(assignments), symbols) && aliases == Aliases(assignments)
      ensures r.Ok? ==>
                && Prepared() && current == final
                && (forall i :: 0 <= i < |values| ==> Evaluates(problem, i, values[i]))
      ensures r.Err? ==> r.error.Unresolvable? && exists i :: 0 <= i < |assignments| && Blames(problem, i, r.error.error)
    {
      hide Blames, FirstBound, LastBound, Bound, Evaluates, AliasOf;
      var p := Problem(Substituted(assignments), symbols);
      var targets := Aliases(assignments);
      var results := ResolveAbsoluteAssignments(p);
      problem, aliases, values, initial, final := p, targets, [], map[], map[];
      assert FirstBound(p, targets, values, initial, 0) && LastBound(p, targets, values, final, 0) by { NothingBound(p, targets); }
      var i := 0;
      while i < |results|
        invariant 0 <= i == |values| <= |results| && problem == p && aliases == targets
        invariant FirstBound(p, targets, values, initial, i) && LastBound(p, targets, values, final, i)
        invariant forall k :: 0 <= k < i ==> Evaluates(p, k, values[k])
      {
        if results[i].Err? {
          return Err(Unresolvable(results[i].error));
        }
        var name, value := p.assignments[i].name, results[i].value;
        BindNext(p, targets, values, initial, final, i, value);
        if targets[i].None? {
          if name !in initial {
            initial := initial[name := value];
          }
          final := final[name := value];
        }
        values := values + [value];
        i := i + 1;
      }
      FirstValuesBound(p, targets, values, initial);
      current := final;
      return Ok(());
    }

    /** The emission pass starts from the first values. */
    method Reset()
      requires Prepared()
      modifies this`next, this`current
      ensures Valid() && next == 0
    {
      hide Bound, LastBound;
      next := 0;
      current := initial;
    }

    /** A `.set` directive rebinds its name, unless it is an alias, and moves the cursor by one. */
    method Activate(name: string) returns (r: Result<(), CursorError>)
      requires Valid()
      modifies this`next, this`current
      ensures Valid()
      ensures r.Ok? <==> old(next) < |values| && problem.assignments[old(next)].name == name
      ensures r.Ok? ==> next == old(next) + 1
      ensures r.Ok? ==> current == if aliases[old(next)].Some? then old(current) else old(current)[name := values[old(next)]]
      ensures r.Err? ==> next == old(next) && current == old(current)
    {
      hide Bound, LastBound;
      if next >= |problem.assignments| {
        return Err(MissingAssignment);
      }
      if problem.assignments[next].name != name {
        return Err(OrderChanged);
      }
      if aliases[next].None? {
        current := current[name := values[next]];
      }
      next := next + 1;
      return Ok(());
    }
  }

  lemma NothingBound(p: Problem, aliases: seq<Option<string>>)
    ensures FirstBound(p, aliases, [], map[], 0) && LastBound(p, aliases, [], map[], 0)
  {
  }

  lemma BindNext(p: Problem, aliases: seq<Option<string>>, values: seq<i64>, initial: map<string, i64>,
                 final: map<string, i64>, i: nat, value: i64)
    requires i == |values| < |p.assignments| == |aliases|
    requires FirstBound(p, aliases, values, initial, i) && LastBound(p, aliases, values, final, i)
    ensures var name := p.assignments[i].name;
            && FirstBound(p, aliases, values + [value], if aliases[i].Some? || name in initial then initial else initial[name := value], i + 1)
            && LastBound(p, aliases, values + [value], if aliases[i].Some? then final else final[name := value], i + 1)
  {
    BindFirst(p, aliases, values, initial, i, value);
    BindLast(p, aliases, values, final, i, value);
  }

  /** The names with values among the first i + 1: those before, and that of assignment i unless it is an alias. */
  lemma KeysGrow(p: Problem, aliases: seq<Option<string>>, i: nat, n: string)
    requires i < |p.assignments| == |aliases|
    ensures (exists j: nat :: j < i + 1 && Sets(p, aliases, n, j))
            <==> (p.assignments[i].name == n && aliases[i].None?) || exists j: nat :: j < i && Sets(p, aliases, n, j)
  {
    if p.assignments[i].name == n && aliases[i].None? {
      assert Sets(p, aliases, n, i);
    } else if j: nat :| j < i && Sets(p, aliases, n, j) {
      assert j < i + 1;
    }
  }

  lemma SetsHere(p: Problem, aliases: seq<Option<string>>, n: string, i: nat)
    requires i < |p.assignments| == |aliases|
    ensures Sets(p, aliases, n, i) <==> p.assignments[i].name == n && aliases[i].None?
  {
  }

  lemma BindFirst(p: Problem, aliases: seq<Option<string>>, values: seq<i64>, initial: map<string, i64>, i: nat, value: i64)
    requires i == |values| < |p.assignments| == |aliases| && FirstBound(p, aliases, values, initial, i)
    ensures var name := p.assignments[i].name;
            FirstBound(p, aliases, values + [value], if aliases[i].Some? || name in initial then initial else initial[name := value], i + 1)
  {
    var name := p.assignments[i].name;
    var initial' := if aliases[i].Some? || name in initial then initial else initial[name := value];
    forall n: string ensures n in initial' <==> exists j: nat :: j < i + 1 && Sets(p, aliases, n, j) {
      KeysGrow(p, aliases, i, n);
    }
    forall n, j: nat | j < i + 1 && Sets(p, aliases, n, j) && (forall k: nat :: k < j ==> !Sets(p, aliases, n, k))
      ensures n in initial' && initial'[n] == (values + [value])[j]
    {
      if j < i {
        assert n in initial;
      } else {
        assert n in initial ==> exists k: nat :: k < i && Sets(p, aliases, n, k);
      }
    }
  }

  lemma BindLast(p: Problem, aliases: seq<Option<string>>, values: seq<i64>, final: map<string, i64>, i: nat, value: i64)
    requires i == |values| < |p.assignments| == |aliases| && LastBound(p, aliases, values, final, i)
    ensures LastBound(p, aliases, values + [value], if aliases[i].Some? then final else final[p.assignments[i].name := value], i + 1)
  {
    hide Sets;
    var name := p.assignments[i].name;
    var final' := if aliases[i].Some? then final else final[name := value];
    forall n: string ensures n in final' <==> exists j: nat :: j < i + 1 && Sets(p, aliases, n, j) {
      KeysGrow(p, aliases, i, n);
    }
    forall n, j: nat | j < i + 1 && Sets(p, aliases, n, j) && (forall k: nat :: j < k < i + 1 ==> !Sets(p, aliases, n, k))
      ensures n in final' && final'[n] == (values + [value])[j]
    {
      SetsHere(p, aliases, n, i);
      if j < i {
        assert !Sets(p, aliases, n, i);
        assert forall k: nat :: j < k < i ==> !Sets(p, aliases, n, k);
        assert n in final && final[n] == values[j];
      }
    }
  }

  // ---- running the list as sequential assignments -----------------------------------

  /** Classification looks at nothing but the symbols an expression mentions. */
  ghost predicate AgreeOn(names: seq<string>, s1: SymbolTable, s2: SymbolTable) {
    forall n :: n in names ==> Lookup(s1, n) == Lookup(s2, n)
  }

  lemma {:induction false} PushNames(ts: seq<Weighted<Term>>, term: Term, delta: int, names: seq<string>)
    requires TermsIn(ts, names) && (term.Plain? ==> term.name in names)
    ensures TermsIn(Push(ts, term, delta), names)
  {
    PushItems(ts, term, delta);
    var r := Push(ts, term, delta);
    forall i | 0 <= i < |r| && r[i].item.Plain? ensures r[i].item.name in names {
      if r[i].item != term {
        var j :| 0 <= j < |ts| && ts[j].item == r[i].item;
      }
    }
  }

  ghost predicate TermsIn(ts: seq<Weighted<Term>>, names: seq<string>) {
    forall i :: 0 <= i < |ts| && ts[i].item.Plain? ==> ts[i].item.name in names
  }

  lemma {:induction false} LinearizeNames(e: Expr, sign: int, acc: Linear, names: seq<string>)
    requires sign == 1 || sign == -1
    requires TermsIn(acc.terms, names) && forall n :: n in ReferencedSymbols(e) ==> n in names
    ensures Linearize(e, sign, acc).Ok? ==> TermsIn(Linearize(e, sign, acc).value.terms, names)
    decreases e
  {
    match e
    case Int(_) =>
    case Unsigned(_) =>
    case Symbol(name) => PushNames(acc.terms, Plain(name), sign, names);
    case GotSymbol(name) => PushNames(acc.terms, Got(name), sign, names);
    case CurrentLocation => PushNames(acc.terms, Location, sign, names);
    case UnaryMinus(x) => LinearizeNames(x, 0 - sign, acc, names);
    case Add(x, y) =>
      LinearizeNames(x, sign, acc, names);
      if Linearize(x, sign, acc).Ok? {
        LinearizeNames(y, sign, Linearize(x, sign, acc).value, names);
      }
    case Sub(x, y) =>
      LinearizeNames(x, sign, acc, names);
      if Linearize(x, sign, acc).Ok? {
        LinearizeNames(y, 0 - sign, Linearize(x, sign, acc).value, names);
      }
  }

  lemma {:induction false} SplitAgrees(terms: seq<Weighted<Term>>, constant: i64, names: seq<string>, s1: SymbolTable, s2: SymbolTable)
    requires TermsIn(terms, names) && AgreeOn(names, s1, s2)
    ensures Split(terms, constant, s1) == Split(terms, constant, s2)
  {
    if terms != [] {
      SplitAgrees(terms[..|terms| - 1], constant, names, s1, s2);
    }
  }

  lemma ClassifyAgrees(e: Expr, s1: SymbolTable, s2: SymbolTable)
    requires AgreeOn(ReferencedSymbols(e), s1, s2)
    ensures Classify(e, s1) == Classify(e, s2)
  {
    hide Linearize, Split, SumGroups, Finish;
    var names := ReferencedSymbols(e);
    LinearizeNames(e, 1, Linear(0, []), names);
    var r := Linearize(e, 1, Linear(0, []));
    if r.Ok? {
      NonZeroKeeps(r.value.terms);
      SplitAgrees(NonZero(r.value.terms), r.value.constant, names, s1, s2);
    }
  }

  /** The symbol table after running the first k assignments one after the other. */
  function Sequential(p: Problem, k: nat): Option<SymbolTable>
    requires k <= |p.assignments|
  {
    if k == 0 then Some(p.symbols)
    else
      var before := Sequential(p, k - 1);
      if before.None? then None
      else
        var r := Classify(p.assignments[k - 1].value, before.value);
        if r.Ok? && r.value.AbsoluteForm? then Some(before.value[p.assignments[k - 1].name := Absolute(r.value.constant)])
        else if r.Ok? && r.value.UnsignedForm? then
          Some(before.value[p.assignments[k - 1].name := Absolute(WrapI64(r.value.magnitude))])
        else None
  }

  /** No assignment mentions a name that is assigned only at its own position or later. */
  ghost predicate NoForwardReferences(p: Problem) {
    forall i: nat, name :: i < |p.assignments| && name in ReferencedSymbols(p.assignments[i].value) ==>
      var d := DependencyForSymbol(p, name, i);
      d.Assigned? ==> d.target < i
  }

  /** After k sequential steps a name has the value of its last assignment so far, else its own. */
  ghost predicate RunState(p: Problem, results: seq<Outcome>, k: nat, table: SymbolTable)
    requires k <= |p.assignments| == |results|
  {
    forall name :: Lookup(table, name) ==
      var d := DependencyForSymbol(p, name, k);
      if d.Assigned? && d.target < k then
        if results[d.target].Ok? then Absolute(results[d.target].value) else Undefined
      else Lookup(p.symbols, name)
  }

  lemma {:induction false} UniqueKeeps(names: seq<string>)
    ensures forall n :: n in Unique(names) <==> n in names
    ensures forall i, j :: 0 <= i < j < |Unique(names)| ==> Unique(names)[i] != Unique(names)[j]
  {
    if names != [] {
      UniqueKeeps(names[..|names| - 1]);
      assert names == names[..|names| - 1] + [names[|names| - 1]];
    }
  }

  lemma {:induction false} SymbolsLookup(refs: seq<Reference>, known: map<nat, i64>)
    requires forall i, j :: 0 <= i < j < |refs| ==> refs[i].name != refs[j].name
    ensures forall i :: 0 <= i < |refs| ==> Lookup(SymbolsFor(refs, known), refs[i].name) == ReferenceValue(refs[i], known)
  {
    if refs != [] {
      SymbolsLookup(refs[..|refs| - 1], known);
    }
  }

  /** With every reference resolved, the outcome is the local evaluation with the resolved values. */
  lemma LocalDecides(p: Problem, results: seq<Outcome>, i: nat, known: map<nat, i64>, v: i64)
    requires Explained(p, results) && i < |p.assignments| && i !in Targets(p, i)
    requires forall t <- Targets(p, i) :: t in known && results[t] == Ok(known[t])
    ensures results[i] == Ok(v) <==> Local(p, i, known) == Ok(v)
  {
    hide Local, Eval, Blames;
    var refs := References(p, i);
    var states := seq(|results|, k requires 0 <= k < |results| => if k == i then Visiting else Resolved(results[k]));
    forall k | 0 <= k < |states| && states[k].Resolved? ensures JustifiedOutcome(p, k, states[k].outcome) {
      if results[k].Ok? { assert results[k] == Ok(results[k].value); }
    }
    forall q | 0 <= q < |refs| ensures Passed(states, refs[q].dependency) {
      if refs[q].dependency.Assigned? {
        assert refs[q].dependency.target in Targets(p, i);
      }
    }
    FinishedFrame(p, states, Frame(i, |refs|));
    LocalAgrees(p, i, Recorded(states), known);
    var local := Local(p, i, known);
    assert JustifiedOutcome(p, i, local);
    if local.Ok? {
      assert results[i] == Ok(local.value);
    } else if results[i].Ok? {
      assert Evaluates(p, i, results[i].value);
      var d: nat :| Eval(p, i, d) == Some(results[i].value);
      BlamedNeverEvaluates(p, i, local.error, d);
      assert false;
    }
  }

  /** What the sequential run and the resolver show to one expression. */
  lemma SameView(p: Problem, results: seq<Outcome>, i: nat, table: SymbolTable, known: map<nat, i64>)
    requires |results| == |p.assignments| && i < |p.assignments|
    requires NoForwardReferences(p) && RunState(p, results, i, table)
    requires forall t <- Targets(p, i) :: t in known && results[t] == Ok(known[t])
    ensures AgreeOn(ReferencedSymbols(p.assignments[i].value), table, SymbolsFor(References(p, i), known))
  {
    hide Unique, SymbolsFor, ReferencedSymbols;
    var names := ReferencedSymbols(p.assignments[i].value);
    var refs := References(p, i);
    UniqueKeeps(names);
    SymbolsLookup(refs, known);
    forall n | n in names ensures Lookup(table, n) == Lookup(SymbolsFor(refs, known), n) {
      assert n in Unique(names);
      var q :| 0 <= q < |Unique(names)| && Unique(names)[q] == n;
      assert refs[q] == Reference(n, DependencyForSymbol(p, n, i));
      var d := refs[q].dependency;
      if d.Assigned? {
        assert d.target in Targets(p, i);
      }
    }
  }

  lemma RunStateAdvances(p: Problem, results: seq<Outcome>, i: nat, table: SymbolTable, v: i64)
    requires |results| == |p.assignments| && i < |p.assignments| && results[i] == Ok(v)
    requires RunState(p, results, i, table)
    ensures RunState(p, results, i + 1, table[p.assignments[i].name := Absolute(v)])
  {
    hide DependencyForSymbol;
    var table' := table[p.assignments[i].name := Absolute(v)];
    forall name
      ensures Lookup(table', name) ==
              var d := DependencyForSymbol(p, name, i + 1);
              if d.Assigned? && d.target < i + 1 then
                if results[d.target].Ok? then Absolute(results[d.target].value) else Undefined
              else Lookup(p.symbols, name)
    {
      ScopeAdvances(p, name, i);
      if p.assignments[i].name != name {
        NotAtPosition(p, name, i);
      }
    }
  }

  lemma NotAtPosition(p: Problem, name: string, i: nat)
    requires i < |p.assignments| && p.assignments[i].name != name
    ensures DependencyForSymbol(p, name, i) != Assigned(i)
  {
    IndicesExact(p.assignments, name);
  }

  /** Targets of an assignment without forward references come earlier. */
  lemma TargetsEarlier(p: Problem, i: nat)
    requires NoForwardReferences(p) && i < |p.assignments|
    ensures forall t <- Targets(p, i) :: t < i
  {
    var refs := References(p, i);
    UniqueKeeps(ReferencedSymbols(p.assignments[i].value));
    forall t <- Targets(p, i) ensures t < i {
      var q :| 0 <= q < |refs| && refs[q].dependency == Assigned(t);
      assert refs[q].name in ReferencedSymbols(p.assignments[i].value);
    }
  }

  /** The resolver agrees with running the list in order, when no assignment refers forward. */
  lemma {:induction false} SequentialRun(p: Problem, results: seq<Outcome>, k: nat)
    requires Explained(p, results) && NoForwardReferences(p) && k <= |p.assignments|
    ensures (forall j :: 0 <= j < k ==> results[j].Ok?) ==>
              Sequential(p, k).Some? && RunState(p, results, k, Sequential(p, k).value)
    ensures (exists j :: 0 <= j < k && results[j].Err?) ==> Sequential(p, k) == None
  {
    hide Explained, NoForwardReferences, DependencyForSymbol, Classify, RunState;
    assert |results| == |p.assignments| by { ExplainedLength(p, results); }
    if k == 0 {
      RunStarts(p, results);
    } else {
      SequentialRun(p, results, k - 1);
      if forall j :: 0 <= j < k - 1 ==> results[j].Ok? {
        SequentialStep(p, results, k - 1, Sequential(p, k - 1).value);
      } else {
        var j :| 0 <= j < k - 1 && results[j].Err?;
      }
    }
  }

  lemma ExplainedLength(p: Problem, results: seq<Outcome>)
    requires Explained(p, results)
    ensures |results| == |p.assignments|
  {
  }

  lemma RunStarts(p: Problem, results: seq<Outcome>)
    requires |results| == |p.assignments|
    ensures RunState(p, results, 0, p.symbols)
  {
  }

  lemma SequentialStep(p: Problem, results: seq<Outcome>, i: nat, table: SymbolTable)
    requires Explained(p, results) && NoForwardReferences(p) && i < |p.assignments| == |results|
    requires Sequential(p, i) == Some(table) && RunState(p, results, i, table)
    requires forall j :: 0 <= j < i ==> results[j].Ok?
    ensures results[i].Ok? ==> Sequential(p, i + 1).Some? && RunState(p, results, i + 1, Sequential(p, i + 1).value)
    ensures results[i].Err? ==> Sequential(p, i + 1) == None
  {
    hide Explained, NoForwardReferences, DependencyForSymbol, Classify, RunState, References, CanResolveWithLabels;
    TargetsEarlier(p, i);
    var known := map t | t in Targets(p, i) :: results[t].value;
    SameView(p, results, i, table, known);
    ClassifyAgrees(p.assignments[i].value, table, SymbolsFor(References(p, i), known));
    var local := Local(p, i, known);
    if local.Ok? {
      LocalDecides(p, results, i, known, local.value);
      RunStateAdvances(p, results, i, table, local.value);
    } else if results[i].Ok? {
      LocalDecides(p, results, i, known, results[i].value);
      assert false;
    }
  }
}
