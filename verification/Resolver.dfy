/**
  Resolution of `.set` assignments (src/expr.rs). A depth-first search with an explicit stack and
  Unvisited / Visiting / Resolved states replaces the recursion; it is proved to agree with plain
  recursive evaluation, and every error it reports is traced to its cause.
 */
module Resolver {
  import opened Words
  import opened Expr

  datatype Assignment = Assignment(name: string, value: Expr)

  datatype Problem = Problem(assignments: seq<Assignment>, symbols: SymbolTable)

  datatype Dependency = Assigned(target: nat) | External(value: SymbolValue) | Missing

  datatype Reference = Reference(name: string, dependency: Dependency)

  datatype AssignmentError =
    | UndefinedSymbol(assignment: nat, owner: string, symbol: string)
    | CyclicDefinition(assignment: nat, symbol: string)
    | NonAbsolute(assignment: nat, symbol: string)
    | InvalidExpression(assignment: nat, owner: string, error: ClassifyError)

  type Outcome = Result<i64, AssignmentError>

  datatype State = Unvisited | Visiting | Resolved(outcome: Outcome)

  datatype Frame = Frame(index: nat, next: nat)

  // ---- which assignment a reference means ---------------------------------------

  function ReferencedSymbols(e: Expr): seq<string> {
    match e
    case Symbol(name) => [name]
    case GotSymbol(name) => [name]
    case UnaryMinus(x) => ReferencedSymbols(x)
    case Add(x, y) => ReferencedSymbols(x) + ReferencedSymbols(y)
    case Sub(x, y) => ReferencedSymbols(x) + ReferencedSymbols(y)
    case _ => []
  }

  /** First occurrences, in order. */
  function Unique(names: seq<string>): seq<string> {
    if names == [] then []
    else
      var last := |names| - 1;
      var before := Unique(names[..last]);
      if names[last] in before then before else before + [names[last]]
  }

  /** The indices at which a name is assigned, in order. */
  function IndicesOf(assignments: seq<Assignment>, name: string): (r: seq<nat>)
    ensures forall k :: 0 <= k < |r| ==> r[k] < |assignments|
  {
    if assignments == [] then []
    else
      var last: nat := |assignments| - 1;
      IndicesOf(assignments[..last], name) + if assignments[last].name == name then [last] else []
  }

  ghost predicate PositionsFor(positions: map<string, seq<nat>>, assignments: seq<Assignment>) {
    forall name: string :: (if name in positions then positions[name] else []) == IndicesOf(assignments, name)
  }

  lemma PositionsGrow(positions: map<string, seq<nat>>, assignments: seq<Assignment>, i: nat, indices: seq<nat>)
    requires i < |assignments| && PositionsFor(positions, assignments[..i])
    requires indices == IndicesOf(assignments[..i], assignments[i].name) + [i]
    ensures PositionsFor(positions[assignments[i].name := indices], assignments[..i + 1])
  {
    var positions' := positions[assignments[i].name := indices];
    assert assignments[..i + 1][..i] == assignments[..i];
    forall name: string ensures (if name in positions' then positions'[name] else []) == IndicesOf(assignments[..i + 1], name) {
      assert (if name in positions then positions[name] else []) == IndicesOf(assignments[..i], name);
    }
  }

  method BuildPositions(assignments: seq<Assignment>) returns (positions: map<string, seq<nat>>)
    ensures PositionsFor(positions, assignments)
  {
    hide PositionsFor;
    positions := map[];
    assert PositionsFor(positions, assignments[..0]) by { NoPositions(); }
    var i := 0;
    while i < |assignments|
      invariant 0 <= i <= |assignments|
      invariant PositionsFor(positions, assignments[..i])
    {
      var name := assignments[i].name;
      var before := if name in positions then positions[name] else [];
      PositionOf(positions, assignments[..i], name);
      PositionsGrow(positions, assignments, i, before + [i]);
      positions := positions[name := before + [i]];
      i := i + 1;
    }
    assert assignments[..i] == assignments;
  }

  lemma NoPositions()
    ensures PositionsFor(map[], [])
  {
  }

  lemma PositionOf(positions: map<string, seq<nat>>, assignments: seq<Assignment>, name: string)
    requires PositionsFor(positions, assignments)
    ensures IndicesOf(assignments, name) == if name in positions then positions[name] else []
  {
  }

  /** How many leading indices are below the bound. */
  function PartitionPoint(indices: seq<nat>, bound: nat): (count: nat)
    ensures count <= |indices|
  {
    if indices == [] || indices[0] >= bound then 0 else 1 + PartitionPoint(indices[1..], bound)
  }

  function Choose(indices: seq<nat>, index: nat, symbols: SymbolTable, name: string): Dependency {
    if indices != [] then
      var prior := PartitionPoint(indices, index);
      Assigned(if prior > 0 then indices[prior - 1] else indices[0])
    else if name in symbols then External(symbols[name])
    else Missing
  }

  function DependencyForSymbol(p: Problem, name: string, index: nat): (d: Dependency)
    ensures d.Assigned? ==> d.target < |p.assignments|
  {
    Choose(IndicesOf(p.assignments, name), index, p.symbols, name)
  }

  function References(p: Problem, index: nat): (refs: seq<Reference>)
    requires index < |p.assignments|
    ensures forall k :: 0 <= k < |refs| && refs[k].dependency.Assigned? ==> refs[k].dependency.target < |p.assignments|
  {
    var names := Unique(ReferencedSymbols(p.assignments[index].value));
    seq(|names|, k requires 0 <= k < |names| => Reference(names[k], DependencyForSymbol(p, names[k], index)))
  }

  predicate Assigns(p: Problem, name: string, j: nat) {
    j < |p.assignments| && p.assignments[j].name == name
  }

  ghost predicate ExactIndices(assignments: seq<Assignment>, name: string, r: seq<nat>) {
    && (forall k :: 0 <= k < |r| ==> r[k] < |assignments| && assignments[r[k]].name == name)
    && (forall j, k :: 0 <= j < k < |r| ==> r[j] < r[k])
    && (forall i :: 0 <= i < |assignments| && assignments[i].name == name ==> i in r)
  }

  lemma {:induction false} IndicesExact(assignments: seq<Assignment>, name: string)
    ensures ExactIndices(assignments, name, IndicesOf(assignments, name))
  {
    if assignments != [] {
      var last := |assignments| - 1;
      IndicesExact(assignments[..last], name);
      ExactAppend(assignments, name, IndicesOf(assignments[..last], name), IndicesOf(assignments, name));
    }
  }

  lemma ExactAppend(assignments: seq<Assignment>, name: string, before: seq<nat>, r: seq<nat>)
    requires assignments != []
    requires var last: nat := |assignments| - 1;
             && ExactIndices(assignments[..last], name, before)
             && r == before + if assignments[last].name == name then [last] else []
    ensures ExactIndices(assignments, name, r)
  {
    var last := |assignments| - 1;
    forall k | 0 <= k < |r| ensures r[k] < |assignments| && assignments[r[k]].name == name {
      if k < |before| {
        assert r[k] == before[k];
        assert assignments[..last][before[k]].name == name;
      }
    }
    forall i | 0 <= i < |assignments| && assignments[i].name == name ensures i in r {
      if i < last {
        assert assignments[..last][i].name == name;
        assert i in before;
      } else {
        assert r[|r| - 1] == i;
      }
    }
  }

  lemma {:induction false} PartitionExact(indices: seq<nat>, bound: nat)
    requires forall j, k :: 0 <= j < k < |indices| ==> indices[j] < indices[k]
    ensures forall k :: 0 <= k < |indices| ==> (indices[k] < bound <==> k < PartitionPoint(indices, bound))
  {
    if indices != [] && indices[0] < bound {
      PartitionExact(indices[1..], bound);
      forall k | 0 <= k < |indices| ensures indices[k] < bound <==> k < PartitionPoint(indices, bound) {
        if k > 0 { assert indices[1..][k - 1] == indices[k]; }
      }
    }
  }

  lemma IndexAssigns(p: Problem, name: string, k: nat)
    requires k < |IndicesOf(p.assignments, name)|
    ensures Assigns(p, name, IndicesOf(p.assignments, name)[k])
  {
    IndicesExact(p.assignments, name);
    assert p.assignments[IndicesOf(p.assignments, name)[k]].name == name;
  }

  /** The last index below the bound is the largest one there. */
  lemma LastBelow(r: seq<nat>, bound: nat, n: nat, i: nat)
    requires forall j, k :: 0 <= j < k < |r| ==> r[j] < r[k]
    requires n <= |r| && forall k :: 0 <= k < |r| ==> (r[k] < bound <==> k < n)
    requires i in r && i < bound
    ensures 0 < n && i <= r[n - 1] < bound
  {
    var k :| 0 <= k < |r| && r[k] == i;
    assert k < n;
  }

  lemma PriorDefinition(p: Problem, name: string, index: nat, i: nat)
    requires i < index && Assigns(p, name, i)
    ensures var d := DependencyForSymbol(p, name, index);
            && d.Assigned? && d.target < index && Assigns(p, name, d.target)
            && forall j: nat :: d.target < j < index ==> !Assigns(p, name, j)
  {
    hide IndicesOf, PartitionPoint;
    var r := IndicesOf(p.assignments, name);
    IndicesExact(p.assignments, name);
    PartitionExact(r, index);
    var prior := PartitionPoint(r, index);
    assert i in r;
    LastBelow(r, index, prior, i);
    IndexAssigns(p, name, prior - 1);
    forall j: nat | r[prior - 1] < j < index ensures !Assigns(p, name, j) {
      if j in r {
        LastBelow(r, index, prior, j);
      }
    }
  }

  lemma LaterDefinition(p: Problem, name: string, index: nat, i: nat)
    requires Assigns(p, name, i) && forall j: nat :: j < index ==> !Assigns(p, name, j)
    ensures var d := DependencyForSymbol(p, name, index);
            && d.Assigned? && d.target >= index && Assigns(p, name, d.target)
            && forall j: nat :: j < d.target ==> !Assigns(p, name, j)
  {
    var r := IndicesOf(p.assignments, name);
    IndicesExact(p.assignments, name);
    PartitionExact(r, index);
    assert i in r;
    IndexAssigns(p, name, 0);
    assert PartitionPoint(r, index) == 0;
    assert forall k :: 0 <= k < |r| ==> r[0] <= r[k];
    assert forall j: nat :: Assigns(p, name, j) ==> j in r;
  }

  lemma NoDefinition(p: Problem, name: string, index: nat)
    requires forall j: nat :: !Assigns(p, name, j)
    ensures DependencyForSymbol(p, name, index) == if name in p.symbols then External(p.symbols[name]) else Missing
  {
    var r := IndicesOf(p.assignments, name);
    IndicesExact(p.assignments, name);
    if r != [] {
      IndexAssigns(p, name, 0);
      assert false;
    }
  }

  /** Scoping: the latest earlier definition, else the first one at or after, else the symbol table. */
  lemma DependencyScope(p: Problem, name: string, index: nat)
    ensures var d := DependencyForSymbol(p, name, index);
            && ((exists j: nat :: j < index && Assigns(p, name, j)) ==>
                  && d.Assigned? && d.target < index && Assigns(p, name, d.target)
                  && forall j: nat :: d.target < j < index ==> !Assigns(p, name, j))
            && ((exists j: nat :: Assigns(p, name, j)) && (forall j: nat :: j < index ==> !Assigns(p, name, j)) ==>
                  && d.Assigned? && d.target >= index && Assigns(p, name, d.target)
                  && forall j: nat :: j < d.target ==> !Assigns(p, name, j))
            && ((forall j: nat :: !Assigns(p, name, j)) ==>
                  d == if name in p.symbols then External(p.symbols[name]) else Missing)
  {
    hide DependencyForSymbol, Assigns;
    if i: nat :| i < index && Assigns(p, name, i) {
      PriorDefinition(p, name, index, i);
    } else if i: nat :| Assigns(p, name, i) {
      LaterDefinition(p, name, index, i);
    } else {
      NoDefinition(p, name, index);
    }
  }

  // ---- recursive evaluation ----------------------------------------------------------

  function SymbolsFor(refs: seq<Reference>, known: map<nat, i64>): SymbolTable {
    if refs == [] then map[]
    else
      var last := |refs| - 1;
      SymbolsFor(refs[..last], known)[refs[last].name := ReferenceValue(refs[last], known)]
  }

  function ReferenceValue(r: Reference, known: map<nat, i64>): SymbolValue {
    match r.dependency
    case Assigned(t) => if t in known then Absolute(known[t]) else Undefined
    case External(v) => v
    case Missing => Undefined
  }

  function Unresolved(refs: seq<Reference>): seq<string> {
    if refs == [] then []
    else
      var last := |refs| - 1;
      Unresolved(refs[..last]) + if refs[last].dependency.Missing? then [refs[last].name] else []
  }

  /** Would the expression be absolute if the missing symbols were labels of one section? */
  predicate CanResolveWithLabels(e: Expr, symbols: SymbolTable, unresolved: seq<string>) {
    var r := Classify(e, symbols + map name | name in unresolved :: Defined(U64_MAX, 0));
    r.Ok? && r.value.AbsoluteForm?
  }

  function Judge(index: nat, a: Assignment, symbols: SymbolTable, unresolved: seq<string>): Outcome {
    var r := Classify(a.value, symbols);
    if r.Ok? && r.value.AbsoluteForm? then Ok(r.value.constant)
    else if r.Ok? && r.value.UnsignedForm? then Ok(WrapI64(r.value.magnitude))
    else if r == Err(Overflow) then Err(InvalidExpression(index, a.name, Overflow))
    else if unresolved != [] && CanResolveWithLabels(a.value, symbols, unresolved) then
      Err(UndefinedSymbol(index, a.name, unresolved[0]))
    else if r.Ok? then Err(NonAbsolute(index, a.name))
    else Err(InvalidExpression(index, a.name, r.error))
  }

  /** The value of one assignment when the values of the assignments it refers to are known. */
  function Local(p: Problem, index: nat, known: map<nat, i64>): Outcome
    requires index < |p.assignments|
  {
    var refs := References(p, index);
    Judge(index, p.assignments[index], SymbolsFor(refs, known), Unresolved(refs))
  }

  function Targets(p: Problem, index: nat): (ts: set<nat>)
    requires index < |p.assignments|
    ensures forall t <- ts :: t < |p.assignments|
  {
    var refs := References(p, index);
    set k | 0 <= k < |refs| && refs[k].dependency.Assigned? :: refs[k].dependency.target
  }

  /** Plain recursive evaluation, cut off at the given depth. */
  function Eval(p: Problem, index: nat, depth: nat): Option<i64>
    requires index < |p.assignments|
    decreases depth
  {
    if depth == 0 then None
    else if forall t <- Targets(p, index) :: Eval(p, t, depth - 1).Some? then
      var r := Local(p, index, map t | t in Targets(p, index) :: Eval(p, t, depth - 1).value);
      if r.Ok? then Some(r.value) else None
    else None
  }

  /** Recursive evaluation terminates with the value. */
  ghost predicate Evaluates(p: Problem, index: nat, v: i64)
    requires index < |p.assignments|
  {
    exists depth: nat :: Eval(p, index, depth) == Some(v)
  }

  lemma {:induction false} SymbolsAgree(refs: seq<Reference>, k1: map<nat, i64>, k2: map<nat, i64>)
    requires forall q :: 0 <= q < |refs| && refs[q].dependency.Assigned? ==>
               && refs[q].dependency.target in k1 && refs[q].dependency.target in k2
               && k1[refs[q].dependency.target] == k2[refs[q].dependency.target]
    ensures SymbolsFor(refs, k1) == SymbolsFor(refs, k2)
  {
    if refs != [] {
      SymbolsAgree(refs[..|refs| - 1], k1, k2);
    }
  }

  lemma LocalAgrees(p: Problem, index: nat, k1: map<nat, i64>, k2: map<nat, i64>)
    requires index < |p.assignments|
    requires forall t <- Targets(p, index) :: t in k1 && t in k2 && k1[t] == k2[t]
    ensures Local(p, index, k1) == Local(p, index, k2)
  {
    var refs := References(p, index);
    forall q | 0 <= q < |refs| && refs[q].dependency.Assigned?
      ensures refs[q].dependency.target in k1 && refs[q].dependency.target in k2
              && k1[refs[q].dependency.target] == k2[refs[q].dependency.target]
    {
      assert refs[q].dependency.target in Targets(p, index);
    }
    SymbolsAgree(refs, k1, k2);
  }

  /** The values of the referenced assignments at a depth. */
  function KnownAt(p: Problem, index: nat, depth: nat): map<nat, i64>
    requires index < |p.assignments|
  {
    map t | t in Targets(p, index) && Eval(p, t, depth).Some? :: Eval(p, t, depth).value
  }

  lemma EvalStep(p: Problem, index: nat, depth: nat)
    requires index < |p.assignments| && Eval(p, index, depth).Some?
    ensures depth > 0 && (forall t <- Targets(p, index) :: Eval(p, t, depth - 1).Some?)
            && Local(p, index, KnownAt(p, index, depth - 1)) == Ok(Eval(p, index, depth).value)
  {
    hide Local, Targets;
    assert forall t <- Targets(p, index) :: Eval(p, t, depth - 1).Some?;
    assert KnownAt(p, index, depth - 1) == map t | t in Targets(p, index) :: Eval(p, t, depth - 1).value;
  }

  lemma EvalFromLocal(p: Problem, index: nat, depth: nat, known: map<nat, i64>)
    requires index < |p.assignments|
    requires forall t <- Targets(p, index) :: t in known && Eval(p, t, depth) == Some(known[t])
    ensures Eval(p, index, depth + 1) == var r := Local(p, index, known); if r.Ok? then Some(r.value) else None
  {
    hide Local, Targets;
    LocalAgrees(p, index, known, KnownAt(p, index, depth));
    if forall t <- Targets(p, index) :: Eval(p, t, depth).Some? {
      assert KnownAt(p, index, depth) == map t | t in Targets(p, index) :: Eval(p, t, depth).value;
    }
  }

  lemma {:induction false} EvalMonotone(p: Problem, index: nat, d: nat, e: nat)
    requires index < |p.assignments| && d <= e && Eval(p, index, d).Some?
    ensures Eval(p, index, e) == Eval(p, index, d)
    decreases d
  {
    hide Local, Targets, Eval;
    EvalStep(p, index, d);
    forall t <- Targets(p, index) ensures Eval(p, t, e - 1) == Eval(p, t, d - 1) {
      EvalMonotone(p, t, d - 1, e - 1);
    }
    EvalFromLocal(p, index, e - 1, KnownAt(p, index, d - 1));
  }

  lemma EvaluatesOnce(p: Problem, index: nat, v: i64, w: i64)
    requires index < |p.assignments| && Evaluates(p, index, v) && Evaluates(p, index, w)
    ensures v == w
  {
    var d: nat :| Eval(p, index, d) == Some(v);
    var e: nat :| Eval(p, index, e) == Some(w);
    EvalMonotone(p, index, Min(d, e), Max(d, e));
  }

  // ---- chains of references -----------------------------------------------------------

  /** A nonempty path of references. */
  ghost predicate Chain(p: Problem, c: seq<nat>) {
    && c != []
    && (forall k :: 0 <= k < |c| ==> c[k] < |p.assignments|)
    && (forall k :: 0 <= k < |c| - 1 ==> c[k + 1] in Targets(p, c[k]))
  }

  ghost predicate OnCycle(p: Problem, index: nat) {
    exists c: seq<nat> :: Chain(p, c) && |c| >= 2 && c[0] == index && c[|c| - 1] == index
  }

  lemma ChainHead(p: Problem, c: seq<nat>)
    requires Chain(p, c)
    ensures c != [] && c[0] < |p.assignments| && c[|c| - 1] < |p.assignments|
  {
  }

  lemma ChainTail(p: Problem, c: seq<nat>)
    requires Chain(p, c) && |c| > 1
    ensures c[0] < |p.assignments| && Chain(p, c[1..]) && c[1] in Targets(p, c[0])
  {
    hide Targets;
    assert c[0 + 1] in Targets(p, c[0]);
    forall k | 0 <= k < |c[1..]| - 1 ensures c[1..][k + 1] in Targets(p, c[1..][k]) {
      assert c[(k + 1) + 1] in Targets(p, c[k + 1]);
    }
  }

  /** Evaluation of the head of a chain evaluates the end of the chain at a smaller depth. */
  lemma {:induction false} EvalAlong(p: Problem, c: seq<nat>, depth: nat)
    requires Chain(p, c) && Eval(p, c[0], depth).Some?
    ensures |c| <= depth && Eval(p, c[|c| - 1], depth - (|c| - 1)).Some?
    decreases depth
  {
    hide Targets, Eval, Chain;
    ChainHead(p, c);
    EvalStep(p, c[0], depth);
    if |c| > 1 {
      ChainTail(p, c);
      var rest := c[1..];
      assert rest[0] == c[1] && rest[|rest| - 1] == c[|c| - 1];
      EvalAlong(p, rest, depth - 1);
    }
  }

  lemma {:induction false} CycleNeverEvaluates(p: Problem, index: nat, depth: nat)
    requires index < |p.assignments| && OnCycle(p, index)
    ensures Eval(p, index, depth) == None
    decreases depth
  {
    hide Targets, Eval, Chain;
    if Eval(p, index, depth).Some? {
      var c :| Chain(p, c) && |c| >= 2 && c[0] == index && c[|c| - 1] == index;
      EvalAlong(p, c, depth);
      CycleNeverEvaluates(p, index, depth - (|c| - 1));
    }
  }

  /** Everything reachable from an assignment that evaluates is free of cycles. */
  lemma EvaluatesAcyclic(p: Problem, c: seq<nat>, v: i64)
    requires Chain(p, c) && Evaluates(p, c[0], v)
    ensures !OnCycle(p, c[|c| - 1])
  {
    hide Targets, Eval, OnCycle;
    var d: nat :| Eval(p, c[0], d) == Some(v);
    EvalAlong(p, c, d);
    if OnCycle(p, c[|c| - 1]) {
      CycleNeverEvaluates(p, c[|c| - 1], d - (|c| - 1));
    }
  }

  // ---- why an assignment fails ----------------------------------------------------------

  /** The assignment itself causes the error: it lies on a cycle, or its own expression is at fault. */
  ghost predicate Causes(p: Problem, index: nat, error: AssignmentError)
    requires index < |p.assignments|
  {
    match error
    case CyclicDefinition(a, symbol) => a == index && symbol == p.assignments[index].name && OnCycle(p, index)
    case _ =>
      exists known: map<nat, i64> ::
        && (forall t <- Targets(p, index) :: t in known && Evaluates(p, t, known[t]))
        && Local(p, index, known) == Err(error)
  }

  /** The error is caused by an assignment reachable from this one. */
  ghost predicate Blames(p: Problem, index: nat, error: AssignmentError) {
    exists c: seq<nat> :: Chain(p, c) && c[0] == index && Causes(p, c[|c| - 1], error)
  }

  lemma CauseNeverEvaluates(p: Problem, index: nat, error: AssignmentError, depth: nat)
    requires index < |p.assignments| && Causes(p, index, error)
    ensures Eval(p, index, depth) == None
  {
    hide Local, Targets, Eval, OnCycle;
    if error.CyclicDefinition? {
      CycleNeverEvaluates(p, index, depth);
    } else if Eval(p, index, depth).Some? {
      var known: map<nat, i64> :|
        && (forall t <- Targets(p, index) :: t in known && Evaluates(p, t, known[t]))
        && Local(p, index, known) == Err(error);
      EvalStep(p, index, depth);
      forall t <- Targets(p, index) ensures Eval(p, t, depth - 1).value == known[t] {
        assert Evaluates(p, t, Eval(p, t, depth - 1).value);
        EvaluatesOnce(p, t, Eval(p, t, depth - 1).value, known[t]);
      }
      LocalAgrees(p, index, KnownAt(p, index, depth - 1), known);
    }
  }

  /** An assignment with a blamed error never evaluates, at any depth. */
  lemma BlamedNeverEvaluates(p: Problem, index: nat, error: AssignmentError, depth: nat)
    requires index < |p.assignments| && Blames(p, index, error)
    ensures Eval(p, index, depth) == None
  {
    hide Targets, Eval, Causes;
    if Eval(p, index, depth).Some? {
      var c :| Chain(p, c) && c[0] == index && Causes(p, c[|c| - 1], error);
      EvalAlong(p, c, depth);
      CauseNeverEvaluates(p, c[|c| - 1], error, depth - (|c| - 1));
    }
  }

  // ---- the explicit-stack search ---------------------------------------------------------

  /** Every recorded outcome is justified. */
  ghost predicate Justified(p: Problem, states: seq<State>) {
    && |states| == |p.assignments|
    && forall i :: 0 <= i < |states| && states[i].Resolved? ==> JustifiedOutcome(p, i, states[i].outcome)
  }

  ghost predicate JustifiedOutcome(p: Problem, i: nat, outcome: Outcome)
    requires i < |p.assignments|
  {
    match outcome
    case Ok(v) => Evaluates(p, i, v)
    case Err(e) => Blames(p, i, e)
  }

  predicate Passed(states: seq<State>, d: Dependency) {
    d.Assigned? ==> d.target < |states| && states[d.target].Resolved? && states[d.target].outcome.Ok?
  }

  ghost predicate FirstFailed(states: seq<State>, refs: seq<Reference>, q: nat)
    requires q < |refs|
  {
    !Passed(states, refs[q].dependency) && forall j :: 0 <= j < q ==> Passed(states, refs[j].dependency)
  }

  /** A frame is being visited and has passed its first `next` references. */
  ghost predicate FrameOk(p: Problem, states: seq<State>, f: Frame) {
    && f.index < |p.assignments| == |states|
    && states[f.index] == Visiting
    && f.next <= |References(p, f.index)|
    && forall q :: 0 <= q < f.next ==> Passed(states, References(p, f.index)[q].dependency)
  }

  /** The frame waits for the given assignment. */
  ghost predicate WaitsFor(p: Problem, f: Frame, target: nat) {
    && f.index < |p.assignments|
    && f.next < |References(p, f.index)|
    && References(p, f.index)[f.next].dependency == Assigned(target)
  }

  ghost predicate StackOk(p: Problem, states: seq<State>, stack: seq<Frame>) {
    && (forall k :: 0 <= k < |stack| ==> FrameOk(p, states, stack[k]))
    && (forall j, k :: 0 <= j < k < |stack| ==> stack[j].index != stack[k].index)
    && (forall k :: 0 <= k < |stack| - 1 ==> WaitsFor(p, stack[k], stack[k + 1].index))
    && (forall i :: 0 <= i < |states| && states[i] == Visiting ==> exists k :: 0 <= k < |stack| && stack[k].index == i)
  }

  function UnvisitedSet(states: seq<State>): set<nat> {
    set i: nat | i < |states| && states[i] == Unvisited
  }

  lemma WaitIsTarget(p: Problem, f: Frame, target: nat)
    requires WaitsFor(p, f, target)
    ensures target in Targets(p, f.index)
  {
  }

  lemma PushFrame(p: Problem, states: seq<State>, stack: seq<Frame>, target: nat)
    requires Justified(p, states) && StackOk(p, states, stack)
    requires stack == [] || WaitsFor(p, stack[|stack| - 1], target)
    requires target < |states| && states[target] == Unvisited
    ensures var states' := states[target := Visiting];
            Justified(p, states') && StackOk(p, states', stack + [Frame(target, 0)]) && UnvisitedSet(states') < UnvisitedSet(states)
  {
    hide References, JustifiedOutcome;
    var states', stack' := states[target := Visiting], stack + [Frame(target, 0)];
    forall k | 0 <= k < |stack'| ensures FrameOk(p, states', stack'[k]) {
      if k < |stack| { assert FrameOk(p, states, stack[k]); }
    }
    forall i | 0 <= i < |states'| && states'[i] == Visiting ensures exists k :: 0 <= k < |stack'| && stack'[k].index == i {
      if i == target {
        assert stack'[|stack|].index == i;
      } else {
        var k :| 0 <= k < |stack| && stack[k].index == i;
        assert stack'[k].index == i;
      }
    }
    assert target in UnvisitedSet(states) && target !in UnvisitedSet(states');
  }

  lemma AdvanceFrame(p: Problem, states: seq<State>, stack: seq<Frame>)
    requires StackOk(p, states, stack) && stack != []
    requires var f := stack[|stack| - 1];
             f.next < |References(p, f.index)| && Passed(states, References(p, f.index)[f.next].dependency)
    ensures var f := stack[|stack| - 1];
            StackOk(p, states, stack[|stack| - 1 := f.(next := f.next + 1)])
  {
    hide References, Passed;
    var last := |stack| - 1;
    var f := stack[last];
    var stack' := stack[last := f.(next := f.next + 1)];
    forall k | 0 <= k < |stack'| ensures FrameOk(p, states, stack'[k]) {
      assert FrameOk(p, states, stack[k]);
    }
    forall i | 0 <= i < |states| && states[i] == Visiting ensures exists k :: 0 <= k < |stack'| && stack'[k].index == i {
      var k :| 0 <= k < |stack| && stack[k].index == i;
      assert stack'[k].index == i;
    }
  }

  /** Resolving the top frame and popping it. */
  lemma PopFrame(p: Problem, states: seq<State>, stack: seq<Frame>, outcome: Outcome)
    requires Justified(p, states) && StackOk(p, states, stack) && stack != []
    requires stack[|stack| - 1].index < |p.assignments| && JustifiedOutcome(p, stack[|stack| - 1].index, outcome)
    ensures var states' := states[stack[|stack| - 1].index := Resolved(outcome)];
            Justified(p, states') && StackOk(p, states', stack[..|stack| - 1]) && UnvisitedSet(states') == UnvisitedSet(states)
  {
    hide References, JustifiedOutcome;
    var last := |stack| - 1;
    var top := stack[last].index;
    assert FrameOk(p, states, stack[last]);
    var states', stack' := states[top := Resolved(outcome)], stack[..last];
    forall k | 0 <= k < |stack'| ensures FrameOk(p, states', stack'[k]) {
      assert FrameOk(p, states, stack[k]);
    }
    forall i | 0 <= i < |states'| && states'[i] == Visiting ensures exists k :: 0 <= k < |stack'| && stack'[k].index == i {
      var k :| 0 <= k < |stack| && stack[k].index == i;
      assert stack'[k].index == i;
    }
  }

  /** What the states say about the referenced assignments. */
  function Recorded(states: seq<State>): map<nat, i64> {
    map t: nat | t < |states| && states[t].Resolved? && states[t].outcome.Ok? :: states[t].outcome.value
  }

  ghost predicate EvaluatesAs(p: Problem, t: nat, depth: nat, known: map<nat, i64>) {
    t < |p.assignments| && t in known && Eval(p, t, depth) == Some(known[t])
  }

  /** A depth at which the first references of a finished frame all evaluate. */
  lemma {:induction false} CommonDepth(p: Problem, index: nat, states: seq<State>, upto: nat) returns (depth: nat)
    requires Justified(p, states) && index < |p.assignments| && upto <= |References(p, index)|
    requires forall q :: 0 <= q < upto ==> Passed(states, References(p, index)[q].dependency)
    ensures forall q :: 0 <= q < upto && References(p, index)[q].dependency.Assigned? ==>
              EvaluatesAs(p, References(p, index)[q].dependency.target, depth, Recorded(states))
  {
    hide References, Eval;
    if upto == 0 {
      depth := 0;
    } else {
      var before := CommonDepth(p, index, states, upto - 1);
      var dep := References(p, index)[upto - 1].dependency;
      if dep.Assigned? {
        assert Passed(states, dep);
        assert JustifiedOutcome(p, dep.target, states[dep.target].outcome);
        var own: nat :| Eval(p, dep.target, own) == Some(states[dep.target].outcome.value);
        depth := Max(before, own);
        EvalMonotone(p, dep.target, own, depth);
      } else {
        depth := before;
      }
      forall q | 0 <= q < upto - 1 && References(p, index)[q].dependency.Assigned?
        ensures EvaluatesAs(p, References(p, index)[q].dependency.target, depth, Recorded(states))
      {
        EvalMonotone(p, References(p, index)[q].dependency.target, before, depth);
      }
    }
  }

  /** Evaluating a frame whose references are all resolved gives a justified outcome. */
  lemma FinishedFrame(p: Problem, states: seq<State>, f: Frame)
    requires Justified(p, states) && FrameOk(p, states, f) && f.next == |References(p, f.index)|
    ensures JustifiedOutcome(p, f.index, Local(p, f.index, Recorded(states)))
  {
    hide Local, Eval;
    var known := Recorded(states);
    var depth := CommonDepth(p, f.index, states, f.next);
    forall t <- Targets(p, f.index) ensures t in known && Eval(p, t, depth) == Some(known[t]) {
      var q :| 0 <= q < f.next && References(p, f.index)[q].dependency == Assigned(t);
      assert Passed(states, References(p, f.index)[q].dependency);
    }
    EvalFromLocal(p, f.index, depth, known);
    var outcome := Local(p, f.index, known);
    if outcome.Err? {
      forall t <- Targets(p, f.index) ensures t in known && Evaluates(p, t, known[t]) {}
      LocalErrorKind(p, f.index, known);
      assert Causes(p, f.index, outcome.error);
      assert Chain(p, [f.index]);
    } else {
      assert Eval(p, f.index, depth + 1) == Some(outcome.value);
    }
  }

  lemma LocalErrorKind(p: Problem, index: nat, known: map<nat, i64>)
    requires index < |p.assignments| && Local(p, index, known).Err?
    ensures !Local(p, index, known).error.CyclicDefinition?
  {
    hide References;
  }

  /** A failed reference passes its blame on. */
  lemma BlamePropagates(p: Problem, f: Frame, target: nat, error: AssignmentError)
    requires WaitsFor(p, f, target) && Blames(p, target, error)
    ensures Blames(p, f.index, error)
  {
    hide Causes, References;
    var c :| Chain(p, c) && c[0] == target && Causes(p, c[|c| - 1], error);
    WaitIsTarget(p, f, target);
    var longer := [f.index] + c;
    forall k | 0 <= k < |longer| - 1 ensures longer[k + 1] in Targets(p, longer[k]) {
      if k > 0 { assert c[(k - 1) + 1] in Targets(p, c[k - 1]); }
    }
    assert Chain(p, longer) && longer[|longer| - 1] == c[|c| - 1];
  }

  /** The indices of the frames from k on, followed by the assignment the top waits for. */
  function StackChain(stack: seq<Frame>, k: nat, target: nat): (c: seq<nat>)
    requires k <= |stack|
    ensures |c| == |stack| - k + 1
    ensures forall q :: 0 <= q < |stack| - k ==> c[q] == stack[k + q].index
    ensures c[|stack| - k] == target
  {
    var frames := seq<nat>(|stack| - k, q requires 0 <= q < |stack| - k => stack[k + q].index);
    var end: seq<nat> := [target];
    frames + end
  }

  lemma StackIsChain(p: Problem, states: seq<State>, stack: seq<Frame>, k: nat, target: nat)
    requires StackOk(p, states, stack) && k < |stack| && target < |p.assignments|
    requires WaitsFor(p, stack[|stack| - 1], target)
    ensures Chain(p, StackChain(stack, k, target))
  {
    hide References, Targets;
    var c := StackChain(stack, k, target);
    forall q | 0 <= q < |c| ensures c[q] < |p.assignments| {
      if q < |c| - 1 { assert FrameOk(p, states, stack[k + q]); }
    }
    forall q | 0 <= q < |c| - 1 ensures c[q + 1] in Targets(p, c[q]) {
      if k + q + 1 < |stack| {
        assert WaitsFor(p, stack[k + q], stack[(k + q) + 1].index);
        assert c[q + 1] == stack[k + (q + 1)].index;
      }
      WaitIsTarget(p, stack[k + q], c[q + 1]);
    }
  }

  /** A reference to an assignment being visited closes a cycle, and every frame reaches it. */
  lemma CycleBlamed(p: Problem, states: seq<State>, stack: seq<Frame>, target: nat, k: nat)
    requires StackOk(p, states, stack) && k < |stack|
    requires WaitsFor(p, stack[|stack| - 1], target) && target < |p.assignments| && target < |states| && states[target] == Visiting
    ensures Blames(p, stack[k].index, CyclicDefinition(target, p.assignments[target].name))
  {
    hide References, Chain, FrameOk;
    var m :| 0 <= m < |stack| && stack[m].index == target;
    StackIsChain(p, states, stack, m, target);
    var loop := StackChain(stack, m, target);
    assert Chain(p, loop) && |loop| >= 2 && loop[0] == target && loop[|loop| - 1] == target;
    assert OnCycle(p, target);
    StackIsChain(p, states, stack, k, target);
    var c := StackChain(stack, k, target);
    assert Chain(p, c) && c[0] == stack[k].index && c[|c| - 1] == target;
    assert Causes(p, target, CyclicDefinition(target, p.assignments[target].name));
  }

  /** Every frame of the stack is resolved to the same error. */
  lemma DrainOk(p: Problem, states: seq<State>, stack: seq<Frame>, states': seq<State>, error: AssignmentError)
    requires Justified(p, states) && StackOk(p, states, stack) && |states'| == |states|
    requires forall k :: 0 <= k < |stack| ==> Blames(p, stack[k].index, error)
    requires forall i :: 0 <= i < |states| ==>
               states'[i] == if exists k :: 0 <= k < |stack| && stack[k].index == i then Resolved(Err(error)) else states[i]
    ensures Justified(p, states') && StackOk(p, states', []) && UnvisitedSet(states') == UnvisitedSet(states)
  {
    hide FrameOk, WaitsFor, Blames;
    forall i | 0 <= i < |states'| && states'[i].Resolved? ensures JustifiedOutcome(p, i, states'[i].outcome) {
      if exists k :: 0 <= k < |stack| && stack[k].index == i {
        var k :| 0 <= k < |stack| && stack[k].index == i;
        assert Blames(p, stack[k].index, error);
      }
    }
    forall i | 0 <= i < |states'| ensures states'[i] != Visiting && (states'[i] == Unvisited <==> states[i] == Unvisited) {
      if exists k :: 0 <= k < |stack| && stack[k].index == i {
        var k :| 0 <= k < |stack| && stack[k].index == i;
        assert states[i] == Visiting by { FrameVisiting(p, states, stack[k]); }
      }
    }
  }

  lemma FrameVisiting(p: Problem, states: seq<State>, f: Frame)
    requires FrameOk(p, states, f)
    ensures f.index < |states| == |p.assignments| && states[f.index] == Visiting
  {
  }

  lemma {:induction false} SymbolsSoFar(refs: seq<Reference>, known: map<nat, i64>, k: nat)
    requires k < |refs|
    ensures SymbolsFor(refs[..k + 1], known) == SymbolsFor(refs[..k], known)[refs[k].name := ReferenceValue(refs[k], known)]
    ensures Unresolved(refs[..k + 1]) == Unresolved(refs[..k]) + if refs[k].dependency.Missing? then [refs[k].name] else []
  {
    assert refs[..k + 1][..k] == refs[..k];
  }

  /** How many references the top frame has yet to pass. */
  function Work(p: Problem, stack: seq<Frame>): nat {
    if stack == [] || stack[|stack| - 1].index >= |p.assignments| then 0
    else Max(0, |References(p, stack[|stack| - 1].index)| - stack[|stack| - 1].next)
  }

  ghost predicate Progress(p: Problem, states: seq<State>, stack: seq<Frame>, states': seq<State>, stack': seq<Frame>) {
    && |states'| == |states|
    && (forall i :: 0 <= i < |states| && states[i] != Unvisited ==> states'[i] != Unvisited)
    && (forall i :: 0 <= i < |states| && states[i].Resolved? ==> states'[i].Resolved?)
    && (UnvisitedSet(states') < UnvisitedSet(states)
        || (UnvisitedSet(states') == UnvisitedSet(states)
            && (|stack'| < |stack| || (|stack'| == |stack| && Work(p, stack') < Work(p, stack)))))
  }

  lemma NothingVisiting(p: Problem, states: seq<State>)
    requires StackOk(p, states, [])
    ensures Visiting !in states
  {
  }

  lemma TopFrame(p: Problem, states: seq<State>, stack: seq<Frame>)
    requires StackOk(p, states, stack) && stack != []
    ensures FrameOk(p, states, stack[|stack| - 1])
  {
  }

  lemma StackInRange(p: Problem, states: seq<State>, stack: seq<Frame>)
    requires StackOk(p, states, stack)
    ensures forall k :: 0 <= k < |stack| ==> stack[k].index < |states| && states[stack[k].index] == Visiting
  {
    forall k | 0 <= k < |stack| ensures stack[k].index < |states| && states[stack[k].index] == Visiting {
      FrameVisiting(p, states, stack[k]);
    }
  }

  lemma FrameResolved(p: Problem, states: seq<State>, f: Frame)
    requires FrameOk(p, states, f) && f.next == |References(p, f.index)|
    ensures forall q :: 0 <= q < |References(p, f.index)| ==> Passed(states, References(p, f.index)[q].dependency)
    ensures forall q :: 0 <= q < |References(p, f.index)| && References(p, f.index)[q].dependency.Assigned? ==>
              states[References(p, f.index)[q].dependency.target].Resolved?
  {
    hide References;
    forall q | 0 <= q < |References(p, f.index)| && References(p, f.index)[q].dependency.Assigned?
      ensures states[References(p, f.index)[q].dependency.target].Resolved?
    {
      assert Passed(states, References(p, f.index)[q].dependency);
    }
  }

  lemma PassBlame(p: Problem, states: seq<State>, f: Frame, target: nat)
    requires Justified(p, states) && WaitsFor(p, f, target) && target < |states|
    requires states[target].Resolved? && states[target].outcome.Err?
    ensures JustifiedOutcome(p, f.index, states[target].outcome)
  {
    hide References, Blames;
    assert JustifiedOutcome(p, target, states[target].outcome);
    BlamePropagates(p, f, target, states[target].outcome.error);
  }

  lemma FailsFirst(states: seq<State>, refs: seq<Reference>, k: nat)
    requires k < |refs| && !Passed(states, refs[k].dependency) && forall j :: 0 <= j < k ==> Passed(states, refs[j].dependency)
    ensures forall q :: 0 <= q < |refs| && FirstFailed(states, refs, q) ==> q == k
  {
  }

  lemma NoneFailed(states: seq<State>, refs: seq<Reference>)
    requires forall j :: 0 <= j < |refs| ==> Passed(states, refs[j].dependency)
    ensures forall q :: 0 <= q < |refs| ==> !FirstFailed(states, refs, q)
  {
  }

  lemma NoSymbols(known: map<nat, i64>)
    ensures SymbolsFor([], known) == map[] && Unresolved([]) == []
  {
  }

  lemma RecordedHere(states: seq<State>, t: nat)
    requires t < |states| && states[t].Resolved? && states[t].outcome.Ok?
    ensures t in Recorded(states) && Recorded(states)[t] == states[t].outcome.value
  {
  }

  class AssignmentResolver {
    const p: Problem
    const dependencies: seq<seq<Reference>>
    var states: seq<State>

    ghost predicate Valid()
      reads this`states
    {
      && |dependencies| == |p.assignments| == |states|
      && (forall i :: 0 <= i < |dependencies| ==> dependencies[i] == References(p, i))
    }

    constructor (p: Problem, dependencies: seq<seq<Reference>>)
      requires |dependencies| == |p.assignments|
      requires forall i :: 0 <= i < |dependencies| ==> dependencies[i] == References(p, i)
      ensures Valid() && this.p == p && states == seq(|p.assignments|, _ => Unvisited)
    {
      this.p := p;
      this.dependencies := dependencies;
      states := seq(|p.assignments|, _ => Unvisited);
    }

    /** The outcome of the first failed reference in order, if any; otherwise that of the expression. */
    method EvaluateAssignment(index: nat) returns (r: Outcome)
      requires Valid() && index < |p.assignments|
      requires forall q :: 0 <= q < |References(p, index)| && References(p, index)[q].dependency.Assigned? ==>
                 states[References(p, index)[q].dependency.target].Resolved?
      ensures (forall q :: 0 <= q < |References(p, index)| ==> Passed(states, References(p, index)[q].dependency)) ==>
                r == Local(p, index, Recorded(states))
      ensures forall q :: 0 <= q < |References(p, index)| && FirstFailed(states, References(p, index), q) ==>
                r == states[References(p, index)[q].dependency.target].outcome
    {
      hide References, Judge, SymbolsFor, Unresolved, Recorded, FirstFailed;
      var refs := dependencies[index];
      NoSymbols(Recorded(states));
      var symbols: SymbolTable := map[];
      var unresolved: seq<string> := [];
      var k := 0;
      while k < |refs|
        invariant 0 <= k <= |refs|
        invariant symbols == SymbolsFor(refs[..k], Recorded(states))
        invariant unresolved == Unresolved(refs[..k])
        invariant forall j :: 0 <= j < k ==> Passed(states, refs[j].dependency)
      {
        SymbolsSoFar(refs, Recorded(states), k);
        var value := Undefined;
        match refs[k].dependency {
          case Assigned(target) =>
            if states[target].outcome.Err? {
              FailsFirst(states, refs, k);
              return states[target].outcome;
            }
            RecordedHere(states, target);
            value := Absolute(states[target].outcome.value);
          case External(v) => value := v;
          case Missing => unresolved := unresolved + [refs[k].name];
        }
        symbols := symbols[refs[k].name := value];
        k := k + 1;
      }
      assert refs[..k] == refs;
      NoneFailed(states, refs);
      r := Judge(index, p.assignments[index], symbols, unresolved);
    }

    /** Give every frame of the stack the same error. */
    method Drain(stack: seq<Frame>, error: AssignmentError)
      requires forall k :: 0 <= k < |stack| ==> stack[k].index < |states|
      modifies this`states
      ensures |states| == |old(states)|
      ensures forall i :: 0 <= i < |states| ==>
                states[i] == if exists k :: 0 <= k < |stack| && stack[k].index == i then Resolved(Err(error)) else old(states)[i]
    {
      var n := 0;
      while n < |stack|
        invariant 0 <= n <= |stack| && |states| == |old(states)|
        invariant forall i :: 0 <= i < |states| ==>
                    states[i] == if exists k :: 0 <= k < n && stack[k].index == i then Resolved(Err(error)) else old(states)[i]
      {
        states := states[stack[n].index := Resolved(Err(error))];
        n := n + 1;
      }
    }

    method ResolveAssignment(root: nat)
      requires Valid() && root < |states|
      requires Justified(p, states) && StackOk(p, states, [])
      modifies this`states
      ensures Valid() && Justified(p, states) && StackOk(p, states, [])
      ensures states[root].Resolved?
      ensures forall i :: 0 <= i < |states| && old(states)[i].Resolved? ==> states[i].Resolved?
    {
      hide References, FrameOk, JustifiedOutcome, Local, StackOk, UnvisitedSet;
      NothingVisiting(p, states);
      if states[root] != Unvisited {
        return;
      }
      PushFrame(p, states, [], root);
      states := states[root := Visiting];
      var stack := [Frame(root, 0)];
      assert [] + [Frame(root, 0)] == stack;
      while stack != []
        invariant Valid() && Justified(p, states) && StackOk(p, states, stack)
        invariant states[root] != Unvisited
        invariant forall i :: 0 <= i < |states| && old(states)[i].Resolved? ==> states[i].Resolved?
        decreases UnvisitedSet(states), |stack|, Work(p, stack)
      {
        stack := Step(stack);
      }
      NothingVisiting(p, states);
    }

    /** One round of the search on the top frame. */
    method Step(stack: seq<Frame>) returns (stack': seq<Frame>)
      requires Valid() && Justified(p, states) && StackOk(p, states, stack) && stack != []
      modifies this`states
      ensures Valid() && Justified(p, states) && StackOk(p, states, stack')
      ensures Progress(p, old(states), stack, states, stack')
    {
      hide References, JustifiedOutcome, Local, StackOk, UnvisitedSet, Blames;
      var last := |stack| - 1;
      var frame := stack[last];
      TopFrame(p, states, stack);
      if frame.next == |dependencies[frame.index]| {
        FrameResolved(p, states, frame);
        var outcome := EvaluateAssignment(frame.index);
        FinishedFrame(p, states, frame);
        PopFrame(p, states, stack, outcome);
        states := states[frame.index := Resolved(outcome)];
        return stack[..last];
      }
      var reference := dependencies[frame.index][frame.next];
      match reference.dependency {
        case External(_) =>
          AdvanceFrame(p, states, stack);
          stack' := stack[last := frame.(next := frame.next + 1)];
        case Missing =>
          AdvanceFrame(p, states, stack);
          stack' := stack[last := frame.(next := frame.next + 1)];
        case Assigned(target) =>
          match states[target] {
            case Unvisited =>
              PushFrame(p, states, stack, target);
              states := states[target := Visiting];
              stack' := stack + [Frame(target, 0)];
            case Visiting =>
              var error := CyclicDefinition(target, p.assignments[target].name);
              forall k | 0 <= k < |stack| ensures Blames(p, stack[k].index, error) {
                CycleBlamed(p, states, stack, target, k);
              }
              StackInRange(p, states, stack);
              Drain(stack, error);
              DrainOk(p, old(states), stack, states, error);
              stack' := [];
            case Resolved(outcome) =>
              if outcome.Ok? {
                AdvanceFrame(p, states, stack);
                stack' := stack[last := frame.(next := frame.next + 1)];
              } else {
                PassBlame(p, states, frame, target);
                PopFrame(p, states, stack, outcome);
                states := states[frame.index := Resolved(outcome)];
                stack' := stack[..last];
              }
          }
      }
    }

    /** Every assignment gets an outcome, and each outcome is the one recursive evaluation dictates. */
    method ResolveAll() returns (results: seq<Outcome>)
      requires Valid() && states == seq(|p.assignments|, _ => Unvisited)
      modifies this`states
      ensures Valid() && Explained(p, results)
    {
      hide JustifiedOutcome, FrameOk, References;
      var index := 0;
      while index < |states|
        invariant 0 <= index <= |states| && Valid() && Justified(p, states) && StackOk(p, states, [])
        invariant forall i :: 0 <= i < index ==> states[i].Resolved?
      {
        ResolveAssignment(index);
        index := index + 1;
      }
      results := [];
      index := 0;
      while index < |states|
        invariant 0 <= index == |results| <= |states| && Valid()
        invariant forall i :: 0 <= i < index ==> results[i] == states[i].outcome
      {
        results := results + [states[index].outcome];
        index := index + 1;
      }
      JustifiedExplains(p, states, results);
    }
  }

  /**
    The resolver's contract: an assignment gets the value v exactly when recursive evaluation
    terminates with v, and an error exactly when an assignment it reaches lies on a cycle or fails on its own.
   */
  ghost predicate Explained(p: Problem, results: seq<Outcome>) {
    && |results| == |p.assignments|
    && (forall i, v: i64 :: 0 <= i < |results| ==> (results[i] == Ok(v) <==> Evaluates(p, i, v)))
    && (forall i :: 0 <= i < |results| && results[i].Err? ==> Blames(p, i, results[i].error))
  }

  lemma JustifiedExplains(p: Problem, states: seq<State>, results: seq<Outcome>)
    requires Justified(p, states) && |results| == |states|
    requires forall i :: 0 <= i < |results| ==> states[i].Resolved? && results[i] == states[i].outcome
    ensures Explained(p, results)
  {
    hide Eval, Blames;
    forall i, v: i64 | 0 <= i < |results| ensures results[i] == Ok(v) <==> Evaluates(p, i, v) {
      assert JustifiedOutcome(p, i, states[i].outcome);
      if results[i].Ok? && Evaluates(p, i, v) {
        EvaluatesOnce(p, i, v, results[i].value);
      } else if results[i].Err? && Evaluates(p, i, v) {
        var d: nat :| Eval(p, i, d) == Some(v);
        BlamedNeverEvaluates(p, i, results[i].error, d);
      }
    }
    forall i | 0 <= i < |results| && results[i].Err? ensures Blames(p, i, results[i].error) {
      assert JustifiedOutcome(p, i, states[i].outcome);
    }
  }

  method BuildReferences(p: Problem, positions: map<string, seq<nat>>, index: nat) returns (refs: seq<Reference>)
    requires index < |p.assignments| && PositionsFor(positions, p.assignments)
    ensures refs == References(p, index)
  {
    hide PositionsFor, IndicesOf, Choose, Unique, ReferencedSymbols;
    var names := Unique(ReferencedSymbols(p.assignments[index].value));
    refs := [];
    var k := 0;
    while k < |names|
      invariant 0 <= k == |refs| <= |names|
      invariant forall q :: 0 <= q < k ==> refs[q] == Reference(names[q], DependencyForSymbol(p, names[q], index))
    {
      var indices := if names[k] in positions then positions[names[k]] else [];
      PositionOf(positions, p.assignments, names[k]);
      refs := refs + [Reference(names[k], Choose(indices, index, p.symbols, names[k]))];
      k := k + 1;
    }
    assert refs == References(p, index);
  }

  method ResolveAbsoluteAssignments(p: Problem) returns (results: seq<Outcome>)
    ensures Explained(p, results)
  {
    hide Explained, References;
    var positions := BuildPositions(p.assignments);
    var dependencies: seq<seq<Reference>> := [];
    var i := 0;
    while i < |p.assignments|
      invariant 0 <= i == |dependencies| <= |p.assignments|
      invariant forall k :: 0 <= k < i ==> dependencies[k] == References(p, k)
    {
      var refs := BuildReferences(p, positions, i);
      dependencies := dependencies + [refs];
      i := i + 1;
    }
    var resolver := new AssignmentResolver(p, dependencies);
    results := resolver.ResolveAll();
  }

  /** A resolved value is the value of the expression, whatever link time decides, read as an `i64`. */
  lemma ResolvedMeaning(p: Problem, index: nat, v: i64, env: Environment) returns (known: map<nat, i64>)
    requires index < |p.assignments| && Evaluates(p, index, v)
    ensures forall t <- Targets(p, index) :: t in known && Evaluates(p, t, known[t])
    ensures v == WrapI64(Value(p.assignments[index].value, SymbolsFor(References(p, index), known), env))
  {
    hide Eval, Targets, References, Classify;
    var d: nat :| Eval(p, index, d) == Some(v);
    EvalStep(p, index, d);
    known := KnownAt(p, index, d - 1);
    forall t <- Targets(p, index) ensures t in known && Evaluates(p, t, known[t]) {
      assert Eval(p, t, d - 1) == Some(known[t]);
    }
    var symbols := SymbolsFor(References(p, index), known);
    ClassifyMeaning(p.assignments[index].value, symbols, env);
    WrapFits(v);
  }

  lemma WrapFits(v: i64)
    ensures WrapI64(v) == v
  {
    assert IsI64(v);
    var m := 0x1_0000_0000_0000_0000;
    if v >= 0 {
      DivModUnique(v, m, 0, v);
    } else {
      DivModUnique(v, m, -1, v + m);
    }
  }
}
