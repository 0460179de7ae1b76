/**
  A data field that is read too late (src/assemble.rs): a four-byte field with a GOT form is classified
  again when it is patched, under the values at the end of the run instead of those of its place.
 */
module MachoLate {
  import opened Words
  import opened Sorting
  import opened Expr
  import opened SectionBases
  import opened Layout
  import opened LayoutRun
  import opened Assembler
  import opened MachoData
  import MachoRelocs
  import Resolver
  import SetScope

  // ---- a condition on the `.set` directives ---------------------------------------------------------

  /** No `.set` behind statement k gives a name that the element mentions another value than it has there. */
  ghost predicate NamesKept(stmts: seq<Stmt>, p: Resolver.Problem, aliases: seq<Option<string>>, values: seq<i64>,
                            initial: map<string, i64>, k: nat, e: Expr)
    requires k <= |stmts| && |SetList(stmts)| == |values| == |p.assignments| == |aliases|
  {
    SetsFewer(stmts, k);
    var n := |SetList(stmts[..k])|;
    forall name :: name in Resolver.ReferencedSymbols(e) ==>
      SetScope.KeepsValue(p, aliases, values, SetScope.CurrentAt(p, aliases, values, initial, n), name, n)
  }

  /** Then the element's expression means the same at its place and at the end. */
  lemma KeptNamesAgree(stmts: seq<Stmt>, p: Resolver.Problem, aliases: seq<Option<string>>, values: seq<i64>,
                       initial: map<string, i64>, labels: map<string, (nat, u64)>, k: nat, e: Expr)
    requires k < |stmts| && |SetList(stmts)| == |values| == |p.assignments| == |aliases|
    requires NamesKept(stmts, p, aliases, values, initial, k, e)
    ensures SetScope.AgreeOn(Resolver.ReferencedSymbols(e), TablesUnder(stmts, p, aliases, values, initial, labels)[k],
                             TableAtEnd(stmts, p, aliases, values, initial, labels))
  {
    hide SetScope.CurrentAt, SetScope.KeepsValue, TableOf;
    SetsFewer(stmts, k);
    var n, m := |SetList(stmts[..k])|, |SetList(stmts)|;
    forall name | name in Resolver.ReferencedSymbols(e)
      ensures Lookup(TablesUnder(stmts, p, aliases, values, initial, labels)[k], name)
              == Lookup(TableAtEnd(stmts, p, aliases, values, initial, labels), name)
    {
      SetScope.ValueKept(p, aliases, values, initial, name, n, m);
    }
  }

  lemma SameForm(e: Expr, here: SymbolTable, final: SymbolTable)
    requires Classify(e, here) == Classify(e, final)
    ensures AddendKept(e, here, final)
  {
    hide Classify;
  }

  ghost predicate AllNamesKept(stmts: seq<Stmt>, reached: Places, p: Resolver.Problem, aliases: seq<Option<string>>, values: seq<i64>,
                               initial: map<string, i64>, x: nat)
    requires |SetList(stmts)| == |values| == |p.assignments| == |aliases| && |reached| == |stmts|
  {
    forall k: nat, j: nat :: IsElement(stmts, k, j) && stmts[k].width == 4 && reached[k].0 == x ==>
      NamesKept(stmts, p, aliases, values, initial, k, stmts[k].values[j])
  }

  /**
    Where no later `.set` gives a name mentioned in a four-byte field another value, every element of the
    section means the value of its own place.
   */
  lemma KeptNamesSuffice(stmts: seq<Stmt>, reached: Places, p: Resolver.Problem, aliases: seq<Option<string>>, values: seq<i64>,
                         initial: map<string, i64>, labels: map<string, (nat, u64)>, data: seq<byte>, x: nat)
    requires |SetList(stmts)| == |values| == |p.assignments| == |aliases| && |reached| == |stmts|
    requires SectionHolds(stmts, reached, TablesUnder(stmts, p, aliases, values, initial, labels),
                          TableAtEnd(stmts, p, aliases, values, initial, labels), data, x)
    requires AllNamesKept(stmts, reached, p, aliases, values, initial, x)
    ensures OwnValues(stmts, reached, TablesUnder(stmts, p, aliases, values, initial, labels),
                      TableAtEnd(stmts, p, aliases, values, initial, labels), data, x)
  {
    hide SectionHolds, OwnValues, NamesKept, TablesUnder, TableAtEnd, Classify, SetScope.AgreeOn, AddendKept, SetList;
    var tables := TablesUnder(stmts, p, aliases, values, initial, labels);
    var final := TableAtEnd(stmts, p, aliases, values, initial, labels);
    forall k: nat, j: nat | IsElement(stmts, k, j) && stmts[k].width == 4 && reached[k].0 == x
      ensures AddendKept(stmts[k].values[j], tables[k], final)
    {
      var e := stmts[k].values[j];
      KeptNamesAgree(stmts, p, aliases, values, initial, labels, k, e);
      SetScope.ClassifyAgrees(e, tables[k], final);
      SameForm(e, tables[k], final);
    }
    OwnValuesExactly(stmts, reached, tables, final, data, x);
  }

  /** No `.set` of the name stands at or behind statement k. */
  predicate NotSetAgain(stmts: seq<Stmt>, k: nat, name: string) {
    forall m :: k <= m < |stmts| && stmts[m].SetAbsolute? ==> stmts[m].name != name
  }

  /** Assignment i of the list is a `.set` directive among the statements it has been collected from. */
  lemma {:induction false} SetFrom(stmts: seq<Stmt>, k: nat, i: nat) returns (m: nat)
    requires k <= |stmts| && |SetList(stmts[..k])| <= i < |SetList(stmts)|
    ensures k <= m < |stmts| && stmts[m].SetAbsolute? && stmts[m].name == SetList(stmts)[i].name
  {
    m := 0;
    assert stmts[..|stmts|] == stmts;
    if k == |stmts| {
      assert false;
    } else {
      m := |stmts| - 1;
      if i < |SetList(stmts[..m])| {
        assert stmts[..m][..k] == stmts[..k];
        m := SetFrom(stmts[..m], k, i);
      }
    }
  }

  /** Names that are not set again keep their values. */
  lemma NotSetKept(stmts: seq<Stmt>, p: Resolver.Problem, aliases: seq<Option<string>>, values: seq<i64>, initial: map<string, i64>,
                   k: nat, e: Expr)
    requires k <= |stmts| && |SetList(stmts)| == |values| == |p.assignments| == |aliases|
    requires p.assignments == SetScope.Substituted(SetList(stmts))
    requires forall name :: name in Resolver.ReferencedSymbols(e) ==> NotSetAgain(stmts, k, name)
    ensures NamesKept(stmts, p, aliases, values, initial, k, e)
  {
    hide SetScope.CurrentAt, SetScope.AliasOf, SetList;
    SetsFewer(stmts, k);
    var n := |SetList(stmts[..k])|;
    forall name, i: nat | name in Resolver.ReferencedSymbols(e) && n <= i < |values| ensures !SetScope.Sets(p, aliases, name, i) {
      var m := SetFrom(stmts, k, i);
      assert p.assignments[i].name == SetList(stmts)[i].name;
    }
  }

  // ---- an input that fails -----------------------------------------------------------------------------

  /** `f@GOT - . + k` */
  function GotPlus(): Expr { Add(Sub(GotSymbol("f"), CurrentLocation), Symbol("k")) }

  function GotPlusTerms(): seq<Weighted<Term>> {
    [Weighted(Got("f"), 1), Weighted(Location, -1), Weighted(Plain("k"), 1)]
  }

  lemma GotPlusLinear()
    ensures Linearize(GotPlus(), 1, Linear(0, [])) == Ok(Linear(0, GotPlusTerms())) && NonZero(GotPlusTerms()) == GotPlusTerms()
  {
    var got, here, k := Weighted(Got("f"), 1), Weighted(Location, -1), Weighted(Plain("k"), 1);
    assert Push([], Got("f"), 1) == [got];
    assert [got][1..] == [] && Push([got], Location, -1) == [got, here];
    assert [got, here][1..] == [here] && [here][1..] == [];
    assert Push([here], Plain("k"), 1) == [here, k];
    assert Push([got, here], Plain("k"), 1) == [got, here, k];
    assert Linearize(Sub(GotSymbol("f"), CurrentLocation), 1, Linear(0, [])) == Ok(Linear(0, [got, here]));
    assert [got, here, k][1..] == [here, k] && [here, k][1..] == [k] && [k][1..] == [];
    assert NonZero([k]) == [k];
    assert NonZero([here, k]) == [here, k];
  }

  lemma GotPlusSplit(symbols: SymbolTable, v: i64)
    requires Lookup(symbols, "k") == Absolute(v)
    ensures Split(GotPlusTerms(), 0, symbols) == Ok(Parts(v, [], map[], [], [Weighted("f", 1)], -1))
  {
    var ts := GotPlusTerms();
    assert ts[..3] == ts && ts[..3][..2] == ts[..2] && ts[..2][..1] == ts[..1] && ts[..1][..0] == [];
    assert Push<string>([], "f", 1) == [Weighted("f", 1)];
    assert Split([], 0, symbols) == Ok(Parts(0, [], map[], [], [], 0));
    assert Split(ts[..1], 0, symbols) == Ok(Parts(0, [], map[], [], [Weighted("f", 1)], 0));
    assert Split(ts[..2], 0, symbols) == Ok(Parts(0, [], map[], [], [Weighted("f", 1)], -1));
  }

  lemma GotPlusForm(symbols: SymbolTable, v: i64)
    requires Lookup(symbols, "k") == Absolute(v)
    ensures Classify(GotPlus(), symbols) == Ok(PointerToGot("f", v, true))
  {
    hide Linearize, Split;
    GotPlusLinear();
    GotPlusSplit(symbols, v);
    var got := [Weighted("f", 1)];
    assert got[1..] == [] && NonZero(got) == got && NonZero<string>([]) == [];
  }

  /** `.set k, 1`, `.word f@GOT - . + k`, `.set k, 2` */
  function LateStmts(): seq<Stmt> {
    [SetAbsolute("k", Int(1)), DataValues(4, [GotPlus()]), SetAbsolute("k", Int(2))]
  }

  function LateSets(): seq<Resolver.Assignment> {
    [Resolver.Assignment("k", Int(1)), Resolver.Assignment("k", Int(2))]
  }

  lemma LateSetList()
    ensures SetList(LateStmts()) == LateSets() && SetList(LateStmts()[..2]) == LateSets()[..1] && SetList(LateStmts()[..1]) == LateSets()[..1]
    ensures SetList(LateStmts()[..0]) == []
    ensures SetScope.Aliases(LateSets()) == [None, None] && SetScope.Substituted(LateSets()) == LateSets()
  {
    var s := LateStmts();
    assert s[..3] == s && s[..3][..2] == s[..2] && s[..2][..1] == s[..1] && s[..1][..0] == [];
    assert SetList(s[..1]) == SetList([]) + AssignmentOf(s[0]);
    assert SetList(s[..2]) == SetList(s[..1]) + AssignmentOf(s[1]);
    assert SetList(s) == SetList(s[..2]) + AssignmentOf(s[2]);
  }

  /** A number needs no other assignment. */
  lemma NumberEvaluates(p: Resolver.Problem, i: nat, v: i64)
    requires i < |p.assignments| && p.assignments[i].value == Int(v)
    ensures Resolver.Evaluates(p, i, v)
  {
    NumberForm(v, map[]);
    assert Resolver.Unique([]) == [] && Resolver.References(p, i) == [] && Resolver.Targets(p, i) == {};
    assert Resolver.Local(p, i, map[]) == Ok(v);
    assert Resolver.Eval(p, i, 1) == Some(v);
  }

  lemma NumberForm(v: i64, symbols: SymbolTable)
    ensures Classify(Int(v), symbols) == Ok(AbsoluteForm(v))
  {
    assert Linearize(Int(v), 1, Linear(0, [])) == Ok(Linear(v, []));
    assert Split([], v, symbols) == Ok(Parts(v, [], map[], [], [], 0));
  }

  /** Whatever else holds, the resolver makes k first 1 and then 2. */
  lemma LateValues(cursor: SetScope.SetCursor, labels: map<string, (nat, u64)>)
    requires Resolves(cursor, SetList(LateStmts()), labels)
    ensures cursor.Prepared() && |SetList(LateStmts())| == 2
    ensures cursor.values == [1, 2] && cursor.aliases == [None, None] && cursor.problem.assignments == LateSets()
  {
    hide SetScope.Bound, SetScope.LastBound, Resolver.Evaluates, LateStmts, SetList, SetScope.AliasOf;
    LateSetList();
    var p := cursor.problem;
    NumberEvaluates(p, 0, 1);
    NumberEvaluates(p, 1, 2);
    Resolver.EvaluatesOnce(p, 0, 1, cursor.values[0]);
    Resolver.EvaluatesOnce(p, 1, 2, cursor.values[1]);
  }

  lemma LateTables(p: Resolver.Problem, aliases: seq<Option<string>>, values: seq<i64>, initial: map<string, i64>,
                   labels: map<string, (nat, u64)>)
    requires p.assignments == LateSets() && aliases == [None, None] && values == [1, 2]
    ensures |SetList(LateStmts())| == 2
    ensures Lookup(TablesUnder(LateStmts(), p, aliases, values, initial, labels)[1], "k") == Absolute(1)
    ensures Lookup(TableAtEnd(LateStmts(), p, aliases, values, initial, labels), "k") == Absolute(2)
  {
    hide SetList, TableOf;
    LateSetList();
    var one := SetScope.CurrentAt(p, aliases, values, initial, 1);
    var two := SetScope.CurrentAt(p, aliases, values, initial, 2);
    assert SetScope.CurrentAt(p, aliases, values, initial, 0) == initial;
    assert p.assignments[0].name == "k";
    assert p.assignments[1].name == "k";
    assert one == initial["k" := 1];
    assert two == one["k" := 2];
  }

  lemma GotPlusValue(symbols: SymbolTable, v: i64, env: Environment)
    requires Lookup(symbols, "k") == Absolute(v)
    ensures Value(GotPlus(), symbols, env) == env.got("f") - env.location + v
  {
    assert Value(Symbol("k"), symbols, env) == v;
    assert Value(Sub(GotSymbol("f"), CurrentLocation), symbols, env) == env.got("f") - env.location;
  }

  /** The one fixup of the three statements keeps the expression. */
  lemma LateFixups(reached: Places, tables: seq<SymbolTable>)
    requires |reached| == |tables| == 3 && Lookup(tables[1], "k") == Absolute(1)
    ensures FixupsUpTo(LateStmts(), reached, tables, 3)
            == [Fixup(reached[1].0, reached[1].1 % 0x1_0000_0000, 4, Data32(GotPlus()))]
  {
    hide Classify;
    GotPlusForm(tables[1], 1);
    assert StmtFixups(LateStmts()[1], tables[1], reached[1].0, reached[1].1)
        == ValuesFixups([GotPlus()], 4, tables[1], reached[1].0, reached[1].1);
    assert [GotPlus()][..0] == [] && ValuesFixups([], 4, tables[1], reached[1].0, reached[1].1) == [];
    assert FixupsUpTo(LateStmts(), reached, tables, 1) == [];
  }

  /**
    A four-byte GOT form is read again at the end. Between `.set k, 1` and `.set k, 2` the element
    `f@GOT - . + k` means `f@GOT - . + 1` at its place, but in every section that holds what it is given the
    field links to `f@GOT - . + 2`.
   */
  lemma ReadTooLate(p: Resolver.Problem, aliases: seq<Option<string>>, values: seq<i64>, initial: map<string, i64>,
                    labels: map<string, (nat, u64)>, reached: Places, data: seq<byte>)
    requires p.assignments == LateSets() && aliases == [None, None] && values == [1, 2]
    requires |SetList(LateStmts())| <= |values| && |reached| == |LateStmts()|
    requires SectionHolds(LateStmts(), reached, TablesUnder(LateStmts(), p, aliases, values, initial, labels),
                          TableAtEnd(LateStmts(), p, aliases, values, initial, labels), data, reached[1].0)
    ensures IsElement(LateStmts(), 1, 0)
    ensures var tables := TablesUnder(LateStmts(), p, aliases, values, initial, labels);
            var final := TableAtEnd(LateStmts(), p, aliases, values, initial, labels);
            && (forall env: Environment :: Value(GotPlus(), tables[1], env) == env.got("f") - env.location + 1)
            && (forall env: Environment :: Value(GotPlus(), final, env) == env.got("f") - env.location + 2)
            && ElementHolds(LateStmts(), reached, tables, final, data, 1, 0)
            && !OwnValue(LateStmts(), reached, tables, final, data, 1, 0)
  {
    hide Classify, Value, ElementHolds, OwnValue, TablesUnder, TableAtEnd, SetList;
    LateTables(p, aliases, values, initial, labels);
    var tables := TablesUnder(LateStmts(), p, aliases, values, initial, labels);
    var final := TableAtEnd(LateStmts(), p, aliases, values, initial, labels);
    GotPlusForm(tables[1], 1);
    GotPlusForm(final, 2);
    forall env: Environment
      ensures Value(GotPlus(), tables[1], env) == env.got("f") - env.location + 1
      ensures Value(GotPlus(), final, env) == env.got("f") - env.location + 2
    {
      GotPlusValue(tables[1], 1, env);
      GotPlusValue(final, 2, env);
    }
    assert IsElement(LateStmts(), 1, 0);
    OwnValueExactly(LateStmts(), reached, tables, final, data, 1, 0);
  }

  // ---- the input is accepted -------------------------------------------------------------------------------

  function LateSlot(size: u64): Slot { Slot("__TEXT", "__text", Text, 0, size) }

  lemma NothingUnwound()
    ensures UnwindSlots(0, []) == Some([])
  {
    var none: seq<Slot> := [];
    assert none + none == [];
  }

  lemma LateLayout()
    ensures LayoutAll(LateStmts()).Some?
    ensures LayoutAll(LateStmts()[..1]).Some? && Here(LayoutAll(LateStmts()[..1]).value.geometry) == (0, 0)
    ensures !LayoutFails(LateStmts()) && AllSlots(LayoutAll(LateStmts()).value) == Some([LateSlot(4)])
  {
    var s := LateStmts();
    assert s[..3] == s && s[..3][..2] == s[..2] && s[..2][..1] == s[..1] && s[..1][..0] == [];
    var l := InitialLayout();
    var one := l.(absolutes := {"k"});
    assert LayoutAll(s[..1]) == LayoutStep(l, s[0]);
    assert l.absolutes + {"k"} == {"k"};
    assert LayoutAll(s[..1]) == Some(one);
    var two := one.(geometry := Geometry(0, [LateSlot(4)]));
    assert one.geometry.sections[0 := LateSlot(4)] == [LateSlot(4)];
    assert LayoutAll(s[..2]) == LayoutStep(one, s[1]);
    assert LayoutAll(s[..2]) == Some(two);
    assert LayoutAll(s) == LayoutStep(two, s[2]);
    NothingUnwound();
    assert [LateSlot(4)] + [] == [LateSlot(4)];
  }

  lemma OneSmallFits()
    ensures !Overflows([Extent(0, 4, false)])
  {
    var es := [Extent(0, 4, false)];
    assert es[1..] == [] && es[..0] == [];
    assert Filter(es, IsKind(false)) == es && Filter(es, IsKind(true)) == [];
    assert es + [] == es;
    AlignUpLeast(0, 0);
    assert End(es) == AlignUp(0, 0) + 4;
  }

  lemma LateResolved(labels: map<string, (nat, u64)>)
    ensures !SetsFail(SetList(LateStmts()), labels)
  {
    hide SetsFail, Resolver.Evaluates;
    LateSetList();
    var p := Resolver.Problem(SetScope.Substituted(LateSets()), LabelValues(labels));
    NumberEvaluates(p, 0, 1);
    NumberEvaluates(p, 1, 2);
    assert SetScope.Aliases(LateSets())[0] == None;
    assert SetScope.Aliases(LateSets())[1] == None;
    assert SetScope.Aliased(labels, LateSets(), 1) == Some(labels);
    NoneBlamed(LateSets(), labels, [1, 2]);
  }

  /** Nothing fails before emission. */
  lemma LateUnfailing()
    ensures Failure(LateStmts()).None?
  {
    hide LayoutAll, Overflows, LateStmts, LayoutFails, SetsFail, SetList;
    LateLayout();
    OneSmallFits();
    assert Extents([LateSlot(4)]) == [Extent(0, 4, false)];
    LateResolved(LayoutAll(LateStmts()).value.labels);
  }

  lemma LateEmitted(tables: seq<SymbolTable>)
    requires |tables| == 3 && Lookup(tables[1], "k") == Absolute(1)
    ensures NothingRefused(LateStmts(), tables)
  {
    hide Classify, LayoutAll;
    GotPlusForm(tables[1], 1);
    assert [GotPlus()][..0] == [] && ValuesBytes([], 4, tables[1]) == Some([]);
    assert ValuesBytes([GotPlus()], 4, tables[1]).Some?;
  }

  /** The field can be written under the values at the end. */
  lemma LatePatchable(sections: seq<Section>, final: SymbolTable)
    requires |sections| == 1 && |sections[0].data| == 4 && Lookup(final, "k") == Absolute(2)
    ensures Patchable([Fixup(0, 0, 4, Data32(GotPlus()))], sections, 0, final)
  {
    hide Classify;
    GotPlusForm(final, 2);
    var fixups := [Fixup(0, 0, 4, Data32(GotPlus()))];
    var field := MachoRelocs.DataFixup(0, false, PointerToGot("f", 2, true));
    assert fixups[..0] == [] && DataFixups([], 0, final) == Some([]);
    assert MachoData.FormOf(fixups[0].kind, final) == Some(PointerToGot("f", 2, true));
    assert [] + [field] == [field];
    assert DataFixups(fixups, 0, final) == Some([field]);
  }

  lemma LateWellFormed()
    ensures |LateStmts()| == 3
    ensures forall i :: 0 <= i < |LateStmts()| ==> WellFormedStmt(LateStmts()[i])
  {
  }

  lemma LateReached(reached: Places)
    requires SamePlaces(LateStmts(), reached)
    ensures |reached| == |LateStmts()| == 3 && reached[1] == (0, 0)
  {
    hide LayoutAll;
    LateLayout();
  }

  lemma LateData(sections: seq<Section>)
    requires AllMatch(sections) && SlotsOf(sections) == [LateSlot(4)]
    ensures |sections| == 1 && |sections[0].data| == 4 && Addressable(sections, 0)
  {
    assert SlotsOf(sections)[0] == SlotOf(sections[0]) && DataMatches(sections[0]);
  }

  /** The assembler accepts the three statements, and the element does not mean its place's value. */
  method AssembleLate() returns (asm: Assembly, recorder: MachoRelocs.Recorder)
    ensures asm.cursor.Prepared() && |SetList(LateStmts())| <= |asm.cursor.values| && |asm.reached| == |LateStmts()|
    ensures asm.reached[1].0 == 0 && IsElement(LateStmts(), 1, 0)
    ensures SectionHolds(LateStmts(), asm.reached, asm.TablesFor(LateStmts()), asm.Table(), recorder.data, 0)
    ensures !OwnValue(LateStmts(), asm.reached, asm.TablesFor(LateStmts()), asm.Table(), recorder.data, 1, 0)
  {
    hide LateStmts, LateSlot, GotPlus, SamePlaces, TableAtEnd, LayoutAll, AllMatch, FixupsUpTo, TablesUnder, TableOf, SectionHolds,
      OwnValue, OwnValues, AddendsKept, Patchable, Failure, NothingRefused, Resolves, SetScope.SetCursor.Prepared, SetList, LateSets,
      SlotsOf, Addressable;
    asm := new Assembly();
    LateLayout();
    LateUnfailing();
    LateWellFormed();
    var r := AssembleSection(asm, LateStmts(), 0);
    LateValues(asm.cursor, LayoutAll(LateStmts()).value.labels);
    LateTables(asm.cursor.problem, asm.cursor.aliases, asm.cursor.values, asm.cursor.initial, asm.labels);
    LateEmitted(asm.TablesFor(LateStmts()));
    LateReached(asm.reached);
    LateFixups(asm.reached, asm.TablesFor(LateStmts()));
    LateData(asm.sections);
    LatePatchable(asm.sections, asm.Table());
    recorder := r.value.value;
    ReadTooLate(asm.cursor.problem, asm.cursor.aliases, asm.cursor.values, asm.cursor.initial, asm.labels, asm.reached, recorder.data);
  }
}
