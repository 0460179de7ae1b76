/**
  Assembler expressions and their classification into relocatable forms (src/expr.rs).
  A tree is linearised into weighted terms, terms of defined symbols are grouped by section, one
  anchor symbol is kept for each section that does not cancel, and the remainder becomes one form.
 */
module Expr {
  import opened Words

  datatype Expr =
    | Int(value: i64)
    | Unsigned(magnitude: u64)
    | Symbol(name: string)
    | GotSymbol(name: string)
    | CurrentLocation
    | UnaryMinus(inner: Expr)
    | Add(lhs: Expr, rhs: Expr)
    | Sub(lhs: Expr, rhs: Expr)

  datatype SymbolValue = Absolute(value: i64) | Defined(section: nat, offset: u64) | Undefined

  type SymbolTable = map<string, SymbolValue>

  datatype ClassifiedExpr =
    | AbsoluteForm(constant: i64)
    | UnsignedForm(magnitude: u64)
    | Relocatable(symbol: string, addend: i64)
    | Difference(minuend: string, subtrahend: string, addend: i64)
    | PointerToGot(symbol: string, addend: i64, pcrel: bool)

  datatype ClassifyError = Overflow | Illegal

  function Lookup(symbols: SymbolTable, name: string): SymbolValue {
    if name in symbols then symbols[name] else Undefined
  }

  // ---- what expressions and forms mean -----------------------------------

  /** Everything link time decides: section bases, undefined symbols, GOT slots, the location. */
  datatype Environment = Environment(base: nat -> int, address: string -> int, got: string -> int, location: int)

  function SymbolMeaning(symbols: SymbolTable, env: Environment, name: string): int {
    match Lookup(symbols, name)
    case Absolute(v) => v
    case Defined(section, offset) => env.base(section) + offset
    case Undefined => env.address(name)
  }

  function Value(e: Expr, symbols: SymbolTable, env: Environment): int {
    match e
    case Int(v) => v
    case Unsigned(v) => v
    case Symbol(name) => SymbolMeaning(symbols, env, name)
    case GotSymbol(name) => env.got(name)
    case CurrentLocation => env.location
    case UnaryMinus(x) => 0 - Value(x, symbols, env)
    case Add(x, y) => Value(x, symbols, env) + Value(y, symbols, env)
    case Sub(x, y) => Value(x, symbols, env) - Value(y, symbols, env)
  }

  function FormValue(form: ClassifiedExpr, symbols: SymbolTable, env: Environment): int {
    match form
    case AbsoluteForm(v) => v
    case UnsignedForm(v) => v
    case Relocatable(s, addend) => SymbolMeaning(symbols, env, s) + addend
    case Difference(m, s, addend) => SymbolMeaning(symbols, env, m) - SymbolMeaning(symbols, env, s) + addend
    case PointerToGot(s, addend, pcrel) => env.got(s) + addend - if pcrel then env.location else 0
  }

  // ---- weighted sums --------------------------------------------------------

  datatype Weighted<T> = Weighted(item: T, coeff: int)

  /** Add to the first entry of the item, or append a new entry. */
  function Push<T(==)>(ts: seq<Weighted<T>>, item: T, delta: int): seq<Weighted<T>> {
    if ts == [] then [Weighted(item, delta)]
    else if ts[0].item == item then [Weighted(item, ts[0].coeff + delta)] + ts[1..]
    else [ts[0]] + Push(ts[1..], item, delta)
  }

  function NonZero<T>(ts: seq<Weighted<T>>): seq<Weighted<T>> {
    if ts == [] then []
    else if ts[0].coeff != 0 then [ts[0]] + NonZero(ts[1..])
    else NonZero(ts[1..])
  }

  function Sum<T>(ts: seq<Weighted<T>>, f: T -> int): int {
    if ts == [] then 0 else ts[0].coeff * f(ts[0].item) + Sum(ts[1..], f)
  }

  function Weight<T(==)>(ts: seq<Weighted<T>>, item: T): int {
    if ts == [] then 0 else (if ts[0].item == item then ts[0].coeff else 0) + Weight(ts[1..], item)
  }

  ghost predicate DistinctItems<T>(ts: seq<Weighted<T>>) {
    forall i, j :: 0 <= i < j < |ts| ==> ts[i].item != ts[j].item
  }

  lemma {:induction false} PushSum<T>(ts: seq<Weighted<T>>, item: T, delta: int, f: T -> int)
    ensures Sum(Push(ts, item, delta), f) == Sum(ts, f) + delta * f(item)
  {
    if ts != [] {
      if ts[0].item == item {
        assert ([Weighted(item, ts[0].coeff + delta)] + ts[1..])[1..] == ts[1..];
        assert (ts[0].coeff + delta) * f(item) == ts[0].coeff * f(item) + delta * f(item);
      } else {
        PushSum(ts[1..], item, delta, f);
        assert ([ts[0]] + Push(ts[1..], item, delta))[1..] == Push(ts[1..], item, delta);
      }
    }
  }

  lemma {:induction false} PushItems<T>(ts: seq<Weighted<T>>, item: T, delta: int)
    ensures forall i :: 0 <= i < |Push(ts, item, delta)| ==>
              Push(ts, item, delta)[i].item == item || exists j :: 0 <= j < |ts| && ts[j].item == Push(ts, item, delta)[i].item
    ensures DistinctItems(ts) ==> DistinctItems(Push(ts, item, delta))
  {
    if ts != [] {
      PushItems(ts[1..], item, delta);
      if ts[0].item != item {
        var tail := Push(ts[1..], item, delta);
        forall i | 0 <= i < |tail|
          ensures tail[i].item == item || exists j :: 0 <= j < |ts| && ts[j].item == tail[i].item
        {
          if tail[i].item != item {
            var j :| 0 <= j < |ts[1..]| && ts[1..][j].item == tail[i].item;
            assert ts[j + 1].item == tail[i].item;
          }
        }
      }
    }
  }

  lemma {:induction false} PushNew<T>(ts: seq<Weighted<T>>, item: T, delta: int)
    requires forall i :: 0 <= i < |ts| ==> ts[i].item != item
    ensures Push(ts, item, delta) == ts + [Weighted(item, delta)]
  {
    if ts != [] {
      PushNew(ts[1..], item, delta);
    }
  }

  lemma {:induction false} NonZeroKeeps<T>(ts: seq<Weighted<T>>)
    ensures forall i :: 0 <= i < |NonZero(ts)| ==> NonZero(ts)[i] in ts && NonZero(ts)[i].coeff != 0
    ensures DistinctItems(ts) ==> DistinctItems(NonZero(ts))
  {
    if ts != [] {
      NonZeroKeeps(ts[1..]);
      var rest := NonZero(ts[1..]);
      if DistinctItems(ts) {
        assert DistinctItems(ts[1..]);
        forall i | 0 <= i < |rest| ensures rest[i].item != ts[0].item {
          assert rest[i] in ts[1..];
        }
      }
    }
  }

  lemma {:induction false} NonZeroSum<T>(ts: seq<Weighted<T>>, f: T -> int)
    ensures Sum(NonZero(ts), f) == Sum(ts, f)
  {
    if ts != [] {
      NonZeroSum(ts[1..], f);
    }
  }

  /** Two valuations that differ by one on one item differ in the sum by that item's weight. */
  lemma {:induction false} SumSlope<T(!new)>(ts: seq<Weighted<T>>, f: T -> int, g: T -> int, item: T)
    requires forall i :: 0 <= i < |ts| ==> f(ts[i].item) - g(ts[i].item) == if ts[i].item == item then 1 else 0
    ensures Sum(ts, f) - Sum(ts, g) == Weight(ts, item)
  {
    if ts != [] {
      SumSlope(ts[1..], f, g, item);
      var c, x := ts[0].coeff, ts[0].item;
      assert c * f(x) == c * (g(x) + if x == item then 1 else 0);
    }
  }

  lemma {:induction false} SumSame<T(!new)>(ts: seq<Weighted<T>>, f: T -> int, g: T -> int)
    requires forall i :: 0 <= i < |ts| ==> f(ts[i].item) == g(ts[i].item)
    ensures Sum(ts, f) == Sum(ts, g)
  {
    if ts != [] {
      SumSame(ts[1..], f, g);
    }
  }

  lemma {:induction false} WeightOf<T>(ts: seq<Weighted<T>>, item: T)
    requires DistinctItems(ts)
    ensures forall i :: 0 <= i < |ts| && ts[i].item == item ==> Weight(ts, item) == ts[i].coeff
    ensures (forall i :: 0 <= i < |ts| ==> ts[i].item != item) ==> Weight(ts, item) == 0
  {
    if ts != [] {
      WeightOf(ts[1..], item);
      if ts[0].item == item {
        forall i | 0 <= i < |ts[1..]| ensures ts[1..][i].item != item { assert ts[1..][i] == ts[i + 1]; }
      } else {
        forall i | 0 <= i < |ts| && ts[i].item == item ensures Weight(ts, item) == ts[i].coeff {
          assert ts[1..][i - 1] == ts[i];
        }
      }
    }
  }

  // ---- linearisation ----------------------------------------------------------

  datatype Term = Plain(name: string) | Got(name: string) | Location

  datatype Linear = Linear(constant: i64, terms: seq<Weighted<Term>>)

  function Negated(v: int, sign: int): int { if sign == 1 then v else 0 - v }

  function AddConstant(acc: Linear, v: i64, sign: int): Result<Linear, ClassifyError>
    requires sign == 1 || sign == -1
  {
    var signed := Negated(v, sign);
    if !IsI64(signed) || !IsI64(acc.constant + signed) then Err(Overflow)
    else Ok(acc.(constant := acc.constant + signed))
  }

  function Linearize(e: Expr, sign: int, acc: Linear): Result<Linear, ClassifyError>
    requires sign == 1 || sign == -1
  {
    match e
    case Int(v) => AddConstant(acc, v, sign)
    case Unsigned(v) => if !IsI64(v) then Err(Overflow) else AddConstant(acc, v, sign)
    case Symbol(name) => Ok(acc.(terms := Push(acc.terms, Plain(name), sign)))
    case GotSymbol(name) => Ok(acc.(terms := Push(acc.terms, Got(name), sign)))
    case CurrentLocation => Ok(acc.(terms := Push(acc.terms, Location, sign)))
    case UnaryMinus(x) => Linearize(x, 0 - sign, acc)
    case Add(x, y) =>
      var left :- Linearize(x, sign, acc);
      Linearize(y, sign, left)
    case Sub(x, y) =>
      var left :- Linearize(x, sign, acc);
      Linearize(y, 0 - sign, left)
  }

  function TermValue(symbols: SymbolTable, env: Environment, t: Term): int {
    match t
    case Plain(name) => SymbolMeaning(symbols, env, name)
    case Got(name) => env.got(name)
    case Location => env.location
  }

  function TermMeaning(symbols: SymbolTable, env: Environment): Term -> int {
    t => TermValue(symbols, env, t)
  }

  function LinearValue(linear: Linear, symbols: SymbolTable, env: Environment): int {
    linear.constant + Sum(linear.terms, TermMeaning(symbols, env))
  }

  /** `after` adds the given amount to `before` and still lists every term once. */
  ghost predicate Extends(before: Linear, after: Linear, amount: int, symbols: SymbolTable, env: Environment) {
    && LinearValue(after, symbols, env) == LinearValue(before, symbols, env) + amount
    && (DistinctItems(before.terms) ==> DistinctItems(after.terms))
  }

  lemma PushExtends(acc: Linear, term: Term, sign: int, symbols: SymbolTable, env: Environment)
    requires sign == 1 || sign == -1
    ensures Extends(acc, acc.(terms := Push(acc.terms, term, sign)), Negated(TermValue(symbols, env, term), sign), symbols, env)
  {
    PushSum(acc.terms, term, sign, TermMeaning(symbols, env));
    PushItems(acc.terms, term, sign);
  }

  /** A linearised tree has the tree's value, and every term is listed once. */
  lemma {:induction false} LinearizeMeaning(e: Expr, sign: int, acc: Linear, symbols: SymbolTable, env: Environment)
    requires sign == 1 || sign == -1
    ensures Linearize(e, sign, acc).Ok? ==>
              Extends(acc, Linearize(e, sign, acc).value, Negated(Value(e, symbols, env), sign), symbols, env)
    decreases e
  {
    match e
    case Int(_) =>
    case Unsigned(_) =>
    case Symbol(name) => PushExtends(acc, Plain(name), sign, symbols, env);
    case GotSymbol(name) => PushExtends(acc, Got(name), sign, symbols, env);
    case CurrentLocation => PushExtends(acc, Location, sign, symbols, env);
    case UnaryMinus(x) =>
      LinearizeMeaning(x, 0 - sign, acc, symbols, env);
    case Add(x, y) =>
      LinearizeMeaning(x, sign, acc, symbols, env);
      var left := Linearize(x, sign, acc);
      if left.Ok? {
        LinearizeMeaning(y, sign, left.value, symbols, env);
      }
    case Sub(x, y) =>
      LinearizeMeaning(x, sign, acc, symbols, env);
      var left := Linearize(x, sign, acc);
      if left.Ok? {
        LinearizeMeaning(y, 0 - sign, left.value, symbols, env);
      }
  }

  lemma PushStep<T>(ts: seq<Weighted<T>>, i: nat, item: T, delta: int)
    requires i < |ts|
    ensures Push(ts[i..], item, delta) ==
            if ts[i].item == item then [Weighted(item, ts[i].coeff + delta)] + ts[i + 1..]
            else [ts[i]] + Push(ts[i + 1..], item, delta)
  {
    assert ts[i..][1..] == ts[i + 1..];
  }

  method PushEntry<T(==)>(ts: seq<Weighted<T>>, item: T, delta: int) returns (r: seq<Weighted<T>>)
    ensures r == Push(ts, item, delta)
  {
    hide Push;
    var i := 0;
    assert ts[..0] == [] && ts[0..] == ts;
    while i < |ts| && ts[i].item != item
      invariant 0 <= i <= |ts|
      invariant Push(ts, item, delta) == ts[..i] + Push(ts[i..], item, delta)
    {
      PushStep(ts, i, item, delta);
      Rejoin(ts[..i], ts[i], Push(ts[i + 1..], item, delta));
      assert ts[..i] + [ts[i]] == ts[..i + 1];
      i := i + 1;
    }
    if i < |ts| {
      PushStep(ts, i, item, delta);
      r := ts[i := Weighted(item, ts[i].coeff + delta)];
      Replaced(ts, i, Weighted(item, ts[i].coeff + delta));
    } else {
      assert ts[..i] == ts && ts[i..] == [];
      PushLast(item, delta);
      r := ts + [Weighted(item, delta)];
    }
  }

  lemma PushLast<T>(item: T, delta: int)
    ensures Push([], item, delta) == [Weighted(item, delta)]
  {
  }

  lemma Replaced<T>(ts: seq<T>, i: nat, x: T)
    requires i < |ts|
    ensures ts[i := x] == ts[..i] + ([x] + ts[i + 1..])
  {
  }

  lemma Rejoin<T>(front: seq<T>, x: T, back: seq<T>)
    ensures front + ([x] + back) == front + [x] + back
  {
  }

  /** The accumulator the recursive walk updates in place. */
  class Accumulator {
    var constant: i64
    var terms: seq<Weighted<Term>>

    constructor ()
      ensures constant == 0 && terms == []
    {
      constant := 0;
      terms := [];
    }

    method PushTerm(term: Term, delta: int)
      modifies this`terms
      ensures terms == Push(old(terms), term, delta)
    {
      terms := PushEntry(terms, term, delta);
    }

    method AddSigned(v: i64, sign: int) returns (ok: bool)
      requires sign == 1 || sign == -1
      modifies this`constant
      ensures ok == AddConstant(Linear(old(constant), terms), v, sign).Ok?
      ensures ok ==> Linear(constant, terms) == AddConstant(Linear(old(constant), terms), v, sign).value
    {
      if sign == -1 && v == I64_MIN {
        return false;
      }
      var signed := Negated(v, sign);
      assert IsI64(v) && IsI64(signed);
      if !IsI64(constant + signed) {
        return false;
      }
      constant := constant + signed;
      return true;
    }

    /** Every failure of the walk is an overflow. */
    method Walk(e: Expr, sign: int) returns (ok: bool)
      requires sign == 1 || sign == -1
      modifies this
      ensures ok == Linearize(e, sign, Linear(old(constant), old(terms))).Ok?
      ensures ok ==> Linear(constant, terms) == Linearize(e, sign, Linear(old(constant), old(terms))).value
      decreases e
    {
      match e
      case Int(v) => ok := AddSigned(v, sign);
      case Unsigned(v) =>
        if !IsI64(v) {
          return false;
        }
        ok := AddSigned(v, sign);
      case Symbol(name) => PushTerm(Plain(name), sign); ok := true;
      case GotSymbol(name) => PushTerm(Got(name), sign); ok := true;
      case CurrentLocation => PushTerm(Location, sign); ok := true;
      case UnaryMinus(x) => ok := Walk(x, 0 - sign);
      case Add(x, y) =>
        ok := Walk(x, sign);
        if ok {
          ok := Walk(y, sign);
        }
      case Sub(x, y) =>
        ok := Walk(x, sign);
        if ok {
          ok := Walk(y, 0 - sign);
        }
    }
  }

  // ---- splitting terms by what they name -------------------------------------

  datatype Entry = Entry(symbol: string, offset: u64, coeff: int)

  datatype Parts = Parts(constant: i64, order: seq<nat>, groups: map<nat, seq<Entry>>,
                         remaining: seq<Weighted<string>>, got: seq<Weighted<string>>, here: int)

  function GroupOf(groups: map<nat, seq<Entry>>, section: nat): seq<Entry> {
    if section in groups then groups[section] else []
  }

  function AddTerm(parts: Parts, t: Weighted<Term>, symbols: SymbolTable): Result<Parts, ClassifyError> {
    match t.item
    case Plain(name) => AddPlain(parts, name, t.coeff, Lookup(symbols, name))
    case Got(name) => Ok(parts.(got := Push(parts.got, name, t.coeff)))
    case Location => Ok(parts.(here := parts.here + t.coeff))
  }

  function AddPlain(parts: Parts, name: string, coeff: int, value: SymbolValue): Result<Parts, ClassifyError> {
    match value
    case Absolute(v) =>
      var product := v * coeff;
      if !IsI64(product) || !IsI64(parts.constant + product) then Err(Overflow)
      else Ok(parts.(constant := parts.constant + product))
    case Defined(section, offset) =>
      Ok(parts.(order := if section in parts.groups then parts.order else parts.order + [section],
                groups := parts.groups[section := GroupOf(parts.groups, section) + [Entry(name, offset, coeff)]]))
    case Undefined => Ok(parts.(remaining := Push(parts.remaining, name, coeff)))
  }

  function Split(terms: seq<Weighted<Term>>, constant: i64, symbols: SymbolTable): Result<Parts, ClassifyError> {
    if terms == [] then Ok(Parts(constant, [], map[], [], [], 0))
    else
      var last := |terms| - 1;
      var before :- Split(terms[..last], constant, symbols);
      AddTerm(before, terms[last], symbols)
  }

  function NameMeaning(symbols: SymbolTable, env: Environment): string -> int {
    name => SymbolMeaning(symbols, env, name)
  }

  function GroupValue(group: seq<Entry>, base: int): int {
    if group == [] then 0
    else
      var last := |group| - 1;
      GroupValue(group[..last], base) + group[last].coeff * (base + group[last].offset)
  }

  function GroupsValue(order: seq<nat>, groups: map<nat, seq<Entry>>, base: nat -> int): int {
    if order == [] then 0
    else
      var last := |order| - 1;
      GroupsValue(order[..last], groups, base) + GroupValue(GroupOf(groups, order[last]), base(order[last]))
  }

  function PartsValue(parts: Parts, symbols: SymbolTable, env: Environment): int {
    parts.constant + GroupsValue(parts.order, parts.groups, env.base)
    + Sum(parts.remaining, NameMeaning(symbols, env)) + Sum(parts.got, env.got) + parts.here * env.location
  }

  predicate DistinctSections(order: seq<nat>) {
    forall i, j :: 0 <= i < j < |order| ==> order[i] != order[j]
  }

  predicate EntriesIn(group: seq<Entry>, section: nat, symbols: SymbolTable) {
    forall i :: 0 <= i < |group| ==> Lookup(symbols, group[i].symbol) == Defined(section, group[i].offset)
  }

  ghost predicate WellGrouped(order: seq<nat>, groups: map<nat, seq<Entry>>, symbols: SymbolTable) {
    && DistinctSections(order)
    && (forall s <- groups :: s in order && groups[s] != [] && EntriesIn(groups[s], s, symbols))
    && (forall i :: 0 <= i < |order| ==> order[i] in groups)
  }

  ghost predicate AllUndefined(ts: seq<Weighted<string>>, symbols: SymbolTable) {
    forall i :: 0 <= i < |ts| ==> Lookup(symbols, ts[i].item) == Undefined
  }

  ghost predicate WellSplit(parts: Parts, symbols: SymbolTable) {
    && WellGrouped(parts.order, parts.groups, symbols)
    && AllUndefined(parts.remaining, symbols)
    && DistinctItems(parts.remaining) && DistinctItems(parts.got)
  }

  lemma {:induction false} GroupsFrame(order: seq<nat>, groups: map<nat, seq<Entry>>, more: map<nat, seq<Entry>>, base: nat -> int)
    requires forall i :: 0 <= i < |order| ==> GroupOf(groups, order[i]) == GroupOf(more, order[i])
    ensures GroupsValue(order, groups, base) == GroupsValue(order, more, base)
  {
    if order != [] {
      GroupsFrame(order[..|order| - 1], groups, more, base);
    }
  }

  lemma GroupAppend(group: seq<Entry>, entry: Entry, base: int)
    ensures GroupValue(group + [entry], base) == GroupValue(group, base) + entry.coeff * (base + entry.offset)
  {
    assert (group + [entry])[..|group|] == group;
  }

  /** Appending one entry to one group changes the total by that entry. */
  lemma {:induction false} GroupsAppend(order: seq<nat>, groups: map<nat, seq<Entry>>, section: nat, entry: Entry, base: nat -> int)
    requires DistinctSections(order) && section in order
    ensures GroupsValue(order, groups[section := GroupOf(groups, section) + [entry]], base)
            == GroupsValue(order, groups, base) + entry.coeff * (base(section) + entry.offset)
  {
    hide GroupValue;
    var last := |order| - 1;
    var group := GroupOf(groups, section);
    var more := groups[section := group + [entry]];
    GroupAppend(group, entry, base(section));
    if order[last] == section {
      GroupsFrame(order[..last], groups, more, base);
    } else {
      assert section in order[..last];
      GroupsAppend(order[..last], groups, section, entry, base);
    }
  }

  ghost predicate Adds(before: Parts, after: Parts, amount: int, symbols: SymbolTable, env: Environment) {
    && WellSplit(after, symbols)
    && PartsValue(after, symbols, env) == PartsValue(before, symbols, env) + amount
  }

  /** The groups after adding an entry of a section. */
  lemma AddEntryGrouped(order: seq<nat>, groups: map<nat, seq<Entry>>, section: nat, entry: Entry, symbols: SymbolTable)
    requires WellGrouped(order, groups, symbols)
    requires Lookup(symbols, entry.symbol) == Defined(section, entry.offset)
    ensures WellGrouped(if section in groups then order else order + [section],
                        groups[section := GroupOf(groups, section) + [entry]], symbols)
  {
    var order' := if section in groups then order else order + [section];
    var group := GroupOf(groups, section) + [entry];
    var groups' := groups[section := group];
    assert EntriesIn(group, section, symbols);
    forall s <- groups' ensures s in order' && groups'[s] != [] && EntriesIn(groups'[s], s, symbols) {
      if s == section {
        assert s in groups || order'[|order|] == section;
      } else {
        var i :| 0 <= i < |order| && order[i] == s;
        assert order'[i] == s;
      }
    }
  }

  lemma AddDefined(parts: Parts, name: string, coeff: int, symbols: SymbolTable, env: Environment)
    requires WellSplit(parts, symbols) && Lookup(symbols, name).Defined?
    ensures Adds(parts, AddPlain(parts, name, coeff, Lookup(symbols, name)).value, coeff * SymbolMeaning(symbols, env, name), symbols, env)
  {
    hide AllUndefined, WellGrouped, GroupsValue, DistinctItems, Sum;
    var d := Lookup(symbols, name);
    var entry := Entry(name, d.offset, coeff);
    var after := AddPlain(parts, name, coeff, d).value;
    AddEntryGrouped(parts.order, parts.groups, d.section, entry, symbols);
    AddEntryValue(parts.order, parts.groups, d.section, entry, symbols, env.base);
    assert SymbolMeaning(symbols, env, name) == env.base(d.section) + d.offset;
  }

  /** One entry more is worth its weight times its address. */
  lemma AddEntryValue(order: seq<nat>, groups: map<nat, seq<Entry>>, section: nat, entry: Entry, symbols: SymbolTable, base: nat -> int)
    requires WellGrouped(order, groups, symbols)
    ensures var order' := if section in groups then order else order + [section];
            GroupsValue(order', groups[section := GroupOf(groups, section) + [entry]], base)
            == GroupsValue(order, groups, base) + entry.coeff * (base(section) + entry.offset)
  {
    hide EntriesIn, GroupValue, GroupsValue;
    var order' := if section in groups then order else order + [section];
    if section !in groups {
      NewSection(order, groups, section, base);
      assert order'[|order|] == section;
    }
    assert section in order';
    GroupsAppend(order', groups, section, entry, base);
  }

  lemma NewSection(order: seq<nat>, groups: map<nat, seq<Entry>>, section: nat, base: nat -> int)
    requires section !in groups
    ensures GroupsValue(order + [section], groups, base) == GroupsValue(order, groups, base)
  {
    assert (order + [section])[..|order|] == order;
  }

  lemma PushUndefined(ts: seq<Weighted<string>>, name: string, coeff: int, symbols: SymbolTable)
    requires AllUndefined(ts, symbols) && Lookup(symbols, name) == Undefined
    ensures AllUndefined(Push(ts, name, coeff), symbols)
  {
    PushItems(ts, name, coeff);
  }

  lemma AddTermMeaning(parts: Parts, t: Weighted<Term>, symbols: SymbolTable, env: Environment)
    requires WellSplit(parts, symbols)
    ensures AddTerm(parts, t, symbols).Ok? ==>
              Adds(parts, AddTerm(parts, t, symbols).value, t.coeff * TermValue(symbols, env, t.item), symbols, env)
  {
    hide WellGrouped, GroupsValue, DistinctItems, AllUndefined, Push;
    match t.item
    case Plain(name) =>
      if Lookup(symbols, name).Defined? {
        AddDefined(parts, name, t.coeff, symbols, env);
      } else if Lookup(symbols, name).Undefined? {
        PushSum(parts.remaining, name, t.coeff, NameMeaning(symbols, env));
        PushItems(parts.remaining, name, t.coeff);
        PushUndefined(parts.remaining, name, t.coeff, symbols);
      }
    case Got(name) =>
      PushSum(parts.got, name, t.coeff, env.got);
      PushItems(parts.got, name, t.coeff);
    case Location =>
      assert (parts.here + t.coeff) * env.location == parts.here * env.location + t.coeff * env.location;
  }

  lemma {:induction false} SumSnoc<T>(ts: seq<Weighted<T>>, last: Weighted<T>, f: T -> int)
    ensures Sum(ts + [last], f) == Sum(ts, f) + last.coeff * f(last.item)
  {
    if ts == [] {
      assert ts + [last] == [last] && [last][1..] == [];
    } else {
      assert (ts + [last])[1..] == ts[1..] + [last];
      SumSnoc(ts[1..], last, f);
    }
  }

  /** Splitting keeps the value of the linear sum. */
  lemma {:induction false} SplitMeaning(terms: seq<Weighted<Term>>, constant: i64, symbols: SymbolTable, env: Environment)
    ensures var r := Split(terms, constant, symbols);
            r.Ok? ==> WellSplit(r.value, symbols)
                      && PartsValue(r.value, symbols, env) == LinearValue(Linear(constant, terms), symbols, env)
  {
    if terms != [] {
      var last := |terms| - 1;
      SplitMeaning(terms[..last], constant, symbols, env);
      var before := Split(terms[..last], constant, symbols);
      assert terms == terms[..last] + [terms[last]];
      SumSnoc(terms[..last], terms[last], TermMeaning(symbols, env));
      if before.Ok? {
        AddTermMeaning(before.value, terms[last], symbols, env);
      }
    }
  }

  // ---- section totals and anchors ------------------------------------------------

  datatype Candidate = Candidate(symbol: string, offset: u64)

  /** `section` is kept for stating properties; the selection itself only uses the other two fields. */
  datatype AnchorGroup = AnchorGroup(section: nat, coefficient: int, candidates: seq<Candidate>)

  datatype Totals = Totals(total: int, anchors: seq<AnchorGroup>)

  function CoeffSum(group: seq<Entry>): int {
    if group == [] then 0 else CoeffSum(group[..|group| - 1]) + group[|group| - 1].coeff
  }

  function GroupTotal(group: seq<Entry>): int {
    if group == [] then 0
    else GroupTotal(group[..|group| - 1]) + group[|group| - 1].offset * group[|group| - 1].coeff
  }

  function Candidates(group: seq<Entry>): (cs: seq<Candidate>)
    ensures |cs| == |group|
    ensures forall i :: 0 <= i < |group| ==> cs[i] == Candidate(group[i].symbol, group[i].offset)
  {
    seq(|group|, i requires 0 <= i < |group| => Candidate(group[i].symbol, group[i].offset))
  }

  function AddGroup(before: Totals, section: nat, group: seq<Entry>): Result<Totals, ClassifyError> {
    var total := before.total + GroupTotal(group);
    var sum := CoeffSum(group);
    if sum == 0 then Ok(before.(total := total))
    else if sum == 1 || sum == -1 then Ok(Totals(total, before.anchors + [AnchorGroup(section, sum, Candidates(group))]))
    else Err(Illegal)
  }

  function SumGroups(order: seq<nat>, groups: map<nat, seq<Entry>>): Result<Totals, ClassifyError> {
    if order == [] then Ok(Totals(0, []))
    else
      var last := |order| - 1;
      var before :- SumGroups(order[..last], groups);
      AddGroup(before, order[last], GroupOf(groups, order[last]))
  }

  function AnchorsValue(anchors: seq<AnchorGroup>, base: nat -> int): int {
    if anchors == [] then 0
    else
      var last := |anchors| - 1;
      AnchorsValue(anchors[..last], base) + anchors[last].coefficient * base(anchors[last].section)
  }

  predicate CandidatesIn(candidates: seq<Candidate>, section: nat, symbols: SymbolTable) {
    forall i :: 0 <= i < |candidates| ==> Lookup(symbols, candidates[i].symbol) == Defined(section, candidates[i].offset)
  }

  ghost predicate WellAnchored(anchors: seq<AnchorGroup>, symbols: SymbolTable) {
    && (forall k :: 0 <= k < |anchors| ==>
          && (anchors[k].coefficient == 1 || anchors[k].coefficient == -1)
          && anchors[k].candidates != []
          && CandidatesIn(anchors[k].candidates, anchors[k].section, symbols))
    && (forall j, k :: 0 <= j < k < |anchors| ==> anchors[j].section != anchors[k].section)
  }

  lemma {:induction false} GroupLinear(group: seq<Entry>, base: int)
    ensures GroupValue(group, base) == CoeffSum(group) * base + GroupTotal(group)
  {
    if group != [] {
      var last := |group| - 1;
      GroupLinear(group[..last], base);
      var c, o := group[last].coeff, group[last].offset;
      assert c * (base + o) == c * base + o * c;
      assert (CoeffSum(group[..last]) + c) * base == CoeffSum(group[..last]) * base + c * base;
    }
  }

  ghost predicate Totalled(totals: Totals, order: seq<nat>, groups: map<nat, seq<Entry>>, symbols: SymbolTable, base: nat -> int) {
    && WellAnchored(totals.anchors, symbols)
    && (forall k :: 0 <= k < |totals.anchors| ==> totals.anchors[k].section in order)
    && GroupsValue(order, groups, base) == totals.total + AnchorsValue(totals.anchors, base)
  }

  lemma CandidatesFit(group: seq<Entry>, section: nat, symbols: SymbolTable)
    requires EntriesIn(group, section, symbols)
    ensures CandidatesIn(Candidates(group), section, symbols)
  {
  }

  lemma AnchorAdded(anchors: seq<AnchorGroup>, anchor: AnchorGroup, symbols: SymbolTable, base: nat -> int)
    requires WellAnchored(anchors, symbols) && (anchor.coefficient == 1 || anchor.coefficient == -1)
    requires anchor.candidates != [] && CandidatesIn(anchor.candidates, anchor.section, symbols)
    requires forall k :: 0 <= k < |anchors| ==> anchors[k].section != anchor.section
    ensures WellAnchored(anchors + [anchor], symbols)
    ensures AnchorsValue(anchors + [anchor], base) == AnchorsValue(anchors, base) + anchor.coefficient * base(anchor.section)
  {
    hide CandidatesIn;
    assert (anchors + [anchor])[..|anchors|] == anchors;
  }

  lemma AddGroupMeaning(before: Totals, order: seq<nat>, groups: map<nat, seq<Entry>>, symbols: SymbolTable, base: nat -> int)
    requires order != [] && DistinctSections(order)
    requires var s := order[|order| - 1]; GroupOf(groups, s) != [] && EntriesIn(GroupOf(groups, s), s, symbols)
    requires Totalled(before, order[..|order| - 1], groups, symbols, base)
    ensures var s := order[|order| - 1];
            var after := AddGroup(before, s, GroupOf(groups, s));
            after.Ok? ==> Totalled(after.value, order, groups, symbols, base)
  {
    hide EntriesIn, GroupValue, GroupTotal, CoeffSum, CandidatesIn, AnchorsValue, WellAnchored;
    var s := order[|order| - 1];
    var group := GroupOf(groups, s);
    GroupLinear(group, base(s));
    var after := AddGroup(before, s, group);
    if after.Ok? && CoeffSum(group) != 0 {
      var anchor := AnchorGroup(s, CoeffSum(group), Candidates(group));
      CandidatesFit(group, s, symbols);
      AnchorAdded(before.anchors, anchor, symbols, base);
    }
  }

  /** Group totals plus one weighted base per anchor give the groups' value for every base assignment. */
  lemma {:induction false} SumGroupsMeaning(order: seq<nat>, groups: map<nat, seq<Entry>>, symbols: SymbolTable, base: nat -> int)
    requires DistinctSections(order)
    requires forall i :: 0 <= i < |order| ==> GroupOf(groups, order[i]) != [] && EntriesIn(GroupOf(groups, order[i]), order[i], symbols)
    ensures SumGroups(order, groups).Ok? ==> Totalled(SumGroups(order, groups).value, order, groups, symbols, base)
  {
    if order != [] {
      SumGroupsMeaning(order[..|order| - 1], groups, symbols, base);
      var before := SumGroups(order[..|order| - 1], groups);
      if before.Ok? {
        AddGroupMeaning(before.value, order, groups, symbols, base);
      }
    }
  }

  // ---- choosing anchors --------------------------------------------------------

  datatype Choice = Choice(constant: i64, anchors: seq<Weighted<string>>)

  function Adjusted(constant: int, group: AnchorGroup, i: nat): int
    requires i < |group.candidates|
  {
    constant - group.coefficient * group.candidates[i].offset
  }

  function PickOne(constant: int, group: AnchorGroup, i: nat): Result<Choice, ClassifyError>
    requires i <= |group.candidates|
    decreases |group.candidates| - i
  {
    if i == |group.candidates| then Err(Overflow)
    else if IsI64(Adjusted(constant, group, i)) then
      Ok(Choice(Adjusted(constant, group, i), [Weighted(group.candidates[i].symbol, group.coefficient)]))
    else PickOne(constant, group, i + 1)
  }

  function PickTwo(constant: int, first: AnchorGroup, second: AnchorGroup, i: nat): Result<Choice, ClassifyError>
    requires i <= |first.candidates|
    decreases |first.candidates| - i
  {
    if i == |first.candidates| then Err(Overflow)
    else
      var inner := PickOne(Adjusted(constant, first, i), second, 0);
      if inner.Ok? then
        Ok(Choice(inner.value.constant, [Weighted(first.candidates[i].symbol, first.coefficient)] + inner.value.anchors))
      else PickTwo(constant, first, second, i + 1)
  }

  function SelectAnchors(constant: int, anchors: seq<AnchorGroup>): Result<Choice, ClassifyError>
    requires |anchors| <= 2
  {
    if |anchors| == 0 then (if IsI64(constant) then Ok(Choice(constant, [])) else Err(Overflow))
    else if |anchors| == 1 then PickOne(constant, anchors[0], 0)
    else PickTwo(constant, anchors[0], anchors[1], 0)
  }

  /** The chosen candidate is the first one whose adjusted constant fits; failure means none fits. */
  lemma {:induction false} PickOneFirst(constant: int, group: AnchorGroup, from: nat) returns (i: nat)
    requires from <= |group.candidates|
    ensures from <= i <= |group.candidates|
    ensures forall j :: from <= j < i ==> !IsI64(Adjusted(constant, group, j))
    ensures i == |group.candidates| ==> PickOne(constant, group, from) == Err(Overflow)
    ensures i < |group.candidates| ==>
              && IsI64(Adjusted(constant, group, i))
              && PickOne(constant, group, from)
                 == Ok(Choice(Adjusted(constant, group, i), [Weighted(group.candidates[i].symbol, group.coefficient)]))
    decreases |group.candidates| - from
  {
    if from == |group.candidates| || IsI64(Adjusted(constant, group, from)) {
      i := from;
    } else {
      i := PickOneFirst(constant, group, from + 1);
    }
  }

  /** Two anchors: the first viable pair in lexicographic order; failure means no pair is viable. */
  lemma {:induction false} PickTwoFirst(constant: int, first: AnchorGroup, second: AnchorGroup, from: nat)
    returns (i: nat, j: nat)
    requires from <= |first.candidates|
    ensures from <= i <= |first.candidates| && j <= |second.candidates|
    ensures forall p, q :: from <= p < |first.candidates| && 0 <= q < |second.candidates| && (p < i || (p == i && q < j)) ==>
                             !IsI64(Adjusted(Adjusted(constant, first, p), second, q))
    ensures i == |first.candidates| ==> PickTwo(constant, first, second, from) == Err(Overflow)
    ensures i < |first.candidates| ==>
              && j < |second.candidates|
              && IsI64(Adjusted(Adjusted(constant, first, i), second, j))
              && PickTwo(constant, first, second, from)
                 == Ok(Choice(Adjusted(Adjusted(constant, first, i), second, j),
                              [Weighted(first.candidates[i].symbol, first.coefficient),
                               Weighted(second.candidates[j].symbol, second.coefficient)]))
    decreases |first.candidates| - from
  {
    if from == |first.candidates| {
      i, j := from, 0;
    } else {
      var q := PickOneFirst(Adjusted(constant, first, from), second, 0);
      if q < |second.candidates| {
        i, j := from, q;
        var a, b := Weighted(first.candidates[i].symbol, first.coefficient), Weighted(second.candidates[j].symbol, second.coefficient);
        assert [a] + [b] == [a, b];
      } else {
        i, j := PickTwoFirst(constant, first, second, from + 1);
      }
    }
  }

  /** The chosen anchors, one per group in order, together with the new constant keep the value. */
  ghost predicate Anchored(constant: int, anchors: seq<AnchorGroup>, choice: Choice, symbols: SymbolTable, env: Environment) {
    && |choice.anchors| == |anchors|
    && (forall k :: 0 <= k < |anchors| ==>
          && choice.anchors[k].coeff == anchors[k].coefficient
          && Lookup(symbols, choice.anchors[k].item).Defined?
          && Lookup(symbols, choice.anchors[k].item).section == anchors[k].section)
    && choice.constant + Sum(choice.anchors, NameMeaning(symbols, env)) == constant + AnchorsValue(anchors, env.base)
  }

  lemma CandidateMeaning(g: AnchorGroup, i: nat, symbols: SymbolTable, env: Environment)
    requires i < |g.candidates| && CandidatesIn(g.candidates, g.section, symbols)
    ensures g.coefficient * SymbolMeaning(symbols, env, g.candidates[i].symbol)
            == g.coefficient * env.base(g.section) + g.coefficient * g.candidates[i].offset
  {
  }

  lemma SelectMeaning(constant: int, anchors: seq<AnchorGroup>, symbols: SymbolTable, env: Environment)
    requires |anchors| <= 2 && WellAnchored(anchors, symbols)
    ensures var r := SelectAnchors(constant, anchors);
            r.Ok? ==> Anchored(constant, anchors, r.value, symbols, env)
  {
    var r := SelectAnchors(constant, anchors);
    var f := NameMeaning(symbols, env);
    if r.Ok? && |anchors| == 1 {
      var g := anchors[0];
      var i := PickOneFirst(constant, g, 0);
      CandidateMeaning(g, i, symbols, env);
      assert r.value.anchors[1..] == [] && anchors[..0] == [];
    } else if r.Ok? && |anchors| == 2 {
      var g, h := anchors[0], anchors[1];
      var i, j := PickTwoFirst(constant, g, h, 0);
      CandidateMeaning(g, i, symbols, env);
      CandidateMeaning(h, j, symbols, env);
      var a := r.value.anchors;
      assert Sum(a, f) == a[0].coeff * f(a[0].item) + a[1].coeff * f(a[1].item) by {
        assert a[1..] == [a[1]] && [a[1]][1..] == [];
        assert Sum([a[1]], f) == a[1].coeff * f(a[1].item);
      }
      assert AnchorsValue(anchors, env.base) == g.coefficient * env.base(g.section) + h.coefficient * env.base(h.section) by {
        assert anchors[..1] == [g] && [g][..0] == [];
        assert AnchorsValue([g], env.base) == g.coefficient * env.base(g.section);
      }
    }
  }

  // ---- the resulting form --------------------------------------------------------

  function Coefficients(remaining: seq<Weighted<string>>, anchors: seq<AnchorGroup>): (cs: seq<int>)
    ensures |cs| == |remaining| + |anchors|
    ensures forall i :: 0 <= i < |remaining| ==> cs[i] == remaining[i].coeff
    ensures forall k :: 0 <= k < |anchors| ==> cs[|remaining| + k] == anchors[k].coefficient
  {
    seq(|remaining|, i requires 0 <= i < |remaining| => remaining[i].coeff)
    + seq(|anchors|, k requires 0 <= k < |anchors| => anchors[k].coefficient)
  }

  predicate Supported(cs: seq<int>) {
    cs == [] || cs == [1] || cs == [1, -1] || cs == [-1, 1]
  }

  function PushAll(ts: seq<Weighted<string>>, more: seq<Weighted<string>>): seq<Weighted<string>>
    decreases more
  {
    if more == [] then ts else PushAll(Push(ts, more[0].item, more[0].coeff), more[1..])
  }

  function FormOf(ts: seq<Weighted<string>>, constant: i64): Result<ClassifiedExpr, ClassifyError> {
    if |ts| == 0 then Ok(AbsoluteForm(constant))
    else if |ts| == 1 && ts[0].coeff == 1 then Ok(Relocatable(ts[0].item, constant))
    else if |ts| == 2 && ts[0].coeff == 1 && ts[1].coeff == -1 then Ok(Difference(ts[0].item, ts[1].item, constant))
    else if |ts| == 2 && ts[0].coeff == -1 && ts[1].coeff == 1 then Ok(Difference(ts[1].item, ts[0].item, constant))
    else Err(Illegal)
  }

  function GotForm(remaining: seq<Weighted<string>>, got: seq<Weighted<string>>, here: int,
                   constant: int, anchors: seq<AnchorGroup>): Result<ClassifiedExpr, ClassifyError>
  {
    if remaining != [] || anchors != [] then Err(Illegal)
    else if |got| != 1 || got[0].coeff != 1 then Err(Illegal)
    else if here != 0 && here != -1 then Err(Illegal)
    else if !IsI64(constant) then Err(Overflow)
    else Ok(PointerToGot(got[0].item, constant, here == -1))
  }

  function PlainForm(remaining: seq<Weighted<string>>, constant: int, anchors: seq<AnchorGroup>): Result<ClassifiedExpr, ClassifyError> {
    if !Supported(Coefficients(remaining, anchors)) then Err(Illegal)
    else
      var choice :- SelectAnchors(constant, anchors);
      FormOf(PushAll(remaining, choice.anchors), choice.constant)
  }

  function Finish(remaining: seq<Weighted<string>>, got: seq<Weighted<string>>, here: int,
                  constant: int, anchors: seq<AnchorGroup>): Result<ClassifiedExpr, ClassifyError>
  {
    if got != [] || here != 0 then GotForm(remaining, got, here, constant, anchors)
    else PlainForm(remaining, constant, anchors)
  }

  function Classify(e: Expr, symbols: SymbolTable): Result<ClassifiedExpr, ClassifyError> {
    if e.Unsigned? then Ok(if IsI64(e.magnitude) then AbsoluteForm(e.magnitude) else UnsignedForm(e.magnitude))
    else
      var linear :- Linearize(e, 1, Linear(0, []));
      var parts :- Split(NonZero(linear.terms), linear.constant, symbols);
      var totals :- SumGroups(parts.order, parts.groups);
      Finish(NonZero(parts.remaining), NonZero(parts.got), parts.here, parts.constant + totals.total, totals.anchors)
  }

  // ---- every accepted form has the value of the tree --------------------------------

  lemma {:induction false} PushAllSum(ts: seq<Weighted<string>>, more: seq<Weighted<string>>, f: string -> int)
    ensures Sum(PushAll(ts, more), f) == Sum(ts, f) + Sum(more, f)
    decreases more
  {
    if more != [] {
      PushSum(ts, more[0].item, more[0].coeff, f);
      PushAllSum(Push(ts, more[0].item, more[0].coeff), more[1..], f);
    }
  }

  lemma FormOfMeaning(ts: seq<Weighted<string>>, constant: i64, symbols: SymbolTable, env: Environment)
    ensures var r := FormOf(ts, constant);
            r.Ok? ==> FormValue(r.value, symbols, env) == constant + Sum(ts, NameMeaning(symbols, env))
  {
    if |ts| >= 1 {
      var f := NameMeaning(symbols, env);
      assert Sum(ts, f) == ts[0].coeff * f(ts[0].item) + Sum(ts[1..], f);
      if |ts| == 2 {
        assert ts[1..][1..] == [];
        assert Sum(ts[1..], f) == ts[1].coeff * f(ts[1].item);
      }
    }
  }

  lemma FinishMeaning(remaining: seq<Weighted<string>>, got: seq<Weighted<string>>, here: int, constant: int,
                      anchors: seq<AnchorGroup>, symbols: SymbolTable, env: Environment)
    requires WellAnchored(anchors, symbols)
    ensures var r := Finish(remaining, got, here, constant, anchors);
            r.Ok? ==> FormValue(r.value, symbols, env)
                      == constant + AnchorsValue(anchors, env.base) + Sum(remaining, NameMeaning(symbols, env))
                         + Sum(got, env.got) + here * env.location
  {
    var r := Finish(remaining, got, here, constant, anchors);
    if r.Ok? {
      if got != [] || here != 0 {
        assert got[1..] == [];
        assert Sum(got, env.got) == env.got(got[0].item);
      } else {
        SelectMeaning(constant, anchors, symbols, env);
        var choice := SelectAnchors(constant, anchors).value;
        PushAllSum(remaining, choice.anchors, NameMeaning(symbols, env));
        FormOfMeaning(PushAll(remaining, choice.anchors), choice.constant, symbols, env);
      }
    }
  }

  /** What classification knows about the tree once the groups are totalled. */
  ghost predicate Reduced(parts: Parts, totals: Totals, e: Expr, symbols: SymbolTable, env: Environment) {
    Value(e, symbols, env) == parts.constant + totals.total + AnchorsValue(totals.anchors, env.base)
                              + Sum(NonZero(parts.remaining), NameMeaning(symbols, env))
                              + Sum(NonZero(parts.got), env.got) + parts.here * env.location
  }

  lemma SplitReached(e: Expr, symbols: SymbolTable, env: Environment)
    requires Linearize(e, 1, Linear(0, [])).Ok?
    ensures var linear := Linearize(e, 1, Linear(0, [])).value;
            var parts := Split(NonZero(linear.terms), linear.constant, symbols);
            parts.Ok? ==> WellSplit(parts.value, symbols) && PartsValue(parts.value, symbols, env) == Value(e, symbols, env)
  {
    hide Linearize, Split, WellSplit, PartsValue;
    LinearizeMeaning(e, 1, Linear(0, []), symbols, env);
    var linear := Linearize(e, 1, Linear(0, [])).value;
    NonZeroSum(linear.terms, TermMeaning(symbols, env));
    SplitMeaning(NonZero(linear.terms), linear.constant, symbols, env);
  }

  lemma TotalsReached(e: Expr, parts: Parts, symbols: SymbolTable, env: Environment)
    requires WellSplit(parts, symbols) && PartsValue(parts, symbols, env) == Value(e, symbols, env)
    ensures var totals := SumGroups(parts.order, parts.groups);
            totals.Ok? ==> WellAnchored(totals.value.anchors, symbols) && Reduced(parts, totals.value, e, symbols, env)
  {
    SumGroupsMeaning(parts.order, parts.groups, symbols, env.base);
    NonZeroSum(parts.remaining, NameMeaning(symbols, env));
    NonZeroSum(parts.got, env.got);
  }

  lemma UnsignedMeaning(e: Expr, symbols: SymbolTable, env: Environment)
    requires e.Unsigned?
    ensures Classify(e, symbols).Ok? && FormValue(Classify(e, symbols).value, symbols, env) == Value(e, symbols, env)
  {
  }

  /**
    Classification preserves meaning: for every choice of section bases, undefined-symbol addresses,
    GOT slots and current location, an accepted form has exactly the value of the expression.
   */
  lemma ClassifyMeaning(e: Expr, symbols: SymbolTable, env: Environment)
    ensures var r := Classify(e, symbols);
            r.Ok? ==> FormValue(r.value, symbols, env) == Value(e, symbols, env)
  {
    hide Linearize, Split, SumGroups, Finish, WellSplit, WellAnchored, NonZero, Sum, AnchorsValue, FormValue, Value, PartsValue;
    if e.Unsigned? {
      UnsignedMeaning(e, symbols, env);
    } else if Classify(e, symbols).Ok? {
      var linear := Linearize(e, 1, Linear(0, [])).value;
      SplitReached(e, symbols, env);
      var parts := Split(NonZero(linear.terms), linear.constant, symbols).value;
      TotalsReached(e, parts, symbols, env);
      var totals := SumGroups(parts.order, parts.groups).value;
      FinishMeaning(NonZero(parts.remaining), NonZero(parts.got), parts.here, parts.constant + totals.total,
                    totals.anchors, symbols, env);
    }
  }

  // ---- one expression under two tables ------------------------------------------------

  /** Splitting gathers the same GOT terms and the same weight of the location under every table. */
  lemma {:induction false} SplitSameGot(terms: seq<Weighted<Term>>, constant: i64, s1: SymbolTable, s2: SymbolTable)
    requires Split(terms, constant, s1).Ok? && Split(terms, constant, s2).Ok?
    ensures Split(terms, constant, s1).value.got == Split(terms, constant, s2).value.got
    ensures Split(terms, constant, s1).value.here == Split(terms, constant, s2).value.here
  {
    if terms != [] {
      SplitSameGot(terms[..|terms| - 1], constant, s1, s2);
    }
  }

  lemma FinishPointer(remaining: seq<Weighted<string>>, got: seq<Weighted<string>>, here: int, constant: int, anchors: seq<AnchorGroup>)
    requires Finish(remaining, got, here, constant, anchors).Ok?
    ensures var form := Finish(remaining, got, here, constant, anchors).value;
            && (form.PointerToGot? <==> got != [] || here != 0)
            && (form.PointerToGot? ==> got != [] && form.symbol == got[0].item && form.pcrel == (here == -1))
  {
    hide SelectAnchors, PushAll, Supported;
  }

  /** A GOT form stays one, of the same symbol and kind: under another table only the addend can differ. */
  lemma PointerStays(e: Expr, s1: SymbolTable, s2: SymbolTable)
    requires Classify(e, s1).Ok? && Classify(e, s1).value.PointerToGot? && Classify(e, s2).Ok?
    ensures var f, g := Classify(e, s1).value, Classify(e, s2).value;
            g.PointerToGot? && g.symbol == f.symbol && g.pcrel == f.pcrel
  {
    hide Linearize, Split, SumGroups, Finish;
    var linear := Linearize(e, 1, Linear(0, [])).value;
    var terms := NonZero(linear.terms);
    SplitSameGot(terms, linear.constant, s1, s2);
    var a, b := Split(terms, linear.constant, s1).value, Split(terms, linear.constant, s2).value;
    var ta, tb := SumGroups(a.order, a.groups).value, SumGroups(b.order, b.groups).value;
    FinishPointer(NonZero(a.remaining), NonZero(a.got), a.here, a.constant + ta.total, ta.anchors);
    FinishPointer(NonZero(b.remaining), NonZero(b.got), b.here, b.constant + tb.total, tb.anchors);
  }

  /** Its two values differ, for every link, by as much as the addends. */
  lemma PointerShift(e: Expr, s1: SymbolTable, s2: SymbolTable, env: Environment)
    requires Classify(e, s1).Ok? && Classify(e, s1).value.PointerToGot? && Classify(e, s2).Ok?
    ensures Classify(e, s2).value.PointerToGot?
    ensures Value(e, s2, env) - Value(e, s1, env) == Classify(e, s2).value.addend - Classify(e, s1).value.addend
  {
    hide Classify, Value;
    PointerStays(e, s1, s2);
    ClassifyMeaning(e, s1, env);
    ClassifyMeaning(e, s2, env);
  }

  // ---- the classifier, loop by loop ---------------------------------------------------

  lemma {:induction false} LinearizeFails(e: Expr, sign: int, acc: Linear)
    requires sign == 1 || sign == -1
    ensures Linearize(e, sign, acc) != Err(Illegal)
    decreases e
  {
    match e
    case UnaryMinus(x) => LinearizeFails(x, 0 - sign, acc);
    case Add(x, y) =>
      LinearizeFails(x, sign, acc);
      if Linearize(x, sign, acc).Ok? {
        LinearizeFails(y, sign, Linearize(x, sign, acc).value);
      }
    case Sub(x, y) =>
      LinearizeFails(x, sign, acc);
      if Linearize(x, sign, acc).Ok? {
        LinearizeFails(y, 0 - sign, Linearize(x, sign, acc).value);
      }
    case _ =>
  }

  lemma {:induction false} SplitStops(terms: seq<Weighted<Term>>, constant: i64, symbols: SymbolTable, i: nat)
    requires i <= |terms| && Split(terms[..i], constant, symbols).Err?
    ensures Split(terms, constant, symbols) == Split(terms[..i], constant, symbols)
  {
    if i == |terms| {
      assert terms[..i] == terms;
    } else {
      var last := |terms| - 1;
      assert terms[..last][..i] == terms[..i];
      SplitStops(terms[..last], constant, symbols, i);
    }
  }

  method SplitTerms(terms: seq<Weighted<Term>>, constant: i64, symbols: SymbolTable) returns (r: Result<Parts, ClassifyError>)
    ensures r == Split(terms, constant, symbols)
  {
    hide Push;
    var parts := Parts(constant, [], map[], [], [], 0);
    var i := 0;
    while i < |terms|
      invariant 0 <= i <= |terms|
      invariant Split(terms[..i], constant, symbols) == Ok(parts)
    {
      var coeff := terms[i].coeff;
      assert terms[..i + 1][..i] == terms[..i] && terms[..i + 1][i] == terms[i];
      match terms[i].item {
        case Plain(name) =>
          match Lookup(symbols, name) {
            case Absolute(v) =>
              var product := v * coeff;
              if !IsI64(product) || !IsI64(parts.constant + product) {
                SplitStops(terms, constant, symbols, i + 1);
                return Err(Overflow);
              }
              parts := parts.(constant := parts.constant + product);
            case Defined(section, offset) =>
              var order := parts.order;
              if section !in parts.groups {
                order := order + [section];
              }
              var group := if section in parts.groups then parts.groups[section] else [];
              parts := parts.(order := order, groups := parts.groups[section := group + [Entry(name, offset, coeff)]]);
            case Undefined =>
              var remaining := PushEntry(parts.remaining, name, coeff);
              parts := parts.(remaining := remaining);
          }
        case Got(name) =>
          var got := PushEntry(parts.got, name, coeff);
          parts := parts.(got := got);
        case Location =>
          parts := parts.(here := parts.here + coeff);
      }
      i := i + 1;
    }
    assert terms[..i] == terms;
    return Ok(parts);
  }

  method DefinedGroupTotal(group: seq<Entry>) returns (sum: int, total: int)
    ensures sum == CoeffSum(group) && total == GroupTotal(group)
  {
    sum, total := 0, 0;
    var i := 0;
    while i < |group|
      invariant 0 <= i <= |group|
      invariant sum == CoeffSum(group[..i]) && total == GroupTotal(group[..i])
    {
      assert group[..i + 1][..i] == group[..i];
      sum, total := sum + group[i].coeff, total + group[i].offset * group[i].coeff;
      i := i + 1;
    }
    assert group[..i] == group;
  }

  lemma {:induction false} SumGroupsStops(order: seq<nat>, groups: map<nat, seq<Entry>>, i: nat)
    requires i <= |order| && SumGroups(order[..i], groups).Err?
    ensures SumGroups(order, groups) == SumGroups(order[..i], groups)
  {
    if i == |order| {
      assert order[..i] == order;
    } else {
      assert order[..|order| - 1][..i] == order[..i];
      SumGroupsStops(order[..|order| - 1], groups, i);
    }
  }

  method TotalGroups(order: seq<nat>, groups: map<nat, seq<Entry>>) returns (r: Result<Totals, ClassifyError>)
    ensures r == SumGroups(order, groups)
  {
    hide CoeffSum, GroupTotal;
    var definedTotal := 0;
    var anchors: seq<AnchorGroup> := [];
    var i := 0;
    while i < |order|
      invariant 0 <= i <= |order|
      invariant SumGroups(order[..i], groups) == Ok(Totals(definedTotal, anchors))
    {
      assert order[..i + 1][..i] == order[..i] && order[..i + 1][i] == order[i];
      var group := GroupOf(groups, order[i]);
      var sum, total := DefinedGroupTotal(group);
      definedTotal := definedTotal + total;
      if sum == 1 || sum == -1 {
        anchors := anchors + [AnchorGroup(order[i], sum, Candidates(group))];
      } else if sum != 0 {
        SumGroupsStops(order, groups, i + 1);
        return Err(Illegal);
      }
      i := i + 1;
    }
    assert order[..i] == order;
    return Ok(Totals(definedTotal, anchors));
  }

  method ChooseOne(constant: int, group: AnchorGroup) returns (r: Result<Choice, ClassifyError>)
    ensures r == PickOne(constant, group, 0)
  {
    var i := 0;
    while i < |group.candidates|
      invariant 0 <= i <= |group.candidates|
      invariant PickOne(constant, group, 0) == PickOne(constant, group, i)
    {
      var adjusted := constant - group.coefficient * group.candidates[i].offset;
      if IsI64(adjusted) {
        return Ok(Choice(adjusted, [Weighted(group.candidates[i].symbol, group.coefficient)]));
      }
      i := i + 1;
    }
    return Err(Overflow);
  }

  method ChooseAnchors(constant: int, anchors: seq<AnchorGroup>) returns (r: Result<Choice, ClassifyError>)
    requires |anchors| <= 2
    ensures r == SelectAnchors(constant, anchors)
  {
    hide PickOne;
    if |anchors| == 0 {
      return if IsI64(constant) then Ok(Choice(constant, [])) else Err(Overflow);
    } else if |anchors| == 1 {
      r := ChooseOne(constant, anchors[0]);
    } else {
      var first, second := anchors[0], anchors[1];
      var i := 0;
      while i < |first.candidates|
        invariant 0 <= i <= |first.candidates|
        invariant PickTwo(constant, first, second, 0) == PickTwo(constant, first, second, i)
      {
        var inner := ChooseOne(constant - first.coefficient * first.candidates[i].offset, second);
        if inner.Ok? {
          return Ok(Choice(inner.value.constant,
                           [Weighted(first.candidates[i].symbol, first.coefficient)] + inner.value.anchors));
        }
        i := i + 1;
      }
      return Err(Overflow);
    }
  }

  /** The chosen anchors join the remaining terms; what is left must have one of the plain shapes. */
  method ChoosePlain(remaining: seq<Weighted<string>>, constant: int, anchors: seq<AnchorGroup>) returns (r: Result<ClassifiedExpr, ClassifyError>)
    ensures r == PlainForm(remaining, constant, anchors)
  {
    hide SelectAnchors, FormOf, Coefficients, Push;
    if !Supported(Coefficients(remaining, anchors)) {
      return Err(Illegal);
    }
    var choice :- ChooseAnchors(constant, anchors);
    var all := remaining;
    var i := 0;
    while i < |choice.anchors|
      invariant 0 <= i <= |choice.anchors|
      invariant PushAll(all, choice.anchors[i..]) == PushAll(remaining, choice.anchors)
    {
      all := PushEntry(all, choice.anchors[i].item, choice.anchors[i].coeff);
      assert choice.anchors[i..][1..] == choice.anchors[i + 1..];
      i := i + 1;
    }
    r := FormOf(all, choice.constant);
  }

  /** A GOT form if GOT terms or the location are left, else one of the plain forms. */
  method ChooseForm(remaining: seq<Weighted<string>>, got: seq<Weighted<string>>, here: int, constant: int, anchors: seq<AnchorGroup>)
    returns (r: Result<ClassifiedExpr, ClassifyError>)
    ensures r == Finish(remaining, got, here, constant, anchors)
  {
    hide PlainForm;
    if got != [] || here != 0 {
      if remaining != [] || anchors != [] {
        return Err(Illegal);
      }
      if |got| != 1 || got[0].coeff != 1 {
        return Err(Illegal);
      }
      if here != 0 && here != -1 {
        return Err(Illegal);
      }
      if !IsI64(constant) {
        return Err(Overflow);
      }
      return Ok(PointerToGot(got[0].item, constant, here == -1));
    }
    r := ChoosePlain(remaining, constant, anchors);
  }

  method ClassifyWithLookup(e: Expr, symbols: SymbolTable) returns (r: Result<ClassifiedExpr, ClassifyError>)
    ensures r == Classify(e, symbols)
  {
    hide Linearize, Split, SumGroups, Finish, NonZero;
    if e.Unsigned? {
      return Ok(if IsI64(e.magnitude) then AbsoluteForm(e.magnitude) else UnsignedForm(e.magnitude));
    }
    LinearizeFails(e, 1, Linear(0, []));
    var acc := new Accumulator();
    var ok := acc.Walk(e, 1);
    if !ok {
      assert Linearize(e, 1, Linear(0, [])).error == Overflow;
      return Err(Overflow);
    }
    var parts :- SplitTerms(NonZero(acc.terms), acc.constant, symbols);
    var totals :- TotalGroups(parts.order, parts.groups);
    r := ChooseForm(NonZero(parts.remaining), NonZero(parts.got), parts.here, parts.constant + totals.total, totals.anchors);
  }
}
