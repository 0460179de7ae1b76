/**
  Completeness of the expression classifier (src/expr.rs): an expression it calls illegal has no form.
  The argument compares, unknown by unknown, how much a form and a tree change when that link-time
  unknown goes from 0 to 1.
 */
module ExprComplete {
  import opened Words
  import opened Expr

  /** The independent link-time unknowns. */
  datatype Unknown = Base(section: nat) | Address(name: string) | GotSlot(name: string) | Here

  /** The environment in which one unknown is 1 and all others are 0. */
  function Probe(u: Option<Unknown>): Environment {
    Environment((s: nat) => if u == Some(Base(s)) then 1 else 0, n => if u == Some(Address(n)) then 1 else 0,
                n => if u == Some(GotSlot(n)) then 1 else 0, if u == Some(Here) then 1 else 0)
  }

  function FormSlope(form: ClassifiedExpr, symbols: SymbolTable, u: Unknown): int {
    FormValue(form, symbols, Probe(Some(u))) - FormValue(form, symbols, Probe(None))
  }

  function Slope(e: Expr, symbols: SymbolTable, u: Unknown): int {
    Value(e, symbols, Probe(Some(u))) - Value(e, symbols, Probe(None))
  }

  /** A form names only symbols that have an address. */
  predicate Relocates(form: ClassifiedExpr, symbols: SymbolTable) {
    match form
    case Relocatable(s, _) => !Lookup(symbols, s).Absolute?
    case Difference(m, s, _) => !Lookup(symbols, m).Absolute? && !Lookup(symbols, s).Absolute?
    case _ => true
  }

  ghost predicate SameSlopes(form: ClassifiedExpr, e: Expr, symbols: SymbolTable) {
    forall u: Unknown :: FormSlope(form, symbols, u) == Slope(e, symbols, u)
  }

  function AnchorWeight(anchors: seq<AnchorGroup>, section: nat): int {
    if anchors == [] then 0
    else
      var last := |anchors| - 1;
      AnchorWeight(anchors[..last], section) + if anchors[last].section == section then anchors[last].coefficient else 0
  }

  lemma {:induction false} AnchorWeightOf(anchors: seq<AnchorGroup>, section: nat)
    requires forall j, k :: 0 <= j < k < |anchors| ==> anchors[j].section != anchors[k].section
    ensures forall k :: 0 <= k < |anchors| && anchors[k].section == section ==> AnchorWeight(anchors, section) == anchors[k].coefficient
    ensures (forall k :: 0 <= k < |anchors| ==> anchors[k].section != section) ==> AnchorWeight(anchors, section) == 0
  {
    if anchors != [] {
      AnchorWeightOf(anchors[..|anchors| - 1], section);
    }
  }

  lemma {:induction false} AnchorsSlope(anchors: seq<AnchorGroup>, u: Unknown)
    ensures AnchorsValue(anchors, Probe(Some(u)).base) - AnchorsValue(anchors, Probe(None).base)
            == if u.Base? then AnchorWeight(anchors, u.section) else 0
  {
    if anchors != [] {
      AnchorsSlope(anchors[..|anchors| - 1], u);
    }
  }

  /** The coefficient of each unknown in a reduced expression. */
  function ReducedSlope(remaining: seq<Weighted<string>>, got: seq<Weighted<string>>, here: int,
                        anchors: seq<AnchorGroup>, u: Unknown): int
  {
    match u
    case Base(s) => AnchorWeight(anchors, s)
    case Address(n) => Weight(remaining, n)
    case GotSlot(n) => Weight(got, n)
    case Here => here
  }

  lemma ReducedSlopes(parts: Parts, totals: Totals, e: Expr, symbols: SymbolTable, u: Unknown)
    requires Reduced(parts, totals, e, symbols, Probe(Some(u))) && Reduced(parts, totals, e, symbols, Probe(None))
    requires AllUndefined(NonZero(parts.remaining), symbols)
    ensures Slope(e, symbols, u) == ReducedSlope(NonZero(parts.remaining), NonZero(parts.got), parts.here, totals.anchors, u)
  {
    hide Sum, Weight, NonZero, AnchorsValue;
    var on, off := Probe(Some(u)), Probe(None);
    var remaining, got := NonZero(parts.remaining), NonZero(parts.got);
    AnchorsSlope(totals.anchors, u);
    var f, g := NameMeaning(symbols, on), NameMeaning(symbols, off);
    if u.Address? {
      SumSlope(remaining, f, g, u.name);
    } else {
      SumSame(remaining, f, g);
    }
    if u.GotSlot? {
      SumSlope(got, on.got, off.got, u.name);
    } else {
      SumSame(got, on.got, off.got);
    }
  }

  lemma ChosenAreNew(remaining: seq<Weighted<string>>, constant: int, anchors: seq<AnchorGroup>, symbols: SymbolTable)
    requires AllUndefined(remaining, symbols) && WellAnchored(anchors, symbols)
    requires Supported(Coefficients(remaining, anchors))
    ensures PlainForm(remaining, constant, anchors) != Err(Illegal)
  {
    var env := Probe(None);
    SelectMeaning(constant, anchors, symbols, env);
    SelectFails(constant, anchors);
    var r := SelectAnchors(constant, anchors);
    if r.Ok? {
      assert Anchored(constant, anchors, r.value, symbols, env);
      var chosen := r.value.anchors;
      PushChosen(remaining, chosen);
      var all := remaining + chosen;
      var cs := Coefficients(remaining, anchors);
      forall i | 0 <= i < |cs| ensures all[i].coeff == cs[i] {
        if i >= |remaining| {
          assert cs[|remaining| + (i - |remaining|)] == anchors[i - |remaining|].coefficient;
        }
      }
      ShapeAccepted(all, cs, r.value.constant);
    }
  }

  lemma {:induction false} SelectFails(constant: int, anchors: seq<AnchorGroup>)
    requires |anchors| <= 2
    ensures SelectAnchors(constant, anchors) != Err(Illegal)
  {
    if |anchors| == 1 {
      var i := PickOneFirst(constant, anchors[0], 0);
    } else if |anchors| == 2 {
      var i, j := PickTwoFirst(constant, anchors[0], anchors[1], 0);
    }
  }

  lemma ShapeAccepted(ts: seq<Weighted<string>>, cs: seq<int>, constant: i64)
    requires |ts| == |cs| && Supported(cs) && forall i :: 0 <= i < |cs| ==> ts[i].coeff == cs[i]
    ensures FormOf(ts, constant).Ok?
  {
    assert |cs| == 1 ==> cs[0] == 1;
    assert |cs| == 2 ==> (cs[0] == 1 && cs[1] == -1) || (cs[0] == -1 && cs[1] == 1);
  }

  lemma PushChosen(ts: seq<Weighted<string>>, more: seq<Weighted<string>>)
    requires |more| <= 2 && DistinctItems(more)
    requires forall i, j :: 0 <= i < |ts| && 0 <= j < |more| ==> ts[i].item != more[j].item
    ensures PushAll(ts, more) == ts + more
  {
    if |more| >= 1 {
      hide Push;
      PushNew(ts, more[0].item, more[0].coeff);
      var one := ts + [more[0]];
      assert PushAll(ts, more) == PushAll(one, more[1..]);
      if |more| == 2 {
        PushNew(one, more[1].item, more[1].coeff);
        assert more[1..] == [more[1]] && more[1..][1..] == [];
        assert PushAll(one, more[1..]) == Push(one, more[1].item, more[1].coeff);
        assert one + [more[1]] == ts + more;
      } else {
        assert more[1..] == [];
        assert one == ts + more;
      }
    } else {
      assert ts + more == ts;
    }
  }

  /** If some form has the slopes of a reduced expression, the last step finds one. */
  lemma FinishComplete(remaining: seq<Weighted<string>>, got: seq<Weighted<string>>, here: int, constant: int,
                       anchors: seq<AnchorGroup>, form: ClassifiedExpr, symbols: SymbolTable)
    requires AllUndefined(remaining, symbols) && DistinctItems(remaining) && DistinctItems(got)
    requires forall i :: 0 <= i < |remaining| ==> remaining[i].coeff != 0
    requires forall i :: 0 <= i < |got| ==> got[i].coeff != 0
    requires WellAnchored(anchors, symbols) && Relocates(form, symbols)
    requires forall u: Unknown :: FormSlope(form, symbols, u) == ReducedSlope(remaining, got, here, anchors, u)
    ensures Finish(remaining, got, here, constant, anchors) != Err(Illegal)
  {
    SlopesListed(remaining, got, here, anchors, form, symbols);
    if got != [] || here != 0 {
      GotComplete(remaining, got, here, constant, anchors, form, symbols);
    } else {
      PlainComplete(remaining, got, anchors, form, symbols);
      ChosenAreNew(remaining, constant, anchors, symbols);
    }
  }

  /** The slopes of a form at every listed unknown. */
  ghost predicate Listed(remaining: seq<Weighted<string>>, got: seq<Weighted<string>>, here: int,
                         anchors: seq<AnchorGroup>, form: ClassifiedExpr, symbols: SymbolTable)
  {
    && (forall i :: 0 <= i < |remaining| ==> FormSlope(form, symbols, Address(remaining[i].item)) == remaining[i].coeff != 0)
    && (forall i :: 0 <= i < |got| ==> FormSlope(form, symbols, GotSlot(got[i].item)) == got[i].coeff != 0)
    && (forall k :: 0 <= k < |anchors| ==> FormSlope(form, symbols, Base(anchors[k].section)) == anchors[k].coefficient)
    && FormSlope(form, symbols, Here) == here
  }

  lemma SlopesListed(remaining: seq<Weighted<string>>, got: seq<Weighted<string>>, here: int,
                     anchors: seq<AnchorGroup>, form: ClassifiedExpr, symbols: SymbolTable)
    requires DistinctItems(remaining) && DistinctItems(got) && WellAnchored(anchors, symbols)
    requires forall i :: 0 <= i < |remaining| ==> remaining[i].coeff != 0
    requires forall i :: 0 <= i < |got| ==> got[i].coeff != 0
    requires forall u: Unknown :: FormSlope(form, symbols, u) == ReducedSlope(remaining, got, here, anchors, u)
    ensures Listed(remaining, got, here, anchors, form, symbols)
  {
    hide FormSlope, Relocates;
    forall i | 0 <= i < |remaining| ensures FormSlope(form, symbols, Address(remaining[i].item)) == remaining[i].coeff {
      WeightOf(remaining, remaining[i].item);
    }
    forall i | 0 <= i < |got| ensures FormSlope(form, symbols, GotSlot(got[i].item)) == got[i].coeff {
      WeightOf(got, got[i].item);
    }
    forall k | 0 <= k < |anchors| ensures FormSlope(form, symbols, Base(anchors[k].section)) == anchors[k].coefficient {
      AnchorWeightOf(anchors, anchors[k].section);
    }
    assert FormSlope(form, symbols, Here) == here;
  }

  lemma GotSlopes(form: ClassifiedExpr, symbols: SymbolTable, u: Unknown)
    ensures form.PointerToGot? ==>
              FormSlope(form, symbols, u) == if u == GotSlot(form.symbol) then 1 else if u == Here && form.pcrel then -1 else 0
    ensures !form.PointerToGot? && (u.GotSlot? || u.Here?) ==> FormSlope(form, symbols, u) == 0
  {
  }

  lemma GotComplete(remaining: seq<Weighted<string>>, got: seq<Weighted<string>>, here: int, constant: int,
                    anchors: seq<AnchorGroup>, form: ClassifiedExpr, symbols: SymbolTable)
    requires DistinctItems(got) && WellAnchored(anchors, symbols)
    requires Listed(remaining, got, here, anchors, form, symbols)
    requires forall n :: FormSlope(form, symbols, GotSlot(n)) == Weight(got, n)
    requires got != [] || here != 0
    ensures GotForm(remaining, got, here, constant, anchors) != Err(Illegal)
  {
    hide FormSlope;
    forall u { GotSlopes(form, symbols, u); }
    assert form.PointerToGot? by {
      if got != [] {
        assert FormSlope(form, symbols, GotSlot(got[0].item)) != 0;
      }
    }
    assert Weight(got, form.symbol) == 1;
    assert forall i :: 0 <= i < |got| ==> got[i].item == form.symbol;
    assert |got| == 1 && got[0].coeff == 1;
    var r := if remaining != [] then Address(remaining[0].item) else Here;
    GotSlopes(form, symbols, r);
    assert remaining == [];
    var a := if anchors != [] then Base(anchors[0].section) else Here;
    GotSlopes(form, symbols, a);
    assert anchors == [];
  }

  function Unknowns(remaining: seq<Weighted<string>>, anchors: seq<AnchorGroup>): (us: seq<Unknown>)
    ensures |us| == |remaining| + |anchors|
    ensures forall i :: 0 <= i < |remaining| ==> us[i] == Address(remaining[i].item)
    ensures forall k :: 0 <= k < |anchors| ==> us[|remaining| + k] == Base(anchors[k].section)
  {
    seq(|remaining|, i requires 0 <= i < |remaining| => Address(remaining[i].item))
    + seq(|anchors|, k requires 0 <= k < |anchors| => Base(anchors[k].section))
  }

  function UnknownOf(symbols: SymbolTable, name: string): Unknown {
    var v := Lookup(symbols, name);
    if v.Defined? then Base(v.section) else Address(name)
  }

  function Indicator(u: Unknown, v: Unknown): int { if u == v then 1 else 0 }

  lemma PlainSlope(form: ClassifiedExpr, symbols: SymbolTable, u: Unknown)
    requires Relocates(form, symbols)
    ensures form.AbsoluteForm? || form.UnsignedForm? ==> FormSlope(form, symbols, u) == 0
    ensures form.Relocatable? ==> FormSlope(form, symbols, u) == Indicator(u, UnknownOf(symbols, form.symbol))
    ensures form.Difference? ==>
              FormSlope(form, symbols, u) == Indicator(u, UnknownOf(symbols, form.minuend)) - Indicator(u, UnknownOf(symbols, form.subtrahend))
  {
  }

  lemma PlainComplete(remaining: seq<Weighted<string>>, got: seq<Weighted<string>>, anchors: seq<AnchorGroup>,
                      form: ClassifiedExpr, symbols: SymbolTable)
    requires DistinctItems(remaining) && WellAnchored(anchors, symbols) && Relocates(form, symbols)
    requires got == [] && Listed(remaining, got, 0, anchors, form, symbols)
    requires forall u: Unknown :: FormSlope(form, symbols, u) == ReducedSlope(remaining, got, 0, anchors, u)
    ensures Supported(Coefficients(remaining, anchors))
  {
    hide FormSlope, AnchorWeight, Lookup, WellAnchored;
    var us, cs := Unknowns(remaining, anchors), Coefficients(remaining, anchors);
    var first := if us != [] then us[0] else Here;
    forall i, j | 0 <= i < j < |us| ensures us[i] != us[j] {
      UnknownsDistinct(remaining, anchors, symbols, i, j);
    }
    forall i | 0 <= i < |us| ensures FormSlope(form, symbols, us[i]) == cs[i] != 0 {
      UnknownsListed(remaining, anchors, form, symbols, i);
    }
    if form.PointerToGot? {
      GotSlope(form, symbols);
      assert false;
    }
    forall i | 0 <= i < |us| { PlainSlope(form, symbols, us[i]); }
    if form.Difference? {
      var p, q := UnknownOf(symbols, form.minuend), UnknownOf(symbols, form.subtrahend);
      PlainSlope(form, symbols, p);
      PlainSlope(form, symbols, q);
      if p != q {
        NonZeroListed(remaining, anchors, symbols, p);
        NonZeroListed(remaining, anchors, symbols, q);
        DifferenceShape(us, cs, p, q);
      }
    } else if form.Relocatable? {
      RelocatableShape(us, cs, UnknownOf(symbols, form.symbol));
    } else {
      PlainSlope(form, symbols, first);
      assert cs == [];
    }
  }

  lemma GotSlope(form: ClassifiedExpr, symbols: SymbolTable)
    requires form.PointerToGot?
    ensures FormSlope(form, symbols, GotSlot(form.symbol)) == 1
  {
  }

  lemma UnknownsDistinct(remaining: seq<Weighted<string>>, anchors: seq<AnchorGroup>, symbols: SymbolTable, i: nat, j: nat)
    requires DistinctItems(remaining) && WellAnchored(anchors, symbols)
    requires i < j < |Unknowns(remaining, anchors)|
    ensures Unknowns(remaining, anchors)[i] != Unknowns(remaining, anchors)[j]
  {
    var us, r := Unknowns(remaining, anchors), |remaining|;
    if i >= r {
      assert us[r + (i - r)] == Base(anchors[i - r].section) && us[r + (j - r)] == Base(anchors[j - r].section);
    } else if j >= r {
      assert us[r + (j - r)] == Base(anchors[j - r].section);
    }
  }

  lemma UnknownsListed(remaining: seq<Weighted<string>>, anchors: seq<AnchorGroup>, form: ClassifiedExpr, symbols: SymbolTable, i: nat)
    requires WellAnchored(anchors, symbols) && Listed(remaining, [], 0, anchors, form, symbols)
    requires i < |Unknowns(remaining, anchors)|
    ensures FormSlope(form, symbols, Unknowns(remaining, anchors)[i]) == Coefficients(remaining, anchors)[i] != 0
  {
    hide FormSlope, CandidatesIn, Lookup, Unknowns, Coefficients;
    var us, cs, r := Unknowns(remaining, anchors), Coefficients(remaining, anchors), |remaining|;
    if i < r {
      assert us[i] == Address(remaining[i].item) && cs[i] == remaining[i].coeff;
    } else {
      var k := i - r;
      assert us[r + k] == Base(anchors[k].section) && cs[r + k] == anchors[k].coefficient;
      assert FormSlope(form, symbols, Base(anchors[k].section)) == anchors[k].coefficient;
    }
  }

  lemma NonZeroListed(remaining: seq<Weighted<string>>, anchors: seq<AnchorGroup>, symbols: SymbolTable, u: Unknown)
    requires DistinctItems(remaining) && WellAnchored(anchors, symbols)
    requires ReducedSlope(remaining, [], 0, anchors, u) != 0
    ensures u in Unknowns(remaining, anchors)
  {
    var us := Unknowns(remaining, anchors);
    match u
    case Address(n) =>
      WeightOf(remaining, n);
      var i :| 0 <= i < |remaining| && remaining[i].item == n;
      assert us[i] == u;
    case Base(s) =>
      AnchorWeightOf(anchors, s);
      var k :| 0 <= k < |anchors| && anchors[k].section == s;
      assert us[|remaining| + k] == u;
    case _ =>
  }

  /** Two distinct elements cannot both be p, three cannot all be p or q. */
  lemma Outsider(us: seq<Unknown>, p: Unknown, q: Unknown) returns (k: nat)
    requires forall i, j :: 0 <= i < j < |us| ==> us[i] != us[j]
    requires |us| > 2 || (|us| == 2 && p == q)
    ensures k < |us| && us[k] != p && us[k] != q
  {
    k := if us[0] != p && us[0] != q then 0 else if us[1] != p && us[1] != q then 1 else 2;
  }

  lemma RelocatableShape(us: seq<Unknown>, cs: seq<int>, p: Unknown)
    requires |us| == |cs|
    requires forall i, j :: 0 <= i < j < |us| ==> us[i] != us[j]
    requires forall i :: 0 <= i < |us| ==> Indicator(us[i], p) == cs[i] != 0
    ensures cs == [] || cs == [1]
  {
    if |us| > 1 {
      var k := Outsider(us, p, p);
      assert false;
    }
  }

  lemma DifferenceShape(us: seq<Unknown>, cs: seq<int>, p: Unknown, q: Unknown)
    requires |us| == |cs| && p != q && p in us && q in us
    requires forall i, j :: 0 <= i < j < |us| ==> us[i] != us[j]
    requires forall i :: 0 <= i < |us| ==> Indicator(us[i], p) - Indicator(us[i], q) == cs[i] != 0
    ensures cs == [1, -1] || cs == [-1, 1]
  {
    var i :| 0 <= i < |us| && us[i] == p;
    var j :| 0 <= j < |us| && us[j] == q;
    if |us| > 2 {
      var k := Outsider(us, p, q);
      assert false;
    }
    assert |cs| == 2 && us[0] != us[1];
    assert Indicator(us[0], p) - Indicator(us[0], q) == cs[0];
    assert Indicator(us[1], p) - Indicator(us[1], q) == cs[1];
  }

  // ---- the section-coefficient error -----------------------------------------------

  lemma {:induction false} SumGroupsFails(order: seq<nat>, groups: map<nat, seq<Entry>>) returns (i: nat)
    requires SumGroups(order, groups).Err?
    ensures SumGroups(order, groups) == Err(Illegal)
    ensures i < |order|
    ensures var c := CoeffSum(GroupOf(groups, order[i])); c < -1 || c > 1
  {
    var last := |order| - 1;
    if SumGroups(order[..last], groups).Err? {
      i := SumGroupsFails(order[..last], groups);
    } else {
      i := last;
    }
  }

  lemma {:induction false} GroupsSlope(order: seq<nat>, groups: map<nat, seq<Entry>>, section: nat)
    requires DistinctSections(order)
    ensures GroupsValue(order, groups, Probe(Some(Base(section))).base) - GroupsValue(order, groups, Probe(None).base)
            == if section in order then CoeffSum(GroupOf(groups, section)) else 0
  {
    if order != [] {
      var last := |order| - 1;
      GroupsSlope(order[..last], groups, section);
      var group := GroupOf(groups, order[last]);
      GroupLinear(group, Probe(Some(Base(section))).base(order[last]));
      GroupLinear(group, Probe(None).base(order[last]));
      assert order == order[..last] + [order[last]];
    }
  }

  lemma PartsSlope(parts: Parts, symbols: SymbolTable, section: nat)
    requires WellSplit(parts, symbols)
    ensures PartsValue(parts, symbols, Probe(Some(Base(section)))) - PartsValue(parts, symbols, Probe(None))
            == if section in parts.order then CoeffSum(GroupOf(parts.groups, section)) else 0
  {
    var on, off := Probe(Some(Base(section))), Probe(None);
    GroupsSlope(parts.order, parts.groups, section);
    SumSame(parts.remaining, NameMeaning(symbols, on), NameMeaning(symbols, off));
    SumSame(parts.got, on.got, off.got);
  }

  lemma BaseSlopeBounded(form: ClassifiedExpr, symbols: SymbolTable, section: nat)
    ensures -1 <= FormSlope(form, symbols, Base(section)) <= 1
  {
  }

  /** If some form has the slopes of the tree, classification does not call the tree illegal. */
  lemma FormFound(e: Expr, symbols: SymbolTable, form: ClassifiedExpr)
    requires Relocates(form, symbols) && SameSlopes(form, e, symbols)
    ensures Classify(e, symbols) != Err(Illegal)
  {
    hide Linearize, Split, SumGroups, Finish, WellAnchored, Reduced, FormSlope, Slope, ReducedSlope, Relocates, PartsValue,
         AllUndefined, WellGrouped;
    var r := Linearize(e, 1, Linear(0, []));
    LinearizeFails(e, 1, Linear(0, []));
    if !e.Unsigned? && r.Ok? {
      var terms := NonZero(r.value.terms);
      var split := Split(terms, r.value.constant, symbols);
      SplitFails(terms, r.value.constant, symbols);
      forall u: Option<Unknown>
        ensures split.Ok? ==>
                  WellSplit(split.value, symbols) && PartsValue(split.value, symbols, Probe(u)) == Value(e, symbols, Probe(u))
      {
        SplitReached(e, symbols, Probe(u));
      }
      if split.Ok? {
        assert WellSplit(split.value, symbols) by { SplitReached(e, symbols, Probe(None)); }
        GroupsFound(e, split.value, form, symbols);
      }
    }
  }

  lemma {:induction false} SplitFails(terms: seq<Weighted<Term>>, constant: i64, symbols: SymbolTable)
    ensures Split(terms, constant, symbols) != Err(Illegal)
  {
    if terms != [] {
      SplitFails(terms[..|terms| - 1], constant, symbols);
    }
  }

  /** A group weighted by more than one base would have no form with its slope. */
  lemma GroupsTotalled(e: Expr, parts: Parts, form: ClassifiedExpr, symbols: SymbolTable)
    requires WellSplit(parts, symbols) && Relocates(form, symbols) && SameSlopes(form, e, symbols)
    requires forall u: Option<Unknown> :: PartsValue(parts, symbols, Probe(u)) == Value(e, symbols, Probe(u))
    ensures SumGroups(parts.order, parts.groups).Ok?
  {
    hide FormSlope, Relocates, PartsValue, AllUndefined, Value, SumGroups;
    if SumGroups(parts.order, parts.groups).Err? {
      var i := SumGroupsFails(parts.order, parts.groups);
      var s := parts.order[i];
      PartsSlope(parts, symbols, s);
      BaseSlopeBounded(form, symbols, s);
      assert false;
    }
  }

  lemma GroupsFound(e: Expr, parts: Parts, form: ClassifiedExpr, symbols: SymbolTable)
    requires WellSplit(parts, symbols) && Relocates(form, symbols) && SameSlopes(form, e, symbols)
    requires forall u: Option<Unknown> :: PartsValue(parts, symbols, Probe(u)) == Value(e, symbols, Probe(u))
    ensures var totals := SumGroups(parts.order, parts.groups);
            && totals.Ok?
            && Finish(NonZero(parts.remaining), NonZero(parts.got), parts.here,
                      parts.constant + totals.value.total, totals.value.anchors) != Err(Illegal)
  {
    hide FormSlope, Relocates, PartsValue, Reduced, AllUndefined, Finish, WellAnchored, Value, SumGroups, NonZero, WellGrouped;
    var totals := SumGroups(parts.order, parts.groups);
    GroupsTotalled(e, parts, form, symbols);
    if totals.Ok? {
      forall u: Option<Unknown> ensures WellAnchored(totals.value.anchors, symbols) && Reduced(parts, totals.value, e, symbols, Probe(u)) {
        TotalsReached(e, parts, symbols, Probe(u));
      }
      var remaining, got := NonZero(parts.remaining), NonZero(parts.got);
      NonZeroKeeps(parts.remaining);
      NonZeroKeeps(parts.got);
      NonZeroUndefined(parts.remaining, symbols);
      forall u: Unknown ensures FormSlope(form, symbols, u) == ReducedSlope(remaining, got, parts.here, totals.value.anchors, u) {
        ReducedSlopes(parts, totals.value, e, symbols, u);
      }
      assert WellAnchored(totals.value.anchors, symbols) by { TotalsReached(e, parts, symbols, Probe(None)); }
      FinishComplete(remaining, got, parts.here, parts.constant + totals.value.total, totals.value.anchors, form, symbols);
    }
  }

  lemma NonZeroUndefined(ts: seq<Weighted<string>>, symbols: SymbolTable)
    requires AllUndefined(ts, symbols)
    ensures AllUndefined(NonZero(ts), symbols)
  {
    NonZeroKeeps(ts);
    forall i | 0 <= i < |NonZero(ts)| ensures Lookup(symbols, NonZero(ts)[i].item) == Undefined {
      assert NonZero(ts)[i] in ts;
    }
  }

  /**
    Nothing representable is rejected: when classification calls an expression illegal, every form
    differs from the expression for some choice of link-time values.
   */
  lemma IllegalHasNoForm(e: Expr, symbols: SymbolTable, form: ClassifiedExpr)
    requires Classify(e, symbols) == Err(Illegal) && Relocates(form, symbols)
    ensures exists env: Environment :: FormValue(form, symbols, env) != Value(e, symbols, env)
  {
    hide Classify, Value, FormValue, Relocates;
    if forall env: Environment :: FormValue(form, symbols, env) == Value(e, symbols, env) {
      forall u: Unknown ensures FormSlope(form, symbols, u) == Slope(e, symbols, u) {
        assert FormValue(form, symbols, Probe(Some(u))) == Value(e, symbols, Probe(Some(u)));
      }
      FormFound(e, symbols, form);
    }
  }
}
