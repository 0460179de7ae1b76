/**
  Finding the statement at which section addresses first exceed 64 bits (src/assemble.rs): a binary
  search over statement prefixes, each probed by a fresh layout pass. It is exact because layout
  overflow, once reached, persists in every longer prefix.
 */
module Bisection {
  import opened Words
  import opened SectionBases
  import opened Layout
  import opened LayoutRun
  import opened Assembler

  ghost predicate LaidOut(stmts: seq<Stmt>) {
    LayoutAll(stmts).Some? && AllSlots(LayoutAll(stmts).value).Some?
  }

  /** The addresses of the first k statements' sections, generated ones included, exceed 64 bits. */
  ghost predicate PrefixOverflows(stmts: seq<Stmt>, k: nat)
    requires k <= |stmts|
  {
    LaidOut(stmts[..k]) && Overflows(Extents(AllSlots(LayoutAll(stmts[..k]).value).value))
  }

  lemma PrefixLaidOut(stmts: seq<Stmt>, k: nat)
    requires LaidOut(stmts) && k <= |stmts|
    ensures LaidOut(stmts[..k])
  {
    RunExtends(stmts, k);
    SlotsEmbed(LayoutAll(stmts[..k]).value, LayoutAll(stmts).value);
  }

  /** Overflow is monotone in the prefix. */
  lemma OverflowPersists(stmts: seq<Stmt>, j: nat, k: nat)
    requires LaidOut(stmts) && j <= k <= |stmts| && PrefixOverflows(stmts, j)
    ensures PrefixOverflows(stmts, k)
  {
    hide Overflows, AllSlots, LayoutAll;
    PrefixLaidOut(stmts, k);
    assert stmts[..k][..j] == stmts[..j];
    RunExtends(stmts[..k], j);
    var a, b := LayoutAll(stmts[..j]).value, LayoutAll(stmts[..k]).value;
    SlotsEmbed(a, b);
    OverflowMonotone(Extents(AllSlots(a).value), Extents(AllSlots(b).value));
  }

  lemma NothingOverflows(stmts: seq<Stmt>)
    ensures !PrefixOverflows(stmts, 0)
  {
    assert stmts[..0] == [];
    var l := InitialLayout();
    assert l.geometry.sections + ([] + []) == l.geometry.sections;
    EmptyFits(Extents(AllSlots(l).value));
  }

  method ProbeLayout(stmts: seq<Stmt>) returns (probe: Assembly, ok: bool)
    requires forall i :: 0 <= i < |stmts| ==> WellFormedStmt(stmts[i])
    ensures probe.Valid()
    ensures ok <==> LayoutAll(stmts).Some?
    ensures ok ==> LayoutAll(stmts).value == probe.View()
  {
    hide LayoutStep, LayoutAll, SlotsOf, Lengths, Cfi.CfiProc.Valid, WellFormedStmt;
    probe := new Assembly();
    var i := 0;
    NothingLaidOut(stmts);
    while i < |stmts|
      invariant 0 <= i <= |stmts| && probe.Valid() && fresh(probe) && (probe.proc == null || fresh(probe.proc))
      invariant LayoutAll(stmts[..i]) == Some(probe.View())
    {
      LayoutNext(stmts, i);
      ok := probe.CollectStmt(stmts[i]);
      if !ok {
        LayoutStops(stmts, i + 1);
        return;
      }
      i := i + 1;
    }
    assert stmts[..i] == stmts;
    ok := true;
  }

  method SectionLayoutOverflows(stmts: seq<Stmt>) returns (r: Option<bool>)
    requires forall i :: 0 <= i < |stmts| ==> WellFormedStmt(stmts[i])
    ensures r.Some? <==> LaidOut(stmts)
    ensures r.Some? ==> r.value == PrefixOverflows(stmts, |stmts|)
  {
    hide LayoutAll, Overflows, UnwindSlots;
    assert stmts[..|stmts|] == stmts;
    var probe, ok := ProbeLayout(stmts);
    if !ok {
      return None;
    }
    var unwind := UnwindSlots(|probe.rows|, Lengths(probe.frames));
    if unwind.None? {
      return None;
    }
    var slots := SlotsOf(probe.sections) + unwind.value;
    AllSlotsAligned(stmts, slots);
    var bases := SectionBaseAddresses(Extents(slots));
    BasesFailExactly(Extents(slots));
    return Some(bases.Err?);
  }

  lemma AllSlotsAligned(stmts: seq<Stmt>, slots: seq<Slot>)
    requires LayoutAll(stmts).Some? && AllSlots(LayoutAll(stmts).value) == Some(slots)
    ensures forall i :: 0 <= i < |Extents(slots)| ==> Extents(slots)[i].align < 64
  {
    GeometryAligned(stmts);
  }

  /** The index of the last statement of the shortest overflowing prefix, when there is one. */
  method SectionLayoutErrorLocation(stmts: seq<Stmt>) returns (r: Option<nat>)
    requires forall i :: 0 <= i < |stmts| ==> WellFormedStmt(stmts[i])
    ensures r.Some? <==> LaidOut(stmts) && PrefixOverflows(stmts, |stmts|)
    ensures r.Some? ==> && r.value < |stmts|
                        && PrefixOverflows(stmts, r.value + 1)
                        && forall k: nat :: k <= r.value ==> !PrefixOverflows(stmts, k)
  {
    hide PrefixOverflows, LaidOut;
    NothingOverflows(stmts);
    if stmts == [] {
      return None;
    }
    var all := SectionLayoutOverflows(stmts);
    if all.None? || !all.value {
      return None;
    }
    var first, pastLast := 1, |stmts|;
    while first < pastLast
      invariant 1 <= first <= pastLast <= |stmts|
      invariant PrefixOverflows(stmts, pastLast)
      invariant forall k: nat :: k < first ==> !PrefixOverflows(stmts, k)
    {
      var middle := first + (pastLast - first) / 2;
      PrefixLaidOut(stmts, middle);
      PrefixSame(stmts, middle);
      var probe := SectionLayoutOverflows(stmts[..middle]);
      if probe.None? {
        return None;
      }
      if probe.value {
        pastLast := middle;
      } else {
        forall k: nat | k <= middle ensures !PrefixOverflows(stmts, k) {
          if PrefixOverflows(stmts, k) {
            OverflowPersists(stmts, k, middle);
          }
        }
        first := middle + 1;
      }
    }
    return Some(first - 1);
  }

  lemma PrefixSame(stmts: seq<Stmt>, k: nat)
    requires k <= |stmts|
    ensures PrefixOverflows(stmts[..k], |stmts[..k]|) == PrefixOverflows(stmts, k)
  {
    assert stmts[..k][..k] == stmts[..k];
  }
}
