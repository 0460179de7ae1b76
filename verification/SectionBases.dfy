/**
  Section addresses (src/assemble.rs and src/macho.rs): initialised sections first, then zero-fill
  ones, each at the next multiple of its alignment, with checked 64-bit arithmetic.
 */
module SectionBases {
  import opened Words
  import opened Sorting

  datatype Extent = Extent(align: nat, size: nat, zerofill: bool)

  // ---- alignment ----------------------------------------------------------------------

  /** The least multiple of 2^power that is not below the value. */
  function AlignUp(value: nat, power: nat): nat {
    (value + Pow2(power) - 1) - (value + Pow2(power) - 1) % Pow2(power)
  }

  function CheckedAlignValue(value: nat, power: nat): Option<nat> {
    if power >= 64 then None
    else
      var sum := value + (Pow2(power) - 1);
      if sum > U64_MAX then None else Some(sum - sum % Pow2(power))
  }

  lemma AlignUpLeast(value: nat, power: nat)
    ensures AlignUp(value, power) % Pow2(power) == 0
    ensures value <= AlignUp(value, power) < value + Pow2(power)
    ensures forall m: nat :: m % Pow2(power) == 0 && m >= value ==> m >= AlignUp(value, power)
  {
    var a := Pow2(power);
    var sum := value + a - 1;
    var t := AlignUp(value, power);
    assert t == (sum / a) * a + 0;
    DivModUnique(t, a, sum / a, 0);
    assert (sum / a - 1) * a == t - a;
    forall m: nat | m % a == 0 && m >= value ensures m >= t {
      assert m == (m / a) * a;
      if m / a < sum / a {
        MulOrder(m / a, sum / a - 1, a);
      } else {
        MulOrder(sum / a, m / a, a);
      }
    }
  }

  lemma MulOrder(x: nat, y: nat, d: nat)
    requires x <= y
    ensures x * d <= y * d
  {
  }

  lemma Pow2Sixty()
    ensures Pow2(64) == U64_MAX + 1
  {
    Pow2Eight();
    hide Pow2;
    Pow2Add(8, 8);
    assert Pow2(16) == 0x1_0000;
    Pow2Add(16, 16);
    assert Pow2(32) == 0x1_0000_0000;
    Pow2Add(32, 32);
  }

  lemma Pow2Eight()
    ensures Pow2(8) == 256
  {
    assert Pow2(4) == 16;
  }

  /** Checked alignment fails exactly when the true result is not a 64-bit value. */
  lemma CheckedAlignExact(value: nat, power: nat)
    requires power < 64
    ensures CheckedAlignValue(value, power) == if AlignUp(value, power) > U64_MAX then None else Some(AlignUp(value, power))
  {
    hide Pow2;
    var sum := value + Pow2(power) - 1;
    if sum > U64_MAX {
      Pow2Sixty();
      Pow2Add(64 - power, power);
      RoundDown(sum, Pow2(power), Pow2(64 - power));
    }
  }

  /** Rounding down does not pass a multiple. */
  lemma RoundDown(sum: nat, a: nat, k: nat)
    requires a > 0 && k > 0 && sum >= k * a
    ensures sum - sum % a >= k * a
  {
    assert sum == (sum / a) * a + sum % a;
    assert (k - 1) * a == k * a - a;
    if sum / a < k {
      MulOrder(sum / a, k - 1, a);
    } else {
      MulOrder(k, sum / a, a);
    }
  }

  lemma AlignUpMonotone(v: nat, w: nat, p: nat, q: nat)
    requires v <= w && p <= q
    ensures AlignUp(v, p) <= AlignUp(w, q)
  {
    hide AlignUp, Pow2;
    AlignUpLeast(v, p);
    AlignUpLeast(w, q);
    Pow2Add(q - p, p);
    MultipleOfFactor(AlignUp(w, q), Pow2(q - p), Pow2(p));
  }

  lemma MultipleOfFactor(t: nat, c: nat, d: nat)
    requires c > 0 && d > 0 && t % (c * d) == 0
    ensures t % d == 0
  {
    ModOfMod(t, c, d);
  }

  // ---- allocation ------------------------------------------------------------------------

  function KindRank(sections: seq<Extent>, i: nat): nat {
    if i < |sections| && sections[i].zerofill then 1 else 0
  }

  function KindOrder(sections: seq<Extent>): (nat, nat) -> bool {
    (i: nat, j: nat) => KindRank(sections, i) <= KindRank(sections, j)
  }

  function SortByKind(sections: seq<Extent>, idxs: seq<nat>): seq<nat> {
    StableSort(idxs, KindOrder(sections))
  }

  /** Initialised sections in order, then zero-fill sections in order. */
  function AllocationOrder(sections: seq<Extent>): seq<nat> {
    SortByKind(sections, Indices(|sections|))
  }

  /** The address behind the last of the extents, placed one after the other, in unbounded arithmetic. */
  function End(es: seq<Extent>): nat {
    if es == [] then 0
    else AlignUp(End(es[..|es| - 1]), es[|es| - 1].align) + es[|es| - 1].size
  }

  function AddressAt(es: seq<Extent>, t: nat): nat
    requires t < |es|
  {
    AlignUp(End(es[..t]), es[t].align)
  }

  function Arranged(sections: seq<Extent>, order: seq<nat>): (es: seq<Extent>)
    requires forall t :: 0 <= t < |order| ==> order[t] < |sections|
    ensures |es| == |order| && forall t :: 0 <= t < |order| ==> es[t] == sections[order[t]]
  {
    seq(|order|, t requires 0 <= t < |order| => sections[order[t]])
  }

  /** Every section has the address of its place in the allocation order. */
  ghost predicate BasesFor(sections: seq<Extent>, bases: seq<nat>) {
    var order := AllocationOrder(sections);
    && |bases| == |sections| && IsPermutation(order, |sections|)
    && forall t :: 0 <= t < |order| ==> bases[order[t]] == AddressAt(Arranged(sections, order), t)
  }

  /** The bases are determined by the sections. */
  lemma BasesUnique(sections: seq<Extent>, b: seq<nat>, c: seq<nat>)
    requires BasesFor(sections, b) && BasesFor(sections, c)
    ensures b == c
  {
    var order := AllocationOrder(sections);
    forall i | 0 <= i < |b| ensures b[i] == c[i] {
      assert i in order;
      var t :| 0 <= t < |order| && order[t] == i;
    }
  }

  lemma {:induction false} EndPrefix(es: seq<Extent>, t: nat)
    requires t <= |es|
    ensures End(es[..t]) <= End(es)
  {
    if t == |es| {
      assert es[..t] == es;
    } else {
      var last := |es| - 1;
      EndPrefix(es[..last], t);
      assert es[..last][..t] == es[..t];
      AlignUpLeast(End(es[..last]), es[last].align);
    }
  }

  /** Address ranges are aligned, and a later section starts behind every earlier one. */
  lemma AddressesApart(es: seq<Extent>, t: nat, u: nat)
    requires t < u < |es|
    ensures AddressAt(es, t) % Pow2(es[t].align) == 0
    ensures AddressAt(es, t) + es[t].size <= AddressAt(es, u)
  {
    AlignUpLeast(End(es[..t]), es[t].align);
    AlignUpLeast(End(es[..u]), es[u].align);
    var front := es[..t + 1];
    assert front[..t] == es[..t];
    assert End(front) == AddressAt(es, t) + es[t].size;
    EndPrefix(es[..u], t + 1);
    assert es[..u][..t + 1] == front;
  }

  function ArrangedAll(sections: seq<Extent>): (es: seq<Extent>)
    requires IsPermutation(AllocationOrder(sections), |sections|)
  {
    Arranged(sections, AllocationOrder(sections))
  }

  /** The first t places have their addresses. */
  ghost predicate Assigned(bases: seq<nat>, order: seq<nat>, es: seq<Extent>, t: nat) {
    && |order| == |es| == |bases| && t <= |order|
    && forall q :: 0 <= q < t ==> order[q] < |bases| && bases[order[q]] == AddressAt(es, q)
  }

  lemma AssignNext(bases: seq<nat>, order: seq<nat>, es: seq<Extent>, t: nat)
    requires t < |order| && IsPermutation(order, |order|) && Assigned(bases, order, es, t)
    ensures Assigned(bases[order[t] := AddressAt(es, t)], order, es, t + 1)
  {
    forall q | 0 <= q < t + 1 ensures bases[order[t] := AddressAt(es, t)][order[q]] == AddressAt(es, q) {
      if q < t { assert order[q] != order[t]; }
    }
  }

  method SectionBaseAddresses(sections: seq<Extent>) returns (r: Result<seq<nat>, ()>)
    requires forall i :: 0 <= i < |sections| ==> sections[i].align < 64
    ensures IsPermutation(AllocationOrder(sections), |sections|)
    ensures r.Ok? <==> End(ArrangedAll(sections)) <= U64_MAX
    ensures r.Ok? ==> BasesFor(sections, r.value)
  {
    hide AllocationOrder, Assigned, AddressAt, End, AlignUp, CheckedAlignValue;
    AllocationPermutes(sections);
    var order := AllocationOrder(sections);
    ghost var es := ArrangedAll(sections);
    var bases: seq<nat> := seq<nat>(|sections|, _ => 0);
    var addr: nat := 0;
    var t := 0;
    NothingAssigned(bases, order, es);
    while t < |order|
      invariant 0 <= t <= |order| && |bases| == |sections|
      invariant addr == End(es[..t]) <= U64_MAX
      invariant Assigned(bases, order, es, t)
    {
      var section := sections[order[t]];
      EndNext(es, t);
      CheckedAlignExact(addr, section.align);
      AddressOf(es, t);
      var aligned := CheckedAlignValue(addr, section.align);
      if aligned.None? {
        return Err(());
      }
      addr := aligned.value;
      AssignNext(bases, order, es, t);
      bases := bases[order[t] := addr];
      if addr + section.size > U64_MAX {
        return Err(());
      }
      addr := addr + section.size;
      t := t + 1;
    }
    assert es[..t] == es;
    AllAssigned(sections, bases);
    return Ok(bases);
  }

  lemma AllocationPermutes(sections: seq<Extent>)
    ensures IsPermutation(AllocationOrder(sections), |sections|)
  {
    SortPermutes(|sections|, KindOrder(sections));
  }

  lemma NothingAssigned(bases: seq<nat>, order: seq<nat>, es: seq<Extent>)
    requires |order| == |es| == |bases|
    ensures Assigned(bases, order, es, 0) && End(es[..0]) == 0
  {
  }

  lemma AddressOf(es: seq<Extent>, t: nat)
    requires t < |es|
    ensures AddressAt(es, t) == AlignUp(End(es[..t]), es[t].align)
  {
  }

  lemma AllAssigned(sections: seq<Extent>, bases: seq<nat>)
    requires IsPermutation(AllocationOrder(sections), |sections|)
    requires Assigned(bases, AllocationOrder(sections), ArrangedAll(sections), |sections|)
    ensures BasesFor(sections, bases)
  {
  }

  lemma EndNext(es: seq<Extent>, t: nat)
    requires t < |es|
    ensures End(es[..t + 1]) == AddressAt(es, t) + es[t].size <= End(es)
  {
    assert es[..t + 1][..t] == es[..t];
    EndPrefix(es, t + 1);
  }

  // ---- growth ------------------------------------------------------------------------------

  predicate Smaller(a: Extent, b: Extent) {
    a.align <= b.align && a.size <= b.size && a.zerofill == b.zerofill
  }

  /** The first list, extents possibly enlarged, is a subsequence of the second. */
  ghost predicate Embeds(a: seq<Extent>, b: seq<Extent>) {
    if b == [] then a == []
    else
      || Embeds(a, b[..|b| - 1])
      || (a != [] && Smaller(a[|a| - 1], b[|b| - 1]) && Embeds(a[..|a| - 1], b[..|b| - 1]))
  }

  /** Larger sizes, larger alignments and inserted sections only push the end up. */
  lemma {:induction false} EndMonotone(a: seq<Extent>, b: seq<Extent>)
    requires Embeds(a, b)
    ensures End(a) <= End(b)
  {
    if b != [] {
      var last := |b| - 1;
      AlignUpLeast(End(b[..last]), b[last].align);
      if Embeds(a, b[..last]) {
        EndMonotone(a, b[..last]);
      } else {
        EndMonotone(a[..|a| - 1], b[..last]);
        AlignUpMonotone(End(a[..|a| - 1]), End(b[..last]), a[|a| - 1].align, b[last].align);
      }
    }
  }

  lemma {:induction false} EmbedsAppend(a: seq<Extent>, b: seq<Extent>, more: seq<Extent>)
    requires Embeds(a, b)
    ensures Embeds(a, b + more)
  {
    if more == [] {
      assert b + more == b;
    } else {
      EmbedsAppend(a, b, more[..|more| - 1]);
      assert (b + more)[..|b + more| - 1] == b + more[..|more| - 1];
    }
  }

  lemma {:induction false} EmbedsConcat(a: seq<Extent>, b: seq<Extent>, c: seq<Extent>, d: seq<Extent>)
    requires Embeds(a, b) && Embeds(c, d)
    ensures Embeds(a + c, b + d)
    decreases d
  {
    if d == [] {
      assert a + c == a && b + d == b;
    } else {
      assert (b + d)[..|b + d| - 1] == b + d[..|d| - 1];
      if Embeds(c, d[..|d| - 1]) {
        EmbedsConcat(a, b, c, d[..|d| - 1]);
      } else {
        EmbedsConcat(a, b, c[..|c| - 1], d[..|d| - 1]);
        assert (a + c)[..|a + c| - 1] == a + c[..|c| - 1];
      }
    }
  }

  lemma {:induction false} EmbedsPointwise(a: seq<Extent>, b: seq<Extent>)
    requires |a| == |b| && forall i :: 0 <= i < |a| ==> Smaller(a[i], b[i])
    ensures Embeds(a, b)
  {
    if b != [] {
      EmbedsPointwise(a[..|a| - 1], b[..|b| - 1]);
    }
  }

  function IsKind(zerofill: bool): Extent -> bool { (e: Extent) => e.zerofill == zerofill }

  lemma FilterSnoc(s: seq<Extent>, zerofill: bool)
    requires s != []
    ensures Filter(s, IsKind(zerofill))
            == Filter(s[..|s| - 1], IsKind(zerofill)) + if s[|s| - 1].zerofill == zerofill then [s[|s| - 1]] else []
  {
    var last := [s[|s| - 1]];
    assert s == s[..|s| - 1] + last;
    FilterAppend(s[..|s| - 1], last, IsKind(zerofill));
    assert last[1..] == [];
  }

  lemma {:induction false} EmbedsFilter(a: seq<Extent>, b: seq<Extent>, zerofill: bool)
    requires Embeds(a, b)
    ensures Embeds(Filter(a, IsKind(zerofill)), Filter(b, IsKind(zerofill)))
  {
    if b != [] {
      var k := IsKind(zerofill);
      var last := |b| - 1;
      FilterSnoc(b, zerofill);
      if Embeds(a, b[..last]) {
        EmbedsFilter(a, b[..last], zerofill);
        EmbedsAppend(Filter(a, k), Filter(b[..last], k), if b[last].zerofill == zerofill then [b[last]] else []);
      } else {
        FilterSnoc(a, zerofill);
        EmbedsFilter(a[..|a| - 1], b[..last], zerofill);
        var fa, fb := Filter(a[..|a| - 1], k), Filter(b[..last], k);
        if b[last].zerofill == zerofill {
          assert (fa + [a[|a| - 1]])[..|fa|] == fa && (fb + [b[last]])[..|fb|] == fb;
        } else {
          assert fa + [] == fa && fb + [] == fb;
        }
      }
    }
  }

  // ---- the allocation order, by kind --------------------------------------------------------

  lemma {:induction false} InsertInRange(sections: seq<Extent>, x: nat, order: seq<nat>)
    requires x < |sections| && forall t :: 0 <= t < |order| ==> order[t] < |sections|
    ensures forall t :: 0 <= t < |Insert<nat>(x, order, KindOrder(sections))| ==> Insert<nat>(x, order, KindOrder(sections))[t] < |sections|
  {
    if order != [] {
      InsertInRange(sections, x, order[1..]);
    }
  }

  lemma ArrangedCons(sections: seq<Extent>, x: nat, order: seq<nat>)
    requires x < |sections| && forall t :: 0 <= t < |order| ==> order[t] < |sections|
    ensures Arranged(sections, [x] + order) == [sections[x]] + Arranged(sections, order)
  {
  }

  lemma {:induction false} InsertKind(sections: seq<Extent>, x: nat, order: seq<nat>, k: bool)
    requires x < |sections| && forall t :: 0 <= t < |order| ==> order[t] < |sections|
    ensures var more := Insert<nat>(x, order, KindOrder(sections));
            && (forall t :: 0 <= t < |more| ==> more[t] < |sections|)
            && Filter(Arranged(sections, more), IsKind(k))
               == (if sections[x].zerofill == k then [sections[x]] else []) + Filter(Arranged(sections, order), IsKind(k))
  {
    hide Arranged;
    var more := Insert<nat>(x, order, KindOrder(sections));
    InsertInRange(sections, x, order);
    if order == [] || KindOrder(sections)(x, order[0]) {
      assert more == [x] + order;
      ArrangedCons(sections, x, order);
    } else {
      InsertKind(sections, x, order[1..], k);
      var rest := Insert<nat>(x, order[1..], KindOrder(sections));
      ArrangedCons(sections, order[0], rest);
      ArrangedCons(sections, order[0], order[1..]);
      assert order == [order[0]] + order[1..];
    }
  }

  /** Sorting the indices keeps the sections of each kind in their order. */
  lemma {:induction false} SortKinds(sections: seq<Extent>, idxs: seq<nat>)
    requires forall t :: 0 <= t < |idxs| ==> idxs[t] < |sections|
    ensures forall t :: 0 <= t < |SortByKind(sections, idxs)| ==> SortByKind(sections, idxs)[t] < |sections|
    ensures forall k :: Filter(Arranged(sections, SortByKind(sections, idxs)), IsKind(k)) == Filter(Arranged(sections, idxs), IsKind(k))
  {
    if idxs == [] {
      assert Arranged(sections, idxs) == [] && Arranged(sections, SortByKind(sections, idxs)) == [];
    } else {
      SortKinds(sections, idxs[1..]);
      InsertInRange(sections, idxs[0], SortByKind(sections, idxs[1..]));
      assert SortByKind(sections, idxs) == Insert<nat>(idxs[0], SortByKind(sections, idxs[1..]), KindOrder(sections));
      assert Arranged(sections, idxs)[1..] == Arranged(sections, idxs[1..]);
      assert Arranged(sections, idxs)[0] == sections[idxs[0]];
      forall k
        ensures Filter(Arranged(sections, SortByKind(sections, idxs)), IsKind(k)) == Filter(Arranged(sections, idxs), IsKind(k))
      {
        InsertKind(sections, idxs[0], SortByKind(sections, idxs[1..]), k);
      }
    }
  }

  /** A list in which no zero-fill extent precedes an initialised one is its initialised part, then the rest. */
  lemma {:induction false} KindsApart(es: seq<Extent>)
    requires forall i, j :: 0 <= i < j < |es| && es[i].zerofill ==> es[j].zerofill
    ensures es == Filter(es, IsKind(false)) + Filter(es, IsKind(true))
  {
    if es != [] {
      KindsApart(es[1..]);
      assert es == [es[0]] + es[1..];
      if es[0].zerofill {
        NoneOfKind(es);
        var f := Filter(es[1..], IsKind(false));
        NoneOfKind(es[1..]);
      }
    }
  }

  lemma {:induction false} NoneOfKind(es: seq<Extent>)
    requires forall j :: 0 <= j < |es| ==> es[j].zerofill
    ensures Filter(es, IsKind(false)) == []
  {
    if es != [] {
      NoneOfKind(es[1..]);
    }
  }

  /** The sections in allocation order: initialised ones, then zero-fill ones. */
  function ByKind(sections: seq<Extent>): seq<Extent> {
    Filter(sections, IsKind(false)) + Filter(sections, IsKind(true))
  }

  lemma ArrangedByKind(sections: seq<Extent>)
    requires IsPermutation(AllocationOrder(sections), |sections|)
    ensures ArrangedAll(sections) == ByKind(sections)
  {
    var idxs := Indices(|sections|);
    SortKinds(sections, idxs);
    SortSorted<nat>(idxs, KindOrder(sections));
    assert Arranged(sections, idxs) == sections;
    var order := AllocationOrder(sections);
    forall i, j | 0 <= i < j < |order| && sections[order[i]].zerofill ensures sections[order[j]].zerofill {
      assert KindOrder(sections)(order[i], order[j]);
    }
    KindsApart(ArrangedAll(sections));
    assert Filter(ArrangedAll(sections), IsKind(false)) == Filter(sections, IsKind(false));
    assert Filter(ArrangedAll(sections), IsKind(true)) == Filter(sections, IsKind(true));
  }

  /** Do the section addresses exceed 64 bits? */
  predicate Overflows(sections: seq<Extent>) {
    End(ByKind(sections)) > U64_MAX
  }

  /** Growing sections and adding sections anywhere never cures an overflow. */
  lemma OverflowMonotone(a: seq<Extent>, b: seq<Extent>)
    requires Embeds(a, b) && Overflows(a)
    ensures Overflows(b)
  {
    EmbedsFilter(a, b, false);
    EmbedsFilter(a, b, true);
    EmbedsConcat(Filter(a, IsKind(false)), Filter(b, IsKind(false)), Filter(a, IsKind(true)), Filter(b, IsKind(true)));
    EndMonotone(ByKind(a), ByKind(b));
  }

  /** The address computation fails exactly on overflow. */
  lemma BasesFailExactly(sections: seq<Extent>)
    requires IsPermutation(AllocationOrder(sections), |sections|)
    ensures End(ArrangedAll(sections)) <= U64_MAX <==> !Overflows(sections)
  {
    ArrangedByKind(sections);
  }

  lemma AlignZero(power: nat)
    ensures AlignUp(0, power) == 0
  {
    hide Pow2;
    DivModUnique(Pow2(power) - 1, Pow2(power), 0, Pow2(power) - 1);
  }

  lemma {:induction false} NoSizeNoEnd(es: seq<Extent>)
    requires forall i :: 0 <= i < |es| ==> es[i].size == 0
    ensures End(es) == 0
  {
    hide AlignUp;
    if es != [] {
      NoSizeNoEnd(es[..|es| - 1]);
      AlignZero(es[|es| - 1].align);
    }
  }

  /** Empty sections do not overflow. */
  lemma EmptyFits(es: seq<Extent>)
    requires forall i :: 0 <= i < |es| ==> es[i].size == 0
    ensures !Overflows(es)
  {
    FilterAll(es, IsKind(false));
    FilterAll(es, IsKind(true));
    var placed := ByKind(es);
    forall i | 0 <= i < |placed| ensures placed[i].size == 0 {
      assert placed[i] in es;
    }
    NoSizeNoEnd(placed);
  }
}
