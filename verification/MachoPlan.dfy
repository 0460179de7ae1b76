/**
  Where everything goes in a Mach-O object file (src/macho.rs): addresses and file offsets of sections,
  relocation tables, linker optimization hints, symbol table and string table, in checked arithmetic.
 */
module MachoPlan {
  import opened Words
  import opened Sorting
  import opened SectionBases
  import opened MachoRelocs

  /** `flags` is the header word the section kind and contents determine. */
  datatype MachSection = MachSection(segment: bytes, name: bytes, zerofill: bool, flags: nat, align: nat, size: u64,
                                     data: bytes, relocations: seq<Relocation>)

  datatype MachSymbol = MachSymbol(name: bytes, section: byte, value: u64, global: bool, undefined: bool, absolute: bool,
                                   common: bool, commonAlign: byte, privateExtern: bool, weakRef: bool, weakDef: bool)

  datatype MachObject = MachObject(sections: seq<MachSection>, symbols: seq<MachSymbol>, flags: nat,
                                   platform: nat, minos: nat, sdk: nat, hints: bytes)

  datatype MachError = TooLarge | SizeMismatch | BadRelocation | AddressOverflow | SectionsOverlap | BadRange

  datatype SectionLayout = SectionLayout(addr: nat, offset: nat, reloff: nat, nreloc: nat)

  const HEADER_SIZE: nat := 32
  const SEGMENT_SIZE: nat := 72
  const SECTION_SIZE: nat := 80
  const BUILD_SIZE: nat := 24
  const LINKEDIT_SIZE: nat := 16
  const SYMTAB_SIZE: nat := 24
  const DYSYMTAB_SIZE: nat := 80
  const NLIST_SIZE: nat := 16
  const RELOC_SIZE: nat := 8

  // ---- validation ------------------------------------------------------------------------

  /** One relocation of a section: its form, its field inside the section, its target. */
  predicate RelocationOk(obj: MachObject, s: MachSection, r: Relocation) {
    && r.offset <= 0x7FFF_FFFF && r.target <= 0xFF_FFFF && r.length <= 3 && r.kind <= ADDEND
    && FormOk(r)
    && r.offset + Pow2(r.length) <= s.size
    && (r.kind != ADDEND ==>
          if r.external then r.target < |obj.symbols| else 1 <= r.target <= |obj.sections|)
  }

  ghost predicate RelocationsOk(obj: MachObject, s: MachSection) {
    && (s.zerofill ==> s.relocations == [])
    && (forall k :: 0 <= k < |s.relocations| ==> RelocationOk(obj, s, s.relocations[k]))
    && PairsOk(SortedRelocations(s.relocations))
  }

  /** Sorting neither drops nor adds an entry. */
  lemma SameSorted<T(!new)>(rs: seq<Reloc<T>>)
    ensures forall r :: r in SortedRelocations(rs) <==> r in rs
  {
    SortElements(rs, Descending);
    var sorted := SortedRelocations(rs);
    forall r ensures r in sorted <==> r in rs {
      assert r in sorted <==> r in multiset(sorted);
      assert r in rs <==> r in multiset(rs);
    }
  }

  method ValidateRelocations(obj: MachObject, s: MachSection) returns (ok: bool)
    ensures ok <==> RelocationsOk(obj, s)
  {
    hide RelocationOk, SortedRelocations, PairsOk;
    if s.zerofill && s.relocations != [] {
      return false;
    }
    var relocations := SortedRelocations(s.relocations);
    SameSorted(s.relocations);
    var k := 0;
    while k < |relocations|
      invariant 0 <= k <= |relocations|
      invariant forall q :: 0 <= q < k ==> RelocationOk(obj, s, relocations[q])
    {
      if !RelocationOk(obj, s, relocations[k]) {
        assert relocations[k] in s.relocations;
        return false;
      }
      k := k + 1;
    }
    forall q | 0 <= q < |s.relocations| ensures RelocationOk(obj, s, s.relocations[q]) {
      assert s.relocations[q] in relocations;
    }
    ok := ScanPairs(relocations);
  }

  // ---- sections ----------------------------------------------------------------------------

  function SectionExtents(sections: seq<MachSection>): (es: seq<Extent>)
    ensures |es| == |sections|
    ensures forall i :: 0 <= i < |sections| ==> es[i] == Extent(sections[i].align, sections[i].size, sections[i].zerofill)
  {
    seq(|sections|, i requires 0 <= i < |sections| => Extent(sections[i].align, sections[i].size, sections[i].zerofill))
  }

  function ContentOffset(obj: MachObject): nat {
    HEADER_SIZE + (SEGMENT_SIZE + |obj.sections| * SECTION_SIZE) + BUILD_SIZE
    + (if obj.hints != [] then LINKEDIT_SIZE else 0) + SYMTAB_SIZE + DYSYMTAB_SIZE
  }

  predicate SectionSizeOk(s: MachSection) { !s.zerofill ==> |s.data| == s.size }

  /** The file offset follows the address; zero-fill sections have none. */
  predicate OffsetOk(s: MachSection, l: SectionLayout, content: nat, cursor: nat) {
    if s.zerofill then l.offset == 0
    else l.offset == content + l.addr && l.offset + s.size <= cursor <= U32_MAX
  }

  ghost predicate SectionPlanned(obj: MachObject, i: nat, l: SectionLayout, content: nat, cursor: nat) {
    && i < |obj.sections|
    && SectionSizeOk(obj.sections[i]) && RelocationsOk(obj, obj.sections[i]) && OffsetOk(obj.sections[i], l, content, cursor)
    && obj.sections[i].align < 64 && l.addr + obj.sections[i].size <= U64_MAX
  }

  /** All sections are sound and have addresses and offsets. */
  ghost predicate SectionsPlanned(obj: MachObject, layouts: seq<SectionLayout>, content: nat, cursor: nat) {
    && |layouts| == |obj.sections| && content <= cursor <= U32_MAX
    && (forall i :: 0 <= i < |layouts| ==> SectionPlanned(obj, i, layouts[i], content, cursor))
    && BasesFor(SectionExtents(obj.sections), Addresses(layouts))
  }

  function Addresses(layouts: seq<SectionLayout>): (a: seq<nat>)
    ensures |a| == |layouts| && forall i :: 0 <= i < |layouts| ==> a[i] == layouts[i].addr
  {
    seq<nat>(|layouts|, i requires 0 <= i < |layouts| => layouts[i].addr)
  }

  /** The sections at the first t places of the allocation order are done. */
  ghost predicate PlannedUpTo(obj: MachObject, layouts: seq<SectionLayout>, order: seq<nat>, t: nat, content: nat, cursor: nat) {
    && |layouts| == |obj.sections| == |order| && t <= |order| && content <= cursor <= U32_MAX
    && (forall q :: 0 <= q < |order| ==> order[q] < |layouts|)
    && (forall q :: 0 <= q < t ==> SectionPlanned(obj, order[q], layouts[order[q]], content, cursor))
    && Assigned(Addresses(layouts), order, Arranged(SectionExtents(obj.sections), order), t)
  }

  lemma PlanStep(obj: MachObject, layouts: seq<SectionLayout>, order: seq<nat>, t: nat, content: nat, cursor: nat,
                 l: SectionLayout, cursor': nat)
    requires IsPermutation(order, |obj.sections|) && t < |order|
    requires PlannedUpTo(obj, layouts, order, t, content, cursor) && cursor <= cursor' <= U32_MAX
    requires l.addr == AddressAt(Arranged(SectionExtents(obj.sections), order), t)
    requires SectionSizeOk(obj.sections[order[t]]) && RelocationsOk(obj, obj.sections[order[t]])
    requires OffsetOk(obj.sections[order[t]], l, content, cursor') && l.addr + obj.sections[order[t]].size <= U64_MAX
    requires obj.sections[order[t]].align < 64
    ensures PlannedUpTo(obj, layouts[order[t] := l], order, t + 1, content, cursor')
  {
    hide RelocationsOk, AddressAt, Assigned;
    var layouts' := layouts[order[t] := l];
    var es := Arranged(SectionExtents(obj.sections), order);
    AssignNext(Addresses(layouts), order, es, t);
    assert Addresses(layouts') == Addresses(layouts)[order[t] := l.addr];
    forall q | 0 <= q < t + 1 ensures SectionPlanned(obj, order[q], layouts'[order[q]], content, cursor') {
      if q < t {
        assert order[q] != order[t];
        assert SectionPlanned(obj, order[q], layouts[order[q]], content, cursor);
      }
    }
  }

  lemma PlanDone(obj: MachObject, layouts: seq<SectionLayout>, content: nat, cursor: nat)
    requires var order := AllocationOrder(SectionExtents(obj.sections));
             IsPermutation(order, |obj.sections|) && PlannedUpTo(obj, layouts, order, |order|, content, cursor)
    ensures SectionsPlanned(obj, layouts, content, cursor)
  {
    hide RelocationsOk, AddressAt;
    var order := AllocationOrder(SectionExtents(obj.sections));
    AllAssigned(SectionExtents(obj.sections), Addresses(layouts));
    forall i | 0 <= i < |layouts| ensures SectionPlanned(obj, i, layouts[i], content, cursor) {
      assert i in order;
      var q :| 0 <= q < |order| && order[q] == i;
    }
  }

  lemma NonePlanned(obj: MachObject, layouts: seq<SectionLayout>, order: seq<nat>, content: nat)
    requires |layouts| == |obj.sections| == |order| && content <= U32_MAX
    requires forall t :: 0 <= t < |order| ==> order[t] < |obj.sections|
    ensures PlannedUpTo(obj, layouts, order, 0, content, content)
    ensures End(Arranged(SectionExtents(obj.sections), order)[..0]) == 0
  {
  }

  /** Every section's data and relocations are sound, and addresses stay within 64 bits. */
  ghost predicate SectionsSound(obj: MachObject) {
    && (forall i :: 0 <= i < |obj.sections| ==> SectionSizeOk(obj.sections[i]) && RelocationsOk(obj, obj.sections[i]) && obj.sections[i].align < 64)
    && !Overflows(SectionExtents(obj.sections))
  }

  /** The end of the initialised sections in memory, and so in the file. */
  function InitialisedEnd(obj: MachObject): nat {
    End(Filter(SectionExtents(obj.sections), IsKind(false)))
  }

  /** Initialised sections come first, so the one placed t-th ends within their total. */
  lemma InitialisedFirst(obj: MachObject, t: nat)
    requires t < |obj.sections| && IsPermutation(AllocationOrder(SectionExtents(obj.sections)), |obj.sections|)
    requires !ArrangedAll(SectionExtents(obj.sections))[t].zerofill
    ensures End(ArrangedAll(SectionExtents(obj.sections))[..t + 1]) <= InitialisedEnd(obj)
  {
    hide Filter, End, AllocationOrder;
    var all := SectionExtents(obj.sections);
    var es, first, rest := ArrangedAll(all), Filter(all, IsKind(false)), Filter(all, IsKind(true));
    ArrangedByKind(all);
    FilterAll(all, IsKind(true));
    assert es == first + rest;
    forall j | |first| <= j < |es| ensures es[j].zerofill {
      assert es[j] == rest[j - |first|] && rest[j - |first|] in rest;
    }
    assert t < |first|;
    assert es[..t + 1] == first[..t + 1];
    EndPrefix(first, t + 1);
  }

  /** The end of the initialised sections among the first t in the allocation order. */
  function InitialisedUpTo(obj: MachObject, t: nat): nat {
    var first := Filter(SectionExtents(obj.sections), IsKind(false));
    End(first[..Min(t, |first|)])
  }

  lemma InitialisedNext(obj: MachObject, t: nat)
    requires t < |obj.sections| && IsPermutation(AllocationOrder(SectionExtents(obj.sections)), |obj.sections|)
    ensures var es := ArrangedAll(SectionExtents(obj.sections));
            if es[t].zerofill then InitialisedUpTo(obj, t + 1) == InitialisedUpTo(obj, t)
            else InitialisedUpTo(obj, t + 1) == End(es[..t + 1]) && InitialisedUpTo(obj, t) <= InitialisedUpTo(obj, t + 1)
  {
    hide Filter, End, AllocationOrder;
    var all := SectionExtents(obj.sections);
    var es, first, rest := ArrangedAll(all), Filter(all, IsKind(false)), Filter(all, IsKind(true));
    ArrangedByKind(all);
    FilterAll(all, IsKind(true));
    FilterAll(all, IsKind(false));
    assert es == first + rest;
    if t < |first| {
      assert es[t] == first[t] && first[t] in first;
      assert es[..t + 1] == first[..t + 1];
      assert first[..t + 1][..t] == first[..t];
      EndPrefix(first[..t + 1], t);
    } else {
      assert es[t] == rest[t - |first|] && rest[t - |first|] in rest;
    }
  }

  lemma InitialisedAll(obj: MachObject)
    requires IsPermutation(AllocationOrder(SectionExtents(obj.sections)), |obj.sections|)
    ensures InitialisedUpTo(obj, 0) == 0 && InitialisedUpTo(obj, |obj.sections|) == InitialisedEnd(obj)
  {
    hide Filter, AllocationOrder;
    var all := SectionExtents(obj.sections);
    var first := Filter(all, IsKind(false));
    ArrangedByKind(all);
    assert |first| <= |all|;
    assert first[..|first|] == first;
  }

  /** A complete plan within 64 bits is one for a sound object. */
  lemma PlannedSound(obj: MachObject, layouts: seq<SectionLayout>, content: nat, cursor: nat)
    requires SectionsPlanned(obj, layouts, content, cursor)
    requires IsPermutation(AllocationOrder(SectionExtents(obj.sections)), |obj.sections|)
    requires End(ArrangedAll(SectionExtents(obj.sections))) <= U64_MAX
    ensures SectionsSound(obj)
  {
    hide RelocationsOk, AllocationOrder, End, BasesFor, Overflows;
    BasesFailExactly(SectionExtents(obj.sections));
    forall i | 0 <= i < |obj.sections|
      ensures SectionSizeOk(obj.sections[i]) && RelocationsOk(obj, obj.sections[i]) && obj.sections[i].align < 64
    {
      assert SectionPlanned(obj, i, layouts[i], content, cursor);
    }
  }

  lemma Unsound(obj: MachObject, i: nat)
    requires i < |obj.sections|
    requires !SectionSizeOk(obj.sections[i]) || !RelocationsOk(obj, obj.sections[i])
    ensures !SectionsSound(obj)
  {
  }

  lemma SoundAddresses(obj: MachObject, t: nat)
    requires SectionsSound(obj) && t < |obj.sections|
    requires IsPermutation(AllocationOrder(SectionExtents(obj.sections)), |obj.sections|)
    ensures var es := ArrangedAll(SectionExtents(obj.sections));
            && AddressAt(es, t) + es[t].size <= U64_MAX
            && CheckedAlignValue(End(es[..t]), es[t].align) == Some(AddressAt(es, t))
  {
    hide AllocationOrder, RelocationsOk, AlignUp, CheckedAlignValue, End;
    var all := SectionExtents(obj.sections);
    var es := ArrangedAll(all);
    BasesFailExactly(all);
    EndNext(es, t);
    AddressOf(es, t);
    var i := AllocationOrder(all)[t];
    assert es[t] == all[i] && obj.sections[i].align < 64;
    CheckedAlignExact(End(es[..t]), es[t].align);
  }

  /** Sections get addresses and offsets: exactly for a sound object whose initialised sections end within 32 bits. */
  method PlanSections(obj: MachObject, content: nat)
    returns (r: Result<(seq<SectionLayout>, nat, nat), MachError>)
    requires content <= U32_MAX
    ensures r.Ok? ==> SectionsPlanned(obj, r.value.0, content, r.value.1)
    ensures r.Ok? ==> r.value.1 == content + InitialisedEnd(obj)
    ensures r.Ok? ==> IsPermutation(AllocationOrder(SectionExtents(obj.sections)), |obj.sections|)
                      && r.value.2 == End(ArrangedAll(SectionExtents(obj.sections)))
    ensures r.Ok? <==> SectionsSound(obj) && content + InitialisedEnd(obj) <= U32_MAX
    ensures r.Err? ==> r.error != SectionsOverlap && r.error != BadRange
  {
    hide AllocationOrder, AddressAt, End, AlignUp, PlannedUpTo, RelocationsOk, CheckedAlignValue, SectionsSound,
      InitialisedEnd, InitialisedUpTo,
      SectionsPlanned;
    var extents := SectionExtents(obj.sections);
    AllocationPermutes(extents);
    var order := AllocationOrder(extents);
    ghost var es := Arranged(extents, order);
    var layouts := seq(|obj.sections|, _ => SectionLayout(0, 0, 0, 0));
    var fileCursor, vmCursor: nat := content, 0;
    NonePlanned(obj, layouts, order, content);
    InitialisedAll(obj);
    var t := 0;
    while t < |order|
      invariant 0 <= t <= |order| && |layouts| == |obj.sections| && content <= fileCursor <= U32_MAX
      invariant vmCursor == End(es[..t]) <= U64_MAX && fileCursor == content + InitialisedUpTo(obj, t)
      invariant PlannedUpTo(obj, layouts, order, t, content, fileCursor)
    {
      var index := order[t];
      var section := obj.sections[index];
      if !section.zerofill && |section.data| != section.size {
        Unsound(obj, index);
        return Err(SizeMismatch);
      }
      var valid := ValidateRelocations(obj, section);
      if !valid {
        Unsound(obj, index);
        return Err(BadRelocation);
      }
      EndNext(es, t);
      AddressOf(es, t);
      InitialisedNext(obj, t);
      if SectionsSound(obj) {
        SoundAddresses(obj, t);
      }
      var aligned := CheckedAlignValue(vmCursor, section.align);
      AlignedRight(vmCursor, section.align);
      if aligned.None? {
        return Err(AddressOverflow);
      }
      var addr := aligned.value;
      if addr + section.size > U64_MAX {
        return Err(AddressOverflow);
      }
      vmCursor := addr + section.size;
      var offset, end: nat := 0, fileCursor;
      if !section.zerofill {
        InitialisedFirst(obj, t);
        if content + addr + section.size > U32_MAX {
          return Err(TooLarge);
        }
        offset := content + addr;
        end := Max(fileCursor, offset + section.size);
      }
      PlanStep(obj, layouts, order, t, content, fileCursor, SectionLayout(addr, offset, 0, 0), end);
      fileCursor := end;
      layouts := layouts[index := SectionLayout(addr, offset, 0, 0)];
      t := t + 1;
    }
    PlanDone(obj, layouts, content, fileCursor);
    assert es[..t] == es;
    PlannedSound(obj, layouts, content, fileCursor);
    return Ok((layouts, fileCursor, vmCursor));
  }

  lemma AlignedRight(value: nat, power: nat)
    ensures CheckedAlignValue(value, power).Some? ==> power < 64 && CheckedAlignValue(value, power).value == AlignUp(value, power)
  {
    if power < 64 {
      CheckedAlignExact(value, power);
    }
  }

  /** Among initialised sections, a later one lies behind an earlier one, in memory and in the file. */
  lemma OffsetsIncrease(obj: MachObject, layouts: seq<SectionLayout>, content: nat, cursor: nat, i: nat, j: nat)
    requires SectionsPlanned(obj, layouts, content, cursor) && i < j < |layouts|
    requires !obj.sections[i].zerofill && !obj.sections[j].zerofill
    ensures layouts[i].offset + obj.sections[i].size <= layouts[j].offset
  {
    hide AddressAt, RelocationsOk;
    var es := SectionExtents(obj.sections);
    var order := AllocationOrder(es);
    assert i in order && j in order;
    var t :| 0 <= t < |order| && order[t] == i;
    var u :| 0 <= u < |order| && order[u] == j;
    InitialisedInOrder(es, t, u);
    AddressesApart(Arranged(es, order), t, u);
    assert SectionPlanned(obj, i, layouts[i], content, cursor) && SectionPlanned(obj, j, layouts[j], content, cursor);
    assert Addresses(layouts)[order[t]] == layouts[i].addr && Addresses(layouts)[order[u]] == layouts[j].addr;
  }

  /** Initialised sections keep their order. */
  lemma InitialisedInOrder(es: seq<Extent>, t: nat, u: nat)
    requires IsPermutation(AllocationOrder(es), |es|) && t < |es| && u < |es|
    requires AllocationOrder(es)[t] < AllocationOrder(es)[u]
    requires !es[AllocationOrder(es)[t]].zerofill && !es[AllocationOrder(es)[u]].zerofill
    ensures t < u
  {
    KindRankTotal(es);
    var order: seq<nat> := StableSort<nat>(Indices(|es|), KindOrder(es));
    assert order == AllocationOrder(es);
    assert KindOrder(es)(order[t], order[u]) && KindOrder(es)(order[u], order[t]);
    if u < t {
      SortTies(|es|, KindOrder(es), u, t);
    }
  }

  lemma KindRankTotal(es: seq<Extent>)
    ensures TotalPreorder(KindOrder(es))
  {
  }

  /** Any two sections occupy disjoint, aligned address ranges. */
  lemma AddressesDisjoint(obj: MachObject, layouts: seq<SectionLayout>, content: nat, cursor: nat, i: nat, j: nat)
    requires SectionsPlanned(obj, layouts, content, cursor) && i < |layouts| && j < |layouts| && i != j
    ensures layouts[i].addr % Pow2(obj.sections[i].align) == 0
    ensures layouts[i].addr + obj.sections[i].size <= layouts[j].addr || layouts[j].addr + obj.sections[j].size <= layouts[i].addr
  {
    hide RelocationsOk, AddressAt;
    var es := SectionExtents(obj.sections);
    var order := AllocationOrder(es);
    assert i in order && j in order;
    var t :| 0 <= t < |order| && order[t] == i;
    var u :| 0 <= u < |order| && order[u] == j;
    var arranged := Arranged(es, order);
    assert Addresses(layouts)[order[t]] == layouts[i].addr && Addresses(layouts)[order[u]] == layouts[j].addr;
    if t < u {
      AddressesApart(arranged, t, u);
    } else {
      AddressesApart(arranged, u, t);
      AddressAligned(arranged, t);
    }
  }

  lemma AddressAligned(es: seq<Extent>, t: nat)
    requires t < |es|
    ensures AddressAt(es, t) % Pow2(es[t].align) == 0
  {
    AlignUpLeast(End(es[..t]), es[t].align);
  }

  // ---- relocation tables -----------------------------------------------------------------------

  /** Where the relocation table of section i starts when all tables follow one another. */
  function RelocStart(sections: seq<MachSection>, from: nat, i: nat): nat
    requires i <= |sections|
  {
    if i == 0 then from else RelocStart(sections, from, i - 1) + |sections[i - 1].relocations| * RELOC_SIZE
  }

  lemma {:induction false} TablesGrow(sections: seq<MachSection>, from: nat, i: nat)
    requires i <= |sections|
    ensures from <= RelocStart(sections, from, i) <= RelocStart(sections, from, |sections|)
    decreases |sections| - i
  {
    TablesFrom(sections, from, i);
    if i < |sections| {
      TablesGrow(sections, from, i + 1);
    }
  }

  lemma {:induction false} TablesFrom(sections: seq<MachSection>, from: nat, i: nat)
    requires i <= |sections|
    ensures RelocStart(sections, from, i) == from + RelocStart(sections, 0, i)
  {
    if i > 0 {
      TablesFrom(sections, from, i - 1);
    }
  }

  predicate RelocOk(obj: MachObject, l: SectionLayout, from: nat, i: nat)
    requires i < |obj.sections|
  {
    && l.nreloc == |obj.sections[i].relocations| <= U32_MAX
    && (l.nreloc > 0 ==> l.reloff == RelocStart(obj.sections, from, i) <= U32_MAX)
  }

  method PlanRelocations(obj: MachObject, planned: seq<SectionLayout>, from: nat)
    returns (r: Result<(seq<SectionLayout>, nat), MachError>)
    requires |planned| == |obj.sections| && from <= U32_MAX
    ensures r.Ok? ==> |r.value.0| == |planned|
    ensures r.Ok? ==> forall i :: 0 <= i < |planned| ==>
                        && RelocOk(obj, r.value.0[i], from, i)
                        && r.value.0[i].addr == planned[i].addr && r.value.0[i].offset == planned[i].offset
                        && (r.value.0[i].nreloc == 0 ==> r.value.0[i].reloff == planned[i].reloff)
    ensures r.Ok? ==> r.value.1 == RelocStart(obj.sections, from, |obj.sections|) <= U32_MAX
    ensures r.Err? ==> RelocStart(obj.sections, from, |obj.sections|) > U32_MAX
  {
    var layouts := planned;
    var cursor := from;
    var i := 0;
    while i < |layouts|
      invariant 0 <= i <= |layouts| == |planned|
      invariant cursor == RelocStart(obj.sections, from, i) <= U32_MAX
      invariant forall k :: 0 <= k < i ==> RelocOk(obj, layouts[k], from, k) && layouts[k].addr == planned[k].addr
                                           && layouts[k].offset == planned[k].offset
                                           && (layouts[k].nreloc == 0 ==> layouts[k].reloff == planned[k].reloff)
      invariant forall k :: i <= k < |layouts| ==> layouts[k] == planned[k]
    {
      var count := |obj.sections[i].relocations|;
      TablesGrow(obj.sections, from, i + 1);
      if count > U32_MAX {
        return Err(TooLarge);
      }
      layouts := layouts[i := layouts[i].(nreloc := count)];
      if count > 0 {
        if count * RELOC_SIZE > U32_MAX || cursor + count * RELOC_SIZE > U32_MAX {
          return Err(TooLarge);
        }
        layouts := layouts[i := layouts[i].(reloff := cursor)];
        cursor := cursor + count * RELOC_SIZE;
      }
      i := i + 1;
    }
    return Ok((layouts, cursor));
  }
}
