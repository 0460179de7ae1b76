/**
  Writing an ELF relocatable object (src/elf.rs): symbols are ordered locals first, string tables filled,
  sections placed one after another, and the header table appended. What was written reads back.
 */
module ElfWriter {
  import opened Words
  import opened Sorting
  import opened ElfWire
  import opened ElfObject
  import opened ElfReader
  import opened ElfFile
  import opened ElfEntries

  /** `TooLarge` stands for every failure to hold the output: more bytes than a vector can hold, or counts past 32 bits. */
  datatype WriteError = InvalidObject | TooLarge

  /** A byte vector holds at most `isize::MAX` bytes. */
  const CAPACITY: nat := 0x7FFF_FFFF_FFFF_FFFF

  // ---- symbols -----------------------------------------------------------------------------

  lemma FilterNext(n: nat, p: nat -> bool)
    ensures Filter(Indices(n + 1), p) == Filter(Indices(n), p) + if p(n) then [n] else []
  {
    var tail: seq<nat> := [n];
    assert Indices(n + 1) == Indices(n) + tail;
    FilterAppend(Indices(n), tail, p);
    assert tail[1..] == [];
  }

  method SelectSymbols(symbols: seq<ElfSymbol>, local: bool) returns (r: seq<nat>)
    ensures r == Filter(Indices(|symbols|), Binding(symbols, local))
  {
    hide Filter, Indices;
    r := [];
    var i := 0;
    NoneFiltered(Binding(symbols, local));
    while i < |symbols|
      invariant 0 <= i <= |symbols| && r == Filter(Indices(i), Binding(symbols, local))
    {
      FilterNext(i, Binding(symbols, local));
      if (symbols[i].bind == STB_LOCAL) == local {
        r := r + [i];
      }
      i := i + 1;
    }
  }

  lemma NoneFiltered(p: nat -> bool)
    ensures Filter(Indices(0), p) == []
  {
  }

  /** The writing order, and each symbol's number in the file; zero is the null symbol's. */
  method OrderSymbols(symbols: seq<ElfSymbol>) returns (order: seq<nat>, firstGlobal: u32, numbers: seq<u32>)
    ensures order == LocalsFirst(symbols) && IsPermutation(order, |symbols|)
    ensures firstGlobal == (1 + |Locals(symbols)|) % 0x1_0000_0000
    ensures |numbers| == |symbols| && forall i :: 0 <= i < |symbols| ==> numbers[i] == (1 + Position(order, i)) % 0x1_0000_0000
  {
    LocalsFirstPermutes(symbols);
    var locals := SelectSymbols(symbols, true);
    var others := SelectSymbols(symbols, false);
    hide Filter, Indices, Position;
    firstGlobal := (1 + |locals|) % 0x1_0000_0000;
    order := locals + others;
    numbers := seq(|symbols|, _ => 0);
    var k := 0;
    while k < |order|
      invariant 0 <= k <= |order| && |numbers| == |symbols|
      invariant forall q :: 0 <= q < k ==> numbers[order[q]] == (1 + q) % 0x1_0000_0000
    {
      numbers := numbers[order[k] := (1 + k) % 0x1_0000_0000];
      k := k + 1;
    }
    forall i | 0 <= i < |symbols| ensures numbers[i] == (1 + Position(order, i)) % 0x1_0000_0000 {
      assert i in order;
      assert order[Position(order, i)] == i;
    }
  }

  /** Enter the symbols' names, in writing order. */
  method InternSymbols(symbols: seq<ElfSymbol>, order: seq<nat>, table: StringTable) returns (offsets: seq<u32>)
    requires table.Valid() && table.entered == [] && forall k :: 0 <= k < |order| ==> order[k] < |symbols|
    modifies table
    ensures table.Valid() && table.entered == NamesIn(symbols, order)
    ensures |offsets| == |order| && forall k :: 0 <= k < |order| ==> NameAt(table.data, offsets[k], symbols[order[k]].name)
  {
    hide NameAt;
    offsets := [];
    var k := 0;
    while k < |order|
      invariant 0 <= k <= |order| && |offsets| == k && table.Valid()
      invariant table.entered == NamesIn(symbols, order[..k])
      invariant forall q :: 0 <= q < k ==> NameAt(table.data, offsets[q], symbols[order[q]].name)
    {
      ghost var before := table.data;
      var off := table.Intern(symbols[order[k]].name);
      forall q | 0 <= q < k ensures NameAt(table.data, offsets[q], symbols[order[q]].name) {
        StillReads(before, table.data, offsets[q], symbols[order[q]].name);
      }
      assert NamesIn(symbols, order[..k + 1]) == NamesIn(symbols, order[..k]) + [symbols[order[k]].name];
      offsets := offsets + [off];
      k := k + 1;
    }
    assert order[..k] == order;
  }

  /** Entry k of the symbol table, after the null entry, is the k-th symbol in writing order. */
  ghost predicate SymtabHolds(symbols: seq<ElfSymbol>, order: seq<nat>, offsets: seq<u32>, body: bytes, n: nat)
    requires n <= |order| && n <= |offsets| && forall k :: 0 <= k < n ==> order[k] < |symbols|
  {
    && |body| == (1 + n) * SYM_SIZE
    && forall k :: 0 <= k < n ==> SliceAt(body, (1 + k) * SYM_SIZE, WriteSym(SymbolRecord(symbols[order[k]], offsets[k])))
  }

  lemma SymtabNext(symbols: seq<ElfSymbol>, order: seq<nat>, offsets: seq<u32>, body: bytes, n: nat)
    requires n < |order| && n < |offsets| && forall k :: 0 <= k <= n ==> order[k] < |symbols|
    requires SymtabHolds(symbols, order, offsets, body, n)
    ensures SymtabHolds(symbols, order, offsets, body + WriteSym(SymbolRecord(symbols[order[n]], offsets[n])), n + 1)
  {
    hide WriteSym, SymbolRecord;
    var entry := WriteSym(SymbolRecord(symbols[order[n]], offsets[n]));
    forall k | 0 <= k < n + 1
      ensures SliceAt(body + entry, (1 + k) * SYM_SIZE, WriteSym(SymbolRecord(symbols[order[k]], offsets[k])))
    {
      if k < n {
        SliceKept(body, entry, (1 + k) * SYM_SIZE, WriteSym(SymbolRecord(symbols[order[k]], offsets[k])));
      }
    }
  }

  method BuildSymtab(symbols: seq<ElfSymbol>, order: seq<nat>, offsets: seq<u32>) returns (body: bytes)
    requires |order| == |offsets| == |symbols| && forall k :: 0 <= k < |symbols| ==> order[k] < |symbols|
    ensures SymtabHolds(symbols, order, offsets, body, |symbols|)
  {
    hide SymtabHolds, WriteSym;
    body := WriteSym(Sym(0, 0, 0, SHN_UNDEF, 0, 0));
    var k := 0;
    SymtabStarts(symbols, order, offsets, body);
    while k < |order|
      invariant 0 <= k <= |order| && SymtabHolds(symbols, order, offsets, body, k)
    {
      var s := symbols[order[k]];
      SymtabNext(symbols, order, offsets, body, k);
      body := body + WriteSym(Sym(offsets[k], SymInfo(s.bind, s.typ), s.vis, Shndx(s.place), s.value, s.size));
      k := k + 1;
    }
  }

  lemma SymtabStarts(symbols: seq<ElfSymbol>, order: seq<nat>, offsets: seq<u32>, body: bytes)
    requires |body| == SYM_SIZE
    ensures SymtabHolds(symbols, order, offsets, body, 0)
  {
  }

  // ---- sections -------------------------------------------------------------------------------

  method FindRelocated(sections: seq<ElfSection>) returns (r: seq<nat>)
    ensures r == Relocated(sections)
  {
    r := [];
    var i := 0;
    while i < |sections|
      invariant 0 <= i <= |sections| && r == Relocated(sections[..i])
    {
      assert sections[..i + 1][..i] == sections[..i];
      if sections[i].relas != [] {
        r := r + [i];
      }
      i := i + 1;
    }
    assert sections[..i] == sections;
  }

  /** Pad to the alignment and append: the bytes stand at the least aligned file offset not yet used. */
  method Place(body: bytes, align: u64, data: bytes) returns (r: Option<bytes>, offset: u64)
    ensures r.None? <==> RoundUp(EHDR_SIZE + |body|, align) + |data| > EHDR_SIZE + CAPACITY
    ensures r.Some? ==>
              && offset == RoundUp(EHDR_SIZE + |body|, align) && EHDR_SIZE + |body| <= offset
              && (align > 1 ==> offset % align == 0)
              && body <= r.value && EHDR_SIZE + |r.value| == offset + |data|
              && SliceAt(r.value, offset - EHDR_SIZE, data)
  {
    var here := EHDR_SIZE + |body|;
    RoundUpLeast(here, align);
    hide RoundUp;
    var aligned := RoundUp(here, align);
    if |body| + (aligned - here) > CAPACITY || |body| + (aligned - here) + |data| > CAPACITY {
      return None, 0;
    }
    var padded := body + Repeated(0, aligned - here);
    var placed := padded + data;
    assert placed == padded + data + [];
    SlicePiece(placed, padded, data, []);
    return Some(placed), aligned;
  }

  /** The output so far: the bytes behind the file header, and the section headers. */
  datatype Output = Output(body: bytes, headers: seq<Shdr>)

  /** Place an entry's bytes and push its header. */
  method PlaceEntry(e: Entry, name: u32, out: Output, names: bytes, ghost es: seq<Entry>, ghost before: bytes) returns (r: Option<Output>)
    requires Laid(es, out.headers, out.body, before) && before <= names && NameAt(names, name, e.name) && e.shType != SHT_NOBITS
    ensures r.Some? ==>
              && Laid(es + [e], r.value.headers, r.value.body, names) && r.value.headers[0] == out.headers[0]
              && |r.value.headers| == 2 + |es|
    ensures r.None? ==> EndOf(RoomsOf(es + [e])) > CAPACITY
  {
    var body, offset := Place(out.body, e.align, e.data);
    LaidSize(es, out.headers, out.body, before);
    RoomsNext(es, e);
    hide EndOf, RoomsOf;
    if body.None? {
      return None;
    }
    var h := Shdr(name, e.shType, e.flags, 0, offset, |e.data|, e.link, e.info, e.align, e.entsize);
    hide SliceAt, NameAt, RoundUp;
    assert Written(e, h, body.value, names);
    LaidNext(es, out.headers, out.body, before, e, h, body.value, names);
    return Some(Output(body.value, out.headers + [h]));
  }

  lemma LaidSize(es: seq<Entry>, headers: seq<Shdr>, body: bytes, names: bytes)
    requires Laid(es, headers, body, names)
    ensures |headers| == 1 + |es| && EHDR_SIZE + |body| == EndOf(RoomsOf(es))
  {
  }

  lemma {:induction false} PowerAtMost(v: nat, k: nat)
    requires PowerOfTwo(v) && v < 2 * Pow2(k)
    ensures v <= Pow2(k)
  {
    if v > 1 && k > 0 {
      PowerAtMost(v / 2, k - 1);
    }
  }

  lemma HighestPower()
    ensures Pow2(63) == 0x8000_0000_0000_0000
  {
    assert Pow2(15) == 0x8000;
    Pow2Add(16, 15);
    Pow2Add(32, 31);
    Pow2Add(16, 16);
  }

  /** No alignment below 2^64 carries an offset below 2^63 past 2^64. */
  lemma AlignedInRange(at: nat, align: u64)
    requires (align == 0 || PowerOfTwo(align)) && at <= CAPACITY
    ensures RoundUp(at, align) <= U64_MAX
  {
    hide PowerOfTwo, RoundUp, Pow2;
    RoundUpLeast(at, align);
    if align != 0 {
      HighestPower();
      PowerAtMost(align, 63);
    }
  }

  /** A section without bytes still takes the current offset, aligned. */
  method SkipEntry(e: Entry, name: u32, out: Output, names: bytes, ghost es: seq<Entry>, ghost before: bytes) returns (r: Option<Output>)
    requires Laid(es, out.headers, out.body, before) && before <= names && NameAt(names, name, e.name) && e.shType == SHT_NOBITS
    requires e.align == 0 || PowerOfTwo(e.align)
    ensures r.Some? ==>
              && Laid(es + [e], r.value.headers, r.value.body, names) && r.value.headers[0] == out.headers[0]
              && |r.value.headers| == 2 + |es|
    ensures r.None? ==> EndOf(RoomsOf(es + [e])) > CAPACITY
  {
    LaidSize(es, out.headers, out.body, before);
    RoomsNext(es, e);
    RoundUpLeast(EHDR_SIZE + |out.body|, e.align);
    hide SliceAt, NameAt, RoundUp, PowerOfTwo, EndOf, RoomsOf;
    var here := RoundUp(EHDR_SIZE + |out.body|, e.align);
    if here > U64_MAX {
      if EHDR_SIZE + |out.body| <= CAPACITY {
        AlignedInRange(EHDR_SIZE + |out.body|, e.align);
      }
      return None;
    }
    var h := Shdr(name, e.shType, e.flags, 0, here, e.nobits, e.link, e.info, e.align, e.entsize);
    assert Written(e, h, out.body, names);
    LaidNext(es, out.headers, out.body, before, e, h, out.body, names);
    return Some(Output(out.body, out.headers + [h]));
  }

  /** If a prefix of the entries does not fit, nor do all. */
  lemma TooLargeAlready(some: seq<Entry>, all: seq<Entry>)
    requires EndOf(RoomsOf(some)) > CAPACITY && some <= all
    ensures EndOf(RoomsOf(all)) > CAPACITY
  {
    hide EndOf, RoomOf;
    assert RoomsOf(all)[..|some|] == RoomsOf(some);
    EndGrows(RoomsOf(all), |some|);
  }

  lemma ContentsNext(sections: seq<ElfSection>, i: nat)
    requires i < |sections|
    ensures ContentEntries(sections, i + 1) == ContentEntries(sections, i) + [ContentEntry(sections[i])]
    ensures ContentNames(sections, i + 1) == ContentNames(sections, i) + [sections[i].name]
    ensures ContentEntries(sections, i + 1) <= ContentEntries(sections, |sections|)
  {
    hide ContentEntry;
  }

  /** A section without bytes in the file only gets its header. */
  method AddEntry(e: Entry, name: u32, out: Output, names: bytes, ghost es: seq<Entry>, ghost before: bytes) returns (r: Option<Output>)
    requires Laid(es, out.headers, out.body, before) && before <= names && NameAt(names, name, e.name)
    requires e.align == 0 || PowerOfTwo(e.align)
    ensures r.Some? ==>
              && Laid(es + [e], r.value.headers, r.value.body, names) && r.value.headers[0] == out.headers[0]
              && |r.value.headers| == 2 + |es|
    ensures r.None? ==> EndOf(RoomsOf(es + [e])) > CAPACITY
  {
    hide Laid, NameAt, PowerOfTwo, EndOf, RoomsOf;
    if e.shType == SHT_NOBITS {
      r := SkipEntry(e, name, out, names, es, before);
    } else {
      r := PlaceEntry(e, name, out, names, es, before);
    }
  }

  lemma NoContents(sections: seq<ElfSection>)
    ensures ContentEntries(sections, 0) == [] && ContentNames(sections, 0) == []
  {
  }

  /** The first i content sections are laid out and their names entered. */
  ghost predicate Filled(sections: seq<ElfSection>, i: nat, zero: Shdr, out: Output, entered: seq<bytes>, names: bytes) {
    && i <= |sections| && entered == ContentNames(sections, i)
    && Laid(ContentEntries(sections, i), out.headers, out.body, names)
    && |out.headers| == 1 + i && out.headers[0] == zero
  }

  lemma NoneFilled(sections: seq<ElfSection>, zero: Shdr, names: bytes)
    ensures Filled(sections, 0, zero, Output([], [zero]), [], names)
  {
    hide Laid;
    NoContents(sections);
    LaidNone(zero, names);
  }

  lemma FilledNext(sections: seq<ElfSection>, i: nat, zero: Shdr, out: Output, entered: seq<bytes>, before: bytes, next: Output, names: bytes)
    requires Filled(sections, i, zero, out, entered, before) && i < |sections|
    requires Laid(ContentEntries(sections, i) + [ContentEntry(sections[i])], next.headers, next.body, names)
    requires next.headers[0] == out.headers[0] && |next.headers| == 2 + i
    ensures Filled(sections, i + 1, zero, next, entered + [sections[i].name], names)
  {
    hide Laid, ContentEntries, ContentNames, ContentEntry;
    ContentsNext(sections, i);
  }

  lemma EntryFits(obj: ElfObject, i: nat)
    requires ValidObject(obj) && i < |obj.sections|
    ensures ContentEntry(obj.sections[i]).name == obj.sections[i].name
    ensures ContentEntry(obj.sections[i]).align == 0 || PowerOfTwo(ContentEntry(obj.sections[i]).align)
  {
    hide PowerOfTwo;
    assert ElfSectionOk(obj, obj.sections[i]);
  }

  lemma SoonTooLarge(sections: seq<ElfSection>, i: nat)
    requires i < |sections| && EndOf(RoomsOf(ContentEntries(sections, i) + [ContentEntry(sections[i])])) > CAPACITY
    ensures EndOf(RoomsOf(ContentEntries(sections, |sections|))) > CAPACITY
  {
    hide ContentEntries, ContentEntry, EndOf, RoomsOf;
    ContentsNext(sections, i);
    TooLargeAlready(ContentEntries(sections, i + 1), ContentEntries(sections, |sections|));
  }

  /** The content sections, in order. */
  method PlaceContents(obj: ElfObject, zero: Shdr, names: StringTable) returns (r: Option<Output>)
    requires names.Valid() && names.entered == [] && ValidObject(obj)
    modifies names
    ensures names.Valid()
    ensures r.Some? ==>
              && Laid(ContentEntries(obj.sections, |obj.sections|), r.value.headers, r.value.body, names.data)
              && r.value.headers[0] == zero && |r.value.headers| == 1 + |obj.sections|
              && names.entered == ContentNames(obj.sections, |obj.sections|)
    ensures r.None? ==> EndOf(RoomsOf(ContentEntries(obj.sections, |obj.sections|))) > CAPACITY
  {
    hide Laid, NameAt, PowerOfTwo, ValidObject, EndOf, RoomsOf, ContentEntries, ContentNames, ContentEntry, StringTable.Valid;
    var sections := obj.sections;
    var out := Output([], [zero]);
    var i := 0;
    NoneFilled(sections, zero, names.data);
    while i < |sections|
      invariant 0 <= i <= |sections| && names.Valid() && Filled(sections, i, zero, out, names.entered, names.data)
    {
      ghost var before, entered := names.data, names.entered;
      EntryFits(obj, i);
      var name := names.Intern(sections[i].name);
      var next := AddEntry(ContentEntry(sections[i]), name, out, names.data, ContentEntries(sections, i), before);
      if next.None? {
        SoonTooLarge(sections, i);
        return None;
      }
      FilledNext(sections, i, zero, out, entered, before, next.value, names.data);
      out := next.value;
      i := i + 1;
    }
    return Some(out);
  }

  lemma LaidNone(zero: Shdr, names: bytes)
    ensures Laid([], [zero], [], names) && ContentEntries([], 0) == []
  {
  }

  // ---- relocations ------------------------------------------------------------------------------

  /** Symbol numbers in the file, by model index. */
  ghost predicate Numbering(numbers: seq<u32>, order: seq<nat>, n: nat) {
    |numbers| == n && forall i :: 0 <= i < n ==> numbers[i] == (1 + Position(order, i)) % 0x1_0000_0000
  }

  method BuildRelaBody(relas: seq<Rela>, numbers: seq<u32>, ghost order: seq<nat>) returns (body: bytes)
    requires Numbering(numbers, order, |numbers|) && forall k :: 0 <= k < |relas| ==> relas[k].symbol < |numbers|
    ensures body == RelaBody(relas, order)
  {
    hide WriteRela, Position;
    body := [];
    var k := 0;
    while k < |relas|
      invariant 0 <= k <= |relas| && body == RelaBody(relas[..k], order)
    {
      var r := relas[k];
      assert relas[..k + 1][..k] == relas[..k];
      body := body + WriteRela(RawRela(r.offset, RelaInfo(numbers[r.symbol], r.rtype), r.addend));
      k := k + 1;
    }
    assert relas[..k] == relas;
  }

  lemma RelasInRange(obj: ElfObject, t: nat)
    requires ValidObject(obj) && t < |obj.sections|
    ensures forall k :: 0 <= k < |obj.sections[t].relas| ==> obj.sections[t].relas[k].symbol < |obj.symbols|
  {
    hide PlaceOk, RelocWidth, PowerOfTwo;
    assert ElfSectionOk(obj, obj.sections[t]);
    forall k | 0 <= k < |obj.sections[t].relas| ensures obj.sections[t].relas[k].symbol < |obj.symbols| {
      assert RelaOk(obj, obj.sections[t], obj.sections[t].relas[k]);
    }
  }

  /** One relocation section for each content section that has relocations. */
  method PlaceRelocations(obj: ElfObject, numbers: seq<u32>, first: Output, names: StringTable, ghost order: seq<nat>, ghost es: seq<Entry>)
    returns (r: Option<Output>)
    requires names.Valid() && ValidObject(obj) && Numbering(numbers, order, |obj.symbols|)
    requires Laid(es, first.headers, first.body, names.data) && |first.headers| == 1 + |es|
    modifies names
    ensures names.Valid()
    ensures r.Some? ==>
              && Laid(es + RelaEntries(obj, order, Relocated(obj.sections)), r.value.headers, r.value.body, names.data)
              && r.value.headers[0] == first.headers[0] && |r.value.headers| == 1 + |es| + |Relocated(obj.sections)|
              && names.entered == old(names.entered) + RelaNames(obj.sections, Relocated(obj.sections))
    ensures r.None? ==> EndOf(RoomsOf(es + RelaEntries(obj, order, Relocated(obj.sections)))) > CAPACITY
  {
    var relocated := FindRelocated(obj.sections);
    hide Laid, NameAt, Relocated, RelaBody, ValidObject, SymtabAt, EndOf, RoomsOf, RoomOf, TableOf;
    var out := first;
    var k := 0;
    NoRelas(obj, order, es, relocated);
    ghost var entered := names.entered;
    while k < |relocated|
      invariant 0 <= k <= |relocated| && names.Valid()
      invariant names.entered == entered + RelaNames(obj.sections, relocated[..k])
      invariant Laid(es + RelaEntries(obj, order, relocated[..k]), out.headers, out.body, names.data)
      invariant |out.headers| == 1 + |es| + k && out.headers[0] == first.headers[0]
    {
      ghost var before, sofar := names.data, es + RelaEntries(obj, order, relocated[..k]);
      var t := relocated[k];
      RelasInRange(obj, t);
      RelaEntriesNext(obj, order, es, relocated, k);
      var name := names.Intern(RELA_PREFIX + obj.sections[t].name);
      var body := BuildRelaBody(obj.sections[t].relas, numbers, order);
      var e := Entry(RELA_PREFIX + obj.sections[t].name, SHT_RELA, 0, SymtabAt(obj) % 0x1_0000_0000, (1 + t) % 0x1_0000, 8, RELA_SIZE, 0, body);
      var next := PlaceEntry(e, name, out, names.data, sofar, before);
      if next.None? {
        TooLargeAlready(es + RelaEntries(obj, order, relocated[..k + 1]), es + RelaEntries(obj, order, relocated));
        return None;
      }
      assert entered + RelaNames(obj.sections, relocated[..k]) + [RELA_PREFIX + obj.sections[t].name]
             == entered + (RelaNames(obj.sections, relocated[..k]) + [RELA_PREFIX + obj.sections[t].name]);
      out := next.value;
      k := k + 1;
    }
    assert relocated[..k] == relocated;
    return Some(out);
  }

  lemma NoRelas(obj: ElfObject, order: seq<nat>, es: seq<Entry>, at: seq<nat>)
    ensures es + RelaEntries(obj, order, at[..0]) == es && RelaNames(obj.sections, at[..0]) == []
  {
  }

  lemma RelaEntriesNext(obj: ElfObject, order: seq<nat>, es: seq<Entry>, at: seq<nat>, k: nat)
    requires (forall q :: 0 <= q < |at| ==> at[q] < |obj.sections|) && k < |at|
    ensures es + RelaEntries(obj, order, at[..k + 1]) == es + RelaEntries(obj, order, at[..k]) + [RelaEntry(obj, order, at[k])]
    ensures RelaNames(obj.sections, at[..k + 1]) == RelaNames(obj.sections, at[..k]) + [RELA_PREFIX + obj.sections[at[k]].name]
    ensures es + RelaEntries(obj, order, at[..k + 1]) <= es + RelaEntries(obj, order, at)
  {
    hide RelaEntry;
  }

  // ---- the whole file --------------------------------------------------------------------------------

  /** Everything up to the header table: contents, the stack note, symbols, strings, relocations, section names. */
  method LayOut(obj: ElfObject, numbers: seq<u32>, firstGlobal: u32, symtab: bytes, strtab: bytes, zero: Shdr, ghost order: seq<nat>)
    returns (r: Option<(Output, bytes)>)
    requires ValidObject(obj) && order == LocalsFirst(obj.symbols) && Numbering(numbers, order, |obj.symbols|)
    requires firstGlobal == (1 + |Locals(obj.symbols)|) % 0x1_0000_0000
    requires |symtab| == SYM_SIZE * (1 + |obj.symbols|) && strtab == SymbolStrings(obj)
    ensures r.Some? ==>
              && r.value.1 == SectionStrings(obj)
              && Laid(AllEntries(obj, symtab, strtab, r.value.1), r.value.0.headers, r.value.0.body, r.value.1)
              && r.value.0.headers[0] == zero && |r.value.0.headers| == 1 + NamesAt(obj)
    ensures r.None? ==> EndOf(Rooms(obj)) > CAPACITY
  {
    hide Laid, NameAt, Relocated, RelaBody, ValidObject, LocalsFirst, Locals, EndOf, RoomsOf, RoomOf, TableOf, Rooms,
      SymbolStrings, Numbering;
    ghost var front, relas := FrontEntries(obj, symtab, strtab), RelaEntries(obj, order, Relocated(obj.sections));
    ghost var last := [StringEntry(SHSTRTAB_NAME, SectionStrings(obj))];
    assert AllEntries(obj, symtab, strtab, SectionStrings(obj)) == front + relas + last;
    SameRooms(obj, symtab);
    var names := new StringTable();
    var contents := PlaceContents(obj, zero, names);
    if contents.None? {
      TooLargeAlready(ContentEntries(obj.sections, |obj.sections|), front + relas + last);
      return None;
    }
    var tables := PlaceTables(obj, firstGlobal, symtab, strtab, contents.value, names);
    if tables.None? {
      TooLargeAlready(front, front + relas + last);
      return None;
    }
    var placed := PlaceRelocations(obj, numbers, tables.value, names, order, front);
    if placed.None? {
      TooLargeAlready(front + relas, front + relas + last);
      return None;
    }
    ghost var before := names.data;
    var name := names.Intern(SHSTRTAB_NAME);
    assert names.data == SectionStrings(obj);
    var end := PlaceEntry(StringEntry(SHSTRTAB_NAME, names.data), name, placed.value, names.data, front + relas, before);
    if end.None? {
      return None;
    }
    return Some((end.value, names.data));
  }

  /** The stack note, the symbol table and the string table. */
  method PlaceTables(obj: ElfObject, firstGlobal: u32, symtab: bytes, strtab: bytes, contents: Output, names: StringTable)
    returns (r: Option<Output>)
    requires names.Valid() && Laid(ContentEntries(obj.sections, |obj.sections|), contents.headers, contents.body, names.data)
    requires firstGlobal == (1 + |Locals(obj.symbols)|) % 0x1_0000_0000 && |contents.headers| == 1 + |obj.sections|
    modifies names
    ensures names.Valid()
    ensures r.Some? ==>
              && Laid(FrontEntries(obj, symtab, strtab), r.value.headers, r.value.body, names.data)
              && r.value.headers[0] == contents.headers[0] && |r.value.headers| == 2 + SymtabAt(obj)
              && names.entered == old(names.entered) + TableNames(obj.gnuStack)
    ensures r.None? ==> EndOf(RoomsOf(FrontEntries(obj, symtab, strtab))) > CAPACITY
  {
    hide Laid, NameAt, Relocated, Locals, EndOf, RoomsOf, RoomOf, TableOf;
    ghost var contentEntries, notes := ContentEntries(obj.sections, |obj.sections|), NoteEntries(obj.gnuStack);
    ghost var es := contentEntries + notes;
    ghost var before := names.data;
    var table := Entry(SYMTAB_NAME, SHT_SYMTAB, 0, (SymtabAt(obj) + 1) % 0x1_0000_0000, firstGlobal, 8, SYM_SIZE, 0, symtab);
    ghost var strings := StringEntry(STRTAB_NAME, strtab);
    assert FrontEntries(obj, symtab, strtab) == es + [table] + [strings];
    var out := contents;
    if obj.gnuStack.Some? {
      var note := names.Intern(NOTE_GNU_STACK);
      var next := PlaceEntry(StackNote(obj.gnuStack.value), note, out, names.data, contentEntries, before);
      if next.None? {
        TooLargeAlready(es, es + [table] + [strings]);
        return None;
      }
      out := next.value;
    } else {
      assert contentEntries + notes == contentEntries;
    }
    before := names.data;
    var name := names.Intern(SYMTAB_NAME);
    var symbols := PlaceEntry(table, name, out, names.data, es, before);
    if symbols.None? {
      TooLargeAlready(es + [table], es + [table] + [strings]);
      return None;
    }
    before := names.data;
    name := names.Intern(STRTAB_NAME);
    r := PlaceEntry(StringEntry(STRTAB_NAME, strtab), name, symbols.value, names.data, es + [table], before);
    assert names.entered == old(names.entered) + TableNames(obj.gnuStack);
  }

  method WriteHeaders(body: bytes, headers: seq<Shdr>) returns (r: bytes)
    ensures |r| == |body| + |headers| * SHDR_SIZE && body <= r
    ensures forall i :: 0 <= i < |headers| ==> SliceAt(r, |body| + i * SHDR_SIZE, WriteShdr(headers[i]))
  {
    hide WriteShdr, SliceAt;
    r := body;
    var k := 0;
    while k < |headers|
      invariant 0 <= k <= |headers| && |r| == |body| + k * SHDR_SIZE && body <= r
      invariant forall i :: 0 <= i < k ==> SliceAt(r, |body| + i * SHDR_SIZE, WriteShdr(headers[i]))
    {
      var entry := WriteShdr(headers[k]);
      forall i | 0 <= i < k ensures SliceAt(r + entry, |body| + i * SHDR_SIZE, WriteShdr(headers[i])) {
        SliceKept(r, entry, |body| + i * SHDR_SIZE, WriteShdr(headers[i]));
      }
      assert r + entry == r + entry + [];
      SlicePiece(r + entry, r, entry, []);
      r := r + entry;
      k := k + 1;
    }
  }

  /** The header table stands where the file header says. */
  lemma TableInFile(front: bytes, body: bytes, headers: seq<Shdr>, start: nat)
    requires forall i :: 0 <= i < |headers| ==> SliceAt(body, start + i * SHDR_SIZE, WriteShdr(headers[i]))
    ensures forall i :: 0 <= i < |headers| ==> SliceAt(front + body, |front| + start + i * SHDR_SIZE, WriteShdr(headers[i]))
  {
    hide WriteShdr, SliceAt;
    assert front + body == front + body + [];
    SlicePiece(front + body, front, body, []);
    forall i | 0 <= i < |headers| ensures SliceAt(front + body, |front| + start + i * SHDR_SIZE, WriteShdr(headers[i])) {
      SliceInside(front + body, |front|, body, start + i * SHDR_SIZE, WriteShdr(headers[i]));
    }
  }

  lemma OrderRange(symbols: seq<ElfSymbol>)
    requires IsPermutation(LocalsFirst(symbols), |symbols|)
    ensures |LocalsFirst(symbols)| == |symbols| && forall k :: 0 <= k < |symbols| ==> LocalsFirst(symbols)[k] < |symbols|
  {
    hide LocalsFirst;
  }

  lemma SymtabSize(symbols: seq<ElfSymbol>, order: seq<nat>, offsets: seq<u32>, body: bytes)
    requires |order| == |offsets| == |symbols| && forall k :: 0 <= k < |symbols| ==> order[k] < |symbols|
    requires SymtabHolds(symbols, order, offsets, body, |symbols|)
    ensures |body| == SYM_SIZE * (1 + |symbols|)
  {
    hide SliceAt, WriteSym, SymbolRecord;
  }

  lemma CountsFail(names: nat)
    requires EncodeCounts(names + 1, names).None?
    ensures names > U32_MAX
  {
  }

  /** The laid out entries end where the rooms of the object do; the file ends behind the header table. */
  lemma LaidEnd(obj: ElfObject, symtab: bytes, out: Output)
    requires |symtab| == SYM_SIZE * (1 + |obj.symbols|)
    requires Laid(AllEntries(obj, symtab, SymbolStrings(obj), SectionStrings(obj)), out.headers, out.body, SectionStrings(obj))
    ensures FileSize(obj) == RoundUp(EHDR_SIZE + |out.body|, 8) + SHDR_SIZE * (NamesAt(obj) + 1)
  {
    hide AllEntries, SymbolStrings, SectionStrings, NamesAt, RoundUp, EndOf, Rooms, RoomsOf;
    SameRooms(obj, symtab);
    LaidSize(AllEntries(obj, symtab, SymbolStrings(obj), SectionStrings(obj)), out.headers, out.body, SectionStrings(obj));
  }

  function FileOf(obj: ElfObject, p: Parts, body: bytes): bytes
    requires EncodeCounts(NamesAt(obj) + 1, NamesAt(obj)).Some?
  {
    WriteEhdr(FileHeader(obj, p.shoff, EncodeCounts(NamesAt(obj) + 1, NamesAt(obj)).value)) + body
  }

  /** The file header and the header table are where the reader will look. */
  lemma TableWritten(obj: ElfObject, p: Parts, body: bytes, start: nat)
    requires p.shoff == EHDR_SIZE + start && |p.headers| == NamesAt(obj) + 1 && |body| == start + |p.headers| * SHDR_SIZE
    requires forall i :: 0 <= i < |p.headers| ==> SliceAt(body, start + i * SHDR_SIZE, WriteShdr(p.headers[i]))
    requires EncodeCounts(NamesAt(obj) + 1, NamesAt(obj)).Some?
    requires p.headers[0] == ZeroHeader(EncodeCounts(NamesAt(obj) + 1, NamesAt(obj)).value)
    ensures HeadersWritten(obj, FileOf(obj, p, body), p)
  {
    hide WriteShdr, WriteEhdr, NamesAt, SliceAt, EncodeCounts;
    var front := WriteEhdr(FileHeader(obj, p.shoff, EncodeCounts(NamesAt(obj) + 1, NamesAt(obj)).value));
    TableInFile(front, body, p.headers, start);
    assert front + body == [] + front + body;
    SlicePiece(front + body, [], front, body);
    forall i | 0 <= i < |p.headers| ensures SliceAt(front + body, p.shoff + i * SHDR_SIZE, WriteShdr(p.headers[i])) {
      assert |front| + start + i * SHDR_SIZE == p.shoff + i * SHDR_SIZE;
    }
  }

  /** The sections are where their headers say. */
  lemma FileWritten(obj: ElfObject, p: Parts, laid: bytes, body: bytes)
    requires Laid(AllEntries(obj, p.symbols, p.strings, p.names), p.headers, laid, p.names) && laid <= body
    requires EHDR_SIZE + |laid| <= p.shoff && EncodeCounts(NamesAt(obj) + 1, NamesAt(obj)).Some?
    ensures SectionsWritten(obj, FileOf(obj, p, body), p) && Apart(p.headers, p.shoff) && Aligned(p.headers)
  {
    hide Laid, Apart, Aligned, AllEntries, SectionsWritten, WriteEhdr, NamesAt, EncodeCounts, LocalsFirst, Relocated;
    var front := WriteEhdr(FileHeader(obj, p.shoff, EncodeCounts(NamesAt(obj) + 1, NamesAt(obj)).value));
    LaidApart(AllEntries(obj, p.symbols, p.strings, p.names), p.headers, laid, p.names, p.shoff);
    CountsBounded(NamesAt(obj));
    BodySplit(front, laid, body);
    SectionsHeld(obj, p, laid, front, body[|laid|..]);
  }

  lemma BodySplit(front: bytes, laid: bytes, body: bytes)
    requires laid <= body
    ensures front + body == front + laid + body[|laid|..]
  {
    assert body == laid + body[|laid|..];
  }

  lemma CountsBounded(names: nat)
    requires EncodeCounts(names + 1, names).Some?
    ensures names <= U32_MAX
  {
  }

  lemma LaidApart(es: seq<Entry>, headers: seq<Shdr>, body: bytes, names: bytes, end: nat)
    requires Laid(es, headers, body, names) && EHDR_SIZE + |body| <= end
    ensures Apart(headers, end) && Aligned(headers)
  {
    forall i | 1 <= i < |headers| && headers[i].align > 1 ensures headers[i].offset % headers[i].align == 0 {
      assert Written(es[i - 1], headers[1 + (i - 1)], body, names);
    }
  }

  lemma SymbolsLaid(symbols: seq<ElfSymbol>, p: Parts)
    requires IsPermutation(LocalsFirst(symbols), |symbols|) && |p.nameOffsets| == |symbols|
    requires |LocalsFirst(symbols)| == |symbols| && forall k :: 0 <= k < |symbols| ==> LocalsFirst(symbols)[k] < |symbols|
    requires SymtabHolds(symbols, LocalsFirst(symbols), p.nameOffsets, p.symbols, |symbols|)
    requires forall k :: 0 <= k < |symbols| ==> NameAt(p.strings, p.nameOffsets[k], symbols[LocalsFirst(symbols)[k]].name)
    ensures SymbolsWritten(symbols, LocalsFirst(symbols), p)
  {
    hide LocalsFirst, NameAt, SliceAt, WriteSym, SymbolRecord, IsPermutation;
  }

  /** Both string tables lie within reach of 32-bit offsets. */
  ghost predicate NamesAddressable(obj: ElfObject) {
    |SymbolStrings(obj)| <= U32_MAX && |SectionStrings(obj)| <= U32_MAX
  }

  lemma Reads(obj: ElfObject, file: bytes, p: Parts)
    requires HeadersWritten(obj, file, p) && SectionsWritten(obj, file, p) && SymbolsWritten(obj.symbols, LocalsFirst(obj.symbols), p)
    requires p.names == SectionStrings(obj) && p.strings == SymbolStrings(obj) && |file| <= U64_MAX
    requires ValidObject(obj) && IsPermutation(LocalsFirst(obj.symbols), |obj.symbols|)
    ensures RoundTrippable(obj) && NamesAddressable(obj) ==> Parse(file) == Some(Normalized(obj))
  {
    hide HeadersWritten, SectionsWritten, SymbolsWritten, ValidObject, LocalsFirst, IsPermutation, Parse, KeptSection,
      KeptSymbol, Normalized;
    hide TableOf, NamesIn, SectionNames;
    if RoundTrippable(obj) && NamesAddressable(obj) {
      FileRoundTrip(obj, file, p);
    }
  }

  /** Pad so that what follows the body is 8-aligned in the file. */
  method AlignTable(body: bytes) returns (padded: bytes)
    ensures body <= padded && (EHDR_SIZE + |padded|) % 8 == 0 && EHDR_SIZE + |padded| == RoundUp(EHDR_SIZE + |body|, 8)
  {
    RoundUpLeast(EHDR_SIZE + |body|, 8);
    hide RoundUp;
    padded := body + Repeated(0, RoundUp(EHDR_SIZE + |body|, 8) - EHDR_SIZE - |body|);
  }

  lemma FileIs(obj: ElfObject, p: Parts, body: bytes, shoff: u64, counts: Counts)
    requires EncodeCounts(NamesAt(obj) + 1, NamesAt(obj)) == Some(counts) && p.shoff == shoff
    ensures FileOf(obj, p, body) == WriteEhdr(FileHeader(obj, shoff, counts)) + body
  {
    hide EncodeCounts, NamesAt, WriteEhdr, FileHeader;
  }

  /** Append the header table and put the file header in front. */
  method FinishFile(obj: ElfObject, out: Output, names: bytes, strings: bytes, symtab: bytes, ghost offsets: seq<u32>, counts: Counts)
    returns (r: Result<bytes, WriteError>, ghost p: Parts)
    requires EncodeCounts(NamesAt(obj) + 1, NamesAt(obj)) == Some(counts)
    requires Laid(AllEntries(obj, symtab, strings, names), out.headers, out.body, names) && out.headers[0] == ZeroHeader(counts)
    requires |out.headers| == NamesAt(obj) + 1
    ensures r.Err? ==> r == Err(TooLarge)
    ensures r.Err? <==> RoundUp(EHDR_SIZE + |out.body|, 8) + SHDR_SIZE * (NamesAt(obj) + 1) > CAPACITY
    ensures r.Ok? ==> |r.value| == RoundUp(EHDR_SIZE + |out.body|, 8) + SHDR_SIZE * (NamesAt(obj) + 1)
    ensures p.headers == out.headers && p.names == names && p.strings == strings && p.symbols == symtab && p.nameOffsets == offsets
    ensures r.Ok? ==>
              && HeadersWritten(obj, r.value, p) && SectionsWritten(obj, r.value, p)
              && Apart(p.headers, p.shoff) && Aligned(p.headers) && p.shoff % 8 == 0
  {
    hide LocalsFirst, Locals, Relocated, Laid, Apart, Aligned, HeadersWritten, SectionsWritten, AllEntries, EncodeCounts,
      SliceAt, WriteEhdr, WriteShdr;
    hide FileOf, FileHeader, NamesAt;
    var padded := AlignTable(out.body);
    var shoff := EHDR_SIZE + |padded|;
    if shoff + |out.headers| * SHDR_SIZE > CAPACITY {
      return Err(TooLarge), Parts(0, out.headers, names, strings, symtab, offsets);
    }
    var body := WriteHeaders(padded, out.headers);
    p := Parts(shoff, out.headers, names, strings, symtab, offsets);
    TableWritten(obj, p, body, |padded|);
    FileWritten(obj, p, out.body, body);
    FileIs(obj, p, body, shoff, counts);
    r := Ok(WriteEhdr(FileHeader(obj, shoff, counts)) + body);
  }

  /**
    Serialize an object. A valid object that fits is written: every header leads to its entry's bytes,
    ranges do not overlap, and reading the file gives the object back, symbols permuted locals first.
   */
  method WriteElf(obj: ElfObject) returns (r: Result<bytes, WriteError>, ghost p: Parts)
    ensures IsPermutation(LocalsFirst(obj.symbols), |obj.symbols|)
    ensures r == Err(InvalidObject) <==> !ValidObject(obj)
    ensures r == Err(TooLarge) <==> ValidObject(obj) && (NamesAt(obj) > U32_MAX || FileSize(obj) > CAPACITY)
    ensures r.Ok? ==>
              && |r.value| == FileSize(obj)
              && HeadersWritten(obj, r.value, p) && SectionsWritten(obj, r.value, p)
              && SymbolsWritten(obj.symbols, LocalsFirst(obj.symbols), p)
              && Apart(p.headers, p.shoff) && Aligned(p.headers) && p.shoff % 8 == 0
    ensures r.Ok? && RoundTrippable(obj) && NamesAddressable(obj) ==> Parse(r.value) == Some(Normalized(obj))
  {
    hide ValidObject, LocalsFirst, Locals, Relocated, Laid, Apart, Aligned, HeadersWritten, SectionsWritten, SymbolsWritten, RoundTrippable,
      AllEntries, SymtabHolds, IsPermutation, Parse, NamesAddressable, NamesIn, TableOf, SectionStrings, RoundUp, EndOf, RoomsOf, Rooms;
    p := Parts(0, [], [], [], [], []);
    LocalsFirstPermutes(obj.symbols);
    var ok := Validate(obj);
    if !ok {
      return Err(InvalidObject), p;
    }
    var order, firstGlobal, numbers := OrderSymbols(obj.symbols);
    var strtab := new StringTable();
    OrderRange(obj.symbols);
    var offsets := InternSymbols(obj.symbols, order, strtab);
    var symtab := BuildSymtab(obj.symbols, order, offsets);
    SymtabSize(obj.symbols, order, offsets, symtab);
    var relocated := FindRelocated(obj.sections);
    var names := 1 + |obj.sections| + (if obj.gnuStack.Some? then 1 else 0) + 2 + |relocated|;
    var counts := EncodeCounts(names + 1, names);
    if counts.None? {
      CountsFail(names);
      return Err(TooLarge), p;
    }
    var laid := LayOut(obj, numbers, firstGlobal, symtab, strtab.data, ZeroHeader(counts.value), order);
    CountsBounded(names);
    if laid.None? {
      SizeAtLeast(obj);
      return Err(TooLarge), p;
    }
    LaidEnd(obj, symtab, laid.value.0);
    r, p := FinishFile(obj, laid.value.0, laid.value.1, strtab.data, symtab, offsets, counts.value);
    if r.Ok? {
      SymbolsLaid(obj.symbols, p);
      Reads(obj, r.value, p);
    }
  }

  lemma SizeAtLeast(obj: ElfObject)
    ensures EndOf(Rooms(obj)) <= FileSize(obj)
  {
    hide EndOf, Rooms, RoundUp, NamesAt;
    RoundUpLeast(EndOf(Rooms(obj)), 8);
  }
}
