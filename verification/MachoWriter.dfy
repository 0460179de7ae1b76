/**
  The Mach-O object file as bytes (src/macho.rs). Every offset and count the load commands record is
  read back from the written file and leads to the bytes it announces.
 */
module MachoWriter {
  import opened Words
  import opened Sorting
  import opened SectionBases
  import opened MachoRelocs
  import opened MachoPlan
  import MachoStrings

  // ---- fixed-size records -----------------------------------------------------------------

  /** A name in sixteen bytes, cut or padded with NULs. */
  function Pad16(name: bytes): (bs: bytes)
    ensures |bs| == 16
  {
    if |name| >= 16 then name[..16] else name + Repeated(0, 16 - |name|)
  }

  function SectionMemory(s: MachSection, l: SectionLayout): (bs: bytes)
    ensures |bs| == 16
  {
    LE(l.addr, 8) + LE(s.size, 8)
  }

  function SectionInFile(s: MachSection, l: SectionLayout): (bs: bytes)
    ensures |bs| == 16
  {
    LE(l.offset, 4) + LE(s.align, 4) + LE(l.reloff, 4) + LE(l.nreloc, 4)
  }

  function SectionHeader(s: MachSection, l: SectionLayout): (bs: bytes)
    ensures |bs| == SECTION_SIZE
  {
    (Pad16(s.name) + Pad16(s.segment)) + SectionMemory(s, l) + SectionInFile(s, l)
    + (LE(s.flags, 4) + LE(0, 4) + LE(0, 4) + LE(0, 4))
  }

  function B(b: bool): nat { if b then 1 else 0 }

  /** The second word of a relocation entry: symbol index, then the flag and type bits above it. */
  function RelocInfo(r: Relocation): nat {
    r.target + B(r.pcrel) * 0x100_0000 + r.length * 0x200_0000 + B(r.external) * 0x800_0000 + r.kind * 0x1000_0000
  }

  function RelocBytes(r: Relocation): (bs: bytes)
    ensures |bs| == RELOC_SIZE
  {
    LE(r.offset, 4) + LE(RelocInfo(r), 4)
  }

  /** r_address, then from the low bits up r_symbolnum:24, r_pcrel:1, r_length:2, r_extern:1, r_type:4. */
  function ParseReloc(bs: bytes): Relocation
    requires |bs| == RELOC_SIZE
  {
    ParseInfo(FromLE(bs[..4]), FromLE(bs[4..]))
  }

  function ParseInfo(address: nat, info: nat): Relocation {
    var fromPcrel := info / 0x100_0000;
    var fromLength := fromPcrel / 2;
    var fromExtern := fromLength / 4;
    Reloc(address, info % 0x100_0000, fromLength % 4, fromExtern / 2, fromPcrel % 2 == 1, fromExtern % 2 == 1)
  }

  predicate FieldsFit(r: Relocation) {
    r.offset <= U32_MAX && r.target <= 0xFF_FFFF && r.length <= 3 && r.kind <= 0xF
  }

  lemma InfoFields(r: Relocation)
    requires FieldsFit(r)
    ensures RelocInfo(r) <= U32_MAX && ParseInfo(r.offset, RelocInfo(r)) == r
  {
    var fromExtern := B(r.external) + 2 * r.kind;
    var fromLength := r.length + 4 * fromExtern;
    var fromPcrel := B(r.pcrel) + 2 * fromLength;
    assert RelocInfo(r) == fromPcrel * 0x100_0000 + r.target;
    DivModUnique(RelocInfo(r), 0x100_0000, fromPcrel, r.target);
    DivModUnique(fromPcrel, 2, fromLength, B(r.pcrel));
    DivModUnique(fromLength, 4, fromExtern, r.length);
    DivModUnique(fromExtern, 2, r.kind, B(r.external));
  }

  /** An accepted relocation survives being written. */
  lemma RelocRoundTrip(r: Relocation)
    requires FieldsFit(r)
    ensures ParseReloc(RelocBytes(r)) == r
  {
    hide ParseInfo, RelocInfo;
    InfoFields(r);
    WordRoundTrip(r.offset);
    WordRoundTrip(RelocInfo(r));
    assert RelocBytes(r)[..4] == LE(r.offset, 4) && RelocBytes(r)[4..] == LE(RelocInfo(r), 4);
  }

  lemma WordRoundTrip(v: nat)
    requires v <= U32_MAX
    ensures FromLE(LE(v, 4)) == v
  {
    Pow256Values();
    FieldRoundTrip(v, 4);
  }

  function SymbolType(s: MachSymbol): byte {
    (if s.undefined || s.common then 0 else if s.absolute then 0x02 else 0x0E) + B(s.global) + 0x10 * B(s.privateExtern)
  }

  function SymbolDesc(s: MachSymbol): nat {
    0x20 * B(s.absolute) + (if s.common then s.commonAlign * 0x100 else 0) + 0x40 * B(s.weakRef) + 0x80 * B(s.weakDef)
  }

  function SymbolEntry(s: MachSymbol, nameAt: nat): (bs: bytes)
    ensures |bs| == NLIST_SIZE
  {
    LE(nameAt, 4) + [SymbolType(s)] + [s.section] + LE(SymbolDesc(s), 2) + LE(s.value, 8)
  }

  // ---- tables -------------------------------------------------------------------------------

  function SectionHeaders(sections: seq<MachSection>, layouts: seq<SectionLayout>): (bs: bytes)
    requires |layouts| == |sections|
    ensures |bs| == |sections| * SECTION_SIZE
  {
    if sections == [] then []
    else
      var last := |sections| - 1;
      SectionHeaders(sections[..last], layouts[..last]) + SectionHeader(sections[last], layouts[last])
  }

  function RelocTable(rs: seq<Relocation>): (bs: bytes)
    ensures |bs| == |rs| * RELOC_SIZE
  {
    if rs == [] then [] else RelocTable(rs[..|rs| - 1]) + RelocBytes(rs[|rs| - 1])
  }

  function SymbolTable(symbols: seq<MachSymbol>, names: map<bytes, nat>): (bs: bytes)
    ensures |bs| == |symbols| * NLIST_SIZE
  {
    if symbols == [] then []
    else
      var s := symbols[|symbols| - 1];
      SymbolTable(symbols[..|symbols| - 1], names) + SymbolEntry(s, if s.name in names then names[s.name] else 0)
  }

  lemma {:induction false} HeaderAt(sections: seq<MachSection>, layouts: seq<SectionLayout>, i: nat)
    requires |layouts| == |sections| && i < |sections|
    ensures SliceAt(SectionHeaders(sections, layouts), i * SECTION_SIZE, SectionHeader(sections[i], layouts[i]))
  {
    hide SectionHeader;
    var last := |sections| - 1;
    if i < last {
      HeaderAt(sections[..last], layouts[..last], i);
      SliceKept(SectionHeaders(sections[..last], layouts[..last]), SectionHeader(sections[last], layouts[last]),
                i * SECTION_SIZE, SectionHeader(sections[i], layouts[i]));
    }
  }

  lemma {:induction false} SymbolAt(symbols: seq<MachSymbol>, names: map<bytes, nat>, k: nat)
    requires k < |symbols| && symbols[k].name in names
    ensures SliceAt(SymbolTable(symbols, names), k * NLIST_SIZE, SymbolEntry(symbols[k], names[symbols[k].name]))
  {
    hide SymbolEntry;
    var last := |symbols| - 1;
    if k < last {
      SymbolAt(symbols[..last], names, k);
      var s := symbols[last];
      SliceKept(SymbolTable(symbols[..last], names), SymbolEntry(s, if s.name in names then names[s.name] else 0),
                k * NLIST_SIZE, SymbolEntry(symbols[k], names[symbols[k].name]));
    }
  }

  /** Everything the load commands announce. */
  datatype Plan = Plan(layouts: seq<SectionLayout>, content: nat, relocs: nat, hintsAt: nat, symbolsAt: nat, stringsAt: nat,
                       stringSize: nat, vmsize: nat, fileoff: nat, filesize: nat, locals: nat, externs: nat, undefs: nat)

  function Commands(obj: MachObject): nat { ContentOffset(obj) - HEADER_SIZE }

  function MachHeader(obj: MachObject): (bs: bytes)
    ensures |bs| == HEADER_SIZE
  {
    LE(0xFEEDFACF, 4) + LE(0x0100000C, 4) + LE(0, 4) + LE(1, 4) + LE(if obj.hints != [] then 5 else 4, 4)
    + LE(Commands(obj), 4) + LE(obj.flags, 4) + LE(0, 4)
  }

  function SegmentCommand(obj: MachObject, p: Plan): (bs: bytes)
    ensures |bs| == SEGMENT_SIZE
  {
    LE(0x19, 4) + LE(SEGMENT_SIZE + |obj.sections| * SECTION_SIZE, 4) + Pad16([]) + LE(0, 8) + LE(p.vmsize, 8)
    + LE(p.fileoff, 8) + LE(p.filesize, 8) + LE(7, 4) + LE(7, 4) + LE(|obj.sections|, 4) + LE(0, 4)
  }

  function BuildCommand(obj: MachObject): (bs: bytes)
    ensures |bs| == BUILD_SIZE
  {
    LE(0x32, 4) + LE(BUILD_SIZE, 4) + LE(obj.platform, 4) + LE(obj.minos, 4) + LE(obj.sdk, 4) + LE(0, 4)
  }

  function HintCommand(obj: MachObject, p: Plan): (bs: bytes)
    ensures |bs| == if obj.hints != [] then LINKEDIT_SIZE else 0
  {
    if obj.hints == [] then [] else LE(0x2E, 4) + LE(LINKEDIT_SIZE, 4) + LE(p.hintsAt, 4) + LE(|obj.hints|, 4)
  }

  function SymtabCommand(obj: MachObject, p: Plan): (bs: bytes)
    ensures |bs| == SYMTAB_SIZE
  {
    LE(0x02, 4) + LE(SYMTAB_SIZE, 4) + LE(p.symbolsAt, 4) + LE(|obj.symbols|, 4) + LE(p.stringsAt, 4) + LE(p.stringSize, 4)
  }

  function DysymtabCommand(p: Plan): (bs: bytes)
    ensures |bs| == DYSYMTAB_SIZE
  {
    LE(0x0B, 4) + LE(DYSYMTAB_SIZE, 4) + LE(0, 4) + LE(p.locals, 4) + LE(p.locals, 4) + LE(p.externs, 4)
    + LE(p.locals + p.externs, 4) + LE(p.undefs, 4) + Repeated(0, 48)
  }

  function LoadCommands(obj: MachObject, p: Plan): (bs: bytes)
    requires |p.layouts| == |obj.sections|
    ensures |bs| == ContentOffset(obj)
  {
    MachHeader(obj) + SegmentCommand(obj, p) + SectionHeaders(obj.sections, p.layouts) + BuildCommand(obj)
    + HintCommand(obj, p) + SymtabCommand(obj, p) + DysymtabCommand(p)
  }

  // ---- the plan -----------------------------------------------------------------------------------

  /** The tables follow one another behind the section contents. */
  ghost predicate PlanOk(obj: MachObject, p: Plan, strings: bytes) {
    && p.content == ContentOffset(obj) <= U32_MAX
    && (exists cursor: nat :: cursor <= p.relocs && SectionsPlanned(obj, p.layouts, p.content, cursor))
    && p.content <= p.relocs
    && (forall i :: 0 <= i < |p.layouts| ==> i < |obj.sections| && RelocOk(obj, p.layouts[i], p.relocs, i))
    && p.hintsAt == RelocStart(obj.sections, p.relocs, |obj.sections|)
    && p.symbolsAt == p.hintsAt + |obj.hints|
    && p.stringsAt == p.symbolsAt + |obj.symbols| * NLIST_SIZE
    && p.stringSize == |strings|
    && p.stringsAt + p.stringSize <= U32_MAX
  }

  lemma PlannedKept(obj: MachObject, planned: seq<SectionLayout>, layouts: seq<SectionLayout>, content: nat, cursor: nat)
    requires SectionsPlanned(obj, planned, content, cursor) && |layouts| == |planned|
    requires forall i :: 0 <= i < |planned| ==> layouts[i].addr == planned[i].addr && layouts[i].offset == planned[i].offset
    ensures SectionsPlanned(obj, layouts, content, cursor)
  {
    hide RelocationsOk, BasesFor;
    assert Addresses(layouts) == Addresses(planned);
    forall i | 0 <= i < |layouts| ensures SectionPlanned(obj, i, layouts[i], content, cursor) {
      assert SectionPlanned(obj, i, planned[i], content, cursor);
    }
  }

  function CountSymbols(symbols: seq<MachSymbol>, p: MachSymbol -> bool): nat {
    |Filter(symbols, p)|
  }

  function CheckedAlign8(value: nat): Option<nat> {
    if value + 7 > U32_MAX then None else Some(value + 7 - (value + 7) % 8)
  }

  /** The file range of the initialised sections: from the first one's offset to the last end. */
  method SegmentRange(obj: MachObject, layouts: seq<SectionLayout>, content: nat) returns (start: nat, size: nat)
    requires |layouts| == |obj.sections|
    ensures forall i :: 0 <= i < |layouts| && !obj.sections[i].zerofill ==> layouts[i].offset + obj.sections[i].size <= start + size
    ensures forall i :: 0 <= i < |layouts| && !obj.sections[i].zerofill && (forall j :: 0 <= j < i ==> obj.sections[j].zerofill) ==>
              start == layouts[i].offset
    ensures (forall i :: 0 <= i < |layouts| ==> obj.sections[i].zerofill) ==> start == content && size == 0
    ensures size == 0
            || exists i :: 0 <= i < |layouts| && !obj.sections[i].zerofill && start + size == layouts[i].offset + obj.sections[i].size
  {
    start := content;
    var i := 0;
    while i < |layouts| && obj.sections[i].zerofill
      invariant 0 <= i <= |layouts| && forall j :: 0 <= j < i ==> obj.sections[j].zerofill
    {
      i := i + 1;
    }
    if i < |layouts| {
      start := layouts[i].offset;
    }
    var end := start;
    i := 0;
    while i < |layouts|
      invariant 0 <= i <= |layouts| && start <= end
      invariant forall k :: 0 <= k < i && !obj.sections[k].zerofill ==> layouts[k].offset + obj.sections[k].size <= end
      invariant end == start || exists k :: 0 <= k < i && !obj.sections[k].zerofill && end == layouts[k].offset + obj.sections[k].size
    {
      if !obj.sections[i].zerofill {
        end := Max(end, layouts[i].offset + obj.sections[i].size);
      }
      i := i + 1;
    }
    size := end - start;
  }

  /** The contents end here, and the relocation tables start at the next multiple of eight. */
  function ContentsEnd(obj: MachObject): nat { ContentOffset(obj) + InitialisedEnd(obj) }

  function Align8(value: nat): nat { value + 7 - (value + 7) % 8 }

  /** The size of the file, one table behind another. */
  function FileSize(obj: MachObject, strings: nat): nat {
    RelocStart(obj.sections, Align8(ContentsEnd(obj)), |obj.sections|) + |obj.hints| + |obj.symbols| * NLIST_SIZE + strings
  }

  /** Every offset of the file is a 32-bit number, and so is the sum the alignment of the tables goes through. */
  predicate FileFits(obj: MachObject, strings: nat) {
    ContentsEnd(obj) + 7 <= U32_MAX && FileSize(obj, strings) <= U32_MAX
  }

  /** Exactly the sound objects whose file fits in 32 bits are planned. */
  method PlanFile(obj: MachObject, strings: bytes) returns (r: Result<Plan, MachError>)
    ensures r.Ok? ==> PlanOk(obj, r.value, strings)
    ensures r.Ok? ==> r.value.stringsAt + r.value.stringSize == FileSize(obj, |strings|)
    ensures r.Ok? <==> SectionsSound(obj) && FileFits(obj, |strings|)
    ensures r.Err? ==> r.error != SectionsOverlap && r.error != BadRange
  {
    hide SectionsPlanned, RelocOk, RelocStart, SectionsSound, InitialisedEnd, AllocationOrder, End, Arranged;
    var content := ContentOffset(obj);
    TablesGrow(obj.sections, Align8(ContentsEnd(obj)), |obj.sections|);
    TablesGrow(obj.sections, Align8(ContentsEnd(obj)), 0);
    if content > U32_MAX {
      return Err(TooLarge);
    }
    var sections := PlanSections(obj, content);
    if sections.Err? {
      return Err(sections.error);
    }
    var (planned, cursor, vmsize) := sections.value;
    PlannedLength(obj, planned, content, cursor);
    var relocs := CheckedAlign8(cursor);
    if relocs.None? {
      return Err(TooLarge);
    }
    var tables := PlanRelocations(obj, planned, relocs.value);
    if tables.Err? {
      return Err(TooLarge);
    }
    var (layouts, hintsAt) := tables.value;
    PlannedKept(obj, planned, layouts, content, cursor);
    var symbolsAt := hintsAt + |obj.hints|;
    var stringsAt := symbolsAt + |obj.symbols| * NLIST_SIZE;
    if stringsAt + |strings| > U32_MAX {
      return Err(TooLarge);
    }
    var fileoff, filesize := SegmentRange(obj, layouts, content);
    return Ok(Plan(layouts, content, relocs.value, hintsAt, symbolsAt, stringsAt, |strings|, vmsize, fileoff, filesize,
                   CountSymbols(obj.symbols, (s: MachSymbol) => !s.global && !s.undefined),
                   CountSymbols(obj.symbols, (s: MachSymbol) => s.global && !s.undefined),
                   CountSymbols(obj.symbols, (s: MachSymbol) => s.undefined)));
  }

  lemma PlannedLength(obj: MachObject, layouts: seq<SectionLayout>, content: nat, cursor: nat)
    requires SectionsPlanned(obj, layouts, content, cursor)
    ensures |layouts| == |obj.sections| && content <= cursor <= U32_MAX
  {
  }

  // ---- writing ---------------------------------------------------------------------------------------

  /** The first i sections' contents stand at their offsets, and the rest lies ahead. */
  ghost predicate ContentsUpTo(obj: MachObject, layouts: seq<SectionLayout>, out: bytes, i: nat) {
    && i <= |layouts| == |obj.sections|
    && (forall k :: 0 <= k < i && !obj.sections[k].zerofill ==> SliceAt(out, layouts[k].offset, obj.sections[k].data))
    && (forall k :: i <= k < |layouts| && !obj.sections[k].zerofill ==> |out| <= layouts[k].offset)
  }

  lemma ContentWritten(obj: MachObject, layouts: seq<SectionLayout>, content: nat, cursor: nat, out: bytes, i: nat, more: bytes)
    requires SectionsPlanned(obj, layouts, content, cursor) && i < |layouts| && !obj.sections[i].zerofill
    requires ContentsUpTo(obj, layouts, out, i) && more == Repeated(0, layouts[i].offset - |out|) + obj.sections[i].data
    ensures ContentsUpTo(obj, layouts, out + more, i + 1)
    ensures |out + more| == layouts[i].offset + obj.sections[i].size <= cursor
  {
    assert SectionPlanned(obj, i, layouts[i], content, cursor);
    forall k | 0 <= k < i && !obj.sections[k].zerofill ensures SliceAt(out + more, layouts[k].offset, obj.sections[k].data) {
      SliceKept(out, more, layouts[k].offset, obj.sections[k].data);
    }
    assert SliceAt(out + more, layouts[i].offset, obj.sections[i].data);
    forall k | i + 1 <= k < |layouts| && !obj.sections[k].zerofill ensures |out + more| <= layouts[k].offset {
      OffsetsIncrease(obj, layouts, content, cursor, i, k);
    }
  }

  lemma NoContentYet(obj: MachObject, layouts: seq<SectionLayout>, content: nat, cursor: nat, out: bytes)
    requires SectionsPlanned(obj, layouts, content, cursor) && |out| == content
    ensures ContentsUpTo(obj, layouts, out, 0)
  {
    forall k | 0 <= k < |layouts| && !obj.sections[k].zerofill ensures |out| <= layouts[k].offset {
      assert SectionPlanned(obj, k, layouts[k], content, cursor);
    }
  }

  lemma NextAhead(obj: MachObject, layouts: seq<SectionLayout>, out: bytes, i: nat)
    requires ContentsUpTo(obj, layouts, out, i) && i < |layouts|
    ensures if obj.sections[i].zerofill then ContentsUpTo(obj, layouts, out, i + 1) else |out| <= layouts[i].offset
  {
  }

  /** Section contents in file order; the gap before each is never negative. */
  method WriteContents(obj: MachObject, layouts: seq<SectionLayout>, head: bytes, ghost cursor: nat) returns (r: Result<bytes, MachError>)
    requires SectionsPlanned(obj, layouts, |head|, cursor)
    ensures r.Ok? && ContentsUpTo(obj, layouts, r.value, |layouts|)
    ensures head <= r.value && |r.value| <= cursor
  {
    hide SectionsPlanned, ContentsUpTo;
    PlannedLength(obj, layouts, |head|, cursor);
    NoContentYet(obj, layouts, |head|, cursor, head);
    var out := head;
    var i := 0;
    while i < |obj.sections|
      invariant 0 <= i <= |obj.sections| && head <= out && |out| <= cursor
      invariant ContentsUpTo(obj, layouts, out, i)
    {
      NextAhead(obj, layouts, out, i);
      if !obj.sections[i].zerofill {
        if layouts[i].offset < |out| {
          return Err(SectionsOverlap);
        }
        var more := Repeated(0, layouts[i].offset - |out|) + obj.sections[i].data;
        ContentWritten(obj, layouts, |head|, cursor, out, i, more);
        out := out + more;
      }
      i := i + 1;
    }
    return Ok(out);
  }

  /** The first i relocation tables stand where the section headers say. */
  ghost predicate TablesUpTo(obj: MachObject, p: Plan, out: bytes, i: nat) {
    && i <= |p.layouts| == |obj.sections|
    && (forall k :: 0 <= k < i && p.layouts[k].nreloc > 0 ==>
          SliceAt(out, p.layouts[k].reloff, RelocTable(SortedRelocations(obj.sections[k].relocations))))
  }

  lemma TableWritten(obj: MachObject, p: Plan, out: bytes, i: nat)
    requires TablesUpTo(obj, p, out, i) && i < |p.layouts|
    requires RelocOk(obj, p.layouts[i], p.relocs, i) && |out| == RelocStart(obj.sections, p.relocs, i)
    ensures var more := out + RelocTable(SortedRelocations(obj.sections[i].relocations));
            TablesUpTo(obj, p, more, i + 1) && |more| == RelocStart(obj.sections, p.relocs, i + 1)
  {
    hide RelocTable;
    var table := RelocTable(SortedRelocations(obj.sections[i].relocations));
    SortElements(obj.sections[i].relocations, Descending);
    forall k | 0 <= k < i && p.layouts[k].nreloc > 0
      ensures SliceAt(out + table, p.layouts[k].reloff, RelocTable(SortedRelocations(obj.sections[k].relocations)))
    {
      SliceKept(out, table, p.layouts[k].reloff, RelocTable(SortedRelocations(obj.sections[k].relocations)));
    }
  }

  method WriteTable(relocations: seq<Relocation>, out: bytes) returns (more: bytes)
    ensures more == out + RelocTable(SortedRelocations(relocations))
  {
    hide RelocBytes;
    var sorted := SortedRelocations(relocations);
    more := out;
    var k := 0;
    assert out + RelocTable(sorted[..0]) == out;
    while k < |sorted|
      invariant 0 <= k <= |sorted| && more == out + RelocTable(sorted[..k])
    {
      assert sorted[..k + 1][..k] == sorted[..k];
      more := more + RelocBytes(sorted[k]);
      k := k + 1;
    }
    assert sorted[..k] == sorted;
  }

  method WriteTables(obj: MachObject, p: Plan, start: bytes) returns (out: bytes)
    requires |p.layouts| == |obj.sections| && |start| == p.relocs
    requires forall i :: 0 <= i < |p.layouts| ==> RelocOk(obj, p.layouts[i], p.relocs, i)
    ensures start <= out && |out| == RelocStart(obj.sections, p.relocs, |obj.sections|)
    ensures TablesUpTo(obj, p, out, |obj.sections|)
  {
    hide RelocTable, RelocOk, TablesUpTo;
    out := start;
    NoTableYet(obj, p, start);
    var i := 0;
    while i < |obj.sections|
      invariant 0 <= i <= |obj.sections| && start <= out && |out| == RelocStart(obj.sections, p.relocs, i)
      invariant TablesUpTo(obj, p, out, i)
    {
      TableWritten(obj, p, out, i);
      out := WriteTable(obj.sections[i].relocations, out);
      i := i + 1;
    }
  }

  lemma NoTableYet(obj: MachObject, p: Plan, out: bytes)
    requires |p.layouts| == |obj.sections|
    ensures TablesUpTo(obj, p, out, 0)
  {
  }

  /** Everything the load commands announce stands where they announce it. */
  ghost predicate FileLaid(obj: MachObject, p: Plan, file: bytes, strings: MachoStrings.StringTable) {
    && |p.layouts| == |obj.sections|
    && |file| == p.stringsAt + p.stringSize
    && SliceAt(file, 0, LoadCommands(obj, p))
    && ContentsUpTo(obj, p.layouts, file, |obj.sections|)
    && TablesUpTo(obj, p, file, |obj.sections|)
    && SliceAt(file, p.hintsAt, obj.hints)
    && SliceAt(file, p.symbolsAt, SymbolTable(obj.symbols, strings.offsets))
    && SliceAt(file, p.stringsAt, strings.data)
  }

  lemma ContentsKept(obj: MachObject, layouts: seq<SectionLayout>, out: bytes, more: bytes)
    requires ContentsUpTo(obj, layouts, out, |obj.sections|)
    ensures ContentsUpTo(obj, layouts, out + more, |obj.sections|)
  {
    forall k | 0 <= k < |obj.sections| && !obj.sections[k].zerofill
      ensures SliceAt(out + more, layouts[k].offset, obj.sections[k].data)
    {
      SliceKept(out, more, layouts[k].offset, obj.sections[k].data);
    }
  }

  lemma TablesKept(obj: MachObject, p: Plan, out: bytes, more: bytes)
    requires TablesUpTo(obj, p, out, |obj.sections|)
    ensures TablesUpTo(obj, p, out + more, |obj.sections|)
  {
    forall k | 0 <= k < |obj.sections| && p.layouts[k].nreloc > 0
      ensures SliceAt(out + more, p.layouts[k].reloff, RelocTable(SortedRelocations(obj.sections[k].relocations)))
    {
      SliceKept(out, more, p.layouts[k].reloff, RelocTable(SortedRelocations(obj.sections[k].relocations)));
    }
  }

  /** The pieces in the order they are written. */
  lemma FileFromPieces(obj: MachObject, p: Plan, strings: MachoStrings.StringTable, contents: bytes, tables: bytes)
    requires PlanOk(obj, p, strings.data) && |p.layouts| == |obj.sections|
    requires LoadCommands(obj, p) <= contents && ContentsUpTo(obj, p.layouts, contents, |obj.sections|)
    requires contents <= tables && TablesUpTo(obj, p, tables, |obj.sections|) && |tables| == p.hintsAt
    ensures FileLaid(obj, p, tables + obj.hints + SymbolTable(obj.symbols, strings.offsets) + strings.data, strings)
  {
    hide LoadCommands, ContentsUpTo, TablesUpTo, PlanOk, SymbolTable;
    PlanFields(obj, p, strings.data);
    var symbols := SymbolTable(obj.symbols, strings.offsets);
    var file := tables + obj.hints + symbols + strings.data;
    SymbolTableLength(obj.symbols, strings.offsets);
    assert file == tables + (obj.hints + symbols + strings.data);
    TablesKept(obj, p, tables, obj.hints + symbols + strings.data);
    var rest := tables[|contents|..] + (obj.hints + symbols + strings.data);
    assert file == contents + rest;
    ContentsKept(obj, p.layouts, contents, rest);
    assert file[..|LoadCommands(obj, p)|] == LoadCommands(obj, p);
    assert file[p.hintsAt..p.hintsAt + |obj.hints|] == obj.hints;
    assert file[p.symbolsAt..p.symbolsAt + |symbols|] == symbols;
    assert file[p.stringsAt..] == strings.data;
  }

  lemma SymbolTableLength(symbols: seq<MachSymbol>, names: map<bytes, nat>)
    ensures |SymbolTable(symbols, names)| == |symbols| * NLIST_SIZE
  {
  }

  lemma PlanFields(obj: MachObject, p: Plan, strings: bytes)
    requires PlanOk(obj, p, strings)
    ensures p.symbolsAt == p.hintsAt + |obj.hints| && p.stringsAt == p.symbolsAt + |obj.symbols| * NLIST_SIZE
    ensures p.stringSize == |strings|
  {
  }

  function SymbolNames(symbols: seq<MachSymbol>): (names: seq<bytes>)
    ensures |names| == |symbols| && forall k :: 0 <= k < |symbols| ==> names[k] == symbols[k].name
  {
    seq(|symbols|, k requires 0 <= k < |symbols| => symbols[k].name)
  }

  /**
    Exactly the sound objects whose file fits in 32 bits are written. The file is laid out as planned, and
    every symbol's name can be read from the string table. The errors for overlapping sections and inverted
    ranges cannot occur.
   */
  method WriteMacho(obj: MachObject)
    returns (r: Result<bytes, MachError>, ghost p: Plan, ghost strings: MachoStrings.StringTable)
    requires forall k :: 0 <= k < |obj.symbols| ==> MachoStrings.NulFree(obj.symbols[k].name)
    ensures r.Ok? ==> PlanOk(obj, p, strings.data) && FileLaid(obj, p, r.value, strings)
    ensures r.Ok? ==> MachoStrings.Placed(strings.data, strings.offsets, SymbolNames(obj.symbols))
    ensures r.Ok? ==> |r.value| == FileSize(obj, StringSpace(obj))
    ensures r.Ok? <==> SectionsSound(obj) && FileFits(obj, StringSpace(obj))
    ensures r.Err? ==> r.error != SectionsOverlap && r.error != BadRange
  {
    hide Align8, ContentsEnd;
    hide SectionsSound, InitialisedEnd, RelocStart, LoadCommands, FileLaid, PlanOk, MachoStrings.Placed, MachoStrings.Padded,
      MachoStrings.NamesInOrder, ContentsUpTo, TablesUpTo;
    p := Plan([], 0, 0, 0, 0, 0, 0, 0, 0, 0, 0, 0, 0);
    var table := MachoStrings.BuildStringTable(SymbolNames(obj.symbols));
    strings := MachoStrings.StringTable([], map[]);
    if table.Err? {
      NamesTooLong(obj);
      return Err(TooLarge), p, strings;
    }
    PaddedSize(MachoStrings.Packed(MachoStrings.Stored(MachoStrings.NamesInOrder(SymbolNames(obj.symbols)))), table.value.data);
    var plan := PlanFile(obj, table.value.data);
    if plan.Err? {
      return Err(plan.error), p, strings;
    }
    p, strings := plan.value, table.value;
    ghost var cursor := PlanCursor(obj, plan.value, table.value.data);
    var contents := WriteContents(obj, plan.value.layouts, LoadCommands(obj, plan.value), cursor);
    if contents.Err? {
      assert false;
    }
    if plan.value.relocs < |contents.value| {
      return Err(BadRange), p, strings;
    }
    var padded := contents.value + Repeated(0, plan.value.relocs - |contents.value|);
    PlanTables(obj, plan.value, table.value.data);
    var tables := WriteTables(obj, plan.value, padded);
    FileFromPieces(obj, plan.value, table.value, contents.value, tables);
    LaidSize(obj, plan.value, tables + obj.hints + SymbolTable(obj.symbols, table.value.offsets) + table.value.data, table.value);
    r := Ok(tables + obj.hints + SymbolTable(obj.symbols, table.value.offsets) + table.value.data);
  }

  /** The size of the string table: the stored names, padded to eight. */
  function StringSpace(obj: MachObject): nat {
    Align8(|MachoStrings.Packed(MachoStrings.Stored(MachoStrings.NamesInOrder(SymbolNames(obj.symbols))))|)
  }

  lemma NamesTooLong(obj: MachObject)
    requires |MachoStrings.Packed(MachoStrings.Stored(MachoStrings.NamesInOrder(SymbolNames(obj.symbols))))| > U32_MAX
    ensures StringSpace(obj) > U32_MAX
  {
  }

  lemma PaddedSize(table: bytes, data: bytes)
    requires MachoStrings.Padded(table, data) && |data| % 8 == 0
    ensures |data| == Align8(|table|)
  {
  }

  lemma PlanCursor(obj: MachObject, p: Plan, strings: bytes) returns (cursor: nat)
    requires PlanOk(obj, p, strings)
    ensures cursor <= p.relocs && |p.layouts| == |obj.sections|
    ensures |LoadCommands(obj, p)| == p.content && SectionsPlanned(obj, p.layouts, p.content, cursor)
  {
    cursor :| cursor <= p.relocs && SectionsPlanned(obj, p.layouts, p.content, cursor);
  }

  lemma LaidSize(obj: MachObject, p: Plan, file: bytes, strings: MachoStrings.StringTable)
    requires FileLaid(obj, p, file, strings)
    ensures |file| == p.stringsAt + p.stringSize
  {
  }

  lemma PlanTables(obj: MachObject, p: Plan, strings: bytes)
    requires PlanOk(obj, p, strings) && |p.layouts| == |obj.sections|
    ensures forall i :: 0 <= i < |p.layouts| ==> RelocOk(obj, p.layouts[i], p.relocs, i)
    ensures p.hintsAt == RelocStart(obj.sections, p.relocs, |obj.sections|)
  {
  }

  // ---- reading the file back ----------------------------------------------------------------------------

  lemma MemoryFields(s: MachSection, l: SectionLayout)
    ensures SliceAt(SectionMemory(s, l), 0, LE(l.addr, 8)) && SliceAt(SectionMemory(s, l), 8, LE(s.size, 8))
  {
    hide LE;
    var m, a, z := SectionMemory(s, l), LE(l.addr, 8), LE(s.size, 8);
    assert m == [] + a + z && m == a + z + [];
    SlicePiece(m, [], a, z);
    SlicePiece(m, a, z, []);
  }

  lemma InFileFields(s: MachSection, l: SectionLayout)
    ensures SliceAt(SectionInFile(s, l), 0, LE(l.offset, 4)) && SliceAt(SectionInFile(s, l), 8, LE(l.reloff, 4))
    ensures SliceAt(SectionInFile(s, l), 12, LE(l.nreloc, 4))
  {
    hide LE;
    var m := SectionInFile(s, l);
    var o, g, f, n := LE(l.offset, 4), LE(s.align, 4), LE(l.reloff, 4), LE(l.nreloc, 4);
    assert m == [] + o + (g + f + n) && m == (o + g) + f + n && m == (o + g + f) + n + [];
    SlicePiece(m, [], o, g + f + n);
    SlicePiece(m, o + g, f, n);
    SlicePiece(m, o + g + f, n, []);
  }

  lemma HeaderFields(s: MachSection, l: SectionLayout)
    ensures SliceAt(SectionHeader(s, l), 32, LE(l.addr, 8)) && SliceAt(SectionHeader(s, l), 40, LE(s.size, 8))
    ensures SliceAt(SectionHeader(s, l), 48, LE(l.offset, 4)) && SliceAt(SectionHeader(s, l), 56, LE(l.reloff, 4))
    ensures SliceAt(SectionHeader(s, l), 60, LE(l.nreloc, 4))
  {
    hide LE, Pad16, SectionMemory, SectionInFile;
    var h := SectionHeader(s, l);
    var names, m, f := Pad16(s.name) + Pad16(s.segment), SectionMemory(s, l), SectionInFile(s, l);
    var tail := LE(s.flags, 4) + LE(0, 4) + LE(0, 4) + LE(0, 4);
    assert h == names + m + (f + tail) && h == (names + m) + f + tail;
    SlicePiece(h, names, m, f + tail);
    SlicePiece(h, names + m, f, tail);
    MemoryFields(s, l);
    InFileFields(s, l);
    SliceInside(h, 32, m, 0, LE(l.addr, 8));
    SliceInside(h, 32, m, 8, LE(s.size, 8));
    SliceInside(h, 48, f, 0, LE(l.offset, 4));
    SliceInside(h, 48, f, 8, LE(l.reloff, 4));
    SliceInside(h, 48, f, 12, LE(l.nreloc, 4));
  }

  lemma SymtabFields(obj: MachObject, p: Plan)
    ensures var c := SymtabCommand(obj, p);
            && SliceAt(c, 8, LE(p.symbolsAt, 4)) && SliceAt(c, 12, LE(|obj.symbols|, 4))
            && SliceAt(c, 16, LE(p.stringsAt, 4)) && SliceAt(c, 20, LE(p.stringSize, 4))
  {
    hide LE;
    var c, k := SymtabCommand(obj, p), LE(0x02, 4) + LE(SYMTAB_SIZE, 4);
    var a, n, b, z := LE(p.symbolsAt, 4), LE(|obj.symbols|, 4), LE(p.stringsAt, 4), LE(p.stringSize, 4);
    assert c == k + a + (n + b + z) && c == (k + a) + n + (b + z) && c == (k + a + n) + b + z && c == (k + a + n + b) + z + [];
    SlicePiece(c, k, a, n + b + z);
    SlicePiece(c, k + a, n, b + z);
    SlicePiece(c, k + a + n, b, z);
    SlicePiece(c, k + a + n + b, z, []);
  }

  /** Where the parts of the load commands start. */
  lemma CommandParts(obj: MachObject, p: Plan)
    requires |p.layouts| == |obj.sections|
    ensures var c, n := LoadCommands(obj, p), |obj.sections| * SECTION_SIZE;
            && SliceAt(c, 104, SectionHeaders(obj.sections, p.layouts))
            && SliceAt(c, 104 + n + BUILD_SIZE, HintCommand(obj, p))
            && SliceAt(c, ContentOffset(obj) - DYSYMTAB_SIZE - SYMTAB_SIZE, SymtabCommand(obj, p))
  {
    hide MachHeader, SegmentCommand, SectionHeaders, BuildCommand, HintCommand, SymtabCommand, DysymtabCommand;
    var c := LoadCommands(obj, p);
    var start, headers, build := MachHeader(obj) + SegmentCommand(obj, p), SectionHeaders(obj.sections, p.layouts), BuildCommand(obj);
    var hint, symtab, dysymtab := HintCommand(obj, p), SymtabCommand(obj, p), DysymtabCommand(p);
    assert c == start + headers + (build + hint + symtab + dysymtab);
    SlicePiece(c, start, headers, build + hint + symtab + dysymtab);
    assert c == (start + headers + build) + hint + (symtab + dysymtab);
    SlicePiece(c, start + headers + build, hint, symtab + dysymtab);
    SlicePiece(c, start + headers + build + hint, symtab, dysymtab);
  }

  /** The header of section i stands in the file, and its fields are in range. */
  lemma HeaderPlaced(obj: MachObject, p: Plan, file: bytes, strings: MachoStrings.StringTable, i: nat)
    requires PlanOk(obj, p, strings.data) && FileLaid(obj, p, file, strings) && i < |obj.sections|
    ensures |p.layouts| == |obj.sections|
    ensures var l := p.layouts[i];
            && SliceAt(file, 104 + i * SECTION_SIZE, SectionHeader(obj.sections[i], l))
            && 104 + i * SECTION_SIZE + SECTION_SIZE <= |file|
            && l.addr < Pow256(8) && obj.sections[i].size < Pow256(8) && l.offset < Pow256(4) && l.nreloc < Pow256(4)
            && (l.nreloc > 0 ==> l.reloff < Pow256(4))
  {
    hide LoadCommands, SectionHeader, SectionHeaders, ContentsUpTo, TablesUpTo, SymbolTable, LE, SectionSizeOk, RelocationsOk, BasesFor;
    var h, l := 104 + i * SECTION_SIZE, p.layouts[i];
    var cursor := PlanCursor(obj, p, strings.data);
    assert SectionPlanned(obj, i, l, p.content, cursor);
    Pow256Values();
    CommandParts(obj, p);
    HeaderAt(obj.sections, p.layouts, i);
    var header := SectionHeader(obj.sections[i], l);
    SliceInside(LoadCommands(obj, p), 104, SectionHeaders(obj.sections, p.layouts), i * SECTION_SIZE, header);
    SliceInside(file, 0, LoadCommands(obj, p), h, header);
  }

  /** A section header in the file records the planned address, size, file offset and relocation table. */
  lemma HeaderRecords(obj: MachObject, p: Plan, file: bytes, strings: MachoStrings.StringTable, i: nat)
    requires PlanOk(obj, p, strings.data) && FileLaid(obj, p, file, strings) && i < |obj.sections|
    ensures 104 + i * SECTION_SIZE + SECTION_SIZE <= |file|
    ensures var h, l := 104 + i * SECTION_SIZE, p.layouts[i];
            && WordAt(file, h + 32, 8) == l.addr && WordAt(file, h + 40, 8) == obj.sections[i].size
            && WordAt(file, h + 48, 4) == l.offset && (l.nreloc > 0 ==> WordAt(file, h + 56, 4) == l.reloff)
            && WordAt(file, h + 60, 4) == l.nreloc
  {
    hide SectionHeader, WordAt, LE, FileLaid, PlanOk, Pow256;
    HeaderPlaced(obj, p, file, strings, i);
    var h, l := 104 + i * SECTION_SIZE, p.layouts[i];
    HeaderFields(obj.sections[i], l);
    var header := SectionHeader(obj.sections[i], l);
    PartRead(file, h, header, 32, l.addr, 8);
    PartRead(file, h, header, 40, obj.sections[i].size, 8);
    PartRead(file, h, header, 48, l.offset, 4);
    PartRead(file, h, header, 60, l.nreloc, 4);
    if l.nreloc > 0 {
      PartRead(file, h, header, 56, l.reloff, 4);
    }
  }

  /** The recorded file offset leads to the section's bytes, the recorded table offset to its relocations. */
  lemma SectionFound(obj: MachObject, p: Plan, file: bytes, strings: MachoStrings.StringTable, i: nat)
    requires PlanOk(obj, p, strings.data) && FileLaid(obj, p, file, strings) && i < |obj.sections|
    ensures 104 + i * SECTION_SIZE + SECTION_SIZE <= |file|
    ensures var h, s := 104 + i * SECTION_SIZE, obj.sections[i];
            && (!s.zerofill ==> WordAt(file, h + 40, 8) == |s.data| && SliceAt(file, WordAt(file, h + 48, 4), s.data))
            && WordAt(file, h + 60, 4) == |s.relocations|
            && (s.relocations != [] ==> SliceAt(file, WordAt(file, h + 56, 4), RelocTable(SortedRelocations(s.relocations))))
  {
    hide LoadCommands, SymbolTable, RelocTable, WordAt, RelocationsOk, BasesFor;
    HeaderRecords(obj, p, file, strings, i);
    var cursor := PlanCursor(obj, p, strings.data);
    assert SectionPlanned(obj, i, p.layouts[i], p.content, cursor);
    assert RelocOk(obj, p.layouts[i], p.relocs, i);
  }

  lemma LaidParts(obj: MachObject, p: Plan, file: bytes, strings: MachoStrings.StringTable)
    requires PlanOk(obj, p, strings.data) && FileLaid(obj, p, file, strings)
    ensures |p.layouts| == |obj.sections| && SliceAt(file, 0, LoadCommands(obj, p)) && |LoadCommands(obj, p)| == ContentOffset(obj)
    ensures |file| == p.stringsAt + p.stringSize <= U32_MAX && p.symbolsAt <= p.stringsAt && |obj.symbols| <= p.stringsAt
    ensures SliceAt(file, p.symbolsAt, SymbolTable(obj.symbols, strings.offsets)) && SliceAt(file, p.stringsAt, strings.data)
    ensures SliceAt(file, p.hintsAt, obj.hints) && p.hintsAt + |obj.hints| == p.symbolsAt
  {
    hide LoadCommands, ContentsUpTo, TablesUpTo, SymbolTable, SectionsPlanned, RelocOk;
  }

  /** The symbol table command leads to the symbols and to the strings, which end the file. */
  lemma SymbolsFound(obj: MachObject, p: Plan, file: bytes, strings: MachoStrings.StringTable)
    requires PlanOk(obj, p, strings.data) && FileLaid(obj, p, file, strings)
    ensures ContentOffset(obj) <= |file|
    ensures var c := ContentOffset(obj) - DYSYMTAB_SIZE - SYMTAB_SIZE;
            && WordAt(file, c + 12, 4) == |obj.symbols|
            && SliceAt(file, WordAt(file, c + 8, 4), SymbolTable(obj.symbols, strings.offsets))
            && SliceAt(file, WordAt(file, c + 16, 4), strings.data)
            && WordAt(file, c + 16, 4) + WordAt(file, c + 20, 4) == |file|
  {
    hide LoadCommands, SymtabCommand, FileLaid, PlanOk, SymbolTable, WordAt, LE;
    var c := ContentOffset(obj) - DYSYMTAB_SIZE - SYMTAB_SIZE;
    LaidParts(obj, p, file, strings);
    CommandParts(obj, p);
    SliceInside(file, 0, LoadCommands(obj, p), c, SymtabCommand(obj, p));
    SymtabRead(obj, p, file, c);
  }

  /** The fields of the symbol table command, wherever it stands. */
  lemma SymtabRead(obj: MachObject, p: Plan, file: bytes, c: nat)
    requires SliceAt(file, c, SymtabCommand(obj, p))
    requires p.symbolsAt <= U32_MAX && |obj.symbols| <= U32_MAX && p.stringsAt + p.stringSize <= U32_MAX
    ensures c + SYMTAB_SIZE <= |file|
    ensures WordAt(file, c + 8, 4) == p.symbolsAt && WordAt(file, c + 12, 4) == |obj.symbols|
    ensures WordAt(file, c + 16, 4) == p.stringsAt && WordAt(file, c + 20, 4) == p.stringSize
  {
    hide SymtabCommand, WordAt, LE;
    var command := SymtabCommand(obj, p);
    SymtabFields(obj, p);
    Pow256Values();
    SliceInside(file, c, command, 8, LE(p.symbolsAt, 4));
    WordRead(file, c + 8, p.symbolsAt, 4);
    SliceInside(file, c, command, 12, LE(|obj.symbols|, 4));
    WordRead(file, c + 12, |obj.symbols|, 4);
    SliceInside(file, c, command, 16, LE(p.stringsAt, 4));
    WordRead(file, c + 16, p.stringsAt, 4);
    SliceInside(file, c, command, 20, LE(p.stringSize, 4));
    WordRead(file, c + 20, p.stringSize, 4);
  }

  lemma HintFields(obj: MachObject, p: Plan)
    requires obj.hints != []
    ensures SliceAt(HintCommand(obj, p), 8, LE(p.hintsAt, 4)) && SliceAt(HintCommand(obj, p), 12, LE(|obj.hints|, 4))
  {
    hide LE;
    var c, k, a, n := HintCommand(obj, p), LE(0x2E, 4) + LE(LINKEDIT_SIZE, 4), LE(p.hintsAt, 4), LE(|obj.hints|, 4);
    assert c == k + a + n && c == (k + a) + n + [];
    SlicePiece(c, k, a, n);
    SlicePiece(c, k + a, n, []);
  }

  /** The optimization hint command leads to the hints. */
  lemma HintsFound(obj: MachObject, p: Plan, file: bytes, strings: MachoStrings.StringTable)
    requires PlanOk(obj, p, strings.data) && FileLaid(obj, p, file, strings) && obj.hints != []
    ensures ContentOffset(obj) <= |file|
    ensures var c := 104 + |obj.sections| * SECTION_SIZE + BUILD_SIZE;
            && c + 16 <= |file|
            && SliceAt(file, WordAt(file, c + 8, 4), obj.hints) && WordAt(file, c + 12, 4) == |obj.hints|
  {
    hide LoadCommands, HintCommand, FileLaid, PlanOk, SymbolTable, WordAt, LE, Pow256, SymtabCommand, SectionHeaders;
    LaidParts(obj, p, file, strings);
    var c := 104 + |obj.sections| * SECTION_SIZE + BUILD_SIZE;
    CommandParts(obj, p);
    HintFields(obj, p);
    var command := HintCommand(obj, p);
    SliceInside(file, 0, LoadCommands(obj, p), c, command);
    Pow256Values();
    PartRead(file, c, command, 8, p.hintsAt, 4);
    PartRead(file, c, command, 12, |obj.hints|, 4);
  }

  lemma SymbolFields(s: MachSymbol, nameAt: nat)
    ensures SliceAt(SymbolEntry(s, nameAt), 0, LE(nameAt, 4))
  {
    hide LE;
    var rest := [SymbolType(s)] + [s.section] + LE(SymbolDesc(s), 2) + LE(s.value, 8);
    assert SymbolEntry(s, nameAt) == [] + LE(nameAt, 4) + rest;
    SlicePiece(SymbolEntry(s, nameAt), [], LE(nameAt, 4), rest);
  }

  /** A symbol's entry leads, through the string table, to its name and a NUL. */
  lemma SymbolNamed(obj: MachObject, p: Plan, file: bytes, strings: MachoStrings.StringTable, k: nat)
    requires PlanOk(obj, p, strings.data) && FileLaid(obj, p, file, strings) && k < |obj.symbols|
    requires MachoStrings.Placed(strings.data, strings.offsets, SymbolNames(obj.symbols))
    ensures p.symbolsAt + k * NLIST_SIZE + 4 <= |file|
    ensures var at := p.stringsAt + WordAt(file, p.symbolsAt + k * NLIST_SIZE, 4);
            SliceAt(file, at, obj.symbols[k].name + [0])
  {
    hide LoadCommands, ContentsUpTo, TablesUpTo, SymbolTable, SymbolEntry, LE, SectionsPlanned, RelocOk, WordAt;
    var name := obj.symbols[k].name;
    assert SymbolNames(obj.symbols)[k] == name;
    assert MachoStrings.FirstOccurrence(strings.data, strings.offsets[name], name);
    var at := strings.offsets[name];
    var entry := SymbolEntry(obj.symbols[k], at);
    SymbolAt(obj.symbols, strings.offsets, k);
    SliceInside(file, p.symbolsAt, SymbolTable(obj.symbols, strings.offsets), k * NLIST_SIZE, entry);
    SymbolFields(obj.symbols[k], at);
    SliceInside(file, p.symbolsAt + k * NLIST_SIZE, entry, 0, LE(at, 4));
    Pow256Values();
    WordRead(file, p.symbolsAt + k * NLIST_SIZE, at, 4);
    assert strings.data[at..at + |name| + 1] == name + [0];
    SliceInside(file, p.stringsAt, strings.data, at, name + [0]);
  }

  /** The writer's addresses are the assembler's: both place the same extents. */
  lemma AddressesAgree(obj: MachObject, p: Plan, strings: bytes, bases: seq<nat>)
    requires PlanOk(obj, p, strings) && BasesFor(SectionExtents(obj.sections), bases)
    ensures |bases| == |p.layouts| && forall i :: 0 <= i < |bases| ==> p.layouts[i].addr == bases[i]
  {
    hide BasesFor, RelocationsOk, LoadCommands;
    var cursor := PlanCursor(obj, p, strings);
    BasesUnique(SectionExtents(obj.sections), Addresses(p.layouts), bases);
  }
}
