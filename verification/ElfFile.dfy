/**
  What a written ELF relocatable object contains (src/elf.rs): section header by section header, and
  why the reader recovers the object from it.
 */
module ElfFile {
  import opened Words
  import opened Sorting
  import opened ElfWire
  import opened ElfObject
  import opened ElfReader

  // ---- extended section numbering ----------------------------------------------------------

  datatype Counts = Counts(shnum: u16, shstrndx: u16, zeroSize: u64, zeroLink: u32)

  /** Counts in the reserved range move to section header zero (System V gABI, ELF Header). */
  function EncodeCounts(count: nat, names: nat): Option<Counts> {
    if names >= count || count > U64_MAX || names > U32_MAX then None
    else
      Some(Counts(if count >= SHN_LORESERVE then 0 else count, if names >= SHN_LORESERVE then SHN_XINDEX else names,
                  if count >= SHN_LORESERVE then count else 0, if names >= SHN_LORESERVE then names else 0))
  }

  function ZeroHeader(c: Counts): Shdr {
    Shdr(0, SHT_NULL, 0, 0, 0, c.zeroSize, c.zeroLink, 0, 0, 0)
  }

  function FileHeader(obj: ElfObject, shoff: u64, c: Counts): Ehdr {
    Ehdr(obj.osabi, 0, ET_REL, obj.machine, 0, 0, shoff, 0, 0, 0, SHDR_SIZE, c.shnum, c.shstrndx)
  }

  /** Any count and name table index decode to themselves, in the reserved range too. */
  lemma CountsRoundTrip(obj: ElfObject, shoff: u64, count: nat, names: nat)
    requires EncodeCounts(count, names).Some?
    ensures var c := EncodeCounts(count, names).value;
            DecodeCounts(FileHeader(obj, shoff, c), ZeroHeader(c)) == (count, names)
  {
  }

  // ---- the expected contents ------------------------------------------------------------------

  /** The content sections below k that have relocations. */
  function Relocated(sections: seq<ElfSection>): (r: seq<nat>)
    ensures forall k :: 0 <= k < |r| ==> r[k] < |sections|
  {
    if sections == [] then []
    else
      var last: nat := |sections| - 1;
      Relocated(sections[..last]) + if sections[last].relas != [] then [last] else []
  }

  lemma {:induction false} RelocatedExactly(sections: seq<ElfSection>)
    ensures var r := Relocated(sections);
            && (forall j, k :: 0 <= j < k < |r| ==> r[j] < r[k])
            && (forall k :: 0 <= k < |r| ==> sections[r[k]].relas != [])
            && (forall i :: 0 <= i < |sections| && sections[i].relas != [] ==> i in r)
  {
    if sections != [] {
      var last := |sections| - 1;
      hide Relocated;
      RelocatedExactly(sections[..last]);
      var before, r := Relocated(sections[..last]), Relocated(sections);
      RelocatedNext(sections);
      forall k | 0 <= k < |r| ensures sections[r[k]].relas != [] {
        if k < |before| { assert sections[..last][before[k]].relas != []; }
      }
      forall i | 0 <= i < |sections| && sections[i].relas != [] ensures i in r {
        if i < last {
          assert sections[..last][i].relas != [];
        } else {
          assert r[|r| - 1] == i;
        }
      }
    } else {
      assert Relocated([]) == [];
    }
  }

  lemma RelocatedNext(sections: seq<ElfSection>)
    requires sections != []
    ensures var last: nat := |sections| - 1;
            Relocated(sections) == Relocated(sections[..last]) + if sections[last].relas != [] then [last] else []
  {
  }

  function Shndx(place: SymbolPlace): u16 {
    match place
    case Undef => SHN_UNDEF
    case Abs => SHN_ABS
    case Common => SHN_COMMON
    case InSection(i) => (1 + i) % 0x1_0000
  }

  function SymbolRecord(s: ElfSymbol, name: u32): Sym {
    Sym(name, SymInfo(s.bind, s.typ), s.vis, Shndx(s.place), s.value, s.size)
  }

  function RelaRecord(r: Rela, order: seq<nat>): RawRela {
    RawRela(r.offset, RelaInfo((1 + Position(order, r.symbol)) % 0x1_0000_0000, r.rtype), r.addend)
  }

  function RelaBody(relas: seq<Rela>, order: seq<nat>): (bs: bytes)
    ensures |bs| == |relas| * RELA_SIZE
  {
    if relas == [] then []
    else RelaBody(relas[..|relas| - 1], order) + WriteRela(RelaRecord(relas[|relas| - 1], order))
  }

  lemma {:induction false} RelaAt(relas: seq<Rela>, order: seq<nat>, k: nat)
    requires k < |relas|
    ensures SliceAt(RelaBody(relas, order), k * RELA_SIZE, WriteRela(RelaRecord(relas[k], order)))
  {
    hide RelaRecord, WriteRela;
    var last := |relas| - 1;
    if k < last {
      RelaAt(relas[..last], order, k);
      SliceKept(RelaBody(relas[..last], order), WriteRela(RelaRecord(relas[last], order)), k * RELA_SIZE,
                WriteRela(RelaRecord(relas[k], order)));
    }
  }

  datatype Parts = Parts(shoff: u64, headers: seq<Shdr>, names: bytes, strings: bytes, symbols: bytes, nameOffsets: seq<u32>)

  /** Section numbers: contents from 1, the stack note, symbols, strings, relocations, section names. */
  function SymtabAt(obj: ElfObject): nat { 1 + |obj.sections| + if obj.gnuStack.Some? then 1 else 0 }

  function NamesAt(obj: ElfObject): nat { SymtabAt(obj) + 2 + |Relocated(obj.sections)| }

  predicate Holds(f: bytes, h: Shdr, data: bytes) {
    h.size == |data| && SliceAt(f, h.offset, data)
  }

  predicate SectionEntry(sec: ElfSection, h: Shdr, f: bytes, names: bytes) {
    && NameAt(names, h.name, sec.name)
    && h.shType == sec.shType && h.flags == sec.flags && h.align == sec.align
    && if sec.shType == SHT_NOBITS then h.size == sec.nobitsSize else Holds(f, h, sec.data)
  }

  predicate NoteEntry(flags: u64, h: Shdr, names: bytes) {
    NameAt(names, h.name, NOTE_GNU_STACK) && h.shType == SHT_PROGBITS && h.flags == flags
  }

  predicate TableEntry(h: Shdr, shType: nat, link: nat, info: nat, f: bytes, data: bytes) {
    h.shType == shType && h.link == link && h.info == info && Holds(f, h, data)
  }

  /** Symbol k of the file is the k-th in the order, and its name stands in the string table. */
  ghost predicate SymbolsWritten(symbols: seq<ElfSymbol>, order: seq<nat>, p: Parts) {
    && |order| == |symbols| == |p.nameOffsets|
    && |p.symbols| == (1 + |symbols|) * SYM_SIZE
    && forall k :: 0 <= k < |symbols| ==> order[k] < |symbols| && SymbolWritten(symbols[order[k]], p, k)
  }

  predicate SymbolWritten(s: ElfSymbol, p: Parts, k: nat)
    requires k < |p.nameOffsets|
  {
    && SliceAt(p.symbols, (1 + k) * SYM_SIZE, WriteSym(SymbolRecord(s, p.nameOffsets[k])))
    && NameAt(p.strings, p.nameOffsets[k], s.name)
  }

  ghost predicate HeadersWritten(obj: ElfObject, f: bytes, p: Parts) {
    var count := NamesAt(obj) + 1;
    var c := EncodeCounts(count, NamesAt(obj));
    && c.Some? && |p.headers| == count
    && SliceAt(f, 0, WriteEhdr(FileHeader(obj, p.shoff, c.value)))
    && 0 < p.shoff && p.shoff + count * SHDR_SIZE <= |f|
    && (forall i :: 0 <= i < count ==> SliceAt(f, p.shoff + i * SHDR_SIZE, WriteShdr(p.headers[i])))
    && p.headers[0] == ZeroHeader(c.value)
  }

  ghost predicate SectionsWritten(obj: ElfObject, f: bytes, p: Parts) {
    var n, s := |obj.sections|, SymtabAt(obj);
    var order, relocated := LocalsFirst(obj.symbols), Relocated(obj.sections);
    && |p.headers| == NamesAt(obj) + 1
    && (forall i :: 0 <= i < n ==> SectionEntry(obj.sections[i], p.headers[1 + i], f, p.names))
    && (obj.gnuStack.Some? ==> NoteEntry(obj.gnuStack.value, p.headers[1 + n], p.names))
    && TableEntry(p.headers[s], SHT_SYMTAB, s + 1, (1 + |Locals(obj.symbols)|) % 0x1_0000_0000, f, p.symbols)
    && TableEntry(p.headers[s + 1], SHT_STRTAB, 0, 0, f, p.strings)
    && (forall k :: 0 <= k < |relocated| ==>
          TableEntry(p.headers[s + 2 + k], SHT_RELA, s, (1 + relocated[k]) % 0x1_0000, f,
                     RelaBody(obj.sections[relocated[k]].relas, order)))
    && TableEntry(p.headers[NamesAt(obj)], SHT_STRTAB, 0, 0, f, p.names)
  }

  /** The file holds the object. */
  ghost predicate FileHolds(obj: ElfObject, f: bytes, p: Parts) {
    && HeadersWritten(obj, f, p) && SectionsWritten(obj, f, p)
    && SymbolsWritten(obj.symbols, LocalsFirst(obj.symbols), p)
    && |p.names| <= U32_MAX && |p.strings| <= U32_MAX && |f| <= U64_MAX
  }

  // ---- reading the headers back -------------------------------------------------------------------

  lemma {:induction false} HeadersRead(f: bytes, p: Parts, k: nat)
    requires k <= |p.headers| && forall i :: 0 <= i < |p.headers| ==> SliceAt(f, p.shoff + i * SHDR_SIZE, WriteShdr(p.headers[i]))
    ensures ParseHeaders(f, p.shoff, k) == Some(p.headers[..k])
  {
    hide WriteShdr, ParseShdr;
    if k > 0 {
      HeadersRead(f, p, k - 1);
      ShdrRoundTrip(f, p.shoff + (k - 1) * SHDR_SIZE, p.headers[k - 1]);
      assert p.headers[..k] == p.headers[..k - 1] + [p.headers[k - 1]];
    }
  }

  lemma FileParsed(obj: ElfObject, f: bytes, p: Parts)
    requires HeadersWritten(obj, f, p)
    ensures EncodeCounts(NamesAt(obj) + 1, NamesAt(obj)).Some?
    ensures Parse(f) == ParseTables(f, FileHeader(obj, p.shoff, EncodeCounts(NamesAt(obj) + 1, NamesAt(obj)).value), p.headers, NamesAt(obj))
  {
    hide WriteShdr, WriteEhdr, ParseShdr, ParseEhdr, ParseTables, ParseHeaders, EncodeCounts, DecodeCounts;
    var count := NamesAt(obj) + 1;
    var c := EncodeCounts(count, NamesAt(obj)).value;
    EhdrRoundTrip(f, FileHeader(obj, p.shoff, c));
    assert SliceAt(f, p.shoff + 0 * SHDR_SIZE, WriteShdr(p.headers[0]));
    ShdrRoundTrip(f, p.shoff, p.headers[0]);
    CountsRoundTrip(obj, p.shoff, count, NamesAt(obj));
    HeadersRead(f, p, count);
    assert p.headers[..count] == p.headers;
  }

  lemma HeldBytes(f: bytes, h: Shdr, data: bytes)
    requires Holds(f, h, data) && h.shType != SHT_NOBITS && |f| <= U64_MAX
    ensures SectionBytes(f, h) == Some(data)
  {
    SliceExactly(f, h);
  }

  lemma HeaderCount(obj: ElfObject, f: bytes, p: Parts)
    requires FileHolds(obj, f, p)
    ensures |p.headers| == NamesAt(obj) + 1
  {
    hide SymbolsWritten, EncodeCounts, SectionEntry, NoteEntry, TableEntry, RelaBody, LocalsFirst, Relocated, Locals;
  }

  lemma ContentKind(obj: ElfObject, f: bytes, p: Parts, i: nat)
    requires FileHolds(obj, f, p) && RoundTrippable(obj) && i < |obj.sections| && 1 + i < |p.headers|
    ensures !Bookkeeping(p.headers[1 + i])
  {
    hide LocalsFirst, Locals, SymbolsWritten, HeadersWritten, RelaBody, Relocated, NoteEntry, TableEntry, KeptSymbol;
    assert SectionEntry(obj.sections[i], p.headers[1 + i], f, p.names);
    assert KeptSection(obj.sections[i]);
  }

  lemma TableKinds(obj: ElfObject, f: bytes, p: Parts)
    requires FileHolds(obj, f, p)
    ensures |p.headers| == NamesAt(obj) + 1
    ensures p.headers[0].shType == SHT_NULL
    ensures SymtabAt(obj) == |obj.sections| + 2 ==> p.headers[1 + |obj.sections|].shType == SHT_PROGBITS
    ensures p.headers[SymtabAt(obj)].shType == SHT_SYMTAB
    ensures p.headers[SymtabAt(obj) + 1].shType == SHT_STRTAB && p.headers[NamesAt(obj)].shType == SHT_STRTAB
  {
    hide LocalsFirst, Locals, SymbolsWritten, RelaBody, Relocated, Holds, EncodeCounts, SectionEntry;
  }

  lemma RelaKind(obj: ElfObject, f: bytes, p: Parts, j: nat)
    requires FileHolds(obj, f, p) && j < |Relocated(obj.sections)| && SymtabAt(obj) + 2 + j < |p.headers|
    ensures p.headers[SymtabAt(obj) + 2 + j].shType == SHT_RELA
  {
    hide LocalsFirst, Locals, SymbolsWritten, HeadersWritten, RelaBody, Relocated, Holds, SectionEntry, NoteEntry;
    assert TableEntry(p.headers[SymtabAt(obj) + 2 + j], SHT_RELA, SymtabAt(obj), (1 + Relocated(obj.sections)[j]) % 0x1_0000, f,
                      RelaBody(obj.sections[Relocated(obj.sections)[j]].relas, LocalsFirst(obj.symbols)));
  }

  /** The kinds of the section headers, by number. */
  lemma HeaderKinds(obj: ElfObject, f: bytes, p: Parts, i: nat)
    requires FileHolds(obj, f, p) && RoundTrippable(obj) && i < |p.headers|
    ensures 1 <= i <= |obj.sections| ==> !Bookkeeping(p.headers[i])
    ensures |obj.sections| < i < SymtabAt(obj) ==> p.headers[i].shType == SHT_PROGBITS
    ensures i == SymtabAt(obj) <==> p.headers[i].shType == SHT_SYMTAB
    ensures SymtabAt(obj) + 2 <= i < NamesAt(obj) <==> p.headers[i].shType == SHT_RELA
    ensures i == 0 || i >= SymtabAt(obj) ==> Bookkeeping(p.headers[i])
  {
    hide FileHolds, RoundTrippable, Relocated;
    TableKinds(obj, f, p);
    if 1 <= i <= |obj.sections| {
      ContentKind(obj, f, p, i - 1);
    } else if SymtabAt(obj) + 2 <= i < NamesAt(obj) {
      RelaKind(obj, f, p, i - SymtabAt(obj) - 2);
    }
  }

  lemma {:induction false} SymtabFound(obj: ElfObject, f: bytes, p: Parts, k: nat)
    requires FileHolds(obj, f, p) && RoundTrippable(obj) && k <= |p.headers|
    ensures SymtabIndex(p.headers[..k]) == Some(if k <= SymtabAt(obj) then None else Some(SymtabAt(obj)))
  {
    hide FileHolds, RoundTrippable;
    if k > 0 {
      SymtabFound(obj, f, p, k - 1);
      HeaderCount(obj, f, p);
      HeaderKinds(obj, f, p, k - 1);
      assert p.headers[..k][..k - 1] == p.headers[..k - 1];
    }
  }

  // ---- reading the sections back ----------------------------------------------------------------------

  /** The first n content sections without their relocations. */
  function Bare(sections: seq<ElfSection>, n: nat): (r: seq<ElfSection>)
    requires n <= |sections|
    ensures |r| == n && forall i :: 0 <= i < n ==> r[i] == sections[i].(relas := [])
  {
    seq(n, i requires 0 <= i < n => sections[i].(relas := []))
  }

  function Numbered(n: nat): (m: map<nat, nat>)
    ensures forall i :: i in m <==> 1 <= i <= n
    ensures forall i :: 1 <= i <= n ==> m[i] == i - 1
  {
    if n == 0 then map[] else Numbered(n - 1)[n := n - 1]
  }

  lemma ContentAdded(obj: ElfObject, f: bytes, p: Parts, i: nat)
    requires FileHolds(obj, f, p) && RoundTrippable(obj) && i < |obj.sections|
    ensures AddHeader(f, p.names, Contents(Bare(obj.sections, i), Numbered(i), None), 1 + i, p.headers[1 + i])
            == Some(Contents(Bare(obj.sections, i + 1), Numbered(i + 1), None))
  {
    hide LocalsFirst, Locals, SymbolsWritten, RelaBody, Relocated, EncodeCounts, HeadersWritten, TableEntry, ReadString;
    var sec, h := obj.sections[i], p.headers[1 + i];
    assert SectionEntry(sec, h, f, p.names) && KeptSection(sec);
    StringReads(p.names, h.name, sec.name);
    if sec.shType != SHT_NOBITS {
      HeldBytes(f, h, sec.data);
    }
    assert Bare(obj.sections, i + 1) == Bare(obj.sections, i) + [sec.(relas := [])];
    assert Numbered(i + 1) == Numbered(i)[1 + i := i];
  }

  lemma NoteRead(obj: ElfObject, f: bytes, p: Parts)
    requires FileHolds(obj, f, p) && obj.gnuStack.Some?
    ensures ReadString(p.names, p.headers[1 + |obj.sections|].name) == Some(NOTE_GNU_STACK)
    ensures p.headers[1 + |obj.sections|].shType == SHT_PROGBITS && p.headers[1 + |obj.sections|].flags == obj.gnuStack.value
  {
    hide LocalsFirst, Locals, SymbolsWritten, RelaBody, Relocated, EncodeCounts, HeadersWritten, TableEntry, ReadString, SectionEntry;
    StringReads(p.names, p.headers[1 + |obj.sections|].name, NOTE_GNU_STACK);
  }

  /** What the first k headers of the file hold: the null header, the content sections, the stack note, the tables. */
  function ContentsBefore(obj: ElfObject, k: nat): Contents
    requires k >= 1
  {
    var n: nat := Min(k - 1, |obj.sections|);
    Contents(Bare(obj.sections, n), Numbered(n), if k <= |obj.sections| + 1 then None else obj.gnuStack)
  }

  /** Header k - 1 adds what it stands for. */
  lemma ContentsNext(obj: ElfObject, f: bytes, p: Parts, k: nat)
    requires FileHolds(obj, f, p) && RoundTrippable(obj) && 2 <= k <= |p.headers|
    ensures AddHeader(f, p.names, ContentsBefore(obj, k - 1), k - 1, p.headers[k - 1]) == Some(ContentsBefore(obj, k))
  {
    hide FileHolds, RoundTrippable, AddHeader, ReadString, Bare, Numbered;
    HeaderCount(obj, f, p);
    HeaderKinds(obj, f, p, k - 1);
    var before := ContentsBefore(obj, k - 1);
    if k - 1 <= |obj.sections| {
      ContentAdded(obj, f, p, k - 2);
    } else if k - 1 < SymtabAt(obj) {
      NoteRead(obj, f, p);
      NoteAdded(f, p.names, before, k - 1, p.headers[k - 1]);
    } else {
      HeaderSkipped(f, p.names, before, k - 1, p.headers[k - 1]);
    }
  }

  /** The reader's content sections are the object's, under the writer's numbers. */
  lemma {:induction false} ContentsRead(obj: ElfObject, f: bytes, p: Parts, k: nat)
    requires FileHolds(obj, f, p) && RoundTrippable(obj) && 1 <= k <= |p.headers|
    ensures Collect(f, p.names, p.headers[..k]) == Some(ContentsBefore(obj, k))
  {
    hide FileHolds, RoundTrippable, AddHeader, ContentsBefore;
    if k == 1 {
      TableKinds(obj, f, p);
      ZeroSkipped(f, p);
      NothingBefore(obj);
    } else {
      assert p.headers[..k][..k - 1] == p.headers[..k - 1];
      ContentsRead(obj, f, p, k - 1);
      ContentsNext(obj, f, p, k);
    }
  }

  lemma NothingBefore(obj: ElfObject)
    ensures ContentsBefore(obj, 1) == Contents([], map[], None)
  {
  }

  lemma ZeroSkipped(f: bytes, p: Parts)
    requires p.headers != [] && p.headers[0].shType == SHT_NULL
    ensures Collect(f, p.names, p.headers[..1]) == Some(Contents([], map[], None))
  {
    assert p.headers[..1][..0] == [];
  }

  lemma HeaderSkipped(f: bytes, names: bytes, c: Contents, i: nat, sh: Shdr)
    requires Bookkeeping(sh)
    ensures AddHeader(f, names, c, i, sh) == Some(c)
  {
  }

  lemma NoteAdded(f: bytes, names: bytes, c: Contents, i: nat, sh: Shdr)
    requires sh.shType == SHT_PROGBITS && ReadString(names, sh.name) == Some(NOTE_GNU_STACK) && c.gnuStack.None?
    ensures AddHeader(f, names, c, i, sh) == Some(c.(gnuStack := Some(sh.flags)))
  {
  }

  // ---- reading the symbols back ------------------------------------------------------------------------

  lemma PlaceRead(sections: nat, place: SymbolPlace)
    requires sections < SHN_LORESERVE && (place.InSection? ==> place.index < sections)
    ensures PlaceOf(Shndx(place), Numbered(sections)) == Some(place)
  {
  }

  predicate SymbolReadable(s: ElfSymbol, sections: nat) {
    KeptSymbol(s) && (s.place.InSection? ==> s.place.index < sections)
  }

  lemma SymbolParsed(s: ElfSymbol, p: Parts, sections: nat, k: nat)
    requires k < |p.nameOffsets| && SymbolWritten(s, p, k) && |p.strings| <= U32_MAX
    requires sections < SHN_LORESERVE && SymbolReadable(s, sections)
    ensures var raw := ParseSym(p.symbols, (1 + k) * SYM_SIZE);
            && raw == Some(SymbolRecord(s, p.nameOffsets[k])) && raw.value.Typ() == s.typ && raw.value.Bind() == s.bind
            && ReadString(p.strings, raw.value.name) == Some(s.name)
            && PlaceOf(raw.value.shndx, Numbered(sections)) == Some(s.place)
  {
    hide ReadString, ParseSym, WriteSym, SliceAt, Numbered, PlaceOf, Shndx;
    SymRoundTrip(p.symbols, (1 + k) * SYM_SIZE, SymbolRecord(s, p.nameOffsets[k]));
    StringReads(p.strings, p.nameOffsets[k], s.name);
    InfoRoundTrip(s.bind, s.typ);
    PlaceRead(sections, s.place);
  }

  lemma SymbolAdded(symbols: seq<ElfSymbol>, order: seq<nat>, p: Parts, sections: nat, k: nat)
    requires SymbolsWritten(symbols, order, p) && k < |symbols| && |p.strings| <= U32_MAX
    requires sections < SHN_LORESERVE && SymbolReadable(symbols[order[k]], sections)
    ensures AddSymbol(p.symbols, p.strings, Numbered(sections), SymbolState(Ordered(symbols, order[..k]), Numbered(k), map[]), 1 + k)
            == Some(SymbolState(Ordered(symbols, order[..k + 1]), Numbered(k + 1), map[]))
  {
    hide ReadString, ParseSym, Numbered, PlaceOf, SymbolWritten, SymInfo, Shndx;
    var s := symbols[order[k]];
    SymbolParsed(s, p, sections, k);
    assert Ordered(symbols, order[..k + 1]) == Ordered(symbols, order[..k]) + [s];
    NumberedNext(k);
  }

  lemma NumberedNext(n: nat)
    ensures Numbered(n + 1) == Numbered(n)[n + 1 := n]
  {
  }

  lemma {:induction false} SymbolsRead(symbols: seq<ElfSymbol>, order: seq<nat>, p: Parts, sections: nat, k: nat)
    requires SymbolsWritten(symbols, order, p) && k <= |symbols| && |p.strings| <= U32_MAX && sections < SHN_LORESERVE
    requires forall i :: 0 <= i < |symbols| ==> SymbolReadable(symbols[i], sections)
    ensures CollectSymbols(p.symbols, p.strings, Numbered(sections), 1 + k)
            == Some(SymbolState(Ordered(symbols, order[..k]), Numbered(k), map[]))
  {
    hide AddSymbol, SymbolReadable, SymbolWritten, Numbered;
    if k == 0 {
      assert Ordered(symbols, order[..0]) == [] && Numbered(0) == map[] by { NumberedNone(); }
    } else {
      SymbolsRead(symbols, order, p, sections, k - 1);
      SymbolAdded(symbols, order, p, sections, k - 1);
    }
  }

  lemma NumberedNone()
    ensures Numbered(0) == map[]
  {
  }

  // ---- reading the relocations back ----------------------------------------------------------------------

  lemma RelaParsed(relas: seq<Rela>, order: seq<nat>, k: nat)
    requires k < |relas| && relas[k].symbol in order && |order| < U32_MAX
    ensures var raw, at := ParseRela(RelaBody(relas, order), k * RELA_SIZE), Position(order, relas[k].symbol);
            && raw.Some? && raw.value.Sym() == 1 + at && at < |order|
            && Rela(raw.value.offset, at, raw.value.Type(), raw.value.addend) == relas[k].(symbol := at)
  {
    hide WriteRela, ParseRela, RelaBody, Position, RelaInfo;
    RelaAt(relas, order, k);
    RelaRoundTrip(RelaBody(relas, order), k * RELA_SIZE, RelaRecord(relas[k], order));
    RelaInfoRoundTrip(1 + Position(order, relas[k].symbol), relas[k].rtype);
  }

  lemma RelaRead(relas: seq<Rela>, order: seq<nat>, c: Contents, syms: SymbolState, made: map<nat, nat>, k: nat)
    requires |order| < U32_MAX && k < |relas| && relas[k].symbol in order && syms.model == Numbered(|order|)
    ensures AddRela(RelaBody(relas, order), c, syms, RelaState(Renamed(relas, order)[..k], syms.symbols, made), k)
            == Some(RelaState(Renamed(relas, order)[..k + 1], syms.symbols, made))
  {
    hide ParseRela, RelaBody, Position, Numbered;
    RelaParsed(relas, order, k);
    var at := Position(order, relas[k].symbol);
    assert 1 + at in syms.model && syms.model[1 + at] == at;
    assert Renamed(relas, order)[..k + 1] == Renamed(relas, order)[..k] + [relas[k].(symbol := at)];
  }

  ghost predicate SymbolsKnown(relas: seq<Rela>, order: seq<nat>) {
    forall q :: 0 <= q < |relas| ==> relas[q].symbol in order
  }

  lemma {:induction false} RelasRead(relas: seq<Rela>, order: seq<nat>, c: Contents, syms: SymbolState, made: map<nat, nat>, k: nat)
    requires |order| < U32_MAX && k <= |relas| && SymbolsKnown(relas, order) && syms.model == Numbered(|order|)
    ensures ReadRelas(RelaBody(relas, order), c, syms, syms.symbols, made, k) == Some(RelaState(Renamed(relas, order)[..k], syms.symbols, made))
  {
    hide RelaBody, AddRela, Numbered;
    if k > 0 {
      RelasRead(relas, order, c, syms, made, k - 1);
      RelaRead(relas, order, c, syms, made, k - 1);
    }
  }

  /** The content sections once the first j relocation sections are attached. */
  function Attached(obj: ElfObject, j: nat): (r: seq<ElfSection>)
    requires j <= |Relocated(obj.sections)|
    ensures |r| == |obj.sections|
    ensures forall i :: 0 <= i < |obj.sections| ==>
              r[i] == obj.sections[i].(
                        relas := if i in Relocated(obj.sections)[..j] then Renamed(obj.sections[i].relas, LocalsFirst(obj.symbols)) else [])
  {
    var relocated, order := Relocated(obj.sections), LocalsFirst(obj.symbols);
    seq(|obj.sections|, i requires 0 <= i < |obj.sections| =>
      obj.sections[i].(relas := if i in relocated[..j] then Renamed(obj.sections[i].relas, order) else []))
  }

  /** The relocation section for content section t attaches that section's relocations. */
  lemma RelaSectionRead(f: bytes, h: Shdr, symtab: nat, t: nat, relas: seq<Rela>, order: seq<nat>, c: Contents,
                        syms: SymbolState, st: Linked)
    requires TableEntry(h, SHT_RELA, symtab, (1 + t) % 0x1_0000, f, RelaBody(relas, order))
    requires t < |st.sections| < SHN_LORESERVE && c.index == Numbered(|st.sections|) && |f| <= U64_MAX
    requires |order| < U32_MAX && SymbolsKnown(relas, order) && syms.model == Numbered(|order|) && st.symbols == syms.symbols
    ensures AddRelaSection(f, Some(symtab), c, syms, st, h)
            == Some(st.(sections := st.sections[t := st.sections[t].(relas := Renamed(relas, order))]))
  {
    hide RelaBody, ReadRelas, Numbered, Holds, SymbolsKnown;
    HeldBytes(f, h, RelaBody(relas, order));
    RelaCount(relas, order);
    RelasRead(relas, order, c, syms, st.made, |relas|);
    assert Renamed(relas, order)[..|relas|] == Renamed(relas, order);
    assert c.index[1 + t] == t;
  }

  lemma RelasKnown(obj: ElfObject, t: nat)
    requires ValidObject(obj) && t < |obj.sections| && IsPermutation(LocalsFirst(obj.symbols), |obj.symbols|)
    ensures SymbolsKnown(obj.sections[t].relas, LocalsFirst(obj.symbols))
  {
    hide LocalsFirst, PlaceOk, RelocWidth, PowerOfTwo;
    assert ElfSectionOk(obj, obj.sections[t]);
    forall q | 0 <= q < |obj.sections[t].relas| ensures obj.sections[t].relas[q].symbol in LocalsFirst(obj.symbols) {
      assert RelaOk(obj, obj.sections[t], obj.sections[t].relas[q]);
    }
  }

  lemma RelaCount(relas: seq<Rela>, order: seq<nat>)
    ensures |RelaBody(relas, order)| % RELA_SIZE == 0 && |RelaBody(relas, order)| / RELA_SIZE == |relas|
  {
  }

  lemma AttachedNext(obj: ElfObject, j: nat)
    requires j < |Relocated(obj.sections)|
    ensures var t := Relocated(obj.sections)[j];
            Attached(obj, j + 1) == Attached(obj, j)[t := Attached(obj, j)[t].(relas := Renamed(obj.sections[t].relas, LocalsFirst(obj.symbols)))]
  {
    hide LocalsFirst, Relocated;
    var relocated := Relocated(obj.sections);
    assert relocated[..j + 1] == relocated[..j] + [relocated[j]];
  }

  lemma RelaHeader(obj: ElfObject, f: bytes, p: Parts, j: nat)
    requires FileHolds(obj, f, p) && j < |Relocated(obj.sections)| && SymtabAt(obj) + 2 + j < |p.headers|
    ensures |f| <= U64_MAX
    ensures TableEntry(p.headers[SymtabAt(obj) + 2 + j], SHT_RELA, SymtabAt(obj), (1 + Relocated(obj.sections)[j]) % 0x1_0000, f,
                       RelaBody(obj.sections[Relocated(obj.sections)[j]].relas, LocalsFirst(obj.symbols)))
  {
    hide LocalsFirst, Locals, SymbolsWritten, HeadersWritten, RelaBody, Relocated, Holds, SectionEntry, NoteEntry, TableEntry;
  }

  /** What the reader knows when it comes to relocations. */
  ghost predicate SymbolsReady(obj: ElfObject, c: Contents, syms: SymbolState) {
    && IsPermutation(LocalsFirst(obj.symbols), |obj.symbols|)
    && |LocalsFirst(obj.symbols)| == |obj.symbols|
    && |obj.sections| < SHN_LORESERVE && |obj.symbols| < U32_MAX
    && c.sections == Bare(obj.sections, |obj.sections|)
    && c.index == Numbered(|obj.sections|) && syms.model == Numbered(|obj.symbols|)
  }

  lemma AttachNext(obj: ElfObject, f: bytes, h: Shdr, c: Contents, syms: SymbolState, j: nat)
    requires SymbolsReady(obj, c, syms) && j < |Relocated(obj.sections)| && |f| <= U64_MAX
    requires var relas := obj.sections[Relocated(obj.sections)[j]].relas;
             && SymbolsKnown(relas, LocalsFirst(obj.symbols))
             && TableEntry(h, SHT_RELA, SymtabAt(obj), (1 + Relocated(obj.sections)[j]) % 0x1_0000, f, RelaBody(relas, LocalsFirst(obj.symbols)))
    ensures AddRelaSection(f, Some(SymtabAt(obj)), c, syms, Linked(Attached(obj, j), syms.symbols, map[]), h)
            == Some(Linked(Attached(obj, j + 1), syms.symbols, map[]))
  {
    hide LocalsFirst, Relocated, TableEntry, RelaBody, SymbolsKnown, AddRelaSection, IsPermutation, SymtabAt, Attached;
    var t, st := Relocated(obj.sections)[j], Linked(Attached(obj, j), syms.symbols, map[]);
    assert t < |st.sections| < SHN_LORESERVE && c.index == Numbered(|st.sections|);
    RelaSectionRead(f, h, SymtabAt(obj), t, obj.sections[t].relas, LocalsFirst(obj.symbols), c, syms, st);
    AttachedNext(obj, j);
  }

  /** How many relocation sections lie among the first k headers. */
  function RelasBefore(obj: ElfObject, k: nat): (j: nat)
    ensures j <= |Relocated(obj.sections)|
  {
    if k <= SymtabAt(obj) + 2 then 0 else if k >= NamesAt(obj) then |Relocated(obj.sections)| else k - (SymtabAt(obj) + 2)
  }

  /** Header k - 1 attaches the relocations it stands for, if any. */
  lemma RelaSectionNext(obj: ElfObject, f: bytes, p: Parts, c: Contents, syms: SymbolState, k: nat)
    requires FileHolds(obj, f, p) && RoundTrippable(obj) && ValidObject(obj) && SymbolsReady(obj, c, syms) && 1 <= k <= |p.headers|
    ensures AddRelaSection(f, Some(SymtabAt(obj)), c, syms, Linked(Attached(obj, RelasBefore(obj, k - 1)), syms.symbols, map[]), p.headers[k - 1])
            == Some(Linked(Attached(obj, RelasBefore(obj, k)), syms.symbols, map[]))
  {
    hide FileHolds, RoundTrippable, ValidObject, Relocated, LocalsFirst, AddRelaSection, SymbolsReady, Attached, IsPermutation,
      TableEntry, SymbolsKnown, RelaBody;
    HeaderCount(obj, f, p);
    HeaderKinds(obj, f, p, k - 1);
    var before := RelasBefore(obj, k - 1);
    if SymtabAt(obj) + 2 <= k - 1 < NamesAt(obj) {
      RelaHeader(obj, f, p, before);
      SymbolsOrdered(obj, c, syms);
      RelasKnown(obj, Relocated(obj.sections)[before]);
      AttachNext(obj, f, p.headers[k - 1], c, syms, before);
    } else {
      OtherSkipped(f, c, syms, Linked(Attached(obj, before), syms.symbols, map[]), p.headers[k - 1], SymtabAt(obj));
    }
  }

  /** Relocation sections attach one by one; every other header is passed over. */
  lemma {:induction false} RelaSectionsRead(obj: ElfObject, f: bytes, p: Parts, c: Contents, syms: SymbolState, k: nat)
    requires FileHolds(obj, f, p) && RoundTrippable(obj) && ValidObject(obj) && SymbolsReady(obj, c, syms) && k <= |p.headers|
    ensures CollectRelas(f, Some(SymtabAt(obj)), c, syms, p.headers[..k])
            == Some(Linked(Attached(obj, RelasBefore(obj, k)), syms.symbols, map[]))
  {
    hide FileHolds, RoundTrippable, ValidObject, Relocated, LocalsFirst, AddRelaSection, SymbolsReady, Attached, RelasBefore, SymtabAt;
    if k == 0 {
      assert p.headers[..0] == [];
      NoneAttached(obj, c, syms);
    } else {
      RelaSectionsRead(obj, f, p, c, syms, k - 1);
      assert p.headers[..k][..k - 1] == p.headers[..k - 1];
      RelaSectionNext(obj, f, p, c, syms, k);
    }
  }

  lemma SymbolsOrdered(obj: ElfObject, c: Contents, syms: SymbolState)
    requires SymbolsReady(obj, c, syms)
    ensures IsPermutation(LocalsFirst(obj.symbols), |obj.symbols|)
  {
  }

  lemma NoneAttached(obj: ElfObject, c: Contents, syms: SymbolState)
    requires SymbolsReady(obj, c, syms)
    ensures Attached(obj, RelasBefore(obj, 0)) == c.sections
  {
    hide LocalsFirst, Relocated, IsPermutation;
  }

  lemma OtherSkipped(f: bytes, c: Contents, syms: SymbolState, st: Linked, sh: Shdr, symtab: nat)
    requires sh.shType != SHT_RELA
    ensures AddRelaSection(f, Some(symtab), c, syms, st, sh) == Some(st)
  {
  }

  /** With every relocation section attached, the sections are the object's with renamed symbols. */
  lemma AttachedDone(obj: ElfObject)
    ensures Attached(obj, |Relocated(obj.sections)|) == RenamedSections(obj.sections, LocalsFirst(obj.symbols))
  {
    hide LocalsFirst, Relocated;
    var relocated := Relocated(obj.sections);
    var j := |relocated|;
    RelocatedExactly(obj.sections);
    assert relocated[..|relocated|] == relocated;
    forall i | 0 <= i < |obj.sections|
      ensures Attached(obj, j)[i] == RenamedSections(obj.sections, LocalsFirst(obj.symbols))[i]
    {
      if obj.sections[i].relas == [] {
        assert Renamed(obj.sections[i].relas, LocalsFirst(obj.symbols)) == [];
      }
    }
  }

  /** The reader's stages, one after another. */
  lemma StagesParse(f: bytes, h: Ehdr, hs: seq<Shdr>, names: nat, shstr: bytes, symtab: nat, tables: (bytes, bytes), c: Contents,
                    syms: SymbolState, linked: Linked)
    requires names < |hs| && SectionBytes(f, hs[names]) == Some(shstr)
    requires SymtabIndex(hs) == Some(Some(symtab)) && SymbolBytes(f, hs, Some(symtab)) == Some(tables)
    requires |tables.0| % SYM_SIZE == 0 && Collect(f, shstr, hs) == Some(c)
    requires CollectSymbols(tables.0, tables.1, c.index, |tables.0| / SYM_SIZE) == Some(syms)
    requires CollectRelas(f, Some(symtab), c, syms, hs) == Some(linked)
    ensures ParseTables(f, h, hs, names) == Some(ElfObject(h.machine, h.osabi, c.gnuStack, linked.sections, linked.symbols))
  {
    hide SectionBytes, SymtabIndex, SymbolBytes, Collect, CollectSymbols, CollectRelas;
  }

  /** The reader recovers the object from its file, symbols permuted locals first. */
  lemma FileRoundTrip(obj: ElfObject, f: bytes, p: Parts)
    requires FileHolds(obj, f, p) && RoundTrippable(obj) && ValidObject(obj)
    ensures IsPermutation(LocalsFirst(obj.symbols), |obj.symbols|)
    ensures Parse(f) == Some(Normalized(obj))
  {
    LocalsFirstPermutes(obj.symbols);
    hide FileHolds, RoundTrippable, ValidObject, Parse, ParseTables, HeadersWritten, LocalsFirst, IsPermutation;
    SymbolsHeld(obj, f, p);
    FileParsed(obj, f, p);
    TablesParsed(obj, f, p, FileHeader(obj, p.shoff, EncodeCounts(NamesAt(obj) + 1, NamesAt(obj)).value));
  }

  /** The header table leads to the one symbol table and to all content sections. */
  lemma HeaderStages(obj: ElfObject, f: bytes, p: Parts)
    requires FileHolds(obj, f, p) && RoundTrippable(obj)
    ensures NamesAt(obj) < |p.headers| && SymtabIndex(p.headers) == Some(Some(SymtabAt(obj)))
    ensures Collect(f, p.names, p.headers) == Some(Contents(Bare(obj.sections, |obj.sections|), Numbered(|obj.sections|), obj.gnuStack))
  {
    hide FileHolds, RoundTrippable, Relocated, Collect, SymtabIndex, Numbered, Bare, RelasBefore;
    CountsMeet(obj, f, p);
    var count := |p.headers|;
    assert p.headers[..count] == p.headers;
    SymtabFound(obj, f, p, count);
    ContentsRead(obj, f, p, count);
  }

  /** Every relocation section is attached to its content section, and the object is complete. */
  lemma RelaStage(obj: ElfObject, f: bytes, p: Parts, c: Contents, syms: SymbolState)
    requires FileHolds(obj, f, p) && RoundTrippable(obj) && ValidObject(obj) && SymbolsReady(obj, c, syms)
    ensures CollectRelas(f, Some(SymtabAt(obj)), c, syms, p.headers)
            == Some(Linked(RenamedSections(obj.sections, LocalsFirst(obj.symbols)), syms.symbols, map[]))
  {
    hide FileHolds, RoundTrippable, ValidObject, LocalsFirst, Relocated, CollectRelas, SymbolsReady, Attached, SymtabAt, RelasBefore;
    CountsMeet(obj, f, p);
    var count := |p.headers|;
    assert p.headers[..count] == p.headers;
    RelaSectionsRead(obj, f, p, c, syms, count);
    AttachedDone(obj);
  }

  lemma TablesParsed(obj: ElfObject, f: bytes, p: Parts, h: Ehdr)
    requires FileHolds(obj, f, p) && RoundTrippable(obj) && ValidObject(obj)
    requires IsPermutation(LocalsFirst(obj.symbols), |obj.symbols|) && h.machine == obj.machine && h.osabi == obj.osabi
    ensures ParseTables(f, h, p.headers, NamesAt(obj)) == Some(Normalized(obj))
  {
    hide FileHolds, RoundTrippable, ValidObject, LocalsFirst, Collect, CollectSymbols, CollectRelas, SymtabIndex, IsPermutation,
      SymbolsReady, SymbolBytes, SectionBytes, Numbered, ParseTables, NamesAt, SymtabAt, Bare, HeadersWritten, RenamedSections, Ordered;
    var n, order, sections := |obj.symbols|, LocalsFirst(obj.symbols), |obj.sections|;
    SymbolsHeld(obj, f, p);
    var c := Contents(Bare(obj.sections, sections), Numbered(sections), obj.gnuStack);
    var syms := SymbolState(Ordered(obj.symbols, order), Numbered(n), map[]);
    ReadyNow(obj, c, syms);
    HeaderStages(obj, f, p);
    TablesHeld(obj, f, p);
    RelaStage(obj, f, p, c, syms);
    StagesParse(f, h, p.headers, NamesAt(obj), p.names, SymtabAt(obj), (p.symbols, p.strings), c, syms,
                Linked(RenamedSections(obj.sections, order), syms.symbols, map[]));
  }

  lemma ReadyNow(obj: ElfObject, c: Contents, syms: SymbolState)
    requires IsPermutation(LocalsFirst(obj.symbols), |obj.symbols|) && |LocalsFirst(obj.symbols)| == |obj.symbols|
    requires |obj.sections| < SHN_LORESERVE && |obj.symbols| < U32_MAX
    requires c.sections == Bare(obj.sections, |obj.sections|) && c.index == Numbered(|obj.sections|)
              && syms.model == Numbered(|obj.symbols|)
    ensures SymbolsReady(obj, c, syms)
  {
    hide LocalsFirst, IsPermutation;
  }

  lemma CountsMeet(obj: ElfObject, f: bytes, p: Parts)
    requires FileHolds(obj, f, p)
    ensures |obj.sections| + 1 < SymtabAt(obj) + 1 < NamesAt(obj) < |p.headers|
    ensures RelasBefore(obj, |p.headers|) == |Relocated(obj.sections)|
  {
    hide FileHolds, Relocated;
    HeaderCount(obj, f, p);
  }

  lemma SymbolsHeld(obj: ElfObject, f: bytes, p: Parts)
    requires FileHolds(obj, f, p) && RoundTrippable(obj) && ValidObject(obj)
    requires IsPermutation(LocalsFirst(obj.symbols), |obj.symbols|)
    ensures |LocalsFirst(obj.symbols)| == |obj.symbols| && forall k :: 0 <= k < |obj.symbols| ==>
              LocalsFirst(obj.symbols)[k] < |obj.symbols|
    ensures HeadersWritten(obj, f, p) && |obj.sections| < SHN_LORESERVE && |obj.symbols| < U32_MAX
    ensures CollectSymbols(p.symbols, p.strings, Numbered(|obj.sections|), 1 + |obj.symbols|)
            == Some(SymbolState(Ordered(obj.symbols, LocalsFirst(obj.symbols)), Numbered(|obj.symbols|), map[]))
  {
    hide LocalsFirst, HeadersWritten, SectionsWritten, SymbolsWritten, CollectSymbols, KeptSection, ElfSectionOk, KeptSymbol;
    var order := LocalsFirst(obj.symbols);
    forall i | 0 <= i < |obj.symbols| ensures SymbolReadable(obj.symbols[i], |obj.sections|) {
      assert KeptSymbol(obj.symbols[i]) && PlaceOk(obj, obj.symbols[i]);
    }
    SymbolsRead(obj.symbols, order, p, |obj.sections|, |obj.symbols|);
    assert order[..|obj.symbols|] == order;
  }

  /** The tables' headers lead to their bytes. */
  lemma TablesHeld(obj: ElfObject, f: bytes, p: Parts)
    requires FileHolds(obj, f, p)
    ensures SectionBytes(f, p.headers[NamesAt(obj)]) == Some(p.names)
    ensures SymbolBytes(f, p.headers, Some(SymtabAt(obj))) == Some((p.symbols, p.strings))
    ensures |p.symbols| % SYM_SIZE == 0 && |p.symbols| / SYM_SIZE == 1 + |obj.symbols|
  {
    hide LocalsFirst, Locals, Relocated, EncodeCounts, HeadersWritten, RelaBody, SectionEntry, SymbolWritten;
    HeldBytes(f, p.headers[NamesAt(obj)], p.names);
    HeldBytes(f, p.headers[SymtabAt(obj)], p.symbols);
    HeldBytes(f, p.headers[SymtabAt(obj) + 1], p.strings);
    assert |p.symbols| == (1 + |obj.symbols|) * SYM_SIZE;
  }
}
