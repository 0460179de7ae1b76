/**
  Reading an ELF relocatable object back into the model (src/elf.rs): section headers, content sections,
  symbols and relocations. Every failure is None.
 */
module ElfReader {
  import opened Words
  import opened ElfWire
  import opened ElfObject

  // ---- headers ----------------------------------------------------------------------------

  function ParseHeaders(f: bytes, shoff: nat, n: nat): Option<seq<Shdr>> {
    if n == 0 then Some([])
    else
      var before := ParseHeaders(f, shoff, n - 1);
      var sh := ParseShdr(f, shoff + (n - 1) * SHDR_SIZE);
      if before.None? || sh.None? then None else Some(before.value + [sh.value])
  }

  /** Slicing a section out of the file: its bytes, an error, or a slice whose end lies before its start. */
  datatype Slice = Sliced(data: bytes) | PastEnd | Panics

  /** The end is summed on 64 bits without an overflow check. */
  function SliceOf(f: bytes, sh: Shdr): Slice {
    if sh.shType == SHT_NOBITS then Sliced([])
    else
      var end := WrappedSum(sh.offset, sh.size);
      if end > |f| then PastEnd
      else if end < sh.offset then Panics
      else Sliced(f[sh.offset..end])
  }

  /** The bytes of a section that lies in the file; the code panics on one whose end wraps back into the file. */
  lemma SliceExactly(f: bytes, sh: Shdr)
    requires |f| <= U64_MAX && sh.shType != SHT_NOBITS
    ensures SliceOf(f, sh).Sliced? <==> sh.offset + sh.size <= |f|
    ensures SliceOf(f, sh).Sliced? ==> SliceOf(f, sh).data == f[sh.offset..sh.offset + sh.size]
    ensures SliceOf(f, sh).Panics? <==> U64_MAX < sh.offset + sh.size <= U64_MAX + 1 + |f|
  {
    var end := sh.offset + sh.size;
    if end <= U64_MAX {
      DivModUnique(end, U64_MAX + 1, 0, end);
    } else {
      DivModUnique(end, U64_MAX + 1, 1, end - U64_MAX - 1);
    }
  }

  /** A one-byte file with a section header that asks for 2^64 - 1 bytes from offset 1 on: they end at offset 0. */
  lemma WrappedHeaderPanics()
    ensures SliceOf([0], Shdr(0, SHT_PROGBITS, 0, 0, 1, U64_MAX, 0, 0, 0, 0)).Panics?
  {
    SliceExactly([0], Shdr(0, SHT_PROGBITS, 0, 0, 1, U64_MAX, 0, 0, 0, 0));
  }

  function SectionBytes(f: bytes, sh: Shdr): Option<bytes> {
    var slice := SliceOf(f, sh);
    if slice.Sliced? then Some(slice.data) else None
  }

  /** Section count and name table index, possibly kept in section header zero. */
  function DecodeCounts(h: Ehdr, zero: Shdr): (nat, nat) {
    (if h.shnum == 0 then zero.size else h.shnum, if h.shstrndx == SHN_XINDEX then zero.link else h.shstrndx)
  }

  /** The only symbol table header, if any; None if there are several. */
  function SymtabIndex(hs: seq<Shdr>): Option<Option<nat>> {
    if hs == [] then Some(None)
    else
      var last := |hs| - 1;
      var before := SymtabIndex(hs[..last]);
      if before.None? || hs[last].shType != SHT_SYMTAB then before
      else if before.value.Some? then None
      else Some(Some(last))
  }

  // ---- content sections ----------------------------------------------------------------------

  /** `index` maps file section numbers to model ones. */
  datatype Contents = Contents(sections: seq<ElfSection>, index: map<nat, nat>, gnuStack: Option<u64>)

  predicate Bookkeeping(sh: Shdr) {
    sh.shType == SHT_NULL || sh.shType == SHT_SYMTAB || sh.shType == SHT_STRTAB || sh.shType == SHT_RELA
  }

  function AddHeader(f: bytes, shstr: bytes, c: Contents, i: nat, sh: Shdr): Option<Contents> {
    if Bookkeeping(sh) then Some(c)
    else
      var name := ReadString(shstr, sh.name);
      if name.None? then None
      else if name.value == NOTE_GNU_STACK then
        if sh.shType != SHT_PROGBITS then None
        else Some(c.(gnuStack := if c.gnuStack.Some? then c.gnuStack else Some(sh.flags)))
      else if name.value == COMMENT || NOTE_GNU <= name.value then Some(c)
      else
        var data := SectionBytes(f, sh);
        if data.None? then None
        else
          Some(c.(index := c.index[i := |c.sections|],
                  sections := c.sections + [ElfSection(name.value, sh.shType, sh.flags, sh.align, data.value,
                                                       if sh.shType == SHT_NOBITS then sh.size else 0, [])]))
  }

  function Collect(f: bytes, shstr: bytes, hs: seq<Shdr>): Option<Contents> {
    if hs == [] then Some(Contents([], map[], None))
    else
      var last := |hs| - 1;
      var before := Collect(f, shstr, hs[..last]);
      if before.None? then None else AddHeader(f, shstr, before.value, last, hs[last])
  }

  // ---- what collecting keeps --------------------------------------------------------------------

  predicate IsNote(shstr: bytes, sh: Shdr) {
    !Bookkeeping(sh) && ReadString(shstr, sh.name) == Some(NOTE_GNU_STACK)
  }

  /** Headers the reader keeps: named, and neither bookkeeping nor a toolchain note. */
  predicate IsContent(shstr: bytes, sh: Shdr) {
    && !Bookkeeping(sh) && ReadString(shstr, sh.name).Some?
    && var name := ReadString(shstr, sh.name).value;
       name != NOTE_GNU_STACK && name != COMMENT && !(NOTE_GNU <= name)
  }

  /** What the reader demands of a header it looks at. */
  predicate Readable(f: bytes, shstr: bytes, sh: Shdr) {
    && (Bookkeeping(sh) || ReadString(shstr, sh.name).Some?)
    && (IsNote(shstr, sh) ==> sh.shType == SHT_PROGBITS)
    && (IsContent(shstr, sh) ==> SectionBytes(f, sh).Some?)
  }

  /** The section holds what its header says: name, fields, and the file's bytes or the size without bytes. */
  predicate Shows(sec: ElfSection, f: bytes, shstr: bytes, sh: Shdr) {
    && ReadString(shstr, sh.name) == Some(sec.name) && SectionBytes(f, sh) == Some(sec.data)
    && sec.shType == sh.shType && sec.flags == sh.flags && sec.align == sh.align && sec.relas == []
    && sec.nobitsSize == if sh.shType == SHT_NOBITS then sh.size else 0
  }

  /** Exactly the content headers are sections, in order. */
  ghost predicate Collected(f: bytes, shstr: bytes, hs: seq<Shdr>, c: Contents) {
    && (forall i: nat :: i in c.index <==> i < |hs| && IsContent(shstr, hs[i]))
    && (forall i <- c.index :: c.index[i] < |c.sections| && Shows(c.sections[c.index[i]], f, shstr, hs[i]))
    && (forall i, j :: i in c.index && j in c.index && i < j ==> c.index[i] < c.index[j])
    && (forall t :: 0 <= t < |c.sections| ==> Leads(c.index, t))
  }

  ghost predicate Leads(index: map<nat, nat>, t: nat) {
    exists i :: i in index && index[i] == t
  }

  /** The stack note is the first header of its name. */
  ghost predicate NoteFound(shstr: bytes, hs: seq<Shdr>, gnuStack: Option<u64>) {
    if gnuStack.None? then NoNote(shstr, hs, |hs|)
    else exists i :: 0 <= i < |hs| && FirstNote(shstr, hs, i) && gnuStack == Some(hs[i].flags)
  }

  predicate NoNote(shstr: bytes, hs: seq<Shdr>, n: nat)
    requires n <= |hs|
  {
    forall i :: 0 <= i < n ==> !IsNote(shstr, hs[i])
  }

  predicate FirstNote(shstr: bytes, hs: seq<Shdr>, i: nat)
    requires i < |hs|
  {
    IsNote(shstr, hs[i]) && NoNote(shstr, hs, i)
  }

  /** A readable header is added, as a new last section or not at all. */
  lemma HeaderAdded(f: bytes, shstr: bytes, c: Contents, i: nat, sh: Shdr)
    ensures AddHeader(f, shstr, c, i, sh).Some? <==> Readable(f, shstr, sh)
    ensures AddHeader(f, shstr, c, i, sh).Some? ==>
              var next := AddHeader(f, shstr, c, i, sh).value;
              if !IsContent(shstr, sh) then next.sections == c.sections && next.index == c.index
              else
                && next.index == c.index[i := |c.sections|] && |next.sections| == |c.sections| + 1 && c.sections <= next.sections
                && Shows(next.sections[|c.sections|], f, shstr, sh)
  {
    hide SectionBytes, ReadString;
  }

  lemma CollectedNext(f: bytes, shstr: bytes, hs: seq<Shdr>, c: Contents)
    requires hs != [] && Collected(f, shstr, hs[..|hs| - 1], c)
    ensures var last := |hs| - 1; var next := AddHeader(f, shstr, c, last, hs[last]);
            (next.Some? <==> Readable(f, shstr, hs[last])) && (next.Some? ==> Collected(f, shstr, hs, next.value))
  {
    hide SectionBytes, ReadString, AddHeader, Readable, IsContent, Shows;
    var last := |hs| - 1;
    HeaderAdded(f, shstr, c, last, hs[last]);
    var next := AddHeader(f, shstr, c, last, hs[last]);
    if next.Some? {
      forall t | 0 <= t < |next.value.sections| ensures Leads(next.value.index, t) {
        if t < |c.sections| {
          assert Leads(c.index, t);
          var i :| i in c.index && c.index[i] == t;
          assert i in next.value.index && next.value.index[i] == t;
        } else {
          assert last in next.value.index;
        }
      }
    }
  }

  lemma NoteNext(f: bytes, shstr: bytes, hs: seq<Shdr>, c: Contents)
    requires hs != [] && NoteFound(shstr, hs[..|hs| - 1], c.gnuStack)
    ensures var last := |hs| - 1; var next := AddHeader(f, shstr, c, last, hs[last]);
            next.Some? ==> NoteFound(shstr, hs, next.value.gnuStack)
  {
    hide SectionBytes, ReadString;
    var last := |hs| - 1;
    var next := AddHeader(f, shstr, c, last, hs[last]);
    if next.Some? {
      if c.gnuStack.Some? {
        var i :| 0 <= i < last && FirstNote(shstr, hs[..last], i) && c.gnuStack == Some(hs[..last][i].flags);
        assert FirstNote(shstr, hs, i);
      } else if IsNote(shstr, hs[last]) {
        assert FirstNote(shstr, hs, last);
      }
    }
  }

  /** Collecting succeeds exactly when every header is readable, and then keeps exactly the content and the first stack note. */
  lemma {:induction false} CollectedExactly(f: bytes, shstr: bytes, hs: seq<Shdr>)
    ensures Collect(f, shstr, hs).Some? <==> forall i :: 0 <= i < |hs| ==> Readable(f, shstr, hs[i])
    ensures Collect(f, shstr, hs).Some? ==>
              Collected(f, shstr, hs, Collect(f, shstr, hs).value) && NoteFound(shstr, hs, Collect(f, shstr, hs).value.gnuStack)
  {
    hide Readable, AddHeader, Collected, NoteFound;
    if hs == [] {
      NothingCollected(f, shstr);
    } else {
      var last := |hs| - 1;
      CollectedExactly(f, shstr, hs[..last]);
      forall i | 0 <= i < last ensures hs[..last][i] == hs[i] {}
      if Collect(f, shstr, hs[..last]).Some? {
        CollectedNext(f, shstr, hs, Collect(f, shstr, hs[..last]).value);
        NoteNext(f, shstr, hs, Collect(f, shstr, hs[..last]).value);
      } else {
        var i :| 0 <= i < last && !Readable(f, shstr, hs[..last][i]);
        assert !Readable(f, shstr, hs[i]);
      }
    }
  }

  lemma NothingCollected(f: bytes, shstr: bytes)
    ensures Collected(f, shstr, [], Contents([], map[], None)) && NoteFound(shstr, [], None)
  {
  }

  // ---- symbols ----------------------------------------------------------------------------------

  /** `model` maps file symbol numbers to model ones, `sections` those of section symbols to sections. */
  datatype SymbolState = SymbolState(symbols: seq<ElfSymbol>, model: map<nat, nat>, sections: map<nat, nat>)

  function PlaceOf(shndx: nat, index: map<nat, nat>): Option<SymbolPlace> {
    if shndx == SHN_UNDEF then Some(Undef)
    else if shndx == SHN_ABS then Some(Abs)
    else if shndx == SHN_COMMON then Some(Common)
    else if shndx in index then Some(InSection(index[shndx]))
    else None
  }

  function AddSymbol(symtab: bytes, strtab: bytes, index: map<nat, nat>, st: SymbolState, i: nat): Option<SymbolState> {
    var raw := ParseSym(symtab, i * SYM_SIZE);
    if raw.None? then None
    else if raw.value.Typ() == STT_SECTION then Some(st.(sections := st.sections[i := raw.value.shndx]))
    else
      var name, place := ReadString(strtab, raw.value.name), PlaceOf(raw.value.shndx, index);
      if name.None? || place.None? then None
      else
        Some(st.(model := st.model[i := |st.symbols|],
                 symbols := st.symbols + [ElfSymbol(name.value, raw.value.Bind(), raw.value.Typ(), raw.value.other % 4,
                                                    place.value, raw.value.value, raw.value.size)]))
  }

  /** The symbols below file number n; number zero is the null symbol. */
  function CollectSymbols(symtab: bytes, strtab: bytes, index: map<nat, nat>, n: nat): Option<SymbolState> {
    if n <= 1 then Some(SymbolState([], map[], map[]))
    else
      var before := CollectSymbols(symtab, strtab, index, n - 1);
      if before.None? then None else AddSymbol(symtab, strtab, index, before.value, n - 1)
  }

  // ---- relocations --------------------------------------------------------------------------------

  /** Relocations read so far, the symbols, and the symbols made up for section symbols. */
  datatype RelaState = RelaState(relas: seq<Rela>, symbols: seq<ElfSymbol>, made: map<nat, nat>)

  function Decimal(n: nat): bytes {
    if n < 10 then [48 + n] else Decimal(n / 10) + [48 + n % 10]
  }

  /** A local symbol standing for a section. */
  function SectionSymbol(c: Contents, fileSection: nat): ElfSymbol {
    if fileSection in c.index && c.index[fileSection] < |c.sections| then
      ElfSymbol(c.sections[c.index[fileSection]].name, STB_LOCAL, STT_SECTION, 0, InSection(c.index[fileSection]), 0, 0)
    else
      ElfSymbol([0x3C, 0x73, 0x65, 0x63, 0x74, 0x69, 0x6F, 0x6E, 0x20] + Decimal(fileSection) + [0x3E], STB_LOCAL, STT_SECTION, 0, Undef, 0, 0)
  }

  function AddRela(body: bytes, c: Contents, syms: SymbolState, st: RelaState, k: nat): Option<RelaState> {
    var raw := ParseRela(body, k * RELA_SIZE);
    if raw.None? then None
    else
      var file := raw.value.Sym();
      if file in syms.model then
        Some(st.(relas := st.relas + [Rela(raw.value.offset, syms.model[file], raw.value.Type(), raw.value.addend)]))
      else if file in syms.sections then
        var section := syms.sections[file];
        var target := if section in st.made then st.made[section] else |st.symbols|;
        Some(RelaState(st.relas + [Rela(raw.value.offset, target, raw.value.Type(), raw.value.addend)],
                       if section in st.made then st.symbols else st.symbols + [SectionSymbol(c, section)],
                       st.made[section := target]))
      else None
  }

  function ReadRelas(body: bytes, c: Contents, syms: SymbolState, symbols: seq<ElfSymbol>, made: map<nat, nat>, n: nat): Option<RelaState> {
    if n == 0 then Some(RelaState([], symbols, made))
    else
      var before := ReadRelas(body, c, syms, symbols, made, n - 1);
      if before.None? then None else AddRela(body, c, syms, before.value, n - 1)
  }

  /** `contents.sections` with the relocations attached so far. */
  datatype Linked = Linked(sections: seq<ElfSection>, symbols: seq<ElfSymbol>, made: map<nat, nat>)

  function AddRelaSection(f: bytes, symtab: Option<nat>, c: Contents, syms: SymbolState, st: Linked, sh: Shdr): Option<Linked> {
    if sh.shType != SHT_RELA then Some(st)
    else if symtab != Some(sh.link) then None
    else if sh.info !in c.index then Some(st)
    else
      var body := SectionBytes(f, sh);
      if body.None? || |body.value| % RELA_SIZE != 0 then None
      else
        var r := ReadRelas(body.value, c, syms, st.symbols, st.made, |body.value| / RELA_SIZE);
        var t := c.index[sh.info];
        if r.None? || t >= |st.sections| then None
        else Some(Linked(st.sections[t := st.sections[t].(relas := r.value.relas)], r.value.symbols, r.value.made))
  }

  function CollectRelas(f: bytes, symtab: Option<nat>, c: Contents, syms: SymbolState, hs: seq<Shdr>): Option<Linked> {
    if hs == [] then Some(Linked(c.sections, syms.symbols, map[]))
    else
      var before := CollectRelas(f, symtab, c, syms, hs[..|hs| - 1]);
      if before.None? then None else AddRelaSection(f, symtab, c, syms, before.value, hs[|hs| - 1])
  }

  // ---- the whole file ---------------------------------------------------------------------------------

  function SymbolBytes(f: bytes, hs: seq<Shdr>, symtab: Option<nat>): Option<(bytes, bytes)> {
    if symtab.None? then Some(([], []))
    else if symtab.value >= |hs| || hs[symtab.value].link >= |hs| then None
    else
      var strtab, syms := SectionBytes(f, hs[hs[symtab.value].link]), SectionBytes(f, hs[symtab.value]);
      if strtab.None? || syms.None? then None else Some((syms.value, strtab.value))
  }

  function ParseTables(f: bytes, h: Ehdr, hs: seq<Shdr>, shstrndx: nat): Option<ElfObject> {
    if shstrndx >= |hs| then None
    else
      var shstr, symtab := SectionBytes(f, hs[shstrndx]), SymtabIndex(hs);
      if shstr.None? || symtab.None? then None
      else
        var tables, c := SymbolBytes(f, hs, symtab.value), Collect(f, shstr.value, hs);
        if tables.None? || c.None? || |tables.value.0| % SYM_SIZE != 0 then None
        else
          var syms := CollectSymbols(tables.value.0, tables.value.1, c.value.index, |tables.value.0| / SYM_SIZE);
          if syms.None? then None
          else
            var linked := CollectRelas(f, symtab.value, c.value, syms.value, hs);
            if linked.None? then None
            else Some(ElfObject(h.machine, h.osabi, c.value.gnuStack, linked.value.sections, linked.value.symbols))
  }

  function Parse(f: bytes): Option<ElfObject> {
    var h := ParseEhdr(f);
    if h.None? || h.value.etype != ET_REL || h.value.shentsize != SHDR_SIZE || h.value.shoff == 0 then None
    else
      var zero := ParseShdr(f, h.value.shoff);
      if zero.None? || zero.value.shType != SHT_NULL then None
      else
        var (shnum, shstrndx) := DecodeCounts(h.value, zero.value);
        if shnum == 0 || h.value.shoff + shnum * SHDR_SIZE > |f| then None
        else
          var hs := ParseHeaders(f, h.value.shoff, shnum);
          if hs.None? then None else ParseTables(f, h.value, hs.value, shstrndx)
  }

  // ---- the reader, loop by loop --------------------------------------------------------------------------

  lemma {:induction false} HeadersStop(f: bytes, shoff: nat, n: nat, k: nat)
    requires k <= n && ParseHeaders(f, shoff, k).None?
    ensures ParseHeaders(f, shoff, n).None?
  {
    hide ParseShdr;
    if k < n {
      HeadersStop(f, shoff, n - 1, k);
    }
  }

  method ReadHeaders(f: bytes, shoff: nat, n: nat) returns (r: Option<seq<Shdr>>)
    ensures r == ParseHeaders(f, shoff, n)
  {
    hide ParseShdr;
    var hs: seq<Shdr> := [];
    var i := 0;
    while i < n
      invariant 0 <= i <= n && ParseHeaders(f, shoff, i) == Some(hs)
    {
      var sh := ParseShdr(f, shoff + i * SHDR_SIZE);
      if sh.None? {
        HeadersStop(f, shoff, n, i + 1);
        return None;
      }
      hs := hs + [sh.value];
      i := i + 1;
    }
    return Some(hs);
  }

  lemma {:induction false} SymtabStops(hs: seq<Shdr>, k: nat)
    requires k <= |hs| && SymtabIndex(hs[..k]).None?
    ensures SymtabIndex(hs).None?
  {
    if k == |hs| {
      assert hs[..k] == hs;
    } else {
      assert hs[..|hs| - 1][..k] == hs[..k];
      SymtabStops(hs[..|hs| - 1], k);
    }
  }

  method FindSymtab(hs: seq<Shdr>) returns (r: Option<Option<nat>>)
    ensures r == SymtabIndex(hs)
  {
    var found: Option<nat> := None;
    var i := 0;
    while i < |hs|
      invariant 0 <= i <= |hs| && SymtabIndex(hs[..i]) == Some(found)
    {
      assert hs[..i + 1][..i] == hs[..i];
      if hs[i].shType == SHT_SYMTAB {
        if found.Some? {
          SymtabStops(hs, i + 1);
          return None;
        }
        found := Some(i);
      }
      i := i + 1;
    }
    assert hs[..i] == hs;
    return Some(found);
  }

  lemma {:induction false} CollectStops(f: bytes, shstr: bytes, hs: seq<Shdr>, k: nat)
    requires k <= |hs| && Collect(f, shstr, hs[..k]).None?
    ensures Collect(f, shstr, hs).None?
  {
    if k == |hs| {
      assert hs[..k] == hs;
    } else {
      assert hs[..|hs| - 1][..k] == hs[..k];
      CollectStops(f, shstr, hs[..|hs| - 1], k);
    }
  }

  method ReadContents(f: bytes, shstr: bytes, hs: seq<Shdr>) returns (r: Option<Contents>)
    ensures r == Collect(f, shstr, hs)
    ensures r.Some? <==> forall i :: 0 <= i < |hs| ==> Readable(f, shstr, hs[i])
    ensures r.Some? ==> Collected(f, shstr, hs, r.value) && NoteFound(shstr, hs, r.value.gnuStack)
  {
    hide AddHeader, Readable, Collected, NoteFound;
    CollectedExactly(f, shstr, hs);
    var c := Contents([], map[], None);
    var i := 0;
    while i < |hs|
      invariant 0 <= i <= |hs| && Collect(f, shstr, hs[..i]) == Some(c)
    {
      assert hs[..i + 1][..i] == hs[..i];
      var next := ReadHeader(f, shstr, c, i, hs[i]);
      if next.None? {
        CollectStops(f, shstr, hs, i + 1);
        return None;
      }
      c := next.value;
      i := i + 1;
    }
    assert hs[..i] == hs;
    return Some(c);
  }

  method ReadHeader(f: bytes, shstr: bytes, c: Contents, i: nat, sh: Shdr) returns (r: Option<Contents>)
    ensures r == AddHeader(f, shstr, c, i, sh)
  {
    if Bookkeeping(sh) {
      return Some(c);
    }
    var name := ReadString(shstr, sh.name);
    if name.None? {
      return None;
    }
    if name.value == NOTE_GNU_STACK {
      if sh.shType != SHT_PROGBITS {
        return None;
      }
      return Some(if c.gnuStack.Some? then c else c.(gnuStack := Some(sh.flags)));
    }
    if name.value == COMMENT || NOTE_GNU <= name.value {
      return Some(c);
    }
    var data := SectionBytes(f, sh);
    if data.None? {
      return None;
    }
    var size := if sh.shType == SHT_NOBITS then sh.size else 0;
    var section := ElfSection(name.value, sh.shType, sh.flags, sh.align, data.value, size, []);
    return Some(c.(index := c.index[i := |c.sections|], sections := c.sections + [section]));
  }

  lemma {:induction false} SymbolsStop(symtab: bytes, strtab: bytes, index: map<nat, nat>, n: nat, k: nat)
    requires k <= n && CollectSymbols(symtab, strtab, index, k).None?
    ensures CollectSymbols(symtab, strtab, index, n).None?
  {
    hide AddSymbol;
    if k < n {
      SymbolsStop(symtab, strtab, index, n - 1, k);
    }
  }

  method ReadSymbols(symtab: bytes, strtab: bytes, index: map<nat, nat>, n: nat) returns (r: Option<SymbolState>)
    ensures r == CollectSymbols(symtab, strtab, index, n)
  {
    hide AddSymbol;
    var st := SymbolState([], map[], map[]);
    var i := 1;
    while i < n
      invariant 1 <= i && (i <= n || (n == 0 && i == 1)) && CollectSymbols(symtab, strtab, index, i) == Some(st)
    {
      var next := AddSymbol(symtab, strtab, index, st, i);
      if next.None? {
        SymbolsStop(symtab, strtab, index, n, i + 1);
        return None;
      }
      st := next.value;
      i := i + 1;
    }
    return Some(st);
  }

  lemma {:induction false} RelasStop(body: bytes, c: Contents, syms: SymbolState, symbols: seq<ElfSymbol>, made: map<nat, nat>,
                                     n: nat, k: nat)
    requires k <= n && ReadRelas(body, c, syms, symbols, made, k).None?
    ensures ReadRelas(body, c, syms, symbols, made, n).None?
  {
    hide AddRela;
    if k < n {
      RelasStop(body, c, syms, symbols, made, n - 1, k);
    }
  }

  method ReadRelaBody(body: bytes, c: Contents, syms: SymbolState, symbols: seq<ElfSymbol>, made: map<nat, nat>)
    returns (r: Option<RelaState>)
    ensures r == ReadRelas(body, c, syms, symbols, made, |body| / RELA_SIZE)
  {
    hide AddRela;
    var st := RelaState([], symbols, made);
    var k := 0;
    while k < |body| / RELA_SIZE
      invariant 0 <= k <= |body| / RELA_SIZE && ReadRelas(body, c, syms, symbols, made, k) == Some(st)
    {
      var next := AddRela(body, c, syms, st, k);
      if next.None? {
        RelasStop(body, c, syms, symbols, made, |body| / RELA_SIZE, k + 1);
        return None;
      }
      st := next.value;
      k := k + 1;
    }
    return Some(st);
  }

  lemma {:induction false} RelaSectionsStop(f: bytes, symtab: Option<nat>, c: Contents, syms: SymbolState, hs: seq<Shdr>, k: nat)
    requires k <= |hs| && CollectRelas(f, symtab, c, syms, hs[..k]).None?
    ensures CollectRelas(f, symtab, c, syms, hs).None?
  {
    if k == |hs| {
      assert hs[..k] == hs;
    } else {
      assert hs[..|hs| - 1][..k] == hs[..k];
      RelaSectionsStop(f, symtab, c, syms, hs[..|hs| - 1], k);
    }
  }

  method ReadRelaSections(f: bytes, symtab: Option<nat>, c: Contents, syms: SymbolState, hs: seq<Shdr>) returns (r: Option<Linked>)
    ensures r == CollectRelas(f, symtab, c, syms, hs)
  {
    hide ReadRelas;
    var st := Linked(c.sections, syms.symbols, map[]);
    var i := 0;
    while i < |hs|
      invariant 0 <= i <= |hs| && CollectRelas(f, symtab, c, syms, hs[..i]) == Some(st)
    {
      var sh := hs[i];
      assert hs[..i + 1][..i] == hs[..i];
      if sh.shType == SHT_RELA {
        if symtab != Some(sh.link) {
          RelaSectionsStop(f, symtab, c, syms, hs, i + 1);
          return None;
        }
        if sh.info in c.index {
          var body := SectionBytes(f, sh);
          if body.None? || |body.value| % RELA_SIZE != 0 {
            RelaSectionsStop(f, symtab, c, syms, hs, i + 1);
            return None;
          }
          var relas := ReadRelaBody(body.value, c, syms, st.symbols, st.made);
          var t := c.index[sh.info];
          if relas.None? || t >= |st.sections| {
            RelaSectionsStop(f, symtab, c, syms, hs, i + 1);
            return None;
          }
          st := Linked(st.sections[t := st.sections[t].(relas := relas.value.relas)], relas.value.symbols, relas.value.made);
        }
      }
      i := i + 1;
    }
    assert hs[..i] == hs;
    return Some(st);
  }

  method ParseElf(f: bytes) returns (r: Option<ElfObject>)
    ensures r == Parse(f)
  {
    hide ParseHeaders, Collect, CollectSymbols, CollectRelas, SymtabIndex, ParseShdr, ParseEhdr;
    var h := ParseEhdr(f);
    if h.None? || h.value.etype != ET_REL || h.value.shentsize != SHDR_SIZE || h.value.shoff == 0 {
      return None;
    }
    var zero := ParseShdr(f, h.value.shoff);
    if zero.None? || zero.value.shType != SHT_NULL {
      return None;
    }
    var (shnum, shstrndx) := DecodeCounts(h.value, zero.value);
    if shnum == 0 || h.value.shoff + shnum * SHDR_SIZE > |f| {
      return None;
    }
    var headers := ReadHeaders(f, h.value.shoff, shnum);
    if headers.None? || shstrndx >= |headers.value| {
      return None;
    }
    var hs := headers.value;
    var shstr := SectionBytes(f, hs[shstrndx]);
    var symtab := FindSymtab(hs);
    if shstr.None? || symtab.None? {
      return None;
    }
    var tables := SymbolBytes(f, hs, symtab.value);
    var contents := ReadContents(f, shstr.value, hs);
    if tables.None? || contents.None? || |tables.value.0| % SYM_SIZE != 0 {
      return None;
    }
    var syms := ReadSymbols(tables.value.0, tables.value.1, contents.value.index, |tables.value.0| / SYM_SIZE);
    if syms.None? {
      return None;
    }
    var linked := ReadRelaSections(f, symtab.value, contents.value, syms.value, hs);
    if linked.None? {
      return None;
    }
    return Some(ElfObject(h.value.machine, h.value.osabi, contents.value.gnuStack, linked.value.sections, linked.value.symbols));
  }
}
