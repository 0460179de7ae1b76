/**
  The section headers the ELF writer plans (src/elf.rs), and what its growing output keeps about them:
  every entry placed stays where its header says, and entries do not overlap.
 */
module ElfEntries {
  import opened Words
  import opened ElfWire
  import opened ElfObject
  import opened ElfFile

  /** One section header to come: its name, its fields, and the bytes it leads to. */
  datatype Entry = Entry(name: bytes, shType: u32, flags: u64, link: u32, info: u32, align: u64, entsize: u64, nobits: u64, data: bytes)

  function ContentEntry(s: ElfSection): Entry {
    Entry(s.name, s.shType, s.flags, 0, 0, s.align, 0, s.nobitsSize, s.data)
  }

  function StackNote(flags: u64): Entry {
    Entry(NOTE_GNU_STACK, SHT_PROGBITS, flags, 0, 0, 1, 0, 0, [])
  }

  function NoteEntries(gnuStack: Option<u64>): seq<Entry> {
    if gnuStack.None? then [] else [StackNote(gnuStack.value)]
  }

  function SymtabEntry(obj: ElfObject, symbols: bytes): Entry {
    Entry(SYMTAB_NAME, SHT_SYMTAB, 0, (SymtabAt(obj) + 1) % 0x1_0000_0000, (1 + |Locals(obj.symbols)|) % 0x1_0000_0000, 8, SYM_SIZE, 0, symbols)
  }

  function StringEntry(name: bytes, strings: bytes): Entry {
    Entry(name, SHT_STRTAB, 0, 0, 0, 1, 0, 0, strings)
  }

  function RelaEntry(obj: ElfObject, order: seq<nat>, t: nat): Entry
    requires t < |obj.sections|
  {
    Entry(RELA_PREFIX + obj.sections[t].name, SHT_RELA, 0, SymtabAt(obj) % 0x1_0000_0000, (1 + t) % 0x1_0000, 8, RELA_SIZE, 0,
          RelaBody(obj.sections[t].relas, order))
  }

  function ContentEntries(sections: seq<ElfSection>, n: nat): (r: seq<Entry>)
    requires n <= |sections|
    ensures |r| == n && forall i :: 0 <= i < n ==> r[i] == ContentEntry(sections[i])
  {
    seq(n, i requires 0 <= i < n => ContentEntry(sections[i]))
  }

  function RelaEntries(obj: ElfObject, order: seq<nat>, at: seq<nat>): (r: seq<Entry>)
    requires forall k :: 0 <= k < |at| ==> at[k] < |obj.sections|
    ensures |r| == |at| && forall k :: 0 <= k < |at| ==> r[k] == RelaEntry(obj, order, at[k])
  {
    seq(|at|, k requires 0 <= k < |at| => RelaEntry(obj, order, at[k]))
  }

  /** Everything in front of the relocations. */
  function FrontEntries(obj: ElfObject, symbols: bytes, strings: bytes): (r: seq<Entry>)
    ensures |r| == SymtabAt(obj) + 1
  {
    ContentEntries(obj.sections, |obj.sections|) + NoteEntries(obj.gnuStack) + [SymtabEntry(obj, symbols), StringEntry(STRTAB_NAME, strings)]
  }

  function AllEntries(obj: ElfObject, symbols: bytes, strings: bytes, names: bytes): (r: seq<Entry>)
    ensures |r| == NamesAt(obj)
  {
    FrontEntries(obj, symbols, strings) + RelaEntries(obj, LocalsFirst(obj.symbols), Relocated(obj.sections)) + [StringEntry(SHSTRTAB_NAME, names)]
  }

  // ---- the names entered --------------------------------------------------------------------

  /** The symbols' names in writing order. */
  function NamesIn(symbols: seq<ElfSymbol>, order: seq<nat>): (r: seq<bytes>)
    ensures |r| == |order| && forall k :: 0 <= k < |order| && order[k] < |symbols| ==> r[k] == symbols[order[k]].name
  {
    seq(|order|, k requires 0 <= k < |order| => if order[k] < |symbols| then symbols[order[k]].name else [])
  }

  function ContentNames(sections: seq<ElfSection>, n: nat): (r: seq<bytes>)
    requires n <= |sections|
    ensures |r| == n && forall i :: 0 <= i < n ==> r[i] == sections[i].name
  {
    seq(n, i requires 0 <= i < n => sections[i].name)
  }

  function TableNames(gnuStack: Option<u64>): seq<bytes> {
    (if gnuStack.Some? then [NOTE_GNU_STACK] else []) + [SYMTAB_NAME, STRTAB_NAME]
  }

  function RelaNames(sections: seq<ElfSection>, at: seq<nat>): (r: seq<bytes>)
    requires forall k :: 0 <= k < |at| ==> at[k] < |sections|
    ensures |r| == |at| && forall k :: 0 <= k < |at| ==> r[k] == RELA_PREFIX + sections[at[k]].name
  {
    seq(|at|, k requires 0 <= k < |at| => RELA_PREFIX + sections[at[k]].name)
  }

  function SectionNames(obj: ElfObject): seq<bytes> {
    ContentNames(obj.sections, |obj.sections|) + TableNames(obj.gnuStack) + RelaNames(obj.sections, Relocated(obj.sections)) + [SHSTRTAB_NAME]
  }

  /** The two string tables of the file. */
  function SymbolStrings(obj: ElfObject): bytes { TableOf(NamesIn(obj.symbols, LocalsFirst(obj.symbols))) }

  function SectionStrings(obj: ElfObject): bytes { TableOf(SectionNames(obj)) }

  // ---- placing one entry --------------------------------------------------------------------

  function RoundUp(v: nat, align: nat): nat {
    if align <= 1 then v else (v + align - 1) / align * align
  }

  lemma RoundUpLeast(v: nat, align: nat)
    ensures align > 1 ==> RoundUp(v, align) % align == 0
    ensures v <= RoundUp(v, align) < v + Max(align, 1)
  {
    if align > 1 {
      var x := v + align - 1;
      assert x == x / align * align + x % align;
      DivModUnique(x / align * align, align, x / align, 0);
    }
  }

  /** The header describes the entry, and the output after the file header holds its bytes. */
  predicate Written(e: Entry, h: Shdr, body: bytes, names: bytes) {
    && NameAt(names, h.name, e.name)
    && h.shType == e.shType && h.flags == e.flags && h.addr == 0 && h.link == e.link && h.info == e.info
    && h.align == e.align && h.entsize == e.entsize
    && (e.align > 1 ==> h.offset % e.align == 0)
    && if e.shType == SHT_NOBITS then h.size == e.nobits
       else h.size == |e.data| && EHDR_SIZE <= h.offset && SliceAt(body, h.offset - EHDR_SIZE, e.data)
  }

  lemma WrittenStill(e: Entry, h: Shdr, body: bytes, names: bytes, body': bytes, names': bytes)
    requires Written(e, h, body, names) && body <= body' && names <= names'
    ensures Written(e, h, body', names')
  {
    hide SliceAt, NameAt;
    StillReads(names, names', h.name, e.name);
    if e.shType != SHT_NOBITS {
      assert body' == body + body'[|body|..];
      SliceKept(body, body'[|body|..], h.offset - EHDR_SIZE, e.data);
    }
  }

  predicate Occupies(h: Shdr) { h.shType != SHT_NOBITS }

  /** Past the null header, file ranges follow one another and end by `end`. */
  ghost predicate Apart(headers: seq<Shdr>, end: nat) {
    && (forall i :: 1 <= i < |headers| && Occupies(headers[i]) ==>
          EHDR_SIZE <= headers[i].offset && headers[i].offset + headers[i].size <= end)
    && (forall i, j :: 1 <= i < j < |headers| && Occupies(headers[i]) && Occupies(headers[j]) ==>
          headers[i].offset + headers[i].size <= headers[j].offset)
  }

  /** Every recorded offset honours its alignment. */
  ghost predicate Aligned(headers: seq<Shdr>) {
    forall i :: 1 <= i < |headers| && headers[i].align > 1 ==> headers[i].offset % headers[i].align == 0
  }

  // ---- how much room is needed ----------------------------------------------------------------

  /** What an entry takes up in the file. */
  datatype Room = Room(align: nat, size: nat, stored: bool)

  function RoomOf(e: Entry): Room { Room(e.align, |e.data|, e.shType != SHT_NOBITS) }

  function RoomsOf(es: seq<Entry>): (r: seq<Room>)
    ensures |r| == |es| && forall i :: 0 <= i < |es| ==> r[i] == RoomOf(es[i])
  {
    seq(|es|, i requires 0 <= i < |es| => RoomOf(es[i]))
  }

  /** The file position behind a room that is placed at the next multiple of its alignment. */
  function Behind(r: Room, at: nat): nat {
    if r.stored then RoundUp(at, r.align) + r.size else at
  }

  /** The file position behind all rooms, one after another from the file header on. */
  function EndOf(rooms: seq<Room>): nat {
    if rooms == [] then EHDR_SIZE else Behind(rooms[|rooms| - 1], EndOf(rooms[..|rooms| - 1]))
  }

  lemma {:induction false} EndGrows(rooms: seq<Room>, k: nat)
    requires k <= |rooms|
    ensures EndOf(rooms[..k]) <= EndOf(rooms)
  {
    if k == |rooms| {
      assert rooms[..k] == rooms;
    } else {
      var last := |rooms| - 1;
      assert rooms[..last][..k] == rooms[..k];
      EndGrows(rooms[..last], k);
      RoundUpLeast(EndOf(rooms[..last]), rooms[last].align);
    }
  }

  /** The entries laid out so far, behind the null header. */
  ghost predicate Laid(es: seq<Entry>, headers: seq<Shdr>, body: bytes, names: bytes) {
    && |headers| == 1 + |es| && EHDR_SIZE + |body| == EndOf(RoomsOf(es))
    && (forall i :: 0 <= i < |es| ==> Written(es[i], headers[1 + i], body, names))
    && Apart(headers, EHDR_SIZE + |body|)
  }

  lemma RoomsNext(es: seq<Entry>, e: Entry)
    ensures EndOf(RoomsOf(es + [e])) == Behind(RoomOf(e), EndOf(RoomsOf(es)))
  {
    hide RoundUp, RoomOf;
    assert RoomsOf(es + [e])[..|es|] == RoomsOf(es);
  }

  lemma LaidNext(es: seq<Entry>, headers: seq<Shdr>, body: bytes, names: bytes, e: Entry, h: Shdr, body': bytes, names': bytes)
    requires Laid(es, headers, body, names) && body <= body' && names <= names' && Written(e, h, body', names')
    requires Occupies(h) ==> EHDR_SIZE + |body| <= h.offset && h.offset + h.size <= EHDR_SIZE + |body'|
    requires EHDR_SIZE + |body'| == Behind(RoomOf(e), EHDR_SIZE + |body|)
    ensures Laid(es + [e], headers + [h], body', names')
  {
    hide Written, RoundUp;
    RoomsNext(es, e);
    forall i | 0 <= i < |es| + 1 ensures Written((es + [e])[i], (headers + [h])[1 + i], body', names') {
      if i < |es| {
        WrittenStill(es[i], headers[1 + i], body, names, body', names');
      }
    }
  }

  // ---- from laid entries to the object's sections ---------------------------------------------

  /** An entry's header and bytes, seen in the whole file. */
  lemma EntryInFile(es: seq<Entry>, headers: seq<Shdr>, body: bytes, names: bytes, front: bytes, more: bytes, i: nat)
    requires Laid(es, headers, body, names) && i < |es| && |front| == EHDR_SIZE
    ensures var h, e := headers[1 + i], es[i];
            && NameAt(names, h.name, e.name)
            && h.shType == e.shType && h.flags == e.flags && h.link == e.link && h.info == e.info && h.align == e.align
            && if e.shType == SHT_NOBITS then h.size == e.nobits else Holds(front + body + more, h, e.data)
  {
    hide SliceAt, NameAt, Apart;
    var h, e := headers[1 + i], es[i];
    assert Written(e, h, body, names);
    if e.shType != SHT_NOBITS {
      assert SliceAt(front + body, EHDR_SIZE, body) by { assert front + body == front + body + []; SlicePiece(front + body, front, body, []); }
      SliceInside(front + body, EHDR_SIZE, body, h.offset - EHDR_SIZE, e.data);
      SliceKept(front + body, more, h.offset, e.data);
    }
  }

  lemma SectionsHeld(obj: ElfObject, p: Parts, body: bytes, front: bytes, more: bytes)
    requires Laid(AllEntries(obj, p.symbols, p.strings, p.names), p.headers, body, p.names)
    requires |front| == EHDR_SIZE && NamesAt(obj) <= U32_MAX
    ensures SectionsWritten(obj, front + body + more, p)
  {
    hide LocalsFirst, Locals, Relocated, RelaBody, NameAt, Holds, Laid, SectionEntry, TableEntry, NoteEntry, RelaEntries, FrontEntries,
      ContentEntries;
    var es, n, s, f := AllEntries(obj, p.symbols, p.strings, p.names), |obj.sections|, SymtabAt(obj), front + body + more;
    HeadersAll(es, p.headers, body, p.names);
    forall i | 0 <= i < n ensures SectionEntry(obj.sections[i], p.headers[1 + i], f, p.names) {
      ContentIndex(obj, p, i);
      ContentHeld(obj, p, body, front, more, i);
    }
    FrontHeld(obj, p, body, front, more);
    forall k | 0 <= k < |Relocated(obj.sections)|
      ensures TableEntry(p.headers[s + 2 + k], SHT_RELA, s, (1 + Relocated(obj.sections)[k]) % 0x1_0000, f,
                         RelaBody(obj.sections[Relocated(obj.sections)[k]].relas, LocalsFirst(obj.symbols)))
    {
      RelaHeld(obj, p, body, front, more, k);
    }
    NamesHeld(obj, p, body, front, more);
  }

  lemma HeadersAll(es: seq<Entry>, headers: seq<Shdr>, body: bytes, names: bytes)
    requires Laid(es, headers, body, names)
    ensures |headers| == 1 + |es|
  {
  }

  lemma ContentIndex(obj: ElfObject, p: Parts, i: nat)
    requires i < |obj.sections|
    ensures AllEntries(obj, p.symbols, p.strings, p.names)[i] == ContentEntry(obj.sections[i])
  {
    hide LocalsFirst, Locals, Relocated, RelaBody;
  }

  lemma ContentHeld(obj: ElfObject, p: Parts, body: bytes, front: bytes, more: bytes, i: nat)
    requires Laid(AllEntries(obj, p.symbols, p.strings, p.names), p.headers, body, p.names) && |front| == EHDR_SIZE
    requires i < |obj.sections| && AllEntries(obj, p.symbols, p.strings, p.names)[i] == ContentEntry(obj.sections[i])
    requires |p.headers| == 1 + NamesAt(obj)
    ensures SectionEntry(obj.sections[i], p.headers[1 + i], front + body + more, p.names)
  {
    hide Laid, AllEntries, NameAt, Holds, Relocated;
    EntryInFile(AllEntries(obj, p.symbols, p.strings, p.names), p.headers, body, p.names, front, more, i);
  }

  lemma FrontHeld(obj: ElfObject, p: Parts, body: bytes, front: bytes, more: bytes)
    requires Laid(AllEntries(obj, p.symbols, p.strings, p.names), p.headers, body, p.names) && |front| == EHDR_SIZE
    requires |p.headers| == 1 + NamesAt(obj) && NamesAt(obj) <= U32_MAX
    ensures var n, s, f := |obj.sections|, SymtabAt(obj), front + body + more;
            && (obj.gnuStack.Some? ==> NoteEntry(obj.gnuStack.value, p.headers[1 + n], p.names))
            && TableEntry(p.headers[s], SHT_SYMTAB, s + 1, (1 + |Locals(obj.symbols)|) % 0x1_0000_0000, f, p.symbols)
            && TableEntry(p.headers[s + 1], SHT_STRTAB, 0, 0, f, p.strings)
  {
    hide LocalsFirst, Locals, Relocated, RelaBody, NameAt, Holds, Laid;
    var es, n, s := AllEntries(obj, p.symbols, p.strings, p.names), |obj.sections|, SymtabAt(obj);
    assert es[s - 1] == SymtabEntry(obj, p.symbols) && es[s] == StringEntry(STRTAB_NAME, p.strings);
    EntryInFile(es, p.headers, body, p.names, front, more, s - 1);
    EntryInFile(es, p.headers, body, p.names, front, more, s);
    if obj.gnuStack.Some? {
      assert es[n] == StackNote(obj.gnuStack.value);
      EntryInFile(es, p.headers, body, p.names, front, more, n);
    }
  }

  lemma RelaHeld(obj: ElfObject, p: Parts, body: bytes, front: bytes, more: bytes, k: nat)
    requires Laid(AllEntries(obj, p.symbols, p.strings, p.names), p.headers, body, p.names) && |front| == EHDR_SIZE
    requires |p.headers| == 1 + NamesAt(obj) && NamesAt(obj) <= U32_MAX && k < |Relocated(obj.sections)|
    ensures var t := Relocated(obj.sections)[k];
            TableEntry(p.headers[SymtabAt(obj) + 2 + k], SHT_RELA, SymtabAt(obj), (1 + t) % 0x1_0000, front + body + more,
                       RelaBody(obj.sections[t].relas, LocalsFirst(obj.symbols)))
  {
    hide LocalsFirst, Locals, Relocated, RelaBody, NameAt, Holds, Laid, FrontEntries;
    var es, s := AllEntries(obj, p.symbols, p.strings, p.names), SymtabAt(obj);
    assert es[s + 1 + k] == RelaEntry(obj, LocalsFirst(obj.symbols), Relocated(obj.sections)[k]);
    EntryInFile(es, p.headers, body, p.names, front, more, s + 1 + k);
  }

  lemma NamesHeld(obj: ElfObject, p: Parts, body: bytes, front: bytes, more: bytes)
    requires Laid(AllEntries(obj, p.symbols, p.strings, p.names), p.headers, body, p.names) && |front| == EHDR_SIZE
    requires |p.headers| == 1 + NamesAt(obj)
    ensures TableEntry(p.headers[NamesAt(obj)], SHT_STRTAB, 0, 0, front + body + more, p.names)
  {
    hide LocalsFirst, Locals, Relocated, RelaBody, NameAt, Holds, Laid, FrontEntries, RelaEntries;
    var es := AllEntries(obj, p.symbols, p.strings, p.names);
    assert es[NamesAt(obj) - 1] == StringEntry(SHSTRTAB_NAME, p.names);
    EntryInFile(es, p.headers, body, p.names, front, more, NamesAt(obj) - 1);
  }

  // ---- the size of the file ----------------------------------------------------------------------

  /** The rooms of the whole object; they depend on the size of the symbol table only, not on its entries. */
  function Rooms(obj: ElfObject): seq<Room> {
    RoomsOf(AllEntries(obj, Repeated(0, SYM_SIZE * (1 + |obj.symbols|)), SymbolStrings(obj), SectionStrings(obj)))
  }

  lemma SameRooms(obj: ElfObject, symbols: bytes)
    requires |symbols| == SYM_SIZE * (1 + |obj.symbols|)
    ensures RoomsOf(AllEntries(obj, symbols, SymbolStrings(obj), SectionStrings(obj))) == Rooms(obj)
  {
    hide LocalsFirst, Relocated, RelaEntries, SectionStrings, SymbolStrings, ContentEntries, Locals;
    var zeros := Repeated(0, SYM_SIZE * (1 + |obj.symbols|));
    var a := AllEntries(obj, symbols, SymbolStrings(obj), SectionStrings(obj));
    var b := AllEntries(obj, zeros, SymbolStrings(obj), SectionStrings(obj));
    forall i | 0 <= i < |a| ensures RoomOf(a[i]) == RoomOf(b[i]) {
      if i != SymtabAt(obj) - 1 {
        assert a[i] == b[i];
      }
    }
  }

  /** Everything behind one another, and the header table at the next multiple of eight. */
  function FileSize(obj: ElfObject): nat {
    RoundUp(EndOf(Rooms(obj)), 8) + SHDR_SIZE * (NamesAt(obj) + 1)
  }
}
